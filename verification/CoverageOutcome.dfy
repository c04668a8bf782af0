/** Complete coverage, and what is reported otherwise, in the receipts' own fields (`cacheon/receipts.py`). */
module CoverageOutcome {
  import opened Orders
  import opened Wrappers
  import opened Coverage

  /** A positive pid, and either no place yet or a rank inside its world. */
  ghost predicate Sound(r: Receipt) {
    && r.pid.Some? && r.pid.value > 0 && r.rank.Some? && r.world.Some?
    && ((r.rank.value == -1 && r.world.value == -1) || 0 <= r.rank.value < r.world.value)
  }

  /** The model's reading of a receipt agrees with its fields. */
  ghost predicate ReadAsStated(r: Receipt) {
    && (Valid(r) <==> Sound(r))
    && (Sound(r) ==> Pid(r) == r.pid.value && PlaceOf(r) == Place(r.rank.value, r.world.value))
    && (Sound(r) ==> (PlaceOf(r) == UNPLACED <==> r.rank.value == -1))
  }

  lemma SoundIff(r: Receipt)
    ensures ReadAsStated(r)
  {
    IdentityMeaning(r);
    if Sound(r) { assert Names(r, Identity(r.pid.value, Place(r.rank.value, r.world.value))); }
  }

  lemma AllSoundIff(s: seq<Receipt>)
    ensures forall r :: r in s ==> ReadAsStated(r)
  {
    forall r | r in s ensures ReadAsStated(r) { SoundIff(r); }
  }

  // ----- complete coverage

  /** Sound members of different pids, as many as expected; none placed, or each on its own rank of their world. */
  ghost predicate SoundRoster(members: seq<Receipt>, count: Option<int>) {
    && members != [] && (count.None? || |members| == count.value)
    && (forall m :: m in members ==> Sound(m))
    && (forall i, j :: 0 <= i < j < |members| ==> members[i].pid != members[j].pid)
    && ((forall m :: m in members ==> m.rank == Some(-1)) || EachOnItsRank(members))
  }

  ghost predicate EachOnItsRank(members: seq<Receipt>) {
    && (forall m :: m in members ==> m.world == Some(|members|))
    && forall i, j :: 0 <= i < j < |members| ==> members[i].rank != members[j].rank
  }

  /** A completion of an expected slot by a member, from where the member stands. */
  ghost predicate Belongs(r: Receipt, slots: set<string>, members: seq<Receipt>) {
    && Sound(r) && r.slot.Some? && r.slot.value in slots
    && exists m :: m in members && m.pid == r.pid && (m.rank == Some(-1) || (m.rank == r.rank && m.world == r.world))
  }

  ghost predicate CompletesAt(got: seq<Receipt>, i: int, slot: string, pid: Option<int>) {
    0 <= i < |got| && got[i].slot == Some(slot) && got[i].pid == pid
  }

  ghost predicate OnlyCompletion(got: seq<Receipt>, i: int, slot: string, pid: Option<int>) {
    CompletesAt(got, i, slot, pid) && forall j :: CompletesAt(got, j, slot, pid) ==> j == i
  }

  ghost predicate ExactlyOnce(got: seq<Receipt>, slot: string, pid: Option<int>) {
    exists i :: OnlyCompletion(got, i, slot, pid)
  }

  /** Unplaced members prove a rank each by their completions; a single one may stay unplaced. */
  ghost predicate RanksProved(got: seq<Receipt>, n: nat) {
    if n > 1 then
      && (forall r :: r in got ==> r.world == Some(n))
      && forall i, j :: 0 <= i < j < |got| ==> (got[i].pid == got[j].pid <==> got[i].rank == got[j].rank)
    else forall r :: r in got ==> r.rank == Some(-1) || (r.rank == Some(0) && r.world == Some(1))
  }

  /** Exactly one completion of every slot by every member, and nothing else. */
  ghost predicate FullCoverage(got: seq<Receipt>, slots: set<string>, members: seq<Receipt>, count: Option<int>) {
    && slots != {} && "" !in slots && SoundRoster(members, count)
    && (forall r :: r in got ==> Belongs(r, slots, members))
    && (forall s, m :: s in slots && m in members ==> ExactlyOnce(got, s, m.pid))
    && ((forall m :: m in members ==> m.rank == Some(-1)) ==> RanksProved(got, |members|))
  }

  lemma RosterIff(members: seq<Receipt>, count: Option<int>)
    ensures Roster(members, count) <==> SoundRoster(members, count)
    ensures SoundRoster(members, count) ==> (Anonymous(members) <==> forall m :: m in members ==> m.rank == Some(-1))
  {
    AllSoundIff(members);
    if forall m :: m in members ==> Sound(m) {
      forall i, j | 0 <= i < j < |members|
        ensures DifferentPid(members[i], members[j]) <==> members[i].pid != members[j].pid
        ensures DifferentRank(members[i], members[j]) <==> members[i].rank != members[j].rank
      {
        assert members[i] in members && members[j] in members;
      }
    }
  }

  lemma BelongsIff(r: Receipt, slots: set<string>, members: seq<Receipt>)
    requires forall m :: m in members ==> Sound(m)
    ensures Placed(r, slots, members) <==> Belongs(r, slots, members)
  {
    AllSoundIff(members);
    SoundIff(r);
  }

  lemma OnceIff(got: seq<Receipt>, slots: set<string>, members: seq<Receipt>)
    requires (forall m :: m in members ==> Sound(m)) && forall r :: r in got ==> Belongs(r, slots, members)
    ensures Covers(got, slots, members) && Pairwise(DifferentPair, got) <==>
      forall s, m :: s in slots && m in members ==> ExactlyOnce(got, s, m.pid)
  {
    AllSoundIff(members);
    AllSoundIff(got);
    if Covers(got, slots, members) && Pairwise(DifferentPair, got) {
      forall s, m | s in slots && m in members ensures ExactlyOnce(got, s, m.pid) {
        var r :| r in got && Completes(r, s, Pid(m));
        var i :| 0 <= i < |got| && got[i] == r;
        OnlyAt(got, i, s, m.pid);
      }
    }
    if forall s, m :: s in slots && m in members ==> ExactlyOnce(got, s, m.pid) {
      forall s, m | s in slots && m in members ensures exists r :: r in got && Completes(r, s, Pid(m)) {
        assert ExactlyOnce(got, s, m.pid);
        var i :| OnlyCompletion(got, i, s, m.pid);
        assert got[i] in got && Completes(got[i], s, Pid(m));
      }
      forall i, j | 0 <= i < j < |got| ensures DifferentPair(got[i], got[j]) { TwoDiffer(got, slots, members, i, j); }
    }
  }

  lemma PairsApart(got: seq<Receipt>, i: nat, j: nat)
    requires Pairwise(DifferentPair, got) && i < j < |got| && Sound(got[i]) && Sound(got[j])
    ensures got[i].slot != got[j].slot || got[i].pid != got[j].pid
  {
    SoundIff(got[i]);
    SoundIff(got[j]);
    assert DifferentPair(got[i], got[j]);
  }

  lemma SameIndex(got: seq<Receipt>, i: nat, j: nat, s: string, pid: Option<int>)
    requires Pairwise(DifferentPair, got) && (forall r :: r in got ==> Sound(r))
    requires CompletesAt(got, i, s, pid) && CompletesAt(got, j, s, pid)
    ensures j <= i
  {
    if i < j {
      assert got[i] in got && got[j] in got;
      PairsApart(got, i, j);
    }
  }

  lemma OnlyAt(got: seq<Receipt>, i: nat, s: string, pid: Option<int>)
    requires Pairwise(DifferentPair, got) && CompletesAt(got, i, s, pid) && forall r :: r in got ==> Sound(r)
    ensures ExactlyOnce(got, s, pid)
  {
    forall j | CompletesAt(got, j, s, pid) ensures j == i {
      SameIndex(got, i, j, s, pid);
      SameIndex(got, j, i, s, pid);
    }
    assert OnlyCompletion(got, i, s, pid);
  }

  lemma TwoDiffer(got: seq<Receipt>, slots: set<string>, members: seq<Receipt>, i: nat, j: nat)
    requires i < j < |got| && forall r :: r in got ==> Belongs(r, slots, members)
    requires forall s, m :: s in slots && m in members ==> ExactlyOnce(got, s, m.pid)
    ensures DifferentPair(got[i], got[j])
  {
    AllSoundIff(got);
    assert got[i] in got && got[j] in got;
    if got[i].slot == got[j].slot && got[i].pid == got[j].pid {
      var m :| m in members && m.pid == got[i].pid;
      assert ExactlyOnce(got, got[i].slot.value, m.pid);
      assert CompletesAt(got, i, got[i].slot.value, m.pid) && CompletesAt(got, j, got[i].slot.value, m.pid);
    }
  }

  lemma ProvedIff(got: seq<Receipt>, n: nat)
    requires forall r :: r in got ==> Sound(r)
    ensures Coherent(got, n) <==> RanksProved(got, n)
  {
    AllSoundIff(got);
    if n > 1 {
      forall i, j | 0 <= i < j < |got|
        ensures SamePidSameRank(got[i], got[j]) <==> (got[i].pid == got[j].pid <==> got[i].rank == got[j].rank)
      {
        assert got[i] in got && got[j] in got;
      }
    }
  }

  /** Coverage is complete exactly when the receipts' own fields say so. */
  lemma CompleteMeaning(got: seq<Receipt>, slots: set<string>, members: seq<Receipt>, count: Option<int>)
    ensures Complete(got, slots, members, count) <==> FullCoverage(got, slots, members, count)
  {
    RosterIff(members, count);
    if SoundRoster(members, count) {
      forall r | r in got ensures Placed(r, slots, members) <==> Belongs(r, slots, members) {
        BelongsIff(r, slots, members);
      }
      if forall r :: r in got ==> Belongs(r, slots, members) {
        OnceIff(got, slots, members);
        ProvedIff(got, |members|);
      }
    }
  }

  // ----- what is reported

  /** Receipt `i` is the last sound one of its pid. */
  ghost predicate Standing(members: seq<Receipt>, i: int, pid: int) {
    && 0 <= i < |members| && Sound(members[i]) && members[i].pid == Some(pid)
    && forall j :: i < j < |members| && Sound(members[j]) ==> members[j].pid != Some(pid)
  }

  ghost predicate OnRoster(members: seq<Receipt>, pid: int) {
    exists i :: Standing(members, i, pid)
  }

  /** The completion's member stands, placed, somewhere else. */
  ghost predicate Elsewhere(r: Receipt, members: seq<Receipt>)
    requires Sound(r)
  {
    exists i :: Standing(members, i, r.pid.value) && members[i].rank != Some(-1) &&
      (members[i].rank != r.rank || members[i].world != r.world)
  }

  ghost predicate IllFormed(r: Receipt, members: seq<Receipt>) {
    r.slot == None || r.slot == Some("") || !Sound(r) || Elsewhere(r, members)
  }

  ghost predicate Foreign(r: Receipt, slots: set<string>, members: seq<Receipt>) {
    !IllFormed(r, members) && (r.slot.value !in slots || !OnRoster(members, r.pid.value))
  }

  ghost predicate Countable(r: Receipt, slots: set<string>, members: seq<Receipt>) {
    !IllFormed(r, members) && r.slot.value in slots && OnRoster(members, r.pid.value)
  }

  /** A sound member whose pid an earlier sound one has. */
  ghost predicate SeenMember(members: seq<Receipt>, i: nat)
    requires i < |members|
  {
    Sound(members[i]) && exists j :: 0 <= j < i && Sound(members[j]) && members[j].pid == members[i].pid
  }

  ghost predicate SamePair(a: Receipt, b: Receipt) {
    a.slot == b.slot && a.pid == b.pid
  }

  /** A countable completion of a slot and pid an earlier countable one has. */
  ghost predicate SeenCompletion(got: seq<Receipt>, slots: set<string>, members: seq<Receipt>, i: nat)
    requires i < |got|
  {
    Countable(got[i], slots, members) &&
    exists j :: 0 <= j < i && Countable(got[j], slots, members) && SamePair(got[j], got[i])
  }

  /** `out` is what stands at the indices in `at`, which rise. */
  ghost predicate Picked<T>(s: seq<T>, at: seq<nat>, out: seq<T>) {
    Rising(at) && |at| == |out| && forall k :: 0 <= k < |at| ==> at[k] < |s| && out[k] == s[at[k]]
  }

  /** `out` lists, in order, the rows whose index is wanted. */
  ghost predicate Lists<T>(s: seq<T>, wanted: set<nat>, out: seq<T>) {
    exists at :: Picked(s, at, out) && forall i :: i in at <==> i in wanted
  }

  // ----- the roster's dictionary

  lemma {:induction false} LastSound(members: seq<Receipt>, p: int, n: nat)
    requires n <= |members| && exists i :: 0 <= i < n && Sound(members[i]) && members[i].pid == Some(p)
    requires forall j :: n <= j < |members| && Sound(members[j]) ==> members[j].pid != Some(p)
    ensures OnRoster(members, p)
  {
    if Sound(members[n - 1]) && members[n - 1].pid == Some(p) {
      assert Standing(members, n - 1, p);
    } else {
      LastSound(members, p, n - 1);
    }
  }

  lemma StandsAs(members: seq<Receipt>, i: int, p: int)
    requires Standing(members, i, p)
    ensures p in RosterPlaces(members)
    ensures RosterPlaces(members)[p] == Place(members[i].rank.value, members[i].world.value)
  {
    AllSoundIff(members);
    RosterMeaning(members);
    assert members[i] in members;
    forall j | i < j < |members| && Valid(members[j]) ensures Pid(members[j]) != Pid(members[i]) {
      assert members[j] in members;
    }
    assert LastOfPid(members, i);
  }

  lemma OnRosterIff(members: seq<Receipt>, p: int)
    ensures p in RosterPlaces(members) <==> OnRoster(members, p)
  {
    RosterMeaning(members);
    AllSoundIff(members);
    if p in RosterPlaces(members) {
      var m :| m in members && Valid(m) && Pid(m) == p;
      var i :| 0 <= i < |members| && members[i] == m;
      LastSound(members, p, |members|);
    }
    if OnRoster(members, p) {
      var i :| Standing(members, i, p);
      StandsAs(members, i, p);
    }
  }

  lemma ElsewhereIff(r: Receipt, members: seq<Receipt>)
    requires Sound(r)
    ensures Elsewhere(r, members) <==>
      var ids := RosterPlaces(members); Pid(r) in ids && ids[Pid(r)] != UNPLACED && ids[Pid(r)] != PlaceOf(r)
  {
    SoundIff(r);
    OnRosterIff(members, r.pid.value);
    forall i | Standing(members, i, r.pid.value)
      ensures RosterPlaces(members)[Pid(r)] == Place(members[i].rank.value, members[i].world.value)
      ensures members[i].rank != Some(-1) <==> RosterPlaces(members)[Pid(r)] != UNPLACED
    {
      StandsAs(members, i, r.pid.value);
    }
  }

  lemma ClassIff(r: Receipt, slots: set<string>, members: seq<Receipt>)
    ensures Malformed(r, RosterPlaces(members)) <==> IllFormed(r, members)
    ensures Unexpected(r, slots, RosterPlaces(members)) <==> Foreign(r, slots, members)
    ensures Counted(r, slots, RosterPlaces(members)) <==> Countable(r, slots, members)
  {
    SoundIff(r);
    if Sound(r) {
      ElsewhereIff(r, members);
      OnRosterIff(members, r.pid.value);
    }
  }

  // ----- the lists

  lemma KeepLists<T>(s: seq<T>, f: T -> bool, wanted: set<nat>)
    requires forall i :: i in wanted <==> 0 <= i < |s| && f(s[i])
    ensures Lists(s, wanted, Keep(s, f))
  {
    var at := KeepPositions(s, f);
    forall i ensures i in at <==> i in wanted {
      if i in at { var k :| 0 <= k < |at| && at[k] == i; }
    }
    assert Picked(s, at, Keep(s, f));
  }

  lemma ListsSnoc<T>(s: seq<T>, wanted: set<nat>, out: seq<T>, x: T, more: set<nat>)
    requires Lists(s, wanted, out) && more == wanted + {|s|}
    ensures Lists(s + [x], more, out + [x])
  {
    var at: seq<nat> :| Picked(s, at, out) && forall i :: i in at <==> i in wanted;
    var longer := at + [|s|];
    assert Picked(s + [x], longer, out + [x]);
    forall i ensures i in longer <==> i in more { assert i in longer <==> i in at || i == |s|; }
  }

  lemma ListsSkip<T>(s: seq<T>, wanted: set<nat>, out: seq<T>, x: T)
    requires Lists(s, wanted, out)
    ensures Lists(s + [x], wanted, out)
  {
    var at: seq<nat> :| Picked(s, at, out) && forall i :: i in at <==> i in wanted;
    assert Picked(s + [x], at, out);
  }

  lemma ListsStep<T>(s: seq<T>, wanted: set<nat>, out: seq<T>, x: T, add: bool)
    requires Lists(s, wanted, out)
    ensures Lists(s + [x], if add then wanted + {|s|} else wanted, out + if add then [x] else [])
  {
    if add {
      ListsSnoc(s, wanted, out, x, wanted + {|s|});
    } else {
      ListsSkip(s, wanted, out, x);
      assert out + [] == out;
    }
  }

  ghost function BadMembers(members: seq<Receipt>): set<nat> {
    set i: nat | i < |members| && !Sound(members[i])
  }

  ghost function SeenMembers(members: seq<Receipt>, n: nat): set<nat>
    requires n <= |members|
  {
    set i: nat | i < n && SeenMember(members, i)
  }

  ghost function IllFormedIn(got: seq<Receipt>, members: seq<Receipt>): set<nat> {
    set i: nat | i < |got| && IllFormed(got[i], members)
  }

  ghost function ForeignIn(got: seq<Receipt>, slots: set<string>, members: seq<Receipt>): set<nat> {
    set i: nat | i < |got| && Foreign(got[i], slots, members)
  }

  ghost function SeenIn(got: seq<Receipt>, slots: set<string>, members: seq<Receipt>, n: nat): set<nat>
    requires n <= |got|
  {
    set i: nat | i < n && SeenCompletion(got, slots, members, i)
  }

  lemma SeenMemberIff(members: seq<Receipt>, n: nat)
    requires n < |members|
    ensures SeenMember(members, n) <==> Valid(members[n]) && Pid(members[n]) in RosterPlaces(members[..n])
  {
    var init := members[..n];
    SoundIff(members[n]);
    AllSoundIff(init);
    RosterMeaning(init);
    if SeenMember(members, n) {
      var j :| 0 <= j < n && Sound(members[j]) && members[j].pid == members[n].pid;
      assert init[j] in init;
    }
    if Valid(members[n]) && Pid(members[n]) in RosterPlaces(init) {
      var m :| m in init && Valid(m) && Pid(m) == Pid(members[n]);
      var j :| 0 <= j < |init| && init[j] == m;
      assert members[j] == m;
    }
  }

  lemma SeenMembersNext(members: seq<Receipt>, n: nat)
    requires n < |members|
    ensures SeenMembers(members, n + 1) == SeenMembers(members, n) + if SeenMember(members, n) then {n} else {}
  {
  }

  lemma {:induction false} SeenMembersListed(members: seq<Receipt>, n: nat)
    requires n <= |members|
    ensures Lists(members[..n], SeenMembers(members, n), RepeatedMembers(members[..n]))
  {
    if n == 0 {
      assert Picked<Receipt>([], [], []);
    } else {
      var init, m, out := members[..n - 1], members[n - 1], RepeatedMembers(members[..n - 1]);
      SeenMembersListed(members, n - 1);
      SeenMemberIff(members, n - 1);
      assert members[..n] == init + [m] && members[..n][..n - 1] == init;
      var add := SeenMember(members, n - 1);
      ListsStep(init, SeenMembers(members, n - 1), out, m, add);
      SeenMembersNext(members, n - 1);
    }
  }

  lemma SeenCompletionIff(got: seq<Receipt>, slots: set<string>, members: seq<Receipt>, n: nat)
    requires n < |got|
    ensures SeenCompletion(got, slots, members, n) <==>
      var ids := RosterPlaces(members); Counted(got[n], slots, ids) && Tally(got[..n], slots, ids, SlotPid(got[n])) > 0
  {
    var ids, init := RosterPlaces(members), got[..n];
    forall i | 0 <= i <= n
      ensures Counted(got[i], slots, ids) <==> Countable(got[i], slots, members)
      ensures Countable(got[i], slots, members) ==> SlotPid(got[i]) == (got[i].slot.value, got[i].pid.value)
    {
      ClassIff(got[i], slots, members);
      SoundIff(got[i]);
    }
    if got[n].slot.Some? { TallyPositive(init, slots, ids, SlotPid(got[n])); }
    if SeenCompletion(got, slots, members, n) {
      var j :| 0 <= j < n && Countable(got[j], slots, members) && SamePair(got[j], got[n]);
      assert init[j] in init;
    }
    if Counted(got[n], slots, ids) && Tally(init, slots, ids, SlotPid(got[n])) > 0 {
      var r :| r in init && Counted(r, slots, ids) && SlotPid(r) == SlotPid(got[n]);
      var j :| 0 <= j < |init| && init[j] == r;
      assert got[j] == r;
    }
  }

  lemma SeenInNext(got: seq<Receipt>, slots: set<string>, members: seq<Receipt>, n: nat)
    requires n < |got|
    ensures SeenIn(got, slots, members, n + 1) ==
      SeenIn(got, slots, members, n) + if SeenCompletion(got, slots, members, n) then {n} else {}
  {
  }

  lemma {:induction false} SeenCompletionsListed(got: seq<Receipt>, slots: set<string>, members: seq<Receipt>, n: nat)
    requires n <= |got|
    ensures Lists(got[..n], SeenIn(got, slots, members, n), Repeats(got[..n], slots, RosterPlaces(members)))
  {
    if n == 0 {
      assert Picked<Receipt>([], [], []);
    } else {
      var init, r, out := got[..n - 1], got[n - 1], Repeats(got[..n - 1], slots, RosterPlaces(members));
      SeenCompletionsListed(got, slots, members, n - 1);
      SeenCompletionIff(got, slots, members, n - 1);
      assert got[..n] == init + [r] && got[..n][..n - 1] == init;
      var add := SeenCompletion(got, slots, members, n - 1);
      ListsStep(init, SeenIn(got, slots, members, n - 1), out, r, add);
      SeenInNext(got, slots, members, n - 1);
    }
  }

  lemma ClassesListed(got: seq<Receipt>, slots: set<string>, members: seq<Receipt>)
    ensures Lists(members, BadMembers(members), Keep(members, Invalid))
    ensures Lists(got, IllFormedIn(got, members), Keep(got, MalformedBy(RosterPlaces(members))))
    ensures Lists(got, ForeignIn(got, slots, members), Keep(got, UnexpectedBy(slots, RosterPlaces(members))))
  {
    var ids := RosterPlaces(members);
    forall i: nat | i < |members| ensures Invalid(members[i]) <==> !Sound(members[i]) { SoundIff(members[i]); }
    forall i: nat | i < |got|
      ensures MalformedBy(ids)(got[i]) <==> IllFormed(got[i], members)
      ensures UnexpectedBy(slots, ids)(got[i]) <==> Foreign(got[i], slots, members)
    {
      ClassIff(got[i], slots, members);
    }
    KeepLists(members, Invalid, BadMembers(members));
    KeepLists(got, MalformedBy(ids), IllFormedIn(got, members));
    KeepLists(got, UnexpectedBy(slots, ids), ForeignIn(got, slots, members));
  }

  // ----- placement

  ghost predicate NobodyPlaced(members: seq<Receipt>) {
    forall i, p :: Standing(members, i, p) ==> members[i].rank == Some(-1)
  }

  /** All stand in a world of `n`, and every rank of it is taken. */
  ghost predicate OneWorld(members: seq<Receipt>, n: nat) {
    && (forall i, p :: Standing(members, i, p) ==> members[i].world == Some(n))
    && forall k :: 0 <= k < n ==> RankTaken(members, k)
  }

  ghost predicate RankTaken(members: seq<Receipt>, k: int) {
    exists i, p :: Standing(members, i, p) && members[i].rank == Some(k)
  }

  /** Of `n` pids nobody is placed, or all are, in one world of the expected size. */
  ghost predicate Fits(members: seq<Receipt>, n: nat, count: Option<int>) {
    NobodyPlaced(members) || (OneWorld(members, n) && (count.None? || count.value == n))
  }

  /** Somebody is placed, and somebody else is not or is in another world. */
  ghost predicate Spread(members: seq<Receipt>) {
    exists i, p, j, q :: Apart(members, i, p, j, q)
  }

  ghost predicate Apart(members: seq<Receipt>, i: int, p: int, j: int, q: int) {
    && Standing(members, i, p) && members[i].rank != Some(-1) && Standing(members, j, q)
    && (members[j].rank == Some(-1) || members[j].world != members[i].world)
  }

  lemma StandsSomewhere(members: seq<Receipt>, p: int) returns (i: int)
    requires p in RosterPlaces(members)
    ensures Standing(members, i, p)
    ensures RosterPlaces(members)[p] == Place(members[i].rank.value, members[i].world.value)
  {
    OnRosterIff(members, p);
    i :| Standing(members, i, p);
    StandsAs(members, i, p);
  }

  lemma KnownIff(ids: map<int, Place>)
    ensures Known(ids) == {} <==> forall p :: p in ids ==> ids[p] == UNPLACED
    ensures Known(ids) == ids.Keys <==> forall p :: p in ids ==> ids[p] != UNPLACED
  {
    var known := Known(ids);
    forall p ensures p in known <==> p in ids && ids[p] != UNPLACED { }
    if forall p :: p in ids ==> ids[p] == UNPLACED { assert known == {}; }
    if forall p :: p in ids ==> ids[p] != UNPLACED { assert known == ids.Keys; }
  }

  lemma SomeKnown(ids: map<int, Place>) returns (p: int)
    requires Known(ids) != {}
    ensures p in ids && ids[p] != UNPLACED
  {
    KnownIff(ids);
    p :| p in ids && ids[p] != UNPLACED;
  }

  lemma NobodyIff(members: seq<Receipt>)
    ensures Known(RosterPlaces(members)) == {} <==> NobodyPlaced(members)
  {
    var ids := RosterPlaces(members);
    if Known(ids) == {} {
      forall i, p | Standing(members, i, p) ensures members[i].rank == Some(-1) {
        StandsAs(members, i, p);
        assert p !in Known(ids);
      }
    } else {
      var p := SomeKnown(ids);
      var i := StandsSomewhere(members, p);
    }
  }

  lemma WorldIs(members: seq<Receipt>, n: nat, q: int)
    requires q in RosterPlaces(members)
    ensures (forall i, p :: Standing(members, i, p) ==> members[i].world == Some(n)) <==>
      WorldsIn(RosterPlaces(members), RosterPlaces(members).Keys) == {n as int}
  {
    var ids := RosterPlaces(members);
    var worlds := WorldsIn(ids, ids.Keys);
    assert ids[q].world in worlds;
    if forall i, p :: Standing(members, i, p) ==> members[i].world == Some(n) {
      forall p | p in ids ensures ids[p].world == n { var i := StandsSomewhere(members, p); }
    }
    if worlds == {n as int} {
      forall i, p | Standing(members, i, p) ensures members[i].world == Some(n) {
        StandsAs(members, i, p);
        assert ids[p].world in worlds;
      }
    }
  }

  lemma RankIs(members: seq<Receipt>, k: int)
    ensures RankTaken(members, k) <==> k in RanksIn(RosterPlaces(members), RosterPlaces(members).Keys)
  {
    var ids := RosterPlaces(members);
    if i, p :| Standing(members, i, p) && members[i].rank == Some(k) { StandsAs(members, i, p); }
    if k in RanksIn(ids, ids.Keys) {
      var p :| p in ids && ids[p].rank == k;
      var i := StandsSomewhere(members, p);
    }
  }

  lemma InWorld(members: seq<Receipt>, n: nat)
    requires forall i, p :: Standing(members, i, p) ==> members[i].world == Some(n)
    ensures forall p :: p in RosterPlaces(members) ==>
      RosterPlaces(members)[p] != UNPLACED && 0 <= RosterPlaces(members)[p].rank < n
  {
    forall p | p in RosterPlaces(members)
      ensures RosterPlaces(members)[p] != UNPLACED && 0 <= RosterPlaces(members)[p].rank < n
    {
      var i := StandsSomewhere(members, p);
      assert members[i].world == Some(n);
    }
  }

  lemma RanksAre(members: seq<Receipt>, n: nat)
    requires forall i, p :: Standing(members, i, p) ==> members[i].world == Some(n)
    ensures (forall k :: 0 <= k < n ==> RankTaken(members, k)) <==>
      RanksIn(RosterPlaces(members), RosterPlaces(members).Keys) == Range(n)
  {
    var ids := RosterPlaces(members);
    InWorld(members, n);
    forall k ensures RankTaken(members, k) <==> k in RanksIn(ids, ids.Keys) { RankIs(members, k); }
    assert RanksIn(ids, ids.Keys) <= Range(n);
  }

  lemma WorldIff(members: seq<Receipt>, n: nat, q: int)
    requires q in RosterPlaces(members)
    ensures OneWorld(members, n) <==>
      var ids := RosterPlaces(members);
      Known(ids) == ids.Keys && WorldsIn(ids, ids.Keys) == {n as int} && RanksIn(ids, ids.Keys) == Range(n)
  {
    WorldIs(members, n, q);
    if forall i, p :: Standing(members, i, p) ==> members[i].world == Some(n) {
      InWorld(members, n);
      RanksAre(members, n);
      KnownIff(RosterPlaces(members));
    }
  }

  lemma FitsIff(members: seq<Receipt>, count: Option<int>)
    ensures Fitting(RosterPlaces(members), count) <==> Fits(members, |RosterPlaces(members)|, count)
  {
    NobodyIff(members);
    if Known(RosterPlaces(members)) != {} {
      var q := SomeKnown(RosterPlaces(members));
      WorldIff(members, |RosterPlaces(members)|, q);
    }
  }

  lemma ManyWorlds(worlds: set<int>, w: int)
    requires w in worlds
    ensures |worlds| != 1 <==> exists v :: v in worlds && v != w
  {
    if |worlds| == 1 { SubsetSame({w}, worlds); }
    if forall v :: v in worlds ==> v == w { assert worlds == {w}; }
  }

  lemma ApartScatters(members: seq<Receipt>, i: int, p: int, j: int, q: int)
    requires Apart(members, i, p, j, q)
    ensures Scattered(RosterPlaces(members))
  {
    var ids := RosterPlaces(members);
    StandsAs(members, i, p);
    StandsAs(members, j, q);
    var worlds := WorldsIn(ids, ids.Keys);
    assert p in Known(ids) && ids[p].world in worlds && ids[q].world in worlds;
    ManyWorlds(worlds, ids[p].world);
  }

  lemma SpreadIff(members: seq<Receipt>)
    ensures Scattered(RosterPlaces(members)) <==> Spread(members)
  {
    var ids := RosterPlaces(members);
    if i, p, j, q :| Apart(members, i, p, j, q) { ApartScatters(members, i, p, j, q); }
    if Scattered(ids) {
      var p := SomeKnown(ids);
      var i := StandsSomewhere(members, p);
      var q := OtherThan(ids, p);
      var j := StandsSomewhere(members, q);
      assert Apart(members, i, p, j, q);
    }
  }

  lemma OtherThan(ids: map<int, Place>, p: int) returns (q: int)
    requires Scattered(ids) && p in ids && ids[p] != UNPLACED
    ensures q in ids && (ids[q] == UNPLACED || ids[q].world != ids[p].world)
  {
    if Known(ids) != ids.Keys {
      KnownIff(ids);
      q :| q in ids && ids[q] == UNPLACED;
    } else {
      var worlds := WorldsIn(ids, ids.Keys);
      assert ids[p].world in worlds;
      ManyWorlds(worlds, ids[p].world);
      q :| q in ids && ids[q].world != ids[p].world;
    }
  }

  // ----- what the completions prove about unplaced members

  ghost predicate ByPid(got: seq<Receipt>, i: int, p: int) {
    0 <= i < |got| && Sound(got[i]) && got[i].pid == Some(p)
  }

  /** The pid completed something, and always from this rank of a world of `n`. */
  ghost predicate ProvesRank(got: seq<Receipt>, p: int, rank: int, n: nat) {
    && (exists i :: ByPid(got, i, p))
    && forall i :: ByPid(got, i, p) ==> got[i].rank == Some(rank) && got[i].world == Some(n) && rank != -1
  }

  ghost predicate HasRank(got: seq<Receipt>, p: int, n: nat) {
    exists k :: ProvesRank(got, p, k, n)
  }

  ghost predicate RankProven(got: seq<Receipt>, pids: set<int>, k: int, n: nat) {
    exists p :: p in pids && ProvesRank(got, p, k, n)
  }

  /** Several pids prove a rank each, and take them all; a single one completes unplaced or on rank 0 of 1. */
  ghost predicate Proven(got: seq<Receipt>, pids: set<int>, n: nat) {
    if n > 1 then
      (forall p :: p in pids ==> HasRank(got, p, n)) && forall k :: 0 <= k < n ==> RankProven(got, pids, k, n)
    else forall i, p :: p in pids && ByPid(got, i, p) ==>
      got[i].rank == Some(-1) || (got[i].rank == Some(0) && got[i].world == Some(1))
  }

  lemma PlacesIff(got: seq<Receipt>, p: int, x: Place)
    ensures x in PlacesOf(got, p) <==>
      exists i :: ByPid(got, i, p) && got[i].rank == Some(x.rank) && got[i].world == Some(x.world)
  {
    AllSoundIff(got);
    if x in PlacesOf(got, p) {
      var r :| r in got && Valid(r) && Pid(r) == p && PlaceOf(r) == x;
      var i :| 0 <= i < |got| && got[i] == r;
      assert ByPid(got, i, p);
    }
    if i :| ByPid(got, i, p) && got[i].rank == Some(x.rank) && got[i].world == Some(x.world) {
      assert got[i] in got;
    }
  }

  lemma ProvesIff(got: seq<Receipt>, p: int, k: int, n: nat)
    requires k != -1
    ensures ProvesRank(got, p, k, n) <==> PlacesOf(got, p) == {Place(k, n)}
  {
    var places := PlacesOf(got, p);
    forall x ensures x in places <==>
        exists i :: ByPid(got, i, p) && got[i].rank == Some(x.rank) && got[i].world == Some(x.world)
    {
      PlacesIff(got, p, x);
    }
    if places == {Place(k, n)} {
      assert Place(k, n) in places;
      forall i | ByPid(got, i, p) ensures got[i].rank == Some(k) && got[i].world == Some(n) {
        assert Place(got[i].rank.value, got[i].world.value) in places;
      }
    }
    if ProvesRank(got, p, k, n) {
      var i :| ByPid(got, i, p);
      assert Place(k, n) in places;
    }
  }

  lemma SoloPlace(derived: map<int, set<Place>>, p: int)
    requires p in Solo(derived)
    ensures exists x :: derived[p] == {x} && x != UNPLACED
  {
    var places := derived[p];
    var x :| x in places;
    SubsetSame({x}, places);
  }

  lemma PlacedInside(got: seq<Receipt>, p: int, x: Place)
    requires x in PlacesOf(got, p)
    ensures x == UNPLACED || 0 <= x.rank < x.world
  {
    PlacesIff(got, p, x);
  }

  lemma HasRankIff(got: seq<Receipt>, p: int, n: nat)
    requires n > 1
    ensures HasRank(got, p, n) <==> exists x :: PlacesOf(got, p) == {x} && x.world == n
  {
    if k :| ProvesRank(got, p, k, n) {
      var i :| ByPid(got, i, p);
      ProvesIff(got, p, k, n);
      assert PlacesOf(got, p) == {Place(k, n)} && Place(k, n).world == n;
    }
    if x :| PlacesOf(got, p) == {x} && x.world == n {
      PlacedInside(got, p, x);
      ProvesIff(got, p, x.rank, n);
    }
  }

  /** Every pid has one place, in the world of `n`. */
  ghost predicate Agreed(derived: map<int, set<Place>>, n: nat) {
    forall p :: p in derived ==> exists x :: derived[p] == {x} && x.world == n && x != UNPLACED
  }

  lemma SoloEvery(derived: map<int, set<Place>>)
    ensures |Solo(derived)| == |derived| <==> Solo(derived) == derived.Keys
  {
    assert Solo(derived) <= derived.Keys && |derived| == |derived.Keys|;
    SameSizeIff(Solo(derived), derived.Keys);
  }

  lemma AgreedSolo(derived: map<int, set<Place>>, n: nat, q: int)
    requires Agreed(derived, n) && q in derived
    ensures Solo(derived) == derived.Keys && Worlds(SoloPlaces(derived)) == {n as int}
  {
    forall p | p in derived ensures p in Solo(derived) { }
    forall x | x in SoloPlaces(derived) ensures x.world == n {
      var p :| p in Solo(derived) && x in derived[p];
    }
    var y :| derived[q] == {y} && y.world == n && y != UNPLACED;
    assert y in SoloPlaces(derived) && y.world in Worlds(SoloPlaces(derived));
  }

  lemma SoloAgreed(derived: map<int, set<Place>>, n: nat)
    requires Solo(derived) == derived.Keys && Worlds(SoloPlaces(derived)) == {n as int}
    ensures Agreed(derived, n)
  {
    forall p | p in derived ensures exists x :: derived[p] == {x} && x.world == n && x != UNPLACED {
      SoloPlace(derived, p);
      var x :| derived[p] == {x} && x != UNPLACED;
      assert x in SoloPlaces(derived) && x.world in Worlds(SoloPlaces(derived));
    }
  }

  lemma AgreedIff(derived: map<int, set<Place>>, n: nat, q: int)
    requires q in derived
    ensures Agreed(derived, n) <==> |Solo(derived)| == |derived| && Worlds(SoloPlaces(derived)) == {n as int}
  {
    SoloEvery(derived);
    if Agreed(derived, n) { AgreedSolo(derived, n, q); }
    if Solo(derived) == derived.Keys && Worlds(SoloPlaces(derived)) == {n as int} { SoloAgreed(derived, n); }
  }

  lemma EachHasRank(got: seq<Receipt>, ids: map<int, Place>, n: nat)
    requires n > 1
    ensures Agreed(DerivedOf(got, ids), n) <==> forall p :: p in ids ==> HasRank(got, p, n)
  {
    forall p | p in ids ensures HasRank(got, p, n) <==> exists x :: PlacesOf(got, p) == {x} && x.world == n {
      HasRankIff(got, p, n);
    }
    var derived := DerivedOf(got, ids);
    assert forall p :: p in ids ==> derived[p] == PlacesOf(got, p);
  }

  lemma RankProvenIff(got: seq<Receipt>, ids: map<int, Place>, n: nat, k: int)
    requires n > 1 && Agreed(DerivedOf(got, ids), n) && Solo(DerivedOf(got, ids)) == ids.Keys && 0 <= k
    ensures RankProven(got, ids.Keys, k, n) <==> k in Ranks(SoloPlaces(DerivedOf(got, ids)))
  {
    var derived := DerivedOf(got, ids);
    if p :| p in ids.Keys && ProvesRank(got, p, k, n) {
      ProvesIff(got, p, k, n);
      assert Place(k, n) in derived[p] && Place(k, n) in SoloPlaces(derived);
    }
    if k in Ranks(SoloPlaces(derived)) {
      var x :| x in SoloPlaces(derived) && x.rank == k;
      var p :| p in Solo(derived) && x in derived[p];
      var y :| derived[p] == {y} && y.world == n && y != UNPLACED;
      assert derived[p] == PlacesOf(got, p) == {Place(k, n)};
      ProvesIff(got, p, k, n);
    }
  }

  lemma RanksWithinWorld(got: seq<Receipt>, ids: map<int, Place>, n: nat)
    requires Agreed(DerivedOf(got, ids), n)
    ensures Ranks(SoloPlaces(DerivedOf(got, ids))) <= Range(n)
  {
    var derived := DerivedOf(got, ids);
    forall x | x in SoloPlaces(derived) ensures 0 <= x.rank < n {
      var p :| p in Solo(derived) && x in derived[p];
      var y :| derived[p] == {y} && y.world == n && y != UNPLACED;
      PlacedInside(got, p, x);
    }
  }

  lemma AllRanksProven(got: seq<Receipt>, ids: map<int, Place>, n: nat)
    requires n > 1 && Agreed(DerivedOf(got, ids), n) && Solo(DerivedOf(got, ids)) == ids.Keys
    ensures (forall k :: 0 <= k < n ==> RankProven(got, ids.Keys, k, n)) <==>
      Ranks(SoloPlaces(DerivedOf(got, ids))) == Range(n)
  {
    RanksWithinWorld(got, ids, n);
    forall k | 0 <= k < n
      ensures RankProven(got, ids.Keys, k, n) <==> k in Ranks(SoloPlaces(DerivedOf(got, ids)))
    {
      RankProvenIff(got, ids, n, k);
    }
    FillsRange(got, ids.Keys, n, Ranks(SoloPlaces(DerivedOf(got, ids))));
  }

  lemma FillsRange(got: seq<Receipt>, pids: set<int>, n: nat, ranks: set<int>)
    requires ranks <= Range(n) && forall k :: 0 <= k < n ==> (RankProven(got, pids, k, n) <==> k in ranks)
    ensures (forall k :: 0 <= k < n ==> RankProven(got, pids, k, n)) <==> ranks == Range(n)
  {
  }

  lemma ManyProven(got: seq<Receipt>, ids: map<int, Place>, n: nat, q: int)
    requires n > 1 && q in ids
    ensures DerivedOk(DerivedOf(got, ids), n) <==> Proven(got, ids.Keys, n)
  {
    var derived := DerivedOf(got, ids);
    AgreedIff(derived, n, q);
    EachHasRank(got, ids, n);
    if Agreed(derived, n) {
      AgreedSolo(derived, n, q);
      AllRanksProven(got, ids, n);
    }
  }

  lemma FewPlaces(got: seq<Receipt>, ids: map<int, Place>, x: Place)
    ensures x in AllPlaces(DerivedOf(got, ids)) <==>
      exists i, p :: p in ids && ByPid(got, i, p) && got[i].rank == Some(x.rank) && got[i].world == Some(x.world)
  {
    var derived := DerivedOf(got, ids);
    if x in AllPlaces(derived) {
      var p :| p in derived && x in derived[p];
      PlacesIff(got, p, x);
    }
    if i, p :| p in ids && ByPid(got, i, p) && got[i].rank == Some(x.rank) && got[i].world == Some(x.world) {
      PlacesIff(got, p, x);
      assert x in derived[p];
    }
  }

  lemma FewProven(got: seq<Receipt>, ids: map<int, Place>, n: nat)
    requires n <= 1
    ensures DerivedOk(DerivedOf(got, ids), n) <==> Proven(got, ids.Keys, n)
  {
    var places := AllPlaces(DerivedOf(got, ids));
    if Proven(got, ids.Keys, n) {
      forall x | x in places ensures x == UNPLACED || x == Place(0, 1) { FewPlaces(got, ids, x); }
      assert places - {UNPLACED} <= {Place(0, 1)};
    }
    if DerivedOk(DerivedOf(got, ids), n) {
      forall i, p | p in ids.Keys && ByPid(got, i, p)
        ensures got[i].rank == Some(-1) || (got[i].rank == Some(0) && got[i].world == Some(1))
      {
        var x := Place(got[i].rank.value, got[i].world.value);
        FewPlaces(got, ids, x);
        assert x in places;
        assert x != UNPLACED ==> x in places - {UNPLACED};
      }
    }
  }

  // ----- the whole report

  /** Members are known by pid only, and the completions do not prove who they are. */
  ghost predicate Disproved(got: seq<Receipt>, members: seq<Receipt>, pids: set<int>, count: Option<int>) {
    && pids != {} && NobodyPlaced(members)
    && !Proven(got, pids, if count.Some? && count.value >= 0 then count.value else |pids|)
  }

  lemma DisprovedIff(got: seq<Receipt>, members: seq<Receipt>, count: Option<int>)
    ensures Incoherent(got, RosterPlaces(members), count) <==>
      Disproved(got, members, RosterPlaces(members).Keys, count)
  {
    var ids := RosterPlaces(members);
    NobodyIff(members);
    if ids.Keys != {} {
      var q := Surplus({}, ids.Keys);
      var n := Target(ids, count);
      if n > 1 { ManyProven(got, ids, n, q); } else { FewProven(got, ids, n); }
    } else {
      assert ids == map[];
    }
  }

  /** The ill-formed members, all of them if they do not fit, the ill-formed completions, all of them if disproved. */
  ghost predicate MalformedAs(got: seq<Receipt>, members: seq<Receipt>, count: Option<int>, m: Matrix) {
    exists bad, ill :: Lists(members, BadMembers(members), bad) && Lists(got, IllFormedIn(got, members), ill) &&
      m.malformed == bad + (if Fits(members, |m.pids|, count) then [] else members) + ill +
        (if Disproved(got, members, m.pids, count) then got else [])
  }

  /** As many pids as expected, not denied by a world of the wrong size. */
  ghost predicate CountFits(members: seq<Receipt>, pids: set<int>, count: Option<int>) {
    members != [] && (count.None? || |pids| == count.value) && (Fits(members, |pids|, count) || Spread(members))
  }

  ghost predicate DuplicatesAs(got: seq<Receipt>, slots: set<string>, members: seq<Receipt>, m: Matrix) {
    exists seen, again :: Lists(members, SeenMembers(members, |members|), seen) &&
      Lists(got, SeenIn(got, slots, members, |got|), again) && m.duplicates == seen + again
  }

  ghost predicate Completed(got: seq<Receipt>, slots: set<string>, members: seq<Receipt>, slot: string, pid: int) {
    exists i :: CompletesAt(got, i, slot, Some(pid)) && Countable(got[i], slots, members)
  }

  /** Who was expected, what is missing, and every receipt that is out of place, by the receipts' own fields. */
  ghost predicate ReportsAs(
    got: seq<Receipt>, slots: set<string>, members: seq<Receipt>, count: Option<int>, m: Matrix)
  {
    && (forall p :: p in m.pids <==> OnRoster(members, p))
    && (m.countOk <==> CountFits(members, m.pids, count))
    && (forall slot, pid :: (slot, pid) in m.missing <==>
          slot in slots && pid in m.pids && !Completed(got, slots, members, slot, pid))
    && MalformedAs(got, members, count, m) && DuplicatesAs(got, slots, members, m)
    && Lists(got, ForeignIn(got, slots, members), m.unexpected)
  }

  lemma CompletedIff(got: seq<Receipt>, slots: set<string>, members: seq<Receipt>, slot: string, pid: int)
    ensures Completed(got, slots, members, slot, pid) <==>
      exists r :: r in got && Counted(r, slots, RosterPlaces(members)) && SlotPid(r) == (slot, pid)
  {
    if i :| CompletesAt(got, i, slot, Some(pid)) && Countable(got[i], slots, members) {
      ClassIff(got[i], slots, members);
      SoundIff(got[i]);
      assert got[i] in got;
    }
    if r :| r in got && Counted(r, slots, RosterPlaces(members)) && SlotPid(r) == (slot, pid) {
      var i :| 0 <= i < |got| && got[i] == r;
      ClassIff(r, slots, members);
      SoundIff(r);
      assert CompletesAt(got, i, slot, Some(pid));
    }
  }

  lemma RosterReported(got: seq<Receipt>, slots: set<string>, members: seq<Receipt>, count: Option<int>, m: Matrix)
    requires Reports(got, slots, members, count, m)
    ensures forall p :: p in m.pids <==> OnRoster(members, p)
    ensures m.countOk <==> CountFits(members, m.pids, count)
  {
    forall p ensures p in m.pids <==> OnRoster(members, p) { OnRosterIff(members, p); }
    FitsIff(members, count);
    SpreadIff(members);
    assert |RosterPlaces(members)| == |RosterPlaces(members).Keys|;
  }

  lemma MissingReported(got: seq<Receipt>, slots: set<string>, members: seq<Receipt>, count: Option<int>, m: Matrix)
    requires Reports(got, slots, members, count, m)
    ensures forall slot, pid :: (slot, pid) in m.missing <==>
      slot in slots && pid in m.pids && !Completed(got, slots, members, slot, pid)
  {
    forall slot, pid ensures (slot, pid) in m.missing <==>
        slot in slots && pid in m.pids && !Completed(got, slots, members, slot, pid)
    {
      CompletedIff(got, slots, members, slot, pid);
    }
  }

  /** What is reported is what the receipts' own fields call for. */
  lemma ReportMeaning(got: seq<Receipt>, slots: set<string>, members: seq<Receipt>, count: Option<int>, m: Matrix)
    requires Reports(got, slots, members, count, m)
    ensures ReportsAs(got, slots, members, count, m)
  {
    RosterReported(got, slots, members, count, m);
    MissingReported(got, slots, members, count, m);
    ClassesListed(got, slots, members);
    FitsIff(members, count);
    DisprovedIff(got, members, count);
    assert |RosterPlaces(members)| == |RosterPlaces(members).Keys|;
    SeenMembersListed(members, |members|);
    SeenCompletionsListed(got, slots, members, |got|);
    assert members[..|members|] == members && got[..|got|] == got;
  }
}
