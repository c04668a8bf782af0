/** Slot/member coverage of completion receipts (`cacheon/receipts.py`). */
module Coverage {
  import opened Orders
  import opened Wrappers

  /** A receipt's fields; `None` is a missing field or one of the wrong type. */
  datatype Receipt = Receipt(slot: Option<string>, pid: Option<int>, rank: Option<int>, world: Option<int>)

  datatype Place = Place(rank: int, world: int)

  /** Where a process stands; `UNPLACED` before its process group exists. */
  datatype Identity = Identity(pid: int, place: Place)

  const UNPLACED := Place(-1, -1)

  function ExactInt(value: Option<int>, minimum: int): Option<int> {
    if value.Some? && value.value >= minimum then value else None
  }

  /** `_validated_identity` */
  function ValidatedIdentity(r: Receipt): Option<Identity> {
    var pid, rank, world := ExactInt(r.pid, 1), ExactInt(r.rank, -1), ExactInt(r.world, -1);
    if pid.None? || rank.None? || world.None? then None
    else if Place(rank.value, world.value) == UNPLACED then Some(Identity(pid.value, UNPLACED))
    else if world.value < 1 || rank.value < 0 || rank.value >= world.value then None
    else Some(Identity(pid.value, Place(rank.value, world.value)))
  }

  /** The receipt's own fields name a process: a positive pid, and either no place yet or a rank inside its world. */
  predicate Names(r: Receipt, i: Identity) {
    && r.pid == Some(i.pid) && i.pid > 0
    && r.rank == Some(i.place.rank) && r.world == Some(i.place.world)
    && (i.place == UNPLACED || 0 <= i.place.rank < i.place.world)
  }

  /** A receipt is validated exactly when its fields name a process, and then as that process. */
  lemma IdentityMeaning(r: Receipt)
    ensures forall i :: ValidatedIdentity(r) == Some(i) <==> Names(r, i)
    ensures ValidatedIdentity(r).None? <==> forall i :: !Names(r, i)
  {
    if r.pid.Some? && r.rank.Some? && r.world.Some? {
      var i := Identity(r.pid.value, Place(r.rank.value, r.world.value));
      assert ValidatedIdentity(r) == Some(i) <==> Names(r, i);
    }
  }

  predicate Valid(r: Receipt) {
    ValidatedIdentity(r).Some?
  }

  function Pid(r: Receipt): int {
    if Valid(r) then ValidatedIdentity(r).value.pid else 0
  }

  function PlaceOf(r: Receipt): Place {
    if Valid(r) then ValidatedIdentity(r).value.place else UNPLACED
  }

  // ----- what complete coverage means

  predicate DifferentPid(a: Receipt, b: Receipt) { Pid(a) != Pid(b) }

  predicate DifferentRank(a: Receipt, b: Receipt) { PlaceOf(a).rank != PlaceOf(b).rank }

  /** Every member known only by pid. */
  ghost predicate Anonymous(members: seq<Receipt>) {
    forall m :: m in members ==> PlaceOf(m) == UNPLACED
  }

  /** Every member placed in one world of exactly these members, on its own rank. */
  ghost predicate RankedRoster(members: seq<Receipt>) {
    (forall m :: m in members ==> PlaceOf(m).world == |members|) && Pairwise(DifferentRank, members)
  }

  ghost predicate Roster(members: seq<Receipt>, count: Option<int>) {
    && members != [] && (forall m :: m in members ==> Valid(m)) && Pairwise(DifferentPid, members)
    && (count.None? || |members| == count.value)
    && (Anonymous(members) || RankedRoster(members))
  }

  /** The completion is of an expected slot by a member, from where the member stands. */
  ghost predicate Placed(r: Receipt, slots: set<string>, members: seq<Receipt>) {
    && Valid(r) && r.slot.Some? && r.slot.value in slots
    && exists m :: m in members && Pid(m) == Pid(r) && (PlaceOf(m) == UNPLACED || PlaceOf(m) == PlaceOf(r))
  }

  predicate DifferentPair(a: Receipt, b: Receipt) { a.slot != b.slot || Pid(a) != Pid(b) }

  predicate SamePidSameRank(a: Receipt, b: Receipt) { Pid(a) == Pid(b) <==> PlaceOf(a).rank == PlaceOf(b).rank }

  ghost predicate Completes(r: Receipt, slot: string, pid: int) {
    r.slot == Some(slot) && Pid(r) == pid
  }

  ghost predicate Covers(got: seq<Receipt>, slots: set<string>, members: seq<Receipt>) {
    forall s, m :: s in slots && m in members ==> exists r :: r in got && Completes(r, s, Pid(m))
  }

  /** Completions of an anonymous roster prove one rank per pid; a single member may stay unplaced. */
  ghost predicate Coherent(got: seq<Receipt>, n: nat) {
    if n > 1 then (forall r :: r in got ==> PlaceOf(r).world == n) && Pairwise(SamePidSameRank, got)
    else forall r :: r in got ==> PlaceOf(r) == UNPLACED || PlaceOf(r) == Place(0, 1)
  }

  /** Exactly one completion for every slot and member, nothing else, and consistent identities. */
  ghost predicate Complete(got: seq<Receipt>, slots: set<string>, members: seq<Receipt>, count: Option<int>) {
    && slots != {} && "" !in slots && Roster(members, count)
    && (forall r :: r in got ==> Placed(r, slots, members))
    && Covers(got, slots, members) && Pairwise(DifferentPair, got)
    && (Anonymous(members) ==> Coherent(got, |members|))
  }

  // ----- consequences

  lemma RosterPermutation(s: seq<Receipt>, t: seq<Receipt>, count: Option<int>)
    requires multiset(s) == multiset(t) && Roster(s, count)
    ensures Roster(t, count)
  {
    SameElements(s, t);
    PairwisePermutation(DifferentPid, s, t);
    if !Anonymous(s) { PairwisePermutation(DifferentRank, s, t); }
  }

  /** The verdict does not depend on the order of receipts. */
  lemma CompletePermutation(
    got: seq<Receipt>, hot: seq<Receipt>, slots: set<string>, members: seq<Receipt>, others: seq<Receipt>,
    count: Option<int>)
    requires multiset(got) == multiset(hot) && multiset(members) == multiset(others) &&
      Complete(got, slots, members, count)
    ensures Complete(hot, slots, others, count)
  {
    SameElements(got, hot);
    SameElements(members, others);
    RosterPermutation(members, others, count);
    PairwisePermutation(DifferentPair, got, hot);
    if Anonymous(members) && |members| > 1 { PairwisePermutation(SamePidSameRank, got, hot); }
  }

  lemma RestDiffers(got: seq<Receipt>, i: nat, r: Receipt)
    requires Pairwise(DifferentPair, got) && i < |got| && r in got[..i] + got[i + 1..]
    ensures DifferentPair(r, got[i])
  {
    var rest := got[..i] + got[i + 1..];
    var j :| 0 <= j < |rest| && rest[j] == r;
    if j < i { assert DifferentPair(got[j], got[i]); } else { assert DifferentPair(got[i], got[j + 1]); }
  }

  /** Without any one of its completions an accepted set is refused. */
  lemma DroppingRefuses(got: seq<Receipt>, slots: set<string>, members: seq<Receipt>, count: Option<int>, i: nat)
    requires Complete(got, slots, members, count) && i < |got|
    ensures !Complete(got[..i] + got[i + 1..], slots, members, count)
  {
    var rest, gone := got[..i] + got[i + 1..], got[i];
    var m := MemberOf(gone, slots, members);
    forall r | r in rest ensures !Completes(r, gone.slot.value, Pid(m)) { RestDiffers(got, i, r); }
    assert !Covers(rest, slots, members);
  }

  lemma MemberOf(r: Receipt, slots: set<string>, members: seq<Receipt>) returns (m: Receipt)
    requires Placed(r, slots, members)
    ensures m in members && Pid(m) == Pid(r) && (PlaceOf(m) == UNPLACED || PlaceOf(m) == PlaceOf(r))
  {
    m :| m in members && Pid(m) == Pid(r) && (PlaceOf(m) == UNPLACED || PlaceOf(m) == PlaceOf(r));
  }

  // ----- counting

  function Pids(members: seq<Receipt>): set<int> { set m | m in members :: Pid(m) }

  ghost function PairOf(r: Receipt): (string, int) {
    (if r.slot.Some? then r.slot.value else "", Pid(r))
  }

  ghost function PairsOf(got: seq<Receipt>): seq<(string, int)> {
    seq(|got|, i requires 0 <= i < |got| => PairOf(got[i]))
  }

  function Product(slots: set<string>, pids: set<int>): set<(string, int)> {
    set s, p | s in slots && p in pids :: (s, p)
  }

  function Row(s: string, pids: set<int>): set<(string, int)> {
    set p | p in pids :: (s, p)
  }

  lemma {:induction false} RowSize(s: string, pids: set<int>)
    ensures |Row(s, pids)| == |pids|
  {
    var e := Enumerate(pids);
    if e == [] {
      assert Row(s, pids) == {};
    } else {
      var p := e[0];
      RowSize(s, pids - {p});
      assert p in e && Row(s, pids) == Row(s, pids - {p}) + {(s, p)};
    }
  }

  lemma ProductSplit(slots: set<string>, pids: set<int>, s: string)
    requires s in slots
    ensures Product(slots, pids) == Product(slots - {s}, pids) + Row(s, pids)
    ensures Product(slots - {s}, pids) !! Row(s, pids)
  {
  }

  lemma OneRowMore(a: nat, b: nat, n: nat)
    requires a == b + 1
    ensures a * n == b * n + n
  {
  }

  lemma {:induction false} ProductSize(slots: set<string>, pids: set<int>)
    ensures |Product(slots, pids)| == |slots| * |pids|
  {
    if s :| s in slots {
      ProductSize(slots - {s}, pids);
      RowSize(s, pids);
      ProductSplit(slots, pids, s);
      OneRowMore(|slots|, |slots - {s}|, |pids|);
    } else {
      assert slots == {} && Product(slots, pids) == {};
    }
  }

  lemma PidsSize(members: seq<Receipt>)
    requires Pairwise(DifferentPid, members)
    ensures |Pids(members)| == |members|
  {
    var list := seq(|members|, i requires 0 <= i < |members| => Pid(members[i]));
    forall i, j | 0 <= i < j < |list| ensures list[i] != list[j] { assert DifferentPid(members[i], members[j]); }
    DistinctSize(list);
    forall p | p in Pids(members) ensures p in Elements(list) {
      var m :| m in members && Pid(m) == p;
      var i :| 0 <= i < |members| && members[i] == m;
      assert list[i] == p;
    }
    assert Pids(members) == Elements(list);
  }

  lemma PairsDistinct(got: seq<Receipt>)
    requires Pairwise(DifferentPair, got) && forall r :: r in got ==> r.slot.Some?
    ensures Distinct(PairsOf(got))
  {
    var pairs := PairsOf(got);
    forall i, j | 0 <= i < j < |pairs| ensures pairs[i] != pairs[j] {
      assert DifferentPair(got[i], got[j]) && got[i] in got && got[j] in got;
    }
  }

  lemma PairIn(got: seq<Receipt>, x: (string, int))
    ensures x in PairsOf(got) <==> exists r :: r in got && PairOf(r) == x
  {
    if r :| r in got && PairOf(r) == x {
      var i :| 0 <= i < |got| && got[i] == r;
      assert PairsOf(got)[i] == x;
    }
  }

  lemma PairExpected(got: seq<Receipt>, slots: set<string>, members: seq<Receipt>, x: (string, int))
    requires (forall r :: r in got ==> Placed(r, slots, members)) && Covers(got, slots, members)
    ensures (exists r :: r in got && PairOf(r) == x) <==> x in Product(slots, Pids(members))
  {
    if r :| r in got && PairOf(r) == x {
      var m := MemberOf(r, slots, members);
    }
    if x in Product(slots, Pids(members)) {
      var m :| m in members && Pid(m) == x.1;
      var r :| r in got && Completes(r, x.0, Pid(m));
    }
  }

  lemma CompletePairs(got: seq<Receipt>, slots: set<string>, members: seq<Receipt>, count: Option<int>)
    requires Complete(got, slots, members, count)
    ensures Distinct(PairsOf(got)) && Elements(PairsOf(got)) == Product(slots, Pids(members))
  {
    PairsDistinct(got);
    forall x ensures x in Elements(PairsOf(got)) <==> x in Product(slots, Pids(members)) {
      PairIn(got, x);
      PairExpected(got, slots, members, x);
    }
  }

  /** As many completions as slots times members. */
  lemma CompleteCount(got: seq<Receipt>, slots: set<string>, members: seq<Receipt>, count: Option<int>)
    requires Complete(got, slots, members, count)
    ensures |got| == |slots| * |members|
  {
    CompletePairs(got, slots, members, count);
    DistinctSize(PairsOf(got));
    ProductSize(slots, Pids(members));
    PidsSize(members);
  }

  // ----- pids and ranks

  function Range(n: nat): (r: set<int>)
    ensures forall k :: k in r <==> 0 <= k < n
    ensures |r| == n
  {
    if n == 0 then {} else Range(n - 1) + {n - 1}
  }

  function RanksOf(got: seq<Receipt>): set<int> {
    set r | r in got :: PlaceOf(r).rank
  }

  /** `n` distinct numbers below `n` are all of them. */
  lemma FullRange(list: seq<int>, n: nat)
    requires Distinct(list) && |list| == n && forall x :: x in list ==> 0 <= x < n
    ensures Elements(list) == Range(n)
  {
    DistinctSize(list);
    forall k | k in Range(n) ensures k in list {
      if k !in list {
        SubsetSize(Elements(list), Range(n) - {k});
      }
    }
  }

  /** One completion of each member. */
  lemma {:induction false} Witnesses(got: seq<Receipt>, s: string, members: seq<Receipt>) returns (w: seq<Receipt>)
    requires forall m :: m in members ==> exists r :: r in got && Completes(r, s, Pid(m))
    ensures |w| == |members| && forall i :: 0 <= i < |w| ==> w[i] in got && Pid(w[i]) == Pid(members[i])
  {
    if members == [] {
      w := [];
    } else {
      assert members[0] in members;
      var r :| r in got && Completes(r, s, Pid(members[0]));
      var rest := Witnesses(got, s, members[1..]);
      w := [r] + rest;
    }
  }

  ghost predicate OneRankPerPid(got: seq<Receipt>) {
    forall a, b :: a in got && b in got ==> SamePidSameRank(a, b)
  }

  lemma PairwiseRanks(got: seq<Receipt>)
    requires Pairwise(SamePidSameRank, got)
    ensures OneRankPerPid(got)
  {
    forall a, b | a in got && b in got ensures SamePidSameRank(a, b) {
      var i :| 0 <= i < |got| && got[i] == a;
      var j :| 0 <= j < |got| && got[j] == b;
      if i < j { assert SamePidSameRank(got[i], got[j]); } else if j < i { assert SamePidSameRank(got[j], got[i]); }
    }
  }

  lemma RosterRanks(members: seq<Receipt>, m: Receipt, n: Receipt)
    requires m in members && n in members && Pairwise(DifferentPid, members) && Pairwise(DifferentRank, members)
    ensures Pid(m) == Pid(n) <==> PlaceOf(m).rank == PlaceOf(n).rank
  {
    var i :| 0 <= i < |members| && members[i] == m;
    var j :| 0 <= j < |members| && members[j] == n;
    if i < j { assert DifferentPid(members[i], members[j]) && DifferentRank(members[i], members[j]); }
    else if j < i { assert DifferentPid(members[j], members[i]) && DifferentRank(members[j], members[i]); }
  }

  lemma RankedPlaces(got: seq<Receipt>, slots: set<string>, members: seq<Receipt>)
    requires members != [] && RankedRoster(members) && Pairwise(DifferentPid, members)
    requires forall r :: r in got ==> Placed(r, slots, members)
    ensures OneRankPerPid(got) && forall r :: r in got ==> PlaceOf(r).world == |members|
  {
    forall r | r in got ensures PlaceOf(r).world == |members| {
      var m := MemberOf(r, slots, members);
    }
    forall a, b | a in got && b in got ensures SamePidSameRank(a, b) {
      var m := MemberOf(a, slots, members);
      var n := MemberOf(b, slots, members);
      RosterRanks(members, m, n);
    }
  }

  lemma PlacedRanks(got: seq<Receipt>, slots: set<string>, members: seq<Receipt>, count: Option<int>)
    requires Complete(got, slots, members, count) && |members| > 1
    ensures OneRankPerPid(got)
    ensures forall r :: r in got ==> PlaceOf(r).world == |members| && 0 <= PlaceOf(r).rank < |members|
  {
    if Anonymous(members) {
      PairwiseRanks(got);
    } else {
      RankedPlaces(got, slots, members);
    }
    forall r | r in got ensures 0 <= PlaceOf(r).rank < |members| {
      assert Placed(r, slots, members);
      RankInWorld(r);
    }
  }

  lemma RankInWorld(r: Receipt)
    requires Valid(r) && PlaceOf(r).world >= 1
    ensures 0 <= PlaceOf(r).rank < PlaceOf(r).world
  {
  }

  lemma WitnessesDiffer(got: seq<Receipt>, w: seq<Receipt>, members: seq<Receipt>)
    requires OneRankPerPid(got) && Pairwise(DifferentPid, members)
    requires |w| == |members| && forall i :: 0 <= i < |w| ==> w[i] in got && Pid(w[i]) == Pid(members[i])
    ensures Distinct(RankList(w))
  {
    forall i, j | 0 <= i < j < |w| ensures RankList(w)[i] != RankList(w)[j] {
      assert DifferentPid(members[i], members[j]);
      assert SamePidSameRank(w[i], w[j]);
    }
  }

  lemma RanksFill(got: seq<Receipt>, w: seq<Receipt>, members: seq<Receipt>)
    requires OneRankPerPid(got) && (forall r :: r in got ==> 0 <= PlaceOf(r).rank < |members|)
    requires Pairwise(DifferentPid, members)
    requires |w| == |members| && forall i :: 0 <= i < |w| ==> w[i] in got && Pid(w[i]) == Pid(members[i])
    ensures RanksOf(got) == Range(|members|)
  {
    WitnessesDiffer(got, w, members);
    RankListElements(w);
    forall x | x in RankList(w) ensures 0 <= x < |members| { assert x in Elements(RankList(w)); }
    FullRange(RankList(w), |members|);
    RanksWithin(got, w, |members|);
  }

  lemma RanksWithin(got: seq<Receipt>, w: seq<Receipt>, n: nat)
    requires (forall r :: r in w ==> r in got) && forall r :: r in got ==> 0 <= PlaceOf(r).rank < n
    ensures RanksOf(w) == Range(n) ==> RanksOf(got) == Range(n)
  {
    assert RanksOf(w) <= RanksOf(got) <= Range(n);
  }

  /** With more than one member, pids map one to one onto the ranks, as every completion says. */
  lemma RankBijection(got: seq<Receipt>, slots: set<string>, members: seq<Receipt>, count: Option<int>)
    requires Complete(got, slots, members, count) && |members| > 1
    ensures OneRankPerPid(got)
    ensures forall r :: r in got ==> PlaceOf(r).world == |members| && 0 <= PlaceOf(r).rank < |members|
    ensures RanksOf(got) == Range(|members|)
  {
    PlacedRanks(got, slots, members, count);
    var s :| s in slots;
    var w := Witnesses(got, s, members);
    RanksFill(got, w, members);
  }

  // ----- reading the roster

  ghost predicate AllValid(members: seq<Receipt>) {
    forall m :: m in members ==> Valid(m)
  }

  /** The dictionary of a roster whose pids differ. */
  ghost predicate Tabled(members: seq<Receipt>, ids: map<int, Place>) {
    ids.Keys == Pids(members) && forall m :: m in members ==> ids[Pid(m)] == PlaceOf(m)
  }

  /** Clean reading: no malformed receipt and no repeated pid. */
  ghost predicate CleanRoster(members: seq<Receipt>) {
    AllValid(members) && Pairwise(DifferentPid, members)
  }

  predicate Invalid(r: Receipt) {
    !Valid(r)
  }

  /** Where each pid of the roster stands, by its last valid receipt. */
  function RosterPlaces(members: seq<Receipt>): map<int, Place> {
    if members == [] then map[]
    else
      var before, m := RosterPlaces(members[..|members| - 1]), members[|members| - 1];
      if Valid(m) then before[Pid(m) := PlaceOf(m)] else before
  }

  /** The valid receipts whose pid an earlier valid one already has. */
  function RepeatedMembers(members: seq<Receipt>): seq<Receipt> {
    if members == [] then []
    else
      var init, m := members[..|members| - 1], members[|members| - 1];
      RepeatedMembers(init) + (if Valid(m) && Pid(m) in RosterPlaces(init) then [m] else [])
  }

  /** Receipt `i` is the last valid one of its pid. */
  ghost predicate LastOfPid(members: seq<Receipt>, i: int) {
    0 <= i < |members| && Valid(members[i]) &&
    forall j :: i < j < |members| && Valid(members[j]) ==> Pid(members[j]) != Pid(members[i])
  }

  lemma {:induction false} RosterMeaning(members: seq<Receipt>)
    ensures forall p :: p in RosterPlaces(members) <==> exists m :: m in members && Valid(m) && Pid(m) == p
    ensures forall i :: LastOfPid(members, i) ==>
      Pid(members[i]) in RosterPlaces(members) && RosterPlaces(members)[Pid(members[i])] == PlaceOf(members[i])
  {
    if members != [] {
      var n := |members| - 1;
      var init, m := members[..n], members[n];
      RosterMeaning(init);
      assert members == init + [m];
      forall i | LastOfPid(members, i)
        ensures Pid(members[i]) in RosterPlaces(members)
        ensures RosterPlaces(members)[Pid(members[i])] == PlaceOf(members[i])
      {
        if i < n { assert LastOfPid(init, i); }
      }
    }
  }

  ghost predicate ReadSoFar(
    members: seq<Receipt>, ids: map<int, Place>, malformed: seq<Receipt>, duplicates: seq<Receipt>)
  {
    && (malformed == [] && duplicates == [] <==> CleanRoster(members))
    && (AllValid(members) ==> ids.Keys == Pids(members))
    && (CleanRoster(members) ==> Tabled(members, ids))
    && (malformed == [] ==> AllValid(members))
  }

  lemma CleanSnoc(members: seq<Receipt>, m: Receipt)
    ensures AllValid(members + [m]) <==> AllValid(members) && Valid(m)
    ensures CleanRoster(members + [m]) <==> CleanRoster(members) && Valid(m) && Pid(m) !in Pids(members)
    ensures Pids(members + [m]) == Pids(members) + {Pid(m)}
  {
    var more := members + [m];
    assert forall x :: x in more <==> x in members || x == m;
    PairwiseSnoc(DifferentPid, members, m);
  }

  lemma TabledSnoc(members: seq<Receipt>, m: Receipt, ids: map<int, Place>)
    requires Tabled(members, ids) && Pid(m) !in Pids(members)
    ensures Tabled(members + [m], ids[Pid(m) := PlaceOf(m)])
  {
    CleanSnoc(members, m);
    forall x | x in members ensures Pid(x) != Pid(m) { assert Pid(x) in Pids(members); }
  }

  lemma ReadStep(members: seq<Receipt>, m: Receipt, ids: map<int, Place>, bad: seq<Receipt>, again: seq<Receipt>)
    requires ReadSoFar(members, ids, bad, again)
    ensures !Valid(m) ==> ReadSoFar(members + [m], ids, bad + [m], again)
    ensures Valid(m) ==> ReadSoFar(members + [m], ids[Pid(m) := PlaceOf(m)], bad,
                                   again + (if Pid(m) in ids then [m] else []))
  {
    CleanSnoc(members, m);
    if CleanHere(members, ids, Pid(m)) { TabledSnoc(members, m, ids); }
  }

  lemma {:induction false} RosterRead(members: seq<Receipt>)
    ensures ReadSoFar(members, RosterPlaces(members), Keep(members, Invalid), RepeatedMembers(members))
  {
    if members != [] {
      var init, m := members[..|members| - 1], members[|members| - 1];
      assert members == init + [m];
      RosterRead(init);
      ReadStep(init, m, RosterPlaces(init), Keep(init, Invalid), RepeatedMembers(init));
      assert Keep(init, Invalid) + [] == Keep(init, Invalid) && RepeatedMembers(init) + [] == RepeatedMembers(init);
    }
  }

  method ReadRoster(members: seq<Receipt>)
    returns (ids: map<int, Place>, malformed: seq<Receipt>, duplicates: seq<Receipt>)
    ensures ReadSoFar(members, ids, malformed, duplicates)
    ensures ids == RosterPlaces(members)
    ensures malformed == Keep(members, Invalid) && duplicates == RepeatedMembers(members)
  {
    ids, malformed, duplicates := map[], [], [];
    for i := 0 to |members|
      invariant ids == RosterPlaces(members[..i]) && malformed == Keep(members[..i], Invalid)
      invariant duplicates == RepeatedMembers(members[..i])
    {
      var m := members[i];
      assert members[..i + 1][..i] == members[..i];
      var identity := ValidatedIdentity(m);
      if identity.None? {
        malformed := malformed + [m];
      } else {
        var pid := identity.value.pid;
        if pid in ids {
          duplicates := duplicates + [m];
        }
        ids := ids[pid := identity.value.place];
      }
    }
    assert members[..|members|] == members;
    RosterRead(members);
  }

  ghost predicate CleanHere(members: seq<Receipt>, ids: map<int, Place>, pid: int) {
    CleanRoster(members) && pid !in Pids(members)
  }

  // ----- placing the roster

  function Known(ids: map<int, Place>): set<int> {
    set p | p in ids && ids[p] != UNPLACED
  }

  function RanksIn(ids: map<int, Place>, pids: set<int>): set<int> {
    set p | p in pids && p in ids :: ids[p].rank
  }

  function WorldsIn(ids: map<int, Place>, pids: set<int>): set<int> {
    set p | p in pids && p in ids :: ids[p].world
  }

  /** No member is placed, or all are, in one world of their number, each rank once. */
  ghost predicate Settled(ids: map<int, Place>) {
    Known(ids) == {} ||
    (Known(ids) == ids.Keys && WorldsIn(ids, ids.Keys) == {|ids|} && RanksIn(ids, ids.Keys) == Range(|ids|))
  }

  lemma TabledRanks(members: seq<Receipt>, ids: map<int, Place>)
    requires CleanRoster(members) && Tabled(members, ids)
    ensures |ids| == |members| && RanksIn(ids, ids.Keys) == RanksOf(members)
  {
    PidsSize(members);
    assert |ids| == |ids.Keys|;
    forall k ensures k in RanksIn(ids, ids.Keys) <==> k in RanksOf(members) {
      if k in RanksIn(ids, ids.Keys) {
        var p :| p in ids && ids[p].rank == k;
        var m :| m in members && Pid(m) == p;
      }
      if k in RanksOf(members) {
        var m :| m in members && PlaceOf(m).rank == k;
        assert Pid(m) in ids && ids[Pid(m)].rank == k;
      }
    }
  }

  ghost function RankList(members: seq<Receipt>): seq<int> {
    seq(|members|, i requires 0 <= i < |members| => PlaceOf(members[i]).rank)
  }

  lemma RankListElements(members: seq<Receipt>)
    ensures Elements(RankList(members)) == RanksOf(members)
  {
    forall k | k in RanksOf(members) ensures k in RankList(members) {
      var m :| m in members && PlaceOf(m).rank == k;
      var i :| 0 <= i < |members| && members[i] == m;
      assert RankList(members)[i] == k;
    }
    forall k | k in RankList(members) ensures k in RanksOf(members) {
      var i :| 0 <= i < |members| && RankList(members)[i] == k;
      assert members[i] in members;
    }
  }

  lemma RanksDistinctIff(members: seq<Receipt>)
    requires forall m :: m in members ==> 0 <= PlaceOf(m).rank < |members|
    ensures Pairwise(DifferentRank, members) <==> RanksOf(members) == Range(|members|)
  {
    var list := RankList(members);
    RankListElements(members);
    if Pairwise(DifferentRank, members) {
      forall i, j | 0 <= i < j < |list| ensures list[i] != list[j] { assert DifferentRank(members[i], members[j]); }
      forall x | x in list ensures 0 <= x < |members| { assert x in Elements(list); }
      FullRange(list, |members|);
    } else if RanksOf(members) == Range(|members|) {
      SizeDistinct(list);
      forall i, j | 0 <= i < j < |members| ensures DifferentRank(members[i], members[j]) { assert list[i] != list[j]; }
    }
  }

  lemma SettledIff(members: seq<Receipt>, ids: map<int, Place>)
    requires CleanRoster(members) && Tabled(members, ids) && members != []
    ensures Settled(ids) <==> Anonymous(members) || RankedRoster(members)
    ensures Known(ids) == {} <==> Anonymous(members)
  {
    TabledRanks(members, ids);
    var n := |members|;
    assert Known(ids) == {} <==> Anonymous(members) by {
      forall m | m in members ensures Pid(m) in Known(ids) <==> PlaceOf(m) != UNPLACED { }
      if Known(ids) != {} {
        var p :| p in Known(ids);
        var m :| m in members && Pid(m) == p;
      }
    }
    WorldIff(members, ids);
    if forall m :: m in members ==> PlaceOf(m).world == n {
      forall m | m in members ensures 0 <= PlaceOf(m).rank < n { RankInWorld(m); }
      RanksDistinctIff(members);
    }
  }

  lemma WorldIff(members: seq<Receipt>, ids: map<int, Place>)
    requires CleanRoster(members) && Tabled(members, ids) && members != [] && |ids| == |members|
    ensures Known(ids) == ids.Keys && WorldsIn(ids, ids.Keys) == {|ids|} <==>
      forall m :: m in members ==> PlaceOf(m).world == |members|
  {
    var n := |members|;
    if forall m :: m in members ==> PlaceOf(m).world == n {
      forall p | p in ids ensures ids[p].world == n {
        var m :| m in members && Pid(m) == p;
      }
      assert Pid(members[0]) in ids;
      assert ids[Pid(members[0])].world in WorldsIn(ids, ids.Keys);
    }
    if WorldsIn(ids, ids.Keys) == {|ids|} {
      forall m | m in members ensures PlaceOf(m).world == n {
        assert Pid(m) in ids && ids[Pid(m)].world in WorldsIn(ids, ids.Keys);
      }
    }
  }

  lemma SoleWorld(worlds: set<int>, world: int)
    requires world in worlds && |worlds| == 1
    ensures worlds == {world}
  {
    SubsetSame({world}, worlds);
  }

  lemma KnownAll(ids: map<int, Place>)
    ensures |Known(ids)| == |ids| <==> Known(ids) == ids.Keys
  {
    assert Known(ids) <= ids.Keys && |ids| == |ids.Keys|;
    if |Known(ids)| == |ids| { SubsetSame(Known(ids), ids.Keys); }
  }

  /** Nobody is placed, or everybody is, in one world of their number and of the expected one, each rank once. */
  ghost predicate Fitting(ids: map<int, Place>, count: Option<int>) {
    Settled(ids) && (Known(ids) == {} || count.None? || count.value == |ids|)
  }

  /** Placed in part, or in several worlds. */
  ghost predicate Scattered(ids: map<int, Place>) {
    Known(ids) != {} && (Known(ids) != ids.Keys || |WorldsIn(ids, ids.Keys)| != 1)
  }

  /** The placement tests: whether the places fit, and whether a world of the wrong size denies the count. */
  method CheckPlaces(ids: map<int, Place>, count: Option<int>) returns (fits: bool, sized: bool)
    ensures fits <==> Fitting(ids, count)
    ensures sized <==> Fitting(ids, count) || Scattered(ids)
  {
    KnownAll(ids);
    var known := Known(ids);
    fits, sized := true, true;
    if known != {} && |known| != |ids| {
      fits := false;
    } else if known != {} {
      var worlds, ranks := WorldsIn(ids, known), RanksIn(ids, known);
      if |worlds| != 1 {
        fits := false;
      } else {
        var world :| world in worlds;
        SoleWorld(worlds, world);
        if world != |ids| || (count.Some? && world != count.value) || ranks != Range(|ids|) || |ranks| != |known| {
          fits, sized := false, false;
        }
      }
    }
  }

  /** `_expected_members`: refused receipts are reported, and a bad placement reports every member. */
  method ExpectedMembers(members: seq<Receipt>, count: Option<int>)
    returns (ids: map<int, Place>, malformed: seq<Receipt>, duplicates: seq<Receipt>, countOk: bool)
    ensures malformed == [] && duplicates == [] && countOk <==> Roster(members, count)
    ensures Roster(members, count) ==> Tabled(members, ids)
    ensures ids == RosterPlaces(members) && duplicates == RepeatedMembers(members)
    ensures malformed == Keep(members, Invalid) + (if Fitting(ids, count) then [] else members)
    ensures countOk <==>
      members != [] && (count.None? || |ids| == count.value) && (Fitting(ids, count) || Scattered(ids))
  {
    ids, malformed, duplicates := ReadRoster(members);
    countOk := members != [] && (count.None? || |ids| == count.value);
    if CleanRoster(members) && members != [] {
      TabledRanks(members, ids);
      SettledIff(members, ids);
    }
    var fits, sized := CheckPlaces(ids, count);
    if !fits {
      malformed := malformed + members;
    }
    if !sized {
      countOk := false;
    }
  }

  // ----- reading the completions

  /** No slot name or no identity, or a place other than its member's. */
  predicate Malformed(r: Receipt, ids: map<int, Place>) {
    || r.slot.None? || r.slot.value == "" || !Valid(r)
    || (Pid(r) in ids && ids[Pid(r)] != UNPLACED && ids[Pid(r)] != PlaceOf(r))
  }

  /** Well formed, of a slot or a member nobody expected. */
  predicate Unexpected(r: Receipt, slots: set<string>, ids: map<int, Place>) {
    !Malformed(r, ids) && (r.slot.value !in slots || Pid(r) !in ids)
  }

  /** Neither malformed nor unexpected against the roster's dictionary. */
  predicate Counted(r: Receipt, slots: set<string>, ids: map<int, Place>) {
    && r.slot.Some? && r.slot.value != "" && Valid(r) && r.slot.value in slots && Pid(r) in ids
    && (ids[Pid(r)] == UNPLACED || ids[Pid(r)] == PlaceOf(r))
  }

  lemma PlacedIff(r: Receipt, slots: set<string>, members: seq<Receipt>, ids: map<int, Place>)
    requires CleanRoster(members) && Tabled(members, ids) && "" !in slots
    ensures Placed(r, slots, members) <==> Counted(r, slots, ids)
  {
    if Counted(r, slots, ids) {
      var m :| m in members && Pid(m) == Pid(r);
    }
  }

  ghost predicate AllCounted(got: seq<Receipt>, slots: set<string>, ids: map<int, Place>) {
    forall r :: r in got ==> Counted(r, slots, ids)
  }

  function SlotPid(r: Receipt): (string, int)
    requires r.slot.Some?
  {
    (r.slot.value, Pid(r))
  }

  ghost predicate Tallied(
    got: seq<Receipt>, slots: set<string>, ids: map<int, Place>, counts: map<(string, int), int>)
  {
    forall key :: key in counts <==> exists r :: r in got && Counted(r, slots, ids) && SlotPid(r) == key
  }

  function MalformedBy(ids: map<int, Place>): Receipt -> bool {
    r => Malformed(r, ids)
  }

  function UnexpectedBy(slots: set<string>, ids: map<int, Place>): Receipt -> bool {
    r => Unexpected(r, slots, ids)
  }

  function CountedAs(slots: set<string>, ids: map<int, Place>, key: (string, int)): Receipt -> bool {
    r => Counted(r, slots, ids) && SlotPid(r) == key
  }

  /** How many counted completions one member has of one slot. */
  function Tally(got: seq<Receipt>, slots: set<string>, ids: map<int, Place>, key: (string, int)): nat {
    |Keep(got, CountedAs(slots, ids, key))|
  }

  /** The counted completions that an earlier one of the same slot and member precedes. */
  function Repeats(got: seq<Receipt>, slots: set<string>, ids: map<int, Place>): seq<Receipt> {
    if got == [] then []
    else
      var init, r := got[..|got| - 1], got[|got| - 1];
      var again := Counted(r, slots, ids) && Tally(init, slots, ids, SlotPid(r)) > 0;
      Repeats(init, slots, ids) + (if again then [r] else [])
  }

  ghost predicate Counts(got: seq<Receipt>, slots: set<string>, ids: map<int, Place>, counts: map<(string, int), int>) {
    forall key :: CountsKey(got, slots, ids, counts, key)
  }

  ghost predicate CountsKey(
    got: seq<Receipt>, slots: set<string>, ids: map<int, Place>, counts: map<(string, int), int>, key: (string, int))
  {
    (if key in counts then counts[key] else 0) == Tally(got, slots, ids, key) && (key in counts ==> counts[key] > 0)
  }

  lemma TallyNext(got: seq<Receipt>, i: nat, slots: set<string>, ids: map<int, Place>, key: (string, int))
    requires i < |got|
    ensures Tally(got[..i + 1], slots, ids, key) ==
      Tally(got[..i], slots, ids, key) + (if Counted(got[i], slots, ids) && SlotPid(got[i]) == key then 1 else 0)
  {
    KeepNext(got, CountedAs(slots, ids, key), i);
  }

  lemma CountNext(got: seq<Receipt>, i: nat, slots: set<string>, ids: map<int, Place>, counts: map<(string, int), int>)
    requires i < |got| && Counted(got[i], slots, ids) && Counts(got[..i], slots, ids, counts)
    ensures var key := SlotPid(got[i]);
            Counts(got[..i + 1], slots, ids, counts[key := (if key in counts then counts[key] else 0) + 1])
  {
    var at := SlotPid(got[i]);
    var after := counts[at := (if at in counts then counts[at] else 0) + 1];
    var more := got[..i + 1];
    forall key ensures CountsKey(more, slots, ids, after, key) {
      TallyNext(got, i, slots, ids, key);
      assert CountsKey(got[..i], slots, ids, counts, key);
    }
  }

  lemma SkipNext(got: seq<Receipt>, i: nat, slots: set<string>, ids: map<int, Place>, counts: map<(string, int), int>)
    requires i < |got| && !Counted(got[i], slots, ids) && Counts(got[..i], slots, ids, counts)
    ensures Counts(got[..i + 1], slots, ids, counts)
  {
    var more := got[..i + 1];
    forall key ensures CountsKey(more, slots, ids, counts, key) {
      TallyNext(got, i, slots, ids, key);
      assert CountsKey(got[..i], slots, ids, counts, key);
    }
  }

  /** The lists the loop fills, each begun with what the roster put there. */
  ghost predicate Listed(
    got: seq<Receipt>, slots: set<string>, ids: map<int, Place>, malformed0: seq<Receipt>, duplicates0: seq<Receipt>,
    malformed: seq<Receipt>, unexpected: seq<Receipt>, duplicates: seq<Receipt>)
  {
    && malformed == malformed0 + Keep(got, MalformedBy(ids))
    && unexpected == Keep(got, UnexpectedBy(slots, ids))
    && duplicates == duplicates0 + Repeats(got, slots, ids)
  }

  function If(add: bool, r: Receipt): seq<Receipt> {
    if add then [r] else []
  }

  lemma RepeatsNext(got: seq<Receipt>, i: nat, slots: set<string>, ids: map<int, Place>, again: bool)
    requires i < |got| && (again <==> Counted(got[i], slots, ids) && Tally(got[..i], slots, ids, SlotPid(got[i])) > 0)
    ensures Repeats(got[..i + 1], slots, ids) == Repeats(got[..i], slots, ids) + If(again, got[i])
  {
    assert got[..i + 1][..i] == got[..i];
  }

  lemma ListNext(
    got: seq<Receipt>, i: nat, slots: set<string>, ids: map<int, Place>, malformed0: seq<Receipt>,
    duplicates0: seq<Receipt>, malformed: seq<Receipt>, unexpected: seq<Receipt>, duplicates: seq<Receipt>, again: bool)
    requires i < |got| && Listed(got[..i], slots, ids, malformed0, duplicates0, malformed, unexpected, duplicates)
    requires again <==> Counted(got[i], slots, ids) && Tally(got[..i], slots, ids, SlotPid(got[i])) > 0
    ensures Listed(got[..i + 1], slots, ids, malformed0, duplicates0, malformed + If(Malformed(got[i], ids), got[i]),
                   unexpected + If(Unexpected(got[i], slots, ids), got[i]), duplicates + If(again, got[i]))
  {
    KeepNext(got, MalformedBy(ids), i);
    KeepNext(got, UnexpectedBy(slots, ids), i);
    RepeatsNext(got, i, slots, ids, again);
    Regroup(malformed0, Keep(got[..i], MalformedBy(ids)), If(Malformed(got[i], ids), got[i]));
    Regroup(duplicates0, Repeats(got[..i], slots, ids), If(again, got[i]));
  }

  /** One completion: counted, or appended to the list it belongs to. */
  method ReadOne(
    r: Receipt, slots: set<string>, ids: map<int, Place>, counts0: map<(string, int), int>, malformed0: seq<Receipt>,
    unexpected0: seq<Receipt>, duplicates0: seq<Receipt>)
    returns (
      counts: map<(string, int), int>, malformed: seq<Receipt>, unexpected: seq<Receipt>, duplicates: seq<Receipt>)
    requires forall key :: key in counts0 ==> counts0[key] > 0
    ensures malformed == malformed0 + If(Malformed(r, ids), r)
    ensures unexpected == unexpected0 + If(Unexpected(r, slots, ids), r)
    ensures duplicates == duplicates0 + If(Counted(r, slots, ids) && SlotPid(r) in counts0, r)
    ensures counts == if !Counted(r, slots, ids) then counts0
                      else counts0[SlotPid(r) := (if SlotPid(r) in counts0 then counts0[SlotPid(r)] else 0) + 1]
  {
    counts, malformed, unexpected, duplicates := counts0, malformed0, unexpected0, duplicates0;
    var identity := ValidatedIdentity(r);
    if r.slot.None? || r.slot.value == "" || identity.None? {
      malformed := malformed + [r];
    } else if Pid(r) in ids && ids[Pid(r)] != UNPLACED && ids[Pid(r)] != PlaceOf(r) {
      malformed := malformed + [r];
    } else if r.slot.value !in slots || Pid(r) !in ids {
      unexpected := unexpected + [r];
    } else {
      var key := SlotPid(r);
      counts := counts[key := (if key in counts then counts[key] else 0) + 1];
      if counts[key] > 1 {
        duplicates := duplicates + [r];
      }
    }
  }

  lemma CountsPositive(
    got: seq<Receipt>, slots: set<string>, ids: map<int, Place>, counts: map<(string, int), int>, r: Receipt)
    requires Counts(got, slots, ids, counts)
    ensures forall key :: key in counts ==> counts[key] > 0
    ensures Counted(r, slots, ids) ==> (SlotPid(r) in counts <==> Tally(got, slots, ids, SlotPid(r)) > 0)
  {
    forall key | key in counts ensures counts[key] > 0 { assert CountsKey(got, slots, ids, counts, key); }
    if Counted(r, slots, ids) { assert CountsKey(got, slots, ids, counts, SlotPid(r)); }
  }

  /** The completion loop: how often each slot and member completed, and every other receipt in its own list. */
  method ReadCompletions(
    got: seq<Receipt>, slots: set<string>, ids: map<int, Place>, malformed0: seq<Receipt>, duplicates0: seq<Receipt>)
    returns (
      counts: map<(string, int), int>, malformed: seq<Receipt>, unexpected: seq<Receipt>, duplicates: seq<Receipt>)
    ensures Counts(got, slots, ids, counts)
    ensures Listed(got, slots, ids, malformed0, duplicates0, malformed, unexpected, duplicates)
  {
    counts, malformed, unexpected, duplicates := map[], malformed0, [], duplicates0;
    for i := 0 to |got|
      invariant Counts(got[..i], slots, ids, counts)
      invariant Listed(got[..i], slots, ids, malformed0, duplicates0, malformed, unexpected, duplicates)
    {
      CountsPositive(got[..i], slots, ids, counts, got[i]);
      ListNext(got, i, slots, ids, malformed0, duplicates0, malformed, unexpected, duplicates,
               Counted(got[i], slots, ids) && SlotPid(got[i]) in counts);
      if Counted(got[i], slots, ids) {
        CountNext(got, i, slots, ids, counts);
      } else {
        SkipNext(got, i, slots, ids, counts);
      }
      counts, malformed, unexpected, duplicates :=
        ReadOne(got[i], slots, ids, counts, malformed, unexpected, duplicates);
    }
    assert got[..|got|] == got;
  }

  lemma CleanIff(got: seq<Receipt>, slots: set<string>, ids: map<int, Place>)
    ensures AllCounted(got, slots, ids) <==>
      Keep(got, MalformedBy(ids)) == [] && Keep(got, UnexpectedBy(slots, ids)) == []
  {
    KeepNone(got, MalformedBy(ids));
    KeepNone(got, UnexpectedBy(slots, ids));
    forall r ensures Counted(r, slots, ids) <==> !MalformedBy(ids)(r) && !UnexpectedBy(slots, ids)(r) {}
  }

  lemma TallyPositive(got: seq<Receipt>, slots: set<string>, ids: map<int, Place>, key: (string, int))
    ensures Tally(got, slots, ids, key) > 0 <==> exists r :: r in got && Counted(r, slots, ids) && SlotPid(r) == key
  {
    KeepNone(got, CountedAs(slots, ids, key));
  }

  lemma CountsTallied(got: seq<Receipt>, slots: set<string>, ids: map<int, Place>, counts: map<(string, int), int>)
    requires Counts(got, slots, ids, counts)
    ensures Tallied(got, slots, ids, counts)
  {
    forall key ensures key in counts <==> exists r :: r in got && Counted(r, slots, ids) && SlotPid(r) == key {
      assert CountsKey(got, slots, ids, counts, key);
      TallyPositive(got, slots, ids, key);
    }
  }

  lemma {:induction false} OnceIff(got: seq<Receipt>, slots: set<string>, ids: map<int, Place>)
    requires AllCounted(got, slots, ids)
    ensures Repeats(got, slots, ids) == [] <==> Pairwise(DifferentPair, got)
  {
    if got == [] {
      assert Pairwise(DifferentPair, got);
    } else {
      var init, r := got[..|got| - 1], got[|got| - 1];
      assert got == init + [r] && Counted(r, slots, ids);
      OnceIff(init, slots, ids);
      PairwiseSnoc(DifferentPair, init, r);
      TallyPositive(init, slots, ids, SlotPid(r));
    }
  }

  // ----- deriving an anonymous roster's ranks

  /** The places a pid's completions name. */
  function PlacesOf(got: seq<Receipt>, pid: int): set<Place> {
    set r | r in got && Valid(r) && Pid(r) == pid :: PlaceOf(r)
  }

  function DerivedOf(got: seq<Receipt>, ids: map<int, Place>): map<int, set<Place>> {
    map p | p in ids :: PlacesOf(got, p)
  }

  function Noted(derived: map<int, set<Place>>, r: Receipt): map<int, set<Place>> {
    if Valid(r) && Pid(r) in derived then derived[Pid(r) := derived[Pid(r)] + {PlaceOf(r)}] else derived
  }

  lemma DerivedSnoc(got: seq<Receipt>, r: Receipt, ids: map<int, Place>)
    ensures DerivedOf(got + [r], ids) == Noted(DerivedOf(got, ids), r)
  {
    var before, after := DerivedOf(got, ids), DerivedOf(got + [r], ids);
    PlacesSnoc(got, r);
    assert after.Keys == Noted(before, r).Keys == ids.Keys;
    forall p | p in ids ensures after[p] == Noted(before, r)[p] {
      assert after[p] == PlacesOf(got + [r], p) && before[p] == PlacesOf(got, p);
    }
  }

  method Derive(got: seq<Receipt>, ids: map<int, Place>) returns (derived: map<int, set<Place>>)
    ensures derived == DerivedOf(got, ids)
  {
    derived := map p | p in ids :: {};
    assert forall p :: PlacesOf(got[..0], p) == {};
    for i := 0 to |got|
      invariant derived == DerivedOf(got[..i], ids)
    {
      var r := got[i];
      assert got[..i + 1] == got[..i] + [r];
      DerivedSnoc(got[..i], r, ids);
      derived := Noted(derived, r);
    }
    assert got[..|got|] == got;
  }

  lemma PlacesSnoc(got: seq<Receipt>, r: Receipt)
    ensures forall p ::
      PlacesOf(got + [r], p) == PlacesOf(got, p) + (if Valid(r) && Pid(r) == p then {PlaceOf(r)} else {})
  {
    assert forall x :: x in got + [r] <==> x in got || x == r;
  }

  /** Pids whose completions agree on one place. */
  function Solo(derived: map<int, set<Place>>): set<int> {
    set p | p in derived && |derived[p]| == 1 && UNPLACED !in derived[p]
  }

  function SoloPlaces(derived: map<int, set<Place>>): set<Place> {
    set p, x | p in Solo(derived) && x in derived[p] :: x
  }

  function AllPlaces(derived: map<int, set<Place>>): set<Place> {
    set p, x | p in derived && x in derived[p] :: x
  }

  function Worlds(places: set<Place>): set<int> { set x | x in places :: x.world }

  function Ranks(places: set<Place>): set<int> { set x | x in places :: x.rank }

  /** The test on completions when the active receipts name only pids. */
  predicate DerivedOk(derived: map<int, set<Place>>, target: nat) {
    if target > 1 then
      && |Solo(derived)| == |derived| && Worlds(SoloPlaces(derived)) == {target}
      && Ranks(SoloPlaces(derived)) == Range(target)
    else
      var known := AllPlaces(derived) - {UNPLACED};
      known == {} || known == {Place(0, 1)}
  }

  /** Every completion is by a member, and every member completed something. */
  ghost predicate Attended(got: seq<Receipt>, pids: set<int>) {
    && (forall r :: r in got ==> Valid(r) && Pid(r) in pids)
    && forall p :: p in pids ==> exists r :: r in got && Pid(r) == p
  }

  ghost predicate Single(got: seq<Receipt>) {
    && (forall r :: r in got ==> PlaceOf(r) != UNPLACED)
    && forall a, b :: a in got && b in got && Pid(a) == Pid(b) ==> PlaceOf(a) == PlaceOf(b)
  }

  lemma OneElement<T>(s: set<T>, x: T)
    requires x in s
    ensures |s| == 1 <==> forall y :: y in s ==> y == x
  {
    if |s| == 1 { SubsetSame({x}, s); }
    if forall y :: y in s ==> y == x { assert s == {x}; }
  }

  ghost predicate SingleAt(got: seq<Receipt>, p: int) {
    && (forall r :: r in got && Pid(r) == p ==> PlaceOf(r) != UNPLACED)
    && forall a, b :: a in got && b in got && Pid(a) == p == Pid(b) ==> PlaceOf(a) == PlaceOf(b)
  }

  lemma SoloAt(got: seq<Receipt>, ids: map<int, Place>, p: int)
    requires Attended(got, ids.Keys) && p in ids
    ensures p in Solo(DerivedOf(got, ids)) <==> SingleAt(got, p)
  {
    var w :| w in got && Pid(w) == p;
    var places := PlacesOf(got, p);
    OneElement(places, PlaceOf(w));
    assert forall r :: r in got && Pid(r) == p ==> PlaceOf(r) in places;
    if p in Solo(DerivedOf(got, ids)) {
      forall r | r in got && Pid(r) == p ensures PlaceOf(r) == PlaceOf(w) { assert PlaceOf(r) in places; }
    }
  }

  lemma SingleIff(got: seq<Receipt>, pids: set<int>)
    requires Attended(got, pids)
    ensures Single(got) <==> forall p :: p in pids ==> SingleAt(got, p)
  {
    if forall p :: p in pids ==> SingleAt(got, p) {
      forall r | r in got ensures PlaceOf(r) != UNPLACED { assert SingleAt(got, Pid(r)); }
      forall a, b | a in got && b in got && Pid(a) == Pid(b) ensures PlaceOf(a) == PlaceOf(b) {
        assert SingleAt(got, Pid(a));
      }
    }
  }

  lemma SoloAll(got: seq<Receipt>, ids: map<int, Place>)
    requires Attended(got, ids.Keys)
    ensures Solo(DerivedOf(got, ids)) <= ids.Keys
    ensures Solo(DerivedOf(got, ids)) == ids.Keys <==> Single(got)
  {
    var solo := Solo(DerivedOf(got, ids));
    forall p | p in ids ensures p in solo <==> SingleAt(got, p) { SoloAt(got, ids, p); }
    SingleIff(got, ids.Keys);
  }

  lemma SoloIff(got: seq<Receipt>, ids: map<int, Place>)
    requires Attended(got, ids.Keys)
    ensures |Solo(DerivedOf(got, ids))| == |DerivedOf(got, ids)| <==> Single(got)
    ensures Single(got) ==> Solo(DerivedOf(got, ids)) == ids.Keys
  {
    SoloAll(got, ids);
    SameSizeIff(Solo(DerivedOf(got, ids)), ids.Keys);
    assert DerivedOf(got, ids).Keys == ids.Keys;
  }

  lemma AllPlacesAre(got: seq<Receipt>, ids: map<int, Place>, x: Place)
    requires Attended(got, ids.Keys)
    ensures x in AllPlaces(DerivedOf(got, ids)) <==> exists r :: r in got && PlaceOf(r) == x
  {
    var derived := DerivedOf(got, ids);
    if x in AllPlaces(derived) {
      var p :| p in derived && x in derived[p];
    }
    if r :| r in got && PlaceOf(r) == x { assert x in derived[Pid(r)]; }
  }

  lemma SoloPlacesAre(got: seq<Receipt>, ids: map<int, Place>)
    requires Attended(got, ids.Keys) && Single(got)
    ensures SoloPlaces(DerivedOf(got, ids)) == AllPlaces(DerivedOf(got, ids))
  {
    SoloIff(got, ids);
  }

  lemma WorldsAre(got: seq<Receipt>, places: set<Place>, n: int)
    requires got != [] && forall x :: x in places <==> exists r :: r in got && PlaceOf(r) == x
    ensures Worlds(places) == {n} <==> forall r :: r in got ==> PlaceOf(r).world == n
    ensures Ranks(places) == RanksOf(got)
  {
    assert got[0] in got && PlaceOf(got[0]) in places;
    assert PlaceOf(got[0]).world in Worlds(places);
    if Worlds(places) == {n} {
      forall r | r in got ensures PlaceOf(r).world == n {
        assert PlaceOf(r) in places && PlaceOf(r).world in Worlds(places);
      }
    }
    forall k ensures k in Ranks(places) <==> k in RanksOf(got) {
      if r :| r in got && PlaceOf(r).rank == k { assert PlaceOf(r) in places; }
    }
  }

  lemma WitnessRanks(got: seq<Receipt>, w: seq<Receipt>, members: seq<Receipt>)
    requires Single(got) && (forall r :: r in got ==> Pid(r) in Pids(members))
    requires |w| == |members| && forall i :: 0 <= i < |w| ==> w[i] in got && Pid(w[i]) == Pid(members[i])
    ensures RanksOf(w) == RanksOf(got)
  {
    forall r | r in got ensures PlaceOf(r).rank in RanksOf(w) {
      var m :| m in members && Pid(m) == Pid(r);
      var i :| 0 <= i < |members| && members[i] == m;
      assert PlaceOf(w[i]) == PlaceOf(r) && w[i] in w;
    }
  }

  lemma OnePerPidWhen(got: seq<Receipt>, w: seq<Receipt>, members: seq<Receipt>)
    requires Single(got) && (forall r :: r in got ==> Pid(r) in Pids(members)) && Pairwise(DifferentRank, w)
    requires |w| == |members| && forall i :: 0 <= i < |w| ==> w[i] in got && Pid(w[i]) == Pid(members[i])
    ensures OneRankPerPid(got)
  {
    forall a, b | a in got && b in got && Pid(a) != Pid(b) ensures PlaceOf(a).rank != PlaceOf(b).rank {
      var m :| m in members && Pid(m) == Pid(a);
      var n :| n in members && Pid(n) == Pid(b);
      var i :| 0 <= i < |members| && members[i] == m;
      var j :| 0 <= j < |members| && members[j] == n;
      assert PlaceOf(w[i]) == PlaceOf(a) && PlaceOf(w[j]) == PlaceOf(b);
      if i < j { assert DifferentRank(w[i], w[j]); } else { assert DifferentRank(w[j], w[i]); }
    }
  }

  lemma PairwiseFromOne(got: seq<Receipt>)
    requires OneRankPerPid(got)
    ensures Pairwise(SamePidSameRank, got)
  {
    forall i, j | 0 <= i < j < |got| ensures SamePidSameRank(got[i], got[j]) { assert got[i] in got && got[j] in got; }
  }

  lemma SingleWhenRanked(got: seq<Receipt>, n: nat)
    requires n > 1 && OneRankPerPid(got) && forall r :: r in got ==> PlaceOf(r).world == n
    ensures Single(got)
  {
    forall a, b | a in got && b in got && Pid(a) == Pid(b) ensures PlaceOf(a) == PlaceOf(b) {
      assert SamePidSameRank(a, b);
    }
  }

  lemma SinglePlaces(got: seq<Receipt>, ids: map<int, Place>, n: nat)
    requires Attended(got, ids.Keys) && Single(got) && got != []
    ensures Worlds(SoloPlaces(DerivedOf(got, ids))) == {n} <==> forall r :: r in got ==> PlaceOf(r).world == n
    ensures Ranks(SoloPlaces(DerivedOf(got, ids))) == RanksOf(got)
  {
    var places := AllPlaces(DerivedOf(got, ids));
    SoloPlacesAre(got, ids);
    forall x ensures x in places <==> exists r :: r in got && PlaceOf(r) == x { AllPlacesAre(got, ids, x); }
    WorldsAre(got, places, n);
  }

  lemma SingleCoherent(got: seq<Receipt>, w: seq<Receipt>, members: seq<Receipt>, ids: map<int, Place>)
    requires |members| > 1 && CleanRoster(members) && ids.Keys == Pids(members) && Attended(got, ids.Keys) &&
      Single(got)
    requires |w| == |members| && forall i :: 0 <= i < |w| ==> w[i] in got && Pid(w[i]) == Pid(members[i])
    ensures DerivedOk(DerivedOf(got, ids), |members|) <==> Coherent(got, |members|)
  {
    assert w[0] in got;
    SoloIff(got, ids);
    SinglePlaces(got, ids, |members|);
    if forall r :: r in got ==> PlaceOf(r).world == |members| {
      RanksCoherent(got, w, members);
    }
  }

  /** With several members the test on the derived places is coherence. */
  lemma ManyCoherent(got: seq<Receipt>, s: string, members: seq<Receipt>, ids: map<int, Place>)
    requires |members| > 1 && CleanRoster(members) && ids.Keys == Pids(members) && Attended(got, ids.Keys)
    requires forall m :: m in members ==> exists r :: r in got && Completes(r, s, Pid(m))
    ensures DerivedOk(DerivedOf(got, ids), |members|) <==> Coherent(got, |members|)
  {
    if Single(got) {
      var w := Witnesses(got, s, members);
      SingleCoherent(got, w, members, ids);
    } else {
      SoloIff(got, ids);
      assert !Coherent(got, |members|) by {
        if Coherent(got, |members|) { PairwiseRanks(got); SingleWhenRanked(got, |members|); }
      }
    }
  }

  lemma RanksCoherent(got: seq<Receipt>, w: seq<Receipt>, members: seq<Receipt>)
    requires |members| > 1 && Single(got) && CleanRoster(members) && Attended(got, Pids(members))
    requires forall r :: r in got ==> PlaceOf(r).world == |members|
    requires |w| == |members| && forall i :: 0 <= i < |w| ==> w[i] in got && Pid(w[i]) == Pid(members[i])
    ensures RanksOf(got) == Range(|members|) <==> Pairwise(SamePidSameRank, got)
  {
    forall r | r in got ensures 0 <= PlaceOf(r).rank < |members| { RankInWorld(r); }
    WitnessRanks(got, w, members);
    RanksDistinctIff(w);
    if RanksOf(got) == Range(|members|) {
      OnePerPidWhen(got, w, members);
      PairwiseFromOne(got);
    }
    if Pairwise(SamePidSameRank, got) {
      PairwiseRanks(got);
      RanksFill(got, w, members);
    }
  }

  lemma OneCoherent(got: seq<Receipt>, ids: map<int, Place>)
    requires Attended(got, ids.Keys)
    ensures DerivedOk(DerivedOf(got, ids), 1) <==> Coherent(got, 1)
  {
    var places := AllPlaces(DerivedOf(got, ids));
    forall x ensures x in places <==> exists r :: r in got && PlaceOf(r) == x { AllPlacesAre(got, ids, x); }
    if Coherent(got, 1) {
      forall x | x in places - {UNPLACED} ensures x == Place(0, 1) {
        var r :| r in got && PlaceOf(r) == x;
      }
    } else {
      var r :| r in got && PlaceOf(r) != UNPLACED && PlaceOf(r) != Place(0, 1);
      assert PlaceOf(r) in places - {UNPLACED};
    }
  }

  // ----- the matrix

  /** Complete but for the coherence of an anonymous roster. */
  ghost predicate Base(got: seq<Receipt>, slots: set<string>, members: seq<Receipt>, count: Option<int>) {
    && slots != {} && Roster(members, count)
    && (forall r :: r in got ==> Placed(r, slots, members))
    && Covers(got, slots, members) && Pairwise(DifferentPair, got)
  }

  lemma CoversIff(
    got: seq<Receipt>, slots: set<string>, members: seq<Receipt>, ids: map<int, Place>, counts: map<(string, int), int>)
    requires Tabled(members, ids) && Tallied(got, slots, ids, counts) && AllCounted(got, slots, ids)
    ensures Product(slots, ids.Keys) - counts.Keys == {} <==> Covers(got, slots, members)
  {
    var missing := Product(slots, ids.Keys) - counts.Keys;
    if Covers(got, slots, members) {
      forall x | x in Product(slots, ids.Keys) ensures x in counts {
        var m :| m in members && Pid(m) == x.1;
        var r :| r in got && Completes(r, x.0, Pid(m));
        assert SlotPid(r) == x;
      }
    }
    if missing == {} {
      forall s, m | s in slots && m in members ensures exists r :: r in got && Completes(r, s, Pid(m)) {
        assert (s, Pid(m)) in Product(slots, ids.Keys);
        assert (s, Pid(m)) !in missing;
        var r :| r in got && Counted(r, slots, ids) && SlotPid(r) == (s, Pid(m));
        assert Completes(r, s, Pid(m));
      }
    }
  }

  lemma BaseIff(
    got: seq<Receipt>, slots: set<string>, members: seq<Receipt>, count: Option<int>, ids: map<int, Place>,
    counts: map<(string, int), int>)
    requires "" !in slots && Roster(members, count) && Tabled(members, ids) && Counts(got, slots, ids, counts)
    ensures Base(got, slots, members, count) <==>
      && slots != {} && Keep(got, MalformedBy(ids)) == [] && Keep(got, UnexpectedBy(slots, ids)) == []
      && Repeats(got, slots, ids) == [] && Product(slots, ids.Keys) - counts.Keys == {}
  {
    forall r | r in got ensures Placed(r, slots, members) <==> Counted(r, slots, ids) {
      PlacedIff(r, slots, members, ids);
    }
    CleanIff(got, slots, ids);
    if AllCounted(got, slots, ids) {
      CountsTallied(got, slots, ids, counts);
      CoversIff(got, slots, members, ids, counts);
      OnceIff(got, slots, ids);
    }
  }

  lemma ByMembers(r: Receipt, slots: set<string>, members: seq<Receipt>, ids: map<int, Place>)
    requires Placed(r, slots, members) && Tabled(members, ids)
    ensures Valid(r) && Pid(r) in ids.Keys
  {
    var m := MemberOf(r, slots, members);
  }

  lemma SomethingCompleted(got: seq<Receipt>, s: string, members: seq<Receipt>, p: int)
    requires p in Pids(members) && forall m :: m in members ==> exists r :: r in got && Completes(r, s, Pid(m))
    ensures exists r :: r in got && Pid(r) == p
  {
    var m :| m in members && Pid(m) == p;
    var r :| r in got && Completes(r, s, Pid(m));
  }

  lemma BaseAttended(got: seq<Receipt>, slots: set<string>, members: seq<Receipt>, ids: map<int, Place>, s: string)
    requires Tabled(members, ids) && (forall r :: r in got ==> Placed(r, slots, members))
    requires forall m :: m in members ==> exists r :: r in got && Completes(r, s, Pid(m))
    ensures Attended(got, ids.Keys)
  {
    forall r | r in got ensures Valid(r) && Pid(r) in ids.Keys { ByMembers(r, slots, members, ids); }
    forall p | p in ids.Keys ensures exists r :: r in got && Pid(r) == p { SomethingCompleted(got, s, members, p); }
  }

  lemma BaseCoherent(
    got: seq<Receipt>, slots: set<string>, members: seq<Receipt>, count: Option<int>, ids: map<int, Place>)
    requires Base(got, slots, members, count) && Tabled(members, ids)
    ensures DerivedOk(DerivedOf(got, ids), |members|) <==> Coherent(got, |members|)
  {
    var s :| s in slots;
    BaseAttended(got, slots, members, ids, s);
    if |members| > 1 { ManyCoherent(got, s, members, ids); } else { OneCoherent(got, ids); }
  }

  datatype Matrix = Matrix(
    ok: bool, pids: set<int>, countOk: bool, missing: set<(string, int)>,
    malformed: seq<Receipt>, unexpected: seq<Receipt>, duplicates: seq<Receipt>)

  /** Anonymous members whose completions do not prove one identity each. */
  ghost predicate Incoherent(got: seq<Receipt>, ids: map<int, Place>, count: Option<int>) {
    && ids != map[] && Known(ids) == {}
    && !DerivedOk(DerivedOf(got, ids), Target(ids, count))
  }

  /** How many members the completions must prove. */
  function Target(ids: map<int, Place>, count: Option<int>): nat {
    if count.Some? && count.value >= 0 then count.value else |ids|
  }

  /** What the matrix reports beside its verdict. */
  ghost predicate Reports(got: seq<Receipt>, slots: set<string>, members: seq<Receipt>, count: Option<int>, m: Matrix) {
    var ids := RosterPlaces(members);
    && m.pids == ids.Keys
    && (m.countOk <==>
          members != [] && (count.None? || |ids| == count.value) && (Fitting(ids, count) || Scattered(ids)))
    && (forall slot, pid :: (slot, pid) in m.missing <==>
          slot in slots && pid in ids && !exists r :: r in got && Counted(r, slots, ids) && SlotPid(r) == (slot, pid))
    && m.malformed == Keep(members, Invalid) + (if Fitting(ids, count) then [] else members)
                      + Keep(got, MalformedBy(ids)) + (if Incoherent(got, ids, count) then got else [])
    && m.unexpected == Keep(got, UnexpectedBy(slots, ids))
    && m.duplicates == RepeatedMembers(members) + Repeats(got, slots, ids)
  }

  lemma MissingIs(got: seq<Receipt>, slots: set<string>, ids: map<int, Place>, counts: map<(string, int), int>)
    requires Counts(got, slots, ids, counts)
    ensures forall slot, pid :: (slot, pid) in Product(slots, ids.Keys) - counts.Keys <==>
      slot in slots && pid in ids && !exists r :: r in got && Counted(r, slots, ids) && SlotPid(r) == (slot, pid)
  {
    CountsTallied(got, slots, ids, counts);
  }

  method CheckCoherence(got: seq<Receipt>, ids: map<int, Place>, count: Option<int>) returns (incoherent: bool)
    requires count.Some? ==> count.value >= 1
    ensures incoherent <==> Incoherent(got, ids, count)
  {
    if ids == map[] || Known(ids) != {} {
      return false;
    }
    var derived := Derive(got, ids);
    incoherent := !DerivedOk(derived, Target(ids, count));
  }

  lemma SomeMember(members: seq<Receipt>, ids: map<int, Place>)
    requires Tabled(members, ids) && members != []
    ensures ids != map[] && Pid(members[0]) in ids
  {
    assert Pid(members[0]) in Pids(members);
  }

  /** No completion is malformed, unexpected, repeated or missing. */
  ghost predicate Spotless(
    got: seq<Receipt>, slots: set<string>, ids: map<int, Place>, counts: map<(string, int), int>)
  {
    && slots != {} && Keep(got, MalformedBy(ids)) == [] && Keep(got, UnexpectedBy(slots, ids)) == []
    && Repeats(got, slots, ids) == [] && Product(slots, ids.Keys) - counts.Keys == {}
  }

  lemma CompleteParts(got: seq<Receipt>, slots: set<string>, members: seq<Receipt>, count: Option<int>)
    requires "" !in slots
    ensures Complete(got, slots, members, count) <==>
      Base(got, slots, members, count) && (Anonymous(members) ==> Coherent(got, |members|))
  {
  }

  lemma IncoherentIff(got: seq<Receipt>, slots: set<string>, members: seq<Receipt>, count: Option<int>,
                      ids: map<int, Place>)
    requires Base(got, slots, members, count) && Tabled(members, ids) && (count.Some? ==> count.value >= 1)
    ensures Incoherent(got, ids, count) <==> Anonymous(members) && !Coherent(got, |members|)
  {
    TargetIs(members, count, ids);
    BaseCoherent(got, slots, members, count, ids);
  }

  lemma TargetIs(members: seq<Receipt>, count: Option<int>, ids: map<int, Place>)
    requires Roster(members, count) && Tabled(members, ids)
    ensures ids != map[] && Target(ids, count) == |members| && (Known(ids) == {} <==> Anonymous(members))
  {
    SettledIff(members, ids);
    PidsSize(members);
    SomeMember(members, ids);
  }

  /** Everything is reported empty exactly for complete coverage. */
  lemma CompleteIff(got: seq<Receipt>, slots: set<string>, members: seq<Receipt>, count: Option<int>,
                    ids: map<int, Place>, counts: map<(string, int), int>)
    requires "" !in slots && Roster(members, count) && Tabled(members, ids) && Counts(got, slots, ids, counts)
    requires count.Some? ==> count.value >= 1
    ensures Complete(got, slots, members, count) <==>
      Spotless(got, slots, ids, counts) && !Incoherent(got, ids, count)
  {
    CompleteParts(got, slots, members, count);
    BaseIff(got, slots, members, count, ids, counts);
    if Base(got, slots, members, count) { IncoherentIff(got, slots, members, count, ids); }
  }

  lemma AllEmpty<T>(a: seq<T>, b: seq<T>, c: seq<T>)
    ensures a + b + c == [] <==> a == [] && b == [] && c == []
  {
  }

  /** `coverage_matrix`: nothing for an empty slot name or a count below one; `ok` exactly for complete coverage. */
  method CoverageMatrix(got: seq<Receipt>, rawSlots: seq<string>, members: seq<Receipt>, count: Option<int>)
    returns (d: Option<Matrix>)
    ensures d.None? <==> "" in rawSlots || (count.Some? && count.value < 1)
    ensures d.Some? ==> (d.value.ok <==> Complete(got, Elements(rawSlots), members, count))
    ensures d.Some? ==> Reports(got, Elements(rawSlots), members, count, d.value)
  {
    var slots := Elements(rawSlots);
    if "" in rawSlots || (count.Some? && count.value < 1) {
      return None;
    }
    var m := Report(got, slots, members, count);
    d := Some(m);
  }

  /** The matrix once slots and count are accepted. */
  method Report(got: seq<Receipt>, slots: set<string>, members: seq<Receipt>, count: Option<int>) returns (m: Matrix)
    requires "" !in slots && (count.Some? ==> count.value >= 1)
    ensures m.ok <==> Complete(got, slots, members, count)
    ensures Reports(got, slots, members, count, m)
  {
    var ids, bad, repeated, countOk := ExpectedMembers(members, count);
    var counts, malformed, unexpected, duplicates := ReadCompletions(got, slots, ids, bad, repeated);
    var missing := Product(slots, ids.Keys) - counts.Keys;
    MissingIs(got, slots, ids, counts);
    var incoherent := CheckCoherence(got, ids, count);
    var disproved := if incoherent then got else [];
    AllEmpty(bad, Keep(got, MalformedBy(ids)), disproved);
    AllEmpty(repeated, Repeats(got, slots, ids), []);
    Verdict(got, slots, members, count, ids, counts, bad, repeated, countOk, incoherent);
    var ok := slots != {} && ids != map[] && countOk && missing == {} && malformed + disproved == [] &&
      unexpected == [] && duplicates == [];
    m := Matrix(ok, ids.Keys, countOk, missing, malformed + disproved, unexpected, duplicates);
  }

  lemma SomethingRead(
    got: seq<Receipt>, slots: set<string>, ids: map<int, Place>, counts: map<(string, int), int>, p: int)
    requires Counts(got, slots, ids, counts) && Spotless(got, slots, ids, counts) && p in ids
    ensures got != []
  {
    var slot :| slot in slots;
    assert (slot, p) in Product(slots, ids.Keys) && (slot, p) !in Product(slots, ids.Keys) - counts.Keys;
    CountsTallied(got, slots, ids, counts);
    var r :| r in got && Counted(r, slots, ids) && SlotPid(r) == (slot, p);
  }

  lemma Verdict(got: seq<Receipt>, slots: set<string>, members: seq<Receipt>, count: Option<int>, ids: map<int, Place>,
                counts: map<(string, int), int>, bad: seq<Receipt>, repeated: seq<Receipt>, countOk: bool,
                incoherent: bool)
    requires "" !in slots && Counts(got, slots, ids, counts) && (count.Some? ==> count.value >= 1)
    requires bad == [] && repeated == [] && countOk <==> Roster(members, count)
    requires Roster(members, count) ==> Tabled(members, ids)
    requires incoherent <==> Incoherent(got, ids, count)
    requires incoherent ==> ids != map[]
    ensures Complete(got, slots, members, count) <==>
      && bad == [] && repeated == [] && countOk && ids != map[]
      && Spotless(got, slots, ids, counts) && (incoherent ==> got == [])
  {
    if Roster(members, count) {
      CompleteIff(got, slots, members, count, ids, counts);
      SomeMember(members, ids);
      if Spotless(got, slots, ids, counts) { SomethingRead(got, slots, ids, counts, Pid(members[0])); }
    }
  }
}
