/** The whole submission call in the fields of its offer (`cacheon/arena_allocation.py`). */
module SubmissionOutcome {
  import opened Orders
  import opened Sums
  import opened PoolAllocation
  import opened PoolOutcome
  import opened SubmissionAllocation
  import opened SubmissionShares

  // ----- what is owed, exactly

  /** Row `i` earns for claim `k`, and no later row does. */
  ghost predicate CountsFor(x: Offer, i: int, k: string) {
    && 0 <= i < |x.rows| && x.rows[i].claim == k && k in x.terms && Earning(x, i)
    && forall j :: i < j < |x.rows| && x.rows[j].claim == k ==> !Earning(x, j)
  }

  /** The arena's mean term times the row's part of the arena's priced credit. */
  ghost predicate ShareIs(x: Offer, i: nat, share: real)
    requires i < |x.rows| && x.rows[i].claim in x.terms
  {
    var t := x.terms[x.rows[i].claim];
    && BaseOf(x, t.source) > 0 && PoolOf(x, t.source) > 0
    && share == PriceOf(x, t.source) as real / BaseOf(x, t.source) as real *
         ((t.ppm * x.rows[i].credit) as real / PoolOf(x, t.source) as real)
  }

  ghost function Amount(owed: map<string, Entry>): string -> real {
    k => if k in owed then owed[k].share else 0.0
  }

  /** Every earning claim its share, and the burn key whatever no claim asks for. */
  ghost predicate Owes(x: Offer, owed: map<string, Entry>) {
    && (forall k :: k in owed <==> k == "" || exists i :: CountsFor(x, i, k))
    && (forall i, k :: CountsFor(x, i, k) && k in owed ==>
          ShareIs(x, i, owed[k].share) && PaysTo(x, i, owed[k].recipient))
    && "" in owed && owed[""].recipient == x.burn
    && var asked := Sum(owed.Keys - {""}, Amount(owed));
       owed[""].share == if asked <= 1_000_000.0 then 1_000_000.0 - asked else 0.0
  }

  lemma CountsIff(x: Offer, i: int, k: string)
    requires Accepted(x)
    ensures CountsFor(x, i, k) <==> CountsUpTo(x, |x.rows|, i) && x.rows[i].claim == k
  {
    forall j: nat | j < |x.rows| ensures x.rows[j].claim in x.terms && (Earns(x, j) <==> Earning(x, j)) {
      EarningClaim(x, j);
      EarnsIff(x, j);
    }
  }

  lemma PricedAsStated(x: Offer, i: nat)
    requires i < |x.rows| && x.rows[i].claim in x.terms
    ensures PricedCredit(x)(i) == x.terms[x.rows[i].claim].ppm * x.rows[i].credit
  {
  }

  lemma EarningShare(x: Offer, i: nat)
    requires Accepted(x) && i < |x.rows| && x.rows[i].claim in x.terms && Earning(x, i)
    ensures ShareIs(x, i, Share(x)(i))
  {
    ExactShare(x, i, x.terms[x.rows[i].claim].source);
    PricedAsStated(x, i);
  }

  lemma EntryFound(x: Offer, i: int, k: string)
    requires Accepted(x) && CountsFor(x, i, k)
    ensures k in Shares(x) && k != "" && Shares(x)[k] == Entry(Share(x)(i), Recipient(x, x.rows[i].hotkey))
  {
    CountsIff(x, i, k);
    EntriesByRow(x, |x.rows|, i);
    ClaimsOnly(x);
  }

  lemma EntryIs(x: Offer, i: int, k: string)
    requires Accepted(x) && CountsFor(x, i, k)
    ensures k in Shares(x) && k != "" && Shares(x)[k] == Entry(Share(x)(i), Recipient(x, x.rows[i].hotkey))
    ensures ShareIs(x, i, Shares(x)[k].share) && PaysTo(x, i, Shares(x)[k].recipient)
  {
    EntryFound(x, i, k);
    EarningShare(x, i);
  }

  lemma ShareFrom(x: Offer, k: string) returns (i: int)
    requires Accepted(x) && k in Shares(x) && k != ""
    ensures CountsFor(x, i, k)
  {
    i := RowOfEntry(x, |x.rows|, k);
    CountsIff(x, i, k);
  }

  lemma AskedIs(x: Offer)
    requires Accepted(x)
    ensures Sum(Shares(x).Keys - {""}, Amount(Shares(x))) == Claimed(x)
  {
    ClaimsOnly(x);
    assert Shares(x).Keys - {""} == Entries(x, |x.rows|).Keys;
    SumSame(Entries(x, |x.rows|).Keys, Amount(Shares(x)), ShareOf(Entries(x, |x.rows|)));
  }

  lemma SharesOwed(x: Offer)
    requires Accepted(x)
    ensures Owes(x, Shares(x))
  {
    forall i, k | CountsFor(x, i, k)
      ensures k in Shares(x) && ShareIs(x, i, Shares(x)[k].share) && PaysTo(x, i, Shares(x)[k].recipient)
    {
      EntryIs(x, i, k);
    }
    forall k | k in Shares(x) && k != "" ensures exists i :: CountsFor(x, i, k) { var i := ShareFrom(x, k); }
    AskedIs(x);
  }

  lemma OwedEntry(x: Offer, owed: map<string, Entry>, k: string)
    requires Accepted(x) && Owes(x, owed) && k in owed && k != ""
    ensures k in Shares(x) && owed[k] == Shares(x)[k]
  {
    var i :| CountsFor(x, i, k);
    EntryIs(x, i, k);
  }

  lemma OwedKeys(x: Offer, owed: map<string, Entry>)
    requires Accepted(x) && Owes(x, owed)
    ensures owed.Keys == Shares(x).Keys
  {
    SharesOwed(x);
    forall k ensures k in owed <==> k in Shares(x) { }
  }

  lemma SameOwed(a: map<string, Entry>, b: map<string, Entry>)
    requires a.Keys == b.Keys && "" in a && a[""].recipient == b[""].recipient
    requires forall k :: k in a && k != "" ==> a[k] == b[k]
    requires Sum(a.Keys - {""}, Amount(a)) == Sum(b.Keys - {""}, Amount(b)) ==> a[""].share == b[""].share
    ensures a == b
  {
    SumSame(a.Keys - {""}, Amount(a), Amount(b));
  }

  lemma OwedOnce(x: Offer, owed: map<string, Entry>)
    requires Accepted(x) && Owes(x, owed)
    ensures owed == Shares(x)
  {
    OwedKeys(x, owed);
    forall k | k in owed && k != "" ensures owed[k] == Shares(x)[k] { OwedEntry(x, owed, k); }
    AskedIs(x);
    SameOwed(owed, Shares(x));
  }

  // ----- how it is served

  /** What each recipient is owed in all. */
  ghost predicate Gathers(owed: map<string, Entry>, due: map<string, real>) {
    && (forall h :: h in due <==> exists k :: k in owed && owed[k].recipient == h)
    && forall h :: h in due ==> due[h] == Sum((set k | k in owed && owed[k].recipient == h), Amount(owed))
  }

  /** What the recipient's weight is split by, and into. */
  ghost function OwedTo(owed: map<string, Entry>, h: string): map<string, real> {
    map k | k in owed && owed[k].recipient == h :: owed[k].share
  }

  ghost function GivenTo(owed: map<string, Entry>, part: map<string, int>, h: string): map<string, int> {
    map k | k in part && k in owed && owed[k].recipient == h :: part[k]
  }

  /** The pool is rounded over the recipients, and each one's weight over what it is owed for. */
  ghost predicate Serves(owed: map<string, Entry>, w: map<string, int>, part: map<string, int>) {
    && (exists due :: Gathers(owed, due) && Apportions(due, 1_000_000, w))
    && (forall k :: k in part <==> k in owed && owed[k].share > 0.0)
    && forall h :: h in w ==> Apportions(OwedTo(owed, h), w[h], GivenTo(owed, part, h))
  }

  /** The parts by claim, by arena and for the burn key, and the claims that got any, in alphabetical order. */
  ghost predicate Reports(x: Offer, part: map<string, int>, o: Tally) {
    && o.attribution == (map k | k in x.terms :: if k in part then part[k] else 0)
    && o.burned == (if "" in part then part[""] else 0)
    && (forall s :: s in o.arenaShares <==> exists k :: k in part && k in x.terms && x.terms[k].source == s)
    && (forall s :: s in o.arenaShares ==>
          o.arenaShares[s] == SumInt((set k | k in part && k in x.terms && x.terms[k].source == s), Whole(part)))
    && (forall k :: k in o.rewarded <==> k in part && k != "" && part[k] != 0)
    && forall i, j :: 0 <= i < j < |o.rewarded| ==>
         o.rewarded[i] != o.rewarded[j] && Alphabetical(o.rewarded[i], o.rewarded[j])
  }

  ghost predicate IsOutcome(x: Offer, w: map<string, int>, o: Tally) {
    exists owed, part :: Owes(x, owed) && Serves(owed, w, part) && Reports(x, part, o)
  }

  ghost function PartsIn(shares: map<string, Entry>, weights: map<string, int>): map<string, int> {
    map k | k in shares && shares[k].share > 0.0 :: PartOf(shares, weights)(k)
  }

  ghost function PartsOf(x: Offer): map<string, int> {
    PartsIn(Shares(x), Weights(x))
  }

  lemma GathersIff(owed: map<string, Entry>, due: map<string, real>)
    ensures Gathers(owed, due) <==> due == ByHotkey(owed, owed.Keys)
  {
    var all := ByHotkey(owed, owed.Keys);
    forall h ensures h in all <==> exists k :: k in owed && owed[k].recipient == h { }
    forall h | h in all ensures all[h] == Sum((set k | k in owed && owed[k].recipient == h), Amount(owed)) {
      var keys := set k | k in owed && owed[k].recipient == h;
      assert keys == Fiber(owed.Keys, RecipientOf(owed), h);
      SumSame(keys, Amount(owed), ShareOf(owed));
    }
    if Gathers(owed, due) { assert due.Keys == all.Keys; }
  }

  lemma ServedBy(owed: map<string, Entry>, credits: Credits, w: map<string, int>)
    requires credits == ByHotkey(owed, owed.Keys) && exists h :: h in credits && credits[h] > 0.0
    ensures w == Allocation(credits, 1_000_000) <==> exists due :: Gathers(owed, due) && Apportions(due, 1_000_000, w)
  {
    GathersIff(owed, credits);
    AllocationMeaning(credits, 1_000_000, w);
    if due :| Gathers(owed, due) && Apportions(due, 1_000_000, w) { GathersIff(owed, due); }
  }

  lemma WeightsServe(x: Offer, w: map<string, int>)
    requires Accepted(x)
    ensures w == Weights(x) <==> exists due :: Gathers(Shares(x), due) && Apportions(due, 1_000_000, w)
  {
    HotkeysPayable(x);
    var h :| h in Positive(HotkeyShares(x));
    ServedBy(Shares(x), HotkeyShares(x), w);
  }

  lemma PartsPayable(x: Offer, h: string)
    requires Accepted(x) && h in Weights(x)
    ensures Weights(x)[h] >= 0 && OwedTo(Shares(x), h) == Parts(Shares(x), h) && Positive(Parts(Shares(x), h)) != {}
  {
    OfferSplittable(x);
  }

  lemma PartAt(shares: map<string, Entry>, weights: map<string, int>, h: string, k: string)
    requires h in weights && weights[h] >= 0 && k in shares && shares[k].recipient == h
    ensures PartOf(shares, weights)(k) == WeightOf(Allocation(Parts(shares, h), weights[h]))(k)
  {
    assert RecipientOf(shares)(k) == h;
  }

  lemma GivenFrom(shares: map<string, Entry>, weights: map<string, int>, h: string)
    requires h in weights && weights[h] >= 0
    ensures GivenTo(shares, PartsIn(shares, weights), h) == Allocation(Parts(shares, h), weights[h])
  {
    var given, split := GivenTo(shares, PartsIn(shares, weights), h), Allocation(Parts(shares, h), weights[h]);
    assert given.Keys == Positive(Parts(shares, h)) && split.Keys == Positive(Parts(shares, h));
    forall k | k in given ensures given[k] == split[k] { PartAt(shares, weights, h, k); }
    SameMap(given, split);
  }

  lemma SplitMeaning(x: Offer, h: string, v: map<string, int>)
    requires Accepted(x) && h in Weights(x)
    ensures v == GivenTo(Shares(x), PartsOf(x), h) <==> Apportions(OwedTo(Shares(x), h), Weights(x)[h], v)
  {
    PartsPayable(x, h);
    GivenFrom(Shares(x), Weights(x), h);
    var k :| k in Positive(Parts(Shares(x), h));
    AllocationMeaning(Parts(Shares(x), h), Weights(x)[h], v);
  }

  lemma PartsServed(x: Offer)
    requires Accepted(x)
    ensures Serves(Shares(x), Weights(x), PartsOf(x))
  {
    WeightsServe(x, Weights(x));
    forall h | h in Weights(x)
      ensures Apportions(OwedTo(Shares(x), h), Weights(x)[h], GivenTo(Shares(x), PartsOf(x), h))
    {
      SplitMeaning(x, h, GivenTo(Shares(x), PartsOf(x), h));
    }
  }

  lemma SamePartKeys(owed: map<string, Entry>, w: map<string, int>, part: map<string, int>)
    requires Serves(owed, w, part)
    ensures part.Keys == PartsIn(owed, w).Keys
  {
  }

  lemma SameMap(a: map<string, int>, b: map<string, int>)
    requires a.Keys == b.Keys && forall k :: k in a ==> a[k] == b[k]
    ensures a == b
  {
  }

  lemma ServedOnce(x: Offer, w: map<string, int>, part: map<string, int>)
    requires Accepted(x) && Serves(Shares(x), w, part)
    ensures w == Weights(x) && part == PartsOf(x)
  {
    WeightsServe(x, w);
    SamePartKeys(Shares(x), w, part);
    forall k | k in part ensures k in PartsOf(x) && part[k] == PartsOf(x)[k] { PartOnce(x, part, k); }
    SameMap(part, PartsOf(x));
  }

  lemma PartOnce(x: Offer, part: map<string, int>, k: string)
    requires Accepted(x) && Serves(Shares(x), Weights(x), part) && k in part
    ensures k in PartsOf(x) && part[k] == PartsOf(x)[k]
  {
    var h := Shares(x)[k].recipient;
    PositiveShareServed(x, k);
    SplitMeaning(x, h, GivenTo(Shares(x), part, h));
    assert GivenTo(Shares(x), part, h)[k] == GivenTo(Shares(x), PartsOf(x), h)[k];
  }

  // ----- how it is reported

  lemma PaidAreParts(x: Offer)
    requires Accepted(x)
    ensures PaidKeys(Shares(x), Weights(x).Keys) == PartsOf(x).Keys
  {
    forall k | k in PartsOf(x) ensures k in PaidKeys(Shares(x), Weights(x).Keys) { PositiveShareServed(x, k); }
  }

  lemma PartsNamed(x: Offer)
    requires Accepted(x)
    ensures forall k :: k in PartsOf(x) ==> k == "" || k in x.terms
    ensures "" !in x.terms
  {
    SharesNonNegative(x);
    assert "" !in Claims(x.rows);
  }

  lemma ArenaKeys(x: Offer, part: map<string, int>, s: string)
    requires "" !in x.terms && forall k :: k in part ==> k == "" || k in x.terms
    ensures Fiber(part.Keys - {""}, SourceOf(x), s) == set k | k in part && k in x.terms && x.terms[k].source == s
    ensures s in SourcesOf(SourceOf(x), part.Keys) <==> exists k :: k in part && k in x.terms && x.terms[k].source == s
  {
  }

  lemma ArenaReported(x: Offer, part: map<string, int>, f: string -> int, m: map<string, int>)
    requires "" !in x.terms && (forall k :: k in part ==> (k == "" || k in x.terms) && part[k] == f(k))
    requires ArenasTallied(SourceOf(x), f, part.Keys, m)
    ensures forall s :: s in m <==> exists k :: k in part && k in x.terms && x.terms[k].source == s
    ensures forall s :: s in m ==>
      m[s] == SumInt((set k | k in part && k in x.terms && x.terms[k].source == s), Whole(part))
  {
    forall s ensures s in m <==> exists k :: k in part && k in x.terms && x.terms[k].source == s {
      ArenaKeys(x, part, s);
    }
    forall s | s in m
      ensures m[s] == SumInt((set k | k in part && k in x.terms && x.terms[k].source == s), Whole(part))
    {
      ArenaKeys(x, part, s);
      SumIntSame(Fiber(part.Keys - {""}, SourceOf(x), s), f, Whole(part));
    }
  }

  lemma RewardedReported(rewarded: seq<string>)
    requires Distinct(rewarded) && Sorted(StrLeq, rewarded)
    ensures forall i, j :: 0 <= i < j < |rewarded| ==>
      rewarded[i] != rewarded[j] && Alphabetical(rewarded[i], rewarded[j])
  {
    forall i, j | 0 <= i < j < |rewarded| ensures Alphabetical(rewarded[i], rewarded[j]) {
      StrLeqMeaning(rewarded[i], rewarded[j]);
    }
  }

  lemma PartsReported(x: Offer, part: map<string, int>, f: string -> int, o: Tally)
    requires "" !in x.terms && (forall k :: k in part ==> (k == "" || k in x.terms) && part[k] == f(k))
    requires Tallied(SourceOf(x), f, x.terms.Keys, part.Keys, o) && Sorted(StrLeq, o.rewarded)
    ensures Reports(x, part, o)
  {
    ArenaReported(x, part, f, o.arenaShares);
    RewardedReported(o.rewarded);
    SameMap(o.attribution, map k | k in x.terms :: if k in part then part[k] else 0);
  }

  lemma TallyReported(x: Offer, o: Tally)
    requires Accepted(x) && Sorted(StrLeq, o.rewarded)
    requires Tallied(SourceOf(x), Attributed(x), x.terms.Keys, PaidKeys(Shares(x), Weights(x).Keys), o)
    ensures Reports(x, PartsOf(x), o)
  {
    PaidAreParts(x);
    PartsNamed(x);
    PartsReported(x, PartsOf(x), Attributed(x), o);
  }

  /** What an accepted offer returns is an outcome as described. */
  lemma OutcomeMeaning(x: Offer, o: Tally)
    requires Accepted(x) && Sorted(StrLeq, o.rewarded)
    requires Tallied(SourceOf(x), Attributed(x), x.terms.Keys, PaidKeys(Shares(x), Weights(x).Keys), o)
    ensures IsOutcome(x, Weights(x), o)
  {
    SharesOwed(x);
    PartsServed(x);
    TallyReported(x, o);
  }

  // ----- and there is only one

  lemma {:induction false} AlphabeticalOnce(a: seq<string>, b: seq<string>)
    requires Distinct(a) && Distinct(b) && Sorted(StrLeq, a) && Sorted(StrLeq, b) && forall k :: k in a <==> k in b
    ensures a == b
  {
    forall k ensures multiset(a)[k] == multiset(b)[k] {
      CountAtMostOnce(a, k);
      CountAtMostOnce(b, k);
      assert k in a <==> k in multiset(a);
      assert k in b <==> k in multiset(b);
    }
    forall j, k | StrLeq(j, k) && StrLeq(k, j) ensures j == k { StrAntisymmetric(j, k); }
    SortedUnique(StrLeq, a, b);
  }

  lemma ReportedSorted(x: Offer, part: map<string, int>, o: Tally)
    requires Reports(x, part, o)
    ensures Distinct(o.rewarded) && Sorted(StrLeq, o.rewarded)
  {
    forall i, j | 0 <= i < j < |o.rewarded| ensures StrLeq(o.rewarded[i], o.rewarded[j]) {
      StrLeqMeaning(o.rewarded[i], o.rewarded[j]);
    }
  }

  lemma ReportedOnce(x: Offer, part: map<string, int>, o: Tally, u: Tally)
    requires Reports(x, part, o) && Reports(x, part, u)
    ensures o == u
  {
    ReportedSorted(x, part, o);
    ReportedSorted(x, part, u);
    AlphabeticalOnce(o.rewarded, u.rewarded);
    assert o.arenaShares.Keys == u.arenaShares.Keys;
  }

  lemma OutcomeReports(x: Offer, w: map<string, int>, o: Tally)
    requires Accepted(x) && IsOutcome(x, w, o)
    ensures w == Weights(x) && Reports(x, PartsOf(x), o)
  {
    var owed, part :| Owes(x, owed) && Serves(owed, w, part) && Reports(x, part, o);
    OwedOnce(x, owed);
    ServedOnce(x, w, part);
  }

  /** The description leaves one vector and one report. */
  lemma OutcomeUnique(x: Offer, w: map<string, int>, o: Tally, v: map<string, int>, u: Tally)
    requires Accepted(x) && IsOutcome(x, w, o) && IsOutcome(x, v, u)
    ensures w == v && o == u
  {
    OutcomeReports(x, w, o);
    OutcomeReports(x, v, u);
    ReportedOnce(x, PartsOf(x), o, u);
  }
}
