/** What a reward projection pays, in the call's own maps and blocks (`cacheon/economics.py`). */
module ProjectionOutcome {
  import opened Wrappers
  import opened Orders
  import opened Sums
  import opened PoolAllocation
  import opened SubmissionAllocation
  import opened Projection
  import ProjectionInputs
  import SubmissionShares

  // ----- what a claim is credited with

  /** The supplied score, or the measured speedup when no scores are supplied. */
  ghost predicate Scored(call: Call, c: Claim, speedup: int) {
    if call.scores.Some? then c.digest in call.scores.value && speedup == call.scores.value[c.digest]
    else speedup == c.speedup
  }

  /** Decay starts when declared, now when declared open, and at the crown otherwise. */
  ghost predicate Started(call: Call, c: Claim, start: int) {
    if c.digest !in call.starts then start == c.crowned
    else if call.starts[c.digest].Some? then start == call.starts[c.digest].value
    else start == call.block
  }

  ghost predicate Bonused(call: Call, c: Claim, bonus: int) {
    if call.bonuses.Some? then c.digest in call.bonuses.value && bonus == call.bonuses.value[c.digest]
    else bonus == 1_000_000
  }

  /** The stall clock: the arena's own, or the one it continues. */
  ghost predicate OnClock(call: Call, c: Claim, clock: string) {
    if c.arena in call.clocks then clock == call.clocks[c.arena] else clock == c.arena
  }

  /** On the same clock, crowned earlier or in the same block with the smaller digest. */
  ghost predicate Before(call: Call, a: Claim, b: Claim) {
    && (exists k :: OnClock(call, a, k) && OnClock(call, b, k))
    && (a.crowned < b.crowned || (a.crowned == b.crowned && a != b && Alphabetical(a.digest, b.digest)))
  }

  ghost predicate First(call: Call, earning: seq<Claim>, c: Claim) {
    forall a :: a in earning ==> !Before(call, a, c)
  }

  /** The latest block crowned before the claim on its clock; its own block when it is the first. */
  ghost predicate Preceded(call: Call, earning: seq<Claim>, c: Claim, block: int) {
    && (forall a :: a in earning && Before(call, a, c) ==> a.crowned <= block)
    && if First(call, earning, c) then block == c.crowned
       else exists a :: a in earning && Before(call, a, c) && a.crowned == block
  }

  /** The arguments of the claim's credit. */
  ghost predicate CreditedFrom(call: Call, c: Claim, x: CreditArgs) {
    && Scored(call, c, x.speedup) && Started(call, c, x.start)
    && x.crowned == c.crowned && x.block == call.block
  }

  /** `credit_at` accepts the arguments. */
  ghost predicate Payable(x: CreditArgs) {
    x.speedup > 1_000_000 && x.predecessor <= x.crowned <= x.start <= x.block && 0 <= x.bonus <= 1_000_000
  }

  lemma ClockMeaning(call: Call, c: Claim, k: string)
    ensures OnClock(call, c, k) <==> k == ClockOf(call.clocks, c)
  {
  }

  lemma SameClock(call: Call, a: Claim, b: Claim)
    ensures (exists k :: OnClock(call, a, k) && OnClock(call, b, k)) <==>
      ClockOf(call.clocks, a) == ClockOf(call.clocks, b)
  {
    forall k ensures OnClock(call, a, k) <==> k == ClockOf(call.clocks, a) { ClockMeaning(call, a, k); }
    forall k ensures OnClock(call, b, k) <==> k == ClockOf(call.clocks, b) { ClockMeaning(call, b, k); }
    if ClockOf(call.clocks, a) == ClockOf(call.clocks, b) {
      assert OnClock(call, a, ClockOf(call.clocks, a)) && OnClock(call, b, ClockOf(call.clocks, a));
    }
  }

  /** The credit of a claim whose scores and bonuses are complete, argument by argument. */
  lemma CreditMeaning(call: Call, c: Claim, predecessor: nat, bonus: int, credit: nat)
    requires call.scores.Some? ==> c.digest in call.scores.value
    requires CreditAt(call, c, predecessor, bonus) == Some(credit)
    ensures exists x :: CreditedFrom(call, c, x) && Payable(x) && x.predecessor == predecessor && x.bonus == bonus &&
              credit == call.credit(x)
  {
    var speedup := if call.scores.Some? then call.scores.value[c.digest] else c.speedup;
    var x := CreditArgs(speedup, c.crowned, call.block, predecessor, StartOf(call, c), bonus);
    assert CreditedFrom(call, c, x) && Payable(x);
  }

  lemma BonusMeaning(call: Call, c: Claim)
    requires call.bonuses.Some? ==> c.digest in call.bonuses.value
    ensures Bonused(call, c, BonusOf(call, c))
  {
  }

  // ----- the predecessor

  lemma SortedBefore(call: Call, claims: seq<Claim>, j: nat, i: nat)
    requires j < i < |claims| && Sorted(ByClock(call.clocks), claims) && DistinctDigests(claims)
    requires ClockOf(call.clocks, claims[j]) == ClockOf(call.clocks, claims[i])
    ensures Before(call, claims[j], claims[i])
  {
    assert ByClock(call.clocks)(claims[j], claims[i]);
    SameClock(call, claims[j], claims[i]);
    StrLeqMeaning(claims[j].digest, claims[i].digest);
    assert claims[j].digest != claims[i].digest;
  }

  ghost predicate DistinctDigests(claims: seq<Claim>) {
    forall i, j :: 0 <= i < j < |claims| ==> claims[i].digest != claims[j].digest
  }

  lemma BeforeSorted(call: Call, claims: seq<Claim>, j: nat, i: nat)
    requires j < |claims| && i < |claims| && Sorted(ByClock(call.clocks), claims) && DistinctDigests(claims)
    requires Before(call, claims[j], claims[i])
    ensures j < i && ClockOf(call.clocks, claims[j]) == ClockOf(call.clocks, claims[i])
  {
    SameClock(call, claims[j], claims[i]);
    if i < j {
      assert ByClock(call.clocks)(claims[i], claims[j]);
      StrLeqMeaning(claims[j].digest, claims[i].digest);
      if claims[j].crowned == claims[i].crowned { StrAntisymmetric(claims[j].digest, claims[i].digest); }
    }
  }

  /** Earlier on the clock in the sorted list is before it by block and digest. */
  ghost predicate Ahead(call: Call, claims: seq<Claim>, i: nat, a: Claim)
    requires i < |claims|
  {
    a in claims[..i] && ClockOf(call.clocks, a) == ClockOf(call.clocks, claims[i])
  }

  lemma AheadIff(call: Call, claims: seq<Claim>, i: nat, a: Claim)
    requires i < |claims| && a in claims && Sorted(ByClock(call.clocks), claims) && DistinctDigests(claims)
    ensures Ahead(call, claims, i, a) <==> Before(call, a, claims[i])
  {
    if Ahead(call, claims, i, a) {
      var j :| 0 <= j < i && claims[j] == a;
      SortedBefore(call, claims, j, i);
    }
    if Before(call, a, claims[i]) {
      var j :| 0 <= j < |claims| && claims[j] == a;
      BeforeSorted(call, claims, j, i);
    }
  }

  lemma AheadExists(call: Call, claims: seq<Claim>, i: nat)
    requires i < |claims|
    ensures (exists a :: Ahead(call, claims, i, a)) <==>
      exists j :: 0 <= j < |claims[..i]| && ClockOf(call.clocks, claims[..i][j]) == ClockOf(call.clocks, claims[i])
  {
    var init := claims[..i];
    if a :| Ahead(call, claims, i, a) {
      var j :| 0 <= j < |init| && init[j] == a;
    }
    if j :| 0 <= j < |init| && ClockOf(call.clocks, init[j]) == ClockOf(call.clocks, claims[i]) {
      assert Ahead(call, claims, i, init[j]);
    }
  }

  lemma ClockBlock(call: Call, claims: seq<Claim>, i: nat)
    requires i < |claims| && ClockSorted(call.clocks, claims)
    ensures var p := PredecessorAt(call.clocks, claims, i);
      && (forall a :: Ahead(call, claims, i, a) ==> a.crowned <= p)
      && if exists a :: Ahead(call, claims, i, a) then exists a :: Ahead(call, claims, i, a) && a.crowned == p
         else p == claims[i].crowned
  {
    var init, k := claims[..i], ClockOf(call.clocks, claims[i]);
    PreviousIs(call.clocks, init, k);
    AheadExists(call, claims, i);
    Telescopes(call.clocks, init, k);
    forall a | Ahead(call, claims, i, a) ensures a.crowned <= LastBlock(call.clocks, init, k) {
      LastIsGreatest(call.clocks, init, a);
    }
    if k in PreviousAfter(call.clocks, init, map[]) {
      var j :| 0 <= j < |init| && ClockOf(call.clocks, init[j]) == k &&
        PreviousAfter(call.clocks, init, map[])[k] == init[j].crowned;
      assert Ahead(call, claims, i, init[j]);
    }
  }

  lemma PrecededAt(call: Call, claims: seq<Claim>, i: nat)
    requires i < |claims| && Sorted(ByClock(call.clocks), claims) && DistinctDigests(claims)
    requires ClockSorted(call.clocks, claims)
    ensures Preceded(call, claims, claims[i], PredecessorAt(call.clocks, claims, i))
  {
    ClockBlock(call, claims, i);
    forall a | a in claims ensures Ahead(call, claims, i, a) <==> Before(call, a, claims[i]) {
      AheadIff(call, claims, i, a);
    }
  }

  lemma PrecededSame(call: Call, s: seq<Claim>, t: seq<Claim>, c: Claim, block: int)
    requires (forall a :: a in s <==> a in t) && Preceded(call, s, c, block)
    ensures Preceded(call, t, c, block)
  {
    assert First(call, s, c) <==> First(call, t, c);
  }

  // ----- every earning claim has one row

  /** The row of a claim: its identity, its hotkey, and its credit from score, start, bonus and predecessor. */
  ghost predicate RowOf(call: Call, earning: seq<Claim>, c: Claim, row: FamilyCredit) {
    && row.arena == c.arena && row.target == c.target && row.claim == c.digest && row.hotkey == c.hotkey
    && row.family == call.family(c.arena, c.target, c.spec)
    && exists x :: CreditedFrom(call, c, x) && Payable(x) && Bonused(call, c, x.bonus) &&
         Preceded(call, earning, c, x.predecessor) && row.credit == call.credit(x)
  }

  ghost predicate Declared(call: Call, earning: seq<Claim>) {
    && DistinctDigests(earning)
    && forall c :: c in earning ==>
         && (call.scores.Some? ==> c.digest in call.scores.value)
         && (call.bonuses.Some? ==> c.digest in call.bonuses.value)
  }

  lemma DeclaredClaims(call: Call, earning: seq<Claim>)
    requires ClaimsDeclared(call, earning)
    ensures Declared(call, earning)
  {
    var key := (c: Claim) => c.digest;
    assert Image(earning, key) == Digests(earning);
    forall i, j | 0 <= i < j < |earning| ensures earning[i].digest != earning[j].digest {
      KeysDistinct(earning, key, i, j);
    }
    forall c | c in earning ensures c.digest in Digests(earning) { }
  }

  lemma SortedDeclared(call: Call, earning: seq<Claim>)
    requires Declared(call, earning)
    ensures var claims := SortedClaims(call, earning);
      && multiset(claims) == multiset(earning) && (forall c :: c in claims <==> c in earning)
      && Declared(call, claims) && Sorted(ByClock(call.clocks), claims) && ClockSorted(call.clocks, claims)
  {
    var claims := SortedClaims(call, earning);
    SortContents(ByClock(call.clocks), earning);
    SameElements(claims, earning);
    ClockOrder(call.clocks);
    SortSorted(ByClock(call.clocks), earning);
    SortedByClock(call, earning);
    PairwisePermutation(OtherDigest, earning, claims);
  }

  predicate OtherDigest(a: Claim, b: Claim) { a.digest != b.digest }

  lemma ChainRow(call: Call, earning: seq<Claim>, i: nat)
    requires Declared(call, earning) && i < |SortedClaims(call, earning)|
    requires Chain(call, SortedClaims(call, earning), map[]).Some?
    ensures var claims, chain := SortedClaims(call, earning), Chain(call, SortedClaims(call, earning), map[]).value;
      |chain| == |claims| && RowOf(call, earning, claims[i], chain[i])
  {
    var claims := SortedClaims(call, earning);
    SortedDeclared(call, earning);
    ChainAt(call, claims, map[], i);
    var c, p := claims[i], PredecessorAt(call.clocks, claims, i);
    PrecededAt(call, claims, i);
    PrecededSame(call, claims, earning, c, p);
    BonusMeaning(call, c);
    CreditMeaning(call, c, p, BonusOf(call, c), CreditAt(call, c, p, BonusOf(call, c)).value);
  }

  ghost predicate HasRow(call: Call, earning: seq<Claim>, c: Claim, rows: seq<FamilyCredit>) {
    exists row :: row in rows && RowOf(call, earning, c, row)
  }

  ghost predicate HasClaim(call: Call, earning: seq<Claim>, row: FamilyCredit) {
    exists c :: c in earning && RowOf(call, earning, c, row)
  }

  /** The credited rows: one for every earning claim, and no other. */
  ghost predicate Credited(call: Call, earning: seq<Claim>, rows: seq<FamilyCredit>) {
    && (forall c :: c in earning ==> HasRow(call, earning, c, rows))
    && (forall row :: row in rows ==> HasClaim(call, earning, row))
    && Pairwise(OtherClaim, rows)
  }

  /** The rows in the order of their claims. */
  ghost predicate PairsOff(call: Call, earning: seq<Claim>, claims: seq<Claim>, rows: seq<FamilyCredit>) {
    && |claims| == |rows| && (forall c :: c in claims <==> c in earning)
    && forall i :: 0 <= i < |rows| ==> RowOf(call, earning, claims[i], rows[i])
  }

  lemma ChainPairs(call: Call, earning: seq<Claim>)
    requires Declared(call, earning) && Chain(call, SortedClaims(call, earning), map[]).Some?
    ensures PairsOff(call, earning, SortedClaims(call, earning), Chain(call, SortedClaims(call, earning), map[]).value)
  {
    var claims, chain := SortedClaims(call, earning), Chain(call, SortedClaims(call, earning), map[]).value;
    SortedDeclared(call, earning);
    ChainLength(call, claims, map[]);
    forall i | 0 <= i < |claims| ensures RowOf(call, earning, claims[i], chain[i]) { ChainRow(call, earning, i); }
  }

  lemma Paired(call: Call, earning: seq<Claim>, claims: seq<Claim>, rows: seq<FamilyCredit>)
    requires PairsOff(call, earning, claims, rows) && DistinctDigests(claims)
    ensures Credited(call, earning, rows)
  {
    forall c | c in earning ensures HasRow(call, earning, c, rows) {
      var i :| 0 <= i < |claims| && claims[i] == c;
      assert rows[i] in rows;
    }
    forall row | row in rows ensures HasClaim(call, earning, row) {
      var i :| 0 <= i < |rows| && rows[i] == row;
      assert claims[i] in claims;
    }
    forall i, j | 0 <= i < j < |rows| ensures OtherClaim(rows[i], rows[j]) {
      assert RowOf(call, earning, claims[i], rows[i]) && RowOf(call, earning, claims[j], rows[j]);
    }
  }

  lemma ChainCredited(call: Call, earning: seq<Claim>)
    requires Declared(call, earning) && Chain(call, SortedClaims(call, earning), map[]).Some?
    ensures Credited(call, earning, Chain(call, SortedClaims(call, earning), map[]).value)
  {
    SortedDeclared(call, earning);
    ChainPairs(call, earning);
    Paired(call, earning, SortedClaims(call, earning), Chain(call, SortedClaims(call, earning), map[]).value);
  }

  predicate OtherClaim(a: FamilyCredit, b: FamilyCredit) { a.claim != b.claim }

  lemma CreditedPermutation(call: Call, earning: seq<Claim>, s: seq<FamilyCredit>, t: seq<FamilyCredit>)
    requires Credited(call, earning, s) && multiset(s) == multiset(t)
    ensures Credited(call, earning, t)
  {
    SameElements(s, t);
    forall c | c in earning ensures HasRow(call, earning, c, t) {
      var row :| row in s && RowOf(call, earning, c, row);
      assert row in t;
    }
    PairwisePermutation(OtherClaim, s, t);
  }

  /** Every projection credits each earning claim once, from the call's own score, start, bonus and clock. */
  lemma ProjectionCredits(call: Call, arenas: seq<Authority>, earning: seq<Claim>, discovery: seq<Bounty>)
    requires Project(call, arenas, earning, discovery).Some?
    ensures Credited(call, earning, Project(call, arenas, earning, discovery).value.standing)
  {
    var chain := Chain(call, SortedClaims(call, earning), map[]).value;
    DeclaredClaims(call, earning);
    ChainCredited(call, earning);
    SortContents(FamilyLeq, chain);
    CreditedPermutation(call, earning, chain, Sort(FamilyLeq, chain));
  }

  // ----- measured speed does not show when scores are supplied

  /** The same claim but for its measured speedup, and so under another digest. */
  ghost predicate Twin(f: Digest -> Digest, a: Claim, b: Claim) {
    b == a.(speedup := b.speedup, digest := f(a.digest))
  }

  ghost predicate Twins(f: Digest -> Digest, s: seq<Claim>, t: seq<Claim>) {
    |s| == |t| && forall i :: 0 <= i < |s| ==> Twin(f, s[i], t[i])
  }

  /** Claims crowned in one block of one clock keep the order of their digests. */
  ghost predicate TiesKept(clocks: map<string, string>, f: Digest -> Digest, claims: seq<Claim>) {
    forall a, b :: a in claims && b in claims && ClockOf(clocks, a) == ClockOf(clocks, b) && a.crowned == b.crowned ==>
      (StrLeq(a.digest, b.digest) <==> StrLeq(f(a.digest), f(b.digest)))
  }

  lemma OrderTwins(clocks: map<string, string>, f: Digest -> Digest, all: seq<Claim>, a: Claim, b: Claim, c: Claim,
                   d: Claim)
    requires TiesKept(clocks, f, all) && a in all && c in all && Twin(f, a, b) && Twin(f, c, d)
    ensures ByClock(clocks)(a, c) <==> ByClock(clocks)(b, d)
  {
  }

  lemma TwinTails(f: Digest -> Digest, s: seq<Claim>, t: seq<Claim>)
    requires Twins(f, s, t) && s != []
    ensures Twin(f, s[0], t[0]) && Twins(f, s[1..], t[1..])
  {
  }

  lemma TwinsCons(f: Digest -> Digest, a: Claim, b: Claim, s: seq<Claim>, t: seq<Claim>)
    requires Twin(f, a, b) && Twins(f, s, t)
    ensures Twins(f, [a] + s, [b] + t)
  {
  }

  lemma {:induction false} InsertTwins(clocks: map<string, string>, f: Digest -> Digest, all: seq<Claim>, a: Claim,
                                       b: Claim, s: seq<Claim>, t: seq<Claim>)
    requires TiesKept(clocks, f, all) && a in all && forall c :: c in s ==> c in all
    requires Twin(f, a, b) && Twins(f, s, t)
    ensures Twins(f, Insert(ByClock(clocks), a, s), Insert(ByClock(clocks), b, t))
  {
    if s != [] { OrderTwins(clocks, f, all, a, b, s[0], t[0]); }
    if s == [] || ByClock(clocks)(a, s[0]) {
      TwinsCons(f, a, b, s, t);
    } else {
      TwinTails(f, s, t);
      InsertTwins(clocks, f, all, a, b, s[1..], t[1..]);
      TwinsCons(f, s[0], t[0], Insert(ByClock(clocks), a, s[1..]), Insert(ByClock(clocks), b, t[1..]));
    }
  }

  lemma {:induction false} SortTwins(clocks: map<string, string>, f: Digest -> Digest, all: seq<Claim>, s: seq<Claim>,
                                     t: seq<Claim>)
    requires TiesKept(clocks, f, all) && (forall c :: c in s ==> c in all) && Twins(f, s, t)
    ensures Twins(f, Sort(ByClock(clocks), s), Sort(ByClock(clocks), t))
  {
    if s != [] {
      TwinTails(f, s, t);
      SortTwins(clocks, f, all, s[1..], t[1..]);
      var sorted := Sort(ByClock(clocks), s[1..]);
      forall c | c in sorted ensures c in all { SortElements(ByClock(clocks), s[1..], c); }
      InsertTwins(clocks, f, all, s[0], t[0], sorted, Sort(ByClock(clocks), t[1..]));
    }
  }

  /** What one map says of a claim the other says of its twin. */
  ghost predicate Carried<V>(f: Digest -> Digest, m: map<string, V>, n: map<string, V>, claims: seq<Claim>) {
    forall c :: c in claims ==>
      (c.digest in m <==> f(c.digest) in n) && (c.digest in m ==> n[f(c.digest)] == m[c.digest])
  }

  ghost predicate CarriedIf<V>(
    f: Digest -> Digest, m: Option<map<string, V>>, n: Option<map<string, V>>, claims: seq<Claim>)
  {
    (m.Some? <==> n.Some?) && (m.Some? ==> Carried(f, m.value, n.value, claims))
  }

  /** The same call for the twins; it may validate against other PASSes. */
  ghost predicate TwinCalls(f: Digest -> Digest, a: Call, b: Call, claims: seq<Claim>) {
    && b == a.(validated := b.validated, scores := b.scores, starts := b.starts, bonuses := b.bonuses, terms := b.terms)
    && CarriedIf(f, a.scores, b.scores, claims) && Carried(f, a.starts, b.starts, claims)
    && CarriedIf(f, a.bonuses, b.bonuses, claims) && CarriedIf(f, a.terms, b.terms, claims)
  }

  ghost predicate AllScored(call: Call, claims: seq<Claim>) {
    call.scores.Some? && forall c :: c in claims ==> c.digest in call.scores.value
  }

  lemma CreditTwins(f: Digest -> Digest, a: Call, b: Call, claims: seq<Claim>, c: Claim, d: Claim, predecessor: nat)
    requires TwinCalls(f, a, b, claims) && AllScored(a, claims) && c in claims && Twin(f, c, d)
    ensures forall bonus :: CreditAt(a, c, predecessor, bonus) == CreditAt(b, d, predecessor, bonus)
    ensures BonusOf(a, c) == BonusOf(b, d)
  {
  }

  function Relabel(f: Digest -> Digest, row: FamilyCredit): FamilyCredit {
    row.(claim := f(row.claim))
  }

  function Relabelled(f: Digest -> Digest, rows: seq<FamilyCredit>): seq<FamilyCredit> {
    seq(|rows|, i requires 0 <= i < |rows| => Relabel(f, rows[i]))
  }

  lemma RelabelledCons(f: Digest -> Digest, row: FamilyCredit, rows: seq<FamilyCredit>)
    ensures Relabelled(f, [row] + rows) == [Relabel(f, row)] + Relabelled(f, rows)
  {
  }

  lemma ChainUnrolled(call: Call, claims: seq<Claim>, previous: map<string, nat>)
    requires claims != []
    ensures var c := claims[0];
      var credit := CreditAt(call, c, Predecessor(call.clocks, previous, c), BonusOf(call, c));
      var rest := Chain(call, claims[1..], previous[ClockOf(call.clocks, c) := c.crowned]);
      && (Chain(call, claims, previous).Some? <==> credit.Some? && rest.Some?)
      && (credit.Some? && rest.Some? ==>
            Chain(call, claims, previous).value == [CreditRow(call, c, credit.value)] + rest.value)
  {
  }

  lemma {:induction false} ChainTwins(f: Digest -> Digest, a: Call, b: Call, all: seq<Claim>, s: seq<Claim>,
                                      t: seq<Claim>, previous: map<string, nat>)
    requires TwinCalls(f, a, b, all) && AllScored(a, all) && (forall c :: c in s ==> c in all) && Twins(f, s, t)
    ensures Chain(a, s, previous).Some? <==> Chain(b, t, previous).Some?
    ensures Chain(a, s, previous).Some? ==>
      Chain(b, t, previous).value == Relabelled(f, Chain(a, s, previous).value)
  {
    if s != [] {
      TwinTails(f, s, t);
      CreditTwins(f, a, b, all, s[0], t[0], Predecessor(a.clocks, previous, s[0]));
      var next := previous[ClockOf(a.clocks, s[0]) := s[0].crowned];
      ChainTwins(f, a, b, all, s[1..], t[1..], next);
      ChainUnrolled(a, s, previous);
      ChainUnrolled(b, t, previous);
      if Chain(a, s, previous).Some? {
        RelabelledCons(f, Chain(a, s, previous).value[0], Chain(a, s[1..], next).value);
      }
    }
  }

  lemma UnstalledTwins(f: Digest -> Digest, a: Call, b: Call, claims: seq<Claim>, c: Claim, d: Claim)
    requires TwinCalls(f, a, b, claims) && AllScored(a, claims) && c in claims && Twin(f, c, d)
    ensures UnstalledCredit(a, c) == UnstalledCredit(b, d)
  {
    CreditTwins(f, a, b, claims, c, d, c.crowned);
  }

  lemma BaseOf(call: Call, earning: seq<Claim>, c: Claim)
    requires DistinctDigests(earning) && c in earning
    ensures c.digest in BaseCredits(call, earning) && BaseCredits(call, earning)[c.digest] == UnstalledCredit(call, c)
  {
    BaseCreditOf(call, earning, c);
  }

  lemma BaseTwins(f: Digest -> Digest, a: Call, b: Call, s: seq<Claim>, t: seq<Claim>, c: Claim)
    requires TwinCalls(f, a, b, s) && AllScored(a, s) && Twins(f, s, t) && c in s
    requires DistinctDigests(s) && DistinctDigests(t)
    ensures c.digest in BaseCredits(a, s) && f(c.digest) in BaseCredits(b, t)
    ensures BaseCredits(a, s)[c.digest] == BaseCredits(b, t)[f(c.digest)]
  {
    var i :| 0 <= i < |s| && s[i] == c;
    assert Twin(f, s[i], t[i]) && t[i] in t;
    UnstalledTwins(f, a, b, s, c, t[i]);
    BaseOf(a, s, c);
    BaseOf(b, t, t[i]);
  }

  lemma LiveSame(a: Call, b: Call, bounties: seq<Bounty>)
    requires a.block == b.block && a.discoveryLifetime == b.discoveryLifetime
    ensures LiveBounties(a, bounties) == LiveBounties(b, bounties) && Expired(a, bounties) == Expired(b, bounties)
  {
    if bounties != [] { LiveSame(a, b, bounties[1..]); }
  }

  lemma {:induction false} PooledTwins(f: Digest -> Digest, a: Call, b: Call, rows: seq<FamilyCredit>)
    requires a.eligible == b.eligible && a.validator == b.validator
    ensures Pooled(a, rows) == Pooled(b, Relabelled(f, rows))
  {
    if rows != [] {
      var n := |rows| - 1;
      PooledTwins(f, a, b, rows[..n]);
      assert Relabelled(f, rows)[..n] == Relabelled(f, rows[..n]);
    }
  }

  lemma PooledBountiesSame(a: Call, b: Call, live: seq<BountyCredit>)
    requires a.eligible == b.eligible && a.validator == b.validator
    ensures PooledBounties(a, live) == PooledBounties(b, live)
  {
    if live != [] { PooledBountiesSame(a, b, live[..|live| - 1]); }
  }

  lemma OfferRow(f: Digest -> Digest, a: Call, b: Call, s: seq<Claim>, t: seq<Claim>, rows: seq<FamilyCredit>, i: nat,
                 c: Claim)
    requires TwinCalls(f, a, b, s) && AllScored(a, s) && Twins(f, s, t) && DistinctDigests(s) && DistinctDigests(t)
    requires i < |rows| && c in s && rows[i].claim == c.digest && a.terms.Some? && c.digest in a.terms.value
    ensures SubmissionShares.RenamedRow(
      OfferOf(a, BaseCredits(a, s), rows), OfferOf(b, BaseCredits(b, t), Relabelled(f, rows)), i)
  {
    BaseTwins(f, a, b, s, t, c);
  }

  ghost predicate NamedBy(row: FamilyCredit, claims: seq<Claim>) {
    exists c :: c in claims && c.digest == row.claim
  }

  /** The rows name different claims of the list, and so do their twins. */
  ghost predicate Named(f: Digest -> Digest, rows: seq<FamilyCredit>, claims: seq<Claim>) {
    && Pairwise(OtherClaim, rows) && Pairwise(OtherClaim, Relabelled(f, rows))
    && forall row :: row in rows ==> NamedBy(row, claims)
  }

  lemma OfferTwins(f: Digest -> Digest, a: Call, b: Call, s: seq<Claim>, t: seq<Claim>, rows: seq<FamilyCredit>,
                   x: Offer, y: Offer)
    requires TwinCalls(f, a, b, s) && AllScored(a, s) && Twins(f, s, t) && DistinctDigests(s) && DistinctDigests(t)
    requires a.terms.Some? && Named(f, rows, s)
    requires x == OfferOf(a, BaseCredits(a, s), rows) && y == OfferOf(b, BaseCredits(b, t), Relabelled(f, rows))
    requires Accepted(x)
    ensures SubmissionShares.Renamed(x, y)
  {
    forall i: nat | i < |rows| ensures SubmissionShares.RenamedRow(x, y, i) {
      assert NamedBy(rows[i], s);
      var c :| c in s && c.digest == rows[i].claim;
      EarningClaim(x, i);
      OfferRow(f, a, b, s, t, rows, i, c);
    }
    forall i, j | 0 <= i < j < |rows| ensures x.rows[i].claim != x.rows[j].claim && y.rows[i].claim != y.rows[j].claim {
      assert OtherClaim(rows[i], rows[j]) && OtherClaim(Relabelled(f, rows)[i], Relabelled(f, rows)[j]);
    }
  }

  /** Every row of one list is in the other under its twin's digest, and there are no more. */
  ghost predicate SameRows(f: Digest -> Digest, p: seq<FamilyCredit>, q: seq<FamilyCredit>) {
    && |p| == |q| && (forall row :: row in p ==> Relabel(f, row) in q)
    && forall other :: other in q ==> exists row :: row in p && other == Relabel(f, row)
  }

  lemma RelabelledSameRows(f: Digest -> Digest, rows: seq<FamilyCredit>)
    ensures SameRows(f, rows, Relabelled(f, rows))
  {
    var others := Relabelled(f, rows);
    forall row | row in rows ensures Relabel(f, row) in others {
      var i :| 0 <= i < |rows| && rows[i] == row;
      assert others[i] == Relabel(f, row);
    }
    forall other | other in others ensures exists row :: row in rows && other == Relabel(f, row) {
      var i :| 0 <= i < |others| && others[i] == other;
      assert rows[i] in rows;
    }
  }

  lemma SameRowsPermute(f: Digest -> Digest, p: seq<FamilyCredit>, q: seq<FamilyCredit>, r: seq<FamilyCredit>,
                        s: seq<FamilyCredit>)
    requires SameRows(f, p, q) && multiset(r) == multiset(p) && multiset(s) == multiset(q)
    ensures SameRows(f, r, s)
  {
    assert |r| == |multiset(r)| && |s| == |multiset(s)| && |p| == |multiset(p)| && |q| == |multiset(q)|;
    SameElements(r, p);
    SameElements(s, q);
  }

  lemma SortedSameRows(f: Digest -> Digest, rows: seq<FamilyCredit>)
    ensures SameRows(f, Sort(FamilyLeq, rows), Sort(FamilyLeq, Relabelled(f, rows)))
  {
    RelabelledSameRows(f, rows);
    SortContents(FamilyLeq, rows);
    SortContents(FamilyLeq, Relabelled(f, rows));
    SameRowsPermute(f, rows, Relabelled(f, rows), Sort(FamilyLeq, rows), Sort(FamilyLeq, Relabelled(f, rows)));
  }

  lemma CombinedTwins(f: Digest -> Digest, a: Call, b: Call, s: seq<Claim>, t: seq<Claim>, rows: seq<FamilyCredit>,
                      live: seq<BountyCredit>)
    requires TwinCalls(f, a, b, s) && AllScored(a, s) && Twins(f, s, t) && DistinctDigests(s) && DistinctDigests(t)
    requires Named(f, rows, s)
    requires Combined(a, BaseCredits(a, s), rows, live).Some?
    requires Combined(b, BaseCredits(b, t), Relabelled(f, rows), live).Some?
    ensures Combined(a, BaseCredits(a, s), rows, live) == Combined(b, BaseCredits(b, t), Relabelled(f, rows), live)
  {
    if a.terms.None? {
      PooledTwins(f, a, b, rows);
      PooledBountiesSame(a, b, live);
    } else {
      var x, y := OfferOf(a, BaseCredits(a, s), rows), OfferOf(b, BaseCredits(b, t), Relabelled(f, rows));
      OfferTwins(f, a, b, s, t, rows, x, y);
      SubmissionShares.RenamedWeights(x, y);
    }
  }

  lemma ChainNamed(call: Call, earning: seq<Claim>)
    requires Declared(call, earning) && Chain(call, SortedClaims(call, earning), map[]).Some?
    ensures var rows := Chain(call, SortedClaims(call, earning), map[]).value;
      Pairwise(OtherClaim, rows) && forall row :: row in rows ==> NamedBy(row, earning)
  {
    ChainCredited(call, earning);
    var rows := Chain(call, SortedClaims(call, earning), map[]).value;
    forall row | row in rows ensures NamedBy(row, earning) { assert HasClaim(call, earning, row); }
  }

  /** The chained credits of the twins are those of the claims under other digests. */
  lemma ChainsTwin(f: Digest -> Digest, a: Call, b: Call, s: seq<Claim>, t: seq<Claim>)
    requires TwinCalls(f, a, b, s) && AllScored(a, s) && Twins(f, s, t) && TiesKept(a.clocks, f, s)
    requires Declared(a, s) && Declared(b, t) && Chain(a, SortedClaims(a, s), map[]).Some?
    ensures var chain, other := Chain(a, SortedClaims(a, s), map[]), Chain(b, SortedClaims(b, t), map[]);
      other.Some? && other.value == Relabelled(f, chain.value) && Named(f, chain.value, s)
  {
    SortTwins(a.clocks, f, s, s, t);
    forall c | c in SortedClaims(a, s) ensures c in s { SortElements(ByClock(a.clocks), s, c); }
    ChainTwins(f, a, b, s, SortedClaims(a, s), SortedClaims(b, t), map[]);
    ChainNamed(a, s);
    ChainNamed(b, t);
  }

  /** What a projection lists, from its chained credits and its bounties. */
  ghost predicate ListsAs(call: Call, base: map<string, int>, rows: seq<FamilyCredit>, bounties: seq<Bounty>,
                          p: Projected)
  {
    var live := LiveBounties(call, bounties);
    && Combined(call, base, rows, live).Some? && p.weights == PositiveWeights(Combined(call, base, rows, live).value)
    && p.standing == Sort(FamilyLeq, rows) && p.discovery == live && p.expired == Expired(call, bounties)
  }

  lemma ProjectedAs(call: Call, arenas: seq<Authority>, earning: seq<Claim>, discovery: seq<Bounty>)
    requires Project(call, arenas, earning, discovery).Some?
    ensures Declared(call, earning) && Chain(call, SortedClaims(call, earning), map[]).Some?
    ensures ListsAs(call, BaseCredits(call, earning), Chain(call, SortedClaims(call, earning), map[]).value,
                    Sort(BountyLeq, discovery), Project(call, arenas, earning, discovery).value)
  {
    DeclaredClaims(call, earning);
  }

  lemma ListsTwin(f: Digest -> Digest, a: Call, b: Call, s: seq<Claim>, t: seq<Claim>, rows: seq<FamilyCredit>,
                  bounties: seq<Bounty>, p: Projected, q: Projected)
    requires TwinCalls(f, a, b, s) && AllScored(a, s) && Twins(f, s, t) && DistinctDigests(s) && DistinctDigests(t)
    requires Named(f, rows, s) && ListsAs(a, BaseCredits(a, s), rows, bounties, p)
    requires ListsAs(b, BaseCredits(b, t), Relabelled(f, rows), bounties, q)
    ensures SameRows(f, p.standing, q.standing) && p.discovery == q.discovery && p.expired == q.expired
    ensures p.weights == q.weights
  {
    SortedSameRows(f, rows);
    LiveSame(a, b, bounties);
    CombinedTwins(f, a, b, s, t, rows, LiveBounties(a, bounties));
  }

  /** With scores supplied, measured speedups show only in the digests: neither credits nor weights depend on them. */
  lemma ScoresDecide(f: Digest -> Digest, a: Call, b: Call, arenas: seq<Authority>, others: seq<Authority>,
                     earning: seq<Claim>, remeasured: seq<Claim>, discovery: seq<Bounty>)
    requires TwinCalls(f, a, b, earning) && a.scores.Some? && Twins(f, earning, remeasured)
    requires TiesKept(a.clocks, f, earning)
    requires Project(a, arenas, earning, discovery).Some? && Project(b, others, remeasured, discovery).Some?
    ensures var p, q := Project(a, arenas, earning, discovery).value, Project(b, others, remeasured, discovery).value;
      SameRows(f, p.standing, q.standing) && p.discovery == q.discovery && p.expired == q.expired &&
      p.weights == q.weights
  {
    ProjectedAs(a, arenas, earning, discovery);
    ProjectedAs(b, others, remeasured, discovery);
    ChainsTwin(f, a, b, earning, remeasured);
    ListsTwin(f, a, b, earning, remeasured, Chain(a, SortedClaims(a, earning), map[]).value,
              Sort(BountyLeq, discovery), Project(a, arenas, earning, discovery).value,
              Project(b, others, remeasured, discovery).value);
  }

  // ----- who the credit is pooled for

  /** A registered hotkey is paid itself; anything else goes to the validator. */
  ghost predicate PaidTo(call: Call, hotkey: string, h: string) {
    if hotkey in call.eligible then hotkey == h else call.validator == h
  }

  ghost function StandingFor(call: Call, h: string): FamilyCredit -> int {
    (row: FamilyCredit) => if PaidTo(call, row.hotkey, h) then row.credit else 0
  }

  ghost function BountyFor(call: Call, h: string): BountyCredit -> int {
    (row: BountyCredit) => if PaidTo(call, row.hotkey, h) then row.credit else 0
  }

  function CreditOfRow(row: FamilyCredit): int { row.credit }

  function UnitsOfRow(row: BountyCredit): int { row.credit }

  lemma PlusTotal(m: Credits, k: string, v: real)
    ensures Sum(Plus(m, k, v).Keys, CreditOf(Plus(m, k, v))) == Sum(m.Keys, CreditOf(m)) + v
  {
    var n := Plus(m, k, v);
    if k in m {
      assert n.Keys == m.Keys;
      SumRaised(m.Keys, CreditOf(n), CreditOf(m), k, v);
    } else {
      assert n.Keys == m.Keys + {k};
      SumInsert(m.Keys, CreditOf(n), k);
      SumSame(m.Keys, CreditOf(n), CreditOf(m));
    }
  }

  /** The pool holds for every hotkey the credits of the rows paid to it, and all credits together. */
  ghost predicate PoolOf(m: Credits, due: string -> int, all: int) {
    && (forall h :: CreditOf(m)(h) == due(h) as real) && (forall h :: due(h) >= 0)
    && Sum(m.Keys, CreditOf(m)) == all as real
  }

  ghost function StandingDue(call: Call, rows: seq<FamilyCredit>): string -> int {
    h => SumSeq(rows, StandingFor(call, h))
  }

  ghost function BountyDue(call: Call, rows: seq<BountyCredit>): string -> int {
    h => SumSeq(rows, BountyFor(call, h))
  }

  lemma PoolStep(call: Call, m: Credits, due: string -> int, all: int, hotkey: string, credit: nat, more: string -> int)
    requires PoolOf(m, due, all) && forall h :: more(h) == due(h) + if PaidTo(call, hotkey, h) then credit else 0
    ensures PoolOf(Plus(m, Payee(call, hotkey), credit as real), more, all + credit)
  {
    var after := Plus(m, Payee(call, hotkey), credit as real);
    PlusTotal(m, Payee(call, hotkey), credit as real);
    forall h ensures CreditOf(after)(h) == more(h) as real {
      assert PaidTo(call, hotkey, h) <==> Payee(call, hotkey) == h;
      PlusAt(m, Payee(call, hotkey), credit as real, h);
      assert CreditOf(m)(h) == due(h) as real;
    }
    forall h ensures more(h) >= 0 { assert due(h) >= 0; }
  }

  lemma DueSnoc(call: Call, init: seq<FamilyCredit>, row: FamilyCredit, h: string)
    ensures StandingDue(call, init + [row])(h) ==
      StandingDue(call, init)(h) + if PaidTo(call, row.hotkey, h) then row.credit else 0
  {
    SumSeqSnoc(init, row, StandingFor(call, h));
  }

  lemma {:induction false} PooledIs(call: Call, rows: seq<FamilyCredit>)
    ensures PoolOf(Pooled(call, rows), StandingDue(call, rows), SumSeq(rows, CreditOfRow))
  {
    if rows != [] {
      var init, row := rows[..|rows| - 1], rows[|rows| - 1];
      assert rows == init + [row];
      PooledIs(call, init);
      forall h ensures StandingDue(call, rows)(h) ==
        StandingDue(call, init)(h) + if PaidTo(call, row.hotkey, h) then row.credit else 0
      {
        DueSnoc(call, init, row, h);
      }
      SumSeqSnoc(init, row, CreditOfRow);
      PoolStep(call, Pooled(call, init), StandingDue(call, init), SumSeq(init, CreditOfRow), row.hotkey, row.credit,
               StandingDue(call, rows));
    }
  }

  lemma {:induction false} PooledBountiesIs(call: Call, rows: seq<BountyCredit>)
    ensures PoolOf(PooledBounties(call, rows), BountyDue(call, rows), SumSeq(rows, UnitsOfRow))
  {
    if rows != [] {
      var init, row := rows[..|rows| - 1], rows[|rows| - 1];
      assert rows == init + [row];
      PooledBountiesIs(call, init);
      forall h ensures BountyDue(call, rows)(h) ==
        BountyDue(call, init)(h) + if PaidTo(call, row.hotkey, h) then row.credit else 0
      {
        SumSeqSnoc(init, row, BountyFor(call, h));
      }
      SumSeqSnoc(init, row, UnitsOfRow);
      PoolStep(call, PooledBounties(call, init), BountyDue(call, init), SumSeq(init, UnitsOfRow), row.hotkey,
               row.credit, BountyDue(call, rows));
    }
  }

  lemma PoolTotal(m: Credits, due: string -> int, all: int)
    requires PoolOf(m, due, all)
    ensures Total(m) == all as real
  {
    forall k | k in m.Keys ensures CreditOf(m)(k) >= 0.0 { assert CreditOf(m)(k) == due(k) as real; }
    SumSupport(m.Keys, Positive(m), CreditOf(m));
  }

  ghost predicate Near(weight: int, due: real, units: real) {
    -units < weight as real - due < units
  }

  /** A pool's part for a hotkey is its own rows' part of all rows, to within one unit. */
  lemma PoolShare(m: Credits, due: string -> int, all: int, pool: nat, h: string)
    requires PoolOf(m, due, all) && Positive(m) != {}
    ensures all > 0
    ensures Near(WeightOf(Allocation(m, pool))(h), SubmissionShares.Scale(due(h) as real, pool, all as real), 1.0)
  {
    PoolTotal(m, due, all);
    TotalPositive(m);
    SubmissionShares.QuotaIsScale(m, pool, h);
    assert CreditOf(m)(h) == due(h) as real;
    if h in Positive(m) {
      AllocationWithinOne(m, pool, h);
    } else {
      assert due(h) >= 0;
      SubmissionShares.ScaleNothing(pool, all as real);
    }
  }

  // ----- discovery bounties

  /** A bounty is live until its lifetime has passed since the award. */
  ghost predicate Alive(call: Call, b: Bounty) {
    call.block < b.awarded + call.discoveryLifetime
  }

  ghost predicate Shows(rows: seq<BountyCredit>, b: Bounty) {
    BountyCredit(b.digest, b.hotkey, b.units) in rows
  }

  lemma {:induction false} LiveListed(call: Call, bounties: seq<Bounty>)
    ensures forall b :: b in bounties && Alive(call, b) ==> Shows(LiveBounties(call, bounties), b)
    ensures forall row :: row in LiveBounties(call, bounties) ==>
      exists b :: b in bounties && Alive(call, b) && row == BountyCredit(b.digest, b.hotkey, b.units)
    ensures forall d :: d in Expired(call, bounties) <==> exists b :: b in bounties && !Alive(call, b) && b.digest == d
  {
    if bounties != [] {
      LiveListed(call, bounties[1..]);
      HeadOrTail(bounties);
    }
  }

  lemma {:induction false} LiveCount(call: Call, bounties: seq<Bounty>)
    ensures |LiveBounties(call, bounties)| + |Expired(call, bounties)| == |bounties|
  {
    if bounties != [] { LiveCount(call, bounties[1..]); }
  }

  /** Live bounties are credited with their units, the rest are listed as expired. */
  lemma ProjectionBounties(call: Call, arenas: seq<Authority>, earning: seq<Claim>, discovery: seq<Bounty>)
    requires Project(call, arenas, earning, discovery).Some?
    ensures var p := Project(call, arenas, earning, discovery).value;
      && (forall b :: b in discovery && Alive(call, b) ==> Shows(p.discovery, b))
      && (forall row :: row in p.discovery ==>
            exists b :: b in discovery && Alive(call, b) && row == BountyCredit(b.digest, b.hotkey, b.units))
      && (forall d :: d in p.expired <==> exists b :: b in discovery && !Alive(call, b) && b.digest == d)
      && |p.discovery| + |p.expired| == |discovery|
  {
    SortContents(BountyLeq, discovery);
    LiveCount(call, Sort(BountyLeq, discovery));
    LiveListed(call, Sort(BountyLeq, discovery));
    SortedBounties(discovery);
  }

  // ----- the weights without submission terms

  lemma DueSorted(call: Call, rows: seq<FamilyCredit>, sorted: seq<FamilyCredit>)
    requires multiset(rows) == multiset(sorted)
    ensures forall h :: StandingDue(call, rows)(h) == StandingDue(call, sorted)(h)
    ensures SumSeq(rows, CreditOfRow) == SumSeq(sorted, CreditOfRow)
  {
    forall h ensures StandingDue(call, rows)(h) == StandingDue(call, sorted)(h) {
      SumSeqPermutation(rows, sorted, StandingFor(call, h));
    }
    SumSeqPermutation(rows, sorted, CreditOfRow);
  }

  lemma PoolSame(m: Credits, due: string -> int, same: string -> int, all: int)
    requires PoolOf(m, due, all) && forall h :: due(h) == same(h)
    ensures PoolOf(m, same, all)
  {
    forall h ensures CreditOf(m)(h) == same(h) as real && same(h) >= 0 {
      assert due(h) == same(h) && CreditOf(m)(h) == due(h) as real && due(h) >= 0;
    }
  }

  lemma StandingPool(call: Call, rows: seq<FamilyCredit>, sorted: seq<FamilyCredit>)
    requires multiset(rows) == multiset(sorted)
    ensures PoolOf(Pooled(call, rows), StandingDue(call, sorted), SumSeq(sorted, CreditOfRow))
  {
    PooledIs(call, rows);
    DueSorted(call, rows, sorted);
    PoolSame(Pooled(call, rows), StandingDue(call, rows), StandingDue(call, sorted), SumSeq(rows, CreditOfRow));
  }

  /** The part of the vector left for standing credit. */
  function StandingPart(call: Call, discovery: seq<BountyCredit>): nat {
    if discovery == [] then PPM else PPM - call.discoveryPool
  }

  ghost function StandingEntitled(call: Call, standing: seq<FamilyCredit>, part: nat, h: string): real {
    SubmissionShares.Scale(StandingDue(call, standing)(h) as real, part, SumSeq(standing, CreditOfRow) as real)
  }

  ghost function BountyEntitled(call: Call, discovery: seq<BountyCredit>, h: string): real {
    if discovery == [] then 0.0
    else SubmissionShares.Scale(BountyDue(call, discovery)(h) as real, call.discoveryPool,
                                SumSeq(discovery, UnitsOfRow) as real)
  }

  /** What a hotkey is due of the two pools together. */
  ghost function Entitled(call: Call, standing: seq<FamilyCredit>, discovery: seq<BountyCredit>, h: string): real {
    StandingEntitled(call, standing, StandingPart(call, discovery), h) + BountyEntitled(call, discovery, h)
  }

  lemma PositiveWeightOf(m: map<string, int>, h: string)
    requires forall k :: k in m ==> m[k] >= 0
    ensures WeightOf(PositiveWeights(m))(h) == WeightOf(m)(h)
  {
  }

  lemma StandingShare(call: Call, rows: seq<FamilyCredit>, sorted: seq<FamilyCredit>, part: nat, h: string)
    requires multiset(rows) == multiset(sorted) && Positive(Pooled(call, rows)) != {}
    ensures SumSeq(sorted, CreditOfRow) > 0
    ensures Near(WeightOf(Allocation(Pooled(call, rows), part))(h), StandingEntitled(call, sorted, part, h), 1.0)
  {
    StandingPool(call, rows, sorted);
    PoolShare(Pooled(call, rows), StandingDue(call, sorted), SumSeq(sorted, CreditOfRow), part, h);
  }

  lemma BountyShare(call: Call, live: seq<BountyCredit>, h: string)
    requires live != [] && Positive(PooledBounties(call, live)) != {}
    ensures SumSeq(live, UnitsOfRow) > 0
    ensures Near(WeightOf(Allocation(PooledBounties(call, live), call.discoveryPool))(h),
                 BountyEntitled(call, live, h), 1.0)
  {
    PooledBountiesIs(call, live);
    PoolShare(PooledBounties(call, live), BountyDue(call, live), SumSeq(live, UnitsOfRow), call.discoveryPool, h);
  }

  lemma NearTogether(v: int, d: real, w: int, e: real)
    requires Near(v, d, 1.0) && Near(w, e, 1.0)
    ensures Near(v + w, d + e, 2.0)
  {
  }

  lemma MergedAt(a: map<string, int>, b: map<string, int>, h: string)
    ensures WeightOf(Merged(a, b))(h) == WeightOf(a)(h) + WeightOf(b)(h)
  {
  }

  lemma VectorShare(call: Call, rows: seq<FamilyCredit>, sorted: seq<FamilyCredit>, live: seq<BountyCredit>,
                    v: map<string, int>, h: string)
    requires multiset(rows) == multiset(sorted) && (live != [] ==> Positive(PooledBounties(call, live)) != {})
    requires PooledVector(Pooled(call, rows), PooledBounties(call, live), call.discoveryPool, live != []) == Some(v)
    ensures Near(WeightOf(v)(h), Entitled(call, sorted, live, h), if live == [] then 1.0 else 2.0)
    ensures SumSeq(sorted, CreditOfRow) > 0 && (live != [] ==> SumSeq(live, UnitsOfRow) > 0)
  {
    var standing, bounties, part := Pooled(call, rows), PooledBounties(call, live), StandingPart(call, live);
    StandingShare(call, rows, sorted, part, h);
    if live != [] {
      BountyShare(call, live, h);
      MergedAt(Allocation(standing, part), Allocation(bounties, call.discoveryPool), h);
      NearTogether(WeightOf(Allocation(standing, part))(h), StandingEntitled(call, sorted, part, h),
                   WeightOf(Allocation(bounties, call.discoveryPool))(h), BountyEntitled(call, live, h));
    } else {
      assert BountyEntitled(call, live, h) == 0.0;
    }
  }

  lemma PooledNonNegative(call: Call, base: map<string, int>, credits: seq<FamilyCredit>, live: seq<BountyCredit>)
    requires Combined(call, base, credits, live).Some?
    requires forall i :: 0 <= i < |live| ==> live[i].credit > 0
    ensures forall k :: k in Combined(call, base, credits, live).value ==>
      Combined(call, base, credits, live).value[k] >= 0
  {
    CombinedSumsTo(call, base, credits, live);
  }

  /** Without submission terms each hotkey gets its part of both pools, one rounding unit per pool at most. */
  lemma PooledWeights(call: Call, arenas: seq<Authority>, earning: seq<Claim>, discovery: seq<Bounty>, h: string)
    requires Project(call, arenas, earning, discovery).Some? && call.terms.None?
    ensures var p := Project(call, arenas, earning, discovery).value;
      && SumSeq(p.standing, CreditOfRow) > 0 && (p.discovery != [] ==> SumSeq(p.discovery, UnitsOfRow) > 0)
      && Near(WeightOf(p.weights)(h), Entitled(call, p.standing, p.discovery, h),
              if p.discovery == [] then 1.0 else 2.0)
  {
    var rows := Chain(call, SortedClaims(call, earning), map[]).value;
    var live := LiveBounties(call, Sort(BountyLeq, discovery));
    LiveUnits(call, Sort(BountyLeq, discovery));
    BountiesPayable(call, live);
    SortContents(FamilyLeq, rows);
    var v := Combined(call, BaseCredits(call, earning), rows, live).value;
    VectorShare(call, rows, Sort(FamilyLeq, rows), live, v, h);
    PooledNonNegative(call, BaseCredits(call, earning), rows, live);
    PositiveWeightOf(v, h);
  }

  /** The credits give every hotkey what it is due. */
  ghost predicate Gives(m: Credits, due: string -> int) {
    forall h :: CreditOf(m)(h) == due(h) as real
  }

  lemma GivesSame(m: Credits, n: Credits, due: string -> int, pool: nat)
    requires Gives(m, due) && Gives(n, due) && Positive(m) != {}
    ensures Allocation(m, pool) == Allocation(n, pool)
  {
    forall h ensures CreditOf(m)(h) == CreditOf(n)(h) { assert CreditOf(m)(h) == due(h) as real; }
    AllocationSame(m, n, pool);
  }

  lemma VectorExact(call: Call, rows: seq<FamilyCredit>, sorted: seq<FamilyCredit>, live: seq<BountyCredit>,
                    v: map<string, int>, m: Credits, n: Credits, h: string)
    requires multiset(rows) == multiset(sorted) && (live != [] ==> Positive(PooledBounties(call, live)) != {})
    requires PooledVector(Pooled(call, rows), PooledBounties(call, live), call.discoveryPool, live != []) == Some(v)
    requires Gives(m, StandingDue(call, sorted)) && Gives(n, BountyDue(call, live))
    ensures WeightOf(v)(h) ==
      WeightOf(Allocation(m, StandingPart(call, live)))(h) +
      if live == [] then 0 else WeightOf(Allocation(n, call.discoveryPool))(h)
  {
    StandingPool(call, rows, sorted);
    GivesSame(Pooled(call, rows), m, StandingDue(call, sorted), StandingPart(call, live));
    if live != [] {
      PooledBountiesIs(call, live);
      GivesSame(PooledBounties(call, live), n, BountyDue(call, live), call.discoveryPool);
      MergedAt(Allocation(Pooled(call, rows), StandingPart(call, live)),
               Allocation(PooledBounties(call, live), call.discoveryPool), h);
    }
  }

  /** The hotkey's weight: its part of the whole, or of what the discovery pool leaves plus its part of that pool. */
  ghost predicate PaysPools(call: Call, p: Projected, m: Credits, n: Credits, h: string) {
    WeightOf(p.weights)(h) ==
      if p.discovery == [] then WeightOf(Allocation(m, 1_000_000))(h)
      else WeightOf(Allocation(m, 1_000_000 - call.discoveryPool))(h) +
           WeightOf(Allocation(n, call.discoveryPool))(h)
  }

  lemma ListsExact(call: Call, base: map<string, int>, rows: seq<FamilyCredit>, bounties: seq<Bounty>, p: Projected,
                   m: Credits, n: Credits, h: string)
    requires ListsAs(call, base, rows, bounties, p) && call.terms.None?
    requires Gives(m, StandingDue(call, p.standing)) && Gives(n, BountyDue(call, p.discovery))
    ensures WeightOf(p.weights)(h) ==
      WeightOf(Allocation(m, StandingPart(call, p.discovery)))(h) +
      if p.discovery == [] then 0 else WeightOf(Allocation(n, call.discoveryPool))(h)
  {
    LiveUnits(call, bounties);
    BountiesPayable(call, p.discovery);
    SortContents(FamilyLeq, rows);
    var v := Combined(call, base, rows, p.discovery).value;
    VectorExact(call, rows, p.standing, p.discovery, v, m, n, h);
    PooledNonNegative(call, base, rows, p.discovery);
    PositiveWeightOf(v, h);
  }

  lemma PartsPay(call: Call, p: Projected, m: Credits, n: Credits, h: string)
    requires WeightOf(p.weights)(h) ==
      WeightOf(Allocation(m, StandingPart(call, p.discovery)))(h) +
      if p.discovery == [] then 0 else WeightOf(Allocation(n, call.discoveryPool))(h)
    ensures PaysPools(call, p, m, n, h)
  {
  }

  /** The credits give every hotkey what the rows of the projection are due. */
  ghost predicate GivesDue(call: Call, p: Projected, m: Credits, n: Credits) {
    Gives(m, StandingDue(call, p.standing)) && Gives(n, BountyDue(call, p.discovery))
  }

  /** To the unit: the largest-remainder allocations of the two pools over what the listed rows give each hotkey. */
  lemma PooledExact(call: Call, arenas: seq<Authority>, earning: seq<Claim>, discovery: seq<Bounty>, p: Projected,
                    m: Credits, n: Credits, h: string)
    requires Project(call, arenas, earning, discovery) == Some(p) && call.terms.None? && GivesDue(call, p, m, n)
    ensures PaysPools(call, p, m, n, h)
  {
    ProjectedAs(call, arenas, earning, discovery);
    ListsExact(call, BaseCredits(call, earning), Chain(call, SortedClaims(call, earning), map[]).value,
               Sort(BountyLeq, discovery), p, m, n, h);
    PartsPay(call, p, m, n, h);
  }

  // ----- the weights under submission terms

  /** The stall-free credit of a claim: its own block as predecessor, at full bonus. */
  ghost predicate UnstalledAs(call: Call, c: Claim, credit: int) {
    exists x :: CreditedFrom(call, c, x) && Payable(x) && x.predecessor == c.crowned && x.bonus == 1_000_000 &&
      credit == call.credit(x)
  }

  /** The offer under which submissions are paid: rows as credited, stall-free bases, the call's own terms. */
  ghost predicate Offers(call: Call, earning: seq<Claim>, rows: seq<FamilyCredit>, x: Offer) {
    && call.terms == Some(x.terms)
    && x.eligible == call.eligible && x.validator == call.validator && x.burn == call.burn
    && |x.rows| == |rows| && Credited(call, earning, rows)
    && (forall i :: 0 <= i < |rows| ==> x.rows[i] == Row(rows[i].claim, rows[i].hotkey, rows[i].credit))
    && (forall d :: d in x.base <==> exists c :: c in earning && c.digest == d)
    && forall c :: c in earning ==> c.digest in x.base && UnstalledAs(call, c, x.base[c.digest])
  }

  lemma UnstalledMeaning(call: Call, earning: seq<Claim>, c: Claim)
    requires Declared(call, earning) && c in earning && ArgsOk(call, c)
    ensures c.digest in BaseCredits(call, earning) && UnstalledAs(call, c, BaseCredits(call, earning)[c.digest])
  {
    forall a, b | a in earning && b in earning && a.digest == b.digest ensures a == b { SameDigestSame(earning, a, b); }
    BaseCreditOf(call, earning, c);
    CreditMeaning(call, c, c.crowned, PPM, CreditAt(call, c, c.crowned, PPM).value);
  }

  lemma SameDigestSame(earning: seq<Claim>, a: Claim, b: Claim)
    requires DistinctDigests(earning) && a in earning && b in earning && a.digest == b.digest
    ensures a == b
  {
    var i :| 0 <= i < |earning| && earning[i] == a;
    var j :| 0 <= j < |earning| && earning[j] == b;
  }

  lemma OfferMeaning(call: Call, earning: seq<Claim>)
    requires Declared(call, earning) && call.terms.Some? && (forall c :: c in earning ==> ArgsOk(call, c))
    requires Chain(call, SortedClaims(call, earning), map[]).Some?
    ensures var rows := Chain(call, SortedClaims(call, earning), map[]).value;
      Offers(call, earning, rows, OfferOf(call, BaseCredits(call, earning), rows))
  {
    ChainCredited(call, earning);
    forall c | c in earning
      ensures c.digest in BaseCredits(call, earning) && UnstalledAs(call, c, BaseCredits(call, earning)[c.digest])
    {
      UnstalledMeaning(call, earning, c);
    }
  }

  /** Under submission terms the weights are those of the offer the claims make up. */
  lemma TermsWeights(call: Call, arenas: seq<Authority>, earning: seq<Claim>, discovery: seq<Bounty>)
    returns (rows: seq<FamilyCredit>, x: Offer)
    requires Project(call, arenas, earning, discovery).Some? && call.terms.Some?
    ensures var p := Project(call, arenas, earning, discovery).value;
      && p.discovery == [] && multiset(rows) == multiset(p.standing)
      && Offers(call, earning, rows, x) && Accepted(x)
      && forall h :: WeightOf(p.weights)(h) == WeightOf(Weights(x))(h)
  {
    rows := Chain(call, SortedClaims(call, earning), map[]).value;
    x := OfferOf(call, BaseCredits(call, earning), rows);
    DeclaredClaims(call, earning);
    OfferMeaning(call, earning);
    SortContents(FamilyLeq, rows);
    WeightsExact(x);
    forall h ensures WeightOf(PositiveWeights(Weights(x)))(h) == WeightOf(Weights(x))(h) {
      PositiveWeightOf(Weights(x), h);
    }
  }

  // ----- when there is a projection

  /** The claim's own arguments are accepted, whatever its predecessor. */
  ghost predicate ClaimPayable(call: Call, c: Claim) {
    exists x :: CreditedFrom(call, c, x) && Bonused(call, c, x.bonus) && x.predecessor == c.crowned && Payable(x)
  }

  lemma ArgsMeaning(call: Call, c: Claim)
    requires call.scores.Some? ==> c.digest in call.scores.value
    requires call.bonuses.Some? ==> c.digest in call.bonuses.value
    ensures ArgsOk(call, c) <==> ClaimPayable(call, c)
  {
    if ArgsOk(call, c) {
      BonusMeaning(call, c);
      CreditMeaning(call, c, c.crowned, BonusOf(call, c), CreditAt(call, c, c.crowned, BonusOf(call, c)).value);
    }
  }

  /** Some earning claim still has credit. */
  ghost predicate SomeCredit(call: Call, earning: seq<Claim>) {
    exists row :: HasClaim(call, earning, row) && row.credit > 0
  }

  lemma PoolPositive(m: Credits, due: string -> int, all: int)
    requires PoolOf(m, due, all)
    ensures Positive(m) != {} <==> all > 0
  {
    PoolTotal(m, due, all);
    TotalPositive(m);
  }

  lemma SomeRowPaid(rows: seq<FamilyCredit>)
    ensures SumSeq(rows, CreditOfRow) > 0 <==> exists row :: row in rows && row.credit > 0
  {
    forall row | row in rows ensures CreditOfRow(row) >= 0 { }
    SumSeqZero(rows, CreditOfRow);
    if SumSeq(rows, CreditOfRow) > 0 { SomePositive(rows); }
  }

  lemma {:induction false} SomePositive(rows: seq<FamilyCredit>)
    requires SumSeq(rows, CreditOfRow) > 0
    ensures exists row :: row in rows && row.credit > 0
  {
    if rows[0].credit == 0 {
      SomePositive(rows[1..]);
      var row :| row in rows[1..] && row.credit > 0;
      assert row in rows;
    }
  }

  lemma SamePaid(call: Call, earning: seq<Claim>, c: Claim, row: FamilyCredit, other: FamilyCredit)
    requires RowOf(call, earning, c, row) && RowOf(call, earning, c, other)
    ensures row.credit == other.credit
  {
    var x :| CreditedFrom(call, c, x) && Payable(x) && Bonused(call, c, x.bonus) &&
      Preceded(call, earning, c, x.predecessor) && row.credit == call.credit(x);
    var y :| CreditedFrom(call, c, y) && Payable(y) && Bonused(call, c, y.bonus) &&
      Preceded(call, earning, c, y.predecessor) && other.credit == call.credit(y);
    assert x == y;
  }

  lemma CreditedRowHasClaim(call: Call, earning: seq<Claim>, claims: seq<Claim>, rows: seq<FamilyCredit>, i: nat)
    requires PairsOff(call, earning, claims, rows) && i < |rows| && rows[i].credit > 0
    ensures SomeCredit(call, earning)
  {
    assert claims[i] in claims && HasClaim(call, earning, rows[i]);
  }

  lemma CreditedClaimHasRow(call: Call, earning: seq<Claim>, claims: seq<Claim>, rows: seq<FamilyCredit>, c: Claim,
                            row: FamilyCredit)
    requires PairsOff(call, earning, claims, rows) && c in earning && RowOf(call, earning, c, row)
    ensures exists i :: 0 <= i < |rows| && rows[i].credit == row.credit
  {
    assert c in claims;
    var i :| 0 <= i < |claims| && claims[i] == c;
    SamePaid(call, earning, c, row, rows[i]);
  }

  lemma SomeRowCredited(call: Call, earning: seq<Claim>, claims: seq<Claim>, rows: seq<FamilyCredit>)
    requires PairsOff(call, earning, claims, rows)
    ensures (exists row :: row in rows && row.credit > 0) <==> SomeCredit(call, earning)
  {
    if row :| row in rows && row.credit > 0 {
      var i :| 0 <= i < |rows| && rows[i] == row;
      CreditedRowHasClaim(call, earning, claims, rows, i);
    }
    if SomeCredit(call, earning) {
      var row :| HasClaim(call, earning, row) && row.credit > 0;
      var c :| c in earning && RowOf(call, earning, c, row);
      CreditedClaimHasRow(call, earning, claims, rows, c, row);
      var i :| 0 <= i < |rows| && rows[i].credit == row.credit;
      assert rows[i] in rows;
    }
  }

  lemma StandingPositive(call: Call, earning: seq<Claim>, claims: seq<Claim>, rows: seq<FamilyCredit>)
    requires PairsOff(call, earning, claims, rows)
    ensures Positive(Pooled(call, rows)) != {} <==> SomeCredit(call, earning)
  {
    SomeRowCredited(call, earning, claims, rows);
    SomeRowPaid(rows);
    PooledIs(call, rows);
    PoolPositive(Pooled(call, rows), StandingDue(call, rows), SumSeq(rows, CreditOfRow));
  }

  ghost predicate SomeAlive(call: Call, discovery: seq<Bounty>) {
    exists b :: b in discovery && Alive(call, b)
  }

  lemma LiveIff(call: Call, discovery: seq<Bounty>)
    ensures LiveBounties(call, Sort(BountyLeq, discovery)) != [] <==> SomeAlive(call, discovery)
  {
    var live := LiveBounties(call, Sort(BountyLeq, discovery));
    LiveListed(call, Sort(BountyLeq, discovery));
    SortedBounties(discovery);
    if live != [] { assert live[0] in live; }
  }

  /** The call's terms name exactly the earning claims and are well formed, and the burn hotkey is registered. */
  ghost predicate TermsComplete(call: Call, earning: seq<Claim>) {
    && call.terms.Some? && call.burn in call.eligible
    && (forall d :: d in call.terms.value <==> exists c :: c in earning && c.digest == d)
    && forall d :: d in call.terms.value ==>
         call.terms.value[d].source != "" && 0 <= call.terms.value[d].ppm <= 1_000_000
  }

  lemma AcceptedIff(x: Offer, names: set<string>)
    requires Claims(x.rows) == names == x.base.Keys && forall d :: d in x.base ==> x.base[d] >= 0
    ensures Accepted(x) <==>
      && x.terms.Keys == names && x.burn in x.eligible
      && forall d :: d in x.terms ==> x.terms[d].source != "" && 0 <= x.terms[d].ppm <= 1_000_000
  {
  }

  lemma BasesNatural(call: Call, earning: seq<Claim>)
    requires Declared(call, earning) && (forall c :: c in earning ==> ArgsOk(call, c))
    ensures BaseCredits(call, earning).Keys == Digests(earning)
    ensures forall d :: d in BaseCredits(call, earning) ==> BaseCredits(call, earning)[d] >= 0
  {
    forall d | d in BaseCredits(call, earning) ensures BaseCredits(call, earning)[d] >= 0 {
      var c :| c in earning && c.digest == d;
      UnstalledMeaning(call, earning, c);
    }
  }

  lemma OfferAccepted(call: Call, earning: seq<Claim>, x: Offer)
    requires Declared(call, earning) && call.terms.Some? && (forall c :: c in earning ==> ArgsOk(call, c))
    requires Chain(call, SortedClaims(call, earning), map[]).Some?
    requires x == OfferOf(call, BaseCredits(call, earning), Chain(call, SortedClaims(call, earning), map[]).value)
    ensures Accepted(x) <==> TermsComplete(call, earning)
  {
    ChainTotal(call, earning);
    BasesNatural(call, earning);
    AcceptedIff(x, Digests(earning));
    ProjectionInputs.NamesIff(earning, call.terms.value.Keys);
    assert x.terms == call.terms.value && x.burn == call.burn && x.eligible == call.eligible;
  }

  /** Everything that can be paid: pooled credit and an enabled bounty pool, or complete terms and no live bounty. */
  ghost predicate Distributable(call: Call, earning: seq<Claim>, discovery: seq<Bounty>) {
    if call.terms.None? then SomeCredit(call, earning) && (SomeAlive(call, discovery) ==> call.discoveryPool > 0)
    else TermsComplete(call, earning) && !SomeAlive(call, discovery)
  }

  lemma CombinedIff(call: Call, earning: seq<Claim>, discovery: seq<Bounty>)
    requires Declared(call, earning) && (forall c :: c in earning ==> ArgsOk(call, c))
    requires Chain(call, SortedClaims(call, earning), map[]).Some?
    ensures Distributable(call, earning, discovery) <==>
      Combined(call, BaseCredits(call, earning), Chain(call, SortedClaims(call, earning), map[]).value,
               LiveBounties(call, Sort(BountyLeq, discovery))).Some?
  {
    LiveIff(call, discovery);
    if call.terms.None? {
      var claims := SortedClaims(call, earning);
      ChainPairs(call, earning);
      StandingPositive(call, earning, claims, Chain(call, claims, map[]).value);
    } else {
      var rows := Chain(call, SortedClaims(call, earning), map[]).value;
      OfferAccepted(call, earning, OfferOf(call, BaseCredits(call, earning), rows));
    }
  }

  ghost predicate Checked(call: Call, arenas: seq<Authority>, earning: seq<Claim>, discovery: seq<Bounty>) {
    && InputsOk(call, arenas, earning) && (forall c :: c in earning ==> ClaimPayable(call, c))
    && BountiesDistinct(discovery) && (forall b :: b in discovery ==> b.awarded <= call.block)
  }

  lemma ReadyIff(call: Call, arenas: seq<Authority>, earning: seq<Claim>, discovery: seq<Bounty>)
    ensures Ready(call, arenas, earning, discovery) <==> Checked(call, arenas, earning, discovery)
  {
    if InputsOk(call, arenas, earning) {
      DeclaredClaims(call, earning);
      forall c | c in earning ensures ArgsOk(call, c) <==> ClaimPayable(call, c) { ArgsMeaning(call, c); }
    }
  }

  lemma AssembledIff(call: Call, arenas: seq<Authority>, earning: seq<Claim>, discovery: seq<Bounty>)
    requires Ready(call, arenas, earning, discovery)
    ensures Project(call, arenas, earning, discovery).Some? <==> Distributable(call, earning, discovery)
  {
    DeclaredClaims(call, earning);
    ChainTotal(call, earning);
    CombinedIff(call, earning, discovery);
  }

  /** There is a projection exactly when authorities, claims and bounties check out and something can be paid. */
  lemma ProjectionIff(call: Call, arenas: seq<Authority>, earning: seq<Claim>, discovery: seq<Bounty>)
    ensures Project(call, arenas, earning, discovery).Some? <==>
      Checked(call, arenas, earning, discovery) && Distributable(call, earning, discovery)
  {
    ReadyIff(call, arenas, earning, discovery);
    if Ready(call, arenas, earning, discovery) { AssembledIff(call, arenas, earning, discovery); }
  }

  // ----- the order of what is returned

  /** Credits by arena, target and claim. */
  ghost predicate RowNotLater(a: FamilyCredit, b: FamilyCredit) {
    && Alphabetical(a.arena, b.arena)
    && (a.arena == b.arena ==> Alphabetical(a.target, b.target))
    && (a.arena == b.arena && a.target == b.target ==> Alphabetical(a.claim, b.claim))
  }

  lemma FamilyMeaning(a: FamilyCredit, b: FamilyCredit)
    requires FamilyLeq(a, b)
    ensures RowNotLater(a, b)
  {
    StrLeqMeaning(a.arena, b.arena);
    StrLeqMeaning(a.target, b.target);
    StrLeqMeaning(a.claim, b.claim);
    AlphabeticalSelf(a.arena);
    AlphabeticalSelf(a.target);
  }

  lemma AlphabeticalSelf(a: string)
    ensures Alphabetical(a, a)
  {
  }

  lemma FamilyOrder()
    ensures TotalPreorder(FamilyLeq)
  {
    forall a, b ensures FamilyLeq(a, b) || FamilyLeq(b, a) {
      StrTotal(a.arena, b.arena);
      StrTotal(a.target, b.target);
      StrTotal(a.claim, b.claim);
    }
    forall a, b, c | FamilyLeq(a, b) && FamilyLeq(b, c) ensures FamilyLeq(a, c) {
      if StrLess(a.arena, b.arena) && StrLess(b.arena, c.arena) { StrLessTransitive(a.arena, b.arena, c.arena); }
      if StrLess(a.target, b.target) && StrLess(b.target, c.target) {
        StrLessTransitive(a.target, b.target, c.target);
      }
      if StrLeq(a.claim, b.claim) && StrLeq(b.claim, c.claim) { StrTransitive(a.claim, b.claim, c.claim); }
    }
  }

  ghost predicate RowsInOrder(rows: seq<FamilyCredit>) {
    forall i, j :: 0 <= i < j < |rows| ==> RowNotLater(rows[i], rows[j])
  }

  ghost predicate NamesInOrder(names: seq<string>) {
    forall i, j :: 0 <= i < j < |names| ==> Alphabetical(names[i], names[j])
  }

  lemma SortedNames(names: seq<string>)
    ensures NamesInOrder(Sort(StrLeq, names))
  {
    var t := Sort(StrLeq, names);
    StrPreorder();
    SortSorted(StrLeq, names);
    forall i, j | 0 <= i < j < |t| ensures Alphabetical(t[i], t[j]) { StrLeqMeaning(t[i], t[j]); }
  }

  lemma SortedRows(rows: seq<FamilyCredit>)
    ensures RowsInOrder(Sort(FamilyLeq, rows))
  {
    var t := Sort(FamilyLeq, rows);
    FamilyOrder();
    SortSorted(FamilyLeq, rows);
    forall i, j | 0 <= i < j < |t| ensures RowNotLater(t[i], t[j]) { FamilyMeaning(t[i], t[j]); }
  }

  ghost predicate BountiesInOrder(bounties: seq<Bounty>) {
    forall i, j :: 0 <= i < j < |bounties| ==> Alphabetical(bounties[i].digest, bounties[j].digest)
  }

  lemma SortedByDigest(bounties: seq<Bounty>)
    ensures BountiesInOrder(Sort(BountyLeq, bounties))
  {
    var t := Sort(BountyLeq, bounties);
    BountyOrder();
    SortSorted(BountyLeq, bounties);
    forall i, j | 0 <= i < j < |t| ensures Alphabetical(t[i].digest, t[j].digest) {
      StrLeqMeaning(t[i].digest, t[j].digest);
    }
  }

  function LiveDigests(rows: seq<BountyCredit>): seq<string> {
    seq(|rows|, i requires 0 <= i < |rows| => rows[i].claim)
  }

  lemma InOrderCons(d: string, names: seq<string>)
    requires NamesInOrder(names) && forall n :: n in names ==> Alphabetical(d, n)
    ensures NamesInOrder([d] + names)
  {
    forall i, j | 0 <= i < j < |[d] + names| ensures Alphabetical(([d] + names)[i], ([d] + names)[j]) {
      if i == 0 { assert names[j - 1] in names; }
    }
  }

  lemma HeadFirst(call: Call, bounties: seq<Bounty>)
    requires BountiesInOrder(bounties) && bounties != []
    ensures forall d :: d in LiveDigests(LiveBounties(call, bounties[1..])) ==> Alphabetical(bounties[0].digest, d)
    ensures forall d :: d in Expired(call, bounties[1..]) ==> Alphabetical(bounties[0].digest, d)
  {
    var rest := bounties[1..];
    LiveListed(call, rest);
    forall c | c in rest ensures Alphabetical(bounties[0].digest, c.digest) {
      var i :| 0 <= i < |rest| && rest[i] == c;
      assert bounties[i + 1] == c;
    }
    forall d | d in LiveDigests(LiveBounties(call, rest)) ensures exists b :: b in rest && b.digest == d {
      var i :| 0 <= i < |LiveBounties(call, rest)| && LiveBounties(call, rest)[i].claim == d;
      assert LiveBounties(call, rest)[i] in LiveBounties(call, rest);
    }
  }

  lemma DigestsCons(row: BountyCredit, rows: seq<BountyCredit>)
    ensures LiveDigests([row] + rows) == [row.claim] + LiveDigests(rows)
  {
  }

  lemma {:induction false} LiveInOrder(call: Call, bounties: seq<Bounty>)
    requires BountiesInOrder(bounties)
    ensures NamesInOrder(LiveDigests(LiveBounties(call, bounties))) && NamesInOrder(Expired(call, bounties))
  {
    if bounties != [] {
      var b, live, expired := bounties[0], LiveBounties(call, bounties[1..]), Expired(call, bounties[1..]);
      LiveInOrder(call, bounties[1..]);
      HeadFirst(call, bounties);
      if Live(call, b) {
        InOrderCons(b.digest, LiveDigests(live));
        DigestsCons(BountyCredit(b.digest, b.hotkey, b.units), live);
        assert [] + expired == expired;
      } else {
        InOrderCons(b.digest, expired);
        assert [] + live == live;
      }
    }
  }

  /** Authorities, credits, live and expired bounties are listed in order of their digests. */
  lemma ProjectionOrder(call: Call, arenas: seq<Authority>, earning: seq<Claim>, discovery: seq<Bounty>)
    requires Project(call, arenas, earning, discovery).Some?
    ensures var p := Project(call, arenas, earning, discovery).value;
      && p.policy == call.policy && p.context == call.context
      && NamesInOrder(p.authorities) && (forall d :: d in p.authorities <==> exists a :: a in arenas && a.digest == d)
      && |p.authorities| == |arenas| && RowsInOrder(p.standing)
      && NamesInOrder(LiveDigests(p.discovery)) && NamesInOrder(p.expired)
  {
    SortedNames(AuthorityDigests(Sort(ArenaLeq, arenas)));
    SortedRows(Chain(call, SortedClaims(call, earning), map[]).value);
    SortedByDigest(discovery);
    LiveInOrder(call, Sort(BountyLeq, discovery));
    AuthoritiesListed(arenas);
  }

  lemma AuthorityNamed(arenas: seq<Authority>, d: string)
    ensures d in AuthorityDigests(arenas) <==> exists a :: a in arenas && a.digest == d
  {
    var digests := AuthorityDigests(arenas);
    if d in digests {
      var i :| 0 <= i < |digests| && digests[i] == d;
      assert arenas[i] in arenas;
    }
    if a :| a in arenas && a.digest == d {
      var i :| 0 <= i < |arenas| && arenas[i] == a;
      assert digests[i] == d;
    }
  }

  lemma AuthoritiesListed(arenas: seq<Authority>)
    ensures var names := Sort(StrLeq, AuthorityDigests(Sort(ArenaLeq, arenas)));
      |names| == |arenas| && forall d :: d in names <==> exists a :: a in arenas && a.digest == d
  {
    var sorted := Sort(ArenaLeq, arenas);
    var digests := AuthorityDigests(sorted);
    SortContents(ArenaLeq, arenas);
    SortContents(StrLeq, digests);
    SameElements(sorted, arenas);
    forall d ensures d in Sort(StrLeq, digests) <==> exists a :: a in arenas && a.digest == d {
      SortElements(StrLeq, digests, d);
      AuthorityNamed(sorted, d);
    }
  }
}
