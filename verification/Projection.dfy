/** The global reward projection (`cacheon/economics.py`, `project_global_rewards`). */
module Projection {
  import opened Wrappers
  import opened Orders
  import opened Sums
  import opened PoolAllocation
  import opened SubmissionAllocation
  import opened RewardTargets

  type Units = n: nat | n > 0 witness 1

  /** A discovery pool leaves standing reward capacity. */
  type PoolPpm = n: nat | n < 1_000_000

  datatype Claim = Claim(
    arena: string, target: string, spec: string, contribution: string, hotkey: string,
    speedup: int, crowned: nat, digest: Digest)

  datatype Bounty = Bounty(
    proposal: string, evidence: string, hotkey: string, units: Units, awarded: nat, digest: string)

  datatype Contribution = Contribution(
    digest: string, target: string, spec: string, artifact: string, attribution: string)

  /** One arena's sealed catalog, active entries and standing crowns. */
  datatype Authority = Authority(
    arena: string, digest: string, generation: nat, catalog: Stack, sealedSpecs: map<string, string>,
    entries: map<string, Contribution>, standing: seq<Claim>)

  /** What `credit_at` computes from, once its arguments are accepted. */
  datatype CreditArgs = CreditArgs(speedup: int, crowned: nat, block: nat, predecessor: nat, start: nat, bonus: int)

  /** The call's arguments; `policy` and `context` are digests, `family` and `credit` the claims' own functions. */
  datatype Call = Call(
    policy: string, context: string, family: (string, string, string) -> string, discoveryLifetime: nat,
    discoveryPool: PoolPpm, block: nat, eligible: set<string>, validator: string,
    validated: Option<seq<Claim>>, refs: map<string, Contribution>, starts: map<string, Option<nat>>,
    terms: Option<map<string, Term>>, burn: string, bonuses: Option<map<string, int>>,
    scores: Option<map<string, int>>, clocks: map<string, string>, credit: CreditArgs -> nat)

  datatype FamilyCredit = FamilyCredit(
    arena: string, family: string, target: string, claim: Digest, hotkey: string, credit: nat)
  datatype BountyCredit = BountyCredit(claim: string, hotkey: string, credit: nat)

  datatype Projected = Projected(
    policy: string, context: string, authorities: seq<string>, standing: seq<FamilyCredit>,
    discovery: seq<BountyCredit>, expired: seq<string>,
    weights: map<string, int>)

  // ----- orders

  function ClockOf(clocks: map<string, string>, c: Claim): string {
    if c.arena in clocks then clocks[c.arena] else c.arena
  }

  /** `(clock, crowned_block, digest)` */
  predicate ClaimLeq(clocks: map<string, string>, a: Claim, b: Claim) {
    var ka, kb := ClockOf(clocks, a), ClockOf(clocks, b);
    StrLess(ka, kb) || (ka == kb && (a.crowned < b.crowned || (a.crowned == b.crowned && StrLeq(a.digest, b.digest))))
  }

  /** `(arena_digest, target_id, claim_digest)` */
  predicate FamilyLeq(a: FamilyCredit, b: FamilyCredit) {
    StrLess(a.arena, b.arena) ||
    (a.arena == b.arena && (StrLess(a.target, b.target) || (a.target == b.target && StrLeq(a.claim, b.claim))))
  }

  predicate BountyLeq(a: Bounty, b: Bounty) {
    StrLeq(a.digest, b.digest)
  }

  function ByClock(clocks: map<string, string>): (Claim, Claim) -> bool {
    (a, b) => ClaimLeq(clocks, a, b)
  }

  lemma StrLessTransitive(a: string, b: string, c: string)
    requires StrLess(a, b) && StrLess(b, c)
    ensures StrLess(a, c)
  {
    StrTransitive(a, b, c);
    if a == c { StrAntisymmetric(a, b); }
  }

  lemma ClockOrder(clocks: map<string, string>)
    ensures TotalPreorder(ByClock(clocks))
  {
    forall a, b ensures ByClock(clocks)(a, b) || ByClock(clocks)(b, a) {
      StrTotal(ClockOf(clocks, a), ClockOf(clocks, b));
      StrTotal(a.digest, b.digest);
    }
    forall a, b, c | ByClock(clocks)(a, b) && ByClock(clocks)(b, c) ensures ByClock(clocks)(a, c) {
      var ka, kb, kc := ClockOf(clocks, a), ClockOf(clocks, b), ClockOf(clocks, c);
      if StrLess(ka, kb) && StrLess(kb, kc) { StrLessTransitive(ka, kb, kc); }
      if StrLeq(a.digest, b.digest) && StrLeq(b.digest, c.digest) { StrTransitive(a.digest, b.digest, c.digest); }
    }
  }

  predicate ArenaLeq(a: Authority, b: Authority) {
    StrLeq(a.arena, b.arena)
  }

  lemma ArenaOrder()
    ensures TotalPreorder(ArenaLeq)
  {
    forall a, b ensures ArenaLeq(a, b) || ArenaLeq(b, a) { StrTotal(a.arena, b.arena); }
    forall a, b, c | ArenaLeq(a, b) && ArenaLeq(b, c) ensures ArenaLeq(a, c) {
      StrTransitive(a.arena, b.arena, c.arena);
    }
  }

  lemma BountyOrder()
    ensures TotalPreorder(BountyLeq)
  {
    forall a, b ensures BountyLeq(a, b) || BountyLeq(b, a) { StrTotal(a.digest, b.digest); }
    forall a, b, c | BountyLeq(a, b) && BountyLeq(b, c) ensures BountyLeq(a, c) {
      StrTransitive(a.digest, b.digest, c.digest);
    }
  }

  // ----- the stall clock

  function SortedClaims(call: Call, earning: seq<Claim>): seq<Claim> {
    Sort(ByClock(call.clocks), earning)
  }

  /** `previous.get(clock, claim.crowned_block)` */
  function Predecessor(clocks: map<string, string>, previous: map<string, nat>, c: Claim): nat {
    var k := ClockOf(clocks, c);
    if k in previous then previous[k] else c.crowned
  }

  function StartOf(call: Call, c: Claim): nat {
    if c.digest in call.starts then (if call.starts[c.digest].None? then call.block else call.starts[c.digest].value)
    else c.crowned
  }

  /** `credit_at`, with the argument checks that make it raise. */
  function CreditAt(call: Call, c: Claim, predecessor: nat, bonus: int): Option<nat> {
    var rescored := call.scores.Some? && c.digest in call.scores.value;
    var speedup := if rescored then call.scores.value[c.digest] else c.speedup;
    var start := StartOf(call, c);
    if speedup <= PPM || call.block < c.crowned || predecessor > c.crowned || start < c.crowned || start > call.block
       || bonus < 0 || bonus > PPM
    then None
    else Some(call.credit(CreditArgs(speedup, c.crowned, call.block, predecessor, start, bonus)))
  }

  function BonusOf(call: Call, c: Claim): int {
    if call.bonuses.Some? && c.digest in call.bonuses.value then call.bonuses.value[c.digest] else PPM
  }

  /** `StandingFamilyCredit` with the claim's family, a digest of arena, target and specification. */
  function CreditRow(call: Call, c: Claim, credit: nat): FamilyCredit {
    FamilyCredit(c.arena, call.family(c.arena, c.target, c.spec), c.target, c.digest, c.hotkey, credit)
  }

  /** The main loop: each claim's credit, chained through the clocks. */
  function Chain(call: Call, claims: seq<Claim>, previous: map<string, nat>): Option<seq<FamilyCredit>> {
    if claims == [] then Some([])
    else
      var c := claims[0];
      var credit := CreditAt(call, c, Predecessor(call.clocks, previous, c), BonusOf(call, c));
      var rest := Chain(call, claims[1..], previous[ClockOf(call.clocks, c) := c.crowned]);
      if credit.None? || rest.None? then None
      else Some([CreditRow(call, c, credit.value)] + rest.value)
  }

  ghost predicate ClockSorted(clocks: map<string, string>, claims: seq<Claim>) {
    forall i, j :: 0 <= i < j < |claims| && ClockOf(clocks, claims[i]) == ClockOf(clocks, claims[j]) ==>
      claims[i].crowned <= claims[j].crowned
  }

  ghost function PreviousAfter(
    clocks: map<string, string>, claims: seq<Claim>, previous: map<string, nat>): map<string, nat>
  {
    if claims == [] then previous
    else PreviousAfter(clocks, claims[1..], previous[ClockOf(clocks, claims[0]) := claims[0].crowned])
  }

  /** The predecessor block of the `i`-th claim: the clock as the earlier claims leave it. */
  ghost function PredecessorAt(clocks: map<string, string>, claims: seq<Claim>, i: nat): nat
    requires i < |claims|
  {
    Predecessor(clocks, PreviousAfter(clocks, claims[..i], map[]), claims[i])
  }

  /** The gap the `i`-th claim waited on its clock. */
  ghost function GapAt(clocks: map<string, string>, claims: seq<Claim>, i: nat): int
    requires i < |claims|
  {
    claims[i].crowned - PredecessorAt(clocks, claims, i)
  }

  /** The loop credits the `i`-th claim at the predecessor that the earlier claims leave on its clock. */
  lemma {:induction false} ChainAt(call: Call, claims: seq<Claim>, previous: map<string, nat>, i: nat)
    requires i < |claims| && Chain(call, claims, previous).Some?
    ensures |Chain(call, claims, previous).value| == |claims|
    ensures var c := claims[i];
      var p := Predecessor(call.clocks, PreviousAfter(call.clocks, claims[..i], previous), c);
      var credit := CreditAt(call, c, p, BonusOf(call, c));
      && credit.Some?
      && Chain(call, claims, previous).value[i] == CreditRow(call, c, credit.value)
  {
    var next := previous[ClockOf(call.clocks, claims[0]) := claims[0].crowned];
    if i == 0 {
      ChainLength(call, claims, previous);
    } else {
      ChainAt(call, claims[1..], next, i - 1);
      assert claims[..i][1..] == claims[1..][..i - 1] && claims[1..][i - 1] == claims[i];
    }
  }

  lemma {:induction false} ChainLength(call: Call, claims: seq<Claim>, previous: map<string, nat>)
    requires Chain(call, claims, previous).Some?
    ensures |Chain(call, claims, previous).value| == |claims|
  {
    if claims != [] {
      ChainLength(call, claims[1..], previous[ClockOf(call.clocks, claims[0]) := claims[0].crowned]);
    }
  }

  lemma {:induction false} PreviousSnoc(
    clocks: map<string, string>, claims: seq<Claim>, c: Claim, previous: map<string, nat>)
    ensures PreviousAfter(clocks, claims + [c], previous) ==
            PreviousAfter(clocks, claims, previous)[ClockOf(clocks, c) := c.crowned]
  {
    if claims == [] {
    } else {
      assert (claims + [c])[1..] == claims[1..] + [c];
      PreviousSnoc(clocks, claims[1..], c, previous[ClockOf(clocks, claims[0]) := claims[0].crowned]);
    }
  }

  /** The clock holds the block of the latest earlier claim on it. */
  lemma {:induction false} PreviousIs(clocks: map<string, string>, claims: seq<Claim>, k: string)
    ensures k in PreviousAfter(clocks, claims, map[]) <==>
      exists i :: 0 <= i < |claims| && ClockOf(clocks, claims[i]) == k
    ensures k in PreviousAfter(clocks, claims, map[]) ==>
      exists i :: 0 <= i < |claims| && ClockOf(clocks, claims[i]) == k &&
        PreviousAfter(clocks, claims, map[])[k] == claims[i].crowned
  {
    if claims != [] {
      var init, last := claims[..|claims| - 1], claims[|claims| - 1];
      assert claims == init + [last];
      PreviousSnoc(clocks, init, last, map[]);
      PreviousIs(clocks, init, k);
    }
  }

  lemma SortedNotLater(clocks: map<string, string>, claims: seq<Claim>, i: nat)
    requires ClockSorted(clocks, claims) && i < |claims|
    ensures PredecessorAt(clocks, claims, i) <= claims[i].crowned
  {
    PreviousIs(clocks, claims[..i], ClockOf(clocks, claims[i]));
  }

  /** Sorting guarantees that no claim is credited against a later predecessor. */
  lemma PredecessorNotLater(call: Call, earning: seq<Claim>, i: nat)
    requires i < |SortedClaims(call, earning)|
    ensures var claims := SortedClaims(call, earning);
      var c, p, chain := claims[i], PredecessorAt(call.clocks, claims, i), Chain(call, claims, map[]);
      && p <= c.crowned && GapAt(call.clocks, claims, i) >= 0
      && (chain.Some? ==> i < |chain.value| && Some(chain.value[i].credit) == CreditAt(call, c, p, BonusOf(call, c)))
  {
    var claims := SortedClaims(call, earning);
    SortedByClock(call, earning);
    SortedNotLater(call.clocks, claims, i);
    if Chain(call, claims, map[]).Some? { ChainAt(call, claims, map[], i); }
  }

  lemma SortedByClock(call: Call, earning: seq<Claim>)
    ensures ClockSorted(call.clocks, SortedClaims(call, earning))
  {
    ClockOrder(call.clocks);
    SortSorted(ByClock(call.clocks), earning);
  }

  ghost function GapSum(clocks: map<string, string>, claims: seq<Claim>, k: string): int {
    if claims == [] then 0
    else
      var n := |claims| - 1;
      GapSum(clocks, claims[..n], k) + if ClockOf(clocks, claims[n]) == k then GapAt(clocks, claims, n) else 0
  }

  ghost function FirstBlock(clocks: map<string, string>, claims: seq<Claim>, k: string): nat {
    if claims == [] then 0
    else if ClockOf(clocks, claims[0]) == k then claims[0].crowned
    else FirstBlock(clocks, claims[1..], k)
  }

  ghost function LastBlock(clocks: map<string, string>, claims: seq<Claim>, k: string): nat {
    if claims == [] then 0
    else if ClockOf(clocks, claims[|claims| - 1]) == k then claims[|claims| - 1].crowned
    else LastBlock(clocks, claims[..|claims| - 1], k)
  }

  lemma {:induction false} FirstSnoc(clocks: map<string, string>, claims: seq<Claim>, c: Claim, k: string)
    ensures (exists i :: 0 <= i < |claims| && ClockOf(clocks, claims[i]) == k) ==>
      FirstBlock(clocks, claims + [c], k) == FirstBlock(clocks, claims, k)
    ensures !(exists i :: 0 <= i < |claims| && ClockOf(clocks, claims[i]) == k) ==>
      FirstBlock(clocks, claims + [c], k) == if ClockOf(clocks, c) == k then c.crowned else 0
  {
    if claims != [] {
      assert (claims + [c])[1..] == claims[1..] + [c];
      FirstSnoc(clocks, claims[1..], c, k);
      if i :| 0 <= i < |claims| && ClockOf(clocks, claims[i]) == k && ClockOf(clocks, claims[0]) != k {
        assert claims[1..][i - 1] == claims[i];
      }
      assert forall i :: 0 <= i < |claims| - 1 ==> claims[1..][i] == claims[i + 1];
    }
  }

  lemma {:induction false} Telescopes(clocks: map<string, string>, claims: seq<Claim>, k: string)
    ensures GapSum(clocks, claims, k) == LastBlock(clocks, claims, k) - FirstBlock(clocks, claims, k)
    ensures k in PreviousAfter(clocks, claims, map[]) ==>
      PreviousAfter(clocks, claims, map[])[k] == LastBlock(clocks, claims, k)
    ensures k !in PreviousAfter(clocks, claims, map[]) ==>
      LastBlock(clocks, claims, k) == 0 == FirstBlock(clocks, claims, k)
  {
    if claims != [] {
      var init, last := claims[..|claims| - 1], claims[|claims| - 1];
      assert claims == init + [last];
      Telescopes(clocks, init, k);
      PreviousSnoc(clocks, init, last, map[]);
      PreviousIs(clocks, init, k);
      FirstSnoc(clocks, init, last, k);
    }
  }

  /** On a sorted list the first and last block of a clock are its least and greatest. */
  lemma {:induction false} FirstIsLeast(clocks: map<string, string>, claims: seq<Claim>, c: Claim)
    requires ClockSorted(clocks, claims) && c in claims
    ensures FirstBlock(clocks, claims, ClockOf(clocks, c)) <= c.crowned
  {
    if ClockOf(clocks, claims[0]) != ClockOf(clocks, c) {
      assert c in claims[1..];
      FirstIsLeast(clocks, claims[1..], c);
    } else {
      var i :| 0 <= i < |claims| && claims[i] == c;
    }
  }

  lemma {:induction false} LastIsGreatest(clocks: map<string, string>, claims: seq<Claim>, c: Claim)
    requires ClockSorted(clocks, claims) && c in claims
    ensures c.crowned <= LastBlock(clocks, claims, ClockOf(clocks, c))
  {
    var n := |claims| - 1;
    var i :| 0 <= i < |claims| && claims[i] == c;
    if ClockOf(clocks, claims[n]) != ClockOf(clocks, c) {
      assert claims[..n][i] == c;
      LastIsGreatest(clocks, claims[..n], c);
    }
  }

  /** Within one clock the credited gaps sum to the greatest block minus the least. */
  lemma GapsTelescope(call: Call, earning: seq<Claim>, k: string)
    ensures var claims := SortedClaims(call, earning);
      var first, last := FirstBlock(call.clocks, claims, k), LastBlock(call.clocks, claims, k);
      && GapSum(call.clocks, claims, k) == last - first
      && forall c :: c in earning && ClockOf(call.clocks, c) == k ==> first <= c.crowned <= last
  {
    var claims := SortedClaims(call, earning);
    SortedByClock(call, earning);
    Telescopes(call.clocks, claims, k);
    SortContents(ByClock(call.clocks), earning);
    SameElements(claims, earning);
    forall c | c in earning && ClockOf(call.clocks, c) == k
      ensures FirstBlock(call.clocks, claims, k) <= c.crowned <= LastBlock(call.clocks, claims, k)
    {
      FirstIsLeast(call.clocks, claims, c);
      LastIsGreatest(call.clocks, claims, c);
    }
  }

  /** The argument checks of `credit_at` that do not concern the stall clock. */
  predicate ArgsOk(call: Call, c: Claim) {
    CreditAt(call, c, c.crowned, BonusOf(call, c)).Some?
  }

  predicate Labels(credits: seq<FamilyCredit>, claims: seq<Claim>) {
    |credits| == |claims| && forall i :: 0 <= i < |claims| ==> credits[i].claim == claims[i].digest
  }

  /** No claim is earlier than what its clock already holds. */
  ghost predicate NotLater(clocks: map<string, string>, claims: seq<Claim>, previous: map<string, nat>) {
    forall c :: c in claims && ClockOf(clocks, c) in previous ==> previous[ClockOf(clocks, c)] <= c.crowned
  }

  lemma NotLaterNext(clocks: map<string, string>, claims: seq<Claim>, previous: map<string, nat>)
    requires claims != [] && ClockSorted(clocks, claims) && NotLater(clocks, claims, previous)
    ensures ClockSorted(clocks, claims[1..])
    ensures NotLater(clocks, claims[1..], previous[ClockOf(clocks, claims[0]) := claims[0].crowned])
  {
    var next := previous[ClockOf(clocks, claims[0]) := claims[0].crowned];
    forall d | d in claims[1..] && ClockOf(clocks, d) in next ensures next[ClockOf(clocks, d)] <= d.crowned {
      var i :| 0 <= i < |claims| - 1 && claims[1..][i] == d;
      assert claims[i + 1] == d && d in claims;
    }
  }

  lemma HeadCredited(call: Call, c: Claim, previous: map<string, nat>)
    requires ClockOf(call.clocks, c) in previous ==> previous[ClockOf(call.clocks, c)] <= c.crowned
    ensures ArgsOk(call, c) <==> CreditAt(call, c, Predecessor(call.clocks, previous, c), BonusOf(call, c)).Some?
  {
    assert Predecessor(call.clocks, previous, c) <= c.crowned;
  }

  lemma {:induction false} ChainFrom(call: Call, claims: seq<Claim>, previous: map<string, nat>)
    requires ClockSorted(call.clocks, claims) && NotLater(call.clocks, claims, previous)
    ensures Chain(call, claims, previous).Some? <==> forall c :: c in claims ==> ArgsOk(call, c)
    ensures Chain(call, claims, previous).Some? ==> Labels(Chain(call, claims, previous).value, claims)
  {
    if claims != [] {
      var c := claims[0];
      NotLaterNext(call.clocks, claims, previous);
      ChainFrom(call, claims[1..], previous[ClockOf(call.clocks, c) := c.crowned]);
      HeadCredited(call, c, previous);
      HeadOrTail(claims);
    }
  }

  lemma HeadOrTail<T>(s: seq<T>)
    requires s != []
    ensures forall x :: x in s <==> x == s[0] || x in s[1..]
  {
    assert s == [s[0]] + s[1..];
  }

  /** The stall clock never makes the chain fail: only a claim's own arguments can. */
  lemma ChainTotal(call: Call, earning: seq<Claim>)
    ensures Chain(call, SortedClaims(call, earning), map[]).Some? <==> forall c :: c in earning ==> ArgsOk(call, c)
    ensures Chain(call, SortedClaims(call, earning), map[]).Some? ==>
      Claims(Rows(Chain(call, SortedClaims(call, earning), map[]).value)) == Digests(earning)
  {
    var claims := SortedClaims(call, earning);
    SortedByClock(call, earning);
    SortContents(ByClock(call.clocks), earning);
    ChainFrom(call, claims, map[]);
    forall c ensures c in claims <==> c in earning { assert c in claims <==> c in multiset(claims); }
    if Chain(call, claims, map[]).Some? {
      DigestsOf(Rows(Chain(call, claims, map[]).value), claims, earning);
    }
  }

  lemma DigestsOf(rows: seq<Row>, claims: seq<Claim>, earning: seq<Claim>)
    requires |rows| == |claims| && forall i :: 0 <= i < |rows| ==> rows[i].claim == claims[i].digest
    requires forall c :: c in claims <==> c in earning
    ensures Claims(rows) == Digests(earning)
  {
    forall d ensures d in Claims(rows) <==> d in Digests(earning) {
      if d in Claims(rows) {
        var i :| 0 <= i < |rows| && rows[i].claim == d;
        assert claims[i] in claims;
      }
      if d in Digests(earning) {
        var c :| c in earning && c.digest == d;
        var i :| 0 <= i < |claims| && claims[i] == c;
        assert rows[i].claim == d;
      }
    }
  }

  function Rows(credits: seq<FamilyCredit>): seq<Row> {
    seq(|credits|, i requires 0 <= i < |credits| => Row(credits[i].claim, credits[i].hotkey, credits[i].credit))
  }

  function Digests(claims: seq<Claim>): set<string> {
    set c | c in claims :: c.digest
  }

  // ----- arenas

  function Validated(call: Call, earning: seq<Claim>): seq<Claim> {
    if call.validated.Some? then call.validated.value else earning
  }

  predicate CarriesOver(call: Call, a: Authority, t: string, row: Claim)
    requires t in a.entries
  {
    var entry := a.entries[t];
    && row.arena != a.arena && row.target == t && t in a.sealedSpecs && row.spec == a.sealedSpecs[t]
    && (row.contribution == entry.digest
        || (row.contribution in call.refs
            && var o := call.refs[row.contribution];
               && o.target == entry.target && o.spec == entry.spec
               && o.artifact == entry.artifact && o.attribution == entry.attribution))
  }

  predicate SameStanding(h: Claim, claim: Claim) {
    && h.arena == claim.arena && h.target == claim.target && h.contribution == claim.contribution
    && h.hotkey == claim.hotkey && h.speedup == claim.speedup && h.spec == claim.spec
  }

  predicate Stands(a: Authority, t: string, claim: Claim, validated: set<Claim>)
    requires t in a.entries
  {
    && claim.arena == a.arena
    && t in a.sealedSpecs && claim.spec == a.sealedSpecs[t] && claim.spec == a.entries[t].spec
    && claim.contribution == a.entries[t].digest
    && exists h :: h in validated && SameStanding(h, claim)
  }

  /** Every active target has its standing claim, or a PASS carried over from another arena. */
  predicate TargetStands(call: Call, a: Authority, t: string, validated: set<Claim>)
    requires t in a.entries
  {
    if exists c :: c in a.standing && c.target == t
    then forall c :: c in a.standing && c.target == t ==> Stands(a, t, c, validated)
    else exists row :: row in validated && CarriesOver(call, a, t, row)
  }

  function StackOf(a: Authority): Stack {
    a.catalog.(active := a.entries.Keys)
  }

  predicate EachStands(call: Call, a: Authority, validated: set<Claim>) {
    forall t :: t in a.entries ==> TargetStands(call, a, t, validated)
  }

  predicate CrownsStand(call: Call, a: Authority, validated: set<Claim>) {
    var targets := TargetsOf(a.standing);
    && a.entries.Keys != {} && targets != {} && |targets| == |a.standing| && targets <= a.entries.Keys
    && EachStands(call, a, validated)
  }

  ghost predicate AuthorityOk(call: Call, a: Authority, validated: set<Claim>) {
    && Admissible(StackOf(a))
    && if call.terms.Some? && a.generation == 0 then a.standing == [] else CrownsStand(call, a, validated)
  }

  // ----- the loops over validated and standing claims

  type ClaimKey = (string, string, string)

  function KeyOf(c: Claim): ClaimKey {
    (c.arena, c.target, c.contribution)
  }

  /** `standing_index`: every claim under its key, and nothing else. */
  ghost predicate Indexed(index: map<ClaimKey, Claim>, claims: seq<Claim>) {
    && (forall c :: c in claims ==> KeyOf(c) in index && index[KeyOf(c)] == c)
    && forall k :: k in index ==> index[k] in claims && KeyOf(index[k]) == k
  }

  lemma IndexedSnoc(index: map<ClaimKey, Claim>, claims: seq<Claim>, c: Claim)
    requires Indexed(index, claims) && KeyOf(c) !in index
    ensures Indexed(index[KeyOf(c) := c], claims + [c])
  {
    assert forall x :: x in claims + [c] <==> x in claims || x == c;
  }

  lemma ReusedKey(claims: seq<Claim>, i: nat, j: nat)
    requires i < j < |claims| && KeyOf(claims[i]) == KeyOf(claims[j])
    ensures |ClaimKeysOf(claims)| != |claims|
  {
    assert ClaimKeysOf(claims) == Image(claims, KeyOf);
    if |Image(claims, KeyOf)| == |claims| { KeysDistinct(claims, KeyOf, i, j); }
  }

  lemma IndexedSize(index: map<ClaimKey, Claim>, claims: seq<Claim>)
    requires Indexed(index, claims) && |index| == |claims|
    ensures |ClaimKeysOf(claims)| == |claims|
  {
    forall k ensures k in index <==> k in ClaimKeysOf(claims) {
      if k in index { assert index[k] in claims; }
    }
    assert index.Keys == ClaimKeysOf(claims);
  }

  /** The index loop: refused exactly when a contribution is reused. */
  method IndexClaims(claims: seq<Claim>) returns (r: Option<map<ClaimKey, Claim>>)
    ensures r.Some? <==> |ClaimKeysOf(claims)| == |claims|
    ensures r.Some? ==> Indexed(r.value, claims)
  {
    var index: map<ClaimKey, Claim> := map[];
    for i := 0 to |claims|
      invariant Indexed(index, claims[..i]) && |index| == i
    {
      assert claims[..i + 1] == claims[..i] + [claims[i]];
      if KeyOf(claims[i]) in index {
        ghost var j :| 0 <= j < i && claims[j] == index[KeyOf(claims[i])];
        ReusedKey(claims, j, i);
        return None;
      }
      IndexedSnoc(index, claims[..i], claims[i]);
      index := index[KeyOf(claims[i]) := claims[i]];
    }
    assert claims[..|claims|] == claims;
    IndexedSize(index, claims);
    r := Some(index);
  }

  function TargetsOf(claims: seq<Claim>): set<string> {
    set c | c in claims :: c.target
  }

  /** `by_target`: one of the standing claims for every target they name. */
  ghost predicate Targeted(byTarget: map<string, Claim>, standing: seq<Claim>) {
    && byTarget.Keys == TargetsOf(standing)
    && forall t :: t in byTarget ==> byTarget[t] in standing && byTarget[t].target == t
  }

  method ByTarget(standing: seq<Claim>) returns (byTarget: map<string, Claim>)
    ensures Targeted(byTarget, standing)
  {
    byTarget := map[];
    for i := 0 to |standing|
      invariant Targeted(byTarget, standing[..i])
    {
      assert standing[..i + 1] == standing[..i] + [standing[i]];
      TargetedSnoc(byTarget, standing[..i], standing[i]);
      byTarget := byTarget[standing[i].target := standing[i]];
    }
    assert standing[..|standing|] == standing;
  }

  lemma TargetedSnoc(byTarget: map<string, Claim>, standing: seq<Claim>, c: Claim)
    requires Targeted(byTarget, standing)
    ensures Targeted(byTarget[c.target := c], standing + [c])
  {
    assert forall x :: x in standing + [c] <==> x in standing || x == c;
    assert TargetsOf(standing + [c]) == TargetsOf(standing) + {c.target};
  }

  /** With as many targets as claims, a target's claim is the only one. */
  lemma OnlyClaim(byTarget: map<string, Claim>, standing: seq<Claim>, c: Claim)
    requires Targeted(byTarget, standing) && |TargetsOf(standing)| == |standing| && c in standing
    ensures c.target in byTarget && byTarget[c.target] == c
  {
    var key := (x: Claim) => x.target;
    assert TargetsOf(standing) == Image(standing, key);
    var i :| 0 <= i < |standing| && standing[i] == c;
    var j :| 0 <= j < |standing| && standing[j] == byTarget[c.target];
    if i < j { KeysDistinct(standing, key, i, j); } else if j < i { KeysDistinct(standing, key, j, i); }
  }

  /** The search for a PASS carried over from another arena. */
  method AnyCarriesOver(call: Call, a: Authority, t: string, validated: seq<Claim>) returns (found: bool)
    requires t in a.entries
    ensures found <==> exists row :: row in validated && CarriesOver(call, a, t, row)
  {
    for i := 0 to |validated|
      invariant forall j :: 0 <= j < i ==> !CarriesOver(call, a, t, validated[j])
    {
      if CarriesOver(call, a, t, validated[i]) {
        return true;
      }
    }
    found := false;
  }

  lemma StandingIff(index: map<ClaimKey, Claim>, validated: seq<Claim>, claim: Claim)
    requires Indexed(index, validated)
    ensures (exists h :: h in Elements(validated) && SameStanding(h, claim)) <==>
      KeyOf(claim) in index && SameStanding(index[KeyOf(claim)], claim)
  {
    if h :| h in Elements(validated) && SameStanding(h, claim) { assert KeyOf(h) == KeyOf(claim); }
    if KeyOf(claim) in index { assert index[KeyOf(claim)] in Elements(validated); }
  }

  /** The checks on a standing claim, its PASS looked up in the index. */
  method CheckStanding(a: Authority, t: string, claim: Claim, index: map<ClaimKey, Claim>, ghost validated: seq<Claim>)
    returns (ok: bool)
    requires t in a.entries && Indexed(index, validated)
    ensures ok <==> Stands(a, t, claim, Elements(validated))
  {
    if claim.arena != a.arena || t !in a.sealedSpecs || claim.spec != a.sealedSpecs[t] ||
       claim.spec != a.entries[t].spec || claim.contribution != a.entries[t].digest {
      return false;
    }
    StandingIff(index, validated, claim);
    if KeyOf(claim) !in index {
      return false;
    }
    var history := index[KeyOf(claim)];
    ok := history.hotkey == claim.hotkey && history.speedup == claim.speedup && history.spec == claim.spec;
  }

  method CheckCrown(call: Call, a: Authority, t: string, byTarget: map<string, Claim>, validated: seq<Claim>,
                    index: map<ClaimKey, Claim>) returns (ok: bool)
    requires t in a.entries && Indexed(index, validated)
    requires Targeted(byTarget, a.standing) && |TargetsOf(a.standing)| == |a.standing|
    ensures ok <==> TargetStands(call, a, t, Elements(validated))
  {
    forall c | c in a.standing && c.target == t ensures t in byTarget && byTarget[t] == c {
      OnlyClaim(byTarget, a.standing, c);
    }
    if t in byTarget {
      ok := CheckStanding(a, t, byTarget[t], index, validated);
    } else {
      ok := AnyCarriesOver(call, a, t, validated);
      assert forall row :: row in validated <==> row in Elements(validated);
    }
  }

  /** The loop over an arena's active targets. */
  method CheckEach(call: Call, a: Authority, targets: seq<string>, byTarget: map<string, Claim>, validated: seq<Claim>,
                   index: map<ClaimKey, Claim>) returns (ok: bool)
    requires Elements(targets) == a.entries.Keys && Indexed(index, validated)
    requires Targeted(byTarget, a.standing) && |TargetsOf(a.standing)| == |a.standing|
    ensures ok <==> EachStands(call, a, Elements(validated))
  {
    assert forall i :: 0 <= i < |targets| ==> targets[i] in Elements(targets);
    for i := 0 to |targets|
      invariant forall j :: 0 <= j < i ==> TargetStands(call, a, targets[j], Elements(validated))
    {
      ok := CheckCrown(call, a, targets[i], byTarget, validated, index);
      if !ok {
        return;
      }
    }
    ok := true;
    forall t | t in a.entries ensures TargetStands(call, a, t, Elements(validated)) {
      assert t in Elements(targets);
      var j :| 0 <= j < |targets| && targets[j] == t;
    }
  }

  method CheckCrowns(call: Call, a: Authority, targets: seq<string>, validated: seq<Claim>, index: map<ClaimKey, Claim>)
    returns (ok: bool)
    requires Elements(targets) == a.entries.Keys && Indexed(index, validated)
    ensures ok <==> CrownsStand(call, a, Elements(validated))
  {
    var byTarget := ByTarget(a.standing);
    SomeTarget(targets, a.entries.Keys);
    assert |byTarget| == |byTarget.Keys|;
    if targets == [] || byTarget.Keys == {} || |byTarget| != |a.standing| || !(byTarget.Keys <= Elements(targets)) {
      return false;
    }
    ok := CheckEach(call, a, targets, byTarget, validated, index);
  }

  lemma SomeTarget(targets: seq<string>, active: set<string>)
    requires Elements(targets) == active
    ensures targets == [] <==> active == {}
  {
    if targets != [] { assert targets[0] in Elements(targets); }
  }

  method CheckAuthority(call: Call, a: Authority, validated: seq<Claim>, index: map<ClaimKey, Claim>) returns (ok: bool)
    requires Indexed(index, validated)
    ensures ok <==> AuthorityOk(call, a, Elements(validated))
  {
    var targets := ActiveRewardTargets(StackOf(a));
    if targets.None? {
      return false;
    }
    if call.terms.Some? && a.generation == 0 {
      ok := a.standing == [];
    } else {
      ok := CheckCrowns(call, a, targets.value, validated, index);
    }
  }

  // ----- the checks before any credit is computed

  function ClaimKeysOf(claims: seq<Claim>): set<ClaimKey> {
    set c | c in claims :: KeyOf(c)
  }

  function Arenas(arenas: seq<Authority>): set<string> {
    set a | a in arenas :: a.arena
  }

  predicate ClaimsDeclared(call: Call, earning: seq<Claim>) {
    && |Digests(earning)| == |earning|
    && Digests(earning) <= Digests(Validated(call, earning))
    && (call.scores.Some? ==> call.scores.value.Keys == Digests(earning))
    && (call.bonuses.Some? ==> call.terms.Some? && call.bonuses.value.Keys == Digests(earning))
    && call.starts.Keys <= Digests(earning)
  }

  /** Every earning claim is declared and validated, and no contribution is reused. */
  predicate ClaimsComplete(call: Call, earning: seq<Claim>) {
    ClaimsDeclared(call, earning) && |ClaimKeysOf(Validated(call, earning))| == |Validated(call, earning)|
  }

  predicate BountiesDistinct(discovery: seq<Bounty>) {
    && |set b | b in discovery :: b.proposal| == |discovery|
    && |set b | b in discovery :: b.evidence| == |discovery|
    && |set b | b in discovery :: b.digest| == |discovery|
  }

  ghost predicate InputsOk(call: Call, arenas: seq<Authority>, earning: seq<Claim>) {
    && arenas != [] && |Arenas(arenas)| == |arenas|
    && ClaimsComplete(call, earning)
    && forall a :: a in arenas ==> AuthorityOk(call, a, Elements(Validated(call, earning)))
  }

  // ----- pooling

  function Payee(call: Call, hotkey: string): string {
    if hotkey in call.eligible then hotkey else call.validator
  }

  /** `standing_by_hotkey` after the loop. */
  function Pooled(call: Call, credits: seq<FamilyCredit>): Credits {
    if credits == [] then map[]
    else
      var n := |credits| - 1;
      Plus(Pooled(call, credits[..n]), Payee(call, credits[n].hotkey), credits[n].credit as real)
  }

  predicate Live(call: Call, b: Bounty) {
    call.block - b.awarded < call.discoveryLifetime
  }

  function LiveBounties(call: Call, sorted: seq<Bounty>): seq<BountyCredit> {
    if sorted == [] then []
    else
      (if Live(call, sorted[0]) then [BountyCredit(sorted[0].digest, sorted[0].hotkey, sorted[0].units)] else [])
      + LiveBounties(call, sorted[1..])
  }

  function Expired(call: Call, sorted: seq<Bounty>): seq<string> {
    if sorted == [] then []
    else (if Live(call, sorted[0]) then [] else [sorted[0].digest]) + Expired(call, sorted[1..])
  }

  function PooledBounties(call: Call, live: seq<BountyCredit>): Credits {
    if live == [] then map[]
    else
      var n := |live| - 1;
      Plus(PooledBounties(call, live[..n]), Payee(call, live[n].hotkey), live[n].credit as real)
  }

  /** `arena_base_credits`: the same credit with no stall gap. */
  function BaseCredits(call: Call, earning: seq<Claim>): map<string, int> {
    map d | d in Digests(earning) :: BaseCredit(call, earning, d)
  }

  function BaseCredit(call: Call, earning: seq<Claim>, d: string): int {
    if earning == [] then 0
    else if earning[0].digest == d then UnstalledCredit(call, earning[0])
    else BaseCredit(call, earning[1..], d)
  }

  function OfferOf(call: Call, base: map<string, int>, credits: seq<FamilyCredit>): Offer {
    Offer(Rows(credits), if call.terms.Some? then call.terms.value else map[], base,
          call.eligible, call.validator, call.burn)
  }

  /** `combined[hotkey] = combined.get(hotkey, 0) + value` for every hotkey of the second pool. */
  function Merged(a: map<string, int>, b: map<string, int>): map<string, int> {
    map h | h in a.Keys + b.Keys :: WeightOf(a)(h) + WeightOf(b)(h)
  }

  function PositiveWeights(m: map<string, int>): map<string, int> {
    map h | h in m && m[h] > 0 :: m[h]
  }

  /** The standing pool, with the discovery pool merged in when a bounty is live. */
  ghost function PooledVector(
    standing: Credits, bounties: Credits, pool: PoolPpm, hasLive: bool): Option<map<string, int>>
  {
    if Positive(standing) == {} || (hasLive && pool == 0) then None
    else if !hasLive then Some(Allocation(standing, PPM))
    else Some(Merged(Allocation(standing, PPM - pool), Allocation(bounties, pool)))
  }

  ghost function ServedVector(x: Offer): Option<map<string, int>> {
    if Accepted(x) then Some(Weights(x)) else None
  }

  /** The vector, or nothing when the source raises. */
  ghost function Combined(
    call: Call, base: map<string, int>, credits: seq<FamilyCredit>, live: seq<BountyCredit>): Option<map<string, int>>
  {
    if call.terms.None? then
      PooledVector(Pooled(call, credits), PooledBounties(call, live), call.discoveryPool, live != [])
    else if live != [] then None
    else ServedVector(OfferOf(call, base, credits))
  }

  /** Every check that comes before the vector is computed. */
  ghost predicate Ready(call: Call, arenas: seq<Authority>, earning: seq<Claim>, discovery: seq<Bounty>) {
    && InputsOk(call, arenas, earning)
    && (forall c :: c in earning ==> ArgsOk(call, c))
    && BountiesDistinct(discovery) && (forall b :: b in discovery ==> b.awarded <= call.block)
  }

  ghost function Assembled(
    call: Call, authorities: seq<string>, base: map<string, int>, chained: Option<seq<FamilyCredit>>,
    bounties: seq<Bounty>): Option<Projected>
  {
    var live := LiveBounties(call, bounties);
    if chained.None? then None
    else
      var combined := Combined(call, base, chained.value, live);
      if combined.None? then None
      else Some(Projected(call.policy, call.context, authorities, Sort(FamilyLeq, chained.value), live,
                          Expired(call, bounties), PositiveWeights(combined.value)))
  }

  ghost function Project(
    call: Call, arenas: seq<Authority>, earning: seq<Claim>, discovery: seq<Bounty>): Option<Projected>
  {
    if Ready(call, arenas, earning, discovery)
    then Assembled(call, Sort(StrLeq, AuthorityDigests(Sort(ArenaLeq, arenas))), BaseCredits(call, earning),
                   Chain(call, SortedClaims(call, earning), map[]), Sort(BountyLeq, discovery))
    else None
  }

  // ----- every vector is normalized

  ghost predicate Normalized(weights: map<string, int>) {
    (forall h :: h in weights ==> weights[h] > 0) && SumInt(weights.Keys, WeightOf(weights)) == PPM
  }

  ghost predicate SumsTo(weights: map<string, int>, pool: int) {
    (forall h :: h in weights ==> weights[h] >= 0) && SumInt(weights.Keys, WeightOf(weights)) == pool
  }

  lemma MergedSum(a: map<string, int>, b: map<string, int>, m: int, n: int)
    requires SumsTo(a, m) && SumsTo(b, n)
    ensures SumsTo(Merged(a, b), m + n)
  {
    var keys, all := a.Keys + b.Keys, Merged(a, b);
    forall h | h in keys ensures WeightOf(all)(h) == WeightOf(a)(h) + WeightOf(b)(h) { assert h in all; }
    SumIntAdd(keys, WeightOf(a), WeightOf(b), WeightOf(all));
    SumIntSupport(keys, a.Keys, WeightOf(a));
    SumIntSupport(keys, b.Keys, WeightOf(b));
    assert all.Keys == keys;
  }

  lemma PositiveNormalized(m: map<string, int>)
    requires SumsTo(m, PPM)
    ensures Normalized(PositiveWeights(m))
  {
    var p := PositiveWeights(m);
    SumIntSupport(m.Keys, p.Keys, WeightOf(m));
    SumIntSame(p.Keys, WeightOf(p), WeightOf(m));
  }

  lemma AllocationSumsTo(credits: Credits, pool: nat)
    requires Positive(credits) != {}
    ensures SumsTo(Allocation(credits, pool), pool)
  {
    AllocationServed(credits, pool);
  }

  /** A live bounty has at least one unit, so its pool always has a taker. */
  lemma {:induction false} BountiesPayable(call: Call, live: seq<BountyCredit>)
    requires forall i :: 0 <= i < |live| ==> live[i].credit > 0
    ensures forall h :: h in PooledBounties(call, live) ==> PooledBounties(call, live)[h] > 0.0
    ensures live != [] ==> Positive(PooledBounties(call, live)) != {}
  {
    if live != [] {
      var n := |live| - 1;
      BountiesPayable(call, live[..n]);
      assert Payee(call, live[n].hotkey) in Positive(PooledBounties(call, live));
    }
  }

  lemma {:induction false} LiveUnits(call: Call, sorted: seq<Bounty>)
    ensures forall i :: 0 <= i < |LiveBounties(call, sorted)| ==> LiveBounties(call, sorted)[i].credit > 0
  {
    if sorted != [] { LiveUnits(call, sorted[1..]); }
  }

  lemma PooledSumsTo(standing: Credits, bounties: Credits, pool: PoolPpm, hasLive: bool)
    requires PooledVector(standing, bounties, pool, hasLive).Some? && (hasLive ==> Positive(bounties) != {})
    ensures SumsTo(PooledVector(standing, bounties, pool, hasLive).value, PPM)
  {
    if hasLive {
      AllocationSumsTo(standing, PPM - pool);
      AllocationSumsTo(bounties, pool);
      MergedSum(Allocation(standing, PPM - pool), Allocation(bounties, pool), PPM - pool, pool);
    } else {
      AllocationSumsTo(standing, PPM);
    }
  }

  lemma CombinedSumsTo(call: Call, base: map<string, int>, credits: seq<FamilyCredit>, live: seq<BountyCredit>)
    requires Combined(call, base, credits, live).Some?
    requires forall i :: 0 <= i < |live| ==> live[i].credit > 0
    ensures SumsTo(Combined(call, base, credits, live).value, PPM)
  {
    if call.terms.None? {
      BountiesPayable(call, live);
      PooledSumsTo(Pooled(call, credits), PooledBounties(call, live), call.discoveryPool, live != []);
    } else {
      WeightsExact(OfferOf(call, base, credits));
    }
  }

  /** Whatever is projected passes the constructor's normalization check. */
  lemma ProjectNormalized(call: Call, arenas: seq<Authority>, earning: seq<Claim>, discovery: seq<Bounty>)
    requires Project(call, arenas, earning, discovery).Some?
    ensures Normalized(Project(call, arenas, earning, discovery).value.weights)
  {
    var live := LiveBounties(call, Sort(BountyLeq, discovery));
    var chained := Chain(call, SortedClaims(call, earning), map[]);
    LiveUnits(call, Sort(BountyLeq, discovery));
    var base := BaseCredits(call, earning);
    CombinedSumsTo(call, base, chained.value, live);
    PositiveNormalized(Combined(call, base, chained.value, live).value);
  }

  // ----- the projection ignores the order of its inputs

  lemma ClaimsPermute(call: Call, s: seq<Claim>, t: seq<Claim>)
    requires multiset(s) == multiset(t) && |Digests(s)| == |s|
    ensures SortedClaims(call, s) == SortedClaims(call, t)
  {
    var key := (c: Claim) => c.digest;
    assert Image(s, key) == Digests(s);
    forall a, b | a in s && b in s && ClaimLeq(call.clocks, a, b) && ClaimLeq(call.clocks, b, a)
      ensures key(a) == key(b)
    {
      var ka, kb := ClockOf(call.clocks, a), ClockOf(call.clocks, b);
      if StrLess(ka, kb) && StrLess(kb, ka) { StrAntisymmetric(ka, kb); }
      if StrLeq(a.digest, b.digest) && StrLeq(b.digest, a.digest) { StrAntisymmetric(a.digest, b.digest); }
    }
    KeyedDistinguish(ByClock(call.clocks), s, key);
    ClockOrder(call.clocks);
    SortPermutation(ByClock(call.clocks), s, t);
  }

  lemma BountiesPermute(s: seq<Bounty>, t: seq<Bounty>)
    requires multiset(s) == multiset(t) && BountiesDistinct(s)
    ensures Sort(BountyLeq, s) == Sort(BountyLeq, t)
  {
    var key := (b: Bounty) => b.digest;
    assert Image(s, key) == set b | b in s :: b.digest;
    forall a, b | a in s && b in s && BountyLeq(a, b) && BountyLeq(b, a) ensures key(a) == key(b) {
      StrAntisymmetric(a.digest, b.digest);
    }
    KeyedDistinguish(BountyLeq, s, key);
    BountyOrder();
    SortPermutation(BountyLeq, s, t);
  }

  function AuthorityDigests(arenas: seq<Authority>): seq<string> {
    seq(|arenas|, i requires 0 <= i < |arenas| => arenas[i].digest)
  }

  lemma AuthoritiesPermute(s: seq<Authority>, t: seq<Authority>)
    requires multiset(s) == multiset(t) && |Arenas(s)| == |s|
    ensures Sort(ArenaLeq, s) == Sort(ArenaLeq, t)
  {
    var key := (a: Authority) => a.arena;
    assert Image(s, key) == Arenas(s);
    forall a, b | a in s && b in s && ArenaLeq(a, b) && ArenaLeq(b, a) ensures key(a) == key(b) {
      StrAntisymmetric(a.arena, b.arena);
    }
    KeyedDistinguish(ArenaLeq, s, key);
    ArenaOrder();
    SortPermutation(ArenaLeq, s, t);
  }

  lemma InputsPermute(
    call: Call, arenas: seq<Authority>, arenas': seq<Authority>, earning: seq<Claim>, earning': seq<Claim>)
    requires multiset(arenas) == multiset(arenas') && multiset(earning) == multiset(earning')
    ensures InputsOk(call, arenas, earning) <==> InputsOk(call, arenas', earning')
  {
    SameElements(arenas, arenas');
    SameElements(earning, earning');
    SameElements(Validated(call, earning), Validated(call, earning'));
    assert Arenas(arenas) == Arenas(arenas');
    assert Digests(earning) == Digests(earning');
    assert Digests(Validated(call, earning)) == Digests(Validated(call, earning'));
    assert ClaimKeysOf(Validated(call, earning)) == ClaimKeysOf(Validated(call, earning'));
  }

  lemma BountiesDistinctPermute(s: seq<Bounty>, t: seq<Bounty>)
    requires multiset(s) == multiset(t)
    ensures BountiesDistinct(s) <==> BountiesDistinct(t)
    ensures forall b :: b in s <==> b in t
  {
    SameElements(s, t);
    assert (set b | b in s :: b.proposal) == (set b | b in t :: b.proposal);
    assert (set b | b in s :: b.evidence) == (set b | b in t :: b.evidence);
    assert (set b | b in s :: b.digest) == (set b | b in t :: b.digest);
  }

  function UnstalledCredit(call: Call, c: Claim): int {
    var credit := CreditAt(call, c, c.crowned, PPM);
    if credit.Some? then credit.value else 0
  }

  lemma {:induction false} BaseCreditOf(call: Call, earning: seq<Claim>, c: Claim)
    requires c in earning && forall a, b :: a in earning && b in earning && a.digest == b.digest ==> a == b
    ensures BaseCredit(call, earning, c.digest) == UnstalledCredit(call, c)
  {
    if earning[0].digest != c.digest {
      assert earning == [earning[0]] + earning[1..];
      BaseCreditOf(call, earning[1..], c);
    }
  }

  lemma DigestsSeparate(earning: seq<Claim>)
    requires |Digests(earning)| == |earning|
    ensures forall a, b :: a in earning && b in earning && a.digest == b.digest ==> a == b
  {
    var key := (c: Claim) => c.digest;
    assert Image(earning, key) == Digests(earning);
    KeyedDistinguish((a: Claim, b: Claim) => a.digest == b.digest, earning, key);
  }

  lemma BaseCreditsPermute(call: Call, s: seq<Claim>, t: seq<Claim>)
    requires multiset(s) == multiset(t) && |Digests(s)| == |s|
    ensures BaseCredits(call, s) == BaseCredits(call, t)
  {
    SameElements(s, t);
    assert Digests(s) == Digests(t);
    DigestsSeparate(s);
    forall d | d in Digests(s) ensures BaseCredit(call, s, d) == BaseCredit(call, t, d) {
      var c :| c in s && c.digest == d;
      BaseCreditOf(call, s, c);
      BaseCreditOf(call, t, c);
    }
  }

  /** Permuting arenas, earning claims or discovery claims gives the same projection, or the same refusal. */
  lemma ProjectPermutation(call: Call, arenas: seq<Authority>, arenas': seq<Authority>,
                           earning: seq<Claim>, earning': seq<Claim>, discovery: seq<Bounty>, discovery': seq<Bounty>)
    requires multiset(arenas) == multiset(arenas') && multiset(earning) == multiset(earning')
    requires multiset(discovery) == multiset(discovery')
    ensures Project(call, arenas, earning, discovery) == Project(call, arenas', earning', discovery')
  {
    InputsPermute(call, arenas, arenas', earning, earning');
    SameElements(earning, earning');
    BountiesDistinctPermute(discovery, discovery');
    if InputsOk(call, arenas, earning) && BountiesDistinct(discovery) {
      ClaimsPermute(call, earning, earning');
      BaseCreditsPermute(call, earning, earning');
      BountiesPermute(discovery, discovery');
      AuthoritiesPermute(arenas, arenas');
    }
  }

  // ----- the loops of `project_global_rewards`

  method CheckSorted(call: Call, sorted: seq<Authority>, validated: seq<Claim>, index: map<ClaimKey, Claim>)
    returns (ok: bool)
    requires Indexed(index, validated)
    ensures ok <==> forall a :: a in sorted ==> AuthorityOk(call, a, Elements(validated))
  {
    for i := 0 to |sorted|
      invariant forall j :: 0 <= j < i ==> AuthorityOk(call, sorted[j], Elements(validated))
    {
      var fine := CheckAuthority(call, sorted[i], validated, index);
      if !fine {
        return false;
      }
    }
    ok := true;
  }

  method CheckAuthorities(call: Call, arenas: seq<Authority>, earning: seq<Claim>) returns (ok: bool)
    ensures ok <==> InputsOk(call, arenas, earning)
  {
    if arenas == [] || |Arenas(arenas)| != |arenas| || !ClaimsDeclared(call, earning) {
      return false;
    }
    var index := IndexClaims(Validated(call, earning));
    if index.None? {
      return false;
    }
    SortContents(ArenaLeq, arenas);
    SameElements(Sort(ArenaLeq, arenas), arenas);
    ok := CheckSorted(call, Sort(ArenaLeq, arenas), Validated(call, earning), index.value);
  }

  function Prepend<T>(head: seq<T>, rest: Option<seq<T>>): Option<seq<T>> {
    if rest.None? then None else Some(head + rest.value)
  }

  lemma ChainStep(call: Call, claims: seq<Claim>, i: nat, previous: map<string, nat>, credits: seq<FamilyCredit>)
    requires i < |claims|
    requires Chain(call, claims, map[]) == Prepend(credits, Chain(call, claims[i..], previous))
    ensures var c := claims[i];
      var credit := CreditAt(call, c, Predecessor(call.clocks, previous, c), BonusOf(call, c));
      if credit.None? then Chain(call, claims, map[]).None?
      else Chain(call, claims, map[]) == Prepend(
        credits + [CreditRow(call, c, credit.value)],
        Chain(call, claims[i + 1..], previous[ClockOf(call.clocks, c) := c.crowned]))
  {
    var c := claims[i];
    assert claims[i..][0] == c && claims[i..][1..] == claims[i + 1..];
    var credit := CreditAt(call, c, Predecessor(call.clocks, previous, c), BonusOf(call, c));
    var rest := Chain(call, claims[i + 1..], previous[ClockOf(call.clocks, c) := c.crowned]);
    if credit.Some? && rest.Some? {
      var row := CreditRow(call, c, credit.value);
      assert credits + ([row] + rest.value) == (credits + [row]) + rest.value;
    }
  }

  /** The claim loop: clocks, credits and hotkey sums together. */
  method ChainCredits(call: Call, claims: seq<Claim>) returns (chained: Option<seq<FamilyCredit>>, standing: Credits)
    ensures chained == Chain(call, claims, map[])
    ensures chained.Some? ==> standing == Pooled(call, chained.value)
  {
    var credits: seq<FamilyCredit>, previous: map<string, nat> := [], map[];
    standing := map[];
    assert claims[0..] == claims &&
      (Chain(call, claims, map[]).Some? ==> [] + Chain(call, claims, map[]).value == Chain(call, claims, map[]).value);
    for i := 0 to |claims|
      invariant Chain(call, claims, map[]) == Prepend(credits, Chain(call, claims[i..], previous))
      invariant standing == Pooled(call, credits)
    {
      var c := claims[i];
      ChainStep(call, claims, i, previous, credits);
      var credit := CreditAt(call, c, Predecessor(call.clocks, previous, c), BonusOf(call, c));
      if credit.None? {
        return None, standing;
      }
      previous := previous[ClockOf(call.clocks, c) := c.crowned];
      var row := CreditRow(call, c, credit.value);
      assert (credits + [row])[..|credits|] == credits;
      credits := credits + [row];
      standing := Plus(standing, Payee(call, c.hotkey), credit.value as real);
    }
    chained := Some(credits);
    assert claims[|claims|..] == [] && credits + [] == credits;
  }

  lemma BountyStep(call: Call, sorted: seq<Bounty>, i: nat)
    requires i < |sorted|
    ensures LiveBounties(call, sorted[i..]) ==
      (if Live(call, sorted[i]) then [BountyCredit(sorted[i].digest, sorted[i].hotkey, sorted[i].units)] else []) +
        LiveBounties(call, sorted[i + 1..])
    ensures Expired(call, sorted[i..]) ==
      (if Live(call, sorted[i]) then [] else [sorted[i].digest]) + Expired(call, sorted[i + 1..])
  {
    assert sorted[i..][0] == sorted[i] && sorted[i..][1..] == sorted[i + 1..];
  }

  /** The bounties already split off, in front of those still to come. */
  ghost predicate Splitting(call: Call, sorted: seq<Bounty>, i: nat, live: seq<BountyCredit>, expired: seq<string>)
    requires i <= |sorted|
  {
    && LiveBounties(call, sorted) == live + LiveBounties(call, sorted[i..])
    && Expired(call, sorted) == expired + Expired(call, sorted[i..])
  }

  lemma SplittingStep(call: Call, sorted: seq<Bounty>, i: nat, live: seq<BountyCredit>, expired: seq<string>)
    requires i < |sorted| && Splitting(call, sorted, i, live, expired)
    ensures var b := sorted[i];
      if Live(call, b) then Splitting(call, sorted, i + 1, live + [BountyCredit(b.digest, b.hotkey, b.units)], expired)
      else Splitting(call, sorted, i + 1, live, expired + [b.digest])
  {
    BountyStep(call, sorted, i);
  }

  /** One bounty: live, with its units added to its hotkey, or expired. */
  method SplitOne(
    call: Call, ghost sorted: seq<Bounty>, ghost i: nat, b: Bounty, live0: seq<BountyCredit>, expired0: seq<string>,
    credits0: Credits)
    returns (live: seq<BountyCredit>, expired: seq<string>, credits: Credits)
    requires i < |sorted| && b == sorted[i] && Splitting(call, sorted, i, live0, expired0) &&
      credits0 == PooledBounties(call, live0)
    ensures Splitting(call, sorted, i + 1, live, expired) && credits == PooledBounties(call, live)
  {
    live, expired, credits := live0, expired0, credits0;
    SplittingStep(call, sorted, i, live, expired);
    if Live(call, b) {
      var row := BountyCredit(b.digest, b.hotkey, b.units);
      assert (live + [row])[..|live|] == live;
      live := live + [row];
      credits := Plus(credits, Payee(call, b.hotkey), b.units as real);
    } else {
      expired := expired + [b.digest];
    }
  }

  lemma SplitAll(call: Call, sorted: seq<Bounty>, live: seq<BountyCredit>, expired: seq<string>)
    requires Splitting(call, sorted, |sorted|, live, expired)
    ensures live == LiveBounties(call, sorted) && expired == Expired(call, sorted)
  {
    assert sorted[|sorted|..] == [] && live + [] == live && expired + [] == expired;
  }

  lemma SplitNone(call: Call, sorted: seq<Bounty>)
    ensures Splitting(call, sorted, 0, [], [])
  {
    assert sorted[0..] == sorted;
  }

  /** The discovery loop: live bounties, their hotkey sums, and the expired digests. */
  method SplitBounties(call: Call, sorted: seq<Bounty>)
    returns (ok: bool, live: seq<BountyCredit>, expired: seq<string>, credits: Credits)
    ensures ok <==> forall b :: b in sorted ==> b.awarded <= call.block
    ensures ok ==> live == LiveBounties(call, sorted) && expired == Expired(call, sorted)
    ensures ok ==> credits == PooledBounties(call, live)
  {
    live, expired, credits := [], [], map[];
    SplitNone(call, sorted);
    for i := 0 to |sorted|
      invariant forall j :: 0 <= j < i ==> sorted[j].awarded <= call.block
      invariant Splitting(call, sorted, i, live, expired) && credits == PooledBounties(call, live)
    {
      if call.block < sorted[i].awarded {
        return false, live, expired, credits;
      }
      live, expired, credits := SplitOne(call, sorted, i, sorted[i], live, expired, credits);
    }
    SplitAll(call, sorted, live, expired);
    ok := true;
  }

  method MergeInto(a: map<string, int>, b: map<string, int>) returns (m: map<string, int>)
    ensures m == Merged(a, b)
  {
    m := a;
    var todo := b.Keys;
    while todo != {}
      invariant todo <= b.Keys && m.Keys == a.Keys + (b.Keys - todo)
      invariant forall h :: h in m ==> m[h] == WeightOf(a)(h) + if h in b && h !in todo then b[h] else 0
      decreases todo
    {
      var h :| h in todo;
      Shift(b.Keys, todo, h);
      m := m[h := WeightOf(m)(h) + b[h]];
      todo := todo - {h};
    }
    assert b.Keys - todo == b.Keys;
  }

  /** Standing and discovery pools, when there are no submission terms. */
  method CombinePools(standing: Credits, bounties: Credits, pool: PoolPpm, hasLive: bool)
    returns (r: Option<map<string, int>>)
    requires hasLive ==> Positive(bounties) != {}
    ensures r == PooledVector(standing, bounties, pool, hasLive)
  {
    if !hasLive {
      r := AllocatePool(standing, PPM);
      return;
    }
    if pool == 0 {
      return None;
    }
    r := SplitPools(standing, bounties, pool);
  }

  method SplitPools(standing: Credits, bounties: Credits, pool: nat) returns (r: Option<map<string, int>>)
    requires Positive(bounties) != {} && pool <= PPM
    ensures r == if Positive(standing) == {} then None
                 else Some(Merged(Allocation(standing, PPM - pool), Allocation(bounties, pool)))
  {
    var vector := AllocatePool(standing, PPM - pool);
    if vector.None? {
      return None;
    }
    var extra := AllocatePool(bounties, pool);
    var merged := MergeInto(vector.value, extra.value);
    r := Some(merged);
  }

  method ServeTerms(x: Offer) returns (r: Option<map<string, int>>)
    ensures r == ServedVector(x)
  {
    var served := AllocateSubmissionWeights(x);
    r := if served.None? then None else Some(served.value.0);
  }

  method CombineVector(call: Call, base: map<string, int>, credits: seq<FamilyCredit>, standing: Credits,
                       live: seq<BountyCredit>, bounties: Credits) returns (r: Option<map<string, int>>)
    requires standing == Pooled(call, credits) && bounties == PooledBounties(call, live)
    requires forall i :: 0 <= i < |live| ==> live[i].credit > 0
    ensures r == Combined(call, base, credits, live)
  {
    if call.terms.None? {
      BountiesPayable(call, live);
      r := CombinePools(standing, bounties, call.discoveryPool, live != []);
    } else if live != [] {
      r := None;
    } else {
      r := ServeTerms(OfferOf(call, base, credits));
    }
  }

  lemma SortedBounties(discovery: seq<Bounty>)
    ensures forall b :: b in Sort(BountyLeq, discovery) <==> b in discovery
  {
    forall b ensures b in Sort(BountyLeq, discovery) <==> b in discovery { SortElements(BountyLeq, discovery, b); }
  }

  /** The whole call computes exactly the projection, whatever order its inputs come in. */
  method ProjectGlobalRewards(call: Call, arenas: seq<Authority>, earning: seq<Claim>, discovery: seq<Bounty>)
      returns (r: Option<Projected>)
    ensures r == Project(call, arenas, earning, discovery)
    ensures r.Some? ==> Normalized(r.value.weights)
  {
    var ok := CheckAuthorities(call, arenas, earning);
    if !ok || !BountiesDistinct(discovery) {
      return None;
    }
    ChainTotal(call, earning);
    var chained, standing := ChainCredits(call, SortedClaims(call, earning));
    var sorted := Sort(BountyLeq, discovery);
    SortedBounties(discovery);
    var fine, live, expired, bounties := SplitBounties(call, sorted);
    if chained.None? || !fine {
      return None;
    }
    LiveUnits(call, sorted);
    var vector := CombineVector(call, BaseCredits(call, earning), chained.value, standing, live, bounties);
    if vector.None? {
      return None;
    }
    r := Some(Projected(call.policy, call.context, Sort(StrLeq, AuthorityDigests(Sort(ArenaLeq, arenas))),
                        Sort(FamilyLeq, chained.value), live, expired, PositiveWeights(vector.value)));
    ProjectNormalized(call, arenas, earning, discovery);
  }
}
