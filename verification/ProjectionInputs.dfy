/** What a reward projection demands of its authorities and claims, row by row (`cacheon/economics.py`). */
module ProjectionInputs {
  import opened Wrappers
  import opened Orders
  import opened Projection
  import RewardTargets

  // ----- distinct keys

  lemma KeysDistinctIff<T, K>(s: seq<T>, key: T -> K)
    ensures |Image(s, key)| == |s| <==> forall i, j :: 0 <= i < j < |s| ==> key(s[i]) != key(s[j])
  {
    var keys := seq(|s|, i requires 0 <= i < |s| => key(s[i]));
    assert Image(s, key) == Elements(keys) by {
      forall x | x in s ensures key(x) in keys {
        var i :| 0 <= i < |s| && s[i] == x;
        assert keys[i] == key(x);
      }
    }
    SizeDistinct(keys);
    if forall i, j :: 0 <= i < j < |s| ==> key(s[i]) != key(s[j]) { DistinctSize(keys); }
    if Distinct(keys) {
      forall i, j | 0 <= i < j < |s| ensures key(s[i]) != key(s[j]) { assert keys[i] != keys[j]; }
    }
  }

  // ----- claims

  /** No two validated claims are of one arena, target and contribution. */
  ghost predicate NotReused(validated: seq<Claim>) {
    forall i, j :: 0 <= i < j < |validated| ==>
      (validated[i].arena, validated[i].target, validated[i].contribution) !=
      (validated[j].arena, validated[j].target, validated[j].contribution)
  }

  /** The maps name earning claims: scores and bonuses all of them, decay starts some. */
  ghost predicate MapsComplete(call: Call, earning: seq<Claim>) {
    && (call.scores.Some? ==>
          forall d :: d in call.scores.value <==> exists c :: c in earning && c.digest == d)
    && (call.bonuses.Some? ==> call.terms.Some?)
    && (call.bonuses.Some? ==>
          forall d :: d in call.bonuses.value <==> exists c :: c in earning && c.digest == d)
    && forall d :: d in call.starts ==> exists c :: c in earning && c.digest == d
  }

  /** The PASSes a call validates against; older callers use what they earn from. */
  ghost predicate ValidatedAs(call: Call, earning: seq<Claim>, validated: seq<Claim>) {
    match call.validated
    case Some(given) => validated == given
    case None => validated == earning
  }

  ghost predicate NotRepeated(earning: seq<Claim>) {
    forall i, j :: 0 <= i < j < |earning| ==> earning[i].digest != earning[j].digest
  }

  /** Every earning claim is among the validated PASSes. */
  ghost predicate AllPassed(earning: seq<Claim>, validated: seq<Claim>) {
    forall c :: c in earning ==> exists v :: v in validated && v.digest == c.digest
  }

  ghost predicate ClaimsAccepted(call: Call, earning: seq<Claim>, validated: seq<Claim>) {
    && NotRepeated(earning) && AllPassed(earning, validated)
    && MapsComplete(call, earning) && NotReused(validated)
  }

  lemma NamesIff(earning: seq<Claim>, names: set<string>)
    ensures names == Digests(earning) <==> forall d :: d in names <==> exists c :: c in earning && c.digest == d
    ensures names <= Digests(earning) <==> forall d :: d in names ==> exists c :: c in earning && c.digest == d
  {
  }

  lemma MapsIff(call: Call, earning: seq<Claim>)
    ensures MapsComplete(call, earning) <==>
      && (call.scores.Some? ==> call.scores.value.Keys == Digests(earning))
      && (call.bonuses.Some? ==> call.terms.Some? && call.bonuses.value.Keys == Digests(earning))
      && call.starts.Keys <= Digests(earning)
  {
    if call.scores.Some? { NamesIff(earning, call.scores.value.Keys); }
    if call.bonuses.Some? { NamesIff(earning, call.bonuses.value.Keys); }
    NamesIff(earning, call.starts.Keys);
  }

  lemma ValidatedIff(earning: seq<Claim>, validated: seq<Claim>)
    ensures Digests(earning) <= Digests(validated) <==> AllPassed(earning, validated)
  {
    if Digests(earning) <= Digests(validated) {
      forall c | c in earning ensures exists v :: v in validated && v.digest == c.digest {
        assert c.digest in Digests(earning);
      }
    }
  }

  lemma RepeatedIff(earning: seq<Claim>)
    ensures |Digests(earning)| == |earning| <==> NotRepeated(earning)
  {
    var digest := (c: Claim) => c.digest;
    assert Image(earning, digest) == Digests(earning);
    KeysDistinctIff(earning, digest);
  }

  lemma ReusedIff(validated: seq<Claim>)
    ensures |ClaimKeysOf(validated)| == |validated| <==> NotReused(validated)
  {
    var key := (c: Claim) => KeyOf(c);
    assert Image(validated, key) == ClaimKeysOf(validated);
    KeysDistinctIff(validated, key);
  }

  lemma ClaimsIff(call: Call, earning: seq<Claim>, validated: seq<Claim>)
    requires ValidatedAs(call, earning, validated)
    ensures Validated(call, earning) == validated
    ensures ClaimsComplete(call, earning) <==> ClaimsAccepted(call, earning, validated)
  {
    RepeatedIff(earning);
    ReusedIff(validated);
    MapsIff(call, earning);
    ValidatedIff(earning, validated);
  }

  // ----- authorities

  /** A PASS of the same arena, target, contribution, hotkey, speedup and specification. */
  ghost predicate Backed(c: Claim, validated: seq<Claim>) {
    exists v :: v in validated && BackedBy(c, v)
  }

  ghost predicate BackedBy(c: Claim, v: Claim) {
    && v.arena == c.arena && v.target == c.target && v.contribution == c.contribution
    && v.hotkey == c.hotkey && v.speedup == c.speedup && v.spec == c.spec
  }

  /** The crown of the target: this arena's, of the sealed specification and the active contribution, with its PASS. */
  ghost predicate Crowns(a: Authority, t: string, c: Claim, validated: seq<Claim>)
    requires t in a.entries
  {
    && c.target == t && c.arena == a.arena && c.contribution == a.entries[t].digest
    && t in a.sealedSpecs && c.spec == a.sealedSpecs[t] == a.entries[t].spec && Backed(c, validated)
  }

  /** The same source: the active contribution itself, or a rebuild of it. */
  ghost predicate SameSource(call: Call, contribution: string, entry: Contribution) {
    contribution == entry.digest ||
    (contribution in call.refs && SameOrigin(call.refs[contribution], entry))
  }

  ghost predicate SameOrigin(o: Contribution, entry: Contribution) {
    && o.target == entry.target && o.spec == entry.spec
    && o.artifact == entry.artifact && o.attribution == entry.attribution
  }

  /** The commissioned incumbent: a PASS of another arena for the target, its sealed specification and source. */
  ghost predicate Carried(call: Call, a: Authority, t: string, validated: seq<Claim>)
    requires t in a.entries
  {
    exists v :: v in validated && CarriedBy(call, a, t, v)
  }

  ghost predicate CarriedBy(call: Call, a: Authority, t: string, v: Claim)
    requires t in a.entries
  {
    && v.arena != a.arena && v.target == t && t in a.sealedSpecs && v.spec == a.sealedSpecs[t]
    && SameSource(call, v.contribution, a.entries[t])
  }

  /** Every active target has one crown, or none and a carried incumbent; there is a crown, and none is elsewhere. */
  ghost predicate CrownsHold(call: Call, a: Authority, validated: seq<Claim>) {
    && a.standing != []
    && (forall i, j :: 0 <= i < j < |a.standing| ==> a.standing[i].target != a.standing[j].target)
    && (forall c :: c in a.standing ==> c.target in a.entries && Crowns(a, c.target, c, validated))
    && forall t :: t in a.entries ==> (exists c :: c in a.standing && c.target == t) || Carried(call, a, t, validated)
  }

  /** The stack is admissible; an uncrowned arena under submission terms has no crowns, any other holds them. */
  ghost predicate AuthorityAccepted(call: Call, a: Authority, validated: seq<Claim>) {
    && RewardTargets.Admissible(a.catalog.(active := a.entries.Keys))
    && if call.terms.Some? && a.generation == 0 then a.standing == [] else CrownsHold(call, a, validated)
  }

  lemma StandsIff(a: Authority, t: string, c: Claim, validated: seq<Claim>)
    requires t in a.entries && c.target == t
    ensures Stands(a, t, c, Elements(validated)) <==> Crowns(a, t, c, validated)
  {
    if v :| v in validated && BackedBy(c, v) { assert v in Elements(validated) && SameStanding(v, c); }
    if h :| h in Elements(validated) && SameStanding(h, c) { assert h in validated && BackedBy(c, h); }
  }

  lemma CarriesIff(call: Call, a: Authority, t: string, validated: seq<Claim>)
    requires t in a.entries
    ensures Carried(call, a, t, validated) <==>
      exists row :: row in Elements(validated) && CarriesOver(call, a, t, row)
  {
    if row :| row in Elements(validated) && CarriesOver(call, a, t, row) { assert CarriedBy(call, a, t, row); }
    if v :| v in validated && CarriedBy(call, a, t, v) {
      assert v in Elements(validated) && CarriesOver(call, a, t, v);
    }
  }

  lemma TargetIff(call: Call, a: Authority, t: string, validated: seq<Claim>)
    requires t in a.entries
    ensures TargetStands(call, a, t, Elements(validated)) <==>
      && (forall c :: c in a.standing && c.target == t ==> Crowns(a, t, c, validated))
      && ((exists c :: c in a.standing && c.target == t) || Carried(call, a, t, validated))
  {
    CarriesIff(call, a, t, validated);
    forall c | c in a.standing && c.target == t
      ensures Stands(a, t, c, Elements(validated)) <==> Crowns(a, t, c, validated)
    {
      StandsIff(a, t, c, validated);
    }
  }

  lemma TargetsIff(standing: seq<Claim>, active: set<string>)
    ensures TargetsOf(standing) != {} <==> standing != []
    ensures TargetsOf(standing) <= active <==> forall c :: c in standing ==> c.target in active
    ensures |TargetsOf(standing)| == |standing| <==>
      forall i, j :: 0 <= i < j < |standing| ==> standing[i].target != standing[j].target
  {
    var target := (c: Claim) => c.target;
    assert Image(standing, target) == TargetsOf(standing);
    KeysDistinctIff(standing, target);
    if standing != [] { assert standing[0].target in TargetsOf(standing); }
    if TargetsOf(standing) <= active {
      forall c | c in standing ensures c.target in active { assert c.target in TargetsOf(standing); }
    }
  }

  ghost predicate EachHolds(call: Call, a: Authority, validated: seq<Claim>) {
    forall t :: t in a.entries ==>
      && (forall c :: c in a.standing && c.target == t ==> Crowns(a, t, c, validated))
      && ((exists c :: c in a.standing && c.target == t) || Carried(call, a, t, validated))
  }

  lemma EachIff(call: Call, a: Authority, validated: seq<Claim>)
    ensures EachStands(call, a, Elements(validated)) <==> EachHolds(call, a, validated)
  {
    forall t | t in a.entries
      ensures TargetStands(call, a, t, Elements(validated)) <==>
        && (forall c :: c in a.standing && c.target == t ==> Crowns(a, t, c, validated))
        && ((exists c :: c in a.standing && c.target == t) || Carried(call, a, t, validated))
    {
      TargetIff(call, a, t, validated);
    }
  }

  lemma CrownsIff(call: Call, a: Authority, validated: seq<Claim>)
    ensures CrownsStand(call, a, Elements(validated)) <==> CrownsHold(call, a, validated)
  {
    TargetsIff(a.standing, a.entries.Keys);
    EachIff(call, a, validated);
    if a.standing != [] { assert a.standing[0] in a.standing; }
  }

  lemma AuthorityIff(call: Call, a: Authority, validated: seq<Claim>)
    ensures AuthorityOk(call, a, Elements(validated)) <==> AuthorityAccepted(call, a, validated)
  {
    CrownsIff(call, a, validated);
  }

  /** The inputs are accepted exactly when the arenas differ and every claim and authority holds up. */
  lemma InputsMeaning(call: Call, arenas: seq<Authority>, earning: seq<Claim>, validated: seq<Claim>)
    requires ValidatedAs(call, earning, validated)
    ensures InputsOk(call, arenas, earning) <==>
      && arenas != [] && (forall i, j :: 0 <= i < j < |arenas| ==> arenas[i].arena != arenas[j].arena)
      && ClaimsAccepted(call, earning, validated)
      && forall a :: a in arenas ==> AuthorityAccepted(call, a, validated)
  {
    var arena := (a: Authority) => a.arena;
    assert Image(arenas, arena) == Arenas(arenas);
    KeysDistinctIff(arenas, arena);
    ClaimsIff(call, earning, validated);
    forall a | a in arenas
      ensures AuthorityOk(call, a, Elements(validated)) <==> AuthorityAccepted(call, a, validated)
    {
      AuthorityIff(call, a, validated);
    }
  }

  /** Bounties differ in proposal, evidence and digest. */
  lemma BountiesMeaning(discovery: seq<Bounty>)
    ensures BountiesDistinct(discovery) <==>
      forall i, j :: 0 <= i < j < |discovery| ==>
        && discovery[i].proposal != discovery[j].proposal && discovery[i].evidence != discovery[j].evidence
        && discovery[i].digest != discovery[j].digest
  {
    var proposal, evidence, digest := (b: Bounty) => b.proposal, (b: Bounty) => b.evidence, (b: Bounty) => b.digest;
    assert Image(discovery, proposal) == set b | b in discovery :: b.proposal;
    assert Image(discovery, evidence) == set b | b in discovery :: b.evidence;
    assert Image(discovery, digest) == set b | b in discovery :: b.digest;
    KeysDistinctIff(discovery, proposal);
    KeysDistinctIff(discovery, evidence);
    KeysDistinctIff(discovery, digest);
  }
}
