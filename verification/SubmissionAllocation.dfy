/** Arena pools split over submissions (`cacheon/arena_allocation.py`, `allocate_submission_weights`). */
module SubmissionAllocation {
  import opened Wrappers
  import opened Orders
  import opened Sums
  import opened PoolAllocation

  const PPM: nat := 1_000_000

  /** A claim's content digest; the empty string names the burn share. */
  type Digest = s: string | s != "" witness "0"

  datatype Row = Row(claim: Digest, hotkey: string, credit: nat)
  datatype Term = Term(source: string, ppm: int)

  /** One call: credited rows, their frozen terms and stall-free base credits, and the chain context. */
  datatype Offer = Offer(
    rows: seq<Row>, terms: map<string, Term>, base: map<string, int>,
    eligible: set<string>, validator: string, burn: string)

  function Claims(rows: seq<Row>): set<string> {
    set i | 0 <= i < |rows| :: rows[i].claim
  }

  predicate Accepted(x: Offer) {
    && x.terms.Keys == Claims(x.rows)
    && x.base.Keys == x.terms.Keys
    && x.burn in x.eligible
    && forall c :: c in x.terms ==> TermOk(x.terms[c]) && x.base[c] >= 0
  }

  predicate TermOk(t: Term) {
    t.source != "" && 0 <= t.ppm <= PPM
  }

  // ----- arena pools

  predicate Paid(x: Offer, i: int) {
    0 <= i < |x.rows| && x.rows[i].claim in x.terms && x.rows[i].claim in x.base && x.terms[x.rows[i].claim].ppm > 0
  }

  function SourceOf(x: Offer): string -> string {
    c => if c in x.terms then x.terms[c].source else ""
  }

  ghost function PaidUpTo(x: Offer, s: string, n: nat): set<int> {
    set i | 0 <= i < n && i < |x.rows| && Paid(x, i) && SourceOf(x)(x.rows[i].claim) == s
  }

  ghost function PaidRows(x: Offer, s: string): set<int> {
    PaidUpTo(x, s, |x.rows|)
  }

  function BaseAt(x: Offer): int -> real {
    i => if Paid(x, i) then x.base[x.rows[i].claim] as real else 0.0
  }

  function PricedAt(x: Offer): int -> real {
    i => if Paid(x, i) then (x.terms[x.rows[i].claim].ppm * x.base[x.rows[i].claim]) as real else 0.0
  }

  function CreditedAt(x: Offer): int -> real {
    i => if Paid(x, i) then (x.terms[x.rows[i].claim].ppm * x.rows[i].credit) as real else 0.0
  }

  ghost function TotalBase(x: Offer, s: string): real { Sum(PaidRows(x, s), BaseAt(x)) }
  ghost function Priced(x: Offer, s: string): real { Sum(PaidRows(x, s), PricedAt(x)) }
  ghost function Internal(x: Offer, s: string): real { Sum(PaidRows(x, s), CreditedAt(x)) }

  /** Row `i` takes part: paid, credited, and its arena has base credit. */
  ghost predicate Earns(x: Offer, i: int) {
    Paid(x, i) && x.rows[i].credit > 0 && TotalBase(x, SourceOf(x)(x.rows[i].claim)) > 0.0
  }

  ghost function Mean(x: Offer, s: string): real {
    if TotalBase(x, s) > 0.0 then Priced(x, s) / TotalBase(x, s) else 0.0
  }

  /** A pool priced at `priced / total`, times `part` out of its `internal` credit. */
  function PoolPart(priced: real, total: real, part: real, internal: real): real {
    if total > 0.0 && internal > 0.0 then priced / total * (part / internal) else 0.0
  }

  ghost function ShareIn(x: Offer, s: string, part: real): real {
    PoolPart(Priced(x, s), TotalBase(x, s), part, Internal(x, s))
  }

  ghost function Share(x: Offer): int -> real {
    i => if Earns(x, i) then ShareIn(x, SourceOf(x)(x.rows[i].claim), CreditedAt(x)(i)) else 0.0
  }

  datatype Entry = Entry(share: real, recipient: string)

  function Recipient(x: Offer, hotkey: string): string {
    if hotkey in x.eligible then hotkey else x.validator
  }

  /** The dictionaries `requested` and `recipients` after `n` rows. */
  ghost function Entries(x: Offer, n: nat): map<string, Entry>
    requires n <= |x.rows|
  {
    if n == 0 then map[]
    else if Earns(x, n - 1) then
      Entries(x, n - 1)[x.rows[n - 1].claim := Entry(Share(x)(n - 1), Recipient(x, x.rows[n - 1].hotkey))]
    else Entries(x, n - 1)
  }

  function ShareOf(entries: map<string, Entry>): string -> real {
    k => if k in entries then entries[k].share else 0.0
  }

  function RecipientOf(entries: map<string, Entry>): string -> string {
    k => if k in entries then entries[k].recipient else ""
  }

  function Max(a: real, b: real): real { if a < b then b else a }

  ghost function Claimed(x: Offer): real {
    Sum(Entries(x, |x.rows|).Keys, ShareOf(Entries(x, |x.rows|)))
  }

  /** Every claim's share together with the burn share under the empty key. */
  ghost function Shares(x: Offer): map<string, Entry> {
    Entries(x, |x.rows|)["" := Entry(Max(0.0, PPM as real - Claimed(x)), x.burn)]
  }

  function Recipients(entries: map<string, Entry>, keys: set<string>): set<string> {
    set k | k in keys && k in entries :: entries[k].recipient
  }

  /** Shares added up by recipient, over some of the keys. */
  ghost function ByHotkey(entries: map<string, Entry>, keys: set<string>): Credits {
    map h | h in Recipients(entries, keys) :: Sum(Fiber(keys, RecipientOf(entries), h), ShareOf(entries))
  }

  ghost function HotkeyShares(x: Offer): Credits {
    ByHotkey(Shares(x), Shares(x).Keys)
  }

  ghost function Weights(x: Offer): map<string, int> {
    Allocation(HotkeyShares(x), PPM)
  }

  function Parts(entries: map<string, Entry>, h: string): Credits {
    map k | k in entries && entries[k].recipient == h :: entries[k].share
  }

  /** The rounded part of a served vector behind key `k`. */
  ghost function PartOf(shares: map<string, Entry>, weights: map<string, int>): string -> int {
    k => var h := RecipientOf(shares)(k);
         if h in weights && weights[h] >= 0 then WeightOf(Allocation(Parts(shares, h), weights[h]))(k) else 0
  }

  ghost function Attributed(x: Offer): string -> int {
    PartOf(Shares(x), Weights(x))
  }

  // ----- shares are positive, so neither rounding can fail

  lemma PricedPositive(x: Offer, s: string)
    requires Accepted(x) && TotalBase(x, s) > 0.0
    ensures Priced(x, s) > 0.0
  {
    forall i | i in PaidRows(x, s) ensures BaseAt(x)(i) <= PricedAt(x)(i) {
      var b, p := x.base[x.rows[i].claim], x.terms[x.rows[i].claim].ppm;
      assert b <= p * b;
    }
    SumMonotone(PaidRows(x, s), BaseAt(x), PricedAt(x));
  }

  lemma CreditedNonNegative(x: Offer, i: int)
    ensures CreditedAt(x)(i) >= 0.0
    ensures Paid(x, i) ==> (CreditedAt(x)(i) > 0.0 <==> x.rows[i].credit > 0)
  {
    if Paid(x, i) {
      var p, c := x.terms[x.rows[i].claim].ppm, x.rows[i].credit;
      assert c > 0 ==> p * c > 0;
    }
  }

  lemma InternalPositive(x: Offer, i: int)
    requires Earns(x, i)
    ensures Internal(x, SourceOf(x)(x.rows[i].claim)) > 0.0
  {
    var rows := PaidRows(x, SourceOf(x)(x.rows[i].claim));
    forall j | j in rows ensures CreditedAt(x)(j) >= 0.0 { CreditedNonNegative(x, j); }
    SumNonNegative(rows, CreditedAt(x));
    CreditedNonNegative(x, i);
    assert i in rows;
  }

  lemma PoolPartPositive(p: real, t: real, c: real, n: real)
    requires p > 0.0 && t > 0.0 && c > 0.0 && n > 0.0
    ensures PoolPart(p, t, c, n) > 0.0
  {
    assert p / t > 0.0;
    assert c / n > 0.0;
  }

  lemma SharePositive(x: Offer, i: int)
    requires Accepted(x) && Earns(x, i)
    ensures Share(x)(i) > 0.0
  {
    var s := SourceOf(x)(x.rows[i].claim);
    PricedPositive(x, s);
    InternalPositive(x, i);
    CreditedNonNegative(x, i);
    PoolPartPositive(Priced(x, s), TotalBase(x, s), CreditedAt(x)(i), Internal(x, s));
  }

  ghost predicate EntriesOk(x: Offer, entries: map<string, Entry>) {
    forall k :: k in entries ==> entries[k].share > 0.0 && k != "" && k in x.terms
  }

  lemma EarningClaim(x: Offer, i: nat)
    requires Accepted(x) && i < |x.rows|
    ensures x.rows[i].claim != "" && x.rows[i].claim in x.terms
  {
    assert x.rows[i].claim in Claims(x.rows);
  }

  lemma EntriesGrow(x: Offer, n: nat)
    requires Accepted(x) && 0 < n <= |x.rows| && EntriesOk(x, Entries(x, n - 1))
    ensures EntriesOk(x, Entries(x, n))
  {
    if Earns(x, n - 1) {
      EarningClaim(x, n - 1);
      SharePositive(x, n - 1);
      EntriesInsert(x, Entries(x, n - 1), x.rows[n - 1].claim,
                    Entry(Share(x)(n - 1), Recipient(x, x.rows[n - 1].hotkey)));
    }
  }

  lemma {:induction false} EntriesPositive(x: Offer, n: nat)
    requires Accepted(x) && n <= |x.rows|
    ensures EntriesOk(x, Entries(x, n))
  {
    if n > 0 {
      EntriesPositive(x, n - 1);
      EntriesGrow(x, n);
    }
  }

  lemma EntriesInsert(x: Offer, entries: map<string, Entry>, k: string, e: Entry)
    requires EntriesOk(x, entries) && e.share > 0.0 && k != "" && k in x.terms
    ensures EntriesOk(x, entries[k := e])
  {
  }

  lemma SharesNonNegative(x: Offer)
    requires Accepted(x)
    ensures forall k :: k in Shares(x) ==> Shares(x)[k].share >= 0.0
    ensures forall k :: k in Shares(x) && k != "" ==> Shares(x)[k].share > 0.0 && k in x.terms
    ensures "" in Shares(x)
  {
    EntriesPositive(x, |x.rows|);
  }

  /** The shares cover the whole vector, so some hotkey has positive credit. */
  lemma SharesCover(x: Offer)
    requires Accepted(x)
    ensures Sum(Shares(x).Keys, ShareOf(Shares(x))) == Max(Claimed(x), PPM as real)
  {
    EntriesPositive(x, |x.rows|);
    var e, all := Entries(x, |x.rows|), Shares(x);
    assert all.Keys == e.Keys + {""};
    SumInsert(e.Keys, ShareOf(all), "");
    SumSame(e.Keys, ShareOf(all), ShareOf(e));
  }

  lemma HotkeySum(entries: map<string, Entry>)
    requires forall k :: k in entries ==> entries[k].share >= 0.0
    ensures Sum(ByHotkey(entries, entries.Keys).Keys, CreditOf(ByHotkey(entries, entries.Keys))) ==
      Sum(entries.Keys, ShareOf(entries))
    ensures forall h :: h in ByHotkey(entries, entries.Keys) ==> ByHotkey(entries, entries.Keys)[h] >= 0.0
    ensures Total(ByHotkey(entries, entries.Keys)) == Sum(entries.Keys, ShareOf(entries))
  {
    var pool := ByHotkey(entries, entries.Keys);
    forall h | h in pool
      ensures CreditOf(pool)(h) == Sum(Fiber(entries.Keys, RecipientOf(entries), h), ShareOf(entries)) >= 0.0
    {
      SumNonNegative(Fiber(entries.Keys, RecipientOf(entries), h), ShareOf(entries));
    }
    SumFibers(entries.Keys, ShareOf(entries), pool.Keys, RecipientOf(entries), CreditOf(pool));
    SumSupport(pool.Keys, Positive(pool), CreditOf(pool));
  }

  // ----- conservation

  lemma HotkeysPayable(x: Offer)
    requires Accepted(x)
    ensures Positive(HotkeyShares(x)) != {}
    ensures Total(HotkeyShares(x)) == Max(Claimed(x), PPM as real)
  {
    SharesNonNegative(x);
    SharesCover(x);
    HotkeySum(Shares(x));
    TotalPositive(HotkeyShares(x));
  }

  /** The served vector sums to exactly one million. */
  lemma WeightsExact(x: Offer)
    requires Accepted(x)
    ensures SumInt(Weights(x).Keys, WeightOf(Weights(x))) == PPM
    ensures forall h :: h in Weights(x) ==> Weights(x)[h] >= 0
  {
    HotkeysPayable(x);
    AllocationServed(HotkeyShares(x), PPM);
  }

  /** Only registered hotkeys are paid. */
  lemma WeightsEligible(x: Offer, h: string)
    requires Accepted(x) && x.validator in x.eligible && h in Weights(x)
    ensures h in x.eligible
  {
    EntriesEligible(x, |x.rows|);
    assert h in Recipients(Shares(x), Shares(x).Keys);
  }

  lemma {:induction false} EntriesEligible(x: Offer, n: nat)
    requires x.validator in x.eligible && n <= |x.rows|
    ensures forall k :: k in Entries(x, n) ==> Entries(x, n)[k].recipient in x.eligible
  {
    if n > 0 { EntriesEligible(x, n - 1); }
  }

  lemma PositivePart(entries: map<string, Entry>, h: string)
    requires forall k :: k in entries ==> entries[k].share >= 0.0
    requires Sum(Fiber(entries.Keys, RecipientOf(entries), h), ShareOf(entries)) > 0.0
    ensures Positive(Parts(entries, h)) != {}
  {
    var f := Fiber(entries.Keys, RecipientOf(entries), h);
    SumNonNegative(f, ShareOf(entries));
    var k :| k in f && ShareOf(entries)(k) > 0.0;
    assert k in Positive(Parts(entries, h));
  }

  lemma PartsInFiber(entries: map<string, Entry>, h: string)
    ensures Positive(Parts(entries, h)) <= Fiber(entries.Keys, RecipientOf(entries), h)
  {
  }

  lemma WeightedIsPositive(x: Offer, h: string)
    requires h in Weights(x)
    ensures Sum(Fiber(Shares(x).Keys, RecipientOf(Shares(x)), h), ShareOf(Shares(x))) > 0.0
  {
    assert HotkeyShares(x)[h] > 0.0;
  }

  /** A hotkey with weight always has a positive part to give it to. */
  lemma PartsPayable(x: Offer, h: string)
    requires Accepted(x) && h in Weights(x)
    ensures Positive(Parts(Shares(x), h)) != {}
    ensures Positive(Parts(Shares(x), h)) <= Fiber(Shares(x).Keys, RecipientOf(Shares(x)), h)
  {
    SharesNonNegative(x);
    WeightedIsPositive(x, h);
    PositivePart(Shares(x), h);
    PartsInFiber(Shares(x), h);
  }

  /** The claim and burn parts inside a hotkey sum to exactly that hotkey's weight. */
  lemma PartsExact(x: Offer, h: string)
    requires Accepted(x) && h in Weights(x)
    ensures SumInt(Fiber(Shares(x).Keys, RecipientOf(Shares(x)), h), Attributed(x)) == Weights(x)[h]
  {
    WeightsExact(x);
    PartsPayable(x, h);
    var parts, w := Parts(Shares(x), h), Weights(x)[h];
    var f := Fiber(Shares(x).Keys, RecipientOf(Shares(x)), h);
    var alloc := Allocation(parts, w);
    AllocationExact(parts, w);
    forall k | k in f ensures Attributed(x)(k) == WeightOf(alloc)(k) {
      assert RecipientOf(Shares(x))(k) == h;
    }
    SumIntSame(f, Attributed(x), WeightOf(alloc));
    SumIntSupport(f, Positive(parts), WeightOf(alloc));
  }

  lemma HotkeyAttributed(x: Offer, h: string)
    requires Accepted(x)
    ensures SumInt(Fiber(Shares(x).Keys, RecipientOf(Shares(x)), h), Attributed(x)) == WeightOf(Weights(x))(h)
  {
    if h in Weights(x) {
      PartsExact(x, h);
    } else {
      var f := Fiber(Shares(x).Keys, RecipientOf(Shares(x)), h);
      forall k | k in f ensures Attributed(x)(k) == 0 { }
      SumIntSupport(f, {}, Attributed(x));
    }
  }

  /** Nothing is created or lost between the two roundings. */
  lemma AttributionExact(x: Offer)
    requires Accepted(x)
    ensures SumInt(Shares(x).Keys, Attributed(x)) == PPM
  {
    var keys, of := Shares(x).Keys, RecipientOf(Shares(x));
    var hotkeys := Recipients(Shares(x), keys);
    forall h ensures SumInt(Fiber(keys, of, h), Attributed(x)) == WeightOf(Weights(x))(h) { HotkeyAttributed(x, h); }
    SumIntFibers(keys, Attributed(x), hotkeys, of, WeightOf(Weights(x)));
    assert Weights(x).Keys <= hotkeys;
    SumIntSupport(hotkeys, Weights(x).Keys, WeightOf(Weights(x)));
    WeightsExact(x);
  }

  ghost function ClaimKeys(x: Offer): set<string> {
    Shares(x).Keys - {""}
  }

  ghost function ArenaSum(source: string -> string, part: string -> int, done: set<string>): string -> int {
    s => SumInt(Fiber(done - {""}, source, s), part)
  }

  function SourcesOf(source: string -> string, done: set<string>): set<string> {
    set k | k in done && k != "" :: source(k)
  }

  lemma ScaleCancels(c: real, m: real)
    requires m > 0.0
    ensures c * m / m == c
  {
  }

  lemma QuotaIsCredit(credits: Credits, pool: nat, k: string)
    requires pool > 0 && Total(credits) == pool as real && k in credits && credits[k] > 0.0
    ensures Quota(credits, pool)(k) == credits[k]
  {
    ScaleCancels(credits[k], pool as real);
  }

  /** When the pools fit, every hotkey's weight is the floor or ceiling of its exact share. */
  lemma WeightsWithinOne(x: Offer, h: string)
    requires Accepted(x) && Claimed(x) <= PPM as real && h in Weights(x)
    ensures -1.0 < Weights(x)[h] as real - HotkeyShares(x)[h] < 1.0
  {
    HotkeysPayable(x);
    AllocationWithinOne(HotkeyShares(x), PPM, h);
    QuotaIsCredit(HotkeyShares(x), PPM, h);
  }

  // ----- arena pricing

  ghost predicate DistinctClaims(x: Offer) {
    forall i, j :: 0 <= i < j < |x.rows| ==> x.rows[i].claim != x.rows[j].claim
  }

  lemma {:induction false} EntryOrigin(x: Offer, n: nat, k: string)
    requires n <= |x.rows| && k in Entries(x, n)
    ensures exists i :: 0 <= i < n && Earns(x, i) && x.rows[i].claim == k
  {
    if Earns(x, n - 1) && x.rows[n - 1].claim == k {
    } else {
      EntryOrigin(x, n - 1, k);
    }
  }

  lemma {:induction false} EntryOf(x: Offer, n: nat, i: nat)
    requires DistinctClaims(x) && i < n <= |x.rows| && Earns(x, i)
    ensures x.rows[i].claim in Entries(x, n) && Entries(x, n)[x.rows[i].claim].share == Share(x)(i)
  {
    if i < n - 1 { EntryOf(x, n - 1, i); }
  }

  ghost function EarningRows(x: Offer, s: string): set<int> {
    set i | 0 <= i < |x.rows| && Earns(x, i) && SourceOf(x)(x.rows[i].claim) == s
  }

  function ClaimAt(x: Offer): int -> string {
    i => if 0 <= i < |x.rows| then x.rows[i].claim else ""
  }

  lemma RowClaim(x: Offer, s: string, i: int)
    requires DistinctClaims(x) && i in EarningRows(x, s)
    ensures ClaimAt(x)(i) in Fiber(ClaimKeys(x), SourceOf(x), s)
    ensures ShareOf(Shares(x))(ClaimAt(x)(i)) == Share(x)(i)
  {
    EntryOf(x, |x.rows|, i);
  }

  lemma ClaimRow(x: Offer, s: string, k: string)
    requires k in Fiber(ClaimKeys(x), SourceOf(x), s)
    ensures exists i :: i in EarningRows(x, s) && ClaimAt(x)(i) == k
  {
    EntryOrigin(x, |x.rows|, k);
    var i :| 0 <= i < |x.rows| && Earns(x, i) && x.rows[i].claim == k;
    assert i in EarningRows(x, s) && ClaimAt(x)(i) == k;
  }

  lemma RowsByClaim(x: Offer, s: string)
    requires DistinctClaims(x)
    ensures forall j, k :: j in EarningRows(x, s) && k in EarningRows(x, s) && ClaimAt(x)(j) == ClaimAt(x)(k) ==> j == k
  {
  }

  /** Summing an arena's claims is summing its earning rows, one claim per row. */
  lemma ClaimsAreRows(x: Offer, s: string)
    requires DistinctClaims(x)
    ensures Sum(Fiber(ClaimKeys(x), SourceOf(x), s), ShareOf(Shares(x))) == Sum(EarningRows(x, s), Share(x))
  {
    RowsByClaim(x, s);
    var claims, rows := Fiber(ClaimKeys(x), SourceOf(x), s), EarningRows(x, s);
    forall i | i in rows ensures ClaimAt(x)(i) in claims && ShareOf(Shares(x))(ClaimAt(x)(i)) == Share(x)(i) {
      RowClaim(x, s, i);
    }
    forall k | k in claims ensures exists i :: i in rows && ClaimAt(x)(i) == k { ClaimRow(x, s, k); }
    SumRename(rows, claims, ClaimAt(x), Share(x), ShareOf(Shares(x)));
  }

  lemma InternalIsEarned(x: Offer, s: string)
    requires TotalBase(x, s) > 0.0
    ensures Sum(EarningRows(x, s), CreditedAt(x)) == Internal(x, s)
  {
    var paid, rows := PaidRows(x, s), EarningRows(x, s);
    forall j | j in paid - rows ensures CreditedAt(x)(j) == 0.0 { CreditedNonNegative(x, j); }
    SumSupport(paid, rows, CreditedAt(x));
  }

  lemma ShareIsPart(x: Offer, s: string, j: int)
    requires j in EarningRows(x, s) && Internal(x, s) > 0.0
    ensures Share(x)(j) == Mean(x, s) * (CreditedAt(x)(j) / Internal(x, s))
  {
    assert Share(x)(j) == ShareIn(x, s, CreditedAt(x)(j));
  }

  lemma SharesProportional(x: Offer, s: string)
    requires Internal(x, s) > 0.0
    ensures Proportional(EarningRows(x, s), Mean(x, s), CreditedAt(x), Internal(x, s), Share(x))
  {
    forall j | j in EarningRows(x, s) ensures Share(x)(j) == Mean(x, s) * (CreditedAt(x)(j) / Internal(x, s)) {
      ShareIsPart(x, s, j);
    }
  }

  lemma EarnedPool(x: Offer, s: string)
    requires Internal(x, s) > 0.0 && Sum(EarningRows(x, s), CreditedAt(x)) == Internal(x, s)
    ensures Sum(EarningRows(x, s), Share(x)) == Mean(x, s)
  {
    var rows, m, n, credited, share := EarningRows(x, s), Mean(x, s), Internal(x, s), CreditedAt(x), Share(x);
    SharesProportional(x, s);
    assert Proportional(rows, m, credited, n, share);
    SumProportional(rows, m, credited, n, share);
  }

  /** Before rounding an arena receives exactly its base-credit-weighted mean term. */
  lemma ArenaPricing(x: Offer, s: string, i: nat)
    requires Accepted(x) && DistinctClaims(x)
    requires Earns(x, i) && SourceOf(x)(x.rows[i].claim) == s
    ensures Sum(Fiber(ClaimKeys(x), SourceOf(x), s), ShareOf(Shares(x))) == Mean(x, s)
  {
    ClaimsAreRows(x, s);
    InternalPositive(x, i);
    InternalIsEarned(x, s);
    EarnedPool(x, s);
  }

  /** Two offers that differ only in their stall-bearing credits. */
  ghost predicate SameButCredits(x: Offer, y: Offer) {
    && x.terms == y.terms && x.base == y.base
    && |x.rows| == |y.rows|
    && forall i :: 0 <= i < |x.rows| ==> x.rows[i].claim == y.rows[i].claim
  }

  lemma MeanIgnoresCredits(x: Offer, y: Offer, s: string)
    requires SameButCredits(x, y)
    ensures Mean(x, s) == Mean(y, s)
  {
    assert PaidRows(x, s) == PaidRows(y, s);
    SumSame(PaidRows(x, s), BaseAt(x), BaseAt(y));
    SumSame(PaidRows(x, s), PricedAt(x), PricedAt(y));
  }

  /** The stall bonus moves pay inside an arena, never between arenas. */
  lemma PricingIgnoresStall(x: Offer, y: Offer, s: string, i: nat, j: nat)
    requires Accepted(x) && Accepted(y) && DistinctClaims(x) && SameButCredits(x, y)
    requires Earns(x, i) && SourceOf(x)(x.rows[i].claim) == s
    requires Earns(y, j) && SourceOf(y)(y.rows[j].claim) == s
    ensures Sum(Fiber(ClaimKeys(x), SourceOf(x), s), ShareOf(Shares(x)))
         == Sum(Fiber(ClaimKeys(y), SourceOf(y), s), ShareOf(Shares(y)))
  {
    ArenaPricing(x, s, i);
    MeanIgnoresCredits(x, y, s);
    assert DistinctClaims(y);
    ArenaPricing(y, s, j);
  }

  // ----- zero offers

  function Pays(x: Offer): Row -> bool {
    (r: Row) => r.claim in x.terms && x.terms[r.claim].ppm > 0
  }

  /** The offer without the submissions whose frozen term is zero. */
  function Paying(x: Offer): Offer {
    x.(rows := Keep(x.rows, Pays(x)),
       terms := map c | c in x.terms && x.terms[c].ppm > 0 :: x.terms[c],
       base := map c | c in x.base && c in x.terms && x.terms[c].ppm > 0 :: x.base[c])
  }

  /** How many of the first `n` rows stay. */
  function Kept(x: Offer, n: nat): nat
    requires n <= |x.rows|
  {
    |Keep(x.rows[..n], Pays(x))|
  }

  lemma KeptNext(x: Offer, n: nat)
    requires n < |x.rows|
    ensures Kept(x, n + 1) == Kept(x, n) + (if Pays(x)(x.rows[n]) then 1 else 0)
    ensures Pays(x)(x.rows[n]) ==> Kept(x, n) < |Paying(x).rows| && Paying(x).rows[Kept(x, n)] == x.rows[n]
  {
    KeepNext(x.rows, Pays(x), n);
    KeepPrefix(x.rows, Pays(x), n + 1);
    var more, all := Keep(x.rows[..n + 1], Pays(x)), Keep(x.rows, Pays(x));
    if Pays(x)(x.rows[n]) { assert more[Kept(x, n)] == x.rows[n] == all[Kept(x, n)]; }
  }

  lemma KeptBound(x: Offer, n: nat)
    requires n <= |x.rows|
    ensures Kept(x, n) <= |Paying(x).rows| && Kept(x, 0) == 0 && Kept(x, |x.rows|) == |Paying(x).rows|
  {
    KeepPrefix(x.rows, Pays(x), n);
    assert x.rows[..|x.rows|] == x.rows;
  }

  lemma PayingAccepted(x: Offer)
    requires Accepted(x)
    ensures Accepted(Paying(x))
  {
    var y := Paying(x);
    KeepElements(x.rows, Pays(x));
    forall c | c in y.terms ensures c in Claims(y.rows) {
      var i :| 0 <= i < |x.rows| && x.rows[i].claim == c;
      assert x.rows[i] in y.rows;
    }
    forall c | c in Claims(y.rows) ensures c in y.terms {
      var i :| 0 <= i < |y.rows| && y.rows[i].claim == c;
      assert y.rows[i] in y.rows;
    }
    assert y.terms.Keys == Claims(y.rows);
    assert y.base.Keys == y.terms.Keys;
  }

  /** Row `k` of `y` is row `n` of `x`, on the same terms. */
  ghost predicate SameRow(x: Offer, n: int, y: Offer, k: int) {
    && Paid(x, n) && Paid(y, k) && x.rows[n] == y.rows[k]
    && x.terms[x.rows[n].claim] == y.terms[y.rows[k].claim] && x.base[x.rows[n].claim] == y.base[y.rows[k].claim]
  }

  ghost predicate AlignedAt(x: Offer, n: int, y: Offer, k: int, next: int) {
    if Paid(x, n) then SameRow(x, n, y, k) && next == k + 1 else next == k
  }

  /** `y` is `x` without its unpaid rows; `kept[n]` of its rows come from the first `n`. */
  ghost predicate Aligned(x: Offer, y: Offer, kept: seq<nat>) {
    && |kept| == |x.rows| + 1 && kept[0] == 0 && kept[|x.rows|] == |y.rows|
    && (forall n :: 0 <= n <= |x.rows| ==> kept[n] <= |y.rows|)
    && forall n :: 0 <= n < |x.rows| ==> AlignedAt(x, n, y, kept[n], kept[n + 1])
  }

  lemma PayingRow(x: Offer, n: nat)
    requires Accepted(x) && n < |x.rows|
    ensures AlignedAt(x, n, Paying(x), Kept(x, n), Kept(x, n + 1))
  {
    EarningClaim(x, n);
    KeptNext(x, n);
  }

  lemma PayingAligned(x: Offer) returns (kept: seq<nat>)
    requires Accepted(x)
    ensures Aligned(x, Paying(x), kept)
  {
    kept := seq(|x.rows| + 1, n requires 0 <= n <= |x.rows| => Kept(x, n));
    forall n | 0 <= n <= |x.rows| ensures kept[n] <= |Paying(x).rows| { KeptBound(x, n); }
    KeptBound(x, 0);
    forall n | 0 <= n < |x.rows| ensures AlignedAt(x, n, Paying(x), kept[n], kept[n + 1]) { PayingRow(x, n); }
  }

  lemma PaidNext(x: Offer, s: string, n: nat, f: int -> real)
    requires n < |x.rows|
    ensures Sum(PaidUpTo(x, s, n + 1), f) ==
      Sum(PaidUpTo(x, s, n), f) + (if Paid(x, n) && SourceOf(x)(x.rows[n].claim) == s then f(n) else 0.0)
  {
    if Paid(x, n) && SourceOf(x)(x.rows[n].claim) == s {
      assert PaidUpTo(x, s, n + 1) == PaidUpTo(x, s, n) + {n};
      SumInsert(PaidUpTo(x, s, n), f, n);
    } else {
      assert PaidUpTo(x, s, n + 1) == PaidUpTo(x, s, n);
    }
  }

  ghost predicate CarriesOver(x: Offer, kept: seq<nat>, f: int -> real, g: int -> real)
    requires |kept| == |x.rows| + 1
  {
    forall n :: 0 <= n < |x.rows| && Paid(x, n) ==> f(n) == g(kept[n])
  }

  lemma KeptStep(x: Offer, y: Offer, s: string, n: nat, k: nat, next: nat, f: int -> real, g: int -> real)
    requires n < |x.rows| && AlignedAt(x, n, y, k, next) && (Paid(x, n) ==> f(n) == g(k))
    requires Sum(PaidUpTo(x, s, n), f) == Sum(PaidUpTo(y, s, k), g)
    ensures Sum(PaidUpTo(x, s, n + 1), f) == Sum(PaidUpTo(y, s, next), g)
  {
    PaidNext(x, s, n, f);
    if Paid(x, n) { PaidNext(y, s, k, g); }
  }

  lemma {:induction false} SumKept(
    x: Offer, y: Offer, kept: seq<nat>, s: string, n: nat, f: int -> real, g: int -> real)
    requires Aligned(x, y, kept) && n <= |x.rows| && CarriesOver(x, kept, f, g)
    ensures Sum(PaidUpTo(x, s, n), f) == Sum(PaidUpTo(y, s, kept[n]), g)
  {
    if n == 0 {
      assert PaidUpTo(x, s, 0) == {} && PaidUpTo(y, s, 0) == {};
    } else {
      SumKept(x, y, kept, s, n - 1, f, g);
      KeptStep(x, y, s, n - 1, kept[n - 1], kept[n], f, g);
    }
  }

  lemma ArenaKept(x: Offer, y: Offer, kept: seq<nat>, s: string)
    requires Aligned(x, y, kept)
    ensures TotalBase(x, s) == TotalBase(y, s) && Priced(x, s) == Priced(y, s) && Internal(x, s) == Internal(y, s)
  {
    var n := |x.rows|;
    forall i | 0 <= i < n && Paid(x, i)
      ensures BaseAt(x)(i) == BaseAt(y)(kept[i]) && PricedAt(x)(i) == PricedAt(y)(kept[i])
      ensures CreditedAt(x)(i) == CreditedAt(y)(kept[i])
    {
      assert AlignedAt(x, i, y, kept[i], kept[i + 1]);
    }
    SumKept(x, y, kept, s, n, BaseAt(x), BaseAt(y));
    SumKept(x, y, kept, s, n, PricedAt(x), PricedAt(y));
    SumKept(x, y, kept, s, n, CreditedAt(x), CreditedAt(y));
  }

  lemma ShareKept(x: Offer, y: Offer, kept: seq<nat>, n: nat, k: nat)
    requires Aligned(x, y, kept) && SameRow(x, n, y, k)
    ensures Earns(x, n) <==> Earns(y, k)
    ensures Share(x)(n) == Share(y)(k)
  {
    ArenaKept(x, y, kept, SourceOf(x)(x.rows[n].claim));
  }

  lemma {:induction false} EntriesKept(x: Offer, y: Offer, kept: seq<nat>, n: nat)
    requires Aligned(x, y, kept) && x.eligible == y.eligible && x.validator == y.validator && n <= |x.rows|
    ensures Entries(x, n) == Entries(y, kept[n])
  {
    if n > 0 {
      EntriesKept(x, y, kept, n - 1);
      assert AlignedAt(x, n - 1, y, kept[n - 1], kept[n - 1 + 1]);
      if Paid(x, n - 1) { ShareKept(x, y, kept, n - 1, kept[n - 1]); }
    }
  }

  lemma SharesKept(x: Offer, y: Offer, kept: seq<nat>)
    requires Aligned(x, y, kept) && x.eligible == y.eligible && x.validator == y.validator && x.burn == y.burn
    ensures Shares(y) == Shares(x)
  {
    EntriesKept(x, y, kept, |x.rows|);
  }

  /** Zero-offer submissions neither earn nor dilute: without them shares, weights and attribution are the same. */
  lemma ZeroOffersInert(x: Offer)
    requires Accepted(x)
    ensures Accepted(Paying(x))
    ensures Shares(Paying(x)) == Shares(x) && Weights(Paying(x)) == Weights(x) && Attributed(Paying(x)) == Attributed(x)
    ensures forall c :: c in x.terms && x.terms[c].ppm == 0 ==> c !in Shares(x)
  {
    PayingAccepted(x);
    var kept := PayingAligned(x);
    SharesKept(x, Paying(x), kept);
    forall c | c in x.terms && x.terms[c].ppm == 0 ensures c !in Shares(x) { ZeroOfferUnpaid(x, c); }
  }

  lemma ZeroOfferUnpaid(x: Offer, c: string)
    requires Accepted(x) && Accepted(Paying(x)) && Shares(Paying(x)) == Shares(x)
    requires c in x.terms && x.terms[c].ppm == 0
    ensures c !in Shares(x)
  {
    SharesNonNegative(Paying(x));
    EarningClaimNamed(x, c);
    assert c !in Paying(x).terms;
  }

  lemma EarningClaimNamed(x: Offer, c: string)
    requires Accepted(x) && c in x.terms
    ensures c != ""
  {
    var i :| 0 <= i < |x.rows| && x.rows[i].claim == c;
  }

  // ----- the loops of `allocate_submission_weights`

  function Plus(m: Credits, k: string, v: real): Credits {
    m[k := CreditOf(m)(k) + v]
  }

  ghost predicate RunningSums(x: Offer, n: nat, m: Credits, f: int -> real) {
    forall s :: CreditOf(m)(s) == Sum(PaidUpTo(x, s, n), f)
  }

  lemma RunningStep(x: Offer, n: nat, m: Credits, f: int -> real)
    requires RunningSums(x, n, m, f) && n < |x.rows| && Paid(x, n)
    ensures RunningSums(x, n + 1, Plus(m, SourceOf(x)(x.rows[n].claim), f(n)), f)
  {
    var source := SourceOf(x)(x.rows[n].claim);
    forall s ensures CreditOf(Plus(m, source, f(n)))(s) == Sum(PaidUpTo(x, s, n + 1), f) {
      PaidNext(x, s, n, f);
    }
  }

  /** The three running dictionaries after `n` rows. */
  ghost predicate Pricing(x: Offer, n: nat, totals: Credits, priced: Credits, internal: Credits) {
    && RunningSums(x, n, totals, BaseAt(x))
    && RunningSums(x, n, priced, PricedAt(x))
    && RunningSums(x, n, internal, CreditedAt(x))
  }

  lemma PricingStart(x: Offer)
    ensures Pricing(x, 0, map[], map[], map[])
  {
    forall s ensures PaidUpTo(x, s, 0) == {} { }
  }

  lemma PricingStep(x: Offer, n: nat, totals: Credits, priced: Credits, internal: Credits)
    requires n < |x.rows| && Pricing(x, n, totals, priced, internal)
    ensures !Paid(x, n) ==> Pricing(x, n + 1, totals, priced, internal)
    ensures Paid(x, n) ==>
      var s := SourceOf(x)(x.rows[n].claim);
      Pricing(x, n + 1, Plus(totals, s, BaseAt(x)(n)), Plus(priced, s, PricedAt(x)(n)),
              Plus(internal, s, CreditedAt(x)(n)))
  {
    if Paid(x, n) {
      RunningStep(x, n, totals, BaseAt(x));
      RunningStep(x, n, priced, PricedAt(x));
      RunningStep(x, n, internal, CreditedAt(x));
    } else {
      forall s ensures PaidUpTo(x, s, n + 1) == PaidUpTo(x, s, n) { }
    }
  }

  predicate RowOk(x: Offer, i: nat)
    requires i < |x.rows|
  {
    var c := x.rows[i].claim;
    c in x.terms && c in x.base && TermOk(x.terms[c]) && x.base[c] >= 0
  }

  lemma RowsOk(x: Offer)
    requires x.terms.Keys == x.base.Keys == Claims(x.rows) && x.burn in x.eligible
    requires forall i :: 0 <= i < |x.rows| ==> RowOk(x, i)
    ensures Accepted(x)
  {
    forall c | c in x.terms ensures TermOk(x.terms[c]) && x.base[c] >= 0 {
      var i :| 0 <= i < |x.rows| && x.rows[i].claim == c;
      assert RowOk(x, i);
    }
  }

  lemma RowRefuses(x: Offer, i: nat)
    requires i < |x.rows| && !RowOk(x, i)
    ensures !Accepted(x)
  {
    assert x.rows[i].claim in Claims(x.rows);
  }

  method PriceRow(x: Offer, i: nat, totals0: Credits, priced0: Credits, internal0: Credits)
    returns (totals: Credits, priced: Credits, internal: Credits)
    requires i < |x.rows| && Pricing(x, i, totals0, priced0, internal0)
    ensures Pricing(x, i + 1, totals, priced, internal)
  {
    totals, priced, internal := totals0, priced0, internal0;
    PricingStep(x, i, totals, priced, internal);
    if Paid(x, i) {
      var source := SourceOf(x)(x.rows[i].claim);
      totals := Plus(totals, source, BaseAt(x)(i));
      priced := Plus(priced, source, PricedAt(x)(i));
      internal := Plus(internal, source, CreditedAt(x)(i));
    }
  }

  /** First loop: `totals`, `priced` and `internal`, or nothing when a term is malformed. */
  method PriceArenas(x: Offer) returns (ok: bool, totals: Credits, priced: Credits, internal: Credits)
    requires x.terms.Keys == x.base.Keys == Claims(x.rows) && x.burn in x.eligible
    ensures ok <==> Accepted(x)
    ensures ok ==> Pricing(x, |x.rows|, totals, priced, internal)
  {
    totals, priced, internal := map[], map[], map[];
    PricingStart(x);
    for i := 0 to |x.rows|
      invariant forall j :: 0 <= j < i ==> RowOk(x, j)
      invariant Pricing(x, i, totals, priced, internal)
    {
      if !RowOk(x, i) {
        RowRefuses(x, i);
        return false, totals, priced, internal;
      }
      totals, priced, internal := PriceRow(x, i, totals, priced, internal);
    }
    RowsOk(x);
    ok := true;
  }

  lemma BaseNonNegative(x: Offer, s: string)
    requires Accepted(x)
    ensures TotalBase(x, s) >= 0.0
  {
    SumNonNegative(PaidRows(x, s), BaseAt(x));
  }

  predicate MayEarn(x: Offer, i: nat, totals: Credits) {
    Paid(x, i) && x.rows[i].credit > 0 && CreditOf(totals)(SourceOf(x)(x.rows[i].claim)) != 0.0
  }

  function RowEntry(x: Offer, i: nat, totals: Credits, priced: Credits, internal: Credits): Entry
    requires i < |x.rows|
  {
    var s := SourceOf(x)(x.rows[i].claim);
    Entry(PoolPart(CreditOf(priced)(s), CreditOf(totals)(s), CreditedAt(x)(i), CreditOf(internal)(s)),
          Recipient(x, x.rows[i].hotkey))
  }

  lemma MayEarnExact(x: Offer, i: nat, totals: Credits)
    requires Accepted(x) && i < |x.rows| && RunningSums(x, |x.rows|, totals, BaseAt(x))
    ensures Earns(x, i) <==> MayEarn(x, i, totals)
  {
    BaseNonNegative(x, SourceOf(x)(x.rows[i].claim));
  }

  lemma RowEntryExact(x: Offer, i: nat, totals: Credits, priced: Credits, internal: Credits)
    requires i < |x.rows| && Pricing(x, |x.rows|, totals, priced, internal) && Earns(x, i)
    ensures RowEntry(x, i, totals, priced, internal) == Entry(Share(x)(i), Recipient(x, x.rows[i].hotkey))
  {
    var s := SourceOf(x)(x.rows[i].claim);
    assert CreditOf(totals)(s) == TotalBase(x, s);
    assert CreditOf(priced)(s) == Priced(x, s);
    assert CreditOf(internal)(s) == Internal(x, s);
    assert Share(x)(i) == ShareIn(x, s, CreditedAt(x)(i));
  }

  /** Second loop: each earning claim's exact share and recipient. */
  method RequestShares(x: Offer, totals: Credits, priced: Credits, internal: Credits)
      returns (entries: map<string, Entry>)
    requires Accepted(x) && Pricing(x, |x.rows|, totals, priced, internal)
    ensures entries == Entries(x, |x.rows|)
  {
    entries := map[];
    for i := 0 to |x.rows|
      invariant entries == Entries(x, i)
    {
      MayEarnExact(x, i, totals);
      if MayEarn(x, i, totals) {
        RowEntryExact(x, i, totals, priced, internal);
        entries := entries[x.rows[i].claim := RowEntry(x, i, totals, priced, internal)];
      }
    }
  }

  lemma GroupStepAt(entries: map<string, Entry>, done: set<string>, k: string, g: string)
    requires k in entries && k !in done
    ensures Sum(Fiber(done + {k}, RecipientOf(entries), g), ShareOf(entries)) ==
      Sum(Fiber(done, RecipientOf(entries), g), ShareOf(entries)) +
      (if entries[k].recipient == g then entries[k].share else 0.0)
  {
    var of := RecipientOf(entries);
    if of(k) == g {
      assert Fiber(done + {k}, of, g) == Fiber(done, of, g) + {k};
      SumInsert(Fiber(done, of, g), ShareOf(entries), k);
    } else {
      assert Fiber(done + {k}, of, g) == Fiber(done, of, g);
    }
  }

  lemma GroupEmpty(entries: map<string, Entry>, done: set<string>, g: string)
    requires done <= entries.Keys && g !in Recipients(entries, done)
    ensures Sum(Fiber(done, RecipientOf(entries), g), ShareOf(entries)) == 0.0
  {
    assert Fiber(done, RecipientOf(entries), g) == {};
  }

  lemma PlusAt(m: Credits, k: string, v: real, g: string)
    ensures CreditOf(Plus(m, k, v))(g) == CreditOf(m)(g) + (if k == g then v else 0.0)
  {
  }

  lemma SameCredits(a: Credits, b: Credits)
    requires a.Keys == b.Keys && forall g :: g in a ==> CreditOf(a)(g) == CreditOf(b)(g)
    ensures a == b
  {
    forall g | g in a ensures a[g] == b[g] { assert CreditOf(a)(g) == CreditOf(b)(g); }
  }

  lemma RecipientsStep(entries: map<string, Entry>, done: set<string>, k: string)
    requires k in entries
    ensures Recipients(entries, done + {k}) == Recipients(entries, done) + {entries[k].recipient}
  {
  }

  lemma GroupValue(entries: map<string, Entry>, done: set<string>, k: string, g: string)
    requires k in entries && k !in done && done <= entries.Keys && g in Recipients(entries, done + {k})
    ensures CreditOf(ByHotkey(entries, done + {k}))(g) ==
      CreditOf(ByHotkey(entries, done))(g) + (if entries[k].recipient == g then entries[k].share else 0.0)
  {
    GroupStepAt(entries, done, k, g);
    if g !in Recipients(entries, done) { GroupEmpty(entries, done, g); }
  }

  lemma GroupStep(entries: map<string, Entry>, done: set<string>, k: string)
    requires k in entries && k !in done && done <= entries.Keys
    ensures ByHotkey(entries, done + {k}) == Plus(ByHotkey(entries, done), entries[k].recipient, entries[k].share)
  {
    RecipientsStep(entries, done, k);
    var before, h, v := ByHotkey(entries, done), entries[k].recipient, entries[k].share;
    var after := ByHotkey(entries, done + {k});
    forall g | g in after ensures CreditOf(after)(g) == CreditOf(Plus(before, h, v))(g) {
      GroupValue(entries, done, k, g);
      PlusAt(before, h, v, g);
    }
    SameCredits(after, Plus(before, h, v));
  }

  /** Third loop: shares added up by recipient, in whatever order the dictionary lists them. */
  method GroupByHotkey(entries: map<string, Entry>) returns (credits: Credits)
    ensures credits == ByHotkey(entries, entries.Keys)
  {
    credits := map[];
    var todo := entries.Keys;
    while todo != {}
      invariant todo <= entries.Keys && credits == ByHotkey(entries, entries.Keys - todo)
      decreases todo
    {
      var k :| k in todo;
      GroupStep(entries, entries.Keys - todo, k);
      Shift(entries.Keys, todo, k);
      credits := Plus(credits, entries[k].recipient, entries[k].share);
      todo := todo - {k};
    }
    assert entries.Keys - todo == entries.Keys;
  }

  /** The dictionaries the fourth loop fills. */
  datatype Tally = Tally(
    arenaShares: map<string, int>, rewarded: seq<string>, burned: int, attribution: map<string, int>)

  ghost predicate ArenasTallied(source: string -> string, part: string -> int, done: set<string>, m: map<string, int>) {
    m.Keys == SourcesOf(source, done) && forall s :: s in m ==> m[s] == ArenaSum(source, part, done)(s)
  }

  ghost predicate PartsTallied(part: string -> int, claims: set<string>, done: set<string>, m: map<string, int>) {
    m.Keys == claims && forall k :: k in claims ==> m[k] == if k in done then part(k) else 0
  }

  ghost predicate RewardedTallied(part: string -> int, done: set<string>, rewarded: seq<string>) {
    Distinct(rewarded) && forall k :: k in rewarded <==> k in done && k != "" && part(k) != 0
  }

  /** What the fourth loop has recorded once the parts of the keys in `done` are attributed. */
  ghost predicate Tallied(
    source: string -> string, part: string -> int, claims: set<string>, done: set<string>, o: Tally)
  {
    && ArenasTallied(source, part, done, o.arenaShares)
    && o.burned == (if "" in done then part("") else 0)
    && PartsTallied(part, claims, done, o.attribution)
    && RewardedTallied(part, done, o.rewarded)
  }

  function AddShare(m: map<string, int>, key: string, source: string, ppm: int): map<string, int> {
    if key == "" then m else m[source := WeightOf(m)(source) + ppm]
  }

  function AddPart(m: map<string, int>, key: string, ppm: int): map<string, int> {
    if key == "" then m else m[key := ppm]
  }

  function AddRewarded(rewarded: seq<string>, key: string, ppm: int): seq<string> {
    if key != "" && ppm != 0 then rewarded + [key] else rewarded
  }

  function Record(o: Tally, key: string, source: string, ppm: int): Tally {
    Tally(AddShare(o.arenaShares, key, source, ppm), AddRewarded(o.rewarded, key, ppm),
          if key == "" then o.burned + ppm else o.burned, AddPart(o.attribution, key, ppm))
  }

  lemma ArenaStep(source: string -> string, part: string -> int, done: set<string>, k: string, s: string)
    requires k !in done
    ensures ArenaSum(source, part, done + {k})(s) ==
      ArenaSum(source, part, done)(s) + if k != "" && source(k) == s then part(k) else 0
  {
    if k != "" && source(k) == s {
      assert Fiber(done + {k} - {""}, source, s) == Fiber(done - {""}, source, s) + {k};
      SumIntInsert(Fiber(done - {""}, source, s), part, k);
    } else {
      assert Fiber(done + {k} - {""}, source, s) == Fiber(done - {""}, source, s);
    }
  }

  lemma ArenaNone(source: string -> string, part: string -> int, done: set<string>, s: string)
    requires s !in SourcesOf(source, done)
    ensures ArenaSum(source, part, done)(s) == 0
  {
    assert Fiber(done - {""}, source, s) == {};
  }

  lemma ArenasStep(source: string -> string, part: string -> int, done: set<string>, m: map<string, int>, k: string)
    requires ArenasTallied(source, part, done, m) && k !in done
    ensures ArenasTallied(source, part, done + {k}, AddShare(m, k, source(k), part(k)))
  {
    var after := AddShare(m, k, source(k), part(k));
    assert SourcesOf(source, done + {k}) == SourcesOf(source, done) + if k == "" then {} else {source(k)};
    forall s | s in after ensures after[s] == ArenaSum(source, part, done + {k})(s) {
      ArenaStep(source, part, done, k, s);
      if s !in m { ArenaNone(source, part, done, s); }
    }
  }

  lemma PartsStep(part: string -> int, claims: set<string>, done: set<string>, m: map<string, int>, k: string)
    requires PartsTallied(part, claims, done, m) && "" !in claims && (k == "" || k in claims)
    ensures PartsTallied(part, claims, done + {k}, AddPart(m, k, part(k)))
  {
  }

  lemma RewardedStep(part: string -> int, done: set<string>, rewarded: seq<string>, k: string)
    requires RewardedTallied(part, done, rewarded) && k !in done
    ensures RewardedTallied(part, done + {k}, AddRewarded(rewarded, k, part(k)))
  {
  }

  lemma RecordStep(
    source: string -> string, part: string -> int, claims: set<string>, done: set<string>, o: Tally, k: string)
    requires Tallied(source, part, claims, done, o) && k !in done && "" !in claims && (k == "" || k in claims)
    ensures Tallied(source, part, claims, done + {k}, Record(o, k, source(k), part(k)))
  {
    ArenasStep(source, part, done, o.arenaShares, k);
    PartsStep(part, claims, done, o.attribution, k);
    RewardedStep(part, done, o.rewarded, k);
  }

  function StartTally(claims: set<string>): Tally {
    Tally(map[], [], 0, map k | k in claims :: 0)
  }

  lemma TallyStart(source: string -> string, part: string -> int, claims: set<string>, shares: map<string, Entry>)
    ensures Tallied(source, part, claims, PaidKeys(shares, {}), StartTally(claims))
  {
    assert PaidKeys(shares, {}) == {};
  }

  /** Inner loop: one hotkey's rounded parts are recorded. */
  method RecordParts(source: string -> string, ghost part: string -> int, ghost claims: set<string>,
                     split: map<string, int>, ghost done: set<string>, before: Tally)
      returns (after: Tally)
    requires Tallied(source, part, claims, done, before) && done !! split.Keys && "" !in claims
    requires forall k :: k in split ==> split[k] == part(k) && (k == "" || k in claims)
    ensures Tallied(source, part, claims, done + split.Keys, after)
  {
    after := before;
    var todo := split.Keys;
    ghost var sofar := done;
    while todo != {}
      invariant todo <= split.Keys && sofar == done + (split.Keys - todo)
      invariant Tallied(source, part, claims, sofar, after)
      decreases todo
    {
      var key :| key in todo;
      assert key !in sofar;
      RecordStep(source, part, claims, sofar, after, key);
      after := Record(after, key, source(key), split[key]);
      todo := todo - {key};
      sofar := sofar + {key};
    }
    assert sofar == done + split.Keys;
  }

  /** Every weighted hotkey has a positive part to give its weight to. */
  ghost predicate Splittable(shares: map<string, Entry>, weights: map<string, int>, claims: set<string>) {
    && (forall h :: h in weights ==> weights[h] >= 0 && Positive(Parts(shares, h)) != {})
    && (forall k :: k in shares ==> k == "" || k in claims)
    && "" !in claims
  }

  method SplitWeight(shares: map<string, Entry>, ghost weights: map<string, int>, h: string, weight: nat)
      returns (split: map<string, int>)
    requires h in weights && weight == weights[h] && Positive(Parts(shares, h)) != {}
    ensures split.Keys == Positive(Parts(shares, h))
    ensures forall k :: k in split ==> split[k] == PartOf(shares, weights)(k)
  {
    var parts := Parts(shares, h);
    var r := AllocatePool(parts, weight);
    split := r.value;
    forall k | k in split ensures split[k] == PartOf(shares, weights)(k) {
      assert RecipientOf(shares)(k) == h;
    }
  }

  /** The keys with a positive exact share, among those paid to `hotkeys`. */
  ghost function PaidKeys(shares: map<string, Entry>, hotkeys: set<string>): set<string> {
    set k | k in shares && shares[k].share > 0.0 && shares[k].recipient in hotkeys
  }

  lemma PaidKeysStep(shares: map<string, Entry>, hotkeys: set<string>, h: string)
    requires h !in hotkeys
    ensures PaidKeys(shares, hotkeys + {h}) == PaidKeys(shares, hotkeys) + Positive(Parts(shares, h))
    ensures PaidKeys(shares, hotkeys) !! Positive(Parts(shares, h))
  {
  }

  /** One hotkey: its weight is split and the parts recorded. */
  method AttributeHotkey(source: string -> string, ghost claims: set<string>, shares: map<string, Entry>,
                         weights: map<string, int>, h: string, ghost hotkeys: set<string>, before: Tally)
      returns (after: Tally)
    requires Splittable(shares, weights, claims) && h in weights && h !in hotkeys
    requires Tallied(source, PartOf(shares, weights), claims, PaidKeys(shares, hotkeys), before)
    ensures Tallied(source, PartOf(shares, weights), claims, PaidKeys(shares, hotkeys + {h}), after)
  {
    var split := SplitWeight(shares, weights, h, weights[h]);
    PaidKeysStep(shares, hotkeys, h);
    after := RecordParts(source, PartOf(shares, weights), claims, split, PaidKeys(shares, hotkeys), before);
  }

  /** Fourth loop, over the hotkeys in whatever order the vector lists them. */
  method AttributeAll(
    source: string -> string, claims: set<string>, shares: map<string, Entry>, weights: map<string, int>)
      returns (tally: Tally)
    requires Splittable(shares, weights, claims)
    ensures Tallied(source, PartOf(shares, weights), claims, PaidKeys(shares, weights.Keys), tally)
  {
    tally := StartTally(claims);
    TallyStart(source, PartOf(shares, weights), claims, shares);
    var todo := weights.Keys;
    ghost var hotkeys := {};
    while todo != {}
      invariant todo <= weights.Keys && hotkeys == weights.Keys - todo
      invariant Tallied(source, PartOf(shares, weights), claims, PaidKeys(shares, hotkeys), tally)
      decreases todo
    {
      var h :| h in todo;
      Shift(weights.Keys, todo, h);
      tally := AttributeHotkey(source, claims, shares, weights, h, hotkeys, tally);
      todo, hotkeys := todo - {h}, hotkeys + {h};
    }
    assert hotkeys == weights.Keys;
  }

  method SumShares(entries: map<string, Entry>) returns (total: real)
    ensures total == Sum(entries.Keys, ShareOf(entries))
  {
    total := 0.0;
    var todo := entries.Keys;
    while todo != {}
      invariant todo <= entries.Keys && total == Sum(entries.Keys - todo, ShareOf(entries))
      decreases todo
    {
      var k :| k in todo;
      SumInsert(entries.Keys - todo, ShareOf(entries), k);
      Shift(entries.Keys, todo, k);
      total := total + entries[k].share;
      todo := todo - {k};
    }
    assert entries.Keys - todo == entries.Keys;
  }

  method ServeShares(shares: map<string, Entry>) returns (weights: map<string, int>)
    requires Positive(ByHotkey(shares, shares.Keys)) != {}
    ensures weights == Allocation(ByHotkey(shares, shares.Keys), PPM)
  {
    var credits := GroupByHotkey(shares);
    var r := AllocatePool(credits, PPM);
    weights := r.value;
  }

  lemma OfferSplittable(x: Offer)
    requires Accepted(x)
    ensures Splittable(Shares(x), Weights(x), x.terms.Keys)
  {
    SharesNonNegative(x);
    WeightsExact(x);
    forall h | h in Weights(x) ensures Positive(Parts(Shares(x), h)) != {} { PartsPayable(x, h); }
    assert "" !in Claims(x.rows);
  }

  lemma SortedTally(
    source: string -> string, part: string -> int, claims: set<string>, done: set<string>, o: Tally,
    rewarded: seq<string>)
    requires Tallied(source, part, claims, done, o) && rewarded == Sort(StrLeq, o.rewarded)
    ensures Tallied(source, part, claims, done, o.(rewarded := rewarded)) && Sorted(StrLeq, rewarded)
  {
    StrPreorder();
    SortSorted(StrLeq, o.rewarded);
    SortContents(StrLeq, o.rewarded);
    DistinctPermutation(o.rewarded, rewarded);
    forall k ensures k in rewarded <==> k in o.rewarded {
      assert k in rewarded <==> k in multiset(rewarded);
    }
  }

  method CompleteShares(x: Offer, totals: Credits, priced: Credits, internal: Credits)
    returns (shares: map<string, Entry>)
    requires Accepted(x) && Pricing(x, |x.rows|, totals, priced, internal)
    ensures shares == Shares(x)
  {
    var entries := RequestShares(x, totals, priced, internal);
    var claimed := SumShares(entries);
    shares := entries["" := Entry(Max(0.0, PPM as real - claimed), x.burn)];
  }

  /** From the exact shares to the served vector and its attribution. */
  method ServeOffer(
    source: string -> string, claims: set<string>, shares: map<string, Entry>, ghost w: map<string, int>)
      returns (weights: map<string, int>, tally: Tally)
    requires Positive(ByHotkey(shares, shares.Keys)) != {} && w == Allocation(ByHotkey(shares, shares.Keys), PPM)
    requires Splittable(shares, w, claims)
    ensures weights == w && Tallied(source, PartOf(shares, w), claims, PaidKeys(shares, w.Keys), tally)
    ensures Sorted(StrLeq, tally.rewarded)
  {
    weights := ServeShares(shares);
    tally := AttributeAll(source, claims, shares, weights);
    var rewarded := Sort(StrLeq, tally.rewarded);
    SortedTally(source, PartOf(shares, w), claims, PaidKeys(shares, w.Keys), tally, rewarded);
    tally := tally.(rewarded := rewarded);
  }

  /** Refused exactly on incomplete or malformed terms; otherwise the vector and its attribution. */
  method AllocateSubmissionWeights(x: Offer) returns (r: Option<(map<string, int>, Tally)>)
    ensures r.None? <==> !Accepted(x)
    ensures r.Some? <==>
      && x.burn in x.eligible && (forall c :: c in x.terms <==> exists i :: 0 <= i < |x.rows| && x.rows[i].claim == c)
      && (forall c :: c in x.base <==> c in x.terms)
      && forall c :: c in x.terms ==> x.terms[c].source != "" && 0 <= x.terms[c].ppm <= 1_000_000 && x.base[c] >= 0
    ensures r.Some? ==>
      && r.value.0 == Weights(x)
      && Tallied(SourceOf(x), Attributed(x), x.terms.Keys, PaidKeys(Shares(x), Weights(x).Keys), r.value.1)
      && Sorted(StrLeq, r.value.1.rewarded)
  {
    if x.terms.Keys != Claims(x.rows) || x.base.Keys != x.terms.Keys || x.burn !in x.eligible {
      return None;
    }
    var ok, totals, priced, internal := PriceArenas(x);
    if !ok {
      return None;
    }
    var shares := CompleteShares(x, totals, priced, internal);
    HotkeysPayable(x);
    OfferSplittable(x);
    var weights, tally := ServeOffer(SourceOf(x), x.terms.Keys, shares, Weights(x));
    r := Some((weights, tally));
  }

  lemma PositiveShareServed(x: Offer, k: string)
    requires Accepted(x) && k in Shares(x) && Shares(x)[k].share > 0.0
    ensures k in PaidKeys(Shares(x), Weights(x).Keys)
  {
    SharesNonNegative(x);
    var shares, h := Shares(x), Shares(x)[k].recipient;
    var f := Fiber(shares.Keys, RecipientOf(shares), h);
    SumNonNegative(f, ShareOf(shares));
    assert k in f && ShareOf(shares)(k) > 0.0;
    assert h in HotkeyShares(x) && HotkeyShares(x)[h] > 0.0;
  }

  lemma UnpaidIsZero(x: Offer, k: string)
    requires k in Shares(x) && Shares(x)[k].share <= 0.0
    ensures Attributed(x)(k) == 0
  {
    var h := RecipientOf(Shares(x))(k);
    assert k !in Positive(Parts(Shares(x), h));
  }

  lemma ServedKeys(x: Offer)
    requires Accepted(x)
    ensures PaidKeys(Shares(x), Weights(x).Keys) - {""} == ClaimKeys(x)
    ensures "" !in PaidKeys(Shares(x), Weights(x).Keys) ==> Attributed(x)("") == 0
  {
    SharesNonNegative(x);
    forall k | k in ClaimKeys(x) ensures k in PaidKeys(Shares(x), Weights(x).Keys) { PositiveShareServed(x, k); }
    if Shares(x)[""].share > 0.0 { PositiveShareServed(x, ""); } else { UnpaidIsZero(x, ""); }
  }

  lemma TallyByArena(source: string -> string, part: string -> int, claims: set<string>, done: set<string>, o: Tally)
    requires Tallied(source, part, claims, done, o)
    ensures SumInt(o.arenaShares.Keys, WeightOf(o.arenaShares)) == SumInt(done - {""}, part)
  {
    SumIntFibers(done - {""}, part, o.arenaShares.Keys, source, WeightOf(o.arenaShares));
  }

  lemma TallyByClaim(source: string -> string, part: string -> int, claims: set<string>, done: set<string>, o: Tally)
    requires Tallied(source, part, claims, done, o) && done - {""} <= claims && "" !in claims
    ensures SumInt(o.attribution.Keys, WeightOf(o.attribution)) == SumInt(done - {""}, part)
  {
    SumIntSame(done - {""}, part, WeightOf(o.attribution));
    SumIntSupport(o.attribution.Keys, done - {""}, WeightOf(o.attribution));
  }

  lemma ClaimsPlusBurn(x: Offer)
    requires Accepted(x)
    ensures SumInt(ClaimKeys(x), Attributed(x)) + Attributed(x)("") == PPM
  {
    AttributionExact(x);
    assert Shares(x).Keys == ClaimKeys(x) + {""};
    SumIntInsert(ClaimKeys(x), Attributed(x), "");
  }

  /** Whatever the call returns conserves the vector, by arena and by claim. */
  lemma OutcomeConserves(x: Offer, o: Tally)
    requires Accepted(x)
    requires Tallied(SourceOf(x), Attributed(x), x.terms.Keys, PaidKeys(Shares(x), Weights(x).Keys), o)
    ensures SumInt(o.arenaShares.Keys, WeightOf(o.arenaShares)) + o.burned == PPM
    ensures SumInt(o.attribution.Keys, WeightOf(o.attribution)) + o.burned == PPM
  {
    ServedKeys(x);
    ClaimsPlusBurn(x);
    OfferSplittable(x);
    TallyByArena(SourceOf(x), Attributed(x), x.terms.Keys, PaidKeys(Shares(x), Weights(x).Keys), o);
    TallyByClaim(SourceOf(x), Attributed(x), x.terms.Keys, PaidKeys(Shares(x), Weights(x).Keys), o);
  }
}
