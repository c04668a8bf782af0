/** What each submission and hotkey is due, row by row (`cacheon/arena_allocation.py`). */
module SubmissionShares {
  import opened Wrappers
  import opened Sums
  import opened PoolAllocation
  import opened SubmissionAllocation

  // ----- one row's share

  /** The row's frozen term pays, and is for the arena. */
  predicate Offered(x: Offer, i: nat, s: string)
    requires i < |x.rows|
  {
    var c := x.rows[i].claim;
    c in x.terms && c in x.base && x.terms[c].source == s && x.terms[c].ppm > 0
  }

  function TermOf(x: Offer, i: int): (ppm: int) {
    if 0 <= i < |x.rows| && x.rows[i].claim in x.terms then x.terms[x.rows[i].claim].ppm else 0
  }

  function StallFree(x: Offer): int -> int {
    i => if 0 <= i < |x.rows| && x.rows[i].claim in x.base then x.base[x.rows[i].claim] else 0
  }

  function PricedStallFree(x: Offer): int -> int {
    i => TermOf(x, i) * StallFree(x)(i)
  }

  function PricedCredit(x: Offer): int -> int {
    i => if 0 <= i < |x.rows| then TermOf(x, i) * x.rows[i].credit else 0
  }

  /** A value added up over the arena's paid rows among the first `n`. */
  function ArenaTotal(x: Offer, s: string, value: int -> int, n: nat): int
    requires n <= |x.rows|
  {
    if n == 0 then 0
    else ArenaTotal(x, s, value, n - 1) + if Offered(x, n - 1, s) then value(n - 1) else 0
  }

  ghost predicate Tallies(x: Offer, f: int -> real, value: int -> int) {
    forall i :: 0 <= i < |x.rows| && Paid(x, i) ==> f(i) == value(i) as real
  }

  lemma NonePaid(x: Offer, s: string, f: int -> real)
    ensures Sum(PaidUpTo(x, s, 0), f) == 0.0
  {
    assert PaidUpTo(x, s, 0) == {};
  }

  lemma ArenaNext(x: Offer, s: string, f: int -> real, value: int -> int, n: nat)
    requires n < |x.rows| && Tallies(x, f, value)
    ensures Sum(PaidUpTo(x, s, n + 1), f) ==
      Sum(PaidUpTo(x, s, n), f) + (if Offered(x, n, s) then value(n) else 0) as real
  {
    PaidNext(x, s, n, f);
    assert Offered(x, n, s) <==> Paid(x, n) && SourceOf(x)(x.rows[n].claim) == s;
  }

  ghost predicate Totalled(x: Offer, s: string, f: int -> real, value: int -> int, n: nat)
    requires n <= |x.rows|
  {
    Sum(PaidUpTo(x, s, n), f) == ArenaTotal(x, s, value, n) as real
  }

  lemma ArenaStep(x: Offer, s: string, f: int -> real, value: int -> int, n: nat)
    requires n < |x.rows| && Tallies(x, f, value) && Totalled(x, s, f, value, n)
    ensures Totalled(x, s, f, value, n + 1)
  {
    ArenaNext(x, s, f, value, n);
  }

  lemma ArenaTotals(x: Offer, s: string, f: int -> real, value: int -> int)
    requires Tallies(x, f, value)
    ensures Totalled(x, s, f, value, |x.rows|)
  {
    NonePaid(x, s, f);
    for n := 0 to |x.rows|
      invariant Totalled(x, s, f, value, n)
    {
      ArenaStep(x, s, f, value, n);
    }
  }

  ghost function BaseOf(x: Offer, s: string): int { ArenaTotal(x, s, StallFree(x), |x.rows|) }
  ghost function PriceOf(x: Offer, s: string): int { ArenaTotal(x, s, PricedStallFree(x), |x.rows|) }
  ghost function PoolOf(x: Offer, s: string): int { ArenaTotal(x, s, PricedCredit(x), |x.rows|) }

  lemma ArenaSums(x: Offer, s: string)
    ensures TotalBase(x, s) == BaseOf(x, s) as real
    ensures Priced(x, s) == PriceOf(x, s) as real
    ensures Internal(x, s) == PoolOf(x, s) as real
  {
    ArenaTotals(x, s, BaseAt(x), StallFree(x));
    ArenaTotals(x, s, PricedAt(x), PricedStallFree(x));
    ArenaTotals(x, s, CreditedAt(x), PricedCredit(x));
  }

  /** A row earns when it is paid, credited and its arena has stall-free credit. */
  ghost predicate Earning(x: Offer, i: nat)
    requires i < |x.rows| && x.rows[i].claim in x.terms
  {
    var t := x.terms[x.rows[i].claim];
    t.ppm > 0 && x.rows[i].credit > 0 && BaseOf(x, t.source) > 0
  }

  lemma EarnsIff(x: Offer, i: nat)
    requires Accepted(x) && i < |x.rows| && x.rows[i].claim in x.terms
    ensures Earns(x, i) <==> Earning(x, i)
  {
    ArenaSums(x, x.terms[x.rows[i].claim].source);
  }

  /** The mean term `price / base`, times the part `pay` of the pool. */
  function Portion(price: int, base: int, pay: int, pool: int): real
    requires base > 0 && pool > 0
  {
    price as real / base as real * (pay as real / pool as real)
  }

  lemma PortionIs(price: int, base: int, pay: int, pool: int)
    requires base > 0 && pool > 0
    ensures PoolPart(price as real, base as real, pay as real, pool as real) == Portion(price, base, pay, pool)
  {
  }

  lemma ShareIsPoolPart(x: Offer, i: nat, s: string)
    requires Earns(x, i) && s == SourceOf(x)(x.rows[i].claim)
    ensures Share(x)(i) == PoolPart(Priced(x, s), TotalBase(x, s), CreditedAt(x)(i), Internal(x, s))
  {
  }

  lemma PaysCredit(x: Offer, i: nat)
    requires Paid(x, i)
    ensures CreditedAt(x)(i) == PricedCredit(x)(i) as real
  {
  }

  lemma ArenaEarns(x: Offer, i: nat, s: string)
    requires Earns(x, i) && s == SourceOf(x)(x.rows[i].claim)
    ensures BaseOf(x, s) > 0 && PoolOf(x, s) > 0
  {
    ArenaSums(x, s);
    InternalPositive(x, i);
  }

  /** An earning row gets its arena's mean term times its part of the arena's priced credit, any other nothing. */
  lemma ExactShare(x: Offer, i: nat, s: string)
    requires Accepted(x) && i < |x.rows| && x.rows[i].claim in x.terms && s == x.terms[x.rows[i].claim].source
    ensures !Earning(x, i) ==> Share(x)(i) == 0.0
    ensures Earning(x, i) ==>
      && BaseOf(x, s) > 0 && PoolOf(x, s) > 0
      && Share(x)(i) == Portion(PriceOf(x, s), BaseOf(x, s), PricedCredit(x)(i), PoolOf(x, s))
  {
    EarnsIff(x, i);
    if Earns(x, i) { EarnedShare(x, i, s); }
  }

  lemma EarnedShare(x: Offer, i: nat, s: string)
    requires Earns(x, i) && s == x.terms[x.rows[i].claim].source
    ensures BaseOf(x, s) > 0 && PoolOf(x, s) > 0
    ensures Share(x)(i) == Portion(PriceOf(x, s), BaseOf(x, s), PricedCredit(x)(i), PoolOf(x, s))
  {
    ArenaEarns(x, i, s);
    ArenaSums(x, s);
    ShareIsPoolPart(x, i, s);
    PaysCredit(x, i);
    PortionIs(PriceOf(x, s), BaseOf(x, s), PricedCredit(x)(i), PoolOf(x, s));
  }

  lemma CrossShares(m: real, a: real, b: real, n: real)
    requires n > 0.0
    ensures m * (a / n) * b == m * (b / n) * a
  {
    assert a / n * b == b / n * a;
  }

  lemma CrossPortions(price: int, base: int, a: int, b: int, pool: int)
    requires base > 0 && pool > 0
    ensures Portion(price, base, a, pool) * b as real == Portion(price, base, b, pool) * a as real
  {
    CrossShares(price as real / base as real, a as real, b as real, pool as real);
  }

  /** Inside an arena shares are in the ratio of term times credit. */
  lemma ShareRatio(x: Offer, i: nat, j: nat, s: string)
    requires Accepted(x) && i < |x.rows| && j < |x.rows|
    requires x.rows[i].claim in x.terms && x.rows[j].claim in x.terms && Earning(x, i) && Earning(x, j)
    requires s == x.terms[x.rows[i].claim].source == x.terms[x.rows[j].claim].source
    ensures Share(x)(i) * PricedCredit(x)(j) as real == Share(x)(j) * PricedCredit(x)(i) as real
  {
    ExactShare(x, i, s);
    ExactShare(x, j, s);
    CrossPortions(PriceOf(x, s), BaseOf(x, s), PricedCredit(x)(i), PricedCredit(x)(j), PoolOf(x, s));
  }

  // ----- what a hotkey is due

  /** The row that counts for its claim: an earning row with no earning row of the same claim after it. */
  ghost predicate CountsUpTo(x: Offer, n: nat, i: int) {
    && 0 <= i < n <= |x.rows| && Earns(x, i)
    && forall j :: i < j < n && Earns(x, j) ==> x.rows[j].claim != x.rows[i].claim
  }

  lemma {:induction false} EntriesByRow(x: Offer, n: nat, i: int)
    requires n <= |x.rows| && CountsUpTo(x, n, i)
    ensures x.rows[i].claim in Entries(x, n)
    ensures Entries(x, n)[x.rows[i].claim] == Entry(Share(x)(i), Recipient(x, x.rows[i].hotkey))
  {
    if i < n - 1 { EntriesByRow(x, n - 1, i); }
  }

  lemma {:induction false} RowOfEntry(x: Offer, n: nat, k: string) returns (i: int)
    requires n <= |x.rows| && k in Entries(x, n)
    ensures CountsUpTo(x, n, i) && x.rows[i].claim == k
  {
    if Earns(x, n - 1) && x.rows[n - 1].claim == k {
      i := n - 1;
    } else {
      i := RowOfEntry(x, n - 1, k);
    }
  }

  /** The rows paid to a hotkey: its own while it is registered; the validator also takes unregistered ones. */
  ghost predicate PaysTo(x: Offer, i: int, h: string)
    requires 0 <= i < |x.rows|
  {
    if x.rows[i].hotkey in x.eligible then x.rows[i].hotkey == h else x.validator == h
  }

  ghost function RowsOf(x: Offer, h: string): set<int> {
    set i | 0 <= i < |x.rows| && CountsUpTo(x, |x.rows|, i) && PaysTo(x, i, h)
  }

  ghost function CountingRows(x: Offer): set<int> {
    set i | 0 <= i < |x.rows| && CountsUpTo(x, |x.rows|, i)
  }

  ghost function EntryKeys(x: Offer): set<string> {
    Entries(x, |x.rows|).Keys
  }

  lemma RowKey(x: Offer, i: int)
    requires i in CountingRows(x)
    ensures ClaimAt(x)(i) in EntryKeys(x) && ShareOf(Entries(x, |x.rows|))(ClaimAt(x)(i)) == Share(x)(i)
    ensures forall h :: PaysTo(x, i, h) <==> RecipientOf(Entries(x, |x.rows|))(ClaimAt(x)(i)) == h
  {
    EntriesByRow(x, |x.rows|, i);
  }

  lemma OneRowPerKey(x: Offer, i: int, j: int)
    requires i in CountingRows(x) && j in CountingRows(x) && ClaimAt(x)(i) == ClaimAt(x)(j)
    ensures i == j
  {
  }

  lemma RowsAreKeys(x: Offer, h: string)
    ensures Sum(Fiber(EntryKeys(x), RecipientOf(Entries(x, |x.rows|)), h), ShareOf(Entries(x, |x.rows|))) ==
      Sum(RowsOf(x, h), Share(x))
  {
    var e := Entries(x, |x.rows|);
    var rows, keys := RowsOf(x, h), Fiber(EntryKeys(x), RecipientOf(e), h);
    forall i | i in rows ensures ClaimAt(x)(i) in keys && ShareOf(e)(ClaimAt(x)(i)) == Share(x)(i) { RowKey(x, i); }
    forall i, j | i in rows && j in rows && ClaimAt(x)(i) == ClaimAt(x)(j) ensures i == j { OneRowPerKey(x, i, j); }
    forall k | k in keys ensures exists i :: i in rows && ClaimAt(x)(i) == k {
      var i := RowOfEntry(x, |x.rows|, k);
      RowKey(x, i);
      assert i in rows;
    }
    SumRename(rows, keys, ClaimAt(x), Share(x), ShareOf(e));
  }

  lemma ClaimedRows(x: Offer)
    ensures Claimed(x) == Sum(CountingRows(x), Share(x))
  {
    var e := Entries(x, |x.rows|);
    var rows, keys := CountingRows(x), EntryKeys(x);
    forall i | i in rows ensures ClaimAt(x)(i) in keys && ShareOf(e)(ClaimAt(x)(i)) == Share(x)(i) { RowKey(x, i); }
    forall i, j | i in rows && j in rows && ClaimAt(x)(i) == ClaimAt(x)(j) ensures i == j { OneRowPerKey(x, i, j); }
    forall k | k in keys ensures exists i :: i in rows && ClaimAt(x)(i) == k {
      var i := RowOfEntry(x, |x.rows|, k);
      assert i in rows && ClaimAt(x)(i) == k;
    }
    SumRename(rows, keys, ClaimAt(x), Share(x), ShareOf(e));
  }

  /** What no claim asks for, never negative. */
  ghost function Unclaimed(x: Offer): real {
    var asked := Sum(CountingRows(x), Share(x));
    if asked <= PPM as real then PPM as real - asked else 0.0
  }

  /** The hotkey's rows, and for the burn hotkey the unclaimed rest. */
  ghost function Due(x: Offer, h: string): real {
    Sum(RowsOf(x, h), Share(x)) + if h == x.burn then Unclaimed(x) else 0.0
  }

  lemma ClaimsOnly(x: Offer)
    requires Accepted(x)
    ensures "" !in EntryKeys(x)
  {
    EntriesPositive(x, |x.rows|);
  }

  lemma BurnJoins(x: Offer, h: string)
    requires "" !in EntryKeys(x)
    ensures Sum(Fiber(Shares(x).Keys, RecipientOf(Shares(x)), h), ShareOf(Shares(x))) ==
      Sum(Fiber(EntryKeys(x), RecipientOf(Entries(x, |x.rows|)), h), ShareOf(Entries(x, |x.rows|))) +
      (if h == x.burn then Max(0.0, PPM as real - Claimed(x)) else 0.0)
  {
    var e, all := Entries(x, |x.rows|), Shares(x);
    var claims := Fiber(EntryKeys(x), RecipientOf(e), h);
    SumSame(claims, ShareOf(all), ShareOf(e));
    if h == x.burn {
      assert Fiber(all.Keys, RecipientOf(all), h) == claims + {""};
      SumInsert(claims, ShareOf(all), "");
    } else {
      assert Fiber(all.Keys, RecipientOf(all), h) == claims;
    }
  }

  lemma NotARecipient(entries: map<string, Entry>, h: string)
    requires h !in Recipients(entries, entries.Keys)
    ensures Fiber(entries.Keys, RecipientOf(entries), h) == {}
  {
  }

  lemma SharedIs(entries: map<string, Entry>, h: string)
    ensures CreditOf(ByHotkey(entries, entries.Keys))(h) ==
      Sum(Fiber(entries.Keys, RecipientOf(entries), h), ShareOf(entries))
  {
    if h !in Recipients(entries, entries.Keys) { NotARecipient(entries, h); }
  }

  lemma JoinedIsDue(x: Offer, h: string)
    requires "" !in EntryKeys(x)
    ensures Sum(Fiber(Shares(x).Keys, RecipientOf(Shares(x)), h), ShareOf(Shares(x))) == Due(x, h)
  {
    BurnJoins(x, h);
    RowsAreKeys(x, h);
    assert Unclaimed(x) == Max(0.0, PPM as real - Claimed(x)) by { ClaimedRows(x); }
  }

  /** A hotkey's exact share is the sum of its own rows; unregistered rows go to the validator, the rest is burned. */
  lemma HotkeyShareIsDue(x: Offer, h: string)
    requires Accepted(x)
    ensures CreditOf(HotkeyShares(x))(h) == Due(x, h)
  {
    SharedIs(Shares(x), h);
    assert Sum(Fiber(Shares(x).Keys, RecipientOf(Shares(x)), h), ShareOf(Shares(x))) == Due(x, h) by {
      ClaimsOnly(x);
      JoinedIsDue(x, h);
    }
  }

  /** `part` of `pool`, out of a `whole`. */
  function Scale(part: real, pool: int, whole: real): real {
    if whole > 0.0 then part * pool as real / whole else 0.0
  }

  lemma ScaleNothing(pool: int, whole: real)
    ensures Scale(0.0, pool, whole) == 0.0
  {
  }

  lemma ScaleAll(part: real, pool: int)
    requires pool > 0
    ensures Scale(part, pool, pool as real) == part
  {
    ScaleCancels(part, pool as real);
  }

  lemma QuotaIsScale(credits: Credits, pool: nat, k: string)
    ensures Quota(credits, pool)(k) == Scale(CreditOf(credits)(k), pool, Total(credits))
  {
  }

  /** What the hotkey is due of the served vector, scaled down when more than all of it is claimed. */
  ghost function Served(x: Offer, h: string): real {
    Scale(Due(x, h), PPM, Max(Sum(CountingRows(x), Share(x)), PPM as real))
  }

  /** Nothing is scaled while the claims fit. */
  lemma ServedWhole(x: Offer, h: string)
    requires Sum(CountingRows(x), Share(x)) <= PPM as real
    ensures Served(x, h) == Due(x, h)
  {
    ScaleAll(Due(x, h), PPM);
  }

  lemma QuotaIsServed(x: Offer, h: string)
    requires Accepted(x)
    ensures Quota(HotkeyShares(x), PPM)(h) == Served(x, h)
  {
    HotkeysPayable(x);
    ClaimedRows(x);
    HotkeyShareIsDue(x, h);
    QuotaIsScale(HotkeyShares(x), PPM, h);
  }

  lemma NothingServed(x: Offer, h: string)
    requires Accepted(x) && h !in Weights(x)
    ensures Served(x, h) == 0.0
  {
    NoWeightNoCredit(x, h);
    HotkeyShareIsDue(x, h);
    ScaleNothing(PPM, Max(Sum(CountingRows(x), Share(x)), PPM as real));
  }

  /** The served weight is what the hotkey is due, to within one unit. */
  lemma WeightIsDue(x: Offer, h: string)
    requires Accepted(x)
    ensures -1.0 < WeightOf(Weights(x))(h) as real - Served(x, h) < 1.0
    ensures Sum(CountingRows(x), Share(x)) <= PPM as real ==> Served(x, h) == Due(x, h)
  {
    if Sum(CountingRows(x), Share(x)) <= PPM as real { ServedWhole(x, h); }
    if h in Weights(x) {
      AllocationWithinOne(HotkeyShares(x), PPM, h);
      QuotaIsServed(x, h);
    } else {
      NothingServed(x, h);
    }
  }

  lemma NoWeightNoCredit(x: Offer, h: string)
    requires Accepted(x) && h !in Weights(x)
    ensures CreditOf(HotkeyShares(x))(h) == 0.0
  {
    SharesNonNegative(x);
    HotkeySum(Shares(x));
  }

  // ----- the part behind each claim

  lemma PartsTotal(all: map<string, Entry>, h: string)
    requires forall k :: k in all ==> all[k].share >= 0.0
    ensures Total(Parts(all, h)) == Sum(Fiber(all.Keys, RecipientOf(all), h), ShareOf(all))
  {
    var parts := Parts(all, h);
    assert parts.Keys == Fiber(all.Keys, RecipientOf(all), h);
    SumSupport(parts.Keys, Positive(parts), CreditOf(parts));
    SumSame(parts.Keys, CreditOf(parts), ShareOf(all));
  }

  lemma PartsAre(x: Offer, k: string)
    requires Accepted(x) && k in Shares(x) && Shares(x)[k].recipient in Weights(x)
    ensures var h := Shares(x)[k].recipient;
      Total(Parts(Shares(x), h)) == CreditOf(HotkeyShares(x))(h)
  {
    SharesNonNegative(x);
    PartsTotal(Shares(x), Shares(x)[k].recipient);
  }

  lemma PartQuota(x: Offer, k: string, h: string)
    requires Accepted(x) && k in Shares(x) && Shares(x)[k].share > 0.0 && h == Shares(x)[k].recipient
    requires h in Weights(x) && Weights(x)[h] >= 0
    ensures k in Positive(Parts(Shares(x), h))
    ensures Quota(Parts(Shares(x), h), Weights(x)[h])(k) == Scale(Shares(x)[k].share, Weights(x)[h], Due(x, h))
  {
    var parts := Parts(Shares(x), h);
    HotkeyShareIsDue(x, h);
    PartsAre(x, k);
    assert k in parts && parts[k] == Shares(x)[k].share;
    QuotaIsScale(parts, Weights(x)[h], k);
  }

  lemma PartIs(x: Offer, k: string, h: string)
    requires k in Shares(x) && h == Shares(x)[k].recipient && h in Weights(x) && Weights(x)[h] >= 0
    requires k in Positive(Parts(Shares(x), h))
    ensures Attributed(x)(k) == Allocation(Parts(Shares(x), h), Weights(x)[h])[k]
  {
  }

  /** A claim's recorded part is its share of the hotkey's weight, to within one unit. */
  lemma PartIsShare(x: Offer, k: string, h: string)
    requires Accepted(x) && k in Shares(x) && Shares(x)[k].share > 0.0 && h == Shares(x)[k].recipient
    ensures h in Weights(x)
    ensures -1.0 < Attributed(x)(k) as real - Scale(Shares(x)[k].share, Weights(x)[h], Due(x, h)) < 1.0
  {
    PositiveShareServed(x, k);
    WeightsExact(x);
    PartQuota(x, k, h);
    PartIs(x, k, h);
    AllocationWithinOne(Parts(Shares(x), h), Weights(x)[h], k);
  }

  // ----- a claim's name does not show in the weights

  /** Row `i` of both offers is alike but for the claim it names. */
  ghost predicate RenamedRow(x: Offer, y: Offer, i: int) {
    && 0 <= i < |x.rows| && i < |y.rows| && x.rows[i].hotkey == y.rows[i].hotkey && x.rows[i].credit == y.rows[i].credit
    && x.rows[i].claim in x.terms && y.rows[i].claim in y.terms
    && x.terms[x.rows[i].claim] == y.terms[y.rows[i].claim]
    && x.rows[i].claim in x.base && y.rows[i].claim in y.base && x.base[x.rows[i].claim] == y.base[y.rows[i].claim]
  }

  /** The same rows for other claims, two rows naming one claim in `x` exactly when they do in `y`. */
  ghost predicate Renamed(x: Offer, y: Offer) {
    && |x.rows| == |y.rows| && x.eligible == y.eligible && x.validator == y.validator && x.burn == y.burn
    && (forall i :: 0 <= i < |x.rows| ==> RenamedRow(x, y, i))
    && forall i, j :: 0 <= i < j < |x.rows| ==>
         (x.rows[i].claim == x.rows[j].claim <==> y.rows[i].claim == y.rows[j].claim)
  }

  lemma RenamedPaid(x: Offer, y: Offer, i: int)
    requires RenamedRow(x, y, i)
    ensures Paid(x, i) <==> Paid(y, i)
    ensures SourceOf(x)(x.rows[i].claim) == SourceOf(y)(y.rows[i].claim)
    ensures BaseAt(x)(i) == BaseAt(y)(i) && PricedAt(x)(i) == PricedAt(y)(i) && CreditedAt(x)(i) == CreditedAt(y)(i)
  {
  }

  lemma RenamedPaidRows(x: Offer, y: Offer, s: string)
    requires Renamed(x, y)
    ensures PaidRows(x, s) == PaidRows(y, s)
  {
    forall i ensures i in PaidRows(x, s) <==> i in PaidRows(y, s) {
      if 0 <= i < |x.rows| { RenamedPaid(x, y, i); }
    }
  }

  lemma RenamedArena(x: Offer, y: Offer, s: string)
    requires Renamed(x, y)
    ensures TotalBase(x, s) == TotalBase(y, s) && Priced(x, s) == Priced(y, s) && Internal(x, s) == Internal(y, s)
  {
    RenamedPaidRows(x, y, s);
    forall i | i in PaidRows(x, s)
      ensures BaseAt(x)(i) == BaseAt(y)(i) && PricedAt(x)(i) == PricedAt(y)(i) && CreditedAt(x)(i) == CreditedAt(y)(i)
    {
      RenamedPaid(x, y, i);
    }
    SumSame(PaidRows(x, s), BaseAt(x), BaseAt(y));
    SumSame(PaidRows(x, s), PricedAt(x), PricedAt(y));
    SumSame(PaidRows(x, s), CreditedAt(x), CreditedAt(y));
  }

  lemma RenamedShare(x: Offer, y: Offer, i: nat)
    requires Renamed(x, y) && i < |x.rows|
    ensures (Earns(x, i) <==> Earns(y, i)) && Share(x)(i) == Share(y)(i)
  {
    RenamedPaid(x, y, i);
    RenamedArena(x, y, SourceOf(x)(x.rows[i].claim));
  }

  lemma RenamedCounts(x: Offer, y: Offer, i: nat)
    requires Renamed(x, y) && i < |x.rows|
    ensures CountsUpTo(x, |x.rows|, i) <==> CountsUpTo(y, |y.rows|, i)
  {
    forall j: nat | j < |x.rows| ensures Earns(x, j) <==> Earns(y, j) { RenamedShare(x, y, j); }
  }

  lemma RenamedRowsOf(x: Offer, y: Offer, h: string)
    requires Renamed(x, y)
    ensures RowsOf(x, h) == RowsOf(y, h) && CountingRows(x) == CountingRows(y)
  {
    forall i: nat | i < |x.rows|
      ensures (CountsUpTo(x, |x.rows|, i) <==> CountsUpTo(y, |y.rows|, i)) && (PaysTo(x, i, h) <==> PaysTo(y, i, h))
    {
      RenamedCounts(x, y, i);
      assert RenamedRow(x, y, i);
    }
  }

  lemma RenamedDue(x: Offer, y: Offer, h: string)
    requires Renamed(x, y)
    ensures Due(x, h) == Due(y, h)
  {
    RenamedRowsOf(x, y, h);
    forall i: nat | i < |x.rows| ensures Share(x)(i) == Share(y)(i) { RenamedShare(x, y, i); }
    SumSame(RowsOf(x, h), Share(x), Share(y));
    SumSame(CountingRows(x), Share(x), Share(y));
  }

  /** Renaming the claims leaves every weight as it was. */
  lemma RenamedWeights(x: Offer, y: Offer)
    requires Accepted(x) && Accepted(y) && Renamed(x, y)
    ensures Weights(x) == Weights(y)
  {
    forall h ensures CreditOf(HotkeyShares(x))(h) == CreditOf(HotkeyShares(y))(h) {
      HotkeyShareIsDue(x, h);
      HotkeyShareIsDue(y, h);
      RenamedDue(x, y, h);
    }
    HotkeysPayable(x);
    AllocationSame(HotkeyShares(x), HotkeyShares(y), PPM);
  }
}
