/** Largest-remainder rounding of a reward pool (`cacheon/economics.py`, `_allocate_pool`). */
module PoolAllocation {
  import opened Wrappers
  import opened Orders
  import opened Sums

  /** Integer credits and `Fraction` credits alike. */
  type Credits = map<string, real>

  function Positive(credits: Credits): set<string> {
    set k | k in credits && credits[k] > 0.0
  }

  function CreditOf(credits: Credits): string -> real {
    k => if k in credits then credits[k] else 0.0
  }

  function WeightOf(weights: map<string, int>): string -> int {
    k => if k in weights then weights[k] else 0
  }

  ghost function Total(credits: Credits): real {
    Sum(Positive(credits), CreditOf(credits))
  }

  /** The exact share of `pool` that `k` deserves. */
  ghost function Quota(credits: Credits, pool: nat): string -> real {
    k => if Total(credits) > 0.0 then CreditOf(credits)(k) * pool as real / Total(credits) else 0.0
  }

  ghost function Base(credits: Credits, pool: nat): string -> int {
    k => Quota(credits, pool)(k).Floor
  }

  ghost function Excess(credits: Credits, pool: nat): string -> real {
    k => Quota(credits, pool)(k) - Base(credits, pool)(k) as real
  }

  /** `divmod(credit * pool, total)[1]` */
  ghost function Remainder(credits: Credits, pool: nat, k: string): real {
    CreditOf(credits)(k) * pool as real - Base(credits, pool)(k) as real * Total(credits)
  }

  ghost function Missing(credits: Credits, pool: nat): int {
    pool - SumInt(Positive(credits), Base(credits, pool))
  }

  /** `(-remainder, name)` of `j` sorts strictly before that of `k`. */
  ghost predicate Ahead(credits: Credits, pool: nat, j: string, k: string) {
    var rj, rk := Remainder(credits, pool, j), Remainder(credits, pool, k);
    rj > rk || (rj == rk && StrLess(j, k))
  }

  ghost function Rank(credits: Credits, pool: nat, k: string): nat {
    |set j | j in Positive(credits) && Ahead(credits, pool, j, k)|
  }

  /** Every recipient gets the floor of its quota; the units left over go to the first ranks. */
  ghost function Allocation(credits: Credits, pool: nat): map<string, int> {
    map k | k in Positive(credits) ::
      Base(credits, pool)(k) + if Rank(credits, pool, k) < Missing(credits, pool) then 1 else 0
  }

  // ----- arithmetic of one quota

  lemma TotalPositive(credits: Credits)
    ensures Positive(credits) != {} <==> Total(credits) > 0.0
    ensures Total(credits) >= 0.0
  {
    SumNonNegative(Positive(credits), CreditOf(credits));
    assert forall k :: k in Positive(credits) ==> CreditOf(credits)(k) > 0.0;
  }

  lemma ScaledExcess(credits: Credits, pool: nat, k: string)
    requires Total(credits) > 0.0
    ensures Remainder(credits, pool, k) == Excess(credits, pool)(k) * Total(credits)
    ensures 0.0 <= Excess(credits, pool)(k) < 1.0
  {
    var t, x := Total(credits), CreditOf(credits)(k) * pool as real;
    assert x / t * t == x;
    assert (x / t - Base(credits, pool)(k) as real) * t == x / t * t - Base(credits, pool)(k) as real * t;
  }

  lemma ScaledLess(x: real, y: real, t: real)
    requires t > 0.0
    ensures x * t > y * t <==> x > y
  {
  }

  lemma DivideMonotone(x: real, y: real, t: real)
    requires t > 0.0 && x >= y
    ensures x / t >= y / t
  {
    assert x / t - y / t == (x - y) / t;
  }

  /** The larger fraction of a unit goes first; equal fractions in name order. */
  ghost predicate GoesFirst(credits: Credits, pool: nat, j: string, k: string) {
    var x, y := Quota(credits, pool)(j), Quota(credits, pool)(k);
    var a, b := x - x.Floor as real, y - y.Floor as real;
    a > b || (a == b && j != k && Alphabetical(j, k))
  }

  lemma AheadIff(credits: Credits, pool: nat, j: string, k: string)
    requires Total(credits) > 0.0
    ensures Ahead(credits, pool, j, k) <==> GoesFirst(credits, pool, j, k)
  {
    ScaledExcess(credits, pool, j);
    ScaledExcess(credits, pool, k);
    ScaledLess(Excess(credits, pool)(j), Excess(credits, pool)(k), Total(credits));
    ScaledLess(Excess(credits, pool)(k), Excess(credits, pool)(j), Total(credits));
    StrLeqMeaning(j, k);
  }

  lemma QuotasSum(credits: Credits, pool: nat)
    requires Total(credits) > 0.0
    ensures Sum(Positive(credits), Quota(credits, pool)) == pool as real
  {
    var p, t := Positive(credits), Total(credits);
    var rate := pool as real / t;
    forall k | k in p ensures Quota(credits, pool)(k) == rate * CreditOf(credits)(k) {
      assert CreditOf(credits)(k) * pool as real / t == rate * CreditOf(credits)(k);
    }
    SumScale(p, rate, CreditOf(credits), Quota(credits, pool));
    assert rate * t == pool as real;
  }

  /** What is missing is the sum of the excesses. */
  lemma MissingIsExcess(credits: Credits, pool: nat)
    requires Total(credits) > 0.0
    ensures Missing(credits, pool) as real == Sum(Positive(credits), Excess(credits, pool))
  {
    var p := Positive(credits);
    var base := (k: string) => Base(credits, pool)(k) as real;
    QuotasSum(credits, pool);
    SumAdd(p, base, Excess(credits, pool), Quota(credits, pool));
    SumIntExact(p, Base(credits, pool), base);
  }

  function Constant<K>(c: real): K -> real {
    k => c
  }

  lemma BelowCount<K>(p: set<K>, f: K -> real)
    requires forall k :: k in p ==> 0.0 <= f(k) < 1.0
    ensures 0.0 <= Sum(p, f) <= |p| as real && (p != {} ==> Sum(p, f) < |p| as real)
  {
    SumMonotone(p, Constant(0.0), f);
    SumMonotone(p, f, Constant(1.0));
    SumConstant(p, Constant(0.0), 0.0);
    SumConstant(p, Constant(1.0), 1.0);
    if k :| k in p { assert f(k) < Constant(1.0)(k); }
  }

  ghost function Fractional(credits: Credits, pool: nat): set<string>
    requires Total(credits) > 0.0
  {
    set k | k in Positive(credits) && Excess(credits, pool)(k) > 0.0
  }

  /** There are fewer units left over than recipients with a fractional quota. */
  lemma MissingBounds(credits: Credits, pool: nat)
    requires Total(credits) > 0.0
    ensures 0 <= Missing(credits, pool) < |Positive(credits)|
    ensures Missing(credits, pool) <= |Fractional(credits, pool)|
  {
    var p, fractional := Positive(credits), Fractional(credits, pool);
    MissingIsExcess(credits, pool);
    forall k ensures 0.0 <= Excess(credits, pool)(k) < 1.0 { ScaledExcess(credits, pool, k); }
    BelowCount(p, Excess(credits, pool));
    SumSupport(p, fractional, Excess(credits, pool));
    BelowCount(fractional, Excess(credits, pool));
    TotalPositive(credits);
  }

  // ----- ranks

  /** The order of `sorted(remainders, key=lambda row: (-row[0], row[1]))`. */
  ghost predicate NotBehind(credits: Credits, pool: nat, j: string, k: string) {
    !Ahead(credits, pool, k, j)
  }

  lemma RankOrder(credits: Credits, pool: nat, a: string, b: string, c: string)
    ensures NotBehind(credits, pool, a, b) || NotBehind(credits, pool, b, a)
    ensures NotBehind(credits, pool, a, b) && NotBehind(credits, pool, b, c) ==> NotBehind(credits, pool, a, c)
    ensures NotBehind(credits, pool, a, b) && NotBehind(credits, pool, b, a) ==> a == b
    ensures NotBehind(credits, pool, a, b) <==> a == b || Ahead(credits, pool, a, b)
  {
    StrTotal(a, b);
    StrTotal(b, c);
    StrTotal(a, c);
    if StrLeq(a, b) && StrLeq(b, a) { StrAntisymmetric(a, b); }
    if StrLeq(b, c) && StrLeq(c, b) { StrAntisymmetric(b, c); }
    if StrLeq(a, c) && StrLeq(c, a) { StrAntisymmetric(a, c); }
    if StrLeq(a, b) && StrLeq(b, c) { StrTransitive(a, b, c); }
  }

  /** A list of the recipients, each once, first the largest remainder. */
  ghost predicate Ranking(credits: Credits, pool: nat, order: seq<string>) {
    && Distinct(order)
    && (forall k :: k in order <==> k in Positive(credits))
    && (forall i, j :: 0 <= i < j < |order| ==> Ahead(credits, pool, order[i], order[j]))
  }

  lemma RankIsPosition(credits: Credits, pool: nat, order: seq<string>, i: nat)
    requires Ranking(credits, pool, order) && i < |order|
    ensures Rank(credits, pool, order[i]) == i
  {
    var ahead := set j | j in Positive(credits) && Ahead(credits, pool, j, order[i]);
    forall j ensures j in ahead <==> j in order[..i] {
      if j in order {
        var n :| 0 <= n < |order| && order[n] == j;
        RankOrder(credits, pool, order[n], order[i], j);
        if n >= i { assert !Ahead(credits, pool, j, order[i]); }
      }
    }
    assert ahead == Elements(order[..i]);
    DistinctSize(order[..i]);
  }

  lemma RankingExists(credits: Credits, pool: nat) returns (order: seq<string>)
    ensures Ranking(credits, pool, order) && |order| == |Positive(credits)|
  {
    var e := Enumerate(Positive(credits));
    var leq := (j: string, k: string) => NotBehind(credits, pool, j, k);
    forall a, b, c ensures (leq(a, b) || leq(b, a)) && (leq(a, b) && leq(b, c) ==> leq(a, c)) {
      RankOrder(credits, pool, a, b, c);
    }
    order := Sort(leq, e);
    SortContents(leq, e);
    SortSorted(leq, e);
    SortedIsRanking(credits, pool, leq, e, order);
  }

  lemma SortedIsRanking(credits: Credits, pool: nat, leq: (string, string) -> bool, e: seq<string>, order: seq<string>)
    requires forall j, k :: j in e && k in e ==> leq(j, k) == NotBehind(credits, pool, j, k)
    requires Distinct(e) && forall k :: k in e <==> k in Positive(credits)
    requires multiset(order) == multiset(e) && Sorted(leq, order)
    ensures Ranking(credits, pool, order)
  {
    DistinctPermutation(e, order);
    forall k ensures k in order <==> k in e {
      assert k in order <==> k in multiset(order);
    }
    forall i, j | 0 <= i < j < |order| ensures Ahead(credits, pool, order[i], order[j]) {
      assert leq(order[i], order[j]);
      RankOrder(credits, pool, order[i], order[j], order[j]);
    }
  }

  /** Exactly `m` recipients have a rank below `m`. */
  lemma FirstRanks(credits: Credits, pool: nat, m: nat)
    requires m <= |Positive(credits)|
    ensures |set k | k in Positive(credits) && Rank(credits, pool, k) < m| == m
  {
    var order := RankingExists(credits, pool);
    var first := set k | k in Positive(credits) && Rank(credits, pool, k) < m;
    forall k ensures k in first <==> k in order[..m] {
      if k in Positive(credits) {
        PositionDecides(credits, pool, order, k);
      }
    }
    assert first == Elements(order[..m]);
    DistinctSize(order[..m]);
  }

  // ----- who gets the units left over

  /** Every quota rounded down or up, all of the pool, and nobody rounded up before a recipient that goes first. */
  ghost predicate RoundsFairly(credits: Credits, pool: nat, v: map<string, int>) {
    && v.Keys == Positive(credits) && SumInt(Positive(credits), WeightOf(v)) == pool
    && (forall k :: k in v ==> v[k] == Quota(credits, pool)(k).Floor || v[k] == Quota(credits, pool)(k).Floor + 1)
    && forall j, k :: j in v && k in v && GoesFirst(credits, pool, j, k) ==>
         v[k] == Quota(credits, pool)(k).Floor + 1 ==> v[j] == Quota(credits, pool)(j).Floor + 1
  }

  lemma {:induction false} ClosedPrefix(order: seq<string>, top: set<string>)
    requires Distinct(order) && top <= Elements(order)
    requires forall i, j :: 0 <= i < j < |order| && order[j] in top ==> order[i] in top
    ensures |top| <= |order| && top == Elements(order[..|top|])
  {
    var n := |order| - 1;
    if order == [] {
      assert top == {};
    } else if order[n] in top {
      assert top == Elements(order) by { forall k | k in order ensures k in top { } }
      DistinctSize(order);
      assert order[..|order|] == order;
    } else {
      assert top <= Elements(order[..n]) by {
        forall k | k in top ensures k in order[..n] {
          var i :| 0 <= i < |order| && order[i] == k;
          assert order[..n][i] == k;
        }
      }
      ClosedPrefix(order[..n], top);
      assert order[..n][..|top|] == order[..|top|];
    }
  }

  ghost function RoundedUp(credits: Credits, pool: nat, v: map<string, int>): set<string> {
    set k | k in Positive(credits) && k in v && v[k] == Base(credits, pool)(k) + 1
  }

  lemma RoundedUpFirst(credits: Credits, pool: nat, v: map<string, int>, order: seq<string>)
    requires RoundsFairly(credits, pool, v) && Total(credits) > 0.0 && Ranking(credits, pool, order)
    ensures |RoundedUp(credits, pool, v)| == Missing(credits, pool) <= |order|
    ensures RoundedUp(credits, pool, v) == Elements(order[..Missing(credits, pool)])
  {
    var p, top := Positive(credits), RoundedUp(credits, pool, v);
    RaisedSum(p, top, Base(credits, pool), WeightOf(v));
    forall i, j | 0 <= i < j < |order| && order[j] in top ensures order[i] in top {
      AheadIff(credits, pool, order[i], order[j]);
    }
    ClosedPrefix(order, top);
  }

  /** The allocation is the only fair rounding. */
  lemma AllocationUnique(credits: Credits, pool: nat, v: map<string, int>)
    requires Positive(credits) != {} && RoundsFairly(credits, pool, v)
    ensures v == Allocation(credits, pool)
  {
    TotalPositive(credits);
    var order := RankingExists(credits, pool);
    RoundedUpFirst(credits, pool, v, order);
    forall k | k in v ensures v[k] == Allocation(credits, pool)[k] {
      PositionDecides(credits, pool, order, k);
      assert k in RoundedUp(credits, pool, v) <==> k in order[..Missing(credits, pool)];
    }
  }

  /** And it is one. */
  lemma AllocationFair(credits: Credits, pool: nat)
    requires Positive(credits) != {}
    ensures RoundsFairly(credits, pool, Allocation(credits, pool))
  {
    TotalPositive(credits);
    AllocationExact(credits, pool);
    var v := Allocation(credits, pool);
    forall j, k | j in v && k in v && GoesFirst(credits, pool, j, k) && Rank(credits, pool, k) < Missing(credits, pool)
      ensures Rank(credits, pool, j) < Missing(credits, pool)
    {
      AheadIff(credits, pool, j, k);
      RankBelow(credits, pool, j, k);
    }
  }

  /** Only what each recipient is credited counts, not how a zero credit is written. */
  lemma AllocationSame(credits: Credits, other: Credits, pool: nat)
    requires Positive(credits) != {} && forall k :: CreditOf(credits)(k) == CreditOf(other)(k)
    ensures Allocation(credits, pool) == Allocation(other, pool)
  {
    assert Positive(credits) == Positive(other) by {
      forall k ensures k in Positive(credits) <==> k in Positive(other) {
        assert CreditOf(credits)(k) == CreditOf(other)(k);
      }
    }
    SumSame(Positive(credits), CreditOf(credits), CreditOf(other));
    forall k ensures Quota(credits, pool)(k) == Quota(other, pool)(k) {
      assert CreditOf(credits)(k) == CreditOf(other)(k);
    }
    AllocationFair(credits, pool);
    FairSame(credits, other, pool, Allocation(credits, pool));
    AllocationUnique(other, pool, Allocation(credits, pool));
  }

  lemma FairSame(credits: Credits, other: Credits, pool: nat, v: map<string, int>)
    requires RoundsFairly(credits, pool, v) && Positive(credits) == Positive(other)
    requires forall k :: Quota(credits, pool)(k) == Quota(other, pool)(k)
    ensures RoundsFairly(other, pool, v)
  {
    forall j, k ensures GoesFirst(credits, pool, j, k) <==> GoesFirst(other, pool, j, k) {
      assert Quota(credits, pool)(j) == Quota(other, pool)(j) && Quota(credits, pool)(k) == Quota(other, pool)(k);
    }
  }

  lemma RankBelow(credits: Credits, pool: nat, j: string, k: string)
    requires Ahead(credits, pool, j, k)
    ensures Rank(credits, pool, j) <= Rank(credits, pool, k)
  {
    var below := set i | i in Positive(credits) && Ahead(credits, pool, i, j);
    var above := set i | i in Positive(credits) && Ahead(credits, pool, i, k);
    forall i | i in below ensures i in above {
      RankOrder(credits, pool, i, j, k);
      RankOrder(credits, pool, k, i, i);
      RankOrder(credits, pool, i, k, k);
      RankOrder(credits, pool, j, k, k);
    }
    SubsetSize(below, above);
  }

  // ----- the properties of largest-remainder rounding

  lemma RaisedSum<K>(p: set<K>, top: set<K>, base: K -> int, raised: K -> int)
    requires top <= p
    requires forall k :: k in p ==> raised(k) == base(k) + if k in top then 1 else 0
    ensures SumInt(p, raised) == SumInt(p, base) + |top|
  {
    var b, r := (k: K) => base(k) as real, (k: K) => raised(k) as real;
    var bonus := (k: K) => if k in top then 1.0 else 0.0;
    SumAdd(p, b, bonus, r);
    SumSupport(p, top, bonus);
    SumConstant(top, bonus, 1.0);
    SumIntExact(p, base, b);
    SumIntExact(p, raised, r);
  }

  /** The rounded parts add up to the pool exactly. */
  lemma AllocationExact(credits: Credits, pool: nat)
    requires Positive(credits) != {}
    ensures SumInt(Positive(credits), WeightOf(Allocation(credits, pool))) == pool
  {
    var p, m := Positive(credits), Missing(credits, pool);
    TotalPositive(credits);
    MissingBounds(credits, pool);
    FirstRanks(credits, pool, m);
    var first := set k | k in p && Rank(credits, pool, k) < m;
    RaisedSum(p, first, Base(credits, pool), WeightOf(Allocation(credits, pool)));
  }

  /** Each part is the floor or the ceiling of its quota. */
  lemma AllocationWithinOne(credits: Credits, pool: nat, k: string)
    requires k in Positive(credits)
    ensures -1.0 < Allocation(credits, pool)[k] as real - Quota(credits, pool)(k) < 1.0
    ensures Allocation(credits, pool)[k] >= 0
  {
    TotalPositive(credits);
    ScaledExcess(credits, pool, k);
    var fractional := set j | j in Positive(credits) && Excess(credits, pool)(j) > 0.0;
    if Excess(credits, pool)(k) == 0.0 {
      var ahead := set j | j in Positive(credits) && Ahead(credits, pool, j, k);
      forall j | j in fractional ensures j in ahead { AheadIff(credits, pool, j, k); }
      SubsetSize(fractional, ahead);
      MissingBounds(credits, pool);
    }
    assert Quota(credits, pool)(k) >= 0.0 by {
      assert credits[k] * pool as real >= 0.0;
    }
  }

  /** The served dictionary: its keys, its sign and its sum. */
  lemma AllocationServed(credits: Credits, pool: nat)
    requires Positive(credits) != {}
    ensures Allocation(credits, pool).Keys == Positive(credits)
    ensures SumInt(Allocation(credits, pool).Keys, WeightOf(Allocation(credits, pool))) == pool
    ensures forall k :: k in Allocation(credits, pool) ==> Allocation(credits, pool)[k] >= 0
  {
    AllocationExact(credits, pool);
    forall k | k in Positive(credits) ensures Allocation(credits, pool)[k] >= 0 {
      AllocationWithinOne(credits, pool, k);
    }
  }

  /** A larger credit never receives less. */
  lemma AllocationMonotone(credits: Credits, pool: nat, j: string, k: string)
    requires j in Positive(credits) && k in Positive(credits) && credits[j] > credits[k]
    ensures Allocation(credits, pool)[j] >= Allocation(credits, pool)[k]
  {
    TotalPositive(credits);
    var t := Total(credits);
    assert credits[j] * pool as real >= credits[k] * pool as real;
    DivideMonotone(credits[j] * pool as real, credits[k] * pool as real, t);
    assert Quota(credits, pool)(j) >= Quota(credits, pool)(k);
    assert Base(credits, pool)(j) >= Base(credits, pool)(k);
    if Base(credits, pool)(j) == Base(credits, pool)(k) {
      assert Remainder(credits, pool, j) >= Remainder(credits, pool, k);
      if pool > 0 {
        assert credits[j] * pool as real > credits[k] * pool as real;
        RankBelow(credits, pool, j, k);
      } else {
        AllocationExact(credits, pool);
        MissingBounds(credits, pool);
        EmptyPool(credits);
      }
    }
  }

  /** Nothing is left over from an empty pool. */
  lemma EmptyPool(credits: Credits)
    requires Positive(credits) != {}
    ensures Missing(credits, 0) == 0
  {
    TotalPositive(credits);
    MissingIsExcess(credits, 0);
    forall k ensures Excess(credits, 0)(k) == 0.0 {
      assert CreditOf(credits)(k) * 0.0 / Total(credits) == 0.0;
    }
    SumConstant(Positive(credits), Excess(credits, 0), 0.0);
  }

  // ----- optimality

  function Abs(x: real): real {
    if x < 0.0 then -x else x
  }

  function Deviation<K>(quota: K -> real, v: K -> int): K -> real {
    k => Abs(v(k) as real - quota(k))
  }

  /** `a` rounds `q` up or down according to `cut`. */
  predicate RoundedAt(q: real, a: int, cut: real) {
    var excess := q - q.Floor as real;
    (a == q.Floor + 1 && excess >= cut) || (a == q.Floor && excess <= cut)
  }

  lemma ProductSign(x: real, n: real)
    ensures x >= 0.0 && n >= 0.0 ==> x * n >= 0.0
    ensures x >= 0.0 && n <= 0.0 ==> x * n <= 0.0
  {
  }

  /** Distance to `q` lies above the line of slope `1 - 2 * cut` through the rounding chosen at `cut`. */
  lemma Subgradient(q: real, a: int, v: int, cut: real)
    requires 0.0 <= cut < 1.0 && RoundedAt(q, a, cut)
    ensures Abs(v as real - q) >= Abs(a as real - q) + (1.0 - 2.0 * cut) * (v - a) as real
  {
    var n := (v - a) as real;
    var down, up := cut * n, (1.0 - cut) * n;
    assert (1.0 - 2.0 * cut) * n == n - 2.0 * down;
    assert up == n - down;
    if v > a {
      ProductSign(cut, n - 1.0);
      assert cut * (n - 1.0) == down - cut;
    } else if v < a {
      ProductSign(1.0 - cut, n + 1.0);
      assert (1.0 - cut) * (n + 1.0) == up + (1.0 - cut);
    }
  }

  /** How much one split exceeds another. */
  function Gap<K>(a: K -> int, v: K -> int): K -> real {
    k => (v(k) - a(k)) as real
  }

  function Tilted<K>(slope: real, gap: K -> real): K -> real {
    k => slope * gap(k)
  }

  function Added<K>(f: K -> real, g: K -> real): K -> real {
    k => f(k) + g(k)
  }

  function AsReal<K>(f: K -> int): K -> real {
    k => f(k) as real
  }

  lemma GapsCancel<K>(p: set<K>, a: K -> int, v: K -> int)
    requires SumInt(p, a) == SumInt(p, v)
    ensures Sum(p, Gap(a, v)) == 0.0
  {
    SumIntExact(p, v, AsReal(v));
    SumIntExact(p, a, AsReal(a));
    SumAdd(p, Gap(a, v), AsReal(a), AsReal(v));
  }

  lemma TiltCancels<K>(p: set<K>, slope: real, a: K -> int, v: K -> int)
    requires SumInt(p, a) == SumInt(p, v)
    ensures Sum(p, Tilted(slope, Gap(a, v))) == 0.0
  {
    GapsCancel(p, a, v);
    SumScale(p, slope, Gap(a, v), Tilted(slope, Gap(a, v)));
  }

  /** What the rounding at `cut` plus the slope times the gap gives each key. */
  function Support<K>(quota: K -> real, a: K -> int, v: K -> int, cut: real): K -> real {
    Added(Deviation(quota, a), Tilted(1.0 - 2.0 * cut, Gap(a, v)))
  }

  lemma SupportBelow<K>(quota: K -> real, a: K -> int, v: K -> int, cut: real, k: K)
    requires 0.0 <= cut < 1.0 && RoundedAt(quota(k), a(k), cut)
    ensures Support(quota, a, v, cut)(k) <= Deviation(quota, v)(k)
  {
    Subgradient(quota(k), a(k), v(k), cut);
  }

  lemma SupportSum<K>(p: set<K>, quota: K -> real, a: K -> int, v: K -> int, cut: real)
    requires SumInt(p, a) == SumInt(p, v)
    ensures Sum(p, Support(quota, a, v, cut)) == Sum(p, Deviation(quota, a))
  {
    TiltCancels(p, 1.0 - 2.0 * cut, a, v);
    SumAdd(p, Deviation(quota, a), Tilted(1.0 - 2.0 * cut, Gap(a, v)), Support(quota, a, v, cut));
  }

  lemma CutOptimal<K>(p: set<K>, quota: K -> real, a: K -> int, v: K -> int, cut: real)
    requires 0.0 <= cut < 1.0 && forall k :: k in p ==> RoundedAt(quota(k), a(k), cut)
    requires SumInt(p, a) == SumInt(p, v)
    ensures Sum(p, Deviation(quota, a)) <= Sum(p, Deviation(quota, v))
  {
    SupportSum(p, quota, a, v, cut);
    forall k | k in p ensures Support(quota, a, v, cut)(k) <= Deviation(quota, v)(k) {
      SupportBelow(quota, a, v, cut, k);
    }
    SumMonotone(p, Support(quota, a, v, cut), Deviation(quota, v));
  }

  /** A cut between the remainders that are rounded up and those that are not. */
  lemma RoundingCut(credits: Credits, pool: nat) returns (cut: real)
    requires Positive(credits) != {}
    ensures 0.0 <= cut < 1.0
    ensures forall k :: k in Positive(credits) ==>
      RoundedAt(Quota(credits, pool)(k), WeightOf(Allocation(credits, pool))(k), cut)
  {
    TotalPositive(credits);
    MissingBounds(credits, pool);
    var order := RankingExists(credits, pool);
    var m := Missing(credits, pool);
    cut := Excess(credits, pool)(order[m]);
    ScaledExcess(credits, pool, order[m]);
    forall k | k in Positive(credits)
      ensures RoundedAt(Quota(credits, pool)(k), WeightOf(Allocation(credits, pool))(k), cut)
    {
      assert k in order;
      var i :| 0 <= i < |order| && order[i] == k;
      RankIsPosition(credits, pool, order, i);
      if i < m {
        AheadIff(credits, pool, order[i], order[m]);
      } else if i > m {
        AheadIff(credits, pool, order[m], order[i]);
      }
    }
  }

  /** No other whole-number split of the pool is closer to the quotas in total. */
  lemma AllocationOptimal(credits: Credits, pool: nat, v: map<string, int>)
    requires Positive(credits) != {}
    requires SumInt(Positive(credits), WeightOf(v)) == pool
    ensures Sum(Positive(credits), Deviation(Quota(credits, pool), WeightOf(Allocation(credits, pool))))
         <= Sum(Positive(credits), Deviation(Quota(credits, pool), WeightOf(v)))
  {
    var cut := RoundingCut(credits, pool);
    AllocationExact(credits, pool);
    CutOptimal(Positive(credits), Quota(credits, pool), WeightOf(Allocation(credits, pool)), WeightOf(v), cut);
  }

  // ----- the loops of `_allocate_pool`

  /** `(-remainder, name)` order over recorded remainders. */
  predicate RowLeq(remainders: Credits, j: string, k: string) {
    var rj, rk := CreditOf(remainders)(j), CreditOf(remainders)(k);
    rj > rk || (rj == rk && StrLeq(j, k))
  }

  lemma RowOrder(remainders: Credits, leq: (string, string) -> bool)
    requires forall j, k :: leq(j, k) == RowLeq(remainders, j, k)
    ensures TotalPreorder(leq)
  {
    StrPreorder();
    forall a, b ensures leq(a, b) || leq(b, a) { StrTotal(a, b); }
    forall a, b, c | leq(a, b) && leq(b, c) ensures leq(a, c) {
      if StrLeq(a, b) && StrLeq(b, c) { StrTransitive(a, b, c); }
    }
  }

  lemma RowsRank(credits: Credits, pool: nat, keys: seq<string>, remainders: Credits, leq: (string, string) -> bool)
    requires Distinct(keys) && forall k :: k in keys <==> k in Positive(credits)
    requires forall k :: k in keys ==> CreditOf(remainders)(k) == Remainder(credits, pool, k)
    requires forall j, k :: leq(j, k) == RowLeq(remainders, j, k)
    ensures Ranking(credits, pool, Sort(leq, keys)) && |Sort(leq, keys)| == |Positive(credits)|
  {
    RowOrder(remainders, leq);
    SortContents(leq, keys);
    SortSorted(leq, keys);
    forall j, k | j in keys && k in keys ensures leq(j, k) == NotBehind(credits, pool, j, k) {
      StrTotal(j, k);
      if StrLeq(j, k) && StrLeq(k, j) { StrAntisymmetric(j, k); }
    }
    SortedIsRanking(credits, pool, leq, keys, Sort(leq, keys));
    DistinctSize(keys);
    assert Positive(credits) == Elements(keys);
  }

  method SumCredits(credits: Credits, keys: seq<string>) returns (total: real)
    requires Distinct(keys)
    ensures total == Sum(Elements(keys), CreditOf(credits))
  {
    total := 0.0;
    for i := 0 to |keys|
      invariant total == Sum(Elements(keys[..i]), CreditOf(credits))
    {
      SumInsert(Elements(keys[..i]), CreditOf(credits), keys[i]);
      assert Elements(keys[..i+1]) == Elements(keys[..i]) + {keys[i]};
      total := total + CreditOf(credits)(keys[i]);
    }
    assert keys[..|keys|] == keys;
  }

  lemma QuotientIsBase(credits: Credits, pool: nat, k: string)
    requires k in Positive(credits) && Total(credits) > 0.0
    ensures (credits[k] * pool as real / Total(credits)).Floor == Base(credits, pool)(k)
    ensures credits[k] * pool as real - Base(credits, pool)(k) as real * Total(credits) == Remainder(credits, pool, k)
  {
    assert CreditOf(credits)(k) == credits[k];
    assert Quota(credits, pool)(k) == credits[k] * pool as real / Total(credits);
  }

  /** The divisions done so far. */
  ghost predicate Divided(
    credits: Credits, pool: nat, done: set<string>, result: map<string, int>, remainders: Credits, handed: int)
  {
    && result.Keys == remainders.Keys == done
    && (forall k :: k in result ==> result[k] == Base(credits, pool)(k))
    && (forall k :: k in remainders ==> remainders[k] == Remainder(credits, pool, k))
    && handed == SumInt(done, Base(credits, pool))
  }

  lemma DividedStep(
    credits: Credits, pool: nat, done: set<string>, result: map<string, int>, remainders: Credits, handed: int,
    k: string, quotient: int, rest: real)
    requires Divided(credits, pool, done, result, remainders, handed) && k !in done
    requires quotient == Base(credits, pool)(k) && rest == Remainder(credits, pool, k)
    ensures Divided(credits, pool, done + {k}, result[k := quotient], remainders[k := rest], handed + quotient)
  {
    SumIntInsert(done, Base(credits, pool), k);
  }

  method DivideOne(credits: Credits, pool: nat, k: string, total: real) returns (quotient: int, rest: real)
    requires k in Positive(credits) && total == Total(credits) > 0.0
    ensures quotient == Base(credits, pool)(k) && rest == Remainder(credits, pool, k)
  {
    QuotientIsBase(credits, pool, k);
    quotient := (credits[k] * pool as real / total).Floor;
    rest := credits[k] * pool as real - quotient as real * total;
  }

  /** The floors of the quotas, with the remainders left by each division. */
  method DivideCredits(credits: Credits, pool: nat, keys: seq<string>, total: real)
      returns (result: map<string, int>, remainders: Credits, handed: int)
    requires Distinct(keys) && Elements(keys) == Positive(credits) && total == Total(credits) > 0.0
    ensures Divided(credits, pool, Positive(credits), result, remainders, handed)
  {
    result, remainders, handed := map[], map[], 0;
    for i := 0 to |keys|
      invariant Divided(credits, pool, Elements(keys[..i]), result, remainders, handed)
    {
      var k := keys[i];
      PrefixElements(keys, i);
      var quotient, rest := DivideOne(credits, pool, k, total);
      DividedStep(credits, pool, Elements(keys[..i]), result, remainders, handed, k, quotient, rest);
      result, remainders, handed := result[k := quotient], remainders[k := rest], handed + quotient;
    }
    assert keys[..|keys|] == keys;
  }

  lemma PrefixElements<T>(keys: seq<T>, i: nat)
    requires Distinct(keys) && i < |keys|
    ensures Elements(keys[..i + 1]) == Elements(keys[..i]) + {keys[i]} && keys[i] !in Elements(keys[..i]) &&
      keys[i] in Elements(keys)
  {
  }

  /** One more unit for each of the first `missing` rows. */
  method RaiseFirst(base: map<string, int>, order: seq<string>, missing: nat) returns (result: map<string, int>)
    requires Distinct(order) && missing <= |order| && Elements(order) <= base.Keys
    ensures result.Keys == base.Keys
    ensures forall k :: k in base ==> result[k] == base[k] + if k in order[..missing] then 1 else 0
  {
    result := base;
    for i := 0 to missing
      invariant result.Keys == base.Keys
      invariant forall k :: k in base ==> result[k] == base[k] + if k in order[..i] then 1 else 0
    {
      assert order[i] in Elements(order) && order[i] !in order[..i];
      result := result[order[i] := result[order[i]] + 1];
      assert order[..i+1] == order[..i] + [order[i]];
    }
  }

  /** The keys by descending remainder, then by name. */
  method RankRows(ghost credits: Credits, ghost pool: nat, keys: seq<string>, remainders: Credits)
    returns (order: seq<string>)
    requires Distinct(keys) && forall k :: k in keys <==> k in Positive(credits)
    requires forall k :: k in keys ==> CreditOf(remainders)(k) == Remainder(credits, pool, k)
    ensures Ranking(credits, pool, order) && |order| == |Positive(credits)|
  {
    var leq := (j: string, k: string) => RowLeq(remainders, j, k);
    RowsRank(credits, pool, keys, remainders, leq);
    order := Sort(leq, keys);
  }

  /** The error is raised exactly when nothing has positive credit. */
  method AllocatePool(credits: Credits, pool: nat) returns (r: Option<map<string, int>>)
    ensures r == if Positive(credits) == {} then None else Some(Allocation(credits, pool))
  {
    var keys := SortedKeys(Positive(credits));
    assert Elements(keys) == Positive(credits);
    var total := SumCredits(credits, keys);
    TotalPositive(credits);
    if total <= 0.0 {
      return None;
    }
    var base, remainders, handed := DivideCredits(credits, pool, keys, total);
    var missing := pool - handed;
    MissingBounds(credits, pool);
    var order := RankRows(credits, pool, keys, remainders);
    var result := RaiseFirst(base, order, missing);
    RaisedIsAllocation(credits, pool, order, base, result);
    r := Some(result);
  }

  lemma RaisedIsAllocation(
    credits: Credits, pool: nat, order: seq<string>, base: map<string, int>, result: map<string, int>)
    requires Ranking(credits, pool, order) && 0 <= Missing(credits, pool) <= |order|
    requires base.Keys == result.Keys == Positive(credits)
    requires forall k :: k in base ==> base[k] == Base(credits, pool)(k)
    requires forall k :: k in base ==> result[k] == base[k] + if k in order[..Missing(credits, pool)] then 1 else 0
    ensures result == Allocation(credits, pool)
  {
    forall k | k in result ensures result[k] == Allocation(credits, pool)[k] {
      PositionDecides(credits, pool, order, k);
    }
  }

  lemma PositionDecides(credits: Credits, pool: nat, order: seq<string>, k: string)
    requires Ranking(credits, pool, order) && k in Positive(credits)
    ensures forall m: nat :: m <= |order| ==> (k in order[..m] <==> Rank(credits, pool, k) < m)
  {
    assert k in order;
    var i :| 0 <= i < |order| && order[i] == k;
    RankIsPosition(credits, pool, order, i);
    forall m: nat | m <= |order| ensures k in order[..m] <==> i < m {
      if k in order[..m] { var n :| 0 <= n < m && order[n] == k; assert n == i; }
      if i < m { assert order[..m][i] == k; }
    }
  }
}
