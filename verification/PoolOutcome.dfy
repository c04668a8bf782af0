/** Largest-remainder rounding without quotas by formula (`cacheon/economics.py`, `_allocate_pool`). */
module PoolOutcome {
  import opened Orders
  import opened Sums
  import opened PoolAllocation

  ghost function Real(q: map<string, real>): string -> real {
    k => if k in q then q[k] else 0.0
  }

  ghost function Whole(v: map<string, int>): string -> int {
    k => if k in v then v[k] else 0
  }

  /** Exact parts of the pool, one per positive credit, in proportion to the credits. */
  ghost predicate Proportional(credits: map<string, real>, pool: int, q: map<string, real>) {
    && (forall k :: k in q <==> k in credits && credits[k] > 0.0)
    && Sum(q.Keys, Real(q)) == pool as real
    && forall j, k :: j in q && k in q ==> q[j] * credits[k] == q[k] * credits[j]
  }

  /** The larger fraction of a unit is served first, equal fractions in name order. */
  ghost predicate ServedFirst(q: map<string, real>, j: string, k: string)
    requires j in q && k in q
  {
    var a, b := q[j] - q[j].Floor as real, q[k] - q[k].Floor as real;
    a > b || (a == b && j != k && Alphabetical(j, k))
  }

  /** Whole parts of the same pool, each less than one unit off, where nobody is raised before one served first. */
  ghost predicate Rounds(q: map<string, real>, pool: int, v: map<string, int>) {
    && v.Keys == q.Keys && SumInt(v.Keys, Whole(v)) == pool
    && (forall k :: k in v ==> -1.0 < v[k] as real - q[k] < 1.0)
    && forall j, k :: j in v && k in v && v[k] as real > q[k] && ServedFirst(q, j, k) ==> v[j] as real > q[j]
  }

  ghost predicate Apportions(credits: map<string, real>, pool: int, v: map<string, int>) {
    exists q :: Proportional(credits, pool, q) && Rounds(q, pool, v)
  }

  // ----- the quotas are the only proportional parts

  ghost function Quotas(credits: Credits, pool: nat): map<string, real> {
    map k | k in Positive(credits) :: Quota(credits, pool)(k)
  }

  lemma CrossQuota(a: real, b: real, pool: real, t: real)
    requires t > 0.0
    ensures a * pool / t * b == b * pool / t * a
  {
    assert a * pool / t * b == a * b * (pool / t) && b * pool / t * a == a * b * (pool / t);
  }

  lemma QuotasCross(credits: Credits, pool: nat, j: string, k: string)
    requires Total(credits) > 0.0 && j in Positive(credits) && k in Positive(credits)
    ensures Quota(credits, pool)(j) * credits[k] == Quota(credits, pool)(k) * credits[j]
  {
    var a, b, t := credits[j], credits[k], Total(credits);
    assert Quota(credits, pool)(j) == a * pool as real / t && Quota(credits, pool)(k) == b * pool as real / t;
    CrossQuota(a, b, pool as real, t);
  }

  lemma QuotasProportional(credits: Credits, pool: nat)
    requires Positive(credits) != {}
    ensures Proportional(credits, pool, Quotas(credits, pool))
  {
    var q := Quotas(credits, pool);
    TotalPositive(credits);
    QuotasSum(credits, pool);
    SumSame(Positive(credits), Real(q), Quota(credits, pool));
    assert q.Keys == Positive(credits);
    forall j, k | j in q && k in q ensures q[j] * credits[k] == q[k] * credits[j] {
      QuotasCross(credits, pool, j, k);
    }
  }

  lemma CancelTotal(q: real, c: real, pool: real, t: real)
    requires t > 0.0 && q * t == c * pool
    ensures q == c * pool / t
  {
    assert q * t / t == q;
  }

  lemma ProportionalOnce(credits: Credits, pool: nat, q: map<string, real>)
    requires Positive(credits) != {} && Proportional(credits, pool, q)
    ensures q == Quotas(credits, pool)
  {
    assert q.Keys == Positive(credits);
    TotalPositive(credits);
    forall k | k in q ensures q[k] == Quota(credits, pool)(k) { PartIsQuota(credits, pool, q, k); }
  }

  lemma PartsCross(credits: Credits, pool: nat, q: map<string, real>, k: string)
    requires Proportional(credits, pool, q) && q.Keys == Positive(credits) && k in q
    ensures credits[k] * Sum(q.Keys, Real(q)) == q[k] * Total(credits)
  {
    forall j | j in q ensures credits[k] * Real(q)(j) == q[k] * CreditOf(credits)(j) {
      CrossAt(credits, pool, q, j, k);
    }
    CrossSums(q.Keys, Real(q), CreditOf(credits), credits[k], q[k]);
  }

  lemma QuotaFrom(credits: Credits, pool: nat, k: string, part: real)
    requires Total(credits) > 0.0 && k in credits && part * Total(credits) == credits[k] * pool as real
    ensures part == Quota(credits, pool)(k)
  {
    CancelTotal(part, credits[k], pool as real, Total(credits));
  }

  lemma PartIsQuota(credits: Credits, pool: nat, q: map<string, real>, k: string)
    requires Total(credits) > 0.0 && Proportional(credits, pool, q) && q.Keys == Positive(credits) && k in q
    ensures q[k] == Quota(credits, pool)(k)
  {
    PartsCross(credits, pool, q, k);
    QuotaFrom(credits, pool, k, q[k]);
  }

  lemma CrossAt(credits: Credits, pool: nat, q: map<string, real>, j: string, k: string)
    requires Proportional(credits, pool, q) && j in q && k in q
    ensures credits[k] * Real(q)(j) == q[k] * CreditOf(credits)(j)
  {
    assert q[j] * credits[k] == q[k] * credits[j];
  }

  lemma CrossSums<K>(s: set<K>, f: K -> real, g: K -> real, x: real, y: real)
    requires forall k :: k in s ==> x * f(k) == y * g(k)
    ensures x * Sum(s, f) == y * Sum(s, g)
  {
    var crossed := (k: K) => x * f(k);
    SumScale(s, x, f, crossed);
    SumScale(s, y, g, crossed);
  }

  // ----- and the allocation the only rounding

  lemma RoundedUp(q: real, v: int)
    requires -1.0 < v as real - q < 1.0
    ensures v == q.Floor || v == q.Floor + 1
    ensures v as real > q <==> v == q.Floor + 1
  {
  }

  lemma RoundsIsFair(credits: Credits, pool: nat, v: map<string, int>)
    requires Positive(credits) != {} && Rounds(Quotas(credits, pool), pool, v)
    ensures RoundsFairly(credits, pool, v)
  {
    var q := Quotas(credits, pool);
    assert v.Keys == Positive(credits);
    SumIntSame(v.Keys, Whole(v), WeightOf(v));
    forall k | k in v ensures v[k] == Quota(credits, pool)(k).Floor || v[k] == Quota(credits, pool)(k).Floor + 1 {
      RoundedUp(q[k], v[k]);
    }
    forall j, k | j in v && k in v && GoesFirst(credits, pool, j, k) && v[k] == Quota(credits, pool)(k).Floor + 1
      ensures v[j] == Quota(credits, pool)(j).Floor + 1
    {
      RoundedUp(q[j], v[j]);
      RoundedUp(q[k], v[k]);
      assert ServedFirst(q, j, k);
    }
  }

  lemma FairRounds(credits: Credits, pool: nat)
    requires Positive(credits) != {}
    ensures Rounds(Quotas(credits, pool), pool, Allocation(credits, pool))
  {
    var q, v := Quotas(credits, pool), Allocation(credits, pool);
    AllocationFair(credits, pool);
    SumIntSame(v.Keys, Whole(v), WeightOf(v));
    forall k | k in v ensures -1.0 < v[k] as real - q[k] < 1.0 { AllocationWithinOne(credits, pool, k); }
    forall j, k | j in v && k in v && v[k] as real > q[k] && ServedFirst(q, j, k) ensures v[j] as real > q[j] {
      RoundedUp(q[j], v[j]);
      RoundedUp(q[k], v[k]);
      assert GoesFirst(credits, pool, j, k);
    }
  }

  /** The allocation is the one rounding of the proportional parts that serves larger fractions first. */
  lemma AllocationMeaning(credits: Credits, pool: nat, v: map<string, int>)
    requires exists k :: k in credits && credits[k] > 0.0
    ensures v == Allocation(credits, pool) <==> Apportions(credits, pool, v)
  {
    var k :| k in credits && credits[k] > 0.0;
    assert k in Positive(credits);
    QuotasProportional(credits, pool);
    FairRounds(credits, pool);
    if Apportions(credits, pool, v) {
      var q :| Proportional(credits, pool, q) && Rounds(q, pool, v);
      ProportionalOnce(credits, pool, q);
      RoundsIsFair(credits, pool, v);
      AllocationUnique(credits, pool, v);
    }
  }
}
