/** Arena weight settings and the version in force at a submission (`cacheon/arena_allocation.py`). */
module ArenaTerms {
  import opened Wrappers
  import opened Orders
  import opened Sums
  import opened PoolAllocation
  import PoolOutcome
  import opened SubmissionAllocation

  function RealOf(weights: map<string, int>): Credits {
    map k | k in weights :: weights[k] as real
  }

  predicate Settings(weights: map<string, int>) {
    weights != map[] && forall k :: k in weights ==> weights[k] >= 0
  }

  ghost function Committed(weights: map<string, int>): int {
    SumInt(weights.Keys, WeightOf(weights))
  }

  /** Only overcommitted settings are scaled down. */
  ghost function Normal(weights: map<string, int>): map<string, int> {
    if Committed(weights) <= PPM then weights
    else map k | k in weights :: WeightOf(Allocation(RealOf(weights), PPM))(k)
  }

  lemma OvercommittedPayable(weights: map<string, int>)
    requires Settings(weights) && Committed(weights) > 0
    ensures Positive(RealOf(weights)) != {} && Positive(RealOf(weights)) <= weights.Keys
  {
    if Positive(RealOf(weights)) == {} {
      forall k | k in weights ensures WeightOf(weights)(k) == 0 {
        assert k in Positive(RealOf(weights)) <==> weights[k] > 0;
      }
      SumIntSupport(weights.Keys, {}, WeightOf(weights));
    }
  }

  /** Normal terms keep every name, never exceed the whole, and use all of it when scaled. */
  lemma NormalFits(weights: map<string, int>)
    requires Settings(weights)
    ensures Normal(weights).Keys == weights.Keys && Settings(Normal(weights))
    ensures Committed(Normal(weights)) == if Committed(weights) <= PPM then Committed(weights) else PPM
  {
    if Committed(weights) > PPM {
      OvercommittedPayable(weights);
      var credits, n := RealOf(weights), Normal(weights);
      var alloc := Allocation(credits, PPM);
      AllocationServed(credits, PPM);
      SumIntSame(n.Keys, WeightOf(n), WeightOf(alloc));
      SumIntSupport(n.Keys, alloc.Keys, WeightOf(alloc));
    }
  }

  /** Normalizing twice is normalizing once. */
  lemma NormalIdempotent(weights: map<string, int>)
    requires Settings(weights)
    ensures Normal(Normal(weights)) == Normal(weights)
  {
    NormalFits(weights);
  }

  /** Scaling never reverses two arenas, and a zero setting stays zero. */
  lemma NormalMonotone(weights: map<string, int>, j: string, k: string)
    requires Settings(weights) && j in weights && k in weights && weights[j] > weights[k]
    ensures Normal(weights)[j] >= Normal(weights)[k]
    ensures weights[k] == 0 ==> Normal(weights)[k] == 0
  {
    if Committed(weights) > PPM {
      OvercommittedPayable(weights);
      var credits := RealOf(weights);
      AllocationServed(credits, PPM);
      assert k in Positive(credits) <==> weights[k] > 0;
      if weights[k] > 0 { AllocationMonotone(credits, PPM, j, k); }
    }
  }

  lemma CommittedIsTotal(weights: map<string, int>)
    requires Settings(weights)
    ensures Total(RealOf(weights)) == Committed(weights) as real
  {
    var credits := RealOf(weights);
    SumIntExact(weights.Keys, WeightOf(weights), CreditOf(credits));
    SumSupport(weights.Keys, Positive(credits), CreditOf(credits));
  }

  /** A setting's exact part of the whole. */
  function Proportional(weight: int, committed: int): real
    requires committed > 0
  {
    weight as real * PPM as real / committed as real
  }

  lemma QuotaProportional(weights: map<string, int>, k: string)
    requires Settings(weights) && k in weights && Committed(weights) > 0
    ensures Quota(RealOf(weights), PPM)(k) == Proportional(weights[k], Committed(weights))
  {
    CommittedIsTotal(weights);
    assert CreditOf(RealOf(weights))(k) == weights[k] as real;
  }

  lemma NothingProportional(committed: int)
    requires committed > 0
    ensures Proportional(0, committed) == 0.0
  {
  }

  /** Settings that fit are kept; any others are scaled in proportion, each to within one unit. */
  lemma NormalScales(weights: map<string, int>, k: string)
    requires Settings(weights) && k in weights
    ensures Committed(weights) <= PPM ==> Normal(weights) == weights
    ensures Committed(weights) > PPM ==>
      -1.0 < Normal(weights)[k] as real - Proportional(weights[k], Committed(weights)) < 1.0
  {
    if Committed(weights) > PPM {
      QuotaProportional(weights, k);
      assert k in Positive(RealOf(weights)) <==> weights[k] > 0;
      if weights[k] > 0 {
        AllocationWithinOne(RealOf(weights), PPM, k);
      } else {
        NothingProportional(Committed(weights));
      }
    }
  }

  /** Settings that fit, or their largest-remainder rounding to one million, zero settings kept at zero. */
  ghost predicate IsNormal(weights: map<string, int>, n: map<string, int>) {
    if SumInt(weights.Keys, PoolOutcome.Whole(weights)) <= 1_000_000 then n == weights
    else
      && n.Keys == weights.Keys
      && exists v :: PoolOutcome.Apportions(map k | k in weights :: weights[k] as real, 1_000_000, v) &&
           forall k :: k in n ==> n[k] == PoolOutcome.Whole(v)(k)
  }

  lemma NormalMeaning(weights: map<string, int>)
    requires Settings(weights)
    ensures IsNormal(weights, Normal(weights))
  {
    SumIntSame(weights.Keys, PoolOutcome.Whole(weights), WeightOf(weights));
    if Committed(weights) > PPM {
      OvercommittedPayable(weights);
      var credits := RealOf(weights);
      var k :| k in Positive(credits);
      var v := Allocation(credits, PPM);
      PoolOutcome.AllocationMeaning(credits, PPM, v);
      assert PoolOutcome.Apportions(map k | k in weights :: weights[k] as real, 1_000_000, v);
    }
  }

  method SumWeights(weights: map<string, int>) returns (total: int)
    ensures total == Committed(weights)
  {
    total := 0;
    var todo := weights.Keys;
    SumIntSupport(weights.Keys - todo, {}, WeightOf(weights));
    while todo != {}
      invariant todo <= weights.Keys && total == SumInt(weights.Keys - todo, WeightOf(weights))
      decreases todo
    {
      var k :| k in todo;
      Shift(weights.Keys, todo, k);
      SumIntInsert(weights.Keys - todo, WeightOf(weights), k);
      total := total + weights[k];
      todo := todo - {k};
    }
    assert weights.Keys - todo == weights.Keys;
  }

  method NormalizeWeights(weights: map<string, int>) returns (r: Option<map<string, int>>)
    ensures r == if Settings(weights) then Some(Normal(weights)) else None
    ensures r.None? <==> weights == map[] || exists k :: k in weights && weights[k] < 0
    ensures r.Some? ==> IsNormal(weights, r.value)
  {
    if !Settings(weights) {
      return None;
    }
    NormalMeaning(weights);
    var total := SumWeights(weights);
    if total <= PPM {
      return Some(weights);
    }
    OvercommittedPayable(weights);
    var scaled := AllocatePool(RealOf(weights), PPM);
    r := Some(map k | k in weights :: WeightOf(scaled.value)(k));
  }

  // ----- the schedule

  datatype Version = Version(fromBlock: nat, weights: map<string, int>, bonus: nat)

  /** History starts at block zero and its blocks increase strictly. */
  ghost predicate Schedule(history: seq<Version>) {
    && history != [] && history[0].fromBlock == 0
    && forall i, j :: 0 <= i < j < |history| ==> history[i].fromBlock < history[j].fromBlock
  }

  /** `next(row for row in reversed(history) if row[0] <= block)` */
  function VersionAt(history: seq<Version>, block: nat): Option<Version> {
    if history == [] then None
    else if history[|history| - 1].fromBlock <= block then Some(history[|history| - 1])
    else VersionAt(history[..|history| - 1], block)
  }

  /** Exactly one version is in force at a block: the last one not after it. */
  lemma {:induction false} VersionInForce(history: seq<Version>, block: nat, i: nat)
    requires Schedule(history) && i < |history|
    requires history[i].fromBlock <= block && (i + 1 < |history| ==> block < history[i + 1].fromBlock)
    ensures VersionAt(history, block) == Some(history[i])
  {
    if i < |history| - 1 {
      assert history[i + 1].fromBlock <= history[|history| - 1].fromBlock;
      VersionInForce(history[..|history| - 1], block, i);
    }
  }

  /** Appending a later version never changes the terms of an earlier submission. */
  lemma {:induction false} TermsFrozen(history: seq<Version>, later: seq<Version>, block: nat)
    requires Schedule(history + later) && history != []
    requires forall v :: v in later ==> block < v.fromBlock
    ensures VersionAt(history + later, block) == VersionAt(history, block)
    ensures VersionAt(history, block).Some?
  {
    if later == [] {
      assert history + later == history;
      VersionExists(history, block);
    } else {
      var n := |later| - 1;
      assert (history + later)[..|history| + n] == history + later[..n];
      assert later[n] in later;
      TermsFrozen(history, later[..n], block);
    }
  }

  lemma {:induction false} VersionExists(history: seq<Version>, block: nat)
    requires Schedule(history)
    ensures VersionAt(history, block).Some?
  {
    if |history| > 1 && block < history[|history| - 1].fromBlock {
      VersionExists(history[..|history| - 1], block);
    }
  }
}
