/** Slot-audit counters and the gate that grades them (`cacheon/audit.py`, `cacheon/audit_gate.py`). */
module AuditGate {
  import opened Orders
  import opened Sums
  import opened Wrappers

  // ----- counters

  /** What a worker records about one slot. */
  datatype Unit =
    | Graded(slot: string, fraction: real, bar: real)
    | Pruned(slot: string)
    | Incomparable(slot: string)
    | Refused(slot: string)

  datatype Stats = Stats(
    n: int, violations: int, refused: int, errors: int, worst: real, bar: Option<real>, pruned: int)

  const FRESH := Stats(0, 0, 0, 0, 1.0, None, 0)

  function StatsAt(stats: map<string, Stats>, slot: string): Stats {
    if slot in stats then stats[slot] else FRESH
  }

  function Recorded(s: Stats, u: Unit): Stats {
    match u
    case Graded(_, fraction, bar) =>
      s.(n := s.n + 1, worst := if fraction < s.worst then fraction else s.worst, bar := Some(bar),
         violations := s.violations + if fraction < bar then 1 else 0)
    case Pruned(_) => s.(pruned := s.pruned + 1)
    case Incomparable(_) => s.(errors := s.errors + 1)
    case Refused(_) => s.(refused := s.refused + 1)
  }

  /** One worker's rolling statistics by slot. */
  class Worker {
    var stats: map<string, Stats>

    constructor ()
      ensures stats == map[]
    {
      stats := map[];
    }

    /** `_slot_stats`: the slot's counters, created on first use. */
    method SlotStats(slot: string) returns (s: Stats)
      modifies this
      ensures stats == old(stats)[slot := s] && s == StatsAt(old(stats), slot)
    {
      if slot !in stats {
        stats := stats[slot := FRESH];
      }
      s := stats[slot];
    }

    method RecordFraction(slot: string, fraction: real, bar: real)
      modifies this
      ensures stats == Applied(old(stats), Graded(slot, fraction, bar))
    {
      var s := SlotStats(slot);
      s := s.(bar := Some(bar), n := s.n + 1, worst := if fraction < s.worst then fraction else s.worst);
      if fraction < bar {
        s := s.(violations := s.violations + 1);
      }
      stats := stats[slot := s];
    }

    method RecordPruned(slot: string)
      modifies this
      ensures stats == Applied(old(stats), Pruned(slot))
    {
      var s := SlotStats(slot);
      stats := stats[slot := s.(pruned := s.pruned + 1)];
    }

    method CompareError(slot: string)
      modifies this
      ensures stats == Applied(old(stats), Incomparable(slot))
    {
      var s := SlotStats(slot);
      stats := stats[slot := s.(errors := s.errors + 1)];
    }

    method BaselineRefused(slot: string)
      modifies this
      ensures stats == Applied(old(stats), Refused(slot))
    {
      var s := SlotStats(slot);
      stats := stats[slot := s.(refused := s.refused + 1)];
    }
  }

  function Applied(stats: map<string, Stats>, u: Unit): map<string, Stats> {
    stats[u.slot := Recorded(StatsAt(stats, u.slot), u)]
  }

  /** The statistics after a worker's units in order. */
  function After(units: seq<Unit>): map<string, Stats> {
    if units == [] then map[] else Applied(After(units[..|units| - 1]), units[|units| - 1])
  }

  function Count(units: seq<Unit>, f: Unit -> bool): nat {
    if units == [] then 0 else Count(units[..|units| - 1], f) + if f(units[|units| - 1]) then 1 else 0
  }

  function IsGraded(slot: string): Unit -> bool { (u: Unit) => u.Graded? && u.slot == slot }
  function IsViolation(slot: string): Unit -> bool { (u: Unit) => u.Graded? && u.slot == slot && u.fraction < u.bar }
  function IsPruned(slot: string): Unit -> bool { (u: Unit) => u.Pruned? && u.slot == slot }
  function IsIncomparable(slot: string): Unit -> bool { (u: Unit) => u.Incomparable? && u.slot == slot }
  function IsRefused(slot: string): Unit -> bool { (u: Unit) => u.Refused? && u.slot == slot }

  /** A slot's counters are the counts of its units; the worst fraction is the least, at most one. */
  ghost predicate Exact(units: seq<Unit>, slot: string, s: Stats) {
    && s.n == Count(units, IsGraded(slot)) && s.violations == Count(units, IsViolation(slot))
    && s.pruned == Count(units, IsPruned(slot)) && s.errors == Count(units, IsIncomparable(slot))
    && s.refused == Count(units, IsRefused(slot))
    && s.worst <= 1.0 && (forall u :: u in units && u.Graded? && u.slot == slot ==> s.worst <= u.fraction)
    && (s.worst == 1.0 || exists u :: u in units && u.Graded? && u.slot == slot && u.fraction == s.worst)
    && (s.bar.None? <==> s.n == 0)
  }

  lemma {:induction false} CountersExact(units: seq<Unit>, slot: string)
    ensures Exact(units, slot, StatsAt(After(units), slot))
    ensures slot in After(units) <==> exists u :: u in units && u.slot == slot
  {
    if units != [] {
      var init, u := units[..|units| - 1], units[|units| - 1];
      assert units == init + [u];
      CountersExact(init, slot);
      assert forall x :: x in units <==> x in init || x == u;
      if u.slot == slot { assert u in units; }
    }
  }

  ghost predicate LastGraded(units: seq<Unit>, slot: string, i: int) {
    && 0 <= i < |units| && units[i].Graded? && units[i].slot == slot
    && forall j :: i < j < |units| ==> !(units[j].Graded? && units[j].slot == slot)
  }

  /** A slot's bar is the one its last graded unit was held to. */
  lemma {:induction false} BarIsLast(units: seq<Unit>, slot: string)
    ensures forall i :: LastGraded(units, slot, i) ==> StatsAt(After(units), slot).bar == Some(units[i].bar)
  {
    if units != [] {
      var init, n := units[..|units| - 1], |units| - 1;
      BarIsLast(init, slot);
      forall i | LastGraded(units, slot, i) ensures StatsAt(After(units), slot).bar == Some(units[i].bar) {
        if i < n { assert LastGraded(init, slot, i) && !(units[n].Graded? && units[n].slot == slot); }
      }
    }
  }

  lemma {:induction false} CountZero(units: seq<Unit>, f: Unit -> bool)
    ensures Count(units, f) == 0 <==> forall u :: u in units ==> !f(u)
  {
    if units != [] {
      var init, u := units[..|units| - 1], units[|units| - 1];
      assert units == init + [u];
      CountZero(init, f);
      assert forall x :: x in units <==> x in init || x == u;
    }
  }

  // ----- the gate

  /** An audit receipt; `None` is a missing or mistyped field. */
  datatype Receipt = Receipt(
    slot: Option<string>, pid: Option<int>, rank: Option<int>, world: Option<int>, n: Option<int>,
    violations: int, refused: int, errors: int, worst: real, bar: Option<real>, pruned: int)

  /** What the collector hands over: an object, or something else. */
  datatype Item = Other | Fact(r: Receipt)

  datatype Decision = PASS | FAIL | NO_DECISION

  /** `_kernel_fault`: this member's compared calls say the kernel is wrong. */
  predicate Faulty(i: Item) {
    i.Fact? && (i.r.errors > 0 || i.r.violations > 0)
  }

  function CallsOf(i: Item): int { if i.Fact? && i.r.n.Some? then i.r.n.value else 0 }

  function PrunedOf(i: Item): int { if i.Fact? then i.r.pruned else 0 }

  /** Strictly increasing non-empty names, and at least one member. */
  predicate AuthorityOk(slots: seq<string>, members: int) {
    && slots != [] && members >= 1 && (forall s :: s in slots ==> s != "")
    && forall i :: 0 < i < |slots| ==> StrLess(slots[i - 1], slots[i])
  }

  predicate InPlace(i: Item, slots: seq<string>, members: int) {
    && i.Fact? && i.r.slot.Some? && i.r.slot.value in slots && i.r.pid.Some? && i.r.pid.value >= 1
    && i.r.rank.Some? && 0 <= i.r.rank.value < members && i.r.world == Some(members)
  }

  function PidOf(i: Item): int { if i.Fact? && i.r.pid.Some? then i.r.pid.value else 0 }

  function RankOf(i: Item): int { if i.Fact? && i.r.rank.Some? then i.r.rank.value else -1 }

  function KeyOf(i: Item): (string, int) { (if i.Fact? && i.r.slot.Some? then i.r.slot.value else "", RankOf(i)) }

  /** One pid per rank, one rank per pid, one receipt per slot and rank. */
  predicate Compatible(a: Item, b: Item) {
    (PidOf(a) == PidOf(b) <==> RankOf(a) == RankOf(b)) && KeyOf(a) != KeyOf(b)
  }

  ghost predicate WellPlaced(items: seq<Item>, slots: seq<string>, members: int) {
    (forall i :: i in items ==> InPlace(i, slots, members)) && Pairwise(Compatible, items)
  }

  predicate Grades(i: Item, slot: string, rank: int, minimum: int) {
    i.Fact? && i.r.slot == Some(slot) && i.r.rank == Some(rank) && i.r.n.Some? && i.r.n.value >= minimum
  }

  /** Every slot and rank has a receipt with enough compared calls. */
  ghost predicate Covered(items: seq<Item>, slots: seq<string>, members: int, minimum: int) {
    forall s, k :: s in slots && 0 <= k < members ==> GradedAt(items, s, k, minimum)
  }

  ghost predicate GradedAt(items: seq<Item>, slot: string, rank: int, minimum: int) {
    exists i :: i in items && Grades(i, slot, rank, minimum)
  }

  /** The coverage authority: expected slots and member count, or neither. */
  datatype Authority = Authority(slots: Option<seq<string>>, members: Option<int>)

  ghost predicate Readable(items: seq<Item>, minimum: Option<int>, a: Authority) {
    && minimum.Some? && minimum.value >= 1 && items != [] && (a.slots.Some? <==> a.members.Some?)
    && (forall i :: i in items ==> i.Fact?)
    && (a.slots.Some? ==>
          AuthorityOk(a.slots.value, a.members.value) && WellPlaced(items, a.slots.value, a.members.value))
  }

  ghost predicate Convicted(items: seq<Item>) {
    SumSeq(items, PrunedOf) != 0 || exists i :: i in items && Faulty(i)
  }

  ghost predicate Sufficient(items: seq<Item>, minimum: int, a: Authority)
    requires a.slots.Some? <==> a.members.Some?
  {
    && (a.slots.Some? ==> Covered(items, a.slots.value, a.members.value, minimum))
    && SumSeq(items, CallsOf) >= minimum
  }

  /** What the gate decides: evidence against the kernel before coverage. */
  ghost function Verdict(items: seq<Item>, minimum: Option<int>, a: Authority): Decision {
    if !Readable(items, minimum, a) then NO_DECISION
    else if Convicted(items) then FAIL
    else if Sufficient(items, minimum.value, a) then PASS
    else NO_DECISION
  }

  // ----- the gate as it runs

  /** A dictionary filled from the receipts: each receipt's key leads to its value, and nothing else is there. */
  ghost predicate Table<K, V>(items: seq<Item>, key: Item -> K, value: Item -> V, m: map<K, V>) {
    && (forall i :: i in items ==> key(i) in m && m[key(i)] == value(i))
    && forall k :: k in m ==> exists i :: i in items && key(i) == k
  }

  predicate Conflicts<K, V(==)>(x: Item, key: Item -> K, value: Item -> V, m: map<K, V>) {
    key(x) in m && m[key(x)] != value(x)
  }

  lemma ConflictsIff<K, V>(items: seq<Item>, x: Item, key: Item -> K, value: Item -> V, m: map<K, V>)
    requires Table(items, key, value, m)
    ensures Conflicts(x, key, value, m) <==> exists y :: y in items && key(y) == key(x) && value(y) != value(x)
  {
  }

  lemma TableExtends<K, V>(items: seq<Item>, x: Item, key: Item -> K, value: Item -> V, m: map<K, V>)
    requires Table(items, key, value, m) && !Conflicts(x, key, value, m)
    ensures Table(items + [x], key, value, m[key(x) := value(x)])
  {
    var t, after := items + [x], m[key(x) := value(x)];
    assert forall y :: y in t <==> y in items || y == x;
    forall k | k in after ensures exists i :: i in t && key(i) == k {
      if k == key(x) { assert x in t; }
      else {
        var i :| i in items && key(i) == k;
        assert i in t;
      }
    }
  }

  function Itself(i: Item): Item { i }

  /** Everything the loop refuses about one receipt. */
  predicate Refuses(i: Item, slots: seq<string>, members: int, rankPids: map<int, int>, pidRanks: map<int, int>,
                    observed: map<(string, int), Item>) {
    || !InPlace(i, slots, members) || KeyOf(i) in observed
    || Conflicts(i, RankOf, PidOf, rankPids) || Conflicts(i, PidOf, RankOf, pidRanks)
  }

  ghost predicate Tables(
    items: seq<Item>, rankPids: map<int, int>, pidRanks: map<int, int>, observed: map<(string, int), Item>)
  {
    && Table(items, RankOf, PidOf, rankPids) && Table(items, PidOf, RankOf, pidRanks)
    && Table(items, KeyOf, Itself, observed)
  }

  lemma Misfit(
    items: seq<Item>, x: Item, rankPids: map<int, int>, pidRanks: map<int, int>, observed: map<(string, int), Item>)
    requires Tables(items, rankPids, pidRanks, observed)
    requires Conflicts(x, RankOf, PidOf, rankPids) || Conflicts(x, PidOf, RankOf, pidRanks) || KeyOf(x) in observed
    ensures exists y :: y in items && !Compatible(y, x)
  {
    if KeyOf(x) in observed {
      var y :| y in items && KeyOf(y) == KeyOf(x);
      assert !Compatible(y, x);
    } else if Conflicts(x, RankOf, PidOf, rankPids) {
      ConflictsIff(items, x, RankOf, PidOf, rankPids);
      var y :| y in items && RankOf(y) == RankOf(x) && PidOf(y) != PidOf(x);
      assert !Compatible(y, x);
    } else {
      ConflictsIff(items, x, PidOf, RankOf, pidRanks);
      var y :| y in items && PidOf(y) == PidOf(x) && RankOf(y) != RankOf(x);
      assert !Compatible(y, x);
    }
  }

  lemma Fits(
    items: seq<Item>, x: Item, rankPids: map<int, int>, pidRanks: map<int, int>, observed: map<(string, int), Item>,
    y: Item)
    requires Tables(items, rankPids, pidRanks, observed) && y in items
    requires !Conflicts(x, RankOf, PidOf, rankPids) && !Conflicts(x, PidOf, RankOf, pidRanks) && KeyOf(x) !in observed
    ensures Compatible(y, x)
  {
  }

  /** The loop refuses a receipt exactly when it does not fit the earlier ones. */
  lemma RefusesIff(
    items: seq<Item>, x: Item, slots: seq<string>, members: int, rankPids: map<int, int>, pidRanks: map<int, int>,
    observed: map<(string, int), Item>)
    requires WellPlaced(items, slots, members) && Tables(items, rankPids, pidRanks, observed)
    ensures Refuses(x, slots, members, rankPids, pidRanks, observed) <==> !WellPlaced(items + [x], slots, members)
  {
    assert forall y :: y in items + [x] <==> y in items || y == x;
    PairwiseSnoc(Compatible, items, x);
    if Conflicts(x, RankOf, PidOf, rankPids) || Conflicts(x, PidOf, RankOf, pidRanks) || KeyOf(x) in observed {
      Misfit(items, x, rankPids, pidRanks, observed);
    } else {
      forall y | y in items ensures Compatible(y, x) { Fits(items, x, rankPids, pidRanks, observed, y); }
    }
  }

  lemma TablesExtend(
    items: seq<Item>, x: Item, rankPids: map<int, int>, pidRanks: map<int, int>, observed: map<(string, int), Item>)
    requires Tables(items, rankPids, pidRanks, observed) && !Conflicts(x, RankOf, PidOf, rankPids)
    requires !Conflicts(x, PidOf, RankOf, pidRanks) && KeyOf(x) !in observed
    ensures Tables(items + [x], rankPids[RankOf(x) := PidOf(x)], pidRanks[PidOf(x) := RankOf(x)],
                   observed[KeyOf(x) := x])
  {
    TableExtends(items, x, RankOf, PidOf, rankPids);
    TableExtends(items, x, PidOf, RankOf, pidRanks);
    TableExtends(items, x, KeyOf, Itself, observed);
  }

  lemma PrefixNotPlaced(items: seq<Item>, n: nat, slots: seq<string>, members: int)
    requires n <= |items| && WellPlaced(items, slots, members)
    ensures WellPlaced(items[..n], slots, members)
  {
    forall i, j | 0 <= i < j < n ensures Compatible(items[..n][i], items[..n][j]) {
      assert Compatible(items[i], items[j]);
    }
  }

  /** The loop over receipts: it stops at the first that does not fit. */
  method Observe(items: seq<Item>, slots: seq<string>, members: int)
    returns (observed: Option<map<(string, int), Item>>)
    ensures observed.Some? <==> WellPlaced(items, slots, members)
    ensures observed.Some? ==> Table(items, KeyOf, Itself, observed.value)
  {
    var rankPids: map<int, int>, pidRanks: map<int, int>, seen: map<(string, int), Item> := map[], map[], map[];
    for i := 0 to |items|
      invariant WellPlaced(items[..i], slots, members) && Tables(items[..i], rankPids, pidRanks, seen)
    {
      var x := items[i];
      assert items[..i + 1] == items[..i] + [x];
      RefusesIff(items[..i], x, slots, members, rankPids, pidRanks, seen);
      if Refuses(x, slots, members, rankPids, pidRanks, seen) {
        if WellPlaced(items, slots, members) { PrefixNotPlaced(items, i + 1, slots, members); }
        return None;
      }
      TablesExtend(items[..i], x, rankPids, pidRanks, seen);
      rankPids := rankPids[RankOf(x) := PidOf(x)];
      pidRanks := pidRanks[PidOf(x) := RankOf(x)];
      seen := seen[KeyOf(x) := x];
    }
    assert items[..|items|] == items;
    observed := Some(seen);
  }

  function KeysIn(slots: seq<string>, members: nat): (r: set<(string, int)>)
    ensures forall s, k :: (s, k) in r <==> s in slots && 0 <= k < members
  {
    set s, k | s in slots && 0 <= k < members :: (s, k)
  }

  /** Receipts whose count of compared calls is missing or too low. */
  function Under(observed: map<(string, int), Item>, minimum: int): set<(string, int)> {
    set key | key in observed && !(observed[key].Fact? && observed[key].r.n.Some? && observed[key].r.n.value >= minimum)
  }

  lemma GradedIff(
    items: seq<Item>, observed: map<(string, int), Item>, slots: seq<string>, members: nat, minimum: int, s: string,
    k: int)
    requires WellPlaced(items, slots, members) && Table(items, KeyOf, Itself, observed)
    ensures GradedAt(items, s, k, minimum) <==> (s, k) in observed && (s, k) !in Under(observed, minimum)
  {
    if i :| i in items && Grades(i, s, k, minimum) {
      assert KeyOf(i) == (s, k);
    }
    if (s, k) in observed && (s, k) !in Under(observed, minimum) {
      var i :| i in items && KeyOf(i) == (s, k);
      assert InPlace(i, slots, members);
      assert Grades(i, s, k, minimum);
    }
  }

  lemma CoveredIff(items: seq<Item>, observed: map<(string, int), Item>, slots: seq<string>, members: nat, minimum: int)
    requires WellPlaced(items, slots, members) && Table(items, KeyOf, Itself, observed)
    ensures observed.Keys == KeysIn(slots, members) && Under(observed, minimum) == {} <==>
      Covered(items, slots, members, minimum)
  {
    assert observed.Keys <= KeysIn(slots, members) by {
      forall key | key in observed ensures key in KeysIn(slots, members) {
        var i :| i in items && KeyOf(i) == key;
        assert InPlace(i, slots, members);
      }
    }
    if Covered(items, slots, members, minimum) {
      forall key | key in KeysIn(slots, members) ensures key in observed && key !in Under(observed, minimum) {
        assert GradedAt(items, key.0, key.1, minimum);
        GradedIff(items, observed, slots, members, minimum, key.0, key.1);
      }
    }
    if observed.Keys == KeysIn(slots, members) && Under(observed, minimum) == {} {
      forall s, k | s in slots && 0 <= k < members ensures GradedAt(items, s, k, minimum) {
        assert (s, k) in KeysIn(slots, members);
        GradedIff(items, observed, slots, members, minimum, s, k);
      }
    }
  }

  method Totals(items: seq<Item>) returns (calls: int, pruned: int, faulty: bool)
    ensures calls == SumSeq(items, CallsOf) && pruned == SumSeq(items, PrunedOf)
    ensures faulty <==> exists i :: i in items && Faulty(i)
  {
    calls, pruned, faulty := 0, 0, false;
    for i := 0 to |items|
      invariant calls == SumSeq(items[..i], CallsOf) && pruned == SumSeq(items[..i], PrunedOf)
      invariant faulty <==> exists j :: 0 <= j < i && Faulty(items[j])
    {
      assert items[..i + 1] == items[..i] + [items[i]];
      SumSeqSnoc(items[..i], items[i], CallsOf);
      SumSeqSnoc(items[..i], items[i], PrunedOf);
      calls, pruned := calls + CallsOf(items[i]), pruned + PrunedOf(items[i]);
      faulty := faulty || Faulty(items[i]);
    }
    assert items[..|items|] == items;
  }

  /** `gate` */
  method Gate(items: seq<Item>, minimum: Option<int>, a: Authority) returns (decision: Decision)
    ensures decision == Verdict(items, minimum, a)
  {
    if minimum.None? || minimum.value < 1 || items == [] || a.slots.None? != a.members.None? {
      return NO_DECISION;
    }
    if exists i :: i in items && i.Other? {
      return NO_DECISION;
    }
    var covered := true;
    if a.slots.Some? {
      if !AuthorityOk(a.slots.value, a.members.value) {
        return NO_DECISION;
      }
      var observed := Observe(items, a.slots.value, a.members.value);
      if observed.None? {
        return NO_DECISION;
      }
      CoveredIff(items, observed.value, a.slots.value, a.members.value, minimum.value);
      covered := observed.value.Keys == KeysIn(a.slots.value, a.members.value) &&
        Under(observed.value, minimum.value) == {};
    }
    var calls, pruned, faulty := Totals(items);
    if pruned != 0 || faulty {
      return FAIL;
    }
    decision := if covered && calls >= minimum.value then PASS else NO_DECISION;
  }

  // ----- order and infrastructure

  lemma ReadablePermutation(s: seq<Item>, t: seq<Item>, minimum: Option<int>, a: Authority)
    requires multiset(s) == multiset(t) && Readable(s, minimum, a)
    ensures Readable(t, minimum, a)
  {
    SameElements(s, t);
    if a.slots.Some? { PairwisePermutation(Compatible, s, t); }
  }

  lemma CoveredPermutation(s: seq<Item>, t: seq<Item>, slots: seq<string>, members: int, minimum: int)
    requires multiset(s) == multiset(t)
    ensures Covered(s, slots, members, minimum) == Covered(t, slots, members, minimum)
  {
    SameElements(s, t);
    assert forall slot, rank :: GradedAt(s, slot, rank, minimum) == GradedAt(t, slot, rank, minimum);
  }

  /** The decision does not depend on the order of receipts. */
  lemma VerdictPermutation(s: seq<Item>, t: seq<Item>, minimum: Option<int>, a: Authority)
    requires multiset(s) == multiset(t)
    ensures Verdict(s, minimum, a) == Verdict(t, minimum, a)
  {
    if Readable(s, minimum, a) { ReadablePermutation(s, t, minimum, a); }
    if Readable(t, minimum, a) { ReadablePermutation(t, s, minimum, a); }
    if Readable(s, minimum, a) {
      SameElements(s, t);
      SumSeqPermutation(s, t, PrunedOf);
      SumSeqPermutation(s, t, CallsOf);
      if a.slots.Some? { CoveredPermutation(s, t, a.slots.value, a.members.value, minimum.value); }
    }
  }

  /** `infrastructure_failure` grades the receipts without violations and pruning findings. */
  function Suppressed(i: Item): Item {
    if i.Fact? then Fact(i.r.(violations := 0, pruned := 0)) else i
  }

  function SuppressedAll(items: seq<Item>): (r: seq<Item>)
    ensures |r| == |items| && forall i :: 0 <= i < |r| ==> r[i] == Suppressed(items[i])
  {
    seq(|items|, i requires 0 <= i < |items| => Suppressed(items[i]))
  }

  /** Nothing, when only the numbers could speak against the kernel. */
  method InfrastructureFailure(items: seq<Item>, minimum: Option<int>, a: Authority) returns (failure: bool)
    ensures !failure <==> Verdict(SuppressedAll(items), minimum, a) == PASS
  {
    var decision := Gate(SuppressedAll(items), minimum, a);
    failure := decision != PASS;
  }

  lemma SuppressedElements(items: seq<Item>, i: Item)
    requires i in items
    ensures Suppressed(i) in SuppressedAll(items)
  {
    var k :| 0 <= k < |items| && items[k] == i;
    assert SuppressedAll(items)[k] == Suppressed(i);
  }

  lemma SuppressedReadable(items: seq<Item>, minimum: Option<int>, a: Authority)
    requires Readable(SuppressedAll(items), minimum, a)
    ensures Readable(items, minimum, a)
  {
    var bare := SuppressedAll(items);
    forall i | i in items ensures i.Fact? && (a.slots.Some? ==> InPlace(i, a.slots.value, a.members.value)) {
      SuppressedElements(items, i);
    }
    if a.slots.Some? {
      forall i, j | 0 <= i < j < |items| ensures Compatible(items[i], items[j]) { assert Compatible(bare[i], bare[j]); }
    }
  }

  lemma {:induction false} SuppressedCalls(items: seq<Item>)
    ensures SumSeq(SuppressedAll(items), CallsOf) == SumSeq(items, CallsOf)
  {
    if items != [] {
      assert SuppressedAll(items)[1..] == SuppressedAll(items[1..]);
      SuppressedCalls(items[1..]);
    }
  }

  lemma SuppressedCovered(items: seq<Item>, slots: seq<string>, members: int, minimum: int)
    requires Covered(SuppressedAll(items), slots, members, minimum)
    ensures Covered(items, slots, members, minimum)
  {
    var bare := SuppressedAll(items);
    forall s, k | s in slots && 0 <= k < members ensures GradedAt(items, s, k, minimum) {
      assert GradedAt(bare, s, k, minimum);
      var i :| i in bare && Grades(i, s, k, minimum);
      var j :| 0 <= j < |bare| && bare[j] == i;
      assert items[j] in items && Grades(items[j], s, k, minimum);
    }
  }

  /** Without an infrastructure failure a gate that does not pass fails. */
  lemma InfrastructureSound(items: seq<Item>, minimum: Option<int>, a: Authority)
    requires Verdict(SuppressedAll(items), minimum, a) == PASS
    ensures Verdict(items, minimum, a) != NO_DECISION
    ensures Verdict(items, minimum, a) == FAIL <==> Convicted(items)
  {
    SuppressedReadable(items, minimum, a);
    SuppressedCalls(items);
    if a.slots.Some? { SuppressedCovered(items, a.slots.value, a.members.value, minimum.value); }
  }

  // ----- end to end

  /** One rank's worker process. */
  datatype Process = Process(pid: int, rank: int, world: int)

  /** One recorded unit, by the index of its process. */
  datatype Step = Step(process: nat, unit: Unit)

  /** What one process recorded, in its own order. */
  function UnitsOf(log: seq<Step>, p: nat): seq<Unit> {
    if log == [] then []
    else UnitsOf(log[..|log| - 1], p) + if log[|log| - 1].process == p then [log[|log| - 1].unit] else []
  }

  function ReceiptOf(p: Process, slot: string, s: Stats): Receipt {
    Receipt(Some(slot), Some(p.pid), Some(p.rank), Some(p.world), Some(s.n), s.violations, s.refused, s.errors, s.worst,
            s.bar, s.pruned)
  }

  function ItemOf(processes: seq<Process>, log: seq<Step>, p: nat, slot: string): Item
    requires p < |processes|
  {
    Fact(ReceiptOf(processes[p], slot, StatsAt(After(UnitsOf(log, p)), slot)))
  }

  /** The last receipt of every process and slot that recorded anything, in any order. */
  ghost predicate Collected(items: seq<Item>, processes: seq<Process>, log: seq<Step>) {
    && (forall p, slot :: 0 <= p < |processes| && slot in After(UnitsOf(log, p)) ==>
          ItemOf(processes, log, p, slot) in items)
    && forall i :: i in items ==> Written(i, processes, log)
  }

  ghost predicate Written(i: Item, processes: seq<Process>, log: seq<Step>) {
    exists p, slot :: 0 <= p < |processes| && slot in After(UnitsOf(log, p)) && i == ItemOf(processes, log, p, slot)
  }

  lemma {:induction false} UnitsElements(log: seq<Step>, p: nat, u: Unit)
    ensures u in UnitsOf(log, p) <==> Step(p, u) in log
  {
    if log != [] {
      UnitsElements(log[..|log| - 1], p, u);
      assert log == log[..|log| - 1] + [log[|log| - 1]];
    }
  }

  lemma PrunedNonNegative(i: Item, processes: seq<Process>, log: seq<Step>)
    requires Written(i, processes, log)
    ensures PrunedOf(i) >= 0
  {
    var p, slot :| 0 <= p < |processes| && slot in After(UnitsOf(log, p)) && i == ItemOf(processes, log, p, slot);
    CountersExact(UnitsOf(log, p), slot);
  }

  ghost predicate Clean(u: Unit) {
    !u.Pruned? && !u.Incomparable? && (u.Graded? ==> u.fraction >= u.bar)
  }

  lemma NothingAgainst(units: seq<Unit>, slot: string, u: Unit)
    requires u in units && u.slot == slot
    requires Exact(units, slot, StatsAt(After(units), slot))
    requires var s := StatsAt(After(units), slot); s.errors <= 0 && s.violations <= 0 && s.pruned == 0
    ensures Clean(u)
  {
    CountZero(units, IsPruned(slot));
    CountZero(units, IsIncomparable(slot));
    CountZero(units, IsViolation(slot));
    assert !IsPruned(slot)(u) && !IsIncomparable(slot)(u) && !IsViolation(slot)(u);
  }

  /** A pass says every recorded unit of every process met its bar and nothing was pruned or incomparable. */
  lemma PassClean(
    items: seq<Item>, processes: seq<Process>, log: seq<Step>, minimum: Option<int>, a: Authority, step: Step)
    requires Collected(items, processes, log) && Verdict(items, minimum, a) == PASS
    requires step in log && step.process < |processes|
    ensures Clean(step.unit)
  {
    var p, u := step.process, step.unit;
    var units := UnitsOf(log, p);
    UnitsElements(log, p, u);
    CountersExact(units, u.slot);
    var i := ItemOf(processes, log, p, u.slot);
    assert i in items && !Faulty(i);
    forall x | x in items ensures PrunedOf(x) >= 0 { PrunedNonNegative(x, processes, log); }
    SumSeqZero(items, PrunedOf);
    assert PrunedOf(i) == 0;
    NothingAgainst(units, u.slot, u);
  }

  /** A pass under a coverage authority says each slot was graded often enough on each rank. */
  lemma PassGraded(
    items: seq<Item>, processes: seq<Process>, log: seq<Step>, minimum: Option<int>, a: Authority, slot: string,
    rank: int)
    returns (p: nat)
    requires Collected(items, processes, log) && Verdict(items, minimum, a) == PASS
    requires a.slots.Some? && a.members.Some? && slot in a.slots.value && 0 <= rank < a.members.value
    ensures p < |processes| && processes[p].rank == rank && processes[p].world == a.members.value
    ensures minimum.Some? && Count(UnitsOf(log, p), IsGraded(slot)) >= minimum.value
  {
    assert GradedAt(items, slot, rank, minimum.value);
    var i :| i in items && Grades(i, slot, rank, minimum.value);
    assert Written(i, processes, log) && InPlace(i, a.slots.value, a.members.value);
    var q, s :| 0 <= q < |processes| && s in After(UnitsOf(log, q)) && i == ItemOf(processes, log, q, s);
    p := q;
    CountersExact(UnitsOf(log, p), slot);
  }

  lemma ItemRecorded(processes: seq<Process>, log: seq<Step>, step: Step)
    requires step in log && step.process < |processes|
    ensures step.unit.slot in After(UnitsOf(log, step.process))
  {
    UnitsElements(log, step.process, step.unit);
    CountersExact(UnitsOf(log, step.process), step.unit.slot);
  }

  lemma PlacedPair(items: seq<Item>, slots: seq<string>, members: int, i: Item, j: Item)
    requires WellPlaced(items, slots, members) && i in items && j in items
    ensures PidOf(i) == PidOf(j) <==> RankOf(i) == RankOf(j)
  {
    var x :| 0 <= x < |items| && items[x] == i;
    var y :| 0 <= y < |items| && items[y] == j;
    if x < y { assert Compatible(items[x], items[y]); } else if y < x { assert Compatible(items[y], items[x]); }
  }

  /** A pass under a coverage authority says pids and ranks of the recording processes match one to one. */
  lemma PassOneToOne(
    items: seq<Item>, processes: seq<Process>, log: seq<Step>, minimum: Option<int>, a: Authority, x: Step, y: Step)
    requires Collected(items, processes, log) && Verdict(items, minimum, a) == PASS && a.slots.Some?
    requires x in log && y in log && x.process < |processes| && y.process < |processes|
    ensures processes[x.process].pid == processes[y.process].pid <==>
      processes[x.process].rank == processes[y.process].rank
  {
    ItemRecorded(processes, log, x);
    ItemRecorded(processes, log, y);
    var i, j := ItemOf(processes, log, x.process, x.unit.slot), ItemOf(processes, log, y.process, y.unit.slot);
    PlacedPair(items, a.slots.value, a.members.value, i, j);
  }
}
