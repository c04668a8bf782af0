/** The audit gate read off what the workers recorded (`cacheon/audit.py`, `cacheon/audit_gate.py`). */
module AuditOutcome {
  import opened Orders
  import opened Sums
  import opened Wrappers
  import opened AuditGate

  type Key = (nat, string)

  /** The process and slot of every recorded unit. */
  function Recorders(log: seq<Step>): set<Key> {
    set step | step in log :: (step.process, step.unit.slot)
  }

  ghost predicate InRange(processes: seq<Process>, log: seq<Step>) {
    forall step :: step in log ==> step.process < |processes|
  }

  /** One receipt for every process and slot that recorded anything, in the order of `keys`. */
  ghost predicate OneEach(items: seq<Item>, processes: seq<Process>, log: seq<Step>, keys: seq<Key>) {
    && InRange(processes, log) && Distinct(keys) && Elements(keys) == Recorders(log) && |items| == |keys|
    && forall i :: 0 <= i < |keys| ==>
         keys[i].0 < |processes| && items[i] == ItemOf(processes, log, keys[i].0, keys[i].1)
  }

  lemma KeyOfStep(items: seq<Item>, processes: seq<Process>, log: seq<Step>, keys: seq<Key>, step: Step)
    returns (i: nat)
    requires OneEach(items, processes, log, keys) && step in log
    ensures i < |keys| && keys[i] == (step.process, step.unit.slot)
  {
    assert (step.process, step.unit.slot) in Elements(keys);
    i :| i < |keys| && keys[i] == (step.process, step.unit.slot);
  }

  lemma StepOfKey(items: seq<Item>, processes: seq<Process>, log: seq<Step>, keys: seq<Key>, i: nat)
    returns (step: Step)
    requires OneEach(items, processes, log, keys) && i < |keys|
    ensures step in log && keys[i] == (step.process, step.unit.slot)
  {
    assert keys[i] in Elements(keys);
    step :| step in log && keys[i] == (step.process, step.unit.slot);
  }

  // ----- the receipts against the expected coverage

  /** Sorted, distinct, non-empty slot names, and at least one member. */
  ghost predicate Expected(slots: seq<string>, members: int) {
    && slots != [] && members >= 1 && "" !in slots
    && forall i, j :: 0 <= i < j < |slots| ==> slots[i] != slots[j] && Alphabetical(slots[i], slots[j])
  }

  lemma {:induction false} Increasing(slots: seq<string>, i: nat, j: nat)
    requires i < j < |slots| && forall k :: 0 < k < |slots| ==> StrLess(slots[k - 1], slots[k])
    ensures StrLess(slots[i], slots[j])
    decreases j
  {
    assert StrLess(slots[j - 1], slots[j]);
    if i < j - 1 {
      Increasing(slots, i, j - 1);
      StrTransitive(slots[i], slots[j - 1], slots[j]);
      if slots[i] == slots[j] { StrAntisymmetric(slots[j - 1], slots[j]); }
    }
  }

  lemma ExpectedIff(slots: seq<string>, members: int)
    ensures AuthorityOk(slots, members) <==> Expected(slots, members)
  {
    if AuthorityOk(slots, members) {
      forall i, j | 0 <= i < j < |slots| ensures slots[i] != slots[j] && Alphabetical(slots[i], slots[j]) {
        Increasing(slots, i, j);
        StrLeqMeaning(slots[i], slots[j]);
      }
    }
    if Expected(slots, members) {
      forall k | 0 < k < |slots| ensures StrLess(slots[k - 1], slots[k]) { StrLeqMeaning(slots[k - 1], slots[k]); }
      forall s | s in slots ensures s != "" { }
    }
  }

  /** The unit is of an expected slot, by a rank of a world of exactly the expected members. */
  ghost predicate Stationed(processes: seq<Process>, step: Step, slots: seq<string>, members: int)
    requires step.process < |processes|
  {
    var p := processes[step.process];
    step.unit.slot in slots && p.pid >= 1 && 0 <= p.rank < members && p.world == members
  }

  /** Pids and ranks agree, and a slot is recorded by one process of a rank. */
  ghost predicate Apart(processes: seq<Process>, x: Step, y: Step)
    requires x.process < |processes| && y.process < |processes|
  {
    var p, q := processes[x.process], processes[y.process];
    && (p.pid == q.pid <==> p.rank == q.rank)
    && (x.process != y.process && x.unit.slot == y.unit.slot ==> p.rank != q.rank)
  }

  ghost predicate WellStationed(processes: seq<Process>, log: seq<Step>, slots: seq<string>, members: int)
    requires InRange(processes, log)
  {
    && (forall step :: step in log ==> Stationed(processes, step, slots, members))
    && forall x, y :: x in log && y in log ==> Apart(processes, x, y)
  }

  lemma InPlaceIff(processes: seq<Process>, log: seq<Step>, step: Step, slots: seq<string>, members: int)
    requires step.process < |processes|
    ensures InPlace(ItemOf(processes, log, step.process, step.unit.slot), slots, members) <==>
      Stationed(processes, step, slots, members)
  {
  }

  lemma CompatibleIff(processes: seq<Process>, log: seq<Step>, x: Step, y: Step)
    requires x.process < |processes| && y.process < |processes|
    requires (x.process, x.unit.slot) != (y.process, y.unit.slot)
    ensures Apart(processes, x, y) <==>
      Compatible(ItemOf(processes, log, x.process, x.unit.slot), ItemOf(processes, log, y.process, y.unit.slot))
  {
  }

  lemma PlacedItems(items: seq<Item>, processes: seq<Process>, log: seq<Step>, keys: seq<Key>, slots: seq<string>,
                    members: int)
    requires OneEach(items, processes, log, keys)
    ensures (forall i :: i in items ==> InPlace(i, slots, members)) <==>
      forall step :: step in log ==> Stationed(processes, step, slots, members)
  {
    if forall i :: i in items ==> InPlace(i, slots, members) {
      forall step | step in log ensures Stationed(processes, step, slots, members) {
        var i := KeyOfStep(items, processes, log, keys, step);
        assert items[i] in items;
        InPlaceIff(processes, log, step, slots, members);
      }
    }
    if forall step :: step in log ==> Stationed(processes, step, slots, members) {
      forall i | 0 <= i < |items| ensures InPlace(items[i], slots, members) {
        var step := StepOfKey(items, processes, log, keys, i);
        InPlaceIff(processes, log, step, slots, members);
      }
    }
  }

  lemma ApartSymmetric(processes: seq<Process>, x: Step, y: Step)
    requires x.process < |processes| && y.process < |processes| && Apart(processes, x, y)
    ensures Apart(processes, y, x)
  {
  }

  lemma ApartSteps(items: seq<Item>, processes: seq<Process>, log: seq<Step>, keys: seq<Key>, x: Step, y: Step)
    requires OneEach(items, processes, log, keys) && Pairwise(Compatible, items) && x in log && y in log
    ensures Apart(processes, x, y)
  {
    var i := KeyOfStep(items, processes, log, keys, x);
    var j := KeyOfStep(items, processes, log, keys, y);
    if i < j {
      assert Compatible(items[i], items[j]);
      CompatibleIff(processes, log, x, y);
    } else if j < i {
      assert Compatible(items[j], items[i]);
      CompatibleIff(processes, log, y, x);
      ApartSymmetric(processes, y, x);
    }
  }

  lemma CompatibleItems(items: seq<Item>, processes: seq<Process>, log: seq<Step>, keys: seq<Key>)
    requires OneEach(items, processes, log, keys)
    ensures Pairwise(Compatible, items) <==> forall x, y :: x in log && y in log ==> Apart(processes, x, y)
  {
    if Pairwise(Compatible, items) {
      forall x, y | x in log && y in log ensures Apart(processes, x, y) {
        ApartSteps(items, processes, log, keys, x, y);
      }
    }
    if forall x, y :: x in log && y in log ==> Apart(processes, x, y) {
      forall i, j | 0 <= i < j < |items| ensures Compatible(items[i], items[j]) {
        var x := StepOfKey(items, processes, log, keys, i);
        var y := StepOfKey(items, processes, log, keys, j);
        assert keys[i] != keys[j];
        CompatibleIff(processes, log, x, y);
      }
    }
  }

  // ----- the evidence

  ghost predicate Incriminating(log: seq<Step>) {
    exists step :: step in log && !Clean(step.unit)
  }

  lemma NothingWrong(units: seq<Unit>, slot: string)
    requires Exact(units, slot, StatsAt(After(units), slot))
    ensures var s := StatsAt(After(units), slot);
      && s.errors >= 0 && s.violations >= 0 && s.pruned >= 0
      && (s.errors == 0 && s.violations == 0 && s.pruned == 0 <==>
            forall u :: u in units && u.slot == slot ==> Clean(u))
  {
    CountZero(units, IsPruned(slot));
    CountZero(units, IsIncomparable(slot));
    CountZero(units, IsViolation(slot));
    var s := StatsAt(After(units), slot);
    if s.errors == 0 && s.violations == 0 && s.pruned == 0 {
      forall u | u in units && u.slot == slot ensures Clean(u) { NothingAgainst(units, slot, u); }
    }
  }

  ghost predicate Guilty(i: Item) {
    Faulty(i) || PrunedOf(i) > 0
  }

  lemma GuiltyIff(processes: seq<Process>, log: seq<Step>, p: nat, slot: string)
    requires p < |processes|
    ensures PrunedOf(ItemOf(processes, log, p, slot)) >= 0 && CallsOf(ItemOf(processes, log, p, slot)) >= 0
    ensures Guilty(ItemOf(processes, log, p, slot)) <==>
      exists step :: step in log && step.process == p && step.unit.slot == slot && !Clean(step.unit)
  {
    var units := UnitsOf(log, p);
    CountersExact(units, slot);
    NothingWrong(units, slot);
    if u :| u in units && u.slot == slot && !Clean(u) {
      UnitsElements(log, p, u);
      assert Step(p, u) in log;
    }
    if step :| step in log && step.process == p && step.unit.slot == slot && !Clean(step.unit) {
      UnitsElements(log, p, step.unit);
    }
  }

  lemma ConvictedIff(items: seq<Item>)
    requires forall i :: i in items ==> PrunedOf(i) >= 0
    ensures Convicted(items) <==> exists i :: i in items && Guilty(i)
  {
    SumSeqZero(items, PrunedOf);
    if SumSeq(items, PrunedOf) != 0 && (forall i :: i in items ==> PrunedOf(i) <= 0) { AllZero(items, PrunedOf); }
  }

  lemma {:induction false} AllZero(items: seq<Item>, f: Item -> int)
    requires forall i :: i in items ==> f(i) == 0
    ensures SumSeq(items, f) == 0
  {
    if items != [] {
      assert items[0] in items && forall i :: i in items[1..] ==> i in items;
      AllZero(items[1..], f);
    }
  }

  /** The receipts speak against the kernel exactly when some recorded unit does. */
  lemma EvidenceIff(items: seq<Item>, processes: seq<Process>, log: seq<Step>, keys: seq<Key>)
    requires OneEach(items, processes, log, keys)
    ensures Convicted(items) <==> Incriminating(log)
  {
    forall i | 0 <= i < |items| ensures PrunedOf(items[i]) >= 0 {
      GuiltyIff(processes, log, keys[i].0, keys[i].1);
    }
    ConvictedIff(items);
    if i :| i in items && Guilty(i) {
      var k :| 0 <= k < |items| && items[k] == i;
      GuiltyIff(processes, log, keys[k].0, keys[k].1);
    }
    if step :| step in log && !Clean(step.unit) {
      var k := KeyOfStep(items, processes, log, keys, step);
      GuiltyIff(processes, log, step.process, step.unit.slot);
      assert items[k] in items;
    }
  }

  // ----- how much was compared

  /** Graded units of a slot by processes of a rank, one process at least often enough. */
  ghost predicate GradedEnough(processes: seq<Process>, log: seq<Step>, slot: string, rank: int, minimum: int) {
    exists p :: 0 <= p < |processes| && processes[p].rank == rank && Count(UnitsOf(log, p), IsGraded(slot)) >= minimum
  }

  lemma GradedAtIff(items: seq<Item>, processes: seq<Process>, log: seq<Step>, keys: seq<Key>, slot: string, rank: int,
                    minimum: int)
    requires OneEach(items, processes, log, keys) && minimum >= 1
    ensures GradedAt(items, slot, rank, minimum) <==> GradedEnough(processes, log, slot, rank, minimum)
  {
    if i :| i in items && Grades(i, slot, rank, minimum) {
      var k :| 0 <= k < |items| && items[k] == i;
      CountersExact(UnitsOf(log, keys[k].0), slot);
    }
    if p :| 0 <= p < |processes| && processes[p].rank == rank && Count(UnitsOf(log, p), IsGraded(slot)) >= minimum {
      CountersExact(UnitsOf(log, p), slot);
      CountZero(UnitsOf(log, p), IsGraded(slot));
      var u :| u in UnitsOf(log, p) && IsGraded(slot)(u);
      UnitsElements(log, p, u);
      var k := KeyOfStep(items, processes, log, keys, Step(p, u));
      assert items[k] in items && Grades(items[k], slot, rank, minimum);
    }
  }

  predicate IsGradedStep(step: Step) { step.unit.Graded? }

  function GradedSteps(log: seq<Step>): nat {
    |Keep(log, IsGradedStep)|
  }

  ghost function CallsAt(log: seq<Step>): Key -> int {
    (key: Key) => Count(UnitsOf(log, key.0), IsGraded(key.1))
  }

  lemma CallsSnoc(log: seq<Step>, step: Step, key: Key)
    ensures CallsAt(log + [step])(key) == CallsAt(log)(key) +
      if step.unit.Graded? && key == (step.process, step.unit.slot) then 1 else 0
  {
    var more := log + [step];
    assert more[..|more| - 1] == log;
    var units := UnitsOf(log, key.0);
    if step.process == key.0 {
      assert UnitsOf(more, key.0) == units + [step.unit];
      assert (units + [step.unit])[..|units|] == units;
    } else {
      assert UnitsOf(more, key.0) == units + [] == units;
    }
  }

  lemma Unrecorded(log: seq<Step>, key: Key)
    requires key !in Recorders(log)
    ensures CallsAt(log)(key) == 0
  {
    CountZero(UnitsOf(log, key.0), IsGraded(key.1));
    forall u | u in UnitsOf(log, key.0) ensures !IsGraded(key.1)(u) { UnitsElements(log, key.0, u); }
  }

  lemma KeyRaised(keys: set<Key>, f: Key -> int, g: Key -> int, key: Key, gain: int)
    requires f(key) == g(key) + gain && (key !in keys ==> g(key) == 0)
    requires forall k :: k in keys && k != key ==> f(k) == g(k)
    ensures SumInt(keys + {key}, f) == SumInt(keys, g) + gain
  {
    var others := keys - {key};
    SumIntSame(others, f, g);
    assert keys + {key} == others + {key};
    SumIntInsert(others, f, key);
    if key in keys {
      assert keys == others + {key};
      SumIntInsert(others, g, key);
    } else {
      assert keys == others;
    }
  }

  lemma KeepSnoc(log: seq<Step>, step: Step)
    ensures GradedSteps(log + [step]) == GradedSteps(log) + if step.unit.Graded? then 1 else 0
  {
    assert (log + [step])[..|log|] == log;
  }

  lemma CallsStep(log: seq<Step>, step: Step)
    requires SumInt(Recorders(log), CallsAt(log)) == GradedSteps(log)
    ensures SumInt(Recorders(log + [step]), CallsAt(log + [step])) == GradedSteps(log + [step])
  {
    var key := (step.process, step.unit.slot);
    CallsSnoc(log, step, key);
    if key !in Recorders(log) { Unrecorded(log, key); }
    forall k | k in Recorders(log) && k != key ensures CallsAt(log + [step])(k) == CallsAt(log)(k) {
      CallsSnoc(log, step, k);
    }
    KeyRaised(Recorders(log), CallsAt(log + [step]), CallsAt(log), key, if step.unit.Graded? then 1 else 0);
    RecordersSnoc(log, step);
    KeepSnoc(log, step);
  }

  /** The compared calls of all receipts are the graded units of the log. */
  lemma {:induction false} CallsTotal(log: seq<Step>)
    ensures SumInt(Recorders(log), CallsAt(log)) == GradedSteps(log)
  {
    if log != [] {
      var init, step := log[..|log| - 1], log[|log| - 1];
      assert log == init + [step];
      CallsTotal(init);
      CallsStep(init, step);
    }
  }

  lemma RecordersSnoc(log: seq<Step>, step: Step)
    ensures Recorders(log + [step]) == Recorders(log) + {(step.process, step.unit.slot)}
  {
  }

  lemma {:induction false} SumOfKeys(keys: seq<Key>, f: Key -> int)
    requires Distinct(keys)
    ensures SumSeq(keys, f) == SumInt(Elements(keys), f)
  {
    if keys != [] {
      SumOfKeys(keys[1..], f);
      assert Elements(keys) == Elements(keys[1..]) + {keys[0]};
      SumIntInsert(Elements(keys[1..]), f, keys[0]);
    } else {
      assert Elements(keys) == {};
    }
  }

  lemma {:induction false} SumOfItems(items: seq<Item>, keys: seq<Key>, f: Item -> int, g: Key -> int)
    requires |items| == |keys| && forall i :: 0 <= i < |items| ==> f(items[i]) == g(keys[i])
    ensures SumSeq(items, f) == SumSeq(keys, g)
  {
    if items != [] { SumOfItems(items[1..], keys[1..], f, g); }
  }

  lemma TotalCalls(items: seq<Item>, processes: seq<Process>, log: seq<Step>, keys: seq<Key>)
    requires OneEach(items, processes, log, keys)
    ensures SumSeq(items, CallsOf) == GradedSteps(log)
  {
    forall i | 0 <= i < |items| ensures CallsOf(items[i]) == CallsAt(log)(keys[i]) {
      CountersExact(UnitsOf(log, keys[i].0), keys[i].1);
    }
    SumOfItems(items, keys, CallsOf, CallsAt(log));
    SumOfKeys(keys, CallsAt(log));
    CallsTotal(log);
  }

  // ----- the verdict

  /** The request makes sense and the recorded units are where the authority expects them. */
  ghost predicate Gradable(processes: seq<Process>, log: seq<Step>, minimum: Option<int>, a: Authority)
    requires InRange(processes, log)
  {
    && minimum.Some? && minimum.value >= 1 && log != [] && (a.slots.Some? <==> a.members.Some?)
    && (a.slots.Some? ==> Expected(a.slots.value, a.members.value) &&
                          WellStationed(processes, log, a.slots.value, a.members.value))
  }

  /** Enough units were graded in all, and on every expected slot and rank. */
  ghost predicate Enough(processes: seq<Process>, log: seq<Step>, minimum: int, a: Authority)
    requires a.slots.Some? <==> a.members.Some?
  {
    && GradedSteps(log) >= minimum
    && (a.slots.Some? ==> forall slot, rank :: slot in a.slots.value && 0 <= rank < a.members.value ==>
                            GradedEnough(processes, log, slot, rank, minimum))
  }

  lemma ReadableIff(items: seq<Item>, processes: seq<Process>, log: seq<Step>, keys: seq<Key>, minimum: Option<int>,
                    a: Authority)
    requires OneEach(items, processes, log, keys)
    ensures Readable(items, minimum, a) <==> Gradable(processes, log, minimum, a)
  {
    if log != [] { var i := KeyOfStep(items, processes, log, keys, log[0]); }
    if items != [] { var step := StepOfKey(items, processes, log, keys, 0); }
    if a.slots.Some? && a.members.Some? {
      ExpectedIff(a.slots.value, a.members.value);
      PlacedItems(items, processes, log, keys, a.slots.value, a.members.value);
      CompatibleItems(items, processes, log, keys);
    }
  }

  lemma SufficientIff(items: seq<Item>, processes: seq<Process>, log: seq<Step>, keys: seq<Key>, minimum: int,
                      a: Authority)
    requires OneEach(items, processes, log, keys) && minimum >= 1 && (a.slots.Some? <==> a.members.Some?)
    ensures Sufficient(items, minimum, a) <==> Enough(processes, log, minimum, a)
  {
    TotalCalls(items, processes, log, keys);
    forall slot, rank
      ensures GradedAt(items, slot, rank, minimum) <==> GradedEnough(processes, log, slot, rank, minimum)
    {
      GradedAtIff(items, processes, log, keys, slot, rank, minimum);
    }
  }

  /** The whole decision, over the log: evidence first, then how much was compared. */
  lemma VerdictOfLog(items: seq<Item>, processes: seq<Process>, log: seq<Step>, keys: seq<Key>, minimum: Option<int>,
                     a: Authority)
    requires OneEach(items, processes, log, keys)
    ensures Verdict(items, minimum, a) == FAIL <==> Gradable(processes, log, minimum, a) && Incriminating(log)
    ensures Verdict(items, minimum, a) == PASS <==>
      Gradable(processes, log, minimum, a) && !Incriminating(log) && Enough(processes, log, minimum.value, a)
  {
    ReadableIff(items, processes, log, keys, minimum, a);
    EvidenceIff(items, processes, log, keys);
    if Gradable(processes, log, minimum, a) { SufficientIff(items, processes, log, keys, minimum.value, a); }
  }

  /** One unit that is not clean fails the kernel, however thin the coverage. */
  lemma ThinEvidenceFails(items: seq<Item>, processes: seq<Process>, log: seq<Step>, keys: seq<Key>,
                          minimum: Option<int>, a: Authority, step: Step)
    requires OneEach(items, processes, log, keys) && Gradable(processes, log, minimum, a)
    requires step in log && !Clean(step.unit)
    ensures Verdict(items, minimum, a) == FAIL
  {
    VerdictOfLog(items, processes, log, keys, minimum, a);
  }

  lemma {:induction false} GradedBound(log: seq<Step>, key: Key)
    ensures CallsAt(log)(key) <= GradedSteps(log)
  {
    if log != [] {
      var init, step := log[..|log| - 1], log[|log| - 1];
      assert log == init + [step];
      GradedBound(init, key);
      CallsSnoc(init, step, key);
      KeepSnoc(init, step);
    }
  }

  /** Clean units, and every expected slot and rank graded often enough, pass the kernel. */
  lemma CleanCoveredPasses(items: seq<Item>, processes: seq<Process>, log: seq<Step>, keys: seq<Key>,
                           minimum: Option<int>, a: Authority)
    requires OneEach(items, processes, log, keys) && Gradable(processes, log, minimum, a) && a.slots.Some?
    requires forall step :: step in log ==> Clean(step.unit)
    requires forall slot, rank :: slot in a.slots.value && 0 <= rank < a.members.value ==>
      GradedEnough(processes, log, slot, rank, minimum.value)
    ensures Verdict(items, minimum, a) == PASS
  {
    var slot := a.slots.value[0];
    assert GradedEnough(processes, log, slot, 0, minimum.value);
    var p :| 0 <= p < |processes| && processes[p].rank == 0 &&
      Count(UnitsOf(log, p), IsGraded(slot)) >= minimum.value;
    GradedBound(log, (p, slot));
    VerdictOfLog(items, processes, log, keys, minimum, a);
  }

  /** A receipt without a count of compared calls, and nothing against the kernel, changes no decision by itself. */
  lemma UncountedReceipt(items: seq<Item>, r: Receipt, minimum: Option<int>)
    requires items != [] && r.n.None? && r.errors <= 0 && r.violations <= 0 && r.pruned == 0
    ensures Verdict(items + [Fact(r)], minimum, Authority(None, None)) == Verdict(items, minimum, Authority(None, None))
  {
    var more, none := items + [Fact(r)], Authority(None, None);
    assert forall i :: i in more <==> i in items || i == Fact(r);
    SumSeqSnoc(items, Fact(r), CallsOf);
    SumSeqSnoc(items, Fact(r), PrunedOf);
    assert Readable(more, minimum, none) <==> Readable(items, minimum, none);
    assert Convicted(more) <==> Convicted(items);
  }

  // ----- what keeps the audit from deciding

  lemma SuppressedReadableIff(items: seq<Item>, minimum: Option<int>, a: Authority)
    ensures Readable(SuppressedAll(items), minimum, a) <==> Readable(items, minimum, a)
  {
    var bare := SuppressedAll(items);
    if Readable(bare, minimum, a) { SuppressedReadable(items, minimum, a); }
    if Readable(items, minimum, a) {
      forall k | 0 <= k < |bare|
        ensures bare[k].Fact? && (a.slots.Some? ==> InPlace(bare[k], a.slots.value, a.members.value))
      {
        assert items[k] in items;
      }
      if a.slots.Some? {
        forall i, j | 0 <= i < j < |bare| ensures Compatible(bare[i], bare[j]) {
          assert Compatible(items[i], items[j]);
        }
      }
    }
  }

  lemma SuppressedGraded(items: seq<Item>, slot: string, rank: int, minimum: int)
    ensures GradedAt(SuppressedAll(items), slot, rank, minimum) <==> GradedAt(items, slot, rank, minimum)
  {
    var bare := SuppressedAll(items);
    if i :| i in bare && Grades(i, slot, rank, minimum) {
      var k :| 0 <= k < |bare| && bare[k] == i;
      assert items[k] in items && Grades(items[k], slot, rank, minimum);
    }
    if i :| i in items && Grades(i, slot, rank, minimum) {
      SuppressedElements(items, i);
      assert Grades(Suppressed(i), slot, rank, minimum);
    }
  }

  lemma SuppressedSufficient(items: seq<Item>, minimum: int, a: Authority)
    requires a.slots.Some? <==> a.members.Some?
    ensures Sufficient(SuppressedAll(items), minimum, a) <==> Sufficient(items, minimum, a)
  {
    SuppressedCalls(items);
    forall slot, rank
      ensures GradedAt(SuppressedAll(items), slot, rank, minimum) <==> GradedAt(items, slot, rank, minimum)
    {
      SuppressedGraded(items, slot, rank, minimum);
    }
  }

  ghost predicate Unjudged(log: seq<Step>) {
    exists step :: step in log && step.unit.Incomparable?
  }

  lemma ErrorsIff(processes: seq<Process>, log: seq<Step>, p: nat, slot: string)
    requires p < |processes|
    ensures Faulty(Suppressed(ItemOf(processes, log, p, slot))) <==>
      exists step :: step in log && step.process == p && step.unit == Incomparable(slot)
  {
    var units := UnitsOf(log, p);
    CountersExact(units, slot);
    CountZero(units, IsIncomparable(slot));
    UnitsElements(log, p, Incomparable(slot));
    if u :| u in units && IsIncomparable(slot)(u) { assert u == Incomparable(slot); }
    if Incomparable(slot) in units {
      assert IsIncomparable(slot)(Incomparable(slot));
      assert Step(p, Incomparable(slot)) in log;
    }
  }

  lemma SuppressedEvidence(items: seq<Item>, processes: seq<Process>, log: seq<Step>, keys: seq<Key>)
    requires OneEach(items, processes, log, keys)
    ensures Convicted(SuppressedAll(items)) <==> Unjudged(log)
  {
    var bare := SuppressedAll(items);
    forall i | i in bare ensures PrunedOf(i) == 0 { }
    AllZero(bare, PrunedOf);
    if i :| i in bare && Faulty(i) {
      var k :| 0 <= k < |bare| && bare[k] == i;
      ErrorsIff(processes, log, keys[k].0, keys[k].1);
    }
    if step :| step in log && step.unit.Incomparable? {
      var k := KeyOfStep(items, processes, log, keys, step);
      ErrorsIff(processes, log, step.process, step.unit.slot);
      assert bare[k] in bare;
    }
  }

  /** The audit could decide exactly when it was set up right, compared enough, and compared everything it tried. */
  lemma InfrastructureOfLog(items: seq<Item>, processes: seq<Process>, log: seq<Step>, keys: seq<Key>,
                            minimum: Option<int>, a: Authority)
    requires OneEach(items, processes, log, keys)
    ensures Verdict(SuppressedAll(items), minimum, a) == PASS <==>
      Gradable(processes, log, minimum, a) && !Unjudged(log) && Enough(processes, log, minimum.value, a)
  {
    SuppressedReadableIff(items, minimum, a);
    ReadableIff(items, processes, log, keys, minimum, a);
    SuppressedEvidence(items, processes, log, keys);
    if Gradable(processes, log, minimum, a) {
      SuppressedSufficient(items, minimum.value, a);
      SufficientIff(items, processes, log, keys, minimum.value, a);
    }
  }

  // ----- any receipts, honest or not

  /** An expected slot, a positive pid, and a rank of a world of exactly the expected members. */
  ghost predicate InOrder(r: Receipt, slots: seq<string>, members: int) {
    && r.slot.Some? && r.slot.value in slots && r.pid.Some? && r.pid.value > 0
    && r.rank.Some? && 0 <= r.rank.value < members && r.world == Some(members)
  }

  ghost predicate ReceiptsInOrder(items: seq<Item>, slots: seq<string>, members: int)
    requires forall i :: i in items ==> i.Fact?
  {
    && (forall i :: i in items ==> InOrder(i.r, slots, members))
    && forall j, k :: 0 <= j < k < |items| ==>
         && (items[j].r.pid == items[k].r.pid <==> items[j].r.rank == items[k].r.rank)
         && (items[j].r.rank == items[k].r.rank ==> items[j].r.slot != items[k].r.slot)
  }

  /** The request is well formed, and the receipts are where it expects them. */
  ghost predicate Answerable(items: seq<Item>, minimum: Option<int>, a: Authority) {
    && minimum.Some? && minimum.value >= 1 && items != [] && (forall i :: i in items ==> i.Fact?)
    && match (a.slots, a.members)
       case (None, None) => true
       case (Some(slots), Some(members)) => Expected(slots, members) && ReceiptsInOrder(items, slots, members)
       case _ => false
  }

  /** A pruning total other than zero, an incomparable result, or a call under its bar. */
  ghost predicate Incriminated(items: seq<Item>)
    requires forall i :: i in items ==> i.Fact?
  {
    || SumSeq(items, (i: Item) => if i.Fact? then i.r.pruned else 0) != 0
    || exists i :: i in items && (i.r.errors > 0 || i.r.violations > 0)
  }

  /** Calls enough in all, and by one receipt for every expected slot and rank. */
  ghost predicate WellCovered(items: seq<Item>, minimum: int, a: Authority)
    requires forall i :: i in items ==> i.Fact?
  {
    && SumSeq(items, (i: Item) => if i.Fact? && i.r.n.Some? then i.r.n.value else 0) >= minimum
    && (a.slots.Some? && a.members.Some? ==>
          forall slot, rank :: slot in a.slots.value && 0 <= rank < a.members.value ==>
            CoveredAt(items, slot, rank, minimum))
  }

  ghost predicate CoveredAt(items: seq<Item>, slot: string, rank: int, minimum: int)
    requires forall i :: i in items ==> i.Fact?
  {
    exists i :: i in items && i.r.slot == Some(slot) && i.r.rank == Some(rank) && i.r.n.Some? && i.r.n.value >= minimum
  }

  lemma {:induction false} SumSeqSame<T>(items: seq<T>, f: T -> int, g: T -> int)
    requires forall x :: x in items ==> f(x) == g(x)
    ensures SumSeq(items, f) == SumSeq(items, g)
  {
    if items != [] { SumSeqSame(items[1..], f, g); }
  }

  lemma InOrderIff(items: seq<Item>, slots: seq<string>, members: int)
    requires forall i :: i in items ==> i.Fact?
    ensures WellPlaced(items, slots, members) <==> ReceiptsInOrder(items, slots, members)
  {
    if forall i :: i in items ==> InOrder(i.r, slots, members) {
      forall j, k | 0 <= j < k < |items|
        ensures Compatible(items[j], items[k]) <==>
          && (items[j].r.pid == items[k].r.pid <==> items[j].r.rank == items[k].r.rank)
          && (items[j].r.rank == items[k].r.rank ==> items[j].r.slot != items[k].r.slot)
      {
        assert items[j] in items && items[k] in items;
      }
    }
  }

  lemma AnswerableIff(items: seq<Item>, minimum: Option<int>, a: Authority)
    ensures Readable(items, minimum, a) <==> Answerable(items, minimum, a)
  {
    if a.slots.Some? && a.members.Some? && forall i :: i in items ==> i.Fact? {
      ExpectedIff(a.slots.value, a.members.value);
      InOrderIff(items, a.slots.value, a.members.value);
    }
  }

  lemma IncriminatedIff(items: seq<Item>)
    requires forall i :: i in items ==> i.Fact?
    ensures Convicted(items) <==> Incriminated(items)
  {
    SumSeqSame(items, PrunedOf, (i: Item) => if i.Fact? then i.r.pruned else 0);
  }

  lemma WellCoveredIff(items: seq<Item>, minimum: int, a: Authority)
    requires (forall i :: i in items ==> i.Fact?) && (a.slots.Some? <==> a.members.Some?)
    ensures Sufficient(items, minimum, a) <==> WellCovered(items, minimum, a)
  {
    SumSeqSame(items, CallsOf, (i: Item) => if i.Fact? && i.r.n.Some? then i.r.n.value else 0);
    forall slot, rank ensures GradedAt(items, slot, rank, minimum) <==> CoveredAt(items, slot, rank, minimum) { }
  }

  /** The decision on any receipts, by their own fields. */
  lemma VerdictMeaning(items: seq<Item>, minimum: Option<int>, a: Authority)
    ensures Verdict(items, minimum, a) == FAIL <==> Answerable(items, minimum, a) && Incriminated(items)
    ensures Verdict(items, minimum, a) == PASS <==>
      Answerable(items, minimum, a) && !Incriminated(items) && WellCovered(items, minimum.value, a)
  {
    AnswerableIff(items, minimum, a);
    if Answerable(items, minimum, a) {
      IncriminatedIff(items);
      WellCoveredIff(items, minimum.value, a);
    }
  }

  lemma SuppressedConvicts(items: seq<Item>)
    requires forall i :: i in items ==> i.Fact?
    ensures Convicted(SuppressedAll(items)) <==> exists i :: i in items && i.r.errors > 0
  {
    var bare := SuppressedAll(items);
    forall i | i in bare ensures PrunedOf(i) == 0 { }
    AllZero(bare, PrunedOf);
    if i :| i in bare && Faulty(i) {
      var k :| 0 <= k < |bare| && bare[k] == i;
      assert items[k] in items && items[k].r.errors > 0;
    }
    if i :| i in items && i.r.errors > 0 {
      SuppressedElements(items, i);
      assert Faulty(Suppressed(i));
    }
  }

  /** No infrastructure failure on any receipts: they are in order, all comparable, and cover enough. */
  lemma InfrastructureMeaning(items: seq<Item>, minimum: Option<int>, a: Authority)
    ensures Verdict(SuppressedAll(items), minimum, a) == PASS <==>
      && Answerable(items, minimum, a) && (forall i :: i in items ==> i.r.errors <= 0)
      && WellCovered(items, minimum.value, a)
  {
    SuppressedReadableIff(items, minimum, a);
    AnswerableIff(items, minimum, a);
    if Answerable(items, minimum, a) {
      SuppressedConvicts(items);
      SuppressedSufficient(items, minimum.value, a);
      WellCoveredIff(items, minimum.value, a);
    }
  }
}
