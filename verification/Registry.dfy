/** The kernel variant registry (`cacheon/registry.py`, `KernelRegistry`) and its intake twin. */
module Registry {
  import opened Orders
  import opened Wrappers
  import opened Capabilities
  import NodeAddresses

  datatype Impl = Impl(slot: string, bundle: string, variant: string, eligibility: Eligibility)

  predicate ValidName(name: string) {
    name != "" && forall c :: c in name ==> NameChar(c)
  }

  predicate NameChar(c: char) {
    '0' <= c <= '9' || 'A' <= c <= 'Z' || 'a' <= c <= 'z' || c == '.' || c == '_' || c == '-'
  }

  /** Token-count specialization is refused on forward-pass nodes. */
  predicate SplitsTokens(x: Impl) {
    NodeAddresses.UnderRoots(x.slot, NodeAddresses.FORWARD_PASS_ROOTS) &&
      "num_tokens" in AddEligibility(map[], x.eligibility)
  }

  /** The checks on one variant alone. */
  predicate Sound(x: Impl) {
    !SplitsTokens(x) && ValidName(x.variant) && DomainEmpty(x.eligibility) != Some(true)
  }

  predicate Overlapping(a: Impl, b: Impl) {
    Overlap(a.eligibility, b.eligibility) == Some(true)
  }

  /** Two variants of one slot cannot both be registered. */
  predicate Clash(a: Impl, b: Impl) {
    a.variant == b.variant || Overlapping(a, b)
  }

  type Slots = map<string, seq<Impl>>

  function VariantsOf(m: Slots, slot: string): seq<Impl> {
    if slot in m then m[slot] else []
  }

  predicate Admits(m: Slots, x: Impl) {
    Sound(x) && forall y :: y in VariantsOf(m, x.slot) ==> !Clash(y, x)
  }

  function Registered(m: Slots, x: Impl): Slots {
    if Admits(m, x) then m[x.slot := VariantsOf(m, x.slot) + [x]] else m
  }

  // ----- selection

  datatype Decision =
    | Inactive
    | Unregistered
    | OutOfDomain(only: Option<Impl>)
    | Ambiguous
    | Selected(impl: Impl)

  function Accepts(d: Descriptor): Impl -> bool {
    (x: Impl) => Matches(x.eligibility, d)
  }

  function Accepting(variants: seq<Impl>, d: Descriptor): seq<Impl> {
    Keep(variants, Accepts(d))
  }

  function Choose(variants: seq<Impl>, d: Descriptor): Decision {
    var accepted := Accepting(variants, d);
    if variants == [] then Unregistered
    else if accepted == [] then OutOfDomain(if |variants| == 1 then Some(variants[0]) else None)
    else if |accepted| != 1 then Ambiguous
    else Selected(accepted[0])
  }

  datatype State = State(bySlot: Slots, active: bool)

  function Decide(s: State, slot: string, d: Descriptor): Decision {
    if !s.active then Inactive else Choose(VariantsOf(s.bySlot, slot), d)
  }

  method CheckOverlap(a: Impl, b: Impl) returns (overlap: bool)
    ensures overlap == Overlapping(a, b)
  {
    var answer := EligibilityDomainsOverlap(a.eligibility, b.eligibility);
    overlap := answer == Some(true);
  }

  ghost predicate OverlapsAny(variants: seq<Impl>, x: Impl) {
    exists y :: y in variants && Overlapping(y, x)
  }

  lemma OverlapsNext(variants: seq<Impl>, i: nat, x: Impl)
    requires i < |variants|
    ensures OverlapsAny(variants[..i + 1], x) <==> OverlapsAny(variants[..i], x) || Overlapping(variants[i], x)
  {
    assert variants[..i + 1] == variants[..i] + [variants[i]];
    if Overlapping(variants[i], x) { assert variants[i] in variants[..i + 1]; }
    if y :| y in variants[..i] && Overlapping(y, x) { assert y in variants[..i + 1]; }
  }

  lemma OverlapsPrefix(variants: seq<Impl>, i: nat, x: Impl)
    requires i <= |variants| && OverlapsAny(variants[..i], x)
    ensures OverlapsAny(variants, x)
  {
    var y :| y in variants[..i] && Overlapping(y, x);
    assert y in variants;
  }

  method AnyOverlap(variants: seq<Impl>, x: Impl) returns (found: bool)
    ensures found <==> OverlapsAny(variants, x)
  {
    for i := 0 to |variants|
      invariant !OverlapsAny(variants[..i], x)
    {
      OverlapsNext(variants, i, x);
      found := CheckOverlap(variants[i], x);
      if found {
        OverlapsPrefix(variants, i + 1, x);
        return;
      }
    }
    assert variants[..|variants|] == variants;
    found := false;
  }

  lemma OverlapsClash(variants: seq<Impl>, x: Impl)
    requires forall j :: 0 <= j < |variants| ==> variants[j].variant != x.variant
    ensures OverlapsAny(variants, x) <==> exists y :: y in variants && Clash(y, x)
  {
    if y :| y in variants && Overlapping(y, x) { assert Clash(y, x); }
  }

  /** The duplicate-name check, then the overlap loop. */
  method AnyClash(variants: seq<Impl>, x: Impl) returns (clash: bool)
    ensures clash <==> exists y :: y in variants && Clash(y, x)
  {
    for i := 0 to |variants|
      invariant forall j :: 0 <= j < i ==> variants[j].variant != x.variant
    {
      if variants[i].variant == x.variant {
        assert Clash(variants[i], x);
        return true;
      }
    }
    clash := AnyOverlap(variants, x);
    OverlapsClash(variants, x);
  }

  /** The checks on one variant, before its slot is looked at. */
  method CheckSound(x: Impl) returns (ok: bool)
    ensures ok <==> Sound(x)
  {
    if SplitsTokens(x) || !ValidName(x.variant) {
      return false;
    }
    var empty := EligibilityDomainIsEmpty(x.eligibility);
    ok := empty != Some(true);
  }

  // ----- the operations as steps

  datatype Op = OpRegister(impl: Impl) | OpClear | OpEnable | OpDisable

  function Step(s: State, op: Op): State {
    match op
    case OpRegister(x) => s.(bySlot := Registered(s.bySlot, x))
    case OpClear => State(map[], false)
    case OpEnable => s.(active := true)
    case OpDisable => s.(active := false)
  }

  function Run(ops: seq<Op>): State {
    if ops == [] then State(map[], false) else Step(Run(ops[..|ops| - 1]), ops[|ops| - 1])
  }

  ghost predicate PublicOps(ops: seq<Op>) {
    forall op :: op in ops && op.OpRegister? ==> PublicDomain(op.impl.eligibility)
  }

  lemma UnsoundSteps(s: State, x: Impl)
    requires !Sound(x)
    ensures !Admits(s.bySlot, x) && Step(s, OpRegister(x)) == s
  {
  }

  lemma RegisterSteps(s: State, x: Impl, clash: bool)
    requires Sound(x) && (clash <==> exists y :: y in VariantsOf(s.bySlot, x.slot) && Clash(y, x))
    ensures clash <==> !Admits(s.bySlot, x)
    ensures clash ==> x.slot in s.bySlot && Step(s, OpRegister(x)) == s
    ensures !clash ==>
      Step(s, OpRegister(x)) == s.(bySlot := s.bySlot[x.slot := VariantsOf(s.bySlot, x.slot) + [x]])
  {
  }

  lemma RunSnoc(ops: seq<Op>, op: Op)
    ensures Run(ops + [op]) == Step(Run(ops), op)
  {
    assert (ops + [op])[..|ops|] == ops;
  }

  ghost predicate Explained(variants: seq<Impl>, d: Descriptor, matches: seq<seq<Mismatch>>) {
    |matches| == |variants| && forall i :: 0 <= i < |variants| ==> Explains(variants[i].eligibility, d, matches[i])
  }

  ghost predicate Explains(e: Eligibility, d: Descriptor, mismatches: seq<Mismatch>) {
    forall m :: m in mismatches <==> Fails(e, d, m)
  }

  /** Each variant's failed rules, and the variants that have none. */
  method MatchAll(variants: seq<Impl>, d: Descriptor) returns (matches: seq<seq<Mismatch>>, accepted: seq<Impl>)
    requires ValidDescriptor(d)
    ensures Explained(variants, d, matches) && accepted == Accepting(variants, d)
  {
    matches, accepted := [], [];
    for i := 0 to |variants|
      invariant Explained(variants[..i], d, matches) && accepted == Accepting(variants[..i], d)
    {
      var mismatches := Match(variants[i].eligibility, d);
      assert variants[..i + 1][..i] == variants[..i];
      matches := matches + [mismatches];
      if mismatches == [] {
        accepted := accepted + [variants[i]];
      }
    }
    assert variants[..|variants|] == variants;
  }

  class KernelRegistry {
    var bySlot: Slots
    var active: bool
    ghost var history: seq<Op>

    ghost function Value(): State
      reads this
    {
      State(bySlot, active)
    }

    /** The fields are where the calls made so far have led. */
    ghost predicate Valid()
      reads this
    {
      Value() == Run(history)
    }

    constructor ()
      ensures Valid() && history == [] && Value() == State(map[], false)
    {
      bySlot, active, history := map[], false, [];
    }

    ghost method Record(op: Op)
      requires Value() == Step(Run(history), op)
      modifies this`history
      ensures Valid() && history == old(history) + [op]
    {
      RunSnoc(history, op);
      history := history + [op];
    }

    /** Refusal leaves the registry as it was, even though the slot's list is created first. */
    method Register(x: Impl) returns (ok: bool)
      requires Valid()
      modifies this
      ensures Valid() && history == old(history) + [OpRegister(x)]
      ensures ok == Admits(old(bySlot), x) && Value() == Step(old(Value()), OpRegister(x))
    {
      ok := Insert(x);
      Record(OpRegister(x));
    }

    method Insert(x: Impl) returns (ok: bool)
      modifies this`bySlot
      ensures ok == Admits(old(bySlot), x) && Value() == Step(old(Value()), OpRegister(x))
    {
      ghost var before := Value();
      var sound := CheckSound(x);
      if !sound {
        UnsoundSteps(before, x);
        return false;
      }
      if x.slot !in bySlot {
        bySlot := bySlot[x.slot := []];
      }
      var variants := bySlot[x.slot];
      var clash := AnyClash(variants, x);
      RegisterSteps(before, x, clash);
      if clash {
        return false;
      }
      bySlot := bySlot[x.slot := variants + [x]];
      assert bySlot == before.bySlot[x.slot := VariantsOf(before.bySlot, x.slot) + [x]];
      ok := true;
    }

    method Clear()
      requires Valid()
      modifies this
      ensures Valid() && history == old(history) + [OpClear]
      ensures Value() == Step(old(Value()), OpClear) == State(map[], false)
    {
      bySlot, active := map[], false;
      Record(OpClear);
    }

    method Enable()
      requires Valid()
      modifies this
      ensures Valid() && history == old(history) + [OpEnable]
      ensures Value() == Step(old(Value()), OpEnable) && active && bySlot == old(bySlot)
    {
      active := true;
      Record(OpEnable);
    }

    method Disable()
      requires Valid()
      modifies this
      ensures Valid() && history == old(history) + [OpDisable]
      ensures Value() == Step(old(Value()), OpDisable) && !active && bySlot == old(bySlot)
    {
      active := false;
      Record(OpDisable);
    }

    /** Choose candidate or baseline for a live call, with every variant's failed rules. */
    method Select(slot: string, d: Descriptor) returns (decision: Decision, matches: seq<seq<Mismatch>>)
      requires Valid() && ValidDescriptor(d)
      ensures decision == Decide(Value(), slot, d) && Decided(history, slot, d, decision)
      ensures Explained(if active then VariantsOf(bySlot, slot) else [], d, matches)
      ensures PublicOps(history) ==> decision != Ambiguous
    {
      DecisionMeaning(history, slot, d);
      if !active {
        return Inactive, [];
      }
      var variants := VariantsOf(bySlot, slot);
      if variants == [] {
        return Unregistered, [];
      }
      if PublicOps(history) { NeverAmbiguous(history, slot, d); }
      var accepted: seq<Impl>;
      matches, accepted := MatchAll(variants, d);
      if accepted == [] {
        decision := OutOfDomain(if |variants| == 1 then Some(variants[0]) else None);
      } else if |accepted| != 1 {
        decision := Ambiguous;
      } else {
        decision := Selected(accepted[0]);
      }
    }
  }

  // ----- every run

  ghost predicate Unclashing(variants: seq<Impl>) {
    forall i, j :: 0 <= i < j < |variants| ==> !Clash(variants[i], variants[j])
  }

  /** Each registered slot holds distinct, non-empty, pairwise disjoint variants. */
  ghost predicate Routable(m: Slots) {
    forall s :: s in m ==>
      && m[s] != [] && Unclashing(m[s])
      && forall x :: x in m[s] ==> x.slot == s && Sound(x) && PublicDomain(x.eligibility)
  }

  lemma UnclashingSnoc(before: seq<Impl>, x: Impl)
    requires Unclashing(before) && forall y :: y in before ==> !Clash(y, x)
    ensures Unclashing(before + [x])
  {
    var after := before + [x];
    forall i, j | 0 <= i < j < |after| ensures !Clash(after[i], after[j]) {
      assert i < |before|;
      if j == |before| { assert before[i] in before; }
    }
  }

  lemma RegisterKeepsRoutable(m: Slots, x: Impl)
    requires Routable(m) && PublicDomain(x.eligibility)
    ensures Routable(Registered(m, x))
  {
    if Admits(m, x) { UnclashingSnoc(VariantsOf(m, x.slot), x); }
  }

  lemma {:induction false} RunsRoutable(ops: seq<Op>)
    requires PublicOps(ops)
    ensures Routable(Run(ops).bySlot)
  {
    if ops != [] {
      var init, op := ops[..|ops| - 1], ops[|ops| - 1];
      assert forall o :: o in init ==> o in ops;
      RunsRoutable(init);
      assert op in ops;
      if op.OpRegister? { RegisterKeepsRoutable(Run(init).bySlot, op.impl); }
    }
  }

  lemma AcceptingElements(variants: seq<Impl>, d: Descriptor)
    ensures forall x :: x in Accepting(variants, d) <==> x in variants && Matches(x.eligibility, d)
    ensures Accepting(variants, d) == [] <==> forall x :: x in variants ==> !Matches(x.eligibility, d)
  {
    KeepElements(variants, Accepts(d));
    KeepNone(variants, Accepts(d));
  }

  predicate Apart(a: Impl, b: Impl) {
    Overlap(a.eligibility, b.eligibility) == Some(false)
  }

  /** When the last variant accepts, no earlier one does. */
  lemma LastAlone(variants: seq<Impl>, d: Descriptor, n: nat)
    requires |variants| == n + 1 && Pairwise(Apart, variants) && ValidDescriptor(d)
    requires Matches(variants[n].eligibility, d)
    ensures Accepting(variants[..n], d) == []
  {
    forall x | x in variants[..n] ensures !Matches(x.eligibility, d) {
      var i :| 0 <= i < n && variants[i] == x;
      assert Apart(variants[i], variants[n]);
      RefusalSound(x.eligibility, variants[n].eligibility, d);
    }
    AcceptingElements(variants[..n], d);
  }

  /** Variants proved disjoint, private predicates included: at most one accepts any call. */
  lemma {:induction false} AtMostOne(variants: seq<Impl>, d: Descriptor)
    requires Pairwise(Apart, variants) && ValidDescriptor(d)
    ensures |Accepting(variants, d)| <= 1
  {
    if variants != [] {
      var n := |variants| - 1;
      AtMostOne(variants[..n], d);
      if Matches(variants[n].eligibility, d) { LastAlone(variants, d, n); }
    }
  }

  lemma PublicApart(variants: seq<Impl>)
    requires Unclashing(variants) && forall x :: x in variants ==> PublicDomain(x.eligibility)
    ensures Pairwise(Apart, variants)
  {
    forall i, j | 0 <= i < j < |variants| ensures Apart(variants[i], variants[j]) {
      PublicComplete(variants[i].eligibility);
      PublicComplete(variants[j].eligibility);
    }
  }

  /** No call in any reachable registry is ambiguous. */
  lemma NeverAmbiguous(ops: seq<Op>, slot: string, d: Descriptor)
    requires PublicOps(ops) && ValidDescriptor(d)
    ensures Decide(Run(ops), slot, d) != Ambiguous
  {
    RunsRoutable(ops);
    PublicApart(VariantsOf(Run(ops).bySlot, slot));
    AtMostOne(VariantsOf(Run(ops).bySlot, slot), d);
  }

  ghost predicate Deferred(variants: seq<Impl>) {
    exists i, j :: 0 <= i < j < |variants| && Overlap(variants[i].eligibility, variants[j].eligibility) == None
  }

  lemma StepUnclashing(state: State, op: Op, s: string)
    requires Unclashing(VariantsOf(state.bySlot, s))
    ensures Unclashing(VariantsOf(Step(state, op).bySlot, s))
  {
    if op.OpRegister? && Admits(state.bySlot, op.impl) && s == op.impl.slot {
      UnclashingSnoc(VariantsOf(state.bySlot, s), op.impl);
    }
  }

  lemma {:induction false} RunsUnclashing(ops: seq<Op>)
    ensures forall s :: Unclashing(VariantsOf(Run(ops).bySlot, s))
  {
    if ops != [] {
      var init, op := ops[..|ops| - 1], ops[|ops| - 1];
      RunsUnclashing(init);
      forall s ensures Unclashing(VariantsOf(Run(ops).bySlot, s)) { StepUnclashing(Run(init), op, s); }
    }
  }

  /** Whatever was registered, private predicates included, only a pair left undecided at registration is ambiguous. */
  lemma AmbiguityIsDeferred(ops: seq<Op>, slot: string, d: Descriptor)
    requires ValidDescriptor(d) && Decide(Run(ops), slot, d) == Ambiguous
    ensures Deferred(VariantsOf(Run(ops).bySlot, slot))
  {
    var variants := VariantsOf(Run(ops).bySlot, slot);
    RunsUnclashing(ops);
    if !Deferred(variants) {
      assert Pairwise(Apart, variants);
      AtMostOne(variants, d);
    }
  }

  /** A domain on one private field, which the static analysis does not know. */
  const PRIVATE := Eligibility({}, {}, None, {}, None, None, [Predicate("tier", [Int(1)], None, None)])

  const PRIVATE_CALL: Descriptor := map["tier" := Int(1)]

  lemma PrivateUndecided()
    ensures ValidDescriptor(PRIVATE_CALL) && Matches(PRIVATE, PRIVATE_CALL)
    ensures Overlap(PRIVATE, PRIVATE) == None && DomainEmpty(PRIVATE) != Some(true)
  {
    assert Matches(PRIVATE, PRIVATE_CALL);
    assert Common(PRIVATE, PRIVATE, PRIVATE_CALL);
    if Overlap(PRIVATE, PRIVATE) == Some(false) { RefusalSound(PRIVATE, PRIVATE, PRIVATE_CALL); }
    if DomainEmpty(PRIVATE) == Some(true) { EmptyRefusalSound(PRIVATE, PRIVATE_CALL); }
    assert PRIVATE.capabilities[0] in PRIVATE.capabilities;
  }

  lemma RegisterFirst(x: Impl)
    requires Sound(x)
    ensures Registered(map[], x) == map[x.slot := [x]]
  {
    assert VariantsOf(map[], x.slot) == [];
    assert [] + [x] == [x];
  }

  lemma AdmitsSecond(m: Slots, x: Impl, y: Impl)
    requires VariantsOf(m, y.slot) == [x] && Sound(y) && !Clash(x, y)
    ensures Admits(m, y)
  {
  }

  lemma RegisterSecond(x: Impl, y: Impl)
    requires x.slot == y.slot && Admits(map[x.slot := [x]], y)
    ensures Registered(map[x.slot := [x]], y) == map[x.slot := [x, y]]
  {
    assert [x] + [y] == [x, y];
  }

  lemma RunPair(x: Impl, y: Impl)
    requires Registered(map[], x) == map[x.slot := [x]]
    requires Registered(map[x.slot := [x]], y) == map[x.slot := [x, y]]
    ensures Run([OpRegister(x), OpRegister(y), OpEnable]) == State(map[x.slot := [x, y]], true)
  {
    var one, two := [OpRegister(x)], [OpRegister(x), OpRegister(y)];
    assert Run([]) == State(map[], false) && [] + one == one;
    RunSnoc([], OpRegister(x));
    assert one + [OpRegister(y)] == two;
    RunSnoc(one, OpRegister(y));
    assert two + [OpEnable] == [OpRegister(x), OpRegister(y), OpEnable];
    RunSnoc(two, OpEnable);
  }

  /** So the guard at the call is needed: two private variants register, and one call reaches both. */
  lemma PrivateAmbiguity(slot: string, a: string, b: string)
    requires ValidName(a) && ValidName(b) && a != b && !NodeAddresses.UnderRoots(slot, NodeAddresses.FORWARD_PASS_ROOTS)
    ensures ValidDescriptor(PRIVATE_CALL)
    ensures var x, y := Impl(slot, "k", a, PRIVATE), Impl(slot, "k", b, PRIVATE);
            Decide(Run([OpRegister(x), OpRegister(y), OpEnable]), slot, PRIVATE_CALL) == Ambiguous
  {
    var x, y := Impl(slot, "k", a, PRIVATE), Impl(slot, "k", b, PRIVATE);
    PrivateUndecided();
    RegisterFirst(x);
    AdmitsSecond(map[slot := [x]], x, y);
    RegisterSecond(x, y);
    RunPair(x, y);
    BothAccept(x, y, PRIVATE_CALL);
  }

  lemma BothAccept(x: Impl, y: Impl, d: Descriptor)
    requires Matches(x.eligibility, d) && Matches(y.eligibility, d)
    ensures Choose([x, y], d) == Ambiguous
  {
    assert Accepting([x], d) == [x] by { assert [x][..0] == [] && Accepting([], d) == [] && [] + [x] == [x]; }
    assert [x, y][..1] == [x] && |[x] + [y]| == 2;
  }

  /** A matching variant is the one selected. */
  lemma MatchingIsSelected(variants: seq<Impl>, x: Impl, d: Descriptor)
    requires Unclashing(variants) && ValidDescriptor(d) && forall y :: y in variants ==> PublicDomain(y.eligibility)
    requires x in variants && Matches(x.eligibility, d)
    ensures Choose(variants, d) == Selected(x)
  {
    PublicApart(variants);
    AtMostOne(variants, d);
    assert x in Accepting(variants, d) by { AcceptingElements(variants, d); }
    SoleElement(Accepting(variants, d), x);
  }

  lemma SoleElement<T>(s: seq<T>, x: T)
    requires |s| <= 1 && x in s
    ensures s == [x]
  {
  }

  lemma SomeCall(e: Eligibility) returns (d: Descriptor)
    requires PublicDomain(e) && DomainEmpty(e) != Some(true)
    ensures ValidDescriptor(d) && Matches(e, d)
  {
    EmptyExact(e);
    d :| ValidDescriptor(d) && Matches(e, d);
  }

  /** Every registered variant of an enabled registry is selected by some call. */
  lemma EveryVariantReachable(ops: seq<Op>, slot: string, x: Impl) returns (d: Descriptor)
    requires PublicOps(ops) && Run(ops).active && x in VariantsOf(Run(ops).bySlot, slot)
    ensures ValidDescriptor(d) && Decide(Run(ops), slot, d) == Selected(x)
  {
    RunsRoutable(ops);
    d := SomeCall(x.eligibility);
    MatchingIsSelected(VariantsOf(Run(ops).bySlot, slot), x, d);
  }

  // ----- what selection answers

  ghost predicate AcceptsAt(variants: seq<Impl>, d: Descriptor, i: int) {
    0 <= i < |variants| && Matches(variants[i].eligibility, d)
  }

  ghost predicate OnlyAt(variants: seq<Impl>, d: Descriptor, i: int) {
    AcceptsAt(variants, d, i) && forall j :: AcceptsAt(variants, d, j) ==> j == i
  }

  lemma AcceptedPositions(variants: seq<Impl>, d: Descriptor) returns (at: seq<nat>)
    ensures Rising(at) && |at| == |Accepting(variants, d)|
    ensures forall k :: 0 <= k < |at| ==> at[k] < |variants| && Accepting(variants, d)[k] == variants[at[k]]
    ensures forall i :: i in at <==> AcceptsAt(variants, d, i)
  {
    at := KeepPositions(variants, Accepts(d));
    forall i ensures i in at <==> AcceptsAt(variants, d, i) {
      if i in at { var k :| 0 <= k < |at| && at[k] == i; }
    }
  }

  lemma FirstTwo(at: seq<nat>)
    requires Rising(at) && |at| > 1
    ensures exists i, j :: i < j && i in at && j in at
  {
    assert at[0] < at[1] && at[0] in at && at[1] in at;
  }

  lemma OneAccepted(variants: seq<Impl>, d: Descriptor, at: seq<nat>, i: int)
    requires Rising(at) && forall j :: j in at <==> AcceptsAt(variants, d, j)
    ensures OnlyAt(variants, d, i) <==> at == [i]
  {
    if OnlyAt(variants, d, i) {
      assert i in at;
      if |at| > 1 { FirstTwo(at); }
      assert at[0] in at;
    }
  }

  /** One accepting variant is selected, none is out of domain, several are ambiguous. */
  lemma ChooseMeaning(variants: seq<Impl>, d: Descriptor)
    ensures Choose(variants, d) == Unregistered <==> variants == []
    ensures Choose(variants, d).OutOfDomain? <==> variants != [] && forall i :: !AcceptsAt(variants, d, i)
    ensures Choose(variants, d).OutOfDomain? ==>
      Choose(variants, d).only == if |variants| == 1 then Some(variants[0]) else None
    ensures forall i :: OnlyAt(variants, d, i) ==> Choose(variants, d) == Selected(variants[i])
    ensures Choose(variants, d).Selected? ==> exists i :: OnlyAt(variants, d, i)
    ensures Choose(variants, d) == Ambiguous <==>
      exists i, j :: i < j && AcceptsAt(variants, d, i) && AcceptsAt(variants, d, j)
  {
    var at := AcceptedPositions(variants, d);
    if at != [] { assert at[0] in at; }
    forall i ensures OnlyAt(variants, d, i) <==> at == [i] { OneAccepted(variants, d, at, i); }
    if |at| == 1 { assert at == [at[0]]; }
    if |at| >= 2 { assert at[0] in at && at[1] in at && at[0] < at[1]; }
    if i, j :| i < j && AcceptsAt(variants, d, i) && AcceptsAt(variants, d, j) { assert i in at && j in at; }
  }

  // ----- what registration accepts

  ghost predicate LimitsTokens(e: Eligibility) {
    e.minNumTokens.Some? || e.maxNumTokens.Some? || exists p :: p in e.capabilities && p.field == "num_tokens"
  }

  lemma {:induction false} PredicateFields(m: Constraints, ps: seq<Predicate>, f: string)
    ensures f in AddPredicates(m, ps) <==> f in m || exists p :: p in ps && p.field == f
  {
    if ps != [] {
      var init, p := ps[..|ps| - 1], ps[|ps| - 1];
      assert ps == init + [p];
      PredicateFields(m, init, f);
    }
  }

  lemma TokensIff(e: Eligibility)
    ensures "num_tokens" in AddEligibility(map[], e) <==> LimitsTokens(e)
  {
    PredicateFields(AddLegacy(map[], e), e.capabilities, "num_tokens");
  }

  /** The slot is a forward-pass node: a root of the model, or a module under one. */
  ghost predicate ForwardPass(slot: string) {
    slot == "model" || slot == "logits_processor" || "model." <= slot || "logits_processor." <= slot
  }

  lemma ForwardPassIff(slot: string)
    ensures NodeAddresses.UnderRoots(slot, NodeAddresses.FORWARD_PASS_ROOTS) <==> ForwardPass(slot)
  {
    var roots := NodeAddresses.FORWARD_PASS_ROOTS;
    assert roots[0] in roots && roots[1] in roots;
    assert "model" + "." == "model." && "logits_processor" + "." == "logits_processor.";
  }

  ghost predicate SomeCallIn(e: Eligibility) {
    exists d :: ValidDescriptor(d) && Matches(e, d)
  }

  ghost predicate SomeCallInBoth(a: Eligibility, b: Eligibility) {
    exists d :: ValidDescriptor(d) && Matches(a, d) && Matches(b, d)
  }

  lemma OverlapIff(a: Eligibility, b: Eligibility)
    requires PublicDomain(a) && PublicDomain(b)
    ensures Overlap(a, b) == Some(true) <==> SomeCallInBoth(a, b)
  {
    OverlapExact(a, b);
    if d :| Common(a, b, d) { assert ValidDescriptor(d) && Matches(a, d) && Matches(b, d); }
    if d :| ValidDescriptor(d) && Matches(a, d) && Matches(b, d) { assert Common(a, b, d); }
  }

  lemma SoundIff(x: Impl)
    requires PublicDomain(x.eligibility)
    ensures Sound(x) <==>
      && x.variant != "" && (forall c :: c in x.variant ==>
           '0' <= c <= '9' || 'A' <= c <= 'Z' || 'a' <= c <= 'z' || c in {'.', '_', '-'})
      && SomeCallIn(x.eligibility) && !(ForwardPass(x.slot) && LimitsTokens(x.eligibility))
  {
    TokensIff(x.eligibility);
    ForwardPassIff(x.slot);
    EmptyExact(x.eligibility);
    PublicComplete(x.eligibility);
  }

  /** A public variant registers exactly when it is named, serves some call, leaves a forward pass whole,
      and shares neither its name nor any call with a variant of its slot. */
  lemma AdmitsMeaning(m: Slots, x: Impl)
    requires PublicDomain(x.eligibility) && forall y :: y in VariantsOf(m, x.slot) ==> PublicDomain(y.eligibility)
    ensures Admits(m, x) <==>
      && x.variant != "" && (forall c :: c in x.variant ==>
           '0' <= c <= '9' || 'A' <= c <= 'Z' || 'a' <= c <= 'z' || c in {'.', '_', '-'})
      && SomeCallIn(x.eligibility) && !(ForwardPass(x.slot) && LimitsTokens(x.eligibility))
      && forall y :: y in VariantsOf(m, x.slot) ==>
           y.variant != x.variant && !SomeCallInBoth(y.eligibility, x.eligibility)
  {
    SoundIff(x);
    forall y | y in VariantsOf(m, x.slot)
      ensures Overlap(y.eligibility, x.eligibility) == Some(true) <==> SomeCallInBoth(y.eligibility, x.eligibility)
    {
      OverlapIff(y.eligibility, x.eligibility);
    }
  }

  // ----- what a run leaves behind

  /** The calls after the `i`-th neither disable nor clear. */
  ghost predicate StaysOn(ops: seq<Op>, i: nat) {
    forall j :: i < j < |ops| ==> !ops[j].OpDisable? && !ops[j].OpClear?
  }

  ghost predicate EnabledAt(ops: seq<Op>, i: int) {
    0 <= i < |ops| && ops[i].OpEnable? && StaysOn(ops, i)
  }

  /** Enabled exactly when some call enabled and none since then disabled or cleared. */
  lemma {:induction false} ActiveIff(ops: seq<Op>)
    ensures Run(ops).active <==> exists i :: EnabledAt(ops, i)
  {
    if ops != [] {
      var n := |ops| - 1;
      var init := ops[..n];
      ActiveIff(init);
      if i :| EnabledAt(init, i) {
        assert ops[n].OpDisable? || ops[n].OpClear? || EnabledAt(ops, i);
      }
      if i :| EnabledAt(ops, i) {
        assert i == n || EnabledAt(init, i);
        assert !ops[n].OpDisable? && !ops[n].OpClear?;
      }
      assert ops[n].OpEnable? ==> EnabledAt(ops, n);
    }
  }

  /** Whether `x` is accepted right after the given calls. */
  function Takes(x: Impl): seq<Op> -> bool {
    ops => Admits(Run(ops).bySlot, x)
  }

  /** Call `i` registers `x` where `takes` holds, and nothing has been cleared since. */
  ghost predicate KeptFrom(ops: seq<Op>, i: int, x: Impl, takes: seq<Op> -> bool) {
    && 0 <= i < |ops| && ops[i] == OpRegister(x) && takes(ops[..i])
    && forall j :: i < j < |ops| ==> !ops[j].OpClear?
  }

  ghost predicate Kept(ops: seq<Op>, x: Impl, takes: seq<Op> -> bool) {
    exists i :: KeptFrom(ops, i, x, takes)
  }

  lemma KeptNext(ops: seq<Op>, op: Op, x: Impl, takes: seq<Op> -> bool)
    ensures Kept(ops + [op], x, takes) <==> (op == OpRegister(x) && takes(ops)) || (Kept(ops, x, takes) && !op.OpClear?)
  {
    var next := ops + [op];
    assert next[..|ops|] == ops && next[|ops|] == op;
    if i :| KeptFrom(next, i, x, takes) && i < |ops| {
      assert next[..i] == ops[..i] && KeptFrom(ops, i, x, takes);
    }
    if i :| KeptFrom(ops, i, x, takes) && !op.OpClear? {
      assert next[..i] == ops[..i] && KeptFrom(next, i, x, takes);
    }
    if op == OpRegister(x) && takes(ops) { assert KeptFrom(next, |ops|, x, takes); }
  }

  lemma HeldNext(s: State, op: Op, slot: string, x: Impl)
    ensures x in VariantsOf(Step(s, op).bySlot, slot) <==>
      || (op == OpRegister(x) && Admits(s.bySlot, x) && x.slot == slot)
      || (x in VariantsOf(s.bySlot, slot) && !op.OpClear?)
  {
  }

  /** A slot holds exactly the variants accepted since the registry was last cleared. */
  lemma {:induction false} HeldIff(ops: seq<Op>, slot: string, x: Impl)
    ensures x in VariantsOf(Run(ops).bySlot, slot) <==> x.slot == slot && Kept(ops, x, Takes(x))
  {
    if ops != [] {
      var init, op := ops[..|ops| - 1], ops[|ops| - 1];
      HeldIff(init, slot, x);
      HeldNext(Run(init), op, slot, x);
      KeptNext(init, op, x, Takes(x));
      assert ops == init + [op] && Takes(x)(init) == Admits(Run(init).bySlot, x);
    }
  }

  // ----- what selection answers after a run

  ghost predicate Enabled(ops: seq<Op>) {
    exists i :: EnabledAt(ops, i)
  }

  ghost predicate HeldBy(ops: seq<Op>, slot: string, x: Impl) {
    x.slot == slot && Kept(ops, x, Takes(x))
  }

  ghost predicate Answers(ops: seq<Op>, slot: string, d: Descriptor, x: Impl) {
    HeldBy(ops, slot, x) && Matches(x.eligibility, d)
  }

  /** Each decision's own condition on the calls made so far; no two of them hold together. */
  ghost predicate Decided(ops: seq<Op>, slot: string, d: Descriptor, decision: Decision) {
    match decision
    case Inactive => !Enabled(ops)
    case Unregistered => Enabled(ops) && forall x :: !HeldBy(ops, slot, x)
    case OutOfDomain(only) =>
      && Enabled(ops) && (exists x :: HeldBy(ops, slot, x)) && (forall x :: !Answers(ops, slot, d, x))
      && if only.None? then exists x, y :: x != y && HeldBy(ops, slot, x) && HeldBy(ops, slot, y)
         else HeldBy(ops, slot, only.value) && forall x :: HeldBy(ops, slot, x) ==> x == only.value
    case Ambiguous => Enabled(ops) && exists x, y :: x != y && Answers(ops, slot, d, x) && Answers(ops, slot, d, y)
    case Selected(x) => Enabled(ops) && Answers(ops, slot, d, x) && forall y :: Answers(ops, slot, d, y) ==> y == x
  }

  /** The same conditions on the list a slot holds. */
  ghost predicate Listed(variants: seq<Impl>, d: Descriptor, decision: Decision) {
    match decision
    case Inactive => false
    case Unregistered => variants == []
    case OutOfDomain(only) =>
      && (exists x :: x in variants) && (forall x :: x in variants ==> !Matches(x.eligibility, d))
      && if only.None? then exists x, y :: x != y && x in variants && y in variants
         else only.value in variants && forall x :: x in variants ==> x == only.value
    case Ambiguous =>
      exists x, y :: x != y && x in variants && y in variants && Matches(x.eligibility, d) && Matches(y.eligibility, d)
    case Selected(x) =>
      && x in variants && Matches(x.eligibility, d)
      && forall y :: y in variants && Matches(y.eligibility, d) ==> y == x
  }

  lemma UnclashingApart(variants: seq<Impl>, i: nat, j: nat)
    requires Unclashing(variants) && i < j < |variants|
    ensures variants[i] != variants[j]
  {
    assert !Clash(variants[i], variants[j]);
  }

  lemma OutListed(variants: seq<Impl>, d: Descriptor)
    requires Unclashing(variants) && variants != [] && forall x :: x in variants ==> !Matches(x.eligibility, d)
    ensures Listed(variants, d, OutOfDomain(if |variants| == 1 then Some(variants[0]) else None))
  {
    assert variants[0] in variants;
    if |variants| > 1 {
      UnclashingApart(variants, 0, 1);
      assert variants[1] in variants;
    }
  }

  lemma SeveralListed(variants: seq<Impl>, d: Descriptor, i: nat, j: nat)
    requires Unclashing(variants) && i < j && AcceptsAt(variants, d, i) && AcceptsAt(variants, d, j)
    ensures Listed(variants, d, Ambiguous)
  {
    UnclashingApart(variants, i, j);
    assert variants[i] in variants && variants[j] in variants;
  }

  lemma ChooseListed(variants: seq<Impl>, d: Descriptor)
    requires Unclashing(variants)
    ensures Listed(variants, d, Choose(variants, d))
  {
    ChooseMeaning(variants, d);
    if Choose(variants, d).OutOfDomain? {
      forall x | x in variants ensures !Matches(x.eligibility, d) {
        var i :| 0 <= i < |variants| && variants[i] == x;
        assert !AcceptsAt(variants, d, i);
      }
      OutListed(variants, d);
    } else if Choose(variants, d) == Ambiguous {
      var i, j :| i < j && AcceptsAt(variants, d, i) && AcceptsAt(variants, d, j);
      SeveralListed(variants, d, i, j);
    } else if Choose(variants, d).Selected? {
      var i :| OnlyAt(variants, d, i);
      forall y | y in variants && Matches(y.eligibility, d) ensures y == variants[i] {
        var j :| 0 <= j < |variants| && variants[j] == y;
        assert AcceptsAt(variants, d, j);
      }
    }
  }

  lemma ListedDecided(ops: seq<Op>, slot: string, d: Descriptor, variants: seq<Impl>, decision: Decision)
    requires Enabled(ops) && Listed(variants, d, decision) && forall x :: x in variants <==> HeldBy(ops, slot, x)
    ensures Decided(ops, slot, d, decision)
  {
    match decision {
      case Unregistered =>
        forall x ensures !HeldBy(ops, slot, x) { assert x !in variants; }
      case OutOfDomain(only) =>
        var x :| x in variants;
        if only.None? { var y, z :| y != z && y in variants && z in variants; }
      case Ambiguous =>
        var x, y :| x != y && x in variants && y in variants && Matches(x.eligibility, d) && Matches(y.eligibility, d);
        assert Answers(ops, slot, d, x) && Answers(ops, slot, d, y);
      case Selected(x) =>
    }
  }

  /** After any run: inactive unless enabled since, and otherwise decided by which held variants the call matches. */
  lemma DecisionMeaning(ops: seq<Op>, slot: string, d: Descriptor)
    ensures Decided(ops, slot, d, Decide(Run(ops), slot, d))
  {
    ActiveIff(ops);
    if Enabled(ops) {
      var variants := VariantsOf(Run(ops).bySlot, slot);
      RunsUnclashing(ops);
      ChooseListed(variants, d);
      forall x ensures x in variants <==> HeldBy(ops, slot, x) { HeldIff(ops, slot, x); }
      ListedDecided(ops, slot, d, variants, Choose(variants, d));
    }
  }

  /** The conditions exclude one another, so they determine the decision. */
  lemma DecisionUnique(ops: seq<Op>, slot: string, d: Descriptor, a: Decision, b: Decision)
    requires Decided(ops, slot, d, a) && Decided(ops, slot, d, b)
    ensures a == b
  {
    if Enabled(ops) {
      var some, hit := exists x :: HeldBy(ops, slot, x), exists x :: Answers(ops, slot, d, x);
      DecisionKind(ops, slot, d, a, some, hit);
      DecisionKind(ops, slot, d, b, some, hit);
      if a.OutOfDomain? && a.only != b.only {
        if a.only.Some? { assert HeldBy(ops, slot, a.only.value); }
        if b.only.Some? { assert HeldBy(ops, slot, b.only.value); }
      }
    }
  }

  lemma DecisionKind(ops: seq<Op>, slot: string, d: Descriptor, a: Decision, some: bool, hit: bool)
    requires Enabled(ops) && Decided(ops, slot, d, a)
    requires (some <==> exists x :: HeldBy(ops, slot, x)) && (hit <==> exists x :: Answers(ops, slot, d, x))
    ensures a != Inactive && (a == Unregistered <==> !some) && (a.OutOfDomain? <==> some && !hit)
    ensures a.Selected? ==> forall x, y :: Answers(ops, slot, d, x) && Answers(ops, slot, d, y) ==> x == y
    ensures a == Ambiguous ==> exists x, y :: x != y && Answers(ops, slot, d, x) && Answers(ops, slot, d, y)
  {
    if a.Selected? { assert Answers(ops, slot, d, a.impl); }
    if a == Ambiguous { var x, y :| x != y && Answers(ops, slot, d, x) && Answers(ops, slot, d, y); }
    if x :| Answers(ops, slot, d, x) { assert HeldBy(ops, slot, x); }
  }

  // ----- registration order does not matter

  function RegisterAll(xs: seq<Impl>): Option<Slots> {
    if xs == [] then Some(map[])
    else
      var before := RegisterAll(xs[..|xs| - 1]);
      var x := xs[|xs| - 1];
      if before.None? || !Admits(before.value, x) then None else Some(Registered(before.value, x))
  }

  predicate Together(a: Impl, b: Impl) {
    a.slot == b.slot ==> !Clash(a, b)
  }

  /** Each variant is sound and no two clash: a condition that does not mention order. */
  ghost predicate Registrable(xs: seq<Impl>) {
    (forall x :: x in xs ==> Sound(x)) && Pairwise(Together, xs)
  }

  function Fills(slot: string): Impl -> bool {
    (x: Impl) => x.slot == slot
  }

  function InSlot(xs: seq<Impl>, slot: string): seq<Impl> {
    Keep(xs, Fills(slot))
  }

  lemma InSlotElements(xs: seq<Impl>, slot: string)
    ensures forall x :: x in InSlot(xs, slot) <==> x in xs && x.slot == slot
  {
    KeepElements(xs, Fills(slot));
  }

  lemma RegistrableSnoc(init: seq<Impl>, x: Impl)
    ensures Registrable(init + [x]) <==> Registrable(init) && Sound(x) && forall y :: y in init ==> Together(y, x)
  {
    var xs := init + [x];
    PairwiseSnoc(Together, init, x);
    assert xs[..|xs| - 1] == init;
    assert forall y :: y in xs <==> y in init || y == x;
    if Registrable(xs) {
      forall y | y in init ensures Together(y, x) { var i :| 0 <= i < |init| && init[i] == y; assert xs[i] == y; }
    }
  }

  lemma AdmitsIffTogether(m: Slots, init: seq<Impl>, x: Impl)
    requires VariantsOf(m, x.slot) == InSlot(init, x.slot)
    ensures Admits(m, x) <==> Sound(x) && forall y :: y in init ==> Together(y, x)
  {
    InSlotElements(init, x.slot);
  }

  ghost predicate SlotsOf(bySlot: Slots, ops: seq<Impl>) {
    forall s :: VariantsOf(bySlot, s) == InSlot(ops, s)
  }

  lemma SlotsNext(bySlot: Slots, init: seq<Impl>, x: Impl)
    requires SlotsOf(bySlot, init)
    ensures SlotsOf(bySlot[x.slot := VariantsOf(bySlot, x.slot) + [x]], init + [x])
  {
    var xs, after := init + [x], bySlot[x.slot := VariantsOf(bySlot, x.slot) + [x]];
    assert xs[..|xs| - 1] == init;
    forall s ensures VariantsOf(after, s) == InSlot(xs, s) { assert VariantsOf(bySlot, s) == InSlot(init, s); }
  }

  /** Registering in turn succeeds exactly when the list is registrable, and then keeps list order per slot. */
  lemma {:induction false} RegisterAllExact(xs: seq<Impl>)
    ensures RegisterAll(xs).Some? <==> Registrable(xs)
    ensures RegisterAll(xs).Some? ==> SlotsOf(RegisterAll(xs).value, xs)
  {
    if xs != [] {
      var init, x := xs[..|xs| - 1], xs[|xs| - 1];
      assert xs == init + [x];
      RegisterAllExact(init);
      RegistrableSnoc(init, x);
      if RegisterAll(init).Some? {
        AdmitsIffTogether(RegisterAll(init).value, init, x);
        SlotsNext(RegisterAll(init).value, init, x);
      }
    }
  }

  lemma TogetherSymmetric(a: Impl, b: Impl)
    requires PublicDomain(a.eligibility) && PublicDomain(b.eligibility) && Together(a, b)
    ensures Together(b, a)
  {
    OverlapSymmetric(a.eligibility, b.eligibility);
  }

  lemma RegistrablePermutation(xs: seq<Impl>, ys: seq<Impl>)
    requires Registrable(xs) && multiset(xs) == multiset(ys) && forall x :: x in xs ==> PublicDomain(x.eligibility)
    ensures Registrable(ys)
  {
    forall a, b | a in xs && b in xs && Together(a, b) ensures Together(b, a) { TogetherSymmetric(a, b); }
    PairwisePermutation(Together, xs, ys);
    forall y | y in ys ensures y in xs { assert y in multiset(ys); }
  }

  lemma {:induction false} InSlotUnclashing(xs: seq<Impl>, slot: string)
    requires Registrable(xs)
    ensures Unclashing(InSlot(xs, slot))
  {
    if xs != [] {
      var init := xs[..|xs| - 1];
      assert xs == init + [xs[|xs| - 1]];
      PairwiseSnoc(Together, init, xs[|xs| - 1]);
      assert forall y :: y in init ==> y in xs;
      InSlotUnclashing(init, slot);
      InSlotElements(init, slot);
      var before, after := InSlot(init, slot), InSlot(xs, slot);
      forall i, j | 0 <= i < j < |after| ensures !Clash(after[i], after[j]) {
        if j == |before| { assert before[i] in before; }
      }
    }
  }

  /** Two registrable lists with the same elements route every call alike. */
  lemma ChooseSame(xs: seq<Impl>, ys: seq<Impl>, d: Descriptor)
    requires Unclashing(xs) && Unclashing(ys) && ValidDescriptor(d) && |xs| == |ys|
    requires forall x :: x in xs <==> x in ys
    requires forall x :: x in xs ==> PublicDomain(x.eligibility)
    ensures Choose(xs, d) == Choose(ys, d)
  {
    AcceptingElements(xs, d);
    AcceptingElements(ys, d);
    if x :| x in xs && Matches(x.eligibility, d) {
      MatchingIsSelected(xs, x, d);
      MatchingIsSelected(ys, x, d);
    } else {
      if |xs| == 1 { assert xs[0] in ys; }
    }
  }

  lemma {:induction false} InSlotCount(xs: seq<Impl>, slot: string)
    requires Distinct(xs)
    ensures Distinct(InSlot(xs, slot))
  {
    if xs != [] {
      InSlotCount(xs[..|xs| - 1], slot);
      InSlotElements(xs[..|xs| - 1], slot);
    }
  }

  lemma RegistrableDistinct(xs: seq<Impl>)
    requires Registrable(xs)
    ensures Distinct(xs)
  {
    forall i, j | 0 <= i < j < |xs| ensures xs[i] != xs[j] { assert Together(xs[i], xs[j]); }
  }

  lemma InSlotAlike(xs: seq<Impl>, ys: seq<Impl>, slot: string)
    requires Distinct(xs) && Distinct(ys) && multiset(xs) == multiset(ys)
    ensures |InSlot(xs, slot)| == |InSlot(ys, slot)|
    ensures forall x :: x in InSlot(xs, slot) <==> x in InSlot(ys, slot)
  {
    var a, b := InSlot(xs, slot), InSlot(ys, slot);
    InSlotElements(xs, slot);
    InSlotElements(ys, slot);
    forall x ensures x in xs <==> x in ys { assert x in xs <==> x in multiset(xs); }
    InSlotCount(xs, slot);
    InSlotCount(ys, slot);
    DistinctSize(a);
    DistinctSize(b);
    assert Elements(a) == Elements(b);
  }

  lemma InSlotPublic(xs: seq<Impl>, slot: string)
    requires forall x :: x in xs ==> PublicDomain(x.eligibility)
    ensures forall x :: x in InSlot(xs, slot) ==> PublicDomain(x.eligibility)
  {
    InSlotElements(xs, slot);
  }

  lemma SlotsRouteAlike(xs: seq<Impl>, ys: seq<Impl>, slot: string, d: Descriptor)
    requires Registrable(xs) && Registrable(ys) && multiset(xs) == multiset(ys)
    requires ValidDescriptor(d) && forall x :: x in xs ==> PublicDomain(x.eligibility)
    ensures Choose(InSlot(xs, slot), d) == Choose(InSlot(ys, slot), d)
  {
    InSlotUnclashing(xs, slot);
    InSlotUnclashing(ys, slot);
    RegistrableDistinct(xs);
    RegistrableDistinct(ys);
    InSlotAlike(xs, ys, slot);
    InSlotPublic(xs, slot);
    ChooseSame(InSlot(xs, slot), InSlot(ys, slot), d);
  }

  /** Any permutation of a registrable list also registers, and selects the same variant for every call. */
  lemma OrderIrrelevant(xs: seq<Impl>, ys: seq<Impl>, slot: string, d: Descriptor)
    requires RegisterAll(xs).Some? && multiset(xs) == multiset(ys)
    requires ValidDescriptor(d) && forall x :: x in xs ==> PublicDomain(x.eligibility)
    ensures RegisterAll(ys).Some?
    ensures Choose(VariantsOf(RegisterAll(xs).value, slot), d) == Choose(VariantsOf(RegisterAll(ys).value, slot), d)
  {
    RegisterAllExact(xs);
    RegisterAllExact(ys);
    RegistrablePermutation(xs, ys);
    SlotsRouteAlike(xs, ys, slot, d);
  }

  // ----- the intake twin

  predicate OpLeq(a: Impl, b: Impl) {
    StrLess(a.slot, b.slot) || (a.slot == b.slot && StrLeq(a.variant, b.variant))
  }

  predicate Disjoint(a: Impl, b: Impl) {
    a.slot == b.slot ==> !Overlapping(a, b)
  }

  ghost predicate NoneEmpty(ops: seq<Impl>) {
    forall x :: x in ops ==> DomainEmpty(x.eligibility) != Some(true)
  }

  /** What `_validate_variant_domains` demands of a manifest's operations. */
  ghost predicate IntakeOk(ops: seq<Impl>) {
    NoneEmpty(ops) && Pairwise(Disjoint, ops)
  }

  lemma NoneEmptySnoc(init: seq<Impl>, x: Impl)
    ensures NoneEmpty(init + [x]) <==> NoneEmpty(init) && DomainEmpty(x.eligibility) != Some(true)
  {
    assert forall y :: y in init + [x] <==> y in init || y == x;
  }

  lemma OverlapInSlot(init: seq<Impl>, x: Impl)
    ensures OverlapsAny(InSlot(init, x.slot), x) <==> exists y :: y in init && !Disjoint(y, x)
  {
    InSlotElements(init, x.slot);
    if y :| y in init && !Disjoint(y, x) { assert y in InSlot(init, x.slot) && Overlapping(y, x); }
    if y :| y in InSlot(init, x.slot) && Overlapping(y, x) { assert !Disjoint(y, x); }
  }

  lemma IntakeSnoc(init: seq<Impl>, x: Impl)
    ensures IntakeOk(init + [x]) <==>
      (IntakeOk(init) && DomainEmpty(x.eligibility) != Some(true) && !OverlapsAny(InSlot(init, x.slot), x))
  {
    NoneEmptySnoc(init, x);
    PairwiseSnoc(Disjoint, init, x);
    OverlapInSlot(init, x);
  }

  lemma {:induction false} IntakePrefix(ops: seq<Impl>, n: nat)
    requires n <= |ops| && IntakeOk(ops)
    ensures IntakeOk(ops[..n])
  {
  }

  lemma IntakeRefuses(ops: seq<Impl>, i: nat)
    requires i <= |ops| && !IntakeOk(ops[..i])
    ensures !IntakeOk(ops)
  {
    if IntakeOk(ops) { IntakePrefix(ops, i); }
  }

  lemma TakeOne<T>(s: seq<T>, i: nat)
    requires i < |s|
    ensures s[..i + 1] == s[..i] + [s[i]]
  {
  }

  /** The loop over the sorted operations. */
  method ValidateSorted(ops: seq<Impl>) returns (ok: bool)
    ensures ok <==> IntakeOk(ops)
  {
    var bySlot: Slots := map[];
    for i := 0 to |ops|
      invariant IntakeOk(ops[..i]) && SlotsOf(bySlot, ops[..i])
    {
      var x := ops[i];
      TakeOne(ops, i);
      IntakeSnoc(ops[..i], x);
      var empty := EligibilityDomainIsEmpty(x.eligibility);
      var prior := VariantsOf(bySlot, x.slot);
      var overlap := AnyOverlap(prior, x);
      if empty == Some(true) || overlap {
        IntakeRefuses(ops, i + 1);
        return false;
      }
      SlotsNext(bySlot, ops[..i], x);
      bySlot := bySlot[x.slot := prior + [x]];
    }
    assert ops[..|ops|] == ops;
    ok := true;
  }

  lemma IntakePermutation(xs: seq<Impl>, ys: seq<Impl>)
    requires IntakeOk(xs) && multiset(xs) == multiset(ys) && forall x :: x in xs ==> PublicDomain(x.eligibility)
    ensures IntakeOk(ys)
  {
    forall a, b | a in xs && b in xs && Disjoint(a, b) ensures Disjoint(b, a) {
      OverlapSymmetric(a.eligibility, b.eligibility);
    }
    PairwisePermutation(Disjoint, xs, ys);
    forall y | y in ys ensures y in xs { assert y in multiset(ys); }
  }

  /** Intake sorts the manifest's operations first; the verdict does not depend on it. */
  method ValidateVariantDomains(ops: seq<Impl>) returns (ok: bool)
    requires forall x :: x in ops ==> PublicDomain(x.eligibility)
    ensures ok <==> IntakeOk(ops)
  {
    var sorted := Sort(OpLeq, ops);
    SortContents(OpLeq, ops);
    forall x | x in sorted ensures x in ops { assert x in multiset(sorted); }
    ok := ValidateSorted(sorted);
    if ok { IntakePermutation(sorted, ops); }
    if IntakeOk(ops) { IntakePermutation(ops, sorted); }
  }

  /** What the manifest loader guarantees: simple names, unique within a slot. */
  ghost predicate Named(ops: seq<Impl>) {
    (forall x :: x in ops ==> ValidName(x.variant)) && Pairwise(NamesDiffer, ops)
  }

  predicate NamesDiffer(a: Impl, b: Impl) {
    a.slot == b.slot ==> a.variant != b.variant
  }

  /** Accepted operations register without conflict exactly when they are named and split no tokens. */
  lemma IntakeRegisters(ops: seq<Impl>)
    requires IntakeOk(ops)
    ensures RegisterAll(ops).Some? <==> Named(ops) && forall x :: x in ops ==> !SplitsTokens(x)
  {
    RegisterAllExact(ops);
    if Registrable(ops) {
      forall i, j | 0 <= i < j < |ops| ensures NamesDiffer(ops[i], ops[j]) { assert Together(ops[i], ops[j]); }
    }
    if Named(ops) && forall x :: x in ops ==> !SplitsTokens(x) {
      forall i, j | 0 <= i < j < |ops| ensures Together(ops[i], ops[j]) {
        assert NamesDiffer(ops[i], ops[j]) && Disjoint(ops[i], ops[j]);
      }
    }
  }

  /** A forward-pass node limited to eight tokens passes intake and is refused by the registry. */
  lemma TokenLimitRefused(bundle: string, variant: string)
    ensures var x := Impl("model", bundle, variant, Eligibility({}, {}, None, {}, Some(8), None, []));
      IntakeOk([x]) && RegisterAll([x]).None?
  {
    var e := Eligibility({}, {}, None, {}, Some(8), None, []);
    var x := Impl("model", bundle, variant, e);
    var d: Descriptor := map["num_tokens" := Int(1)];
    assert ValidDescriptor(d) && Matches(e, d);
    EmptyExact(e);
    assert "model" in NodeAddresses.FORWARD_PASS_ROOTS by { assert NodeAddresses.FORWARD_PASS_ROOTS[1] == "model"; }
    assert SplitsTokens(x) && x in [x];
    IntakeRegisters([x]);
  }
}
