/** Capability domains and their static analysis (`cacheon/capabilities.py`, `cacheon/registry.py`). */
module Capabilities {
  import opened Orders
  import opened Wrappers

  datatype Scalar = Text(text: string) | Int(n: int) | Flag(b: bool)

  const NUMERIC_FIELDS: set<string> := {
    "alignment", "batch_size", "block_size", "ep_size", "exp_tokens", "head_dim", "hidden_dim", "input_dim",
    "intermediate_dim", "init_blocks", "kv_len", "last_dim", "local_blocks", "num_experts", "num_kv_heads",
    "num_q_heads", "num_tokens", "output_dim", "page_size", "q_len", "q_block_size", "top_k", "tp_size", "world_size"}

  const CONTEXT_FIELDS: set<string> := {
    "architecture", "dtype", "graph_mode", "layout", "model", "parallel_role", "phase", "quant", "runtime"}

  /** What `canonical_value` lets a field hold. */
  predicate ValidValue(field: string, v: Scalar) {
    && (field in NUMERIC_FIELDS ==> v.Int? && v.n >= 0)
    && (field in CONTEXT_FIELDS ==> v.Text? && v.text != "")
  }

  /** A canonical live call. */
  type Descriptor = map<string, Scalar>

  predicate ValidDescriptor(d: Descriptor) {
    forall f :: f in d ==> ValidValue(f, d[f])
  }

  datatype Predicate = Predicate(field: string, allowed: seq<Scalar>, minimum: Option<int>, maximum: Option<int>) {

    predicate Accepts(v: Scalar) {
      if allowed != [] then v in allowed
      else v.Int? && (minimum.Some? ==> minimum.value <= v.n) && (maximum.Some? ==> v.n <= maximum.value)
    }

    /** What `_parse_predicate` can produce. */
    predicate Public() {
      && (field in NUMERIC_FIELDS || field in CONTEXT_FIELDS)
      && (allowed != [] ==> minimum.None? && maximum.None? && forall v :: v in allowed ==> ValidValue(field, v))
      && (allowed == [] ==> field in NUMERIC_FIELDS && (minimum.Some? || maximum.Some?))
    }
  }

  datatype Eligibility = Eligibility(
    dtypes: set<string>, architectures: set<string>, maxLastDim: Option<int>, quant: set<string>,
    maxNumTokens: Option<int>, minNumTokens: Option<int>, capabilities: seq<Predicate>)

  /** Only predicates that public metadata can declare; legacy text is never empty. */
  predicate PublicDomain(e: Eligibility) {
    && "" !in e.dtypes && "" !in e.architectures && "" !in e.quant
    && forall p :: p in e.capabilities ==> p.Public()
  }

  function Texts(values: set<string>): set<Scalar> {
    set v | v in values :: Text(v)
  }

  predicate InRange(v: Scalar, minimum: Option<int>, maximum: Option<int>) {
    v.Int? && (minimum.Some? ==> minimum.value <= v.n) && (maximum.Some? ==> v.n <= maximum.value)
  }

  // ----- the dynamic match

  predicate OneOfFits(values: set<string>, d: Descriptor, field: string) {
    values != {} ==> field in d && d[field] in Texts(values)
  }

  predicate RangeFits(lo: Option<int>, hi: Option<int>, d: Descriptor, field: string) {
    lo.Some? || hi.Some? ==> field in d && InRange(d[field], lo, hi)
  }

  /** No declared format means the dense one, which a call may leave unstated. */
  predicate FormatFits(quant: set<string>, d: Descriptor) {
    if quant != {} then "quant" in d && d["quant"] in Texts(quant) else "quant" in d ==> d["quant"] == Text("dense")
  }

  predicate LegacyMatches(e: Eligibility, d: Descriptor) {
    && OneOfFits(e.dtypes, d, "dtype")
    && OneOfFits(e.architectures, d, "architecture")
    && RangeFits(None, e.maxLastDim, d, "last_dim")
    && RangeFits(e.minNumTokens, e.maxNumTokens, d, "num_tokens")
    && FormatFits(e.quant, d)
  }

  predicate Fits(p: Predicate, d: Descriptor) {
    p.field in d && p.Accepts(d[p.field])
  }

  /** The call lies in the domain: a missing constrained field is a mismatch. */
  predicate Matches(e: Eligibility, d: Descriptor) {
    LegacyMatches(e, d) && forall p :: p in e.capabilities ==> Fits(p, d)
  }

  // ----- the static constraints

  datatype Constraint = Constraint(
    allowed: Option<set<Scalar>>, minimum: Option<int>, maximum: Option<int>, excluded: set<Scalar>)
  {

    function Allow(values: set<Scalar>): Constraint {
      this.(allowed := Some(if allowed.None? then values else allowed.value * values))
    }

    function Range(lo: Option<int>, hi: Option<int>): Constraint {
      this.(minimum := if lo.None? then minimum
                       else if minimum.None? then lo else Some(Larger(minimum.value, lo.value)),
            maximum := if hi.None? then maximum
                       else if maximum.None? then hi else Some(Smaller(maximum.value, hi.value)))
    }

    /** `is_empty`, branch by branch. */
    predicate Empty(numeric: bool) {
      var lo := if numeric then Some(if minimum.None? then 0 else Larger(0, minimum.value)) else minimum;
      if numeric && maximum.Some? && lo.value > maximum.value then true
      else if allowed.Some? then
        forall v :: v in allowed.value ==>
          || v in excluded
          || (!v.Int? && !(minimum.None? && maximum.None?))
          || (v.Int? && ((lo.Some? && v.n < lo.value) || (maximum.Some? && v.n > maximum.value)))
      else if !numeric || maximum.None? then false
      else if maximum.value - lo.value + 1 > |excluded| then false
      else forall n :: lo.value <= n <= maximum.value ==> Int(n) in excluded
    }

    /** The values the constraint describes. */
    predicate Admits(v: Scalar) {
      && (allowed.Some? ==> v in allowed.value)
      && v !in excluded
      && (minimum.Some? || maximum.Some? ==> InRange(v, minimum, maximum))
    }

    /** Allowed values belong to the field, and only numeric fields carry bounds. */
    predicate Typed(field: string) {
      && (allowed.Some? ==> forall v :: v in allowed.value ==> ValidValue(field, v))
      && (field in CONTEXT_FIELDS ==> minimum.None? && maximum.None?)
      && (field in NUMERIC_FIELDS || field in CONTEXT_FIELDS)
    }
  }

  function Larger(a: int, b: int): int { if a < b then b else a }
  function Smaller(a: int, b: int): int { if a < b then a else b }

  const FREE := Constraint(None, None, None, {})

  type Constraints = map<string, Constraint>

  /** `constraints.setdefault(name, _FieldConstraint())` */
  function Field(m: Constraints, name: string): Constraint {
    if name in m then m[name] else FREE
  }

  function AllowNames(m: Constraints, f: string, names: set<string>): Constraints {
    if names == {} then m else m[f := Field(m, f).Allow(Texts(names))]
  }

  function Bound(m: Constraints, f: string, lo: Option<int>, hi: Option<int>): Constraints {
    if lo.None? && hi.None? then m else m[f := Field(m, f).Range(lo, hi)]
  }

  function AddNames(m: Constraints, e: Eligibility): Constraints {
    AllowNames(AllowNames(m, "dtype", e.dtypes), "architecture", e.architectures)
  }

  function AddBounds(m: Constraints, e: Eligibility): Constraints {
    Bound(Bound(m, "last_dim", None, e.maxLastDim), "num_tokens", e.minNumTokens, e.maxNumTokens)
  }

  /** The accepted formats; none declared means the dense one. */
  function Formats(e: Eligibility): set<string> {
    if e.quant == {} then {"dense"} else e.quant
  }

  function AddLegacy(m: Constraints, e: Eligibility): Constraints {
    AllowNames(AddBounds(AddNames(m, e), e), "quant", Formats(e))
  }

  function AddPredicate(m: Constraints, p: Predicate): Constraints {
    m[p.field := if p.allowed != [] then Field(m, p.field).Allow(Elements(p.allowed))
                 else Field(m, p.field).Range(p.minimum, p.maximum)]
  }

  function AddPredicates(m: Constraints, ps: seq<Predicate>): Constraints {
    if ps == [] then m else AddPredicate(AddPredicates(m, ps[..|ps| - 1]), ps[|ps| - 1])
  }

  /** `_add_eligibility_constraints` */
  function AddEligibility(m: Constraints, e: Eligibility): Constraints {
    AddPredicates(AddLegacy(m, e), e.capabilities)
  }

  predicate Complete(e: Eligibility) {
    forall p :: p in e.capabilities ==> p.field in NUMERIC_FIELDS || p.field in CONTEXT_FIELDS
  }

  predicate Contradictory(m: Constraints) {
    exists f :: f in m && m[f].Empty(f in NUMERIC_FIELDS)
  }

  /** `eligibility_domains_overlap`; nothing when private predicates leave it open. */
  function Overlap(a: Eligibility, b: Eligibility): Option<bool> {
    if Contradictory(AddEligibility(AddEligibility(map[], a), b)) then Some(false)
    else if Complete(a) && Complete(b) then Some(true) else None
  }

  /** `eligibility_domain_is_empty` */
  function DomainEmpty(e: Eligibility): Option<bool> {
    if Contradictory(AddEligibility(map[], e)) then Some(true) else if Complete(e) then Some(false) else None
  }

  ghost predicate Private(e: Eligibility) {
    exists p :: p in e.capabilities && p.field !in NUMERIC_FIELDS && p.field !in CONTEXT_FIELDS
  }

  lemma CompleteIff(e: Eligibility)
    ensures Complete(e) <==> !Private(e)
  {
  }

  /** Only private predicates leave an answer open, and they never let it be a definite yes. */
  lemma AnswerOpen(a: Eligibility, b: Eligibility)
    ensures Overlap(a, b).None? ==> Private(a) || Private(b)
    ensures Overlap(a, b) == Some(true) ==> !Private(a) && !Private(b)
    ensures DomainEmpty(a).None? ==> Private(a)
    ensures DomainEmpty(a) == Some(false) ==> !Private(a)
  {
    CompleteIff(a);
    CompleteIff(b);
  }

  // ----- the emptiness test is exact for one field

  /** Among more candidates than a finite set has elements, one is outside it. */
  lemma {:induction false} Pigeonhole<T>(s: set<T>, f: nat -> T) returns (i: nat)
    requires forall i, j :: 0 <= i < j ==> f(i) != f(j)
    ensures i <= |s| && f(i) !in s
    decreases |s|
  {
    i := 0;
    if f(0) in s {
      var g := (n: nat) => f(n + 1);
      forall m, n | 0 <= m < n ensures g(m) != g(n) { assert f(m + 1) != f(n + 1); }
      var j := Pigeonhole(s - {f(0)}, g);
      assert f(0) != f(j + 1);
      i := j + 1;
    }
  }

  function Repeat(n: nat): string { if n == 0 then "a" else Repeat(n - 1) + "a" }

  lemma {:induction false} RepeatLength(n: nat)
    ensures |Repeat(n)| == n + 1
  {
    if n > 0 { RepeatLength(n - 1); }
  }

  /** Text domains are infinite. */
  lemma FreshText(excluded: set<Scalar>) returns (v: Scalar)
    ensures v.Text? && v.text != "" && v !in excluded
  {
    var f := (n: nat) => Text(Repeat(n));
    forall i, j | 0 <= i < j ensures f(i) != f(j) { RepeatLength(i); RepeatLength(j); }
    var i := Pigeonhole(excluded, f);
    RepeatLength(i);
    v := f(i);
  }

  lemma FreshNumber(excluded: set<Scalar>, lo: nat) returns (n: nat)
    ensures lo <= n <= lo + |excluded| && Int(n) !in excluded
  {
    var f := (n: nat) => Int(lo + n);
    var i := Pigeonhole(excluded, f);
    n := lo + i;
  }

  /** An empty constraint admits no value of its field. */
  lemma EmptySound(c: Constraint, field: string, v: Scalar)
    requires c.Empty(field in NUMERIC_FIELDS) && ValidValue(field, v)
    ensures !c.Admits(v)
  {
  }

  /** A constraint that is not empty admits some value of its field. */
  lemma EmptyComplete(c: Constraint, field: string) returns (v: Scalar)
    requires c.Typed(field) && !c.Empty(field in NUMERIC_FIELDS)
    ensures ValidValue(field, v) && c.Admits(v)
  {
    var numeric := field in NUMERIC_FIELDS;
    FieldsDisjoint();
    if c.allowed.Some? {
      var lo := if numeric then Some(if c.minimum.None? then 0 else Larger(0, c.minimum.value)) else c.minimum;
      v :| v in c.allowed.value && v !in c.excluded && (v.Int? || (c.minimum.None? && c.maximum.None?)) &&
        (v.Int? ==> !(lo.Some? && v.n < lo.value) && !(c.maximum.Some? && v.n > c.maximum.value));
    } else if !numeric {
      v := FreshText(c.excluded);
    } else {
      var lo := if c.minimum.None? then 0 else Larger(0, c.minimum.value);
      if c.maximum.None? || c.maximum.value - lo + 1 > |c.excluded| {
        var n := FreshNumber(c.excluded, lo);
        v := Int(n);
      } else {
        var n :| lo <= n <= c.maximum.value && Int(n) !in c.excluded;
        v := Int(n);
      }
    }
  }

  // ----- the constraints say what the match says

  predicate Satisfied(m: Constraints, d: Descriptor) {
    forall f :: f in m ==> f in d && m[f].Admits(d[f])
  }

  lemma SatisfiedUpdate(m: Constraints, d: Descriptor, f: string, c: Constraint)
    ensures Satisfied(m[f := c], d) <==>
      (forall g :: g in m && g != f ==> g in d && m[g].Admits(d[g])) && f in d && c.Admits(d[f])
  {
    assert forall g :: g in m[f := c] <==> g in m || g == f;
  }

  lemma AllowExact(m: Constraints, d: Descriptor, f: string, values: set<Scalar>)
    ensures Satisfied(m[f := Field(m, f).Allow(values)], d) <==> Satisfied(m, d) && f in d && d[f] in values
  {
    SatisfiedUpdate(m, d, f, Field(m, f).Allow(values));
  }

  lemma RangeExact(m: Constraints, d: Descriptor, f: string, lo: Option<int>, hi: Option<int>)
    requires lo.Some? || hi.Some?
    ensures Satisfied(m[f := Field(m, f).Range(lo, hi)], d) <==> Satisfied(m, d) && f in d && InRange(d[f], lo, hi)
  {
    SatisfiedUpdate(m, d, f, Field(m, f).Range(lo, hi));
  }

  lemma NamesExact(m: Constraints, d: Descriptor, f: string, names: set<string>)
    ensures Satisfied(AllowNames(m, f, names), d) <==> Satisfied(m, d) && OneOfFits(names, d, f)
  {
    if names != {} { AllowExact(m, d, f, Texts(names)); }
  }

  lemma BoundExact(m: Constraints, d: Descriptor, f: string, lo: Option<int>, hi: Option<int>)
    ensures Satisfied(Bound(m, f, lo, hi), d) <==> Satisfied(m, d) && RangeFits(lo, hi, d, f)
  {
    if lo.Some? || hi.Some? { RangeExact(m, d, f, lo, hi); }
  }

  lemma FormatsExact(e: Eligibility, d: Descriptor)
    ensures OneOfFits(Formats(e), d, "quant") <==> FormatFits(e.quant, d) && "quant" in d
  {
    assert Texts({"dense"}) == {Text("dense")};
  }

  lemma LegacyExact(m: Constraints, e: Eligibility, d: Descriptor)
    ensures Satisfied(AddLegacy(m, e), d) <==> Satisfied(m, d) && LegacyMatches(e, d) && "quant" in d
  {
    NamesExact(m, d, "dtype", e.dtypes);
    NamesExact(AllowNames(m, "dtype", e.dtypes), d, "architecture", e.architectures);
    var named := AddNames(m, e);
    BoundExact(named, d, "last_dim", None, e.maxLastDim);
    BoundExact(Bound(named, "last_dim", None, e.maxLastDim), d, "num_tokens", e.minNumTokens, e.maxNumTokens);
    NamesExact(AddBounds(named, e), d, "quant", Formats(e));
    FormatsExact(e, d);
  }

  lemma {:induction false} PredicatesExact(m: Constraints, ps: seq<Predicate>, d: Descriptor)
    requires forall p :: p in ps ==> p.Public()
    ensures Satisfied(AddPredicates(m, ps), d) <==>
      Satisfied(m, d) && forall p :: p in ps ==> Fits(p, d)
  {
    if ps != [] {
      var init, p := ps[..|ps| - 1], ps[|ps| - 1];
      assert ps == init + [p];
      PredicatesExact(m, init, d);
      var before := AddPredicates(m, init);
      assert p in ps && p.Public();
      if p.allowed != [] {
        AllowExact(before, d, p.field, Elements(p.allowed));
      } else {
        RangeExact(before, d, p.field, p.minimum, p.maximum);
      }
    }
  }

  /** Folding a domain into the constraints conjoins exactly its match, on calls that state their format. */
  lemma EligibilityExact(m: Constraints, e: Eligibility, d: Descriptor)
    requires PublicDomain(e)
    ensures Satisfied(AddEligibility(m, e), d) <==> Satisfied(m, d) && Matches(e, d) && "quant" in d
  {
    LegacyExact(m, e, d);
    PredicatesExact(AddLegacy(m, e), e.capabilities, d);
  }

  // ----- typing of the constraints

  predicate TypedAll(m: Constraints) {
    forall f :: f in m ==> m[f].Typed(f)
  }

  lemma FieldsDisjoint()
    ensures NUMERIC_FIELDS !! CONTEXT_FIELDS
    ensures {"dtype", "architecture", "quant"} <= CONTEXT_FIELDS && {"last_dim", "num_tokens"} <= NUMERIC_FIELDS
  {
  }

  lemma AllowTyped(m: Constraints, f: string, values: set<Scalar>)
    requires TypedAll(m) && (f in NUMERIC_FIELDS || f in CONTEXT_FIELDS) && forall v :: v in values ==> ValidValue(f, v)
    ensures TypedAll(m[f := Field(m, f).Allow(values)])
  {
    assert Field(m, f).Allow(values).Typed(f);
  }

  lemma RangeTyped(m: Constraints, f: string, lo: Option<int>, hi: Option<int>)
    requires TypedAll(m) && f in NUMERIC_FIELDS
    ensures TypedAll(m[f := Field(m, f).Range(lo, hi)])
  {
    FieldsDisjoint();
    assert Field(m, f).Range(lo, hi).Typed(f);
  }

  lemma TextsValid(values: set<string>, f: string)
    requires "" !in values && f in CONTEXT_FIELDS
    ensures forall v :: v in Texts(values) ==> ValidValue(f, v)
  {
    FieldsDisjoint();
  }

  lemma NamesTyped(m: Constraints, f: string, names: set<string>)
    requires TypedAll(m) && f in CONTEXT_FIELDS && "" !in names
    ensures TypedAll(AllowNames(m, f, names))
  {
    TextsValid(names, f);
    AllowTyped(m, f, Texts(names));
  }

  lemma BoundTyped(m: Constraints, f: string, lo: Option<int>, hi: Option<int>)
    requires TypedAll(m) && f in NUMERIC_FIELDS
    ensures TypedAll(Bound(m, f, lo, hi))
  {
    RangeTyped(m, f, lo, hi);
  }

  lemma LegacyTyped(m: Constraints, e: Eligibility)
    requires TypedAll(m) && PublicDomain(e)
    ensures TypedAll(AddLegacy(m, e))
  {
    FieldsDisjoint();
    NamesTyped(m, "dtype", e.dtypes);
    NamesTyped(AllowNames(m, "dtype", e.dtypes), "architecture", e.architectures);
    var named := AddNames(m, e);
    BoundTyped(named, "last_dim", None, e.maxLastDim);
    BoundTyped(Bound(named, "last_dim", None, e.maxLastDim), "num_tokens", e.minNumTokens, e.maxNumTokens);
    NamesTyped(AddBounds(named, e), "quant", Formats(e));
  }

  lemma {:induction false} PredicatesTyped(m: Constraints, ps: seq<Predicate>)
    requires TypedAll(m) && forall p :: p in ps ==> p.Public()
    ensures TypedAll(AddPredicates(m, ps))
  {
    if ps != [] {
      var init, p := ps[..|ps| - 1], ps[|ps| - 1];
      PredicatesTyped(m, init);
      assert p in ps && p.Public();
      if p.allowed != [] {
        AllowTyped(AddPredicates(m, init), p.field, Elements(p.allowed));
      } else {
        RangeTyped(AddPredicates(m, init), p.field, p.minimum, p.maximum);
      }
    }
  }

  lemma EligibilityTyped(m: Constraints, e: Eligibility)
    requires TypedAll(m) && PublicDomain(e)
    ensures TypedAll(AddEligibility(m, e))
  {
    LegacyTyped(m, e);
    PredicatesTyped(AddLegacy(m, e), e.capabilities);
  }

  /** Constraints that are nowhere empty are met by a valid call. */
  lemma WitnessCall(m: Constraints) returns (d: Descriptor)
    requires TypedAll(m) && !Contradictory(m)
    ensures ValidDescriptor(d) && Satisfied(m, d) && d.Keys == m.Keys
  {
    forall f | f in m ensures exists v :: ValidValue(f, v) && m[f].Admits(v) {
      var v := EmptyComplete(m[f], f);
    }
    d := map f | f in m :: var v :| ValidValue(f, v) && m[f].Admits(v); v;
  }

  lemma ContradictorySound(m: Constraints, d: Descriptor)
    requires Contradictory(m) && ValidDescriptor(d)
    ensures !Satisfied(m, d)
  {
    var f :| f in m && m[f].Empty(f in NUMERIC_FIELDS);
    if f in d { EmptySound(m[f], f, d[f]); }
  }

  /** A call that leaves its format open can state the dense one and still match. */
  lemma StateFormat(e: Eligibility, d: Descriptor)
    requires Matches(e, d) && "quant" !in d
    ensures Matches(e, d["quant" := Text("dense")])
  {
  }

  // ----- exactness of the two analyses

  ghost predicate Common(a: Eligibility, b: Eligibility, d: Descriptor) {
    ValidDescriptor(d) && Matches(a, d) && Matches(b, d)
  }

  lemma PredicateHolds(m: Constraints, p: Predicate, d: Descriptor)
    requires Satisfied(m, d) && Fits(p, d)
    ensures Satisfied(AddPredicate(m, p), d)
  {
    if p.allowed != [] {
      AllowExact(m, d, p.field, Elements(p.allowed));
    } else if p.minimum.Some? || p.maximum.Some? {
      RangeExact(m, d, p.field, p.minimum, p.maximum);
    } else {
      SatisfiedUpdate(m, d, p.field, Field(m, p.field));
    }
  }

  lemma {:induction false} PredicatesHold(m: Constraints, ps: seq<Predicate>, d: Descriptor)
    requires Satisfied(m, d) && forall p :: p in ps ==> Fits(p, d)
    ensures Satisfied(AddPredicates(m, ps), d)
  {
    if ps != [] {
      var init, p := ps[..|ps| - 1], ps[|ps| - 1];
      assert ps == init + [p];
      PredicatesHold(m, init, d);
      PredicateHolds(AddPredicates(m, init), p, d);
    }
  }

  /** Whatever matches a domain meets its constraints, private predicates included. */
  lemma MatchSatisfies(m: Constraints, e: Eligibility, d: Descriptor)
    requires Satisfied(m, d) && Matches(e, d) && "quant" in d
    ensures Satisfied(AddEligibility(m, e), d)
  {
    LegacyExact(m, e, d);
    PredicatesHold(AddLegacy(m, e), e.capabilities, d);
  }

  /** The same call with its format stated. */
  function Stated(d: Descriptor): Descriptor {
    if "quant" in d then d else d["quant" := Text("dense")]
  }

  lemma StatedMatches(e: Eligibility, d: Descriptor)
    requires ValidDescriptor(d) && Matches(e, d)
    ensures ValidDescriptor(Stated(d)) && Matches(e, Stated(d)) && "quant" in Stated(d)
  {
    if "quant" !in d { StateFormat(e, d); }
  }

  /** A refusal is sound for every pair of domains: no valid call lies in both, private predicates included. */
  lemma RefusalSound(a: Eligibility, b: Eligibility, d: Descriptor)
    requires Overlap(a, b) == Some(false)
    ensures !Common(a, b, d)
  {
    if Common(a, b, d) {
      StatedMatches(a, d);
      StatedMatches(b, d);
      MatchSatisfies(map[], a, Stated(d));
      MatchSatisfies(AddEligibility(map[], a), b, Stated(d));
      ContradictorySound(AddEligibility(AddEligibility(map[], a), b), Stated(d));
    }
  }

  lemma OverlapWitness(a: Eligibility, b: Eligibility) returns (d: Descriptor)
    requires PublicDomain(a) && PublicDomain(b) && Overlap(a, b) != Some(false)
    ensures Common(a, b, d)
  {
    var ma := AddEligibility(map[], a);
    EligibilityTyped(map[], a);
    EligibilityTyped(ma, b);
    d := WitnessCall(AddEligibility(ma, b));
    EligibilityExact(map[], a, d);
    EligibilityExact(ma, b, d);
  }

  lemma PublicComplete(e: Eligibility)
    requires PublicDomain(e)
    ensures Complete(e)
  {
  }

  /** The overlap analysis answers, and answers exactly whether some valid call lies in both domains. */
  lemma OverlapExact(a: Eligibility, b: Eligibility)
    requires PublicDomain(a) && PublicDomain(b)
    ensures Overlap(a, b) == Some(true) <==> exists d :: Common(a, b, d)
    ensures Overlap(a, b) == Some(false) <==> forall d :: !Common(a, b, d)
  {
    PublicComplete(a);
    PublicComplete(b);
    if Overlap(a, b) == Some(false) {
      forall d ensures !Common(a, b, d) { RefusalSound(a, b, d); }
    } else {
      var d := OverlapWitness(a, b);
    }
  }

  /** A domain reported empty is matched by no valid call, private predicates included. */
  lemma EmptyRefusalSound(e: Eligibility, d: Descriptor)
    requires DomainEmpty(e) == Some(true) && ValidDescriptor(d)
    ensures !Matches(e, d)
  {
    if Matches(e, d) {
      StatedMatches(e, d);
      MatchSatisfies(map[], e, Stated(d));
      ContradictorySound(AddEligibility(map[], e), Stated(d));
    }
  }

  /** So is the emptiness analysis. */
  lemma EmptyExact(e: Eligibility)
    requires PublicDomain(e)
    ensures DomainEmpty(e) == Some(false) <==> exists d :: ValidDescriptor(d) && Matches(e, d)
    ensures DomainEmpty(e) == Some(true) <==> forall d :: !(ValidDescriptor(d) && Matches(e, d))
  {
    PublicComplete(e);
    if DomainEmpty(e) == Some(true) {
      forall d | ValidDescriptor(d) ensures !Matches(e, d) { EmptyRefusalSound(e, d); }
    } else {
      EligibilityTyped(map[], e);
      var d := WitnessCall(AddEligibility(map[], e));
      EligibilityExact(map[], e, d);
    }
  }

  lemma OverlapSymmetric(a: Eligibility, b: Eligibility)
    requires PublicDomain(a) && PublicDomain(b)
    ensures Overlap(a, b) == Overlap(b, a)
  {
    OverlapExact(a, b);
    OverlapExact(b, a);
    if d :| Common(a, b, d) { assert Common(b, a, d); }
    if d :| Common(b, a, d) { assert Common(a, b, d); }
  }

  // ----- the loops

  /** A failed rule: a legacy field's, or a declared predicate's. */
  datatype Mismatch = Mismatch(field: string, missing: bool, declaredBy: Option<Predicate>)

  /** The legacy rule of a field; other fields have none. */
  predicate LegacyFits(e: Eligibility, d: Descriptor, field: string) {
    if field == "dtype" then OneOfFits(e.dtypes, d, "dtype")
    else if field == "architecture" then OneOfFits(e.architectures, d, "architecture")
    else if field == "last_dim" then RangeFits(None, e.maxLastDim, d, "last_dim")
    else if field == "num_tokens" then RangeFits(e.minNumTokens, e.maxNumTokens, d, "num_tokens")
    else if field == "quant" then FormatFits(e.quant, d)
    else true
  }

  /** The mismatch names a rule of the domain that the call fails, and says whether the field is missing. */
  predicate Fails(e: Eligibility, d: Descriptor, m: Mismatch) {
    && (m.missing <==> m.field !in d)
    && match m.declaredBy
       case None => !LegacyFits(e, d, m.field)
       case Some(p) => p in e.capabilities && p.field == m.field && !Fits(p, d)
  }

  function Check(
    before: seq<Mismatch>, d: Descriptor, field: string, fits: bool, p: Option<Predicate>): (r: seq<Mismatch>)
    ensures forall m :: m in r <==> m in before || (!fits && m == Mismatch(field, field !in d, p))
  {
    if fits then before else before + [Mismatch(field, field !in d, p)]
  }

  method MatchLegacy(e: Eligibility, d: Descriptor) returns (all: seq<Mismatch>)
    requires ValidDescriptor(d)
    ensures forall m :: m in all <==> m.declaredBy.None? && Fails(e, d, m)
  {
    all := Check([], d, "dtype", LegacyFits(e, d, "dtype"), None);
    all := Check(all, d, "architecture", LegacyFits(e, d, "architecture"), None);
    all := Check(all, d, "last_dim", LegacyFits(e, d, "last_dim"), None);
    all := Check(all, d, "num_tokens", LegacyFits(e, d, "num_tokens"), None);
    all := Check(all, d, "quant", LegacyFits(e, d, "quant"), None);
  }

  /** `CapabilityDomain.match`: one mismatch for every predicate the call fails. */
  method MatchCapabilities(ps: seq<Predicate>, d: Descriptor, before: seq<Mismatch>) returns (all: seq<Mismatch>)
    ensures forall m :: m in all <==>
      m in before || exists p :: p in ps && !Fits(p, d) && m == Mismatch(p.field, p.field !in d, Some(p))
  {
    all := before;
    for i := 0 to |ps|
      invariant forall m :: m in all <==>
        m in before || exists p :: p in ps[..i] && !Fits(p, d) && m == Mismatch(p.field, p.field !in d, Some(p))
    {
      all := Check(all, d, ps[i].field, Fits(ps[i], d), Some(ps[i]));
    }
  }

  lemma MatchesIff(e: Eligibility, d: Descriptor)
    ensures Matches(e, d) <==> forall m :: !Fails(e, d, m)
  {
    if Matches(e, d) {
      assert forall field :: LegacyFits(e, d, field);
    } else if !LegacyMatches(e, d) {
      var field := if !LegacyFits(e, d, "dtype") then "dtype"
                   else if !LegacyFits(e, d, "architecture") then "architecture"
                   else if !LegacyFits(e, d, "last_dim") then "last_dim"
                   else if !LegacyFits(e, d, "num_tokens") then "num_tokens"
                   else "quant";
      assert Fails(e, d, Mismatch(field, field !in d, None));
    } else {
      var p :| p in e.capabilities && !Fits(p, d);
      assert Fails(e, d, Mismatch(p.field, p.field !in d, Some(p)));
    }
  }

  /** `match`: the failed rules, each listed once; the call is accepted exactly when there is none. */
  method Match(e: Eligibility, d: Descriptor) returns (mismatches: seq<Mismatch>)
    requires ValidDescriptor(d)
    ensures forall m :: m in mismatches <==> Fails(e, d, m)
    ensures Distinct(mismatches)
    ensures mismatches == [] <==> Matches(e, d)
  {
    var legacy := MatchLegacy(e, d);
    var all := MatchCapabilities(e.capabilities, d, legacy);
    mismatches := Dedupe(all);
    MatchesIff(e, d);
    if mismatches != [] { assert mismatches[0] in mismatches; }
  }

  method Dedupe<T(==)>(all: seq<T>) returns (few: seq<T>)
    ensures Distinct(few) && forall x :: x in few <==> x in all
  {
    few := [];
    for i := 0 to |all|
      invariant Distinct(few) && forall x :: x in few <==> x in all[..i]
    {
      assert all[..i + 1] == all[..i] + [all[i]];
      if all[i] !in few {
        few := few + [all[i]];
      }
    }
    assert all[..|all|] == all;
  }

  // ----- what public metadata can declare

  /** One field's declared object; `None` is an absent key, and spellings are already canonical. */
  datatype Spec = Spec(
    exact: Option<Scalar>, oneOf: Option<seq<Scalar>>, minimum: Option<Scalar>, maximum: Option<Scalar>)

  predicate GoodBound(field: string, bound: Option<Scalar>) {
    bound.Some? ==> bound.value.Int? && ValidValue(field, bound.value)
  }

  /** One way of stating the field, and values the field can hold. */
  predicate Parsable(field: string, spec: Spec) {
    && (field in NUMERIC_FIELDS || field in CONTEXT_FIELDS)
    && match (spec.exact, spec.oneOf)
       case (Some(_), Some(_)) => false
       case (Some(v), None) => spec.minimum.None? && spec.maximum.None? && ValidValue(field, v)
       case (None, Some(vs)) =>
         spec.minimum.None? && spec.maximum.None? && vs != [] && forall v :: v in vs ==> ValidValue(field, v)
       case (None, None) =>
         && field in NUMERIC_FIELDS && (spec.minimum.Some? || spec.maximum.Some?)
         && GoodBound(field, spec.minimum) && GoodBound(field, spec.maximum)
         && (spec.minimum.Some? && spec.maximum.Some? ==> spec.minimum.value.n <= spec.maximum.value.n)
  }

  /** The values a declared object speaks of. */
  predicate Describes(spec: Spec, v: Scalar) {
    if spec.exact.Some? then v == spec.exact.value
    else if spec.oneOf.Some? then v in spec.oneOf.value
    else
      && v.Int?
      && (spec.minimum.Some? && spec.minimum.value.Int? ==> spec.minimum.value.n <= v.n)
      && (spec.maximum.Some? && spec.maximum.value.Int? ==> v.n <= spec.maximum.value.n)
  }

  /** No value repeated, and bounds that leave some value. */
  ghost predicate Tidy(p: Predicate) {
    && Distinct(p.allowed)
    && (p.minimum.Some? ==> p.minimum.value >= 0) && (p.maximum.Some? ==> p.maximum.value >= 0)
    && (p.minimum.Some? && p.maximum.Some? ==> p.minimum.value <= p.maximum.value)
  }

  function BoundOf(bound: Option<Scalar>): Option<int> {
    if bound.Some? && bound.value.Int? then Some(bound.value.n) else None
  }

  /** `_parse_predicate`: refuses exactly the ill-formed objects, and accepts exactly the values described. */
  method ParsePredicate(field: string, spec: Spec) returns (r: Option<Predicate>)
    ensures r.Some? <==> Parsable(field, spec)
    ensures r.Some? ==> r.value.field == field && r.value.Public() && Tidy(r.value)
    ensures r.Some? ==> forall v :: r.value.Accepts(v) <==> Describes(spec, v)
  {
    if field !in NUMERIC_FIELDS && field !in CONTEXT_FIELDS {
      return None;
    }
    var listed, ranged := spec.exact.Some? || spec.oneOf.Some?, spec.minimum.Some? || spec.maximum.Some?;
    if (listed && ranged) || (spec.exact.Some? && spec.oneOf.Some?) || (!listed && !ranged) {
      return None;
    }
    if listed {
      var values := if spec.oneOf.Some? then spec.oneOf.value else [spec.exact.value];
      if values == [] || exists v :: v in values && !ValidValue(field, v) {
        return None;
      }
      var allowed := Dedupe(values);
      assert values[0] in allowed;
      return Some(Predicate(field, allowed, None, None));
    }
    if field !in NUMERIC_FIELDS || !GoodBound(field, spec.minimum) || !GoodBound(field, spec.maximum) {
      return None;
    }
    var minimum, maximum := BoundOf(spec.minimum), BoundOf(spec.maximum);
    if minimum.Some? && maximum.Some? && minimum.value > maximum.value {
      return None;
    }
    r := Some(Predicate(field, [], minimum, maximum));
  }

  function SpecBound(bound: Option<int>): Option<Scalar> {
    if bound.Some? then Some(Int(bound.value)) else None
  }

  function SpecOf(p: Predicate): Spec {
    Spec(None, if p.allowed == [] then None else Some(p.allowed), SpecBound(p.minimum), SpecBound(p.maximum))
  }

  /** Every tidy public predicate can be declared. */
  lemma PublicDeclarable(p: Predicate)
    requires p.Public() && Tidy(p)
    ensures Parsable(p.field, SpecOf(p)) && forall v :: p.Accepts(v) <==> Describes(SpecOf(p), v)
  {
  }

  method AddEligibilityConstraints(before: Constraints, e: Eligibility) returns (m: Constraints, complete: bool)
    ensures m == AddEligibility(before, e) && complete == Complete(e)
  {
    m, complete := AddLegacy(before, e), true;
    for i := 0 to |e.capabilities|
      invariant m == AddPredicates(AddLegacy(before, e), e.capabilities[..i])
      invariant complete <==> forall j :: 0 <= j < i ==>
        e.capabilities[j].field in NUMERIC_FIELDS || e.capabilities[j].field in CONTEXT_FIELDS
    {
      var p := e.capabilities[i];
      if p.field !in NUMERIC_FIELDS && p.field !in CONTEXT_FIELDS {
        complete := false;
      }
      assert e.capabilities[..i + 1][..i] == e.capabilities[..i];
      m := AddPredicate(m, p);
    }
    assert e.capabilities[..|e.capabilities|] == e.capabilities;
  }

  method AnyEmpty(m: Constraints) returns (found: bool)
    ensures found <==> Contradictory(m)
  {
    var todo := m.Keys;
    while todo != {}
      invariant todo <= m.Keys && forall f :: f in m && f !in todo ==> !m[f].Empty(f in NUMERIC_FIELDS)
      decreases todo
    {
      var f :| f in todo;
      if m[f].Empty(f in NUMERIC_FIELDS) {
        return true;
      }
      todo := todo - {f};
    }
    found := false;
  }

  method EligibilityDomainsOverlap(left: Eligibility, right: Eligibility) returns (r: Option<bool>)
    ensures r == Overlap(left, right)
  {
    var m, first := AddEligibilityConstraints(map[], left);
    var both, second := AddEligibilityConstraints(m, right);
    var empty := AnyEmpty(both);
    r := if empty then Some(false) else if first && second then Some(true) else None;
  }

  method EligibilityDomainIsEmpty(e: Eligibility) returns (r: Option<bool>)
    ensures r == DomainEmpty(e)
  {
    var m, complete := AddEligibilityConstraints(map[], e);
    var empty := AnyEmpty(m);
    r := if empty then Some(true) else if complete then Some(false) else None;
  }
}
