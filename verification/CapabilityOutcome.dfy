/** What a capability domain accepts, in the call's own values (`cacheon/registry.py`, `cacheon/capabilities.py`). */
module CapabilityOutcome {
  import opened Orders
  import opened Wrappers
  import opened Capabilities

  // ----- the dynamic match

  ghost predicate Says(d: Descriptor, field: string, v: Scalar) {
    field in d && d[field] == v
  }

  /** The call states one of the names. */
  ghost predicate StatesOne(d: Descriptor, field: string, names: set<string>) {
    exists name :: name in names && Says(d, field, Text(name))
  }

  /** The call states a number between the declared ends. */
  ghost predicate StatesBetween(d: Descriptor, field: string, least: Option<int>, most: Option<int>) {
    exists n :: Says(d, field, Int(n)) && (least.Some? ==> n >= least.value) && (most.Some? ==> n <= most.value)
  }

  /** A predicate lists its values, or gives the ends of a range of numbers. */
  ghost predicate Meets(d: Descriptor, p: Predicate) {
    if p.allowed == [] then StatesBetween(d, p.field, p.minimum, p.maximum)
    else exists i :: 0 <= i < |p.allowed| && Says(d, p.field, p.allowed[i])
  }

  /** What each legacy field asks of the call; other fields ask nothing. */
  ghost predicate Asked(e: Eligibility, d: Descriptor, field: string) {
    && (field == "dtype" && e.dtypes != {} ==> StatesOne(d, "dtype", e.dtypes))
    && (field == "architecture" && e.architectures != {} ==> StatesOne(d, "architecture", e.architectures))
    && (field == "last_dim" && e.maxLastDim.Some? ==>
          exists n :: Says(d, "last_dim", Int(n)) && n <= e.maxLastDim.value)
    && (field == "num_tokens" && (e.minNumTokens.Some? || e.maxNumTokens.Some?) ==>
          StatesBetween(d, "num_tokens", e.minNumTokens, e.maxNumTokens))
    && (field == "quant" && e.quant != {} ==> StatesOne(d, "quant", e.quant))
    && (field == "quant" && e.quant == {} ==> "quant" !in d || Says(d, "quant", Text("dense")))
  }

  lemma NamesMeaning(names: set<string>, d: Descriptor, field: string)
    ensures OneOfFits(names, d, field) <==> names == {} || StatesOne(d, field, names)
  {
    if field in d && d[field] in Texts(names) {
      var name :| name in names && Text(name) == d[field];
      assert Says(d, field, Text(name));
    }
  }

  lemma BetweenMeaning(least: Option<int>, most: Option<int>, d: Descriptor, field: string)
    ensures RangeFits(least, most, d, field) <==>
      (least.None? && most.None?) || StatesBetween(d, field, least, most)
    ensures field in d && InRange(d[field], least, most) <==> StatesBetween(d, field, least, most)
  {
    if field in d && InRange(d[field], least, most) { assert Says(d, field, Int(d[field].n)); }
  }

  lemma FormatMeaning(e: Eligibility, d: Descriptor)
    ensures FormatFits(e.quant, d) <==> Asked(e, d, "quant")
  {
    NamesMeaning(e.quant, d, "quant");
  }

  lemma LastDimMeaning(e: Eligibility, d: Descriptor)
    ensures RangeFits(None, e.maxLastDim, d, "last_dim") <==> Asked(e, d, "last_dim")
  {
    BetweenMeaning(None, e.maxLastDim, d, "last_dim");
    if e.maxLastDim.Some? {
      if n :| Says(d, "last_dim", Int(n)) && n <= e.maxLastDim.value {
        assert StatesBetween(d, "last_dim", None, e.maxLastDim);
      }
      if n :| Says(d, "last_dim", Int(n)) && (e.maxLastDim.Some? ==> n <= e.maxLastDim.value) {
        assert Asked(e, d, "last_dim");
      }
    }
  }

  lemma LegacyMeaning(e: Eligibility, d: Descriptor, field: string)
    ensures LegacyFits(e, d, field) <==> Asked(e, d, field)
  {
    if field == "dtype" {
      NamesMeaning(e.dtypes, d, field);
    } else if field == "architecture" {
      NamesMeaning(e.architectures, d, field);
    } else if field == "last_dim" {
      LastDimMeaning(e, d);
    } else if field == "num_tokens" {
      BetweenMeaning(e.minNumTokens, e.maxNumTokens, d, field);
    } else if field == "quant" {
      FormatMeaning(e, d);
    }
  }

  lemma PredicateMeaning(p: Predicate, d: Descriptor)
    ensures Fits(p, d) <==> Meets(d, p)
  {
    if p.allowed == [] {
      BetweenMeaning(p.minimum, p.maximum, d, p.field);
    } else if p.field in d && d[p.field] in p.allowed {
      var i :| 0 <= i < |p.allowed| && p.allowed[i] == d[p.field];
      assert Says(d, p.field, p.allowed[i]);
    }
  }

  /** A call matches a domain exactly when it states what every declared name set, bound, format and predicate asks. */
  lemma MatchMeaning(e: Eligibility, d: Descriptor)
    ensures Matches(e, d) <==>
      && (e.dtypes != {} ==> StatesOne(d, "dtype", e.dtypes))
      && (e.architectures != {} ==> StatesOne(d, "architecture", e.architectures))
      && (e.maxLastDim.Some? ==> exists n :: Says(d, "last_dim", Int(n)) && n <= e.maxLastDim.value)
      && (e.minNumTokens.Some? ==> exists n :: Says(d, "num_tokens", Int(n)) && n >= e.minNumTokens.value)
      && (e.maxNumTokens.Some? ==> exists n :: Says(d, "num_tokens", Int(n)) && n <= e.maxNumTokens.value)
      && (e.quant != {} ==> StatesOne(d, "quant", e.quant))
      && (e.quant == {} ==> "quant" !in d || Says(d, "quant", Text("dense")))
      && forall p :: p in e.capabilities ==> Meets(d, p)
  {
    LegacyMeaning(e, d, "dtype");
    LegacyMeaning(e, d, "architecture");
    LegacyMeaning(e, d, "last_dim");
    LegacyMeaning(e, d, "num_tokens");
    LegacyMeaning(e, d, "quant");
    TokensMeaning(e, d);
    forall p | p in e.capabilities ensures Fits(p, d) <==> Meets(d, p) { PredicateMeaning(p, d); }
  }

  lemma TokensMeaning(e: Eligibility, d: Descriptor)
    ensures Asked(e, d, "num_tokens") <==>
      && (e.minNumTokens.Some? ==> exists n :: Says(d, "num_tokens", Int(n)) && n >= e.minNumTokens.value)
      && (e.maxNumTokens.Some? ==> exists n :: Says(d, "num_tokens", Int(n)) && n <= e.maxNumTokens.value)
  {
  }

  /** A listed mismatch names a field whose declared rule the call does not meet, and whether the call leaves it out. */
  lemma MismatchMeaning(e: Eligibility, d: Descriptor, m: Mismatch)
    ensures Fails(e, d, m) <==>
      && (m.missing <==> m.field !in d)
      && match m.declaredBy
         case None => !Asked(e, d, m.field)
         case Some(p) => p in e.capabilities && p.field == m.field && !Meets(d, p)
  {
    LegacyMeaning(e, d, m.field);
    if m.declaredBy.Some? { PredicateMeaning(m.declaredBy.value, d); }
  }

  // ----- private predicates do not reopen a settled answer

  /** Every constraint of `m` is in `n`, no looser. */
  ghost predicate Tighter(m: Constraints, n: Constraints) {
    forall f :: f in m ==> f in n && TighterAt(m[f], n[f])
  }

  ghost predicate TighterAt(c: Constraint, t: Constraint) {
    && (c.allowed.Some? ==> t.allowed.Some? && t.allowed.value <= c.allowed.value)
    && (c.minimum.Some? ==> t.minimum.Some? && t.minimum.value >= c.minimum.value)
    && (c.maximum.Some? ==> t.maximum.Some? && t.maximum.value <= c.maximum.value)
    && c.excluded <= t.excluded
  }

  lemma TighterEmpty(c: Constraint, t: Constraint, numeric: bool)
    requires TighterAt(c, t) && c.Empty(numeric)
    ensures t.Empty(numeric)
  {
    SubsetSize(c.excluded, t.excluded);
  }

  lemma TighterContradictory(m: Constraints, n: Constraints)
    requires Tighter(m, n) && Contradictory(m)
    ensures Contradictory(n)
  {
    var f :| f in m && m[f].Empty(f in NUMERIC_FIELDS);
    TighterEmpty(m[f], n[f], f in NUMERIC_FIELDS);
  }

  lemma TighterNames(m: Constraints, n: Constraints, f: string, names: set<string>)
    requires Tighter(m, n)
    ensures Tighter(AllowNames(m, f, names), AllowNames(n, f, names))
  {
  }

  lemma TighterBound(m: Constraints, n: Constraints, f: string, lo: Option<int>, hi: Option<int>)
    requires Tighter(m, n)
    ensures Tighter(Bound(m, f, lo, hi), Bound(n, f, lo, hi))
  {
  }

  lemma TighterPredicate(m: Constraints, n: Constraints, p: Predicate)
    requires Tighter(m, n)
    ensures Tighter(AddPredicate(m, p), AddPredicate(n, p)) && Tighter(m, AddPredicate(n, p))
  {
  }

  lemma TighterLegacy(m: Constraints, n: Constraints, e: Eligibility)
    requires Tighter(m, n)
    ensures Tighter(AddLegacy(m, e), AddLegacy(n, e))
  {
    TighterNames(m, n, "dtype", e.dtypes);
    TighterNames(AllowNames(m, "dtype", e.dtypes), AllowNames(n, "dtype", e.dtypes), "architecture", e.architectures);
    var a, b := AddNames(m, e), AddNames(n, e);
    TighterBound(a, b, "last_dim", None, e.maxLastDim);
    TighterBound(Bound(a, "last_dim", None, e.maxLastDim), Bound(b, "last_dim", None, e.maxLastDim), "num_tokens",
                 e.minNumTokens, e.maxNumTokens);
    TighterNames(AddBounds(a, e), AddBounds(b, e), "quant", Formats(e));
  }

  lemma {:induction false} TighterPredicates(m: Constraints, n: Constraints, ps: seq<Predicate>)
    requires Tighter(m, n)
    ensures Tighter(AddPredicates(m, ps), AddPredicates(n, ps))
  {
    if ps != [] {
      TighterPredicates(m, n, ps[..|ps| - 1]);
      TighterPredicate(AddPredicates(m, ps[..|ps| - 1]), AddPredicates(n, ps[..|ps| - 1]), ps[|ps| - 1]);
    }
  }

  lemma TighterEligibility(m: Constraints, n: Constraints, e: Eligibility)
    requires Tighter(m, n)
    ensures Tighter(AddEligibility(m, e), AddEligibility(n, e))
  {
    TighterLegacy(m, n, e);
    TighterPredicates(AddLegacy(m, e), AddLegacy(n, e), e.capabilities);
  }

  lemma TighterSelf(m: Constraints)
    ensures Tighter(m, m)
  {
  }

  lemma {:induction false} MorePredicates(m: Constraints, ps: seq<Predicate>, more: seq<Predicate>)
    ensures Tighter(AddPredicates(m, ps), AddPredicates(m, ps + more))
  {
    if more == [] {
      assert ps + more == ps;
      TighterSelf(AddPredicates(m, ps));
    } else {
      var n := |more| - 1;
      MorePredicates(m, ps, more[..n]);
      assert (ps + more)[..|ps + more| - 1] == ps + more[..n];
      TighterPredicate(AddPredicates(m, ps), AddPredicates(m, ps + more[..n]), more[n]);
    }
  }

  /** The domain with further predicates, private ones included. */
  function Narrowed(e: Eligibility, more: seq<Predicate>): Eligibility {
    e.(capabilities := e.capabilities + more)
  }

  lemma NarrowedTighter(m: Constraints, n: Constraints, e: Eligibility, more: seq<Predicate>)
    requires Tighter(m, n)
    ensures Tighter(AddEligibility(m, e), AddEligibility(n, Narrowed(e, more)))
  {
    TighterEligibility(m, n, e);
    MorePredicates(AddLegacy(n, e), e.capabilities, more);
    var a, b, c := AddEligibility(m, e), AddEligibility(n, e), AddEligibility(n, Narrowed(e, more));
    assert AddLegacy(n, Narrowed(e, more)) == AddLegacy(n, e);
    forall f | f in a ensures f in c && TighterAt(a[f], c[f]) { assert f in b; }
  }

  /** Domains found disjoint or empty stay so whatever predicates are added, so deferring one never hides a refusal. */
  lemma RefusalStands(a: Eligibility, b: Eligibility, moreA: seq<Predicate>, moreB: seq<Predicate>)
    ensures Overlap(a, b) == Some(false) ==> Overlap(Narrowed(a, moreA), Narrowed(b, moreB)) == Some(false)
    ensures DomainEmpty(a) == Some(true) ==> DomainEmpty(Narrowed(a, moreA)) == Some(true)
  {
    TighterSelf(map[]);
    NarrowedTighter(map[], map[], a, moreA);
    var one, two := AddEligibility(map[], a), AddEligibility(map[], Narrowed(a, moreA));
    if Contradictory(one) { TighterContradictory(one, two); }
    NarrowedTighter(one, two, b, moreB);
    if Contradictory(AddEligibility(one, b)) {
      TighterContradictory(AddEligibility(one, b), AddEligibility(two, Narrowed(b, moreB)));
    }
  }
}
