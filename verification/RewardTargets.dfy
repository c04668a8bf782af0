/** Admission of an active reward stack (`cacheon/economics.py`, `_active_reward_targets`). */
module RewardTargets {
  import opened Orders
  import opened Wrappers
  import opened RewardGraph

  /** One sealed catalog row; `family` is absent when the row has no contract. */
  datatype TargetRow = TargetRow(
    displaces: seq<string>, needs: seq<string>, conflicts: seq<string>, members: seq<string>,
    compatible: seq<string>, family: Option<Option<string>>)

  datatype Rule = Rule(
    targets: seq<string>, ruleId: string, precedence: seq<string>, version: int, mode: string,
    bindingDigest: string, family: Option<string>)

  datatype Stack = Stack(
    schema: int, policy: string, rows: map<string, TargetRow>, active: set<string>, rules: seq<Rule>)

  // ----- what an admitted stack is

  function Displacing(s: Stack): Graph { map t | t in s.rows :: s.rows[t].displaces }
  function Needing(s: Stack): Graph { map t | t in s.rows :: s.rows[t].needs }

  /** `ids` of any list in the snapshot. */
  predicate Ids(s: Stack, values: seq<string>) {
    |Elements(values)| == |values| && Elements(values) <= s.rows.Keys
  }

  /** Transitively, target `t` displaces nothing active and needs only active targets. */
  ghost predicate Related(s: Stack, t: string)
    requires t in s.rows
  {
    && !Refusable(Displacing(s), t) && (forall n :: Reaches(Displacing(s), t, n) ==> n !in s.active)
    && !Refusable(Needing(s), t) && (forall n :: Reaches(Needing(s), t, n) ==> n in s.active)
  }

  predicate Owning(s: Stack, t: string)
    requires t in s.rows
  {
    && (s.schema == 2 ==> Ids(s, s.rows[t].conflicts) && Elements(s.rows[t].conflicts) !! s.active)
    && Ids(s, s.rows[t].members) && s.rows[t].members != []
  }

  predicate Hex64(d: string) {
    |d| == 64 && forall c :: c in d ==> '0' <= c <= '9' || 'a' <= c <= 'f'
  }

  predicate Applies(s: Stack, r: Rule) {
    Elements(r.targets) <= s.active
  }

  predicate BindingAgrees(s: Stack, r: Rule, t: string) {
    t in s.rows && (s.rows[t].family.Some? ==> s.rows[t].family.value == r.family)
  }

  /** A rule that applies names an ordered pair and a precedence of exactly that pair. */
  predicate RuleShape(s: Stack, r: Rule) {
    && |r.targets| == 2 && StrLess(r.targets[0], r.targets[1])
    && r.ruleId != ""
    && Ids(s, r.precedence) && Elements(r.precedence) == Elements(r.targets)
    && r.version == 1 && r.mode == "first_applicable" && Hex64(r.bindingDigest)
    && BindingAgrees(s, r, r.targets[0]) && BindingAgrees(s, r, r.targets[1])
  }

  predicate RuleOk(s: Stack, r: Rule) {
    Ids(s, r.targets) && (Applies(s, r) ==> RuleShape(s, r))
  }

  /** Applying rules name different pairs and have different identifiers. */
  predicate RulesDiffer(s: Stack, a: Rule, b: Rule) {
    Applies(s, a) && Applies(s, b) ==> a.targets != b.targets && a.ruleId != b.ruleId
  }

  ghost predicate RulesOk(s: Stack, n: nat)
    requires n <= |s.rules|
  {
    && (forall i :: 0 <= i < n ==> RuleOk(s, s.rules[i]))
    && (forall i, j :: 0 <= i < j < n ==> RulesDiffer(s, s.rules[i], s.rules[j]))
  }

  ghost predicate Paired(s: Stack, left: string, right: string) {
    exists i :: 0 <= i < |s.rules| && Applies(s, s.rules[i]) && s.rules[i].targets == [left, right]
  }

  ghost predicate Covered(s: Stack, left: string, right: string) {
    && left in s.rows && right in s.rows
    && Ids(s, s.rows[left].compatible) && Ids(s, s.rows[right].compatible)
    && (right in s.rows[left].compatible <==> left in s.rows[right].compatible)
    && (right in s.rows[left].compatible <==> Paired(s, left, right))
  }

  function AddOnce(children: seq<string>, child: string): seq<string> {
    if child in children then children else children + [child]
  }

  /** The precedence edges after the first `n` rules: `edges[order[0]].add(order[1])`. */
  function Edges(s: Stack, n: nat): Graph
    requires n <= |s.rules|
  {
    if n == 0 then map t | t in s.active :: []
    else
      var g, r := Edges(s, n - 1), s.rules[n - 1];
      if Applies(s, r) && |r.precedence| == 2 && r.precedence[0] in g
      then g[r.precedence[0] := AddOnce(g[r.precedence[0]], r.precedence[1])]
      else g
  }

  ghost predicate Composed(s: Stack) {
    && RulesOk(s, |s.rules|)
    && (forall left, right :: left in s.active && right in s.active && StrLess(left, right) ==> Covered(s, left, right))
    && (forall t :: t in s.active ==> !Reaches(Edges(s, |s.rules|), t, t))
  }

  ghost predicate ShareMember(s: Stack, a: string, b: string) {
    a in s.rows && b in s.rows && exists m :: m in s.rows[a].members && m in s.rows[b].members
  }

  ghost predicate OwnersDisjoint(s: Stack, targets: set<string>) {
    forall a, b :: a in targets && b in targets && a != b ==> !ShareMember(s, a, b)
  }

  /** Everything the reopened reward stack must satisfy. */
  ghost predicate Admissible(s: Stack) {
    && (s.schema == 1 || s.schema == 2)
    && s.policy == (if s.schema == 1 then "target-catalog.v1" else "target-catalog.v2")
    && s.active <= s.rows.Keys
    && TargetsOk(s, s.active)
    && (s.schema == 1 ==> Composed(s))
  }

  // ----- the checks, in the source's order

  method CheckRelated(s: Stack, t: string) returns (ok: bool)
    requires t in s.rows
    ensures ok <==> Related(s, t)
  {
    var fine, found := Closure(Displacing(s), t);
    if !fine {
      return false;
    }
    if found * s.active != {} {
      ghost var n :| n in found * s.active;
      assert Reaches(Displacing(s), t, n) && n in s.active;
      return false;
    }
    forall n | Reaches(Displacing(s), t, n) ensures n !in s.active {
      assert n in found && n !in found * s.active;
    }
    fine, found := Closure(Needing(s), t);
    if fine && !(found <= s.active) {
      ghost var n :| n in found && n !in s.active;
      assert Reaches(Needing(s), t, n);
    }
    ok := fine && found <= s.active;
  }

  ghost function OwnedBy(s: Stack, targets: set<string>): set<string>
    requires targets <= s.rows.Keys
  {
    set t, m | t in targets && m in s.rows[t].members :: m
  }

  lemma OwnersStep(s: Stack, targets: set<string>, t: string)
    requires targets <= s.rows.Keys && t in s.rows && t !in targets && OwnersDisjoint(s, targets)
    ensures OwnersDisjoint(s, targets + {t}) <==> OwnedBy(s, targets) !! Elements(s.rows[t].members)
    ensures OwnedBy(s, targets + {t}) == OwnedBy(s, targets) + Elements(s.rows[t].members)
  {
    if OwnedBy(s, targets) !! Elements(s.rows[t].members) {
      forall a | a in targets ensures !ShareMember(s, a, t) && !ShareMember(s, t, a) {
        forall m | m in s.rows[a].members ensures m !in s.rows[t].members { assert m in OwnedBy(s, targets); }
      }
    } else {
      var m :| m in OwnedBy(s, targets) && m in Elements(s.rows[t].members);
      var a :| a in targets && m in s.rows[a].members;
      assert ShareMember(s, a, t);
    }
  }

  lemma OwnersShrink(s: Stack, few: set<string>, many: set<string>)
    requires few <= many && OwnersDisjoint(s, many)
    ensures OwnersDisjoint(s, few)
  {
  }

  /** Relations, conflicts, and member ownership against the targets already passed. */
  method CheckTarget(s: Stack, t: string, owned: set<string>, ghost done: set<string>) returns (ok: bool)
    requires done <= s.rows.Keys && t in s.rows && t !in done && OwnersDisjoint(s, done) && owned == OwnedBy(s, done)
    ensures ok <==> Related(s, t) && Owning(s, t) && OwnersDisjoint(s, done + {t})
  {
    OwnersStep(s, done, t);
    var fine := CheckRelated(s, t);
    ok := fine && Owning(s, t) && owned !! Elements(s.rows[t].members);
  }

  ghost predicate TargetsOk(s: Stack, targets: set<string>)
    requires targets <= s.rows.Keys
  {
    (forall t :: t in targets ==> Related(s, t) && Owning(s, t)) && OwnersDisjoint(s, targets)
  }

  lemma TargetRefuses(s: Stack, done: set<string>, t: string, targets: set<string>)
    requires targets <= s.rows.Keys && done + {t} <= targets
    requires !(Related(s, t) && Owning(s, t) && OwnersDisjoint(s, done + {t}))
    ensures !TargetsOk(s, targets)
  {
    if OwnersDisjoint(s, targets) { OwnersShrink(s, done + {t}, targets); }
  }

  lemma TargetsGrow(s: Stack, done: set<string>, t: string)
    requires done + {t} <= s.rows.Keys && TargetsOk(s, done) && t !in done
    requires Related(s, t) && Owning(s, t) && OwnersDisjoint(s, done + {t})
    ensures TargetsOk(s, done + {t}) && OwnedBy(s, done + {t}) == OwnedBy(s, done) + Elements(s.rows[t].members)
  {
    OwnersStep(s, done, t);
  }

  method CheckTargets(s: Stack, targets: seq<string>) returns (ok: bool)
    requires Distinct(targets) && Elements(targets) == s.active && s.active <= s.rows.Keys
    ensures ok <==> TargetsOk(s, s.active)
  {
    var owned: set<string> := {};
    ghost var done: set<string> := {};
    for i := 0 to |targets|
      invariant done == Elements(targets[..i]) <= s.active
      invariant TargetsOk(s, done) && owned == OwnedBy(s, done)
    {
      var t := targets[i];
      assert t in Elements(targets) && t !in done;
      var fine := CheckTarget(s, t, owned, done);
      if !fine {
        TargetRefuses(s, done, t, s.active);
        return false;
      }
      TargetsGrow(s, done, t);
      assert Elements(targets[..i + 1]) == done + {t};
      owned, done := owned + Elements(s.rows[t].members), done + {t};
    }
    assert targets[..|targets|] == targets;
    ok := true;
  }

  // ----- composition rules of schema 1

  ghost function PairsOf(s: Stack, n: nat): set<seq<string>>
    requires n <= |s.rules|
  {
    set i | 0 <= i < n && Applies(s, s.rules[i]) :: s.rules[i].targets
  }

  ghost function RuleIdsOf(s: Stack, n: nat): set<string>
    requires n <= |s.rules|
  {
    set i | 0 <= i < n && Applies(s, s.rules[i]) :: s.rules[i].ruleId
  }

  ghost predicate FreshRule(s: Stack, n: nat)
    requires n < |s.rules|
  {
    Applies(s, s.rules[n]) ==> s.rules[n].targets !in PairsOf(s, n) && s.rules[n].ruleId !in RuleIdsOf(s, n)
  }

  lemma RulesStep(s: Stack, n: nat)
    requires n < |s.rules| && RulesOk(s, n)
    ensures RulesOk(s, n + 1) <==> RuleOk(s, s.rules[n]) && FreshRule(s, n)
  {
    var r := s.rules[n];
    if Applies(s, r) {
      if r.targets in PairsOf(s, n) {
        var i :| 0 <= i < n && Applies(s, s.rules[i]) && s.rules[i].targets == r.targets;
        assert !RulesDiffer(s, s.rules[i], r);
      } else if r.ruleId in RuleIdsOf(s, n) {
        var i :| 0 <= i < n && Applies(s, s.rules[i]) && s.rules[i].ruleId == r.ruleId;
        assert !RulesDiffer(s, s.rules[i], r);
      }
    }
  }

  /** The rule loop: shapes, duplicate pairs and identifiers, and the precedence edges. */
  method CheckRules(s: Stack) returns (ok: bool, pairs: set<seq<string>>, edges: Graph)
    ensures ok <==> RulesOk(s, |s.rules|)
    ensures ok ==> pairs == PairsOf(s, |s.rules|) && edges == Edges(s, |s.rules|)
  {
    pairs, edges := {}, map t | t in s.active :: [];
    var ruleIds: set<string> := {};
    for i := 0 to |s.rules|
      invariant RulesOk(s, i) && edges == Edges(s, i)
      invariant pairs == PairsOf(s, i) && ruleIds == RuleIdsOf(s, i)
    {
      var r := s.rules[i];
      RulesStep(s, i);
      if !Ids(s, r.targets) {
        return false, pairs, edges;
      }
      if Applies(s, r) {
        if !RuleShape(s, r) || r.targets in pairs || r.ruleId in ruleIds {
          return false, pairs, edges;
        }
        PrecedencePair(s, r);
        EdgeKeys(s, i);
        edges := edges[r.precedence[0] := AddOnce(edges[r.precedence[0]], r.precedence[1])];
        pairs, ruleIds := pairs + {r.targets}, ruleIds + {r.ruleId};
      }
    }
    ok := true;
  }

  /** A well-shaped rule orders its own two targets. */
  lemma PrecedencePair(s: Stack, r: Rule)
    requires RuleShape(s, r) && Applies(s, r)
    ensures |r.precedence| == 2 && r.precedence[0] != r.precedence[1]
    ensures r.precedence[0] in s.active && r.precedence[1] in s.active
  {
    assert Elements(r.targets) == {r.targets[0], r.targets[1]};
    assert |r.precedence| == 2;
    assert Elements(r.precedence) == {r.precedence[0], r.precedence[1]};
    assert r.precedence[0] in Elements(r.precedence) && r.precedence[1] in Elements(r.precedence);
  }

  lemma {:induction false} EdgeKeys(s: Stack, n: nat)
    requires n <= |s.rules|
    ensures Edges(s, n).Keys == s.active
  {
    if n > 0 { EdgeKeys(s, n - 1); }
  }

  lemma {:induction false} EdgesWellFormed(s: Stack, n: nat, t: string)
    requires n <= |s.rules| && RulesOk(s, n) && t in s.active
    ensures WellFormedAt(Edges(s, n), t) && Distinct(Edges(s, n)[t])
  {
    EdgeKeys(s, n);
    if n == 0 {
    } else {
      EdgeKeys(s, n - 1);
      EdgesWellFormed(s, n - 1, t);
      if Applies(s, s.rules[n - 1]) {
        assert RuleOk(s, s.rules[n - 1]);
        PrecedencePair(s, s.rules[n - 1]);
      }
      DistinctSize(Edges(s, n)[t]);
    }
  }

  method CheckCoverage(s: Stack, targets: seq<string>, pairs: set<seq<string>>) returns (ok: bool)
    requires Distinct(targets) && Sorted(StrLeq, targets) && Elements(targets) == s.active && s.active <= s.rows.Keys
    requires pairs == PairsOf(s, |s.rules|)
    ensures ok <==> forall left, right :: left in s.active && right in s.active && StrLess(left, right) ==>
      Covered(s, left, right)
  {
    for i := 0 to |targets|
      invariant forall a, b :: 0 <= a < i && a < b < |targets| ==> Covered(s, targets[a], targets[b])
    {
      for j := i + 1 to |targets|
        invariant forall b :: i < b < j ==> Covered(s, targets[i], targets[b])
      {
        var left, right := targets[i], targets[j];
        assert left in Elements(targets) && right in Elements(targets);
        assert Paired(s, left, right) <==> [left, right] in pairs;
        var l, r := s.rows[left].compatible, s.rows[right].compatible;
        if !Ids(s, l) || !Ids(s, r) || (right in l) != (left in r) || (left in r) != ([left, right] in pairs) {
          assert StrLess(left, right) && !Covered(s, left, right);
          return false;
        }
      }
    }
    forall left, right | left in s.active && right in s.active && StrLess(left, right) ensures Covered(s, left, right) {
      assert left in targets && right in targets;
      var a :| 0 <= a < |targets| && targets[a] == left;
      var b :| 0 <= b < |targets| && targets[b] == right;
      if b <= a {
        if b < a { assert StrLeq(right, left); StrAntisymmetric(left, right); }
        assert false;
      }
    }
    ok := true;
  }

  /** Refusing any target is finding a target that precedes itself. */
  lemma RefusalsAreCycles(g: Graph)
    requires forall t :: t in g ==> WellFormedAt(g, t)
    ensures (exists t :: t in g && Refusable(g, t)) <==> (exists t :: t in g && Reaches(g, t, t))
  {
    if t :| t in g && Refusable(g, t) {
      var c :| BadAt(g, t, c);
      if t != c {
        var p :| Leads(g, t, c, p);
        assert p[|p| - 1] in g;
      }
      assert c in g && Reaches(g, c, c);
    }
    if t :| t in g && Reaches(g, t, t) {
      assert BadAt(g, t, t);
    }
  }

  method CheckAcyclic(g: Graph, targets: seq<string>) returns (ok: bool)
    requires Elements(targets) == g.Keys && forall t :: t in g ==> WellFormedAt(g, t)
    ensures ok <==> forall t :: t in g ==> !Reaches(g, t, t)
  {
    RefusalsAreCycles(g);
    for i := 0 to |targets|
      invariant forall t :: t in targets[..i] ==> !Refusable(g, t)
    {
      assert targets[i] in Elements(targets);
      var fine, _ := Closure(g, targets[i]);
      if !fine {
        return false;
      }
      assert targets[..i + 1] == targets[..i] + [targets[i]];
    }
    assert targets[..|targets|] == targets;
    forall t | t in g ensures !Refusable(g, t) { assert t in targets; }
    ok := true;
  }

  method CheckComposition(s: Stack, targets: seq<string>) returns (ok: bool)
    requires Distinct(targets) && Sorted(StrLeq, targets) && Elements(targets) == s.active && s.active <= s.rows.Keys
    ensures ok <==> Composed(s)
  {
    var fine, pairs, edges := CheckRules(s);
    if !fine {
      return false;
    }
    fine := CheckCoverage(s, targets, pairs);
    if !fine {
      return false;
    }
    EdgeKeys(s, |s.rules|);
    forall t | t in edges ensures WellFormedAt(edges, t) { EdgesWellFormed(s, |s.rules|, t); }
    ok := CheckAcyclic(edges, targets);
  }

  /** The members of the targets, one target after another. */
  function AllMembers(s: Stack, targets: seq<string>): seq<string> {
    if targets == [] then []
    else
      var init, t := targets[..|targets| - 1], targets[|targets| - 1];
      AllMembers(s, init) + (if t in s.rows then s.rows[t].members else [])
  }

  lemma {:induction false} MemberOwner(s: Stack, targets: seq<string>, m: string)
    requires m in AllMembers(s, targets)
    ensures exists t :: t in targets && t in s.rows && m in s.rows[t].members
  {
    var init, t := targets[..|targets| - 1], targets[|targets| - 1];
    if m in AllMembers(s, init) {
      MemberOwner(s, init, m);
      var owner :| owner in init && owner in s.rows && m in s.rows[owner].members;
      assert owner in targets;
    }
  }

  /** Admitted targets own each member once: no member is repeated in the list of them all. */
  lemma {:induction false} OneOwner(s: Stack, targets: seq<string>)
    requires Distinct(targets) && Elements(targets) <= s.rows.Keys && TargetsOk(s, Elements(targets))
    ensures Distinct(AllMembers(s, targets))
  {
    if targets != [] {
      var init, t := targets[..|targets| - 1], targets[|targets| - 1];
      assert targets == init + [t] && t in Elements(targets) && Elements(init) <= Elements(targets);
      OneOwner(s, init);
      SizeDistinct(s.rows[t].members);
      forall m | m in AllMembers(s, init) ensures m !in s.rows[t].members {
        MemberOwner(s, init, m);
        var owner :| owner in init && owner in s.rows && m in s.rows[owner].members;
        assert owner in Elements(targets) && owner != t && !ShareMember(s, owner, t);
      }
      DistinctConcat(AllMembers(s, init), s.rows[t].members);
    }
  }

  /** A stack is admitted exactly when it is admissible; the result lists its targets in order, each member
      owned once. */
  method ActiveRewardTargets(s: Stack) returns (r: Option<seq<string>>)
    ensures r.Some? <==> Admissible(s)
    ensures r.Some? ==> Elements(r.value) == s.active && Distinct(r.value) && Sorted(StrLeq, r.value)
    ensures r.Some? ==> Distinct(AllMembers(s, r.value))
  {
    if (s.schema != 1 && s.schema != 2)
      || s.policy != (if s.schema == 1 then "target-catalog.v1" else "target-catalog.v2")
      || !(s.active <= s.rows.Keys)
    {
      return None;
    }
    var targets := SortedKeys(s.active);
    assert Elements(targets) == s.active;
    var ok := CheckTargets(s, targets);
    if !ok {
      return None;
    }
    if s.schema == 1 {
      ok := CheckComposition(s, targets);
      if !ok {
        return None;
      }
    }
    OneOwner(s, targets);
    r := Some(targets);
  }

  // ----- what holds among admitted targets

  /** No active target displaces or, under schema 2, conflicts with an active one; what each needs is active. */
  lemma ActiveAgree(s: Stack, t: string)
    requires Admissible(s) && t in s.active
    ensures forall n :: n in s.rows[t].displaces ==> n !in s.active
    ensures forall n :: n in s.rows[t].needs ==> n in s.active
    ensures s.schema == 2 ==> forall n :: n in s.rows[t].conflicts ==> n !in s.active
    ensures s.rows[t].members != []
  {
    assert !BadAt(Displacing(s), t, t) && !BadAt(Needing(s), t, t);
    forall n | n in s.rows[t].displaces ensures n !in s.active { EdgeReaches(Displacing(s), t, n); }
    forall n | n in s.rows[t].needs ensures n in s.active { EdgeReaches(Needing(s), t, n); }
  }

  // ----- an admitted precedence can be laid out in a line

  /** Following children outside `done` must stop: otherwise the path would close a cycle. */
  lemma {:induction false} NextInLine(g: Graph, done: set<string>, path: seq<string>) returns (n: string)
    requires forall t :: t in g ==> WellFormedAt(g, t) && !Reaches(g, t, t)
    requires Path(g, path) && Distinct(path) && Elements(path) !! done
    ensures n in g && n !in done && forall c :: c in g[n] ==> c in done
    decreases |g.Keys| - |path|
  {
    n := path[|path| - 1];
    if c :| c in g[n] && c !in done {
      var longer := path + [c];
      assert Path(g, longer);
      if c in path {
        var i :| 0 <= i < |path| && path[i] == c;
        PathReaches(g, longer, i, |path|);
        assert false;
      }
      DistinctSize(longer);
      SubsetSize(Elements(longer), g.Keys);
      n := NextInLine(g, done, longer);
    }
  }

  lemma {:induction false} ExtendLine(g: Graph, line: seq<string>) returns (whole: seq<string>)
    requires forall t :: t in g ==> WellFormedAt(g, t) && !Reaches(g, t, t)
    requires Distinct(line) && Topological(g, line) && Elements(line) <= g.Keys
    ensures Distinct(whole) && Topological(g, whole) && Elements(whole) == g.Keys
    decreases |g.Keys - Elements(line)|
  {
    if Elements(line) == g.Keys {
      whole := line;
    } else {
      var a :| a in g.Keys && a !in Elements(line);
      var n := NextInLine(g, Elements(line), [a]);
      assert forall c :: c in g[n] ==> c in Elements(line);
      FinishKeepsOrder(g, line, n);
      assert g.Keys - Elements(line + [n]) == g.Keys - Elements(line) - {n};
      whole := ExtendLine(g, line + [n]);
    }
  }

  lemma {:induction false} EdgeOfRule(s: Stack, n: nat, i: nat)
    requires i < n <= |s.rules| && RulesOk(s, n) && Applies(s, s.rules[i])
    ensures |s.rules[i].precedence| == 2 && s.rules[i].precedence[0] in Edges(s, n)
    ensures s.rules[i].precedence[1] in Edges(s, n)[s.rules[i].precedence[0]]
  {
    assert RuleOk(s, s.rules[i]);
    PrecedencePair(s, s.rules[i]);
    EdgeKeys(s, n - 1);
    if i < n - 1 { EdgeOfRule(s, n - 1, i); }
  }

  ghost predicate Before(line: seq<string>, first: string, second: string) {
    exists a, b :: 0 <= a < b < |line| && line[a] == first && line[b] == second
  }

  function Backwards(line: seq<string>): seq<string> {
    seq(|line|, i requires 0 <= i < |line| => line[|line| - 1 - i])
  }

  lemma BackwardsOrder(line: seq<string>, a: nat, b: nat)
    requires a < b < |line|
    ensures Before(Backwards(line), line[b], line[a])
  {
    var back, n := Backwards(line), |line| - 1;
    assert back[n - b] == line[b] && back[n - a] == line[a];
  }

  lemma BackwardsElements(line: seq<string>)
    requires Distinct(line)
    ensures Distinct(Backwards(line)) && Elements(Backwards(line)) == Elements(line)
  {
    var back := Backwards(line);
    forall x | x in line ensures x in back {
      var i :| 0 <= i < |line| && line[i] == x;
      assert back[|line| - 1 - i] == x;
    }
  }

  lemma RuleOrdered(s: Stack, line: seq<string>, i: nat)
    requires i < |s.rules| && RulesOk(s, |s.rules|) && Applies(s, s.rules[i])
    requires Topological(Edges(s, |s.rules|), line) && Elements(line) == s.active
    ensures |s.rules[i].precedence| == 2
    ensures Before(Backwards(line), s.rules[i].precedence[0], s.rules[i].precedence[1])
  {
    EdgeKeys(s, |s.rules|);
    EdgeOfRule(s, |s.rules|, i);
    var first, second := s.rules[i].precedence[0], s.rules[i].precedence[1];
    assert first in Elements(line);
    var b :| 0 <= b < |line| && line[b] == first;
    assert second in line[..b];
    var a :| 0 <= a < b && line[a] == second;
    BackwardsOrder(line, a, b);
  }

  /** An admitted schema-1 stack has a linear order in which every rule's first target comes before its second. */
  lemma PrecedenceLinear(s: Stack) returns (line: seq<string>)
    requires Admissible(s) && s.schema == 1
    ensures Distinct(line) && Elements(line) == s.active
    ensures forall i :: 0 <= i < |s.rules| && Applies(s, s.rules[i]) ==>
      |s.rules[i].precedence| == 2 && Before(line, s.rules[i].precedence[0], s.rules[i].precedence[1])
  {
    var n := |s.rules|;
    EdgeKeys(s, n);
    forall t | t in s.active ensures WellFormedAt(Edges(s, n), t) { EdgesWellFormed(s, n, t); }
    var up := ExtendLine(Edges(s, n), []);
    line := Backwards(up);
    BackwardsElements(up);
    forall i | 0 <= i < n && Applies(s, s.rules[i])
      ensures |s.rules[i].precedence| == 2 && Before(line, s.rules[i].precedence[0], s.rules[i].precedence[1])
    {
      RuleOrdered(s, up, i);
    }
  }
}
