/** Which active reward stacks are accepted, in the catalog's own rows (`cacheon/economics.py`). */
module TargetsOutcome {
  import opened Orders
  import opened Wrappers
  import opened RewardGraph
  import opened RewardTargets

  /** A list in the snapshot: every entry once, and a registered target. */
  ghost predicate Listed(s: Stack, values: seq<string>) {
    Distinct(values) && forall v :: v in values ==> v in s.rows
  }

  lemma ListedIff(s: Stack, values: seq<string>)
    ensures Ids(s, values) <==> Listed(s, values)
  {
    SizeDistinct(values);
    if Distinct(values) { DistinctSize(values); }
  }

  // ----- relations along paths

  /** The relation a catalog row lists. */
  datatype Relation = Displaces | Requires

  function ListOf(s: Stack, rel: Relation, t: string): seq<string>
    requires t in s.rows
  {
    match rel
    case Displaces => s.rows[t].displaces
    case Requires => s.rows[t].needs
  }

  /** Each target of the path is listed by the one before. */
  ghost predicate Follows(s: Stack, rel: Relation, p: seq<string>) {
    && p != [] && (forall i :: 0 <= i < |p| ==> p[i] in s.rows)
    && forall i :: 0 < i < |p| ==> p[i] in ListOf(s, rel, p[i - 1])
  }

  /** No path from the target closes a cycle or meets a malformed list. */
  ghost predicate Sound(s: Stack, rel: Relation, t: string) {
    forall p :: Follows(s, rel, p) && p[0] == t ==> EndsWell(s, rel, p)
  }

  ghost predicate EndsWell(s: Stack, rel: Relation, p: seq<string>)
    requires Follows(s, rel, p)
  {
    Listed(s, ListOf(s, rel, p[|p| - 1])) && forall i :: 0 <= i < |p| - 1 ==> p[i] != p[|p| - 1]
  }

  /** Whatever the target displaces, however far, is inactive; whatever it requires is active. */
  ghost predicate Settled(s: Stack, rel: Relation, t: string) {
    forall p :: Follows(s, rel, p) && p[0] == t && |p| >= 2 ==>
      (p[|p| - 1] in s.active <==> rel == Requires)
  }

  function GraphOf(s: Stack, rel: Relation): Graph {
    match rel
    case Displaces => Displacing(s)
    case Requires => Needing(s)
  }

  lemma FollowsIff(s: Stack, rel: Relation, p: seq<string>)
    ensures Follows(s, rel, p) <==> Path(GraphOf(s, rel), p)
  {
    if Path(GraphOf(s, rel), p) {
      forall i | 0 < i < |p| ensures p[i] in ListOf(s, rel, p[i - 1]) {
        assert p[i - 1 + 1] in GraphOf(s, rel)[p[i - 1]];
      }
    }
  }

  lemma SettledIff(s: Stack, rel: Relation, t: string)
    ensures Settled(s, rel, t) <==> forall n :: Reaches(GraphOf(s, rel), t, n) ==> (n in s.active <==> rel == Requires)
  {
    var g := GraphOf(s, rel);
    if Settled(s, rel, t) {
      forall n | Reaches(g, t, n) ensures n in s.active <==> rel == Requires {
        var p :| Leads(g, t, n, p);
        FollowsIff(s, rel, p);
      }
    } else {
      var p :| Follows(s, rel, p) && p[0] == t && |p| >= 2 && !(p[|p| - 1] in s.active <==> rel == Requires);
      FollowsIff(s, rel, p);
      assert Leads(g, t, p[|p| - 1], p);
    }
  }

  lemma WellFormedIff(s: Stack, rel: Relation, n: string)
    requires n in s.rows
    ensures WellFormedAt(GraphOf(s, rel), n) <==> Listed(s, ListOf(s, rel, n))
  {
    ListedIff(s, ListOf(s, rel, n));
  }

  /** A path that comes back to a target it passed holds a cycle. */
  lemma Returns(g: Graph, p: seq<string>, i: nat)
    requires Path(g, p) && i < |p| - 1 && p[i] == p[|p| - 1]
    ensures Reaches(g, p[i], p[i])
  {
    PathReaches(g, p, i, |p| - 1);
  }

  lemma BadPath(s: Stack, rel: Relation, t: string, p: seq<string>)
    requires Follows(s, rel, p) && p[0] == t && !EndsWell(s, rel, p)
    ensures Refusable(GraphOf(s, rel), t)
  {
    var g, n := GraphOf(s, rel), p[|p| - 1];
    FollowsIff(s, rel, p);
    if |p| > 1 { assert Leads(g, t, n, p); }
    if !Listed(s, ListOf(s, rel, n)) {
      WellFormedIff(s, rel, n);
    } else {
      var i :| 0 <= i < |p| - 1 && p[i] == n;
      Returns(g, p, i);
    }
    assert BadAt(g, t, n);
  }

  lemma JoinPaths(g: Graph, p: seq<string>, q: seq<string>)
    requires Path(g, p) && Path(g, q) && |q| >= 2 && p[|p| - 1] == q[0]
    ensures Path(g, p + q[1..]) && (p + q[1..])[0] == p[0] && (p + q[1..])[|p| - 1] == q[0]
    ensures (p + q[1..])[|p + q[1..]| - 1] == q[|q| - 1]
  {
    var r := p + q[1..];
    forall i | 0 <= i < |r| - 1 ensures r[i + 1] in g[r[i]] {
      if i < |p| - 1 {
        assert r[i] == p[i] && r[i + 1] == p[i + 1];
      } else {
        assert r[i] == q[i - (|p| - 1)] && r[i + 1] == q[i - (|p| - 1) + 1];
      }
    }
  }

  /** A path to the reachable target, and on round its cycle if it lies on one. */
  lemma PathTo(g: Graph, t: string, c: string) returns (p: seq<string>)
    requires t in g && (t == c || Reaches(g, t, c))
    ensures Path(g, p) && p[0] == t && p[|p| - 1] == c
  {
    if t == c {
      p := [t];
    } else {
      p :| Leads(g, t, c, p);
    }
  }

  lemma SoundRefuses(s: Stack, rel: Relation, t: string, c: string)
    requires t in s.rows && BadAt(GraphOf(s, rel), t, c)
    ensures !Sound(s, rel, t)
  {
    var g := GraphOf(s, rel);
    var p := PathTo(g, t, c);
    FollowsIff(s, rel, p);
    if !WellFormedAt(g, c) {
      WellFormedIff(s, rel, c);
    } else {
      var q :| Leads(g, c, c, q);
      JoinPaths(g, p, q);
      var r := p + q[1..];
      FollowsIff(s, rel, r);
      assert r[|p| - 1] == r[|r| - 1] && |p| - 1 < |r| - 1;
    }
  }

  lemma SoundIff(s: Stack, rel: Relation, t: string)
    requires t in s.rows
    ensures Sound(s, rel, t) <==> !Refusable(GraphOf(s, rel), t)
  {
    if c :| BadAt(GraphOf(s, rel), t, c) { SoundRefuses(s, rel, t, c); }
    if p :| Follows(s, rel, p) && p[0] == t && !EndsWell(s, rel, p) { BadPath(s, rel, t, p); }
  }

  // ----- ownership

  /** Own members, none shared; under schema 2 nothing active conflicts. */
  ghost predicate Owned(s: Stack, t: string)
    requires t in s.rows
  {
    && s.rows[t].members != [] && Listed(s, s.rows[t].members)
    && (forall u, m :: u in s.active && u in s.rows && u != t && m in s.rows[t].members ==> m !in s.rows[u].members)
    && (s.schema == 2 ==> Listed(s, s.rows[t].conflicts) && forall n :: n in s.rows[t].conflicts ==> n !in s.active)
  }

  lemma OwningIff(s: Stack, t: string)
    requires t in s.rows
    ensures Owning(s, t) <==>
      && s.rows[t].members != [] && Listed(s, s.rows[t].members)
      && (s.schema == 2 ==> Listed(s, s.rows[t].conflicts) && forall n :: n in s.rows[t].conflicts ==> n !in s.active)
  {
    ListedIff(s, s.rows[t].members);
    ListedIff(s, s.rows[t].conflicts);
    assert Elements(s.rows[t].conflicts) !! s.active <==> forall n :: n in s.rows[t].conflicts ==> n !in s.active by {
      forall n | n in s.rows[t].conflicts ensures n in Elements(s.rows[t].conflicts) { }
    }
  }

  lemma DisjointIff(s: Stack)
    requires s.active <= s.rows.Keys
    ensures OwnersDisjoint(s, s.active) <==>
      forall t, u, m :: t in s.active && u in s.active && u != t && m in s.rows[t].members ==> m !in s.rows[u].members
  {
    if OwnersDisjoint(s, s.active) {
      forall t, u, m | t in s.active && u in s.active && u != t && m in s.rows[t].members
        ensures m !in s.rows[u].members
      {
        assert !ShareMember(s, t, u);
      }
    }
  }

  /** What is demanded of every active target. */
  ghost predicate TargetAccepted(s: Stack, t: string) {
    && t in s.rows && Owned(s, t)
    && Sound(s, Displaces, t) && Settled(s, Displaces, t) && Sound(s, Requires, t) && Settled(s, Requires, t)
  }

  lemma RelatedIff(s: Stack, t: string)
    requires t in s.rows
    ensures Related(s, t) <==>
      Sound(s, Displaces, t) && Settled(s, Displaces, t) && Sound(s, Requires, t) && Settled(s, Requires, t)
  {
    SoundIff(s, Displaces, t);
    SoundIff(s, Requires, t);
    SettledIff(s, Displaces, t);
    SettledIff(s, Requires, t);
  }

  lemma TargetsIff(s: Stack)
    requires s.active <= s.rows.Keys
    ensures TargetsOk(s, s.active) <==> forall t :: t in s.active ==> TargetAccepted(s, t)
  {
    DisjointIff(s);
    forall t | t in s.active
      ensures Related(s, t) <==>
        Sound(s, Displaces, t) && Settled(s, Displaces, t) && Sound(s, Requires, t) && Settled(s, Requires, t)
    {
      RelatedIff(s, t);
    }
    forall t | t in s.active
      ensures Owning(s, t) <==>
        && s.rows[t].members != [] && Listed(s, s.rows[t].members)
        && (s.schema == 2 ==> Listed(s, s.rows[t].conflicts) && forall n :: n in s.rows[t].conflicts ==> n !in s.active)
    {
      OwningIff(s, t);
    }
  }

  // ----- composition rules of schema 1

  ghost predicate Active(s: Stack, r: Rule) {
    forall t :: t in r.targets ==> t in s.active
  }

  /** The family a target is bound to, if any, is the rule's. */
  ghost predicate Binds(s: Stack, r: Rule, t: string) {
    t in s.rows && forall f :: s.rows[t].family == Some(f) ==> f == r.family
  }

  /** An applicable rule: a sorted pair, its precedence one of the two orders, and the fixed format. */
  ghost predicate Ordered(s: Stack, r: Rule) {
    && |r.targets| == 2 && r.targets[0] != r.targets[1] && Alphabetical(r.targets[0], r.targets[1])
    && (r.precedence == r.targets || r.precedence == [r.targets[1], r.targets[0]])
    && r.ruleId != "" && r.version == 1 && r.mode == "first_applicable"
    && |r.bindingDigest| == 64 && (forall c :: c in r.bindingDigest ==> '0' <= c <= '9' || 'a' <= c <= 'f')
    && Binds(s, r, r.targets[0]) && Binds(s, r, r.targets[1])
  }

  ghost predicate RuleAccepted(s: Stack, r: Rule) {
    Listed(s, r.targets) && (Active(s, r) ==> Ordered(s, r))
  }

  lemma ActiveIff(s: Stack, r: Rule)
    ensures Applies(s, r) <==> Active(s, r)
  {
    if Applies(s, r) {
      forall t | t in r.targets ensures t in s.active { assert t in Elements(r.targets); }
    }
  }

  lemma PairIff(a: string, b: string, p: seq<string>)
    requires a != b
    ensures p == [a, b] || p == [b, a] <==> Distinct(p) && Elements(p) == {a, b}
  {
    if Distinct(p) && Elements(p) == {a, b} {
      DistinctSize(p);
      assert |p| == 2 && p[0] in Elements(p) && p[1] in Elements(p);
    }
    if p == [a, b] || p == [b, a] { assert p[0] in p && p[1] in p; }
  }

  lemma PrecedenceIff(s: Stack, r: Rule)
    requires |r.targets| == 2 && r.targets[0] != r.targets[1] && Listed(s, r.targets)
    ensures Ids(s, r.precedence) && Elements(r.precedence) == Elements(r.targets) <==>
      r.precedence == r.targets || r.precedence == [r.targets[1], r.targets[0]]
  {
    var a, b := r.targets[0], r.targets[1];
    assert r.targets == [a, b] && Elements(r.targets) == {a, b};
    ListedIff(s, r.precedence);
    PairIff(a, b, r.precedence);
    assert a in r.targets && b in r.targets;
    if Distinct(r.precedence) && Elements(r.precedence) == {a, b} {
      forall v | v in r.precedence ensures v in s.rows { assert v in Elements(r.precedence); }
    }
  }

  lemma OrderedIff(s: Stack, r: Rule)
    requires Listed(s, r.targets)
    ensures RuleShape(s, r) <==> Ordered(s, r)
  {
    if |r.targets| == 2 && r.targets[0] != r.targets[1] {
      StrLeqMeaning(r.targets[0], r.targets[1]);
      PrecedenceIff(s, r);
    }
  }

  lemma RuleIff(s: Stack, r: Rule)
    ensures RuleOk(s, r) <==> RuleAccepted(s, r)
  {
    ListedIff(s, r.targets);
    ActiveIff(s, r);
    if Listed(s, r.targets) { OrderedIff(s, r); }
  }

  ghost predicate RulesAccepted(s: Stack) {
    && (forall r :: r in s.rules ==> RuleAccepted(s, r))
    && forall i, j :: 0 <= i < j < |s.rules| && Active(s, s.rules[i]) && Active(s, s.rules[j]) ==>
         s.rules[i].targets != s.rules[j].targets && s.rules[i].ruleId != s.rules[j].ruleId
  }

  lemma RulesIff(s: Stack)
    ensures RulesOk(s, |s.rules|) <==> RulesAccepted(s)
  {
    forall r ensures RuleOk(s, r) <==> RuleAccepted(s, r) { RuleIff(s, r); }
    forall r ensures Applies(s, r) <==> Active(s, r) { ActiveIff(s, r); }
  }

  ghost predicate Declared(s: Stack, left: string, right: string) {
    exists r :: r in s.rules && Active(s, r) && r.targets == [left, right]
  }

  /** Two active targets list each other as compatible, or neither does; they do exactly when a rule composes them. */
  ghost predicate PairAccepted(s: Stack, left: string, right: string) {
    && left in s.rows && right in s.rows && Listed(s, s.rows[left].compatible) && Listed(s, s.rows[right].compatible)
    && (right in s.rows[left].compatible <==> Declared(s, left, right))
    && (left in s.rows[right].compatible <==> Declared(s, left, right))
  }

  lemma PairCovered(s: Stack, left: string, right: string)
    ensures Covered(s, left, right) <==> PairAccepted(s, left, right)
  {
    if left in s.rows && right in s.rows {
      ListedIff(s, s.rows[left].compatible);
      ListedIff(s, s.rows[right].compatible);
    }
    if i :| 0 <= i < |s.rules| && Applies(s, s.rules[i]) && s.rules[i].targets == [left, right] {
      ActiveIff(s, s.rules[i]);
      assert s.rules[i] in s.rules;
    }
    if r :| r in s.rules && Active(s, r) && r.targets == [left, right] {
      ActiveIff(s, r);
      var i :| 0 <= i < |s.rules| && s.rules[i] == r;
    }
  }

  ghost predicate PairsAccepted(s: Stack) {
    forall left, right :: left in s.active && right in s.active && left != right && Alphabetical(left, right) ==>
      PairAccepted(s, left, right)
  }

  lemma PairsIff(s: Stack)
    ensures PairsAccepted(s) <==>
      forall left, right :: left in s.active && right in s.active && StrLess(left, right) ==> Covered(s, left, right)
  {
    forall left, right ensures StrLess(left, right) <==> left != right && Alphabetical(left, right) {
      StrLeqMeaning(left, right);
    }
    forall left, right ensures Covered(s, left, right) <==> PairAccepted(s, left, right) {
      PairCovered(s, left, right);
    }
  }

  // ----- precedence

  /** Some applicable rule puts the first target before the second. */
  ghost predicate Precedes(s: Stack, first: string, second: string) {
    exists r :: r in s.rules && Active(s, r) && r.precedence == [first, second]
  }

  /** Each target of the circle precedes the next, and the last is the first. */
  ghost predicate Circle(s: Stack, p: seq<string>) {
    && |p| >= 2 && p[0] == p[|p| - 1] && (forall i :: 0 <= i < |p| ==> p[i] in s.active)
    && forall i :: 0 <= i < |p| - 1 ==> Precedes(s, p[i], p[i + 1])
  }

  lemma {:induction false} EdgeFromRule(s: Stack, n: nat, first: string, second: string)
    requires n <= |s.rules| && first in Edges(s, n) && second in Edges(s, n)[first]
    ensures exists i :: 0 <= i < n && Applies(s, s.rules[i]) && s.rules[i].precedence == [first, second]
  {
    var r := s.rules[n - 1];
    EdgeKeys(s, n - 1);
    EdgeKeys(s, n);
    if second in Edges(s, n - 1)[first] {
      EdgeFromRule(s, n - 1, first, second);
    } else {
      assert r.precedence == [first, second];
    }
  }

  lemma PrecedesIff(s: Stack, first: string, second: string)
    requires RulesOk(s, |s.rules|) && first in s.active
    ensures first in Edges(s, |s.rules|)
    ensures Precedes(s, first, second) <==> second in Edges(s, |s.rules|)[first]
  {
    EdgeKeys(s, |s.rules|);
    if second in Edges(s, |s.rules|)[first] {
      EdgeFromRule(s, |s.rules|, first, second);
      var i :| 0 <= i < |s.rules| && Applies(s, s.rules[i]) && s.rules[i].precedence == [first, second];
      ActiveIff(s, s.rules[i]);
      assert s.rules[i] in s.rules;
    }
    if r :| r in s.rules && Active(s, r) && r.precedence == [first, second] {
      var i :| 0 <= i < |s.rules| && s.rules[i] == r;
      ActiveIff(s, r);
      EdgeOfRule(s, |s.rules|, i);
    }
  }

  lemma CircleIff(s: Stack, p: seq<string>)
    requires RulesOk(s, |s.rules|)
    ensures Circle(s, p) <==> |p| >= 2 && Leads(Edges(s, |s.rules|), p[0], p[0], p)
  {
    EdgeKeys(s, |s.rules|);
    if Circle(s, p) {
      forall i | 0 <= i < |p| - 1 ensures p[i + 1] in Edges(s, |s.rules|)[p[i]] {
        assert Precedes(s, p[i], p[i + 1]);
        PrecedesIff(s, p[i], p[i + 1]);
      }
    }
    if |p| >= 2 && Leads(Edges(s, |s.rules|), p[0], p[0], p) {
      forall i | 0 <= i < |p| - 1 ensures Precedes(s, p[i], p[i + 1]) { PrecedesIff(s, p[i], p[i + 1]); }
    }
  }

  lemma AcyclicIff(s: Stack)
    requires RulesOk(s, |s.rules|)
    ensures (forall t :: t in s.active ==> !Reaches(Edges(s, |s.rules|), t, t)) <==> forall p :: !Circle(s, p)
  {
    EdgeKeys(s, |s.rules|);
    if t :| t in s.active && Reaches(Edges(s, |s.rules|), t, t) {
      var p :| Leads(Edges(s, |s.rules|), t, t, p);
      CircleIff(s, p);
    }
    if p :| Circle(s, p) {
      CircleIff(s, p);
      assert Reaches(Edges(s, |s.rules|), p[0], p[0]);
    }
  }

  // ----- the whole stack

  ghost predicate StackAccepted(s: Stack) {
    && ((s.schema == 1 && s.policy == "target-catalog.v1") || (s.schema == 2 && s.policy == "target-catalog.v2"))
    && (forall t :: t in s.active ==> TargetAccepted(s, t))
    && (s.schema == 1 ==> RulesAccepted(s) && PairsAccepted(s) && forall p :: !Circle(s, p))
  }

  /** A reward stack is admissible exactly when each of its rows and rules is as its schema demands. */
  lemma AdmissibleMeaning(s: Stack)
    ensures Admissible(s) <==> StackAccepted(s)
  {
    if s.active <= s.rows.Keys { TargetsIff(s); }
    if forall t :: t in s.active ==> TargetAccepted(s, t) { assert s.active <= s.rows.Keys; }
    RulesIff(s);
    PairsIff(s);
    if RulesOk(s, |s.rules|) { AcyclicIff(s); }
  }
}
