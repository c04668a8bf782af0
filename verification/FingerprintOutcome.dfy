/** Which text a definition's fingerprints hash, in the module's own statements (`cacheon/copy_fingerprint.py`). */
module FingerprintOutcome {
  import opened Orders
  import opened Fingerprints

  // ----- what a definition needs

  /** The statement gives the name a meaning; `*` gives none. */
  ghost predicate Names(s: Stmt, name: string) {
    match s
    case Definition(n, _, _) => n == name
    case Import(aliases) => exists a :: a in aliases && a.bound == name
    case ImportFrom(_, _, aliases) => exists a :: a in aliases && !a.star && a.bound == name
    case Plain(targets, _, _) => name in targets
  }

  ghost predicate Uses(s: Stmt, name: string) {
    (s.Definition? || s.Plain?) && name in s.loaded
  }

  /** No later statement of the module names it. */
  ghost predicate LastNamed(body: seq<Stmt>, j: nat, name: string) {
    j < |body| && Names(body[j], name) && forall k :: j < k < |body| ==> !Names(body[k], name)
  }

  /** A statement depends on the one that named last what it loads. */
  ghost predicate DependsOn(body: seq<Stmt>, i: nat, j: nat) {
    i < |body| && exists name :: Uses(body[i], name) && LastNamed(body, j, name)
  }

  ghost predicate Leads(body: seq<Stmt>, path: seq<nat>) {
    path != [] && forall k :: 0 < k < |path| ==> DependsOn(body, path[k - 1], path[k])
  }

  /** The definition leads to the statement. */
  ghost predicate LeadsTo(body: seq<Stmt>, d: nat, i: nat) {
    exists path :: Leads(body, path) && path[0] == d && path[|path| - 1] == i
  }

  ghost predicate Needed(body: seq<Stmt>, d: nat, i: nat) {
    i < |body| && ((body[i].ImportFrom? && body[i].future) || LeadsTo(body, d, i))
  }

  /** Exactly the future imports and what the definition leads to. */
  ghost predicate Selected(body: seq<Stmt>, d: nat, s: set<nat>) {
    forall i: nat :: i in s <==> Needed(body, d, i)
  }

  lemma NamesIff(s: Stmt, name: string)
    ensures Names(s, name) <==> name in Binds(s)
    ensures Uses(s, name) <==> name in Loads(s)
  {
  }

  lemma OneLast(body: seq<Stmt>, j: nat, m: nat, name: string)
    requires LastNamed(body, j, name) && LastNamed(body, m, name)
    ensures j == m
  {
  }

  lemma LastNamedIff(body: seq<Stmt>, name: string, j: nat)
    ensures LastNamed(body, j, name) <==> name in BoundAt(body) && BoundAt(body)[name] == j
  {
    BoundLast(body, name);
    forall i | 0 <= i < |body| ensures Names(body[i], name) <==> name in Binds(body[i]) { NamesIff(body[i], name); }
    if name in BoundAt(body) && LastNamed(body, j, name) { OneLast(body, j, BoundAt(body)[name], name); }
  }

  lemma DepsIff(body: seq<Stmt>, i: nat, j: nat)
    ensures j in Deps(body, i) <==> DependsOn(body, i, j)
  {
    if i < |body| {
      if name :| name in Loads(body[i]) && name in BoundAt(body) && BoundAt(body)[name] == j {
        NamesIff(body[i], name);
        LastNamedIff(body, name, j);
      }
      if name :| Uses(body[i], name) && LastNamed(body, j, name) {
        NamesIff(body[i], name);
        LastNamedIff(body, name, j);
      }
    }
  }

  lemma {:induction false} PathInside(body: seq<Stmt>, s: set<nat>, path: seq<nat>, k: nat)
    requires Closed(body, s) && Leads(body, path) && path[0] in s && k < |path|
    ensures path[k] in s
  {
    if k > 0 {
      PathInside(body, s, path, k - 1);
      assert DependsOn(body, path[k - 1], path[k]);
      DepsIff(body, path[k - 1], path[k]);
    }
  }

  lemma LeadsOn(body: seq<Stmt>, d: nat, i: nat, j: nat)
    requires LeadsTo(body, d, i) && DependsOn(body, i, j)
    ensures LeadsTo(body, d, j)
  {
    var path :| Leads(body, path) && path[0] == d && path[|path| - 1] == i;
    var longer := path + [j];
    forall k | 0 < k < |longer| ensures DependsOn(body, longer[k - 1], longer[k]) {
      if k < |path| { assert DependsOn(body, path[k - 1], path[k]); }
    }
    assert Leads(body, longer) && longer[0] == d && longer[|longer| - 1] == j;
  }

  ghost function NeededSet(body: seq<Stmt>, d: nat): set<nat> {
    set i: nat | i < |body| && Needed(body, d, i)
  }

  lemma NeededHolds(body: seq<Stmt>, d: nat)
    requires d < |body|
    ensures Holds(body, d, NeededSet(body, d))
  {
    var s := NeededSet(body, d);
    assert Leads(body, [d]) && [d][0] == d;
    assert LeadsTo(body, d, d);
    forall i | i in s ensures Deps(body, i) <= s {
      forall j | j in Deps(body, i) ensures j in s {
        DepsIff(body, i, j);
        assert LeadsTo(body, d, i);
        LeadsOn(body, d, i, j);
      }
    }
  }

  /** The worklist's closure is what the definition leads to, with the future imports. */
  lemma LeastMeaning(body: seq<Stmt>, d: nat, s: set<nat>)
    requires d < |body| && Least(body, d, s)
    ensures Selected(body, d, s)
  {
    NeededHolds(body, d);
    assert s <= NeededSet(body, d);
    forall i: nat | Needed(body, d, i) ensures i in s {
      if !(body[i].ImportFrom? && body[i].future) {
        var path :| Leads(body, path) && path[0] == d && path[|path| - 1] == i;
        PathInside(body, s, path, |path| - 1);
      } else {
        assert i in Futures(body);
      }
    }
  }

  // ----- what a projection shows

  /** Some selected statement loads the alias, or it is the `*` of a from-import. */
  ghost predicate Shown(body: seq<Stmt>, s: set<nat>, from: bool, a: Alias) {
    (from && a.star) || exists j :: j in s && j < |body| && Uses(body[j], a.bound)
  }

  /** `kept` are the aliases to be shown, in their order. */
  ghost predicate ShownOf(body: seq<Stmt>, s: set<nat>, from: bool, aliases: seq<Alias>, kept: seq<Alias>) {
    exists at :: PickedAt(body, s, from, aliases, kept, at)
  }

  ghost predicate PickedAt(
    body: seq<Stmt>, s: set<nat>, from: bool, aliases: seq<Alias>, kept: seq<Alias>, at: seq<nat>)
  {
    && Rising(at) && |at| == |kept| && (forall k :: 0 <= k < |at| ==> at[k] < |aliases| && kept[k] == aliases[at[k]])
    && forall i :: 0 <= i < |aliases| ==> (i in at <==> Shown(body, s, from, aliases[i]))
  }

  /** An import that pruning looks into. */
  predicate Prunable(s: Stmt) {
    s.Import? || (s.ImportFrom? && !s.future)
  }

  /** How the pruned projection shows a statement: an import with its shown aliases, anything else as it is. */
  ghost predicate ViewOf(body: seq<Stmt>, s: set<nat>, stmt: Stmt, view: Stmt) {
    if Prunable(stmt) then
      && (view.Import? <==> stmt.Import?) && (view.ImportFrom? <==> stmt.ImportFrom?)
      && (stmt.ImportFrom? ==> view.future == stmt.future && view.origin == stmt.origin)
      && view.aliases != [] && ShownOf(body, s, stmt.ImportFrom?, stmt.aliases, view.aliases)
    else view == stmt
  }

  /** Nothing of the import is shown. */
  ghost predicate Hidden(body: seq<Stmt>, s: set<nat>, stmt: Stmt) {
    Prunable(stmt) && forall a :: a in stmt.aliases ==> !Shown(body, s, stmt.ImportFrom?, a)
  }

  /** The selected statements at `at`, in module order. */
  ghost predicate WholeAt(body: seq<Stmt>, s: set<nat>, p: seq<Stmt>, at: seq<nat>, n: nat) {
    && n <= |body| && Rising(at) && |at| == |p| && (forall i: nat :: i in at <==> i in s && i < n)
    && forall k :: 0 <= k < |at| ==> at[k] < n && p[k] == body[at[k]]
  }

  /** The same, pruned; what is not at `at` is hidden. */
  ghost predicate PrunedAt(body: seq<Stmt>, s: set<nat>, p: seq<Stmt>, at: seq<nat>, n: nat) {
    && n <= |body| && Rising(at) && |at| == |p|
    && (forall k :: 0 <= k < |at| ==> at[k] < n && at[k] in s && ViewOf(body, s, body[at[k]], p[k]))
    && forall i: nat :: i in s && i < n && i !in at ==> Hidden(body, s, body[i])
  }

  ghost predicate Whole(body: seq<Stmt>, s: set<nat>, p: seq<Stmt>) {
    exists at :: WholeAt(body, s, p, at, |body|)
  }

  ghost predicate Pruned(body: seq<Stmt>, s: set<nat>, p: seq<Stmt>) {
    exists at :: PrunedAt(body, s, p, at, |body|)
  }

  lemma UsedIff(body: seq<Stmt>, s: set<nat>, from: bool, a: Alias)
    ensures Wanted(UsedNames(body, s), from)(a) <==> Shown(body, s, from, a)
  {
    if i :| i in s && i < |body| && a.bound in Loads(body[i]) { NamesIff(body[i], a.bound); }
    if j :| j in s && j < |body| && Uses(body[j], a.bound) { NamesIff(body[j], a.bound); }
  }

  lemma AliasesShown(body: seq<Stmt>, s: set<nat>, from: bool, aliases: seq<Alias>)
    ensures var kept := Keep(aliases, Wanted(UsedNames(body, s), from));
      ShownOf(body, s, from, aliases, kept) && (kept == [] ==> forall a :: a in aliases ==> !Shown(body, s, from, a))
  {
    var wanted := Wanted(UsedNames(body, s), from);
    var at := KeepPositions(aliases, wanted);
    forall a ensures wanted(a) <==> Shown(body, s, from, a) { UsedIff(body, s, from, a); }
    assert PickedAt(body, s, from, aliases, Keep(aliases, wanted), at);
    KeepNone(aliases, wanted);
  }

  lemma StatementShown(body: seq<Stmt>, s: set<nat>, stmt: Stmt)
    ensures var shown := Fingerprints.Shown(stmt, UsedNames(body, s), true);
      |shown| <= 1 && if shown == [] then Hidden(body, s, stmt) else ViewOf(body, s, stmt, shown[0])
  {
    if Prunable(stmt) { AliasesShown(body, s, stmt.ImportFrom?, stmt.aliases); }
  }

  lemma PrunedSkip(body: seq<Stmt>, s: set<nat>, p: seq<Stmt>, at: seq<nat>, n: nat)
    requires n < |body| && PrunedAt(body, s, p, at, n) && (n in s ==> Hidden(body, s, body[n]))
    ensures PrunedAt(body, s, p, at, n + 1)
  {
  }

  lemma PrunedTake(body: seq<Stmt>, s: set<nat>, p: seq<Stmt>, at: seq<nat>, n: nat, view: Stmt)
    requires n < |body| && PrunedAt(body, s, p, at, n) && n in s && ViewOf(body, s, body[n], view)
    ensures PrunedAt(body, s, p + [view], at + [n], n + 1)
  {
    assert (at + [n])[|at|] == n;
    forall i: nat | i in s && i < n + 1 && i !in at + [n] ensures Hidden(body, s, body[i]) {
      assert i !in at;
    }
  }

  lemma {:induction false} PrunedUpTo(body: seq<Stmt>, s: set<nat>, n: nat) returns (at: seq<nat>)
    requires n <= |body|
    ensures PrunedAt(body, s, Projected(body, s, UsedNames(body, s), true, n), at, n)
  {
    at := [];
    if n > 0 {
      at := PrunedUpTo(body, s, n - 1);
      var p := Projected(body, s, UsedNames(body, s), true, n - 1);
      var shown := Fingerprints.Shown(body[n - 1], UsedNames(body, s), true);
      StatementShown(body, s, body[n - 1]);
      if n - 1 in s && shown != [] {
        PrunedTake(body, s, p, at, n - 1, shown[0]);
        assert shown == [shown[0]];
        at := at + [n - 1];
      } else {
        PrunedSkip(body, s, p, at, n - 1);
        assert p + [] == p;
      }
    }
  }

  lemma WholeSkip(body: seq<Stmt>, s: set<nat>, p: seq<Stmt>, at: seq<nat>, n: nat)
    requires n < |body| && WholeAt(body, s, p, at, n) && n !in s
    ensures WholeAt(body, s, p, at, n + 1)
  {
  }

  lemma WholeTake(body: seq<Stmt>, s: set<nat>, p: seq<Stmt>, at: seq<nat>, n: nat)
    requires n < |body| && WholeAt(body, s, p, at, n) && n in s
    ensures WholeAt(body, s, p + [body[n]], at + [n], n + 1)
  {
    forall i: nat ensures i in at + [n] <==> i in s && i < n + 1 { assert i in at <==> i in s && i < n; }
  }

  lemma {:induction false} WholeUpTo(body: seq<Stmt>, s: set<nat>, n: nat) returns (at: seq<nat>)
    requires n <= |body|
    ensures WholeAt(body, s, Projected(body, s, UsedNames(body, s), false, n), at, n)
  {
    at := [];
    if n > 0 {
      at := WholeUpTo(body, s, n - 1);
      var p := Projected(body, s, UsedNames(body, s), false, n - 1);
      if n - 1 in s {
        WholeTake(body, s, p, at, n - 1);
        at := at + [n - 1];
      } else {
        WholeSkip(body, s, p, at, n - 1);
        assert p + [] == p;
      }
    }
  }

  /** Unpruned, a projection is the selected statements; pruned, its imports show exactly what is loaded. */
  lemma ProjectionMeaning(body: seq<Stmt>, s: set<nat>)
    ensures Whole(body, s, Projection(body, s, false)) && Pruned(body, s, Projection(body, s, true))
  {
    var at := WholeUpTo(body, s, |body|);
    var pruned := PrunedUpTo(body, s, |body|);
  }

  // ----- what is shown is determined

  lemma {:induction false} RisingSame(a: seq<nat>, b: seq<nat>)
    requires Rising(a) && Rising(b) && forall i: nat :: i in a <==> i in b
    ensures a == b
  {
    if a != [] { SomeElement(a); }
    if b != [] { SomeElement(b); }
    if a != [] {
      var m, n := |a| - 1, |b| - 1;
      LastIsMost(a);
      LastIsMost(b);
      assert a[m] in a && b[n] in b;
      forall i: nat ensures i in a[..m] <==> i in b[..n] { InitElements(a, i); InitElements(b, i); }
      RisingSame(a[..m], b[..n]);
      assert a == a[..m] + [a[m]] && b == b[..n] + [b[n]];
    }
  }

  lemma SomeElement(a: seq<nat>)
    requires a != []
    ensures exists i: nat :: i in a
  {
    assert a[0] in a;
  }

  lemma LastIsMost(a: seq<nat>)
    requires Rising(a) && a != []
    ensures forall i :: i in a ==> i <= a[|a| - 1]
  {
  }

  lemma InitElements(a: seq<nat>, i: nat)
    requires Rising(a) && a != []
    ensures i in a[..|a| - 1] <==> i in a && i != a[|a| - 1]
  {
    if i in a && i != a[|a| - 1] {
      var k :| 0 <= k < |a| && a[k] == i;
      assert a[..|a| - 1][k] == i;
    }
  }

  lemma WholeSame(body: seq<Stmt>, s: set<nat>, p: seq<Stmt>, q: seq<Stmt>)
    requires Whole(body, s, p) && Whole(body, s, q)
    ensures p == q
  {
    var at :| WholeAt(body, s, p, at, |body|);
    var to :| WholeAt(body, s, q, to, |body|);
    RisingSame(at, to);
  }

  lemma PickedWhere(
    body: seq<Stmt>, s: set<nat>, from: bool, aliases: seq<Alias>, kept: seq<Alias>, at: seq<nat>, i: nat)
    requires PickedAt(body, s, from, aliases, kept, at)
    ensures i in at <==> i < |aliases| && Shown(body, s, from, aliases[i])
  {
    if i in at { var k :| 0 <= k < |at| && at[k] == i; }
  }

  lemma PickedSame(body: seq<Stmt>, s: set<nat>, from: bool, aliases: seq<Alias>, kept: seq<Alias>, other: seq<Alias>)
    requires ShownOf(body, s, from, aliases, kept) && ShownOf(body, s, from, aliases, other)
    ensures kept == other
  {
    var at :| PickedAt(body, s, from, aliases, kept, at);
    var to :| PickedAt(body, s, from, aliases, other, to);
    forall i: nat ensures i in at <==> i in to {
      PickedWhere(body, s, from, aliases, kept, at, i);
      PickedWhere(body, s, from, aliases, other, to, i);
    }
    RisingSame(at, to);
  }

  lemma ViewSame(body: seq<Stmt>, s: set<nat>, stmt: Stmt, view: Stmt, other: Stmt)
    requires ViewOf(body, s, stmt, view) && ViewOf(body, s, stmt, other)
    ensures view == other
  {
    if Prunable(stmt) { PickedSame(body, s, stmt.ImportFrom?, stmt.aliases, view.aliases, other.aliases); }
  }

  lemma ViewedOrHidden(body: seq<Stmt>, s: set<nat>, stmt: Stmt, view: Stmt)
    requires ViewOf(body, s, stmt, view)
    ensures !Hidden(body, s, stmt)
  {
    if Prunable(stmt) {
      var at :| PickedAt(body, s, stmt.ImportFrom?, stmt.aliases, view.aliases, at);
      assert at[0] in at && stmt.aliases[at[0]] in stmt.aliases;
    }
  }

  lemma PrunedWhere(body: seq<Stmt>, s: set<nat>, p: seq<Stmt>, at: seq<nat>, i: nat)
    requires PrunedAt(body, s, p, at, |body|)
    ensures i in at <==> i in s && i < |body| && !Hidden(body, s, body[i])
  {
    if i in at {
      var k :| 0 <= k < |at| && at[k] == i;
      ViewedOrHidden(body, s, body[i], p[k]);
    }
  }

  lemma PrunedSame(body: seq<Stmt>, s: set<nat>, p: seq<Stmt>, q: seq<Stmt>)
    requires Pruned(body, s, p) && Pruned(body, s, q)
    ensures p == q
  {
    var at :| PrunedAt(body, s, p, at, |body|);
    var to :| PrunedAt(body, s, q, to, |body|);
    forall i: nat ensures i in at <==> i in to {
      PrunedWhere(body, s, p, at, i);
      PrunedWhere(body, s, q, to, i);
    }
    RisingSame(at, to);
    forall k | 0 <= k < |p| ensures p[k] == q[k] { ViewSame(body, s, body[at[k]], p[k], q[k]); }
  }

  // ----- the fingerprints of a module

  lemma SelectedIsLeast(body: seq<Stmt>, d: nat, s: set<nat>)
    requires d < |body| && Selected(body, d, s)
    ensures Least(body, d, s)
  {
    assert s == NeededSet(body, d);
    NeededHolds(body, d);
    forall t | Holds(body, d, t) ensures s <= t {
      forall i | i in s ensures i in t { NeededIn(body, d, t, i); }
    }
  }

  lemma NeededIn(body: seq<Stmt>, d: nat, t: set<nat>, i: nat)
    requires Holds(body, d, t) && Needed(body, d, i)
    ensures i in t
  {
    if body[i].ImportFrom? && body[i].future {
      assert i in Futures(body);
    } else {
      var path :| Leads(body, path) && path[0] == d && path[|path| - 1] == i;
      PathInside(body, t, path, |path| - 1);
    }
  }

  /** The texts hashed for a definition: itself, what it needs, and what it needs with pruned imports. */
  ghost predicate Text(body: seq<Stmt>, d: nat, p: seq<Stmt>) {
    d < |body| && body[d].Definition? &&
    (p == [body[d]] || exists s :: Selected(body, d, s) && (Whole(body, s, p) || Pruned(body, s, p)))
  }

  /** Substantial text is hashed; anything shorter is not. */
  ghost predicate HashOf(x: Fingerprints.Text, p: seq<Stmt>, f: string) {
    |x.normalized(p)| >= 80 && f == x.hash(x.normalized(p))
  }

  lemma ItselfOnly(body: seq<Stmt>, d: nat)
    requires d < |body|
    ensures Projection(body, {d}, false) == [body[d]]
  {
    ProjectionMeaning(body, {d});
    assert WholeAt(body, {d}, [body[d]], [d], |body|);
    WholeSame(body, {d}, Projection(body, {d}, false), [body[d]]);
  }

  lemma SelectedSame(body: seq<Stmt>, d: nat, s: set<nat>, t: set<nat>)
    requires Selected(body, d, s) && Selected(body, d, t)
    ensures s == t
  {
    forall i: nat ensures i in s <==> i in t { assert i in s <==> Needed(body, d, i); }
  }

  lemma TextIs(body: seq<Stmt>, d: nat, s: set<nat>, p: seq<Stmt>)
    requires d < |body| && Selected(body, d, s) && Text(body, d, p)
    ensures p == Projection(body, {d}, false) || p == Projection(body, s, false) || p == Projection(body, s, true)
  {
    ItselfOnly(body, d);
    if p != [body[d]] {
      var t :| Selected(body, d, t) && (Whole(body, t, p) || Pruned(body, t, p));
      SelectedSame(body, d, s, t);
      ProjectionMeaning(body, s);
      if Whole(body, s, p) {
        WholeSame(body, s, p, Projection(body, s, false));
      } else {
        PrunedSame(body, s, p, Projection(body, s, true));
      }
    }
  }

  lemma TextIff(body: seq<Stmt>, d: nat, s: set<nat>, p: seq<Stmt>)
    requires d in Definitions(body) && Least(body, d, s)
    ensures Text(body, d, p) <==>
      p == Projection(body, {d}, false) || p == Projection(body, s, false) || p == Projection(body, s, true)
  {
    LeastMeaning(body, d, s);
    if Text(body, d, p) {
      TextIs(body, d, s, p);
    } else {
      ItselfOnly(body, d);
      ProjectionMeaning(body, s);
    }
  }

  lemma LeastExists(body: seq<Stmt>, d: nat)
    requires d < |body|
    ensures Least(body, d, NeededSet(body, d))
  {
    SelectedIsLeast(body, d, NeededSet(body, d));
  }

  ghost predicate Fingerprint(x: Fingerprints.Text, body: seq<Stmt>, f: string) {
    exists d, p :: Text(body, d, p) && HashOf(x, p, f)
  }

  lemma HashedIff(x: Fingerprints.Text, p: seq<Stmt>, f: string)
    ensures f in Hashed(x, p) <==> HashOf(x, p, f)
  {
  }

  lemma FingerprintsForIff(x: Fingerprints.Text, body: seq<Stmt>, d: nat, s: set<nat>, f: string)
    requires d in Definitions(body) && Least(body, d, s)
    ensures f in FingerprintsFor(x, body, d, s) <==> exists p :: Text(body, d, p) && HashOf(x, p, f)
  {
    var one, two, three := Projection(body, {d}, false), Projection(body, s, false), Projection(body, s, true);
    HashedIff(x, one, f);
    HashedIff(x, two, f);
    HashedIff(x, three, f);
    TextIff(body, d, s, one);
    TextIff(body, d, s, two);
    TextIff(body, d, s, three);
    if p :| Text(body, d, p) && HashOf(x, p, f) { TextIff(body, d, s, p); }
  }

  /** The fingerprints of a module are the hashes of its definitions' substantial texts, and nothing else. */
  lemma FingerprintMeaning(x: Fingerprints.Text, body: seq<Stmt>, f: string)
    ensures IsFingerprint(x, body, f) <==> Fingerprint(x, body, f)
  {
    if d, s :| d in Definitions(body) && Least(body, d, s) && f in FingerprintsFor(x, body, d, s) {
      FingerprintsForIff(x, body, d, s, f);
    }
    if d, p :| Text(body, d, p) && HashOf(x, p, f) {
      LeastExists(body, d);
      FingerprintsForIff(x, body, d, NeededSet(body, d), f);
    }
  }

  // ----- an alias nobody loads

  lemma {:induction false} KeepConcat<T>(a: seq<T>, b: seq<T>, f: T -> bool)
    ensures Keep(a + b, f) == Keep(a, f) + Keep(b, f)
  {
    if b == [] {
      assert a + b == a;
    } else {
      assert (a + b)[..|a + b| - 1] == a + b[..|b| - 1];
      KeepConcat(a, b[..|b| - 1], f);
    }
  }

  lemma KeepWithout<T>(a: seq<T>, x: T, b: seq<T>, f: T -> bool)
    requires !f(x)
    ensures Keep(a + [x] + b, f) == Keep(a + b, f)
  {
    KeepConcat(a + [x], b, f);
    KeepConcat(a, [x], f);
    KeepConcat(a, b, f);
    assert Keep([x], f) == [] by { assert [x][..0] == []; }
  }

  /** The import with one more alias. */
  ghost predicate Widened(stmt: Stmt, wide: Stmt, a: Alias, k: nat) {
    && Prunable(stmt) && k <= |stmt.aliases|
    && wide == stmt.(aliases := stmt.aliases[..k] + [a] + stmt.aliases[k..])
  }

  lemma WidenedShown(stmt: Stmt, wide: Stmt, a: Alias, k: nat, used: set<string>)
    requires Widened(stmt, wide, a, k) && !Wanted(used, stmt.ImportFrom?)(a)
    ensures Fingerprints.Shown(wide, used, true) == Fingerprints.Shown(stmt, used, true)
  {
    KeepWithout(stmt.aliases[..k], a, stmt.aliases[k..], Wanted(used, stmt.ImportFrom?));
    assert stmt.aliases[..k] + stmt.aliases[k..] == stmt.aliases;
  }

  lemma {:induction false} WidenedProjected(
    body: seq<Stmt>, s: set<nat>, i: nat, wide: Stmt, a: Alias, k: nat, used: set<string>, n: nat)
    requires i < |body| && n <= |body| && Widened(body[i], wide, a, k) && !Wanted(used, body[i].ImportFrom?)(a)
    ensures Projected(body[i := wide], s, used, true, n) == Projected(body, s, used, true, n)
  {
    if n > 0 {
      WidenedProjected(body, s, i, wide, a, k, used, n - 1);
      if n - 1 == i { WidenedShown(body[i], wide, a, k, used); }
    }
  }

  /** Widening an import by a name that no selected statement loads leaves the pruned projection as it was. */
  lemma UnusedAliasPruned(body: seq<Stmt>, s: set<nat>, i: nat, wide: Stmt, a: Alias, k: nat)
    requires i < |body| && Widened(body[i], wide, a, k) && !Shown(body, s, body[i].ImportFrom?, a)
    ensures Projection(body[i := wide], s, true) == Projection(body, s, true)
  {
    UsedIff(body, s, body[i].ImportFrom?, a);
    var other := body[i := wide];
    forall name ensures name in UsedNames(other, s) <==> name in UsedNames(body, s) {
      if j :| j in s && j < |other| && name in Loads(other[j]) { assert name in Loads(body[j]); }
      if j :| j in s && j < |body| && name in Loads(body[j]) { assert name in Loads(other[j]); }
    }
    assert UsedNames(other, s) == UsedNames(body, s);
    WidenedProjected(body, s, i, wide, a, k, UsedNames(body, s), |body|);
  }

  /** The alias binds a name that no statement of the module loads, and is no `*` of a from-import. */
  ghost predicate Unloaded(body: seq<Stmt>, from: bool, a: Alias) {
    !(from && a.star) && forall j :: 0 <= j < |body| ==> a.bound !in Loads(body[j])
  }

  lemma SameLast(body: seq<Stmt>, other: seq<Stmt>, name: string)
    requires |body| == |other| && forall j :: 0 <= j < |body| ==> (name in Binds(other[j]) <==> name in Binds(body[j]))
    ensures name in BoundAt(other) <==> name in BoundAt(body)
    ensures name in BoundAt(body) ==> BoundAt(other)[name] == BoundAt(body)[name]
  {
    BoundLast(body, name);
    BoundLast(other, name);
    if j :| 0 <= j < |body| && name in Binds(body[j]) { assert name in Binds(other[j]); }
    if j :| 0 <= j < |other| && name in Binds(other[j]) { assert name in Binds(body[j]); }
  }

  lemma WidenedBinds(stmt: Stmt, wide: Stmt, a: Alias, k: nat, name: string)
    requires Widened(stmt, wide, a, k) && name != a.bound
    ensures name in Binds(wide) <==> name in Binds(stmt)
  {
    forall b ensures b in wide.aliases <==> b == a || b in stmt.aliases {
      assert stmt.aliases == stmt.aliases[..k] + stmt.aliases[k..];
    }
  }

  lemma WidenedDeps(body: seq<Stmt>, i: nat, wide: Stmt, a: Alias, k: nat, j: nat)
    requires i < |body| && Widened(body[i], wide, a, k) && Unloaded(body, body[i].ImportFrom?, a)
    ensures Deps(body[i := wide], j) == Deps(body, j)
  {
    var other := body[i := wide];
    if j < |body| {
      assert Loads(other[j]) == Loads(body[j]);
      forall name | name in Loads(body[j])
        ensures name in BoundAt(other) <==> name in BoundAt(body)
        ensures name in BoundAt(body) ==> BoundAt(other)[name] == BoundAt(body)[name]
      {
        WidenedBinds(body[i], wide, a, k, name);
        SameLast(body, other, name);
      }
    }
  }

  lemma WidenedHolds(body: seq<Stmt>, i: nat, wide: Stmt, a: Alias, k: nat, d: nat, s: set<nat>)
    requires i < |body| && Widened(body[i], wide, a, k) && Unloaded(body, body[i].ImportFrom?, a)
    ensures Holds(body[i := wide], d, s) <==> Holds(body, d, s)
  {
    forall j: nat ensures Deps(body[i := wide], j) == Deps(body, j) { WidenedDeps(body, i, wide, a, k, j); }
    assert Futures(body[i := wide]) == Futures(body);
  }

  /** The widened module selects the same statements for every definition. */
  lemma WidenedLeast(body: seq<Stmt>, i: nat, wide: Stmt, a: Alias, k: nat, d: nat, s: set<nat>)
    requires i < |body| && Widened(body[i], wide, a, k) && Unloaded(body, body[i].ImportFrom?, a)
    ensures Least(body[i := wide], d, s) <==> Least(body, d, s)
  {
    forall t ensures Holds(body[i := wide], d, t) <==> Holds(body, d, t) { WidenedHolds(body, i, wide, a, k, d, t); }
  }

  /** Padding an import itself: the fingerprints of every definition and of its pruned closure stay in place. */
  lemma UnusedAliasKeeps(
    x: Fingerprints.Text, body: seq<Stmt>, i: nat, wide: Stmt, a: Alias, k: nat, d: nat, s: set<nat>, f: string)
    requires i < |body| && Widened(body[i], wide, a, k) && Unloaded(body, body[i].ImportFrom?, a)
    requires d in Definitions(body) && Least(body, d, s)
    requires f in Hashed(x, Projection(body, {d}, false)) + Hashed(x, Projection(body, s, true))
    ensures Least(body[i := wide], d, s) && IsFingerprint(x, body[i := wide], f)
  {
    var other := body[i := wide];
    WidenedLeast(body, i, wide, a, k, d, s);
    ItselfOnly(body, d);
    ItselfOnly(other, d);
    forall j | j in s && j < |body| ensures !Uses(body[j], a.bound) { NamesIff(body[j], a.bound); }
    UnusedAliasPruned(body, s, i, wide, a, k);
    assert d in Definitions(other) && f in FingerprintsFor(x, other, d, s);
  }
}
