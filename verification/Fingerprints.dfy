/** Definition fingerprints as dependency projections of a module (`cacheon/copy_fingerprint.py`). */
module Fingerprints {
  import opened Orders

  /** One imported name: what it binds, whether it is `*`, and its spelling. */
  datatype Alias = Alias(bound: string, star: bool, text: string)

  /** A module-level statement, abstracted to what it binds and loads. Import statements load nothing. */
  datatype Stmt =
    | Definition(name: string, loaded: set<string>, text: string)
    | Import(aliases: seq<Alias>)
    | ImportFrom(future: bool, origin: string, aliases: seq<Alias>)
    | Plain(targets: set<string>, loaded: set<string>, text: string)

  /** `_bound_top_level_names` */
  function Binds(s: Stmt): set<string> {
    match s
    case Definition(name, _, _) => {name}
    case Import(aliases) => set a | a in aliases :: a.bound
    case ImportFrom(_, _, aliases) => set a | a in aliases && !a.star :: a.bound
    case Plain(targets, _, _) => targets
  }

  /** `_loaded_names` */
  function Loads(s: Stmt): set<string> {
    if s.Definition? || s.Plain? then s.loaded else {}
  }

  /** The names of one statement rebound to its index. */
  function Rebound(boundAt: map<string, nat>, names: set<string>, index: nat): map<string, nat> {
    map name | name in boundAt.Keys + names :: if name in names then index else boundAt[name]
  }

  /** Where a name is bound last. */
  function BoundAt(body: seq<Stmt>): (m: map<string, nat>)
    ensures forall name :: name in m ==> m[name] < |body|
  {
    if body == [] then map[]
    else Rebound(BoundAt(body[..|body| - 1]), Binds(body[|body| - 1]), |body| - 1)
  }

  /** `name` is bound in `body` exactly if `m` knows it, and then where it is bound last. */
  ghost predicate LastAt(body: seq<Stmt>, m: map<string, nat>, name: string) {
    && (name in m <==> exists i :: 0 <= i < |body| && name in Binds(body[i]))
    && (name in m ==>
          && m[name] < |body| && name in Binds(body[m[name]])
          && forall i :: m[name] < i < |body| ==> name !in Binds(body[i]))
  }

  lemma LastNext(body: seq<Stmt>, m: map<string, nat>, stmt: Stmt, name: string)
    requires LastAt(body, m, name)
    ensures LastAt(body + [stmt], Rebound(m, Binds(stmt), |body|), name)
  {
    var next := body + [stmt];
    assert next[|body|] == stmt && forall i :: 0 <= i < |body| ==> next[i] == body[i];
    if i :| 0 <= i < |body| && name in Binds(body[i]) { assert name in Binds(next[i]); }
  }

  lemma {:induction false} BoundLast(body: seq<Stmt>, name: string)
    ensures LastAt(body, BoundAt(body), name)
  {
    if body != [] {
      var init, last := body[..|body| - 1], body[|body| - 1];
      BoundLast(init, name);
      LastNext(init, BoundAt(init), last, name);
      assert body == init + [last];
    }
  }

  function Futures(body: seq<Stmt>): set<nat> {
    set i: nat | i < |body| && body[i].ImportFrom? && body[i].future
  }

  function Definitions(body: seq<Stmt>): set<nat> {
    set i: nat | i < |body| && body[i].Definition?
  }

  // ----- the dependency closure

  /** The statements that bind the given names. */
  function Binders(boundAt: map<string, nat>, names: set<string>): set<nat> {
    set name | name in names && name in boundAt :: boundAt[name]
  }

  /** The statements a statement depends on. */
  function Deps(body: seq<Stmt>, i: nat): (r: set<nat>)
    ensures forall j :: j in r ==> j < |body|
  {
    if i < |body| then Binders(BoundAt(body), Loads(body[i])) else {}
  }

  ghost predicate Closed(body: seq<Stmt>, s: set<nat>) {
    forall i :: i in s ==> Deps(body, i) <= s
  }

  ghost predicate Holds(body: seq<Stmt>, d: nat, s: set<nat>) {
    Closed(body, s) && d in s && Futures(body) <= s
  }

  /** The least dependency-closed set with the definition and the future imports. */
  ghost predicate Least(body: seq<Stmt>, d: nat, s: set<nat>) {
    Holds(body, d, s) && forall t :: Holds(body, d, t) ==> s <= t
  }

  lemma LeastUnique(body: seq<Stmt>, d: nat, s: set<nat>, t: set<nat>)
    requires Least(body, d, s) && Least(body, d, t)
    ensures s == t
  {
  }

  /** Whatever is not pending has its dependencies selected; what is selected is in every closed set. */
  ghost predicate Growing(body: seq<Stmt>, d: nat, selected: set<nat>, pending: seq<nat>) {
    && d in selected && Futures(body) <= selected && (forall i :: i in selected ==> i < |body|)
    && (forall i :: i in pending ==> i in selected)
    && (forall i :: i in selected && i !in pending ==> Deps(body, i) <= selected)
    && forall t :: Holds(body, d, t) ==> selected <= t
  }

  lemma Start(body: seq<Stmt>, d: nat)
    requires d < |body|
    ensures Growing(body, d, Futures(body) + {d}, [d])
  {
  }

  /** A statement off the worklist, its dependencies selected and the new ones pushed. */
  lemma Grow(
    body: seq<Stmt>, d: nat, selected: set<nat>, pending: seq<nat>, current: nat, rest: seq<nat>, after: set<nat>,
    pushed: seq<nat>)
    requires Growing(body, d, selected, pending) && current in selected && after == selected + Deps(body, current)
    requires forall i :: i in pending ==> i == current || i in rest
    requires forall i :: i in rest ==> i in pending
    requires forall i :: i in pushed <==> i in rest || (i in after && i !in selected)
    ensures Growing(body, d, after, pushed)
  {
    forall t | Holds(body, d, t) ensures after <= t { assert current in t; }
    forall i | i in after && i !in pushed ensures Deps(body, i) <= after {
      if i != current { assert i !in pending; }
    }
  }

  ghost function Unselected(body: seq<Stmt>, selected: set<nat>): set<nat> {
    set i: nat | i < |body| && i !in selected
  }

  lemma BindersStep(boundAt: map<string, nat>, all: set<string>, todo: set<string>, name: string)
    requires name in todo && todo <= all
    ensures Binders(boundAt, all - (todo - {name})) ==
      Binders(boundAt, all - todo) + (if name in boundAt then {boundAt[name]} else {})
  {
  }

  /** The loop over a statement's loads. */
  method Expand(boundAt: map<string, nat>, names: set<string>, selected0: set<nat>, pending0: seq<nat>)
    returns (selected: set<nat>, pending: seq<nat>)
    ensures selected == selected0 + Binders(boundAt, names)
    ensures forall i :: i in pending <==> i in pending0 || (i in selected && i !in selected0)
    ensures selected == selected0 ==> pending == pending0
  {
    selected, pending := selected0, pending0;
    var todo := names;
    while todo != {}
      invariant todo <= names && selected == selected0 + Binders(boundAt, names - todo)
      invariant forall i :: i in pending <==> i in pending0 || (i in selected && i !in selected0)
      invariant selected == selected0 ==> pending == pending0
      decreases todo
    {
      var name :| name in todo;
      BindersStep(boundAt, names, todo, name);
      if name in boundAt && boundAt[name] !in selected {
        selected := selected + {boundAt[name]};
        pending := pending + [boundAt[name]];
      }
      todo := todo - {name};
    }
    assert names - todo == names;
  }

  lemma Shrinks(body: seq<Stmt>, selected: set<nat>, after: set<nat>)
    requires selected <= after && forall i :: i in after ==> i < |body|
    ensures after == selected || Unselected(body, after) < Unselected(body, selected)
  {
    if after != selected {
      var i := Surplus(selected, after);
      assert i in Unselected(body, selected) && i !in Unselected(body, after);
    }
  }

  /** The worklist of `_top_level_definition_fingerprints`. */
  method Select(body: seq<Stmt>, boundAt: map<string, nat>, d: nat) returns (selected: set<nat>)
    requires boundAt == BoundAt(body) && d < |body|
    ensures Least(body, d, selected) && forall i :: i in selected ==> i < |body|
  {
    Start(body, d);
    selected := Futures(body) + {d};
    var pending := [d];
    while pending != []
      invariant Growing(body, d, selected, pending)
      decreases Unselected(body, selected), |pending|
    {
      var current, rest := pending[|pending| - 1], pending[..|pending| - 1];
      assert pending == rest + [current] && current in pending;
      var after, pushed := Expand(boundAt, Loads(body[current]), selected, rest);
      Grow(body, d, selected, pending, current, rest, after, pushed);
      Shrinks(body, selected, after);
      selected, pending := after, pushed;
    }
  }

  // ----- projections

  function UsedNames(body: seq<Stmt>, indexes: set<nat>): set<string> {
    set i, name | i in indexes && i < |body| && name in Loads(body[i]) :: name
  }

  /** A pruned import keeps what is loaded, and a from-import also keeps `*`. */
  function Wanted(used: set<string>, from: bool): Alias -> bool {
    (a: Alias) => a.bound in used || (from && a.star)
  }

  /** A statement as the projection shows it, or nothing when all its aliases are pruned. */
  function Shown(s: Stmt, used: set<string>, prune: bool): seq<Stmt> {
    if prune && s.Import? then
      var aliases := Keep(s.aliases, Wanted(used, false));
      if aliases == [] then [] else [Import(aliases)]
    else if prune && s.ImportFrom? && !s.future then
      var aliases := Keep(s.aliases, Wanted(used, true));
      if aliases == [] then [] else [s.(aliases := aliases)]
    else [s]
  }

  /** The selected statements among the first `n`, in module order. */
  function Projected(body: seq<Stmt>, indexes: set<nat>, used: set<string>, prune: bool, n: nat): seq<Stmt>
    requires n <= |body|
  {
    if n == 0 then []
    else Projected(body, indexes, used, prune, n - 1) + if n - 1 in indexes then Shown(body[n - 1], used, prune) else []
  }

  /** `_add_projection` */
  function Projection(body: seq<Stmt>, indexes: set<nat>, prune: bool): seq<Stmt> {
    Projected(body, indexes, UsedNames(body, indexes), prune, |body|)
  }

  /** How text is normalized and hashed; shorter text is boilerplate. */
  datatype Text = Text(normalized: seq<Stmt> -> string, hash: string -> string)

  const SUBSTANTIAL := 80

  function Hashed(x: Text, projection: seq<Stmt>): set<string> {
    if |x.normalized(projection)| >= SUBSTANTIAL then {x.hash(x.normalized(projection))} else {}
  }

  /** One definition's fingerprints: its own statement, its closure, and its closure with pruned imports. */
  function FingerprintsFor(x: Text, body: seq<Stmt>, d: nat, selected: set<nat>): set<string> {
    Hashed(x, Projection(body, {d}, false)) + Hashed(x, Projection(body, selected, false)) +
      Hashed(x, Projection(body, selected, true))
  }

  ghost predicate IsFingerprint(x: Text, body: seq<Stmt>, f: string) {
    exists d, s :: d in Definitions(body) && Least(body, d, s) && f in FingerprintsFor(x, body, d, s)
  }

  method ReadBindings(body: seq<Stmt>) returns (boundAt: map<string, nat>)
    ensures boundAt == BoundAt(body)
  {
    boundAt := map[];
    for i := 0 to |body|
      invariant boundAt == BoundAt(body[..i])
    {
      assert body[..i + 1][..i] == body[..i];
      boundAt := Rebound(boundAt, Binds(body[i]), i);
    }
    assert body[..|body|] == body;
  }

  /** `_top_level_definition_fingerprints` */
  method DefinitionFingerprints(x: Text, body: seq<Stmt>) returns (fingerprints: set<string>)
    ensures forall f :: f in fingerprints <==> IsFingerprint(x, body, f)
  {
    var boundAt := ReadBindings(body);
    fingerprints := {};
    var todo := Definitions(body);
    while todo != {}
      invariant todo <= Definitions(body)
      invariant forall f :: f in fingerprints <==>
        exists d, s :: d in Definitions(body) - todo && Least(body, d, s) && f in FingerprintsFor(x, body, d, s)
      decreases todo
    {
      var d :| d in todo;
      var selected := Select(body, boundAt, d);
      AddDefinition(x, body, todo, d, selected, fingerprints);
      fingerprints := fingerprints + FingerprintsFor(x, body, d, selected);
      todo := todo - {d};
    }
    assert Definitions(body) - todo == Definitions(body);
  }

  lemma AddDefinition(x: Text, body: seq<Stmt>, todo: set<nat>, d: nat, selected: set<nat>, fingerprints: set<string>)
    requires todo <= Definitions(body) && d in todo && Least(body, d, selected)
    requires forall f :: f in fingerprints <==>
      exists e, s :: e in Definitions(body) - todo && Least(body, e, s) && f in FingerprintsFor(x, body, e, s)
    ensures forall f :: f in fingerprints + FingerprintsFor(x, body, d, selected) <==>
      exists e, s :: e in Definitions(body) - (todo - {d}) && Least(body, e, s) && f in FingerprintsFor(x, body, e, s)
  {
    var now := Definitions(body) - (todo - {d});
    forall f ensures f in fingerprints + FingerprintsFor(x, body, d, selected) <==>
      exists e, s :: e in now && Least(body, e, s) && f in FingerprintsFor(x, body, e, s)
    {
      if e, s :| e in now && Least(body, e, s) && f in FingerprintsFor(x, body, e, s) {
        if e == d { LeastUnique(body, d, s, selected); }
      }
      if f in FingerprintsFor(x, body, d, selected) { assert d in now; }
    }
  }

  // ----- padding

  /** Appended statements that bind no name the module loads and are no future import. */
  ghost predicate Padding(body: seq<Stmt>, pad: seq<Stmt>) {
    && (forall i, s :: 0 <= i < |body| && s in pad ==> Loads(body[i]) !! Binds(s))
    && forall s :: s in pad ==> !(s.ImportFrom? && s.future)
  }

  lemma {:induction false} UnboundLater(body: seq<Stmt>, pad: seq<Stmt>, name: string)
    requires forall s :: s in pad ==> name !in Binds(s)
    ensures name in BoundAt(body + pad) <==> name in BoundAt(body)
    ensures name in BoundAt(body) ==> BoundAt(body + pad)[name] == BoundAt(body)[name]
  {
    if pad == [] {
      assert body + pad == body;
    } else {
      var n := |pad| - 1;
      assert (body + pad)[..|body + pad| - 1] == body + pad[..n] && pad[n] in pad;
      UnboundLater(body, pad[..n], name);
    }
  }

  lemma SameDeps(body: seq<Stmt>, pad: seq<Stmt>, i: nat)
    requires Padding(body, pad) && i < |body|
    ensures Deps(body + pad, i) == Deps(body, i)
  {
    assert (body + pad)[i] == body[i];
    forall name | name in Loads(body[i])
      ensures (name in BoundAt(body + pad) <==> name in BoundAt(body))
      ensures name in BoundAt(body) ==> BoundAt(body + pad)[name] == BoundAt(body)[name]
    {
      UnboundLater(body, pad, name);
    }
  }

  lemma SameFutures(body: seq<Stmt>, pad: seq<Stmt>)
    requires Padding(body, pad)
    ensures Futures(body + pad) == Futures(body)
  {
    var all := body + pad;
    forall i: nat ensures i in Futures(all) <==> i in Futures(body) {
      if i < |body| { assert all[i] == body[i]; }
      else if i < |all| { assert all[i] == pad[i - |body|] && all[i] in pad; }
    }
  }

  ghost predicate Inside(body: seq<Stmt>, s: set<nat>) {
    forall i :: i in s ==> i < |body|
  }

  lemma ClosedSame(body: seq<Stmt>, pad: seq<Stmt>, s: set<nat>)
    requires Padding(body, pad) && Inside(body, s)
    ensures Closed(body + pad, s) <==> Closed(body, s)
  {
    forall i | i in s ensures Deps(body + pad, i) == Deps(body, i) { SameDeps(body, pad, i); }
  }

  /** Cutting a closed set down to the original statements keeps it closed. */
  lemma CutClosed(body: seq<Stmt>, pad: seq<Stmt>, t: set<nat>) returns (cut: set<nat>)
    requires Padding(body, pad) && Closed(body + pad, t)
    ensures cut <= t && Inside(body, cut) && Closed(body, cut) && forall i :: i in t && i < |body| ==> i in cut
  {
    cut := set i | i in t && i < |body|;
    forall i | i in cut ensures Deps(body, i) <= cut { SameDeps(body, pad, i); }
  }

  lemma LeastInside(body: seq<Stmt>, d: nat, s: set<nat>)
    requires Least(body, d, s) && d < |body|
    ensures Inside(body, s)
  {
    assert Holds(body, d, Unselected(body, {}));
  }

  /** The closure of an original definition is the same with and without the padding. */
  lemma LeastPadded(body: seq<Stmt>, pad: seq<Stmt>, d: nat, s: set<nat>)
    requires Padding(body, pad) && d < |body| && Least(body, d, s)
    ensures Least(body + pad, d, s)
  {
    LeastInside(body, d, s);
    ClosedSame(body, pad, s);
    SameFutures(body, pad);
    forall t | Holds(body + pad, d, t) ensures s <= t {
      var cut := CutClosed(body, pad, t);
      assert Holds(body, d, cut);
    }
  }

  lemma {:induction false} ProjectedPadded(
    body: seq<Stmt>, pad: seq<Stmt>, s: set<nat>, used: set<string>, prune: bool, n: nat)
    requires n <= |body|
    ensures Projected(body + pad, s, used, prune, n) == Projected(body, s, used, prune, n)
  {
    if n > 0 {
      ProjectedPadded(body, pad, s, used, prune, n - 1);
      assert (body + pad)[n - 1] == body[n - 1];
    }
  }

  lemma {:induction false} ProjectedBeyond(body: seq<Stmt>, s: set<nat>, used: set<string>, prune: bool, m: nat, n: nat)
    requires m <= n <= |body| && forall i :: i in s ==> i < m
    ensures Projected(body, s, used, prune, n) == Projected(body, s, used, prune, m)
    decreases n
  {
    if m < n { ProjectedBeyond(body, s, used, prune, m, n - 1); }
  }

  lemma ProjectionPadded(body: seq<Stmt>, pad: seq<Stmt>, s: set<nat>, prune: bool)
    requires Inside(body, s)
    ensures Projection(body + pad, s, prune) == Projection(body, s, prune)
  {
    var all := body + pad;
    forall name ensures name in UsedNames(all, s) <==> name in UsedNames(body, s) {
      if i :| i in s && i < |all| && name in Loads(all[i]) { assert all[i] == body[i]; }
      if i :| i in s && i < |body| && name in Loads(body[i]) { assert all[i] == body[i]; }
    }
    assert UsedNames(all, s) == UsedNames(body, s);
    var used := UsedNames(body, s);
    ProjectedPadded(body, pad, s, used, prune, |body|);
    ProjectedBeyond(all, s, used, prune, |body|, |all|);
  }

  /** Every fingerprint of a module is a fingerprint of the padded module. */
  lemma PaddingContains(x: Text, body: seq<Stmt>, pad: seq<Stmt>, f: string)
    requires Padding(body, pad) && IsFingerprint(x, body, f)
    ensures IsFingerprint(x, body + pad, f)
  {
    var d, s :| d in Definitions(body) && Least(body, d, s) && f in FingerprintsFor(x, body, d, s);
    LeastPadded(body, pad, d, s);
    LeastInside(body, d, s);
    ProjectionPadded(body, pad, {d}, false);
    ProjectionPadded(body, pad, s, false);
    ProjectionPadded(body, pad, s, true);
    assert d in Definitions(body + pad) by { assert (body + pad)[d] == body[d]; }
  }
}
