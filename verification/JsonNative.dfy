/** The fast native test and the checked walk over a heap of Python objects (`cacheon/stack_identity.py`). */
module JsonNative {
  import opened Orders
  import opened Wrappers
  import opened CanonicalJson
  import JsonOutcome

  /** A dict key: an exact `str`, a subclass of `str`, or anything else. */
  datatype Key = Exact(s: string) | Derived(s: string) | Alien

  /**
   * A Python object by its type. `Plain` is an exact scalar and `Subclassed` an instance of a scalar's
   * subclass; `Mapped` and `Sequenced` are other mappings and sequences; `Unsupported` is the rest.
   */
  datatype Node =
    | Plain(scalar: Value)
    | Dict(keys: seq<Key>, children: seq<nat>)
    | Array(tuple: bool, children: seq<nat>)
    | Subclassed(scalar: Value)
    | Mapped(keys: seq<Key>, children: seq<nat>)
    | Sequenced(children: seq<nat>)
    | Unsupported

  /** Objects by identity; children may be shared and may form cycles. */
  type Heap = seq<Node>

  function Children(n: Node): seq<nat> {
    if n.Dict? || n.Array? || n.Mapped? || n.Sequenced? then n.children else []
  }

  predicate IsScalar(v: Value) {
    v.Null? || v.Bool? || v.Int? || v.Str?
  }

  ghost predicate WellFormed(heap: Heap) {
    forall i :: 0 <= i < |heap| ==>
      && (forall c :: c in Children(heap[i]) ==> c < |heap|)
      && ((heap[i].Dict? || heap[i].Mapped?) ==> |heap[i].keys| == |heap[i].children|)
      && ((heap[i].Plain? || heap[i].Subclassed?) ==> IsScalar(heap[i].scalar))
  }

  predicate KeysExact(keys: seq<Key>) {
    forall k :: k in keys ==> k.Exact?
  }

  /** Exact types only, with exact string keys. */
  predicate Native(n: Node) {
    n.Plain? || n.Array? || (n.Dict? && KeysExact(n.keys))
  }

  // ----- reachability

  ghost predicate Chain(heap: Heap, path: seq<nat>) {
    && path != [] && (forall i :: 0 <= i < |path| ==> path[i] < |heap|)
    && forall i :: 0 < i < |path| ==> path[i] in Children(heap[path[i - 1]])
  }

  ghost predicate Reaches(heap: Heap, root: nat, id: nat) {
    exists path :: Chain(heap, path) && path[0] == root && path[|path| - 1] == id
  }

  lemma ReachesSelf(heap: Heap, root: nat)
    requires root < |heap|
    ensures Reaches(heap, root, root)
  {
    assert Chain(heap, [root]);
  }

  lemma ReachesChild(heap: Heap, root: nat, id: nat, c: nat)
    requires WellFormed(heap) && Reaches(heap, root, id) && id < |heap| && c in Children(heap[id])
    ensures c < |heap| && Reaches(heap, root, c)
  {
    var path :| Chain(heap, path) && path[0] == root && path[|path| - 1] == id;
    var longer := path + [c];
    assert Chain(heap, longer);
    assert longer[0] == root && longer[|longer| - 1] == c;
  }

  /** A set closed under children that holds the root holds everything reachable. */
  lemma {:induction false} ClosedHolds(heap: Heap, done: set<nat>, path: seq<nat>)
    requires Chain(heap, path) && path[0] in done
    requires forall d, c :: d in done && d < |heap| && c in Children(heap[d]) ==> c in done
    ensures path[|path| - 1] in done
  {
    if |path| > 1 {
      var n := |path| - 1;
      ClosedHolds(heap, done, path[..n]);
      assert path[..n][n - 1] == path[n - 1];
    }
  }

  // ----- the worklist

  /** `type(child)` of every child is an exact scalar type. */
  predicate AllPlain(heap: Heap, ids: seq<nat>)
    requires forall c :: c in ids ==> c < |heap|
  {
    forall c :: c in ids ==> heap[c].Plain?
  }

  /** Every child is a list or tuple of exact scalars: the grandchild shortcut. */
  predicate RowsOfPlain(heap: Heap, ids: seq<nat>)
    requires forall c :: c in ids ==> c < |heap|
  {
    forall c :: c in ids ==> heap[c].Array? && forall g :: g in heap[c].children ==> g < |heap| && heap[g].Plain?
  }

  /** What has been cleared: native, and every child cleared or pending. */
  ghost predicate Cleared(heap: Heap, done: set<nat>, pending: seq<nat>) {
    forall d :: d in done ==>
      d < |heap| && Native(heap[d]) && forall c :: c in Children(heap[d]) ==> c in done || c in pending
  }

  ghost predicate AllReached(heap: Heap, root: nat, pending: seq<nat>) {
    forall p :: p in pending ==> p < |heap| && Reaches(heap, root, p)
  }

  /** The children that are not exact scalars. */
  function Composite(heap: Heap, ids: seq<nat>): (r: seq<nat>)
    requires forall c :: c in ids ==> c < |heap|
    ensures forall c :: c in r <==> c in ids && !heap[c].Plain?
  {
    if ids == [] then []
    else
      assert ids[0] in ids && forall c :: c in ids[1..] ==> c in ids;
      (if heap[ids[0]].Plain? then [] else [ids[0]]) + Composite(heap, ids[1..])
  }

  lemma Dropped(pending: seq<nat>)
    requires pending != []
    ensures forall p :: p in pending <==> p == pending[|pending| - 1] || p in pending[..|pending| - 1]
  {
    assert pending == pending[..|pending| - 1] + [pending[|pending| - 1]];
  }

  lemma ClearPlain(heap: Heap, done: set<nat>, pending: seq<nat>, rest: seq<nat>, item: nat)
    requires Cleared(heap, done, pending) && item < |heap| && heap[item].Plain?
    requires forall p :: p in pending <==> p == item || p in rest
    ensures Cleared(heap, done + {item}, rest)
  {
  }

  lemma ClearSeen(heap: Heap, done: set<nat>, pending: seq<nat>, rest: seq<nat>, item: nat)
    requires Cleared(heap, done, pending) && item in done
    requires forall p :: p in pending <==> p == item || p in rest
    ensures Cleared(heap, done, rest)
  {
  }

  lemma ClearShort(heap: Heap, done: set<nat>, pending: seq<nat>, rest: seq<nat>, item: nat) returns (more: set<nat>)
    requires WellFormed(heap) && Cleared(heap, done, pending) && item < |heap| && Native(heap[item])
    requires forall p :: p in pending <==> p == item || p in rest
    requires AllPlain(heap, Children(heap[item])) || RowsOfPlain(heap, Children(heap[item]))
    ensures Cleared(heap, more, rest) && item in more && done <= more
  {
    var kids := Elements(Children(heap[item]));
    var grand := set g, c | c in kids && g in Children(heap[c]) :: g;
    more := done + {item} + kids + grand;
    forall d | d in more
      ensures d < |heap| && Native(heap[d]) && forall c :: c in Children(heap[d]) ==> c in more || c in rest
    {
      if d !in done && d != item && d !in kids {
        var g, c :| c in kids && g in Children(heap[c]) && g == d;
      }
    }
  }

  lemma ClearDeep(heap: Heap, done: set<nat>, pending: seq<nat>, rest: seq<nat>, item: nat) returns (more: set<nat>)
    requires WellFormed(heap) && Cleared(heap, done, pending) && item < |heap| && Native(heap[item])
    requires forall p :: p in pending <==> p == item || p in rest
    ensures Cleared(heap, more, rest + Composite(heap, Children(heap[item]))) && item in more && done <= more
  {
    var plain := set c | c in Children(heap[item]) && heap[c].Plain?;
    more := done + {item} + plain;
  }

  lemma PushReached(heap: Heap, root: nat, item: nat, rest: seq<nat>)
    requires WellFormed(heap) && AllReached(heap, root, rest) && item < |heap| && Reaches(heap, root, item)
    ensures AllReached(heap, root, rest + Composite(heap, Children(heap[item])))
  {
    forall c | c in Composite(heap, Children(heap[item])) ensures c < |heap| && Reaches(heap, root, c) {
      ReachesChild(heap, root, item, c);
    }
  }

  lemma AllNative(heap: Heap, root: nat, done: set<nat>)
    requires Cleared(heap, done, []) && root in done
    ensures forall id: nat :: Reaches(heap, root, id) ==> id < |heap| && Native(heap[id])
  {
    forall id: nat | Reaches(heap, root, id) ensures id in done {
      var path :| Chain(heap, path) && path[0] == root && path[|path| - 1] == id;
      ClosedHolds(heap, done, path);
    }
  }

  lemma SeenShrinks(heap: Heap, seen: set<nat>, item: nat)
    requires item < |heap| && item !in seen
    ensures Unseen(heap, seen + {item}) < Unseen(heap, seen)
  {
    assert item in Unseen(heap, seen);
  }

  ghost function Unseen(heap: Heap, seen: set<nat>): set<nat> {
    set i: nat | i < |heap| && i !in seen
  }

  /** An exact scalar, list or tuple, or a dict whose every key is an exact string. */
  ghost predicate ExactlyTyped(n: Node) {
    match n
    case Plain(_) => true
    case Array(_, _) => true
    case Dict(keys, _) => forall i :: 0 <= i < |keys| ==> keys[i].Exact?
    case _ => false
  }

  lemma NativeIff(n: Node)
    ensures Native(n) <==> ExactlyTyped(n)
  {
    if n.Dict? && ExactlyTyped(n) {
      forall k | k in n.keys ensures k.Exact? { var i :| 0 <= i < |n.keys| && n.keys[i] == k; }
    }
  }

  /** `_json_native`: true exactly when every reachable object is native, on any heap, shared or cyclic. */
  method IsJsonNative(heap: Heap, root: nat) returns (ok: bool)
    requires WellFormed(heap) && root < |heap|
    ensures ok <==> forall id: nat :: Reaches(heap, root, id) ==> id < |heap| && Native(heap[id])
    ensures ok <==> forall id: nat :: Reaches(heap, root, id) ==> id < |heap| && ExactlyTyped(heap[id])
  {
    forall id: nat | id < |heap| ensures Native(heap[id]) <==> ExactlyTyped(heap[id]) { NativeIff(heap[id]); }
    var pending, seen := [root], {};
    ghost var done: set<nat> := {};
    ReachesSelf(heap, root);
    while pending != []
      invariant AllReached(heap, root, pending) && Cleared(heap, done, pending)
      invariant root in done || root in pending
      invariant seen <= done
      decreases Unseen(heap, seen), |pending|
    {
      var item := pending[|pending| - 1];
      var rest := pending[..|pending| - 1];
      Dropped(pending);
      assert item in pending && AllReached(heap, root, rest);
      if !Native(heap[item]) {
        return false;
      }
      if heap[item].Plain? {
        ClearPlain(heap, done, pending, rest, item);
        done := done + {item};
        pending := rest;
      } else if item in seen {
        ClearSeen(heap, done, pending, rest, item);
        pending := rest;
      } else {
        SeenShrinks(heap, seen, item);
        seen := seen + {item};
        var children := Children(heap[item]);
        if AllPlain(heap, children) || RowsOfPlain(heap, children) {
          done := ClearShort(heap, done, pending, rest, item);
          pending := rest;
        } else {
          PushReached(heap, root, item, rest);
          done := ClearDeep(heap, done, pending, rest, item);
          pending := rest + Composite(heap, children);
        }
      }
    }
    AllNative(heap, root, done);
    ok := true;
  }

  // ----- the checked walk and the fast bytes

  /** Acyclic data: a rank that falls from every object to its children. */
  ghost predicate Ranked(heap: Heap, rank: seq<nat>) {
    |rank| == |heap| && forall i, c :: 0 <= i < |heap| && c in Children(heap[i]) && c < |heap| ==> rank[c] < rank[i]
  }

  predicate TextKeys(keys: seq<Key>) {
    forall k :: k in keys ==> !k.Alien?
  }

  function KeyText(k: Key): string {
    if k.Alien? then "" else k.s
  }

  /** `_canonical_value` on acyclic data, whose rank is its certificate: subclasses, mappings and
      sequences are accepted and rebuilt as plain data. */
  function Walk(heap: Heap, rank: seq<nat>, id: nat): Option<Value>
    requires WellFormed(heap) && Ranked(heap, rank) && id < |heap|
    decreases rank[id], 1, 0
  {
    match heap[id]
    case Plain(v) => Some(v)
    case Subclassed(v) => Some(v)
    case Dict(keys, children) => WalkObject(heap, rank, id, keys)
    case Mapped(keys, children) => WalkObject(heap, rank, id, keys)
    case Array(_, children) => WalkArray(heap, rank, id)
    case Sequenced(children) => WalkArray(heap, rank, id)
    case Unsupported => None
  }

  function WalkObject(heap: Heap, rank: seq<nat>, id: nat, keys: seq<Key>): Option<Value>
    requires WellFormed(heap) && Ranked(heap, rank) && id < |heap| && |keys| == |Children(heap[id])|
    decreases rank[id], 0, |Children(heap[id])| + 1
  {
    if !TextKeys(keys) then None
    else
      match WalkAll(heap, rank, id, |keys|)
      case None => None
      case Some(values) => Some(Obj(Zip(keys, values)))
  }

  function WalkArray(heap: Heap, rank: seq<nat>, id: nat): Option<Value>
    requires WellFormed(heap) && Ranked(heap, rank) && id < |heap|
    decreases rank[id], 0, |Children(heap[id])| + 1
  {
    match WalkAll(heap, rank, id, |Children(heap[id])|)
    case None => None
    case Some(values) => Some(Arr(false, values))
  }

  /** The first `n` children walked in order. */
  function WalkAll(heap: Heap, rank: seq<nat>, id: nat, n: nat): (r: Option<seq<Value>>)
    requires WellFormed(heap) && Ranked(heap, rank) && id < |heap| && n <= |Children(heap[id])|
    ensures r.Some? ==> |r.value| == n
    decreases rank[id], 0, n
  {
    if n == 0 then Some([])
    else
      var c := Children(heap[id])[n - 1];
      assert c in Children(heap[id]);
      match WalkAll(heap, rank, id, n - 1)
      case None => None
      case Some(before) =>
        match Walk(heap, rank, c)
        case None => None
        case Some(v) => Some(before + [v])
  }

  function Zip(keys: seq<Key>, values: seq<Value>): (r: seq<Member>)
    requires |keys| == |values|
    ensures |r| == |keys| && forall i :: 0 <= i < |r| ==> r[i] == Member(KeyText(keys[i]), values[i])
  {
    seq(|keys|, i requires 0 <= i < |keys| => Member(KeyText(keys[i]), values[i]))
  }

  /** The data as `json.dumps` reads it: dicts, lists and tuples as they are. */
  function Load(heap: Heap, rank: seq<nat>, id: nat): Value
    requires WellFormed(heap) && Ranked(heap, rank) && id < |heap|
    decreases rank[id], 1, 0
  {
    match heap[id]
    case Plain(v) => v
    case Subclassed(v) => v
    case Array(tuple, children) => Arr(tuple, LoadAll(heap, rank, id, |children|))
    case Dict(keys, children) => Obj(Zip(keys, LoadAll(heap, rank, id, |children|)))
    case _ => Null
  }

  function LoadAll(heap: Heap, rank: seq<nat>, id: nat, n: nat): (r: seq<Value>)
    requires WellFormed(heap) && Ranked(heap, rank) && id < |heap| && n <= |Children(heap[id])|
    ensures |r| == n
    decreases rank[id], 0, n
  {
    if n == 0 then []
    else
      var c := Children(heap[id])[n - 1];
      assert c in Children(heap[id]);
      LoadAll(heap, rank, id, n - 1) + [Load(heap, rank, c)]
  }

  ghost predicate NativeFrom(heap: Heap, root: nat) {
    forall id: nat :: Reaches(heap, root, id) ==> id < |heap| && Native(heap[id])
  }

  lemma NativeChild(heap: Heap, root: nat, c: nat)
    requires WellFormed(heap) && root < |heap| && NativeFrom(heap, root) && c in Children(heap[root])
    ensures c < |heap| && NativeFrom(heap, c) && Native(heap[root])
  {
    ReachesSelf(heap, root);
    forall id: nat | Reaches(heap, c, id) ensures Reaches(heap, root, id) { ReachesVia(heap, root, c, id); }
  }

  ghost predicate SameText(a: seq<Value>, b: seq<Value>) {
    |a| == |b| && forall i :: 0 <= i < |a| ==> Encode(a[i]) == Encode(b[i])
  }

  lemma {:induction false} WalkAllLoads(heap: Heap, rank: seq<nat>, id: nat, n: nat)
    requires WellFormed(heap) && Ranked(heap, rank) && id < |heap| && n <= |Children(heap[id])| && NativeFrom(heap, id)
    ensures WalkAll(heap, rank, id, n).Some? && SameText(WalkAll(heap, rank, id, n).value, LoadAll(heap, rank, id, n))
    decreases rank[id], 0, n
  {
    if n > 0 {
      var c := Children(heap[id])[n - 1];
      assert c in Children(heap[id]);
      NativeChild(heap, id, c);
      WalkAllLoads(heap, rank, id, n - 1);
      WalkLoads(heap, rank, c);
    }
  }

  lemma ArrayText(t: bool, a: seq<Value>, u: bool, b: seq<Value>)
    requires SameText(a, b)
    ensures Encode(Arr(t, a)) == Encode(Arr(u, b))
  {
    assert EncodeItems(a) == EncodeItems(b);
  }

  lemma ObjectTextSame(keys: seq<Key>, a: seq<Value>, b: seq<Value>)
    requires SameText(a, b) && |keys| == |a|
    ensures Encode(Obj(Zip(keys, a))) == Encode(Obj(Zip(keys, b)))
  {
    assert EncodeMembers(Zip(keys, a)) == EncodeMembers(Zip(keys, b));
    EncodedObject(Zip(keys, a));
    EncodedObject(Zip(keys, b));
  }

  /** On acyclic native data the checked walk accepts and encodes to the fast path's text. */
  lemma {:induction false} WalkLoads(heap: Heap, rank: seq<nat>, id: nat)
    requires WellFormed(heap) && Ranked(heap, rank) && id < |heap| && NativeFrom(heap, id)
    ensures Walk(heap, rank, id).Some? && Encode(Walk(heap, rank, id).value) == Encode(Load(heap, rank, id))
    decreases rank[id], 1, 0
  {
    ReachesSelf(heap, id);
    match heap[id] {
      case Plain(v) =>
      case Array(tuple, children) =>
        WalkAllLoads(heap, rank, id, |children|);
        ArrayText(false, WalkAll(heap, rank, id, |children|).value, tuple, LoadAll(heap, rank, id, |children|));
      case Dict(keys, children) =>
        WalkAllLoads(heap, rank, id, |children|);
        ObjectTextSame(keys, WalkAll(heap, rank, id, |children|).value, LoadAll(heap, rank, id, |children|));
    }
  }

  /** Data the checked walk takes: no unsupported object, string keys. */
  predicate Acceptable(n: Node) {
    !n.Unsupported? && ((n.Dict? || n.Mapped?) ==> TextKeys(n.keys))
  }

  ghost predicate AcceptableFrom(heap: Heap, root: nat) {
    forall id: nat :: Reaches(heap, root, id) ==> id < |heap| && Acceptable(heap[id])
  }

  lemma ReachesFirst(heap: Heap, root: nat, id: nat) returns (c: nat)
    requires Reaches(heap, root, id) && id != root
    ensures root < |heap| && c in Children(heap[root]) && Reaches(heap, c, id)
  {
    var path :| Chain(heap, path) && path[0] == root && path[|path| - 1] == id;
    c := path[1];
    var rest := path[1..];
    forall i | 0 < i < |rest| ensures rest[i] in Children(heap[rest[i - 1]]) {
      assert path[i + 1] in Children(heap[path[i]]);
    }
    assert Chain(heap, rest) && rest[0] == c && rest[|rest| - 1] == id;
  }

  lemma ReachesVia(heap: Heap, root: nat, c: nat, id: nat)
    requires root < |heap| && c in Children(heap[root]) && Reaches(heap, c, id)
    ensures Reaches(heap, root, id)
  {
    var path :| Chain(heap, path) && path[0] == c && path[|path| - 1] == id;
    var longer := [root] + path;
    forall i | 0 < i < |longer| ensures longer[i] in Children(heap[longer[i - 1]]) {
      if i > 1 { assert path[i - 1] in Children(heap[path[i - 2]]); }
    }
    assert Chain(heap, longer);
    assert longer[0] == root && longer[|longer| - 1] == id;
  }

  lemma AcceptableSplit(heap: Heap, root: nat)
    requires WellFormed(heap) && root < |heap|
    ensures AcceptableFrom(heap, root) <==>
      Acceptable(heap[root]) && forall c :: c in Children(heap[root]) ==> AcceptableFrom(heap, c)
  {
    ReachesSelf(heap, root);
    if AcceptableFrom(heap, root) {
      forall c, id: nat | c in Children(heap[root]) && Reaches(heap, c, id) ensures Reaches(heap, root, id) {
        ReachesVia(heap, root, c, id);
      }
    } else if Acceptable(heap[root]) {
      var id: nat :| Reaches(heap, root, id) && !(id < |heap| && Acceptable(heap[id]));
      var c := ReachesFirst(heap, root, id);
      assert !AcceptableFrom(heap, c);
    }
  }

  ghost predicate AcceptableUpTo(heap: Heap, ids: seq<nat>, n: nat)
    requires n <= |ids|
  {
    forall j :: 0 <= j < n ==> AcceptableFrom(heap, ids[j])
  }

  lemma AcceptableNext(heap: Heap, ids: seq<nat>, n: nat)
    requires 0 < n <= |ids|
    ensures AcceptableUpTo(heap, ids, n) <==> AcceptableUpTo(heap, ids, n - 1) && AcceptableFrom(heap, ids[n - 1])
  {
  }

  lemma WalkAllStep(heap: Heap, rank: seq<nat>, id: nat, n: nat)
    requires WellFormed(heap) && Ranked(heap, rank) && id < |heap| && 0 < n <= |Children(heap[id])|
    ensures Children(heap[id])[n - 1] < |heap| && rank[Children(heap[id])[n - 1]] < rank[id]
    ensures WalkAll(heap, rank, id, n).Some? <==>
      WalkAll(heap, rank, id, n - 1).Some? && Walk(heap, rank, Children(heap[id])[n - 1]).Some?
  {
    assert Children(heap[id])[n - 1] in Children(heap[id]);
  }

  lemma {:induction false} WalkAllIff(heap: Heap, rank: seq<nat>, id: nat, n: nat)
    requires WellFormed(heap) && Ranked(heap, rank) && id < |heap| && n <= |Children(heap[id])|
    ensures WalkAll(heap, rank, id, n).Some? <==> AcceptableUpTo(heap, Children(heap[id]), n)
    decreases rank[id], 0, n
  {
    if n > 0 {
      var ids := Children(heap[id]);
      WalkAllStep(heap, rank, id, n);
      assert WalkAll(heap, rank, id, n - 1).Some? == AcceptableUpTo(heap, ids, n - 1) by {
        WalkAllIff(heap, rank, id, n - 1);
      }
      assert Walk(heap, rank, ids[n - 1]).Some? == AcceptableFrom(heap, ids[n - 1]) by {
        WalkAcceptsIff(heap, rank, ids[n - 1]);
      }
      assert AcceptableUpTo(heap, ids, n) == (AcceptableUpTo(heap, ids, n - 1) && AcceptableFrom(heap, ids[n - 1])) by {
        AcceptableNext(heap, ids, n);
      }
    }
  }

  /** The checked walk raises exactly when something reachable is unsupported or has a non-string key. */
  lemma {:induction false} WalkAcceptsIff(heap: Heap, rank: seq<nat>, id: nat)
    requires WellFormed(heap) && Ranked(heap, rank) && id < |heap|
    ensures Walk(heap, rank, id).Some? <==> AcceptableFrom(heap, id)
    decreases rank[id], 1, 0
  {
    WalkAllIff(heap, rank, id, |Children(heap[id])|);
    AcceptableSplit(heap, id);
  }

  // ----- what the checked walk rebuilds

  /** The same data with exact types: scalars as they are, any sequence a list, any mapping its members in order. */
  ghost predicate Rebuilds(heap: Heap, id: nat, v: Value)
    decreases v, 1
  {
    id < |heap| &&
    match heap[id]
    case Plain(s) => v == s
    case Subclassed(s) => v == s
    case Array(_, children) => RebuildsItems(heap, children, v)
    case Sequenced(children) => RebuildsItems(heap, children, v)
    case Dict(keys, children) => RebuildsMembers(heap, keys, children, v)
    case Mapped(keys, children) => RebuildsMembers(heap, keys, children, v)
    case Unsupported => false
  }

  ghost predicate RebuildsItems(heap: Heap, children: seq<nat>, v: Value)
    decreases v, 0
  {
    v.Arr? && !v.tuple && |v.items| == |children| &&
    forall i :: 0 <= i < |children| ==> Rebuilds(heap, children[i], v.items[i])
  }

  ghost predicate RebuildsMembers(heap: Heap, keys: seq<Key>, children: seq<nat>, v: Value)
    decreases v, 0
  {
    v.Obj? && |v.members| == |children| == |keys| &&
    forall i :: 0 <= i < |children| ==>
      !keys[i].Alien? && v.members[i].key == keys[i].s && Rebuilds(heap, children[i], v.members[i].value)
  }

  /** The first children, each rebuilt in its place. */
  ghost predicate RebuildsFirst(heap: Heap, children: seq<nat>, values: seq<Value>) {
    |values| <= |children| && forall i :: 0 <= i < |values| ==> Rebuilds(heap, children[i], values[i])
  }

  lemma RebuildsNext(heap: Heap, children: seq<nat>, before: seq<Value>, v: Value)
    requires |before| < |children| && RebuildsFirst(heap, children, before) && Rebuilds(heap, children[|before|], v)
    ensures RebuildsFirst(heap, children, before + [v])
  {
  }

  lemma WalkAllSnoc(heap: Heap, rank: seq<nat>, id: nat, n: nat)
    requires WellFormed(heap) && Ranked(heap, rank) && id < |heap| && 0 < n <= |Children(heap[id])|
    requires WalkAll(heap, rank, id, n).Some?
    ensures var c := Children(heap[id])[n - 1];
      && c < |heap| && WalkAll(heap, rank, id, n - 1).Some? && Walk(heap, rank, c).Some?
      && WalkAll(heap, rank, id, n).value == WalkAll(heap, rank, id, n - 1).value + [Walk(heap, rank, c).value]
  {
    WalkAllStep(heap, rank, id, n);
  }

  lemma {:induction false} WalkAllRebuilds(heap: Heap, rank: seq<nat>, id: nat, n: nat)
    requires WellFormed(heap) && Ranked(heap, rank) && id < |heap| && n <= |Children(heap[id])|
    ensures WalkAll(heap, rank, id, n).Some? ==>
      RebuildsFirst(heap, Children(heap[id]), WalkAll(heap, rank, id, n).value)
    decreases rank[id], 0, n
  {
    if n > 0 && WalkAll(heap, rank, id, n).Some? {
      var c := Children(heap[id])[n - 1];
      WalkAllStep(heap, rank, id, n);
      WalkAllSnoc(heap, rank, id, n);
      var before := WalkAll(heap, rank, id, n - 1).value;
      assert RebuildsFirst(heap, Children(heap[id]), before) by { WalkAllRebuilds(heap, rank, id, n - 1); }
      assert Rebuilds(heap, c, Walk(heap, rank, c).value) by { WalkRebuilds(heap, rank, c); }
      RebuildsNext(heap, Children(heap[id]), before, Walk(heap, rank, c).value);
    }
  }

  /** Whatever the walk returns is the data rebuilt. */
  lemma {:induction false} WalkRebuilds(heap: Heap, rank: seq<nat>, id: nat)
    requires WellFormed(heap) && Ranked(heap, rank) && id < |heap|
    ensures Walk(heap, rank, id).Some? ==> Rebuilds(heap, id, Walk(heap, rank, id).value)
    decreases rank[id], 1, 0
  {
    WalkAllRebuilds(heap, rank, id, |Children(heap[id])|);
    if (heap[id].Dict? || heap[id].Mapped?) && TextKeys(heap[id].keys) {
      forall i | 0 <= i < |heap[id].keys| ensures !heap[id].keys[i].Alien? { assert heap[id].keys[i] in heap[id].keys; }
    }
  }

  lemma {:induction false} RebuildsUnique(heap: Heap, id: nat, v: Value, w: Value)
    requires Rebuilds(heap, id, v) && Rebuilds(heap, id, w)
    ensures v == w
    decreases v
  {
    match heap[id] {
      case Array(_, children) =>
        forall i | 0 <= i < |children| ensures v.items[i] == w.items[i] {
          RebuildsUnique(heap, children[i], v.items[i], w.items[i]);
        }
      case Sequenced(children) =>
        forall i | 0 <= i < |children| ensures v.items[i] == w.items[i] {
          RebuildsUnique(heap, children[i], v.items[i], w.items[i]);
        }
      case Dict(keys, children) => MembersUnique(heap, keys, children, v, w);
      case Mapped(keys, children) => MembersUnique(heap, keys, children, v, w);
      case _ =>
    }
  }

  lemma {:induction false} MembersUnique(heap: Heap, keys: seq<Key>, children: seq<nat>, v: Value, w: Value)
    requires RebuildsMembers(heap, keys, children, v) && RebuildsMembers(heap, keys, children, w)
    ensures v == w
    decreases v, 0
  {
    forall i | 0 <= i < |children| ensures v.members[i] == w.members[i] {
      RebuildsUnique(heap, children[i], v.members[i].value, w.members[i].value);
    }
  }

  lemma {:induction false} RebuildsAccepts(heap: Heap, v: Value, path: seq<nat>)
    requires WellFormed(heap) && Chain(heap, path) && Rebuilds(heap, path[0], v)
    ensures Acceptable(heap[path[|path| - 1]])
    decreases |path|
  {
    var n := heap[path[0]];
    if n.Dict? || n.Mapped? {
      forall k | k in n.keys ensures !k.Alien? { var i :| 0 <= i < |n.keys| && n.keys[i] == k; }
    }
    if |path| > 1 {
      var rest := path[1..];
      forall i | 0 < i < |rest| ensures rest[i] in Children(heap[rest[i - 1]]) {
        assert path[i + 1] in Children(heap[path[i]]);
      }
      assert path[1] in Children(n);
      var j :| 0 <= j < |Children(n)| && Children(n)[j] == path[1];
      RebuildsAccepts(heap, if v.Arr? then v.items[j] else v.members[j].value, rest);
    }
  }

  /** The walk returns a value exactly when it is the data rebuilt with exact types. */
  lemma WalkIff(heap: Heap, rank: seq<nat>, id: nat, v: Value)
    requires WellFormed(heap) && Ranked(heap, rank) && id < |heap|
    ensures Walk(heap, rank, id) == Some(v) <==> Rebuilds(heap, id, v)
  {
    WalkRebuilds(heap, rank, id);
    if Rebuilds(heap, id, v) {
      forall to: nat | Reaches(heap, id, to) ensures to < |heap| && Acceptable(heap[to]) {
        var path :| Chain(heap, path) && path[0] == id && path[|path| - 1] == to;
        RebuildsAccepts(heap, v, path);
      }
      WalkAcceptsIff(heap, rank, id);
      RebuildsUnique(heap, id, v, Walk(heap, rank, id).value);
    }
  }

  /** `canonical_json_bytes`: the fast path where the data is native, the checked walk elsewhere. */
  method CanonicalText(heap: Heap, rank: seq<nat>, root: nat) returns (text: Option<string>)
    requires WellFormed(heap) && Ranked(heap, rank) && root < |heap|
    ensures text == match Walk(heap, rank, root) case None => None case Some(v) => Some(Encode(v))
    ensures text.None? <==> !AcceptableFrom(heap, root)
    ensures text.Some? ==> exists v :: Rebuilds(heap, root, v) && JsonOutcome.IsTextOf(v, text.value)
  {
    WalkAcceptsIff(heap, rank, root);
    if Walk(heap, rank, root).Some? {
      WalkIff(heap, rank, root, Walk(heap, rank, root).value);
      JsonOutcome.EncodeMeaning(Walk(heap, rank, root).value);
    }
    var native := IsJsonNative(heap, root);
    if native {
      WalkLoads(heap, rank, root);
      return Some(Encode(Load(heap, rank, root)));
    }
    match Walk(heap, rank, root) {
      case None => text := None;
      case Some(v) => text := Some(Encode(v));
    }
  }
}
