/** Orders and sorting: the lexicographic order Python uses on strings, and `sorted` on sequences. */
module Orders {

  /** Python's `<=` on strings: lexicographic by code point. */
  predicate StrLeq(a: string, b: string) {
    a == [] || (b != [] && (a[0] < b[0] || (a[0] == b[0] && StrLeq(a[1..], b[1..]))))
  }

  predicate StrLess(a: string, b: string) {
    a != b && StrLeq(a, b)
  }

  /** Dictionary order: a prefix, or smaller at the first difference. */
  ghost predicate Alphabetical(a: string, b: string) {
    a <= b || exists n :: 0 <= n < |a| && n < |b| && SmallerAt(a, b, n)
  }

  ghost predicate SmallerAt(a: string, b: string, n: nat)
    requires n < |a| && n < |b|
  {
    a[..n] == b[..n] && a[n] < b[n]
  }

  lemma SmallerTail(a: string, b: string, n: nat)
    requires 0 < n < |a| && n < |b|
    ensures SmallerAt(a, b, n) <==> a[0] == b[0] && SmallerAt(a[1..], b[1..], n - 1)
  {
    assert a[..n] == [a[0]] + a[1..][..n - 1] && b[..n] == [b[0]] + b[1..][..n - 1];
  }

  lemma PrefixTail(a: string, b: string)
    requires a != [] && b != []
    ensures a <= b <==> a[0] == b[0] && a[1..] <= b[1..]
  {
    assert a == [a[0]] + a[1..] && b == [b[0]] + b[1..];
    if a <= b { assert a[1..] == b[1..][..|a| - 1]; }
  }

  lemma {:induction false} StrLeqMeaning(a: string, b: string)
    ensures StrLeq(a, b) <==> Alphabetical(a, b)
  {
    if a != [] && b != [] {
      StrLeqMeaning(a[1..], b[1..]);
      PrefixTail(a, b);
      if a[0] < b[0] { assert SmallerAt(a, b, 0); }
      if n :| 0 <= n < |a| && n < |b| && SmallerAt(a, b, n) {
        if n > 0 { SmallerTail(a, b, n); }
      }
      if n :| 0 <= n < |a[1..]| && n < |b[1..]| && SmallerAt(a[1..], b[1..], n) {
        SmallerTail(a, b, n + 1);
      }
    }
  }

  lemma {:induction false} StrTotal(a: string, b: string)
    ensures StrLeq(a, b) || StrLeq(b, a)
    ensures StrLeq(a, a)
  {
    if a != [] {
      StrTotal(a[1..], if b == [] then b else b[1..]);
    }
  }

  lemma {:induction false} StrAntisymmetric(a: string, b: string)
    requires StrLeq(a, b) && StrLeq(b, a)
    ensures a == b
  {
    if a != [] && b != [] {
      StrAntisymmetric(a[1..], b[1..]);
      assert a == [a[0]] + a[1..] && b == [b[0]] + b[1..];
    }
  }

  lemma {:induction false} StrTransitive(a: string, b: string, c: string)
    requires StrLeq(a, b) && StrLeq(b, c)
    ensures StrLeq(a, c)
  {
    if a != [] && a[0] == b[0] == c[0] {
      StrTransitive(a[1..], b[1..], c[1..]);
    }
  }

  ghost predicate TotalPreorder<T(!new)>(leq: (T, T) -> bool) {
    && (forall a, b :: leq(a, b) || leq(b, a))
    && (forall a, b, c :: leq(a, b) && leq(b, c) ==> leq(a, c))
  }

  /** The elements of `s` are told apart by their sort keys. */
  ghost predicate KeysDistinguish<T>(leq: (T, T) -> bool, s: seq<T>) {
    forall a, b :: a in s && b in s && leq(a, b) && leq(b, a) ==> a == b
  }

  ghost predicate Sorted<T>(leq: (T, T) -> bool, s: seq<T>) {
    forall i, j :: 0 <= i < j < |s| ==> leq(s[i], s[j])
  }

  function Insert<T>(leq: (T, T) -> bool, x: T, s: seq<T>): seq<T> {
    if s == [] || leq(x, s[0]) then [x] + s else [s[0]] + Insert(leq, x, s[1..])
  }

  /** Python's `sorted(s, key=...)`, the key given by its order. */
  function Sort<T>(leq: (T, T) -> bool, s: seq<T>): seq<T> {
    if s == [] then [] else Insert(leq, s[0], Sort(leq, s[1..]))
  }

  lemma {:induction false} InsertContents<T>(leq: (T, T) -> bool, x: T, s: seq<T>)
    ensures multiset(Insert(leq, x, s)) == multiset{x} + multiset(s)
  {
    if s != [] {
      assert s == [s[0]] + s[1..];
      InsertContents(leq, x, s[1..]);
    }
  }

  lemma {:induction false} InsertSorted<T(!new)>(leq: (T, T) -> bool, x: T, s: seq<T>)
    requires TotalPreorder(leq) && Sorted(leq, s)
    ensures Sorted(leq, Insert(leq, x, s))
  {
    if s != [] && !leq(x, s[0]) {
      InsertSorted(leq, x, s[1..]);
      InsertContents(leq, x, s[1..]);
      var t := Insert(leq, x, s[1..]);
      forall k | 0 <= k < |t| ensures leq(s[0], t[k]) {
        assert t[k] in multiset(t);
        assert t[k] == x || t[k] in s[1..];
      }
    }
  }

  lemma {:induction false} SortContents<T>(leq: (T, T) -> bool, s: seq<T>)
    ensures multiset(Sort(leq, s)) == multiset(s)
    ensures |Sort(leq, s)| == |s|
  {
    if s != [] {
      assert s == [s[0]] + s[1..];
      SortContents(leq, s[1..]);
      InsertContents(leq, s[0], Sort(leq, s[1..]));
    }
    assert |multiset(Sort(leq, s))| == |Sort(leq, s)|;
  }

  lemma {:induction false} SortSorted<T(!new)>(leq: (T, T) -> bool, s: seq<T>)
    requires TotalPreorder(leq)
    ensures Sorted(leq, Sort(leq, s))
  {
    if s != [] {
      SortSorted(leq, s[1..]);
      InsertSorted(leq, s[0], Sort(leq, s[1..]));
    }
  }

  lemma SortedHeads<T>(leq: (T, T) -> bool, s: seq<T>, t: seq<T>)
    requires Sorted(leq, s) && Sorted(leq, t) && multiset(s) == multiset(t) && s != []
    requires KeysDistinguish(leq, s)
    ensures t != [] && s[0] == t[0]
  {
    assert s[0] in multiset(t);
    assert t[0] in multiset(s);
    var i :| 0 <= i < |s| && s[i] == t[0];
    var j :| 0 <= j < |t| && t[j] == s[0];
    if i > 0 && j > 0 {
      assert leq(s[0], s[i]) && leq(t[0], t[j]);
    }
  }

  lemma TailContents<T>(s: seq<T>)
    requires s != []
    ensures multiset(s[1..]) == multiset(s) - multiset{s[0]}
  {
    assert s == [s[0]] + s[1..];
  }

  lemma TailDistinguished<T>(leq: (T, T) -> bool, s: seq<T>)
    requires s != [] && KeysDistinguish(leq, s)
    ensures KeysDistinguish(leq, s[1..])
  {
    assert forall a :: a in s[1..] ==> a in s;
  }

  lemma HeadAndTail<T>(s: seq<T>)
    requires s != []
    ensures s == [s[0]] + s[1..]
  {
  }

  /** Two sorted arrangements of the same rows coincide when the keys tell the rows apart. */
  lemma {:induction false} SortedUnique<T>(leq: (T, T) -> bool, s: seq<T>, t: seq<T>)
    requires Sorted(leq, s) && Sorted(leq, t) && multiset(s) == multiset(t)
    requires KeysDistinguish(leq, s)
    ensures s == t
  {
    if s == [] {
      assert |multiset(t)| == 0;
    } else {
      SortedHeads(leq, s, t);
      TailContents(s);
      TailContents(t);
      TailDistinguished(leq, s);
      SortedUnique(leq, s[1..], t[1..]);
      HeadAndTail(s);
      HeadAndTail(t);
    }
  }

  /** Sorting forgets the order its input came in. */
  lemma SortPermutation<T(!new)>(leq: (T, T) -> bool, s: seq<T>, t: seq<T>)
    requires TotalPreorder(leq) && KeysDistinguish(leq, s)
    requires multiset(s) == multiset(t)
    ensures Sort(leq, s) == Sort(leq, t)
  {
    SortContents(leq, s);
    SortContents(leq, t);
    SortSorted(leq, s);
    SortSorted(leq, t);
    forall a | a in Sort(leq, s) ensures a in s {
      assert a in multiset(Sort(leq, s));
    }
    SortedUnique(leq, Sort(leq, s), Sort(leq, t));
  }

  ghost predicate Distinct<T>(s: seq<T>) {
    forall i, j :: 0 <= i < j < |s| ==> s[i] != s[j]
  }

  function Elements<T>(s: seq<T>): set<T> {
    set x | x in s
  }

  /** A list as long as the set of its elements has no repetition. */
  lemma {:induction false} SizeDistinct<T>(list: seq<T>)
    ensures |Elements(list)| <= |list| && (|Elements(list)| == |list| ==> Distinct(list))
  {
    if list != [] {
      var rest := list[1..];
      SizeDistinct(rest);
      assert Elements(list) == Elements(rest) + {list[0]};
      if list[0] in rest { assert Elements(list) == Elements(rest); }
      else {
        forall i, j | 0 <= i < j < |list| && Distinct(rest) ensures list[i] != list[j] {
          assert list[j] == rest[j - 1];
          if i > 0 { assert list[i] == rest[i - 1]; }
        }
      }
    }
  }

  lemma DistinctConcat<T>(a: seq<T>, b: seq<T>)
    requires Distinct(a) && Distinct(b) && forall x :: x in a ==> x !in b
    ensures Distinct(a + b)
  {
    forall i, j | 0 <= i < j < |a + b| ensures (a + b)[i] != (a + b)[j] {
      if i < |a| <= j { assert a[i] in a && b[j - |a|] in b; }
    }
  }

  lemma {:induction false} DistinctSize<T>(s: seq<T>)
    requires Distinct(s)
    ensures |Elements(s)| == |s|
  {
    if s != [] {
      DistinctSize(s[1..]);
      assert Elements(s) == Elements(s[1..]) + {s[0]};
    }
  }

  /** Moving one element from what is to do to what is done. */
  lemma Shift<T>(all: set<T>, todo: set<T>, x: T)
    requires todo <= all && x in todo
    ensures all - (todo - {x}) == all - todo + {x} && x !in all - todo
  {
  }

  lemma Surplus<T>(a: set<T>, b: set<T>) returns (x: T)
    requires a <= b && a != b
    ensures x in b && x !in a
  {
    x :| x in b && x !in a;
  }

  lemma {:induction false} Enumerate<T>(s: set<T>) returns (e: seq<T>)
    ensures Distinct(e) && |e| == |s| && forall x :: x in e <==> x in s
  {
    e := [];
    if s != {} {
      var x :| x in s;
      var rest := Enumerate(s - {x});
      e := [x] + rest;
    }
  }

  ghost function Image<T, K>(s: seq<T>, key: T -> K): set<K> {
    set x | x in s :: key(x)
  }

  lemma {:induction false} ImageAtMost<T, K>(s: seq<T>, key: T -> K)
    ensures |Image(s, key)| <= |s|
  {
    if s != [] {
      ImageAtMost(s[1..], key);
      assert Image(s, key) == Image(s[1..], key) + {key(s[0])};
    }
  }

  /** `len({key(x) for x in s}) == len(s)`: equal keys are equal positions. */
  lemma {:induction false} KeysDistinct<T, K>(s: seq<T>, key: T -> K, i: nat, j: nat)
    requires |Image(s, key)| == |s| && i < j < |s|
    ensures key(s[i]) != key(s[j])
  {
    if key(s[i]) == key(s[j]) {
      var without := s[..j] + s[j + 1..];
      assert without[i] == s[i];
      forall x | x in s ensures key(x) in Image(without, key) {
        var n :| 0 <= n < |s| && s[n] == x;
        if n == j { assert key(x) == key(without[i]); }
        else { assert without[if n < j then n else n - 1] == x; }
      }
      assert Image(s, key) <= Image(without, key);
      assert Image(without, key) == Image(s, key) + (Image(without, key) - Image(s, key));
      ImageAtMost(without, key);
    }
  }

  /** Keys that differ at every two positions are as many as the positions. */
  lemma {:induction false} DistinctKeys<T, K>(s: seq<T>, key: T -> K)
    requires forall i, j :: 0 <= i < j < |s| ==> key(s[i]) != key(s[j])
    ensures |Image(s, key)| == |s|
  {
    if s != [] {
      DistinctKeys(s[1..], key);
      assert Image(s, key) == Image(s[1..], key) + {key(s[0])};
      forall x | x in s[1..] ensures key(x) != key(s[0]) {
        var j :| 0 <= j < |s[1..]| && s[1..][j] == x;
        assert x == s[j + 1];
      }
    }
  }

  /** Distinct keys tell the rows apart, so sorting by them is canonical. */
  lemma KeyedDistinguish<T, K>(leq: (T, T) -> bool, s: seq<T>, key: T -> K)
    requires |Image(s, key)| == |s|
    requires forall a, b :: a in s && b in s && leq(a, b) && leq(b, a) ==> key(a) == key(b)
    ensures KeysDistinguish(leq, s)
  {
    forall a, b | a in s && b in s && leq(a, b) && leq(b, a) ensures a == b {
      var i :| 0 <= i < |s| && s[i] == a;
      var j :| 0 <= j < |s| && s[j] == b;
      if i < j { KeysDistinct(s, key, i, j); } else if j < i { KeysDistinct(s, key, j, i); }
    }
  }

  lemma DistinctPermutation<T>(s: seq<T>, t: seq<T>)
    requires Distinct(s) && multiset(s) == multiset(t)
    ensures Distinct(t)
  {
    forall i, j | 0 <= i < j < |t| ensures t[i] != t[j] {
      if t[i] == t[j] {
        assert t == t[..i] + [t[i]] + t[i+1..j] + [t[j]] + t[j+1..];
        assert multiset(t)[t[i]] >= 2;
        CountAtMostOnce(s, t[i]);
      }
    }
  }

  lemma {:induction false} CountAtMostOnce<T>(s: seq<T>, x: T)
    requires Distinct(s)
    ensures multiset(s)[x] <= 1
  {
    if s != [] {
      CountAtMostOnce(s[1..], x);
      assert s == [s[0]] + s[1..];
      assert s[0] !in s[1..];
    }
  }

  /** `sorted` of a set of strings. */
  method SortedKeys(s: set<string>) returns (keys: seq<string>)
    ensures Distinct(keys) && Sorted(StrLeq, keys)
    ensures forall k :: k in keys <==> k in s
  {
    keys := [];
    var todo := s;
    while todo != {}
      invariant todo <= s && Distinct(keys) && Sorted(StrLeq, keys)
      invariant forall k :: k in keys <==> k in s - todo
      decreases todo
    {
      var k :| k in todo;
      InsertFresh(k, keys);
      keys := Insert(StrLeq, k, keys);
      todo := todo - {k};
    }
  }

  lemma InsertFresh(k: string, keys: seq<string>)
    requires Distinct(keys) && Sorted(StrLeq, keys) && k !in keys
    ensures Distinct(Insert(StrLeq, k, keys)) && Sorted(StrLeq, Insert(StrLeq, k, keys))
    ensures forall x :: x in Insert(StrLeq, k, keys) <==> x == k || x in keys
  {
    var wider := Insert(StrLeq, k, keys);
    StrPreorder();
    InsertSorted(StrLeq, k, keys);
    InsertContents(StrLeq, k, keys);
    assert multiset(wider) == multiset([k] + keys);
    DistinctPermutation([k] + keys, wider);
    forall x ensures x in wider <==> x == k || x in keys {
      assert x in wider <==> x in multiset(wider);
    }
  }

  lemma SortElements<T>(leq: (T, T) -> bool, s: seq<T>, x: T)
    ensures x in Sort(leq, s) <==> x in s
  {
    SortContents(leq, s);
    assert x in multiset(Sort(leq, s)) <==> x in multiset(s);
  }

  lemma StrPreorder()
    ensures TotalPreorder(StrLeq)
  {
    forall a, b ensures StrLeq(a, b) || StrLeq(b, a) { StrTotal(a, b); }
    forall a, b, c | StrLeq(a, b) && StrLeq(b, c) ensures StrLeq(a, c) { StrTransitive(a, b, c); }
  }

  ghost predicate Pairwise<T>(r: (T, T) -> bool, s: seq<T>) {
    forall i, j :: 0 <= i < j < |s| ==> r(s[i], s[j])
  }

  /** The elements that pass, in order. */
  function Keep<T>(s: seq<T>, f: T -> bool): seq<T> {
    if s == [] then [] else Keep(s[..|s| - 1], f) + (if f(s[|s| - 1]) then [s[|s| - 1]] else [])
  }

  lemma KeepNext<T>(s: seq<T>, f: T -> bool, i: nat)
    requires i < |s|
    ensures Keep(s[..i + 1], f) == Keep(s[..i], f) + (if f(s[i]) then [s[i]] else [])
  {
    assert s[..i + 1][..i] == s[..i];
  }

  lemma {:induction false} KeepElements<T>(s: seq<T>, f: T -> bool)
    ensures forall x :: x in Keep(s, f) <==> x in s && f(x)
  {
    if s != [] {
      KeepElements(s[..|s| - 1], f);
      assert s == s[..|s| - 1] + [s[|s| - 1]];
    }
  }

  lemma {:induction false} KeepPrefix<T>(s: seq<T>, f: T -> bool, n: nat)
    requires n <= |s|
    ensures Keep(s[..n], f) <= Keep(s, f)
  {
    if n == |s| {
      assert s[..n] == s;
    } else {
      KeepPrefix(s[..|s| - 1], f, n);
      assert s[..|s| - 1][..n] == s[..n];
    }
  }

  ghost predicate Rising(at: seq<nat>) {
    forall j, k :: 0 <= j < k < |at| ==> at[j] < at[k]
  }

  /** What is kept is found at rising positions, which are all that pass. */
  ghost predicate KeptAt<T>(s: seq<T>, f: T -> bool, at: seq<nat>) {
    && Rising(at) && |at| == |Keep(s, f)|
    && (forall k :: 0 <= k < |at| ==> at[k] < |s| && Keep(s, f)[k] == s[at[k]])
    && forall i :: 0 <= i < |s| ==> (i in at <==> f(s[i]))
  }

  lemma KeptSkip<T>(s: seq<T>, f: T -> bool, at: seq<nat>, x: T)
    requires KeptAt(s, f, at) && !f(x)
    ensures KeptAt(s + [x], f, at)
  {
    assert (s + [x])[..|s|] == s && |s| !in at;
  }

  lemma KeptTake<T>(s: seq<T>, f: T -> bool, at: seq<nat>, x: T)
    requires KeptAt(s, f, at) && f(x)
    ensures KeptAt(s + [x], f, at + [|s|])
  {
    assert (s + [x])[..|s|] == s && (at + [|s|])[|at|] == |s|;
    forall i | 0 <= i < |s + [x]| ensures i in at + [|s|] <==> f((s + [x])[i]) {
      assert i in at + [|s|] <==> i in at || i == |s|;
    }
  }

  lemma {:induction false} KeepPositions<T>(s: seq<T>, f: T -> bool) returns (at: seq<nat>)
    ensures KeptAt(s, f, at)
  {
    at := [];
    if s != [] {
      var init, x := s[..|s| - 1], s[|s| - 1];
      assert s == init + [x];
      at := KeepPositions(init, f);
      if f(x) {
        KeptTake(init, f, at, x);
        at := at + [|init|];
      } else {
        KeptSkip(init, f, at, x);
      }
    }
  }

  lemma KeepNone<T>(s: seq<T>, f: T -> bool)
    ensures Keep(s, f) == [] <==> forall x :: x in s ==> !f(x)
  {
    KeepElements(s, f);
    if Keep(s, f) != [] { assert Keep(s, f)[0] in Keep(s, f); }
  }

  lemma {:induction false} TwicePositions<T>(s: seq<T>, x: T) returns (i: nat, j: nat)
    requires multiset(s)[x] >= 2
    ensures i < j < |s| && s[i] == x == s[j]
  {
    assert s == [s[0]] + s[1..];
    if s[0] == x {
      assert x in multiset(s[1..]);
      var k :| 0 <= k < |s[1..]| && s[1..][k] == x;
      i, j := 0, k + 1;
    } else {
      var a, b := TwicePositions(s[1..], x);
      i, j := a + 1, b + 1;
    }
  }

  /** A symmetric relation that holds pairwise still does after reordering. */
  lemma PairwisePermutation<T>(r: (T, T) -> bool, s: seq<T>, t: seq<T>)
    requires Pairwise(r, s) && multiset(s) == multiset(t)
    requires forall a, b :: a in s && b in s && r(a, b) ==> r(b, a)
    ensures Pairwise(r, t)
  {
    forall i, j | 0 <= i < j < |t| ensures r(t[i], t[j]) {
      assert t[i] in multiset(s) && t[j] in multiset(s);
      if t[i] == t[j] {
        assert t == t[..i] + [t[i]] + t[i + 1..j] + [t[j]] + t[j + 1..];
        var a, b := TwicePositions(s, t[i]);
      } else {
        var a :| 0 <= a < |s| && s[a] == t[i];
        var b :| 0 <= b < |s| && s[b] == t[j];
        if a < b { assert r(s[a], s[b]); } else { assert r(s[b], s[a]); }
      }
    }
  }

  /** Appending to a list that is pairwise related. */
  lemma PairwiseSnoc<T>(r: (T, T) -> bool, s: seq<T>, x: T)
    ensures Pairwise(r, s + [x]) <==> Pairwise(r, s) && forall y :: y in s ==> r(y, x)
  {
    var t := s + [x];
    if Pairwise(r, t) {
      forall i, j | 0 <= i < j < |s| ensures r(s[i], s[j]) { assert r(t[i], t[j]); }
      forall y | y in s ensures r(y, x) {
        var i :| 0 <= i < |s| && s[i] == y;
        assert r(t[i], t[|s|]);
      }
    }
    if Pairwise(r, s) && forall y :: y in s ==> r(y, x) {
      forall i, j | 0 <= i < j < |t| ensures r(t[i], t[j]) {
        if j < |s| { assert r(s[i], s[j]); } else { assert t[i] == s[i] && s[i] in s; }
      }
    }
  }

  // ----- elements, subsets and concatenation

  /** A permutation has the same elements. */
  lemma SameElements<T>(s: seq<T>, t: seq<T>)
    requires multiset(s) == multiset(t)
    ensures |s| == |t| && Elements(s) == Elements(t) && (s == [] <==> t == [])
    ensures forall x :: x in s <==> x in t
  {
    assert |multiset(s)| == |s| && |multiset(t)| == |t|;
    forall x ensures x in s <==> x in t { assert x in s <==> x in multiset(s); }
  }

  lemma SubsetSize<T>(a: set<T>, b: set<T>)
    requires a <= b
    ensures |a| <= |b|
  {
    assert b == a + (b - a);
  }

  lemma SubsetSame<T>(a: set<T>, b: set<T>)
    requires a <= b && |a| == |b|
    ensures a == b
  {
    if x :| x in b && x !in a { SubsetSize(a, b - {x}); }
  }

  lemma SameSizeIff<T>(a: set<T>, b: set<T>)
    requires a <= b
    ensures |a| == |b| <==> a == b
  {
    if |a| == |b| { SubsetSame(a, b); }
  }

  lemma Regroup<T>(a: seq<T>, b: seq<T>, c: seq<T>)
    ensures (a + b) + c == a + (b + c)
  {
  }
}
