/** Exact sums over finite sets of keys and along sequences. */
module Sums {
  import opened Orders

  lemma Distribute(c: real, x: real, y: real)
    ensures c * (x + y) == c * x + c * y
  {
  }

  ghost function Sum<K>(s: set<K>, f: K -> real): real {
    if s == {} then 0.0 else
      var k :| k in s;
      f(k) + Sum(s - {k}, f)
  }

  lemma {:induction false} SumRemove<K>(s: set<K>, f: K -> real, k: K)
    requires k in s
    ensures Sum(s, f) == f(k) + Sum(s - {k}, f)
    decreases |s|
  {
    var j :| j in s && Sum(s, f) == f(j) + Sum(s - {j}, f);
    if j != k {
      SumRemove(s - {j}, f, k);
      SumRemove(s - {k}, f, j);
      assert s - {j} - {k} == s - {k} - {j};
    }
  }

  lemma SumInsert<K>(s: set<K>, f: K -> real, k: K)
    requires k !in s
    ensures Sum(s + {k}, f) == f(k) + Sum(s, f)
  {
    SumRemove(s + {k}, f, k);
    assert s + {k} - {k} == s;
  }

  lemma {:induction false} SumSame<K>(s: set<K>, f: K -> real, g: K -> real)
    requires forall k :: k in s ==> f(k) == g(k)
    ensures Sum(s, f) == Sum(s, g)
    decreases |s|
  {
    if s != {} {
      var k :| k in s;
      SumRemove(s, f, k);
      SumRemove(s, g, k);
      SumSame(s - {k}, f, g);
    }
  }

  lemma {:induction false} SumMonotone<K>(s: set<K>, f: K -> real, g: K -> real)
    requires forall k :: k in s ==> f(k) <= g(k)
    ensures Sum(s, f) <= Sum(s, g)
    ensures (exists k :: k in s && f(k) < g(k)) ==> Sum(s, f) < Sum(s, g)
    decreases |s|
  {
    if s != {} {
      var k :| k in s && ((exists j :: j in s && f(j) < g(j)) ==> f(k) < g(k));
      SumRemove(s, f, k);
      SumRemove(s, g, k);
      SumMonotone(s - {k}, f, g);
    }
  }

  lemma {:induction false} SumAdd<K>(s: set<K>, f: K -> real, g: K -> real, h: K -> real)
    requires forall k :: k in s ==> h(k) == f(k) + g(k)
    ensures Sum(s, h) == Sum(s, f) + Sum(s, g)
    decreases |s|
  {
    if s != {} {
      var k :| k in s;
      SumRemove(s, f, k);
      SumRemove(s, g, k);
      SumRemove(s, h, k);
      SumAdd(s - {k}, f, g, h);
    }
  }

  ghost predicate AdditiveAt(phi: real -> real, x: real, y: real) {
    phi(x + y) == phi(x) + phi(y)
  }

  lemma {:induction false} SumAdditive<K>(s: set<K>, phi: real -> real, f: K -> real, h: K -> real)
    requires phi(0.0) == 0.0 && forall x, y :: AdditiveAt(phi, x, y)
    requires forall k :: k in s ==> h(k) == phi(f(k))
    ensures Sum(s, h) == phi(Sum(s, f))
    decreases |s|
  {
    if s != {} {
      var k :| k in s;
      SumRemove(s, f, k);
      SumRemove(s, h, k);
      SumAdditive(s - {k}, phi, f, h);
      assert AdditiveAt(phi, f(k), Sum(s - {k}, f));
    }
  }

  lemma SumScale<K>(s: set<K>, c: real, f: K -> real, h: K -> real)
    requires forall k :: k in s ==> h(k) == c * f(k)
    ensures Sum(s, h) == c * Sum(s, f)
  {
    var phi := x => c * x;
    forall x, y ensures AdditiveAt(phi, x, y) { Distribute(c, x, y); }
    SumAdditive(s, phi, f, h);
  }

  lemma {:induction false} SumConstant<K>(s: set<K>, f: K -> real, c: real)
    requires forall k :: k in s ==> f(k) == c
    ensures Sum(s, f) == c * |s| as real
    decreases |s|
  {
    if s != {} {
      var k :| k in s;
      SumRemove(s, f, k);
      SumConstant(s - {k}, f, c);
      Distribute(c, 1.0, (|s| - 1) as real);
    }
  }

  lemma SumNonNegative<K>(s: set<K>, f: K -> real)
    requires forall k :: k in s ==> f(k) >= 0.0
    ensures Sum(s, f) >= 0.0
    ensures Sum(s, f) > 0.0 <==> exists k :: k in s && f(k) > 0.0
  {
    var zero := (k: K) => 0.0;
    SumConstant(s, zero, 0.0);
    SumMonotone(s, zero, f);
    if k :| k in s && f(k) > 0.0 {
      assert zero(k) < f(k);
    } else {
      SumConstant(s, f, 0.0);
    }
  }

  /** The terms outside `t` vanish. */
  lemma {:induction false} SumSupport<K>(s: set<K>, t: set<K>, f: K -> real)
    requires t <= s && forall k :: k in s - t ==> f(k) == 0.0
    ensures Sum(s, f) == Sum(t, f)
    decreases |s|
  {
    if s != t {
      assert exists k :: k in s && k !in t;
      var k :| k in s && k !in t;
      SumRemove(s, f, k);
      SumSupport(s - {k}, t, f);
    }
  }

  /** Renaming the keys one to one keeps the sum. */
  lemma {:induction false} SumRename<K, L>(s: set<K>, t: set<L>, of: K -> L, f: K -> real, g: L -> real)
    requires forall k :: k in s ==> of(k) in t && g(of(k)) == f(k)
    requires forall j, k :: j in s && k in s && of(j) == of(k) ==> j == k
    requires forall l :: l in t ==> exists k :: k in s && of(k) == l
    ensures Sum(s, f) == Sum(t, g)
    decreases |s|
  {
    if s == {} {
      assert t == {};
    } else {
      var k :| k in s;
      SumRemove(s, f, k);
      SumRemove(t, g, of(k));
      SumRename(s - {k}, t - {of(k)}, of, f, g);
    }
  }

  ghost predicate Proportional<K>(s: set<K>, pool: real, credit: K -> real, total: real, share: K -> real)
    requires total > 0.0
  {
    forall k :: k in s ==> share(k) == pool * (credit(k) / total)
  }

  /** A pool split in proportion to credits is handed out whole. */
  lemma SumProportional<K>(s: set<K>, pool: real, credit: K -> real, total: real, share: K -> real)
    requires total > 0.0 && Sum(s, credit) == total && Proportional(s, pool, credit, total, share)
    ensures Sum(s, share) == pool
  {
    var rate := pool / total;
    forall k | k in s ensures share(k) == rate * credit(k) { Regroup(pool, credit(k), total); }
    SumScale(s, rate, credit, share);
    assert rate * total == pool;
  }

  lemma Regroup(m: real, c: real, n: real)
    requires n > 0.0
    ensures m * (c / n) == m / n * c
  {
  }

  lemma SumRaised<H>(groups: set<H>, f: H -> real, g: H -> real, at: H, gain: real)
    requires at in groups && f(at) == gain + g(at) && forall h :: h in groups - {at} ==> f(h) == g(h)
    ensures Sum(groups, f) == gain + Sum(groups, g)
  {
    SumRemove(groups, f, at);
    SumRemove(groups, g, at);
    SumSame(groups - {at}, f, g);
  }

  lemma FiberWith<K, H>(s: set<K>, of: K -> H, k: K, h: H)
    requires k in s
    ensures Fiber(s, of, h) == if of(k) == h then Fiber(s - {k}, of, h) + {k} else Fiber(s - {k}, of, h)
  {
  }

  /** Grouping: summing each group and then the groups gives the whole sum. */
  lemma {:induction false} SumFibers<K, H>(s: set<K>, f: K -> real, groups: set<H>, of: K -> H, grouped: H -> real)
    requires forall k :: k in s ==> of(k) in groups
    requires forall h :: h in groups ==> grouped(h) == Sum(Fiber(s, of, h), f)
    ensures Sum(groups, grouped) == Sum(s, f)
    decreases |s|
  {
    if s == {} {
      forall h | h in groups ensures grouped(h) == 0.0 {
        assert Fiber(s, of, h) == {};
      }
      SumConstant(groups, grouped, 0.0);
    } else {
      var k :| k in s;
      var rest := s - {k};
      var smaller := (h: H) => Sum(Fiber(rest, of, h), f);
      SumFibers(rest, f, groups, of, smaller);
      forall h | h in groups - {of(k)} ensures grouped(h) == smaller(h) { FiberWith(s, of, k, h); }
      FiberWith(s, of, k, of(k));
      SumInsert(Fiber(rest, of, of(k)), f, k);
      SumRaised(groups, grouped, smaller, of(k), f(k));
      SumRemove(s, f, k);
    }
  }

  /** The keys of `s` that `of` sends to `h`. */
  ghost function Fiber<K, H>(s: set<K>, of: K -> H, h: H): set<K> {
    set k | k in s && of(k) == h
  }

  /** An integer sum, read off the exact one. */
  ghost function SumInt<K>(s: set<K>, f: K -> int): int {
    Sum(s, k => f(k) as real).Floor
  }

  lemma {:induction false} SumIntExact<K>(s: set<K>, f: K -> int, g: K -> real)
    requires forall k :: k in s ==> g(k) == f(k) as real
    ensures SumInt(s, f) as real == Sum(s, g)
    decreases |s|
  {
    var h := (k: K) => f(k) as real;
    SumSame(s, g, h);
    if s != {} {
      var k :| k in s;
      SumRemove(s, h, k);
      SumIntExact(s - {k}, f, h);
      assert Sum(s, h) == (f(k) + SumInt(s - {k}, f)) as real;
    }
  }

  lemma SumIntInsert<K>(s: set<K>, f: K -> int, k: K)
    requires k !in s
    ensures SumInt(s + {k}, f) == f(k) + SumInt(s, f)
  {
    var h := (k: K) => f(k) as real;
    SumInsert(s, h, k);
    SumIntExact(s, f, h);
    SumIntExact(s + {k}, f, h);
  }

  lemma SumIntAdd<K>(s: set<K>, f: K -> int, g: K -> int, h: K -> int)
    requires forall k :: k in s ==> h(k) == f(k) + g(k)
    ensures SumInt(s, h) == SumInt(s, f) + SumInt(s, g)
  {
    var rf, rg, rh := (k: K) => f(k) as real, (k: K) => g(k) as real, (k: K) => h(k) as real;
    SumAdd(s, rf, rg, rh);
    SumIntExact(s, f, rf);
    SumIntExact(s, g, rg);
    SumIntExact(s, h, rh);
  }

  lemma SumIntSame<K>(s: set<K>, f: K -> int, g: K -> int)
    requires forall k :: k in s ==> f(k) == g(k)
    ensures SumInt(s, f) == SumInt(s, g)
  {
    var h := (k: K) => f(k) as real;
    SumIntExact(s, f, h);
    SumIntExact(s, g, h);
  }

  lemma SumIntFibers<K, H>(s: set<K>, f: K -> int, groups: set<H>, of: K -> H, grouped: H -> int)
    requires forall k :: k in s ==> of(k) in groups
    requires forall h :: h in groups ==> grouped(h) == SumInt(Fiber(s, of, h), f)
    ensures SumInt(groups, grouped) == SumInt(s, f)
  {
    var fr, gr := (k: K) => f(k) as real, (h: H) => grouped(h) as real;
    forall h | h in groups ensures gr(h) == Sum(Fiber(s, of, h), fr) {
      SumIntExact(Fiber(s, of, h), f, fr);
    }
    SumFibers(s, fr, groups, of, gr);
    SumIntExact(s, f, fr);
    SumIntExact(groups, grouped, gr);
  }

  lemma SumIntSupport<K>(s: set<K>, t: set<K>, f: K -> int)
    requires t <= s && forall k :: k in s - t ==> f(k) == 0
    ensures SumInt(s, f) == SumInt(t, f)
  {
    SumSupport(s, t, (k: K) => f(k) as real);
  }

  // ----- sums along a sequence

  function SumSeq<T>(items: seq<T>, f: T -> int): int {
    if items == [] then 0 else f(items[0]) + SumSeq(items[1..], f)
  }

  lemma {:induction false} SumSeqSnoc<T>(items: seq<T>, x: T, f: T -> int)
    ensures SumSeq(items + [x], f) == SumSeq(items, f) + f(x)
  {
    if items == [] {
      assert items + [x] == [x];
    } else {
      assert (items + [x])[1..] == items[1..] + [x];
      SumSeqSnoc(items[1..], x, f);
    }
  }

  lemma {:induction false} SumSeqConcat<T>(a: seq<T>, b: seq<T>, f: T -> int)
    ensures SumSeq(a + b, f) == SumSeq(a, f) + SumSeq(b, f)
  {
    if a == [] {
      assert a + b == b;
    } else {
      assert (a + b)[1..] == a[1..] + b;
      SumSeqConcat(a[1..], b, f);
    }
  }

  lemma RemoveAt<T>(t: seq<T>, i: nat)
    requires i < |t|
    ensures multiset(t[..i] + t[i + 1..]) == multiset(t) - multiset{t[i]}
  {
    assert t == t[..i] + [t[i]] + t[i + 1..];
  }

  lemma SumSeqRemove<T>(t: seq<T>, i: nat, f: T -> int)
    requires i < |t|
    ensures SumSeq(t, f) == f(t[i]) + SumSeq(t[..i] + t[i + 1..], f)
  {
    var tail := [t[i]] + t[i + 1..];
    assert t == t[..i] + tail && tail[1..] == t[i + 1..];
    SumSeqConcat(t[..i], tail, f);
    SumSeqConcat(t[..i], t[i + 1..], f);
  }

  lemma {:induction false} SumSeqPermutation<T>(s: seq<T>, t: seq<T>, f: T -> int)
    requires multiset(s) == multiset(t)
    ensures SumSeq(s, f) == SumSeq(t, f)
  {
    if s == [] {
      assert |multiset(t)| == 0;
    } else {
      assert s[0] in multiset(t);
      var i :| 0 <= i < |t| && t[i] == s[0];
      RemoveAt(t, i);
      TailContents(s);
      SumSeqPermutation(s[1..], t[..i] + t[i + 1..], f);
      SumSeqRemove(t, i, f);
    }
  }

  lemma {:induction false} SumSeqZero<T>(items: seq<T>, f: T -> int)
    requires forall i :: i in items ==> f(i) >= 0
    ensures SumSeq(items, f) >= 0 && (SumSeq(items, f) == 0 ==> forall i :: i in items ==> f(i) == 0)
  {
    if items != [] {
      SumSeqZero(items[1..], f);
      assert items == [items[0]] + items[1..];
    }
  }
}
