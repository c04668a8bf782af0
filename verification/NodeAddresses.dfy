/** Wildcard module addresses and member ownership (`cacheon/_strict.py`, `cacheon/target_catalog.py`). */
module NodeAddresses {
  import opened Orders
  import opened Wrappers

  /** `s.split(".")` */
  function Split(s: string): seq<string> {
    if s == "" then [""]
    else
      var rest := Split(s[1..]);
      if s[0] == '.' then [""] + rest else [[s[0]] + rest[0]] + rest[1..]
  }

  lemma {:induction false} SplitNonEmpty(s: string)
    ensures |Split(s)| >= 1
  {
    if s != "" { SplitNonEmpty(s[1..]); }
  }

  function Dotted(segments: seq<string>): string {
    if segments == [] then "" else if |segments| == 1 then segments[0] else segments[0] + "." + Dotted(segments[1..])
  }

  /** The segments are the dotless pieces of the name, in order. */
  lemma {:induction false} SplitMeaning(s: string)
    ensures |Split(s)| >= 1 && Dotted(Split(s)) == s
    ensures forall segment :: segment in Split(s) ==> '.' !in segment
  {
    if s != "" {
      SplitMeaning(s[1..]);
      var rest := Split(s[1..]);
      if s[0] == '.' {
        assert ([""] + rest)[1..] == rest;
        assert "" + "." + s[1..] == s;
      } else {
        assert ([[s[0]] + rest[0]] + rest[1..])[1..] == rest[1..];
        assert [s[0]] + s[1..] == s;
        if |rest| > 1 {
          Regroup([s[0]], rest[0], "." + Dotted(rest[1..]));
          Regroup([s[0]] + rest[0], ".", Dotted(rest[1..]));
          Regroup(rest[0], ".", Dotted(rest[1..]));
        }
      }
    }
  }

  predicate SegmentChar(c: char) {
    '0' <= c <= '9' || 'A' <= c <= 'Z' || 'a' <= c <= 'z' || c == '_' || c == '-'
  }

  /** A literal segment of a served model's module name. */
  predicate Literal(segment: string) {
    segment != "" && forall c :: c in segment ==> SegmentChar(c)
  }

  predicate NodeAddress(s: string) {
    1 <= |s| <= 128 && forall segment :: segment in Split(s) ==> segment == "*" || Literal(segment)
  }

  // ----- the grammar, character by character

  /** A letter, a digit, an underscore or a dash, by code point. */
  predicate Plain(c: char) {
    48 <= c as int <= 57 || 65 <= c as int <= 90 || 97 <= c as int <= 122 || c as int in {45, 95}
  }

  predicate StartsAt(s: string, i: nat) requires i < |s| { i == 0 || s[i - 1] == '.' }

  predicate EndsAt(s: string, i: nat) requires i < |s| { i + 1 == |s| || s[i + 1] == '.' }

  /** A dot never starts or ends a segment, and a star is a whole one. */
  predicate Placed(s: string, i: nat)
    requires i < |s|
  {
    if s[i] == '.' then !StartsAt(s, i) && !EndsAt(s, i)
    else if s[i] == '*' then StartsAt(s, i) && EndsAt(s, i)
    else Plain(s[i])
  }

  predicate WellPlaced(s: string) {
    s != "" && forall i :: 0 <= i < |s| ==> Placed(s, i)
  }

  lemma JoinPlaced(a: string, t: string)
    ensures WellPlaced(a + "." + t) <==> WellPlaced(a) && WellPlaced(t)
  {
    var s := a + "." + t;
    assert s[|a|] == '.';
    assert forall i :: 0 <= i < |a| ==> s[i] == a[i];
    assert forall i :: 0 <= i < |t| ==> s[|a| + 1 + i] == t[i];
    if WellPlaced(s) {
      assert Placed(s, |a|);
      forall i | 0 <= i < |a| ensures Placed(a, i) { assert Placed(s, i); }
      forall i | 0 <= i < |t| ensures Placed(t, i) { assert Placed(s, |a| + 1 + i); }
    }
    if WellPlaced(a) && WellPlaced(t) {
      assert Placed(a, |a| - 1) && Placed(t, 0);
      forall i | 0 <= i < |s| ensures Placed(s, i) {
        if i < |a| { assert Placed(a, i); }
        if i > |a| { assert Placed(t, i - |a| - 1); }
      }
    }
  }

  lemma SegmentPlaced(a: string)
    requires '.' !in a
    ensures WellPlaced(a) <==> a == "*" || Literal(a)
  {
    if WellPlaced(a) {
      forall i | 0 <= i < |a| ensures a == "*" || SegmentChar(a[i]) { assert Placed(a, i); }
    }
    if Literal(a) {
      forall i | 0 <= i < |a| ensures Placed(a, i) { assert a[i] in a; }
    }
  }

  lemma {:induction false} DottedPlaced(segments: seq<string>)
    requires segments != [] && forall a :: a in segments ==> '.' !in a
    ensures WellPlaced(Dotted(segments)) <==> forall a :: a in segments ==> a == "*" || Literal(a)
  {
    SegmentPlaced(segments[0]);
    if |segments| > 1 {
      DottedPlaced(segments[1..]);
      JoinPlaced(segments[0], Dotted(segments[1..]));
      assert forall a :: a in segments <==> a == segments[0] || a in segments[1..];
    } else {
      assert forall a :: a in segments <==> a == segments[0];
    }
  }

  /** An address has at most 128 characters, none out of place. */
  lemma AddressMeaning(s: string)
    ensures NodeAddress(s) <==> |s| <= 128 && WellPlaced(s)
  {
    SplitMeaning(s);
    DottedPlaced(Split(s));
  }

  predicate SegmentsMeet(a: string, b: string) {
    a == b || a == "*" || b == "*"
  }

  /** `all(a == b or "*" in (a, b) for a, b in zip(...))` */
  predicate Overlap(x: seq<string>, y: seq<string>) {
    forall i :: 0 <= i < |x| && i < |y| ==> SegmentsMeet(x[i], y[i])
  }

  predicate MembersOverlap(left: seq<string>, right: seq<string>) {
    exists x, y :: x in left && y in right && Overlap(Split(x), Split(y))
  }

  // ----- what an address claims

  /** A module of a served model: literal segments only. */
  predicate Concrete(path: seq<string>) {
    forall segment :: segment in path ==> Literal(segment)
  }

  predicate AtOrUnder(path: seq<string>, address: seq<string>) {
    |address| <= |path| && forall i :: 0 <= i < |address| ==> address[i] == "*" || address[i] == path[i]
  }

  predicate Segments(address: seq<string>) {
    forall segment :: segment in address ==> segment == "*" || Literal(segment)
  }

  function Longer(a: nat, b: nat): nat { if a < b then b else a }

  function Pick(x: seq<string>, y: seq<string>, i: nat): string {
    if i < |x| && x[i] != "*" then x[i] else if i < |y| && y[i] != "*" then y[i] else "0"
  }

  /** Two addresses overlap exactly when some concrete module lies at or under both. */
  lemma OverlapSemantic(x: seq<string>, y: seq<string>)
    requires Segments(x) && Segments(y)
    ensures Overlap(x, y) <==> exists path :: Concrete(path) && AtOrUnder(path, x) && AtOrUnder(path, y)
  {
    if Overlap(x, y) {
      var path := seq(Longer(|x|, |y|), i requires 0 <= i => Pick(x, y, i));
      forall segment | segment in path ensures Literal(segment) {
        var i :| 0 <= i < |path| && path[i] == segment;
        if i < |x| { assert x[i] in x; }
        if i < |y| { assert y[i] in y; }
      }
      assert AtOrUnder(path, x);
      forall i | 0 <= i < |y| ensures y[i] == "*" || y[i] == path[i] {
        if i < |x| { assert SegmentsMeet(x[i], y[i]); }
      }
      assert AtOrUnder(path, y);
    }
    if path :| Concrete(path) && AtOrUnder(path, x) && AtOrUnder(path, y) {
      assert Overlap(x, y);
    }
  }

  // ----- `require_node_members`

  predicate UnderRoot(member: string, root: string) {
    member == root || root + "." <= member
  }

  predicate UnderRoots(member: string, roots: seq<string>) {
    exists root :: root in roots && UnderRoot(member, root)
  }

  predicate Apart(x: string, y: string) {
    !MembersOverlap([x], [y])
  }

  /** Canonical members: sorted, unique, addressed under the roots, none containing another. */
  ghost predicate CanonicalMembers(members: seq<string>, roots: seq<string>) {
    && Distinct(members) && Sorted(StrLeq, members)
    && (forall m :: m in members ==> NodeAddress(m) && UnderRoots(m, roots))
    && Pairwise(Apart, members)
  }

  method AllAddressed(members: seq<string>, roots: seq<string>) returns (ok: bool)
    ensures ok <==> forall m :: m in members ==> NodeAddress(m) && UnderRoots(m, roots)
  {
    for i := 0 to |members|
      invariant forall j :: 0 <= j < i ==> NodeAddress(members[j]) && UnderRoots(members[j], roots)
    {
      if !NodeAddress(members[i]) || !UnderRoots(members[i], roots) {
        assert members[i] in members;
        return false;
      }
    }
    ok := true;
  }

  method AllApart(members: seq<string>) returns (ok: bool)
    ensures ok <==> Pairwise(Apart, members)
  {
    for i := 0 to |members|
      invariant forall a, b :: 0 <= a < i && a < b < |members| ==> Apart(members[a], members[b])
    {
      for j := i + 1 to |members|
        invariant forall b :: i < b < j ==> Apart(members[i], members[b])
      {
        if !Apart(members[i], members[j]) {
          return false;
        }
      }
    }
    ok := true;
  }

  method RequireNodeMembers(declared: seq<string>, roots: seq<string>) returns (r: Option<seq<string>>)
    ensures r.Some? ==> CanonicalMembers(r.value, roots) && Elements(r.value) == Elements(declared)
    ensures r.None? ==> forall members :: Elements(members) == Elements(declared) ==> !CanonicalMembers(members, roots)
    ensures r.Some? <==> Declarable(declared, roots)
    ensures r.Some? ==> Ascending(r.value)
  {
    var members := SortedKeys(Elements(declared));
    assert Elements(members) == Elements(declared);
    SortedAscends(members);
    CanonicalMeaning(declared, members, roots);
    var ok := AllAddressed(members, roots);
    if ok {
      ok := AllApart(members);
    }
    if !ok {
      Undeclarable(declared, roots);
      return None;
    }
    r := Some(members);
  }

  lemma ApartSymmetric(x: string, y: string)
    ensures Apart(x, y) == Apart(y, x)
  {
    assert MembersOverlap([x], [y]) <==> Overlap(Split(x), Split(y)) by {
      if Overlap(Split(x), Split(y)) { assert x in [x] && y in [y]; }
    }
    assert MembersOverlap([y], [x]) <==> Overlap(Split(y), Split(x)) by {
      if Overlap(Split(y), Split(x)) { assert x in [x] && y in [y]; }
    }
  }

  lemma OverlapRefuses(members: seq<string>, x: string, y: string)
    requires x in members && y in members && x != y && !Apart(x, y)
    ensures !Pairwise(Apart, members)
  {
    var i :| 0 <= i < |members| && members[i] == x;
    var j :| 0 <= j < |members| && members[j] == y;
    ApartSymmetric(x, y);
    if i < j { assert !Apart(members[i], members[j]); } else { assert !Apart(members[j], members[i]); }
  }

  /** Canonical forms are unique, so re-admitting an admitted list gives it back. */
  lemma CanonicalUnique(a: seq<string>, b: seq<string>, roots: seq<string>)
    requires CanonicalMembers(a, roots) && CanonicalMembers(b, roots) && Elements(a) == Elements(b)
    ensures a == b
  {
    assert forall x :: x in a <==> x in Elements(a);
    assert forall x :: x in b <==> x in Elements(b);
    SameBag(a, b);
    forall x, y | StrLeq(x, y) && StrLeq(y, x) ensures x == y { StrAntisymmetric(x, y); }
    SortedUnique(StrLeq, a, b);
  }

  lemma SameBag<T>(a: seq<T>, b: seq<T>)
    requires Distinct(a) && Distinct(b) && forall x :: x in a <==> x in b
    ensures multiset(a) == multiset(b)
  {
    forall x ensures multiset(a)[x] == multiset(b)[x] {
      CountAtMostOnce(a, x);
      CountAtMostOnce(b, x);
      assert x in a <==> x in multiset(a);
      assert x in b <==> x in multiset(b);
    }
  }

  /** `admits`: a reservation's members are exactly their own canonical form. */
  method Admits(members: seq<string>, roots: seq<string>) returns (ok: bool)
    ensures ok <==> CanonicalMembers(members, roots)
  {
    var admitted := RequireNodeMembers(members, roots);
    ok := admitted == Some(members);
    if CanonicalMembers(members, roots) && admitted.Some? {
      CanonicalUnique(members, admitted.value, roots);
    }
  }

  /** Every concrete module has at most one owner in an admitted list. */
  lemma OneOwner(members: seq<string>, roots: seq<string>, path: seq<string>, x: string, y: string)
    requires CanonicalMembers(members, roots) && x in members && y in members && Concrete(path)
    requires AtOrUnder(path, Split(x)) && AtOrUnder(path, Split(y))
    ensures x == y
  {
    OverlapSemantic(Split(x), Split(y));
    if x != y {
      assert MembersOverlap([x], [y]);
      OverlapRefuses(members, x, y);
    }
  }

  // ----- what may be declared

  /** An address that is one of the roots, or continues one after a dot. */
  ghost predicate Located(m: string, roots: seq<string>) {
    && |m| <= 128 && WellPlaced(m)
    && exists root :: root in roots &&
         (m == root || (|root| < |m| && m[..|root|] == root && m[|root|] == '.'))
  }

  /** Some concrete module lies at or under both. */
  ghost predicate Share(x: string, y: string) {
    exists path :: Concrete(path) && AtOrUnder(path, Split(x)) && AtOrUnder(path, Split(y))
  }

  ghost predicate Declarable(declared: seq<string>, roots: seq<string>) {
    && (forall m :: m in declared ==> Located(m, roots))
    && forall x, y :: x in declared && y in declared && x != y ==> !Share(x, y)
  }

  ghost predicate Ascending(members: seq<string>) {
    forall i, j :: 0 <= i < j < |members| ==> members[i] != members[j] && Alphabetical(members[i], members[j])
  }

  lemma SortedAscends(members: seq<string>)
    requires Distinct(members) && Sorted(StrLeq, members)
    ensures Ascending(members)
  {
    forall i, j | 0 <= i < j < |members| ensures Alphabetical(members[i], members[j]) {
      StrLeqMeaning(members[i], members[j]);
    }
  }

  lemma LocatedIff(m: string, roots: seq<string>)
    ensures Located(m, roots) <==> NodeAddress(m) && UnderRoots(m, roots)
  {
    AddressMeaning(m);
    forall root ensures UnderRoot(m, root) <==> m == root || (|root| < |m| && m[..|root|] == root && m[|root|] == '.') {
      UnderMeans(m, root);
    }
  }

  lemma UnderMeans(m: string, root: string)
    ensures root + "." <= m <==> |root| < |m| && m[..|root|] == root && m[|root|] == '.'
  {
    if |root| < |m| {
      assert m[..|root| + 1] == m[..|root|] + [m[|root|]];
      if root + "." <= m { assert m[..|root| + 1] == root + "."; }
    }
  }

  lemma ApartIff(x: string, y: string)
    requires NodeAddress(x) && NodeAddress(y)
    ensures Apart(x, y) <==> !Share(x, y)
  {
    OverlapSemantic(Split(x), Split(y));
    assert MembersOverlap([x], [y]) <==> Overlap(Split(x), Split(y)) by {
      if Overlap(Split(x), Split(y)) { assert x in [x] && y in [y]; }
    }
  }

  /** The sorted members of a declaration are canonical exactly when it may be declared. */
  lemma CanonicalMeaning(declared: seq<string>, members: seq<string>, roots: seq<string>)
    requires Elements(members) == Elements(declared)
    ensures CanonicalMembers(members, roots) <==> Declarable(declared, roots) && Ascending(members)
  {
    assert forall m :: m in members <==> m in Elements(members);
    assert forall m :: m in declared <==> m in Elements(declared);
    forall m ensures Located(m, roots) <==> NodeAddress(m) && UnderRoots(m, roots) { LocatedIff(m, roots); }
    forall i, j | 0 <= i < j < |members|
      ensures StrLeq(members[i], members[j]) <==> Alphabetical(members[i], members[j])
    {
      StrLeqMeaning(members[i], members[j]);
    }
    if CanonicalMembers(members, roots) {
      forall x, y | x in declared && y in declared && x != y ensures !Share(x, y) {
        ApartIff(x, y);
        if !Apart(x, y) { OverlapRefuses(members, x, y); }
      }
    }
    if Declarable(declared, roots) {
      forall i, j | 0 <= i < j < |members| && members[i] != members[j] ensures Apart(members[i], members[j]) {
        ApartIff(members[i], members[j]);
      }
    }
  }

  lemma Undeclarable(declared: seq<string>, roots: seq<string>)
    requires !Declarable(declared, roots)
    ensures forall members :: Elements(members) == Elements(declared) ==> !CanonicalMembers(members, roots)
  {
    forall members | Elements(members) == Elements(declared) ensures !CanonicalMembers(members, roots) {
      CanonicalMeaning(declared, members, roots);
    }
  }

  // ----- the default catalog's two targets

  const FORWARD_PASS_ROOTS: seq<string> := ["logits_processor", "model"]
  const PREFIX_CACHE_ROOTS: seq<string> := ["tree_cache"]

  lemma {:induction false} FirstSegment(root: string, member: string)
    requires '.' !in root && UnderRoot(member, root)
    ensures |Split(member)| >= 1 && Split(member)[0] == root
  {
    SplitNonEmpty(member);
    if root == "" {
    } else {
      assert root[0] != '.' && member[0] == root[0];
      assert root == [root[0]] + root[1..];
      SplitNonEmpty(member[1..]);
      assert UnderRoot(member[1..], root[1..]) by {
        if member != root { assert root[1..] + "." == (root + ".")[1..]; }
      }
      FirstSegment(root[1..], member[1..]);
    }
  }

  lemma RootsApart(root: string, other: string, x: string, y: string)
    requires '.' !in root && '.' !in other && root != other && root != "*" && other != "*"
    requires UnderRoot(x, root) && UnderRoot(y, other)
    ensures !Overlap(Split(x), Split(y))
  {
    FirstSegment(root, x);
    FirstSegment(other, y);
    assert !SegmentsMeet(Split(x)[0], Split(y)[0]);
  }

  lemma DefaultRoots(root: string)
    requires root in FORWARD_PASS_ROOTS
    ensures '.' !in root && root != "*" && root != "tree_cache" && '.' !in "tree_cache"
  {
  }

  /** Members admitted for the forward pass and for the prefix cache never overlap. */
  lemma TargetsNeverOverlap(forward: seq<string>, cache: seq<string>)
    requires CanonicalMembers(forward, FORWARD_PASS_ROOTS) && CanonicalMembers(cache, PREFIX_CACHE_ROOTS)
    ensures !MembersOverlap(forward, cache)
    ensures forall x, y :: x in forward && y in cache ==> !Share(x, y)
  {
    forall x, y | x in forward && y in cache ensures !Overlap(Split(x), Split(y)) {
      var root :| root in FORWARD_PASS_ROOTS && UnderRoot(x, root);
      DefaultRoots(root);
      RootsApart(root, "tree_cache", x, y);
    }
    forall x, y | x in forward && y in cache ensures !Share(x, y) { OverlapSemantic(Split(x), Split(y)); }
  }
}
