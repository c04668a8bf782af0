/** The canonical JSON text of a value, written out character by character (`cacheon/stack_identity.py`). */
module JsonOutcome {
  import opened Orders
  import opened Wrappers
  import opened CanonicalJson

  // ----- numbers

  ghost predicate IsDigitOf(c: char, d: int) {
    0 <= d < 10 && "0123456789"[d] == c
  }

  /** Decimal digits, the last one counting ones. */
  ghost predicate ReadsAs(t: string, n: nat)
    decreases |t|
  {
    if |t| <= 1 then t != [] && IsDigitOf(t[0], n) else IsDigitOf(t[|t| - 1], n % 10) && ReadsAs(t[..|t| - 1], n / 10)
  }

  /** A minus sign for negative numbers, and no leading zero. */
  ghost predicate NumberText(n: int, t: string) {
    if n < 0 then |t| > 1 && t[0] == '-' && t[1] != '0' && ReadsAs(t[1..], -n)
    else t != [] && (t[0] == '0' ==> |t| == 1) && ReadsAs(t, n)
  }

  lemma {:induction false} NatReads(n: nat)
    ensures ReadsAs(NatText(n), n)
  {
    if n >= 10 {
      NatReads(n / 10);
      var t := NatText(n);
      NatTextStarts(n / 10);
      assert t[..|t| - 1] == NatText(n / 10) && |t| > 1;
    }
  }

  lemma NumberMeaning(n: int)
    ensures NumberText(n, IntText(n))
  {
    IntCanonical(n);
    if n < 0 {
      NatReads(-n);
      SignedTail(n);
    } else {
      NatReads(n);
    }
  }

  lemma SignedTail(n: int)
    requires n < 0
    ensures IntText(n) != [] && IntText(n)[1..] == NatText(-n)
  {
    assert IntText(n) == "-" + NatText(-n);
  }

  // ----- strings

  /** Quote, backslash and the control characters are escaped, in the short form where there is one. */
  ghost predicate CharText(c: char, t: string) {
    match c as int
    case 0x22 => t == ['\\', '\"']
    case 0x5c => t == ['\\', '\\']
    case 0x08 => t == ['\\', 'b']
    case 0x09 => t == ['\\', 't']
    case 0x0a => t == ['\\', 'n']
    case 0x0c => t == ['\\', 'f']
    case 0x0d => t == ['\\', 'r']
    case n =>
      if n < 0x20 then t == "\\u00" + ["0123456789abcdef"[n / 16], "0123456789abcdef"[n % 16]] else t == [c]
  }

  ghost function Laid(pieces: seq<string>): string {
    if pieces == [] then "" else pieces[0] + Laid(pieces[1..])
  }

  /** Each character's text, end to end, between quotes. */
  ghost predicate StringPieces(s: string, t: string, pieces: seq<string>) {
    |pieces| == |s| && (forall i :: 0 <= i < |s| ==> CharText(s[i], pieces[i])) && t == ['\"'] + Laid(pieces) + ['\"']
  }

  ghost predicate StringText(s: string, t: string) {
    exists pieces :: StringPieces(s, t, pieces)
  }

  lemma CharMeaning(c: char)
    ensures CharText(c, EscapeChar(c))
  {
  }

  lemma {:induction false} EscapeLaid(s: string)
    ensures Laid(seq(|s|, i requires 0 <= i < |s| => EscapeChar(s[i]))) == Escape(s)
  {
    if s != [] {
      EscapeLaid(s[1..]);
      var pieces := seq(|s|, i requires 0 <= i < |s| => EscapeChar(s[i]));
      assert pieces[1..] == seq(|s[1..]|, i requires 0 <= i < |s[1..]| => EscapeChar(s[1..][i]));
    }
  }

  lemma StringMeaning(s: string)
    ensures StringText(s, StrText(s))
  {
    var pieces := seq(|s|, i requires 0 <= i < |s| => EscapeChar(s[i]));
    EscapeLaid(s);
    forall i | 0 <= i < |s| ensures CharText(s[i], pieces[i]) { CharMeaning(s[i]); }
    assert StringPieces(s, StrText(s), pieces);
  }

  // ----- arrays and objects

  /** The parts with one comma between neighbours and no space. */
  ghost predicate Separated(parts: seq<string>, t: string) {
    if |parts| <= 1 then t == (if parts == [] then "" else parts[0])
    else exists rest :: Separated(parts[1..], rest) && t == parts[0] + "," + rest
  }

  lemma {:induction false} JoinSeparated(parts: seq<string>)
    ensures Separated(parts, Join(parts))
  {
    if |parts| > 1 {
      JoinSeparated(parts[1..]);
      assert Join(parts) == parts[0] + "," + Join(parts[1..]);
    }
  }

  ghost predicate Enclosed(open: char, parts: seq<string>, close: char, t: string) {
    exists inner :: Separated(parts, inner) && t == [open] + inner + [close]
  }

  lemma JoinEnclosed(open: char, parts: seq<string>, close: char)
    ensures Enclosed(open, parts, close, [open] + Join(parts) + [close])
  {
    JoinSeparated(parts);
  }

  /** No key comes before an earlier one. */
  ghost predicate Ascending(keys: seq<string>) {
    forall i, j :: 0 <= i < j < |keys| ==> Alphabetical(keys[i], keys[j])
  }

  /** The key's text, a colon, the value's text. */
  ghost predicate PairText(key: string, value: string, t: string) {
    exists k :: StringText(key, k) && t == k + ":" + value
  }

  /** The canonical text of a value; an object lists its members by ascending key. */
  ghost predicate IsTextOf(v: Value, t: string)
    decreases v, 3
  {
    match v
    case Null => t == "null"
    case Bool(b) => t == if b then "true" else "false"
    case Int(n) => NumberText(n, t)
    case Str(s) => StringText(s, t)
    case Arr(_, items) => exists parts :: ItemTexts(v, parts) && Enclosed('[', parts, ']', t)
    case Obj(members) => exists order, parts :: MemberTexts(v, order, parts) && Enclosed('{', parts, '}', t)
  }

  ghost predicate ItemTexts(v: Value, parts: seq<string>)
    requires v.Arr?
    decreases v, 2
  {
    |parts| == |v.items| && forall i :: 0 <= i < |v.items| ==> IsTextOf(v.items[i], parts[i])
  }

  ghost predicate MemberTexts(v: Value, order: seq<Member>, parts: seq<string>)
    requires v.Obj?
    decreases v, 2
  {
    && multiset(order) == multiset(v.members) && |parts| == |order| && Ascending(KeysOf(order))
    && forall i :: 0 <= i < |order| ==> MemberText(v, order[i], parts[i])
  }

  ghost predicate MemberText(v: Value, m: Member, t: string)
    requires v.Obj?
    decreases v, 1
  {
    m in v.members && exists value :: IsTextOf(m.value, value) && PairText(m.key, value, t)
  }

  lemma PairMeaning(key: string, value: string)
    ensures PairText(key, value, StrText(key) + [':'] + value)
  {
    StringMeaning(key);
    assert StrText(key) + [':'] + value == StrText(key) + ":" + value;
  }

  lemma SortedMembers(members: seq<Member>)
    ensures multiset(Sort(MemberLeq, members)) == multiset(members) && Ascending(KeysOf(Sort(MemberLeq, members)))
  {
    var sorted := Sort(MemberLeq, members);
    SortContents(MemberLeq, members);
    EntryPreorder();
    SortSorted(MemberLeq, members);
    forall i, j | 0 <= i < j < |sorted| ensures Alphabetical(KeysOf(sorted)[i], KeysOf(sorted)[j]) {
      StrLeqMeaning(sorted[i].key, sorted[j].key);
    }
  }

  lemma ArrayMeaning(v: Value)
    requires v.Arr? && forall i :: 0 <= i < |v.items| ==> IsTextOf(v.items[i], Encode(v.items[i]))
    ensures IsTextOf(v, Encode(v))
  {
    var parts := EncodeItems(v.items);
    assert ItemTexts(v, parts);
    JoinEnclosed('[', parts, ']');
  }

  lemma ObjectMeaning(v: Value)
    requires v.Obj? && forall m :: m in v.members ==> IsTextOf(m.value, Encode(m.value))
    ensures IsTextOf(v, Encode(v))
  {
    SortedFrom(v.members);
    SortedMembers(v.members);
    var order := Sort(MemberLeq, v.members);
    var parts := WriteMembers(v, order);
    forall i | 0 <= i < |order| ensures MemberText(v, order[i], parts[i]) {
      PairMeaning(order[i].key, Encode(order[i].value));
    }
    assert MemberTexts(v, order, parts);
    JoinEnclosed('{', parts, '}');
  }

  /** Every value is encoded as its canonical text. */
  lemma {:induction false} EncodeMeaning(v: Value)
    ensures IsTextOf(v, Encode(v))
    decreases v
  {
    match v {
      case Int(n) => NumberMeaning(n);
      case Str(s) => StringMeaning(s);
      case Arr(_, items) =>
        forall i | 0 <= i < |items| ensures IsTextOf(items[i], Encode(items[i])) { EncodeMeaning(items[i]); }
        ArrayMeaning(v);
      case Obj(members) =>
        forall m | m in members ensures IsTextOf(m.value, Encode(m.value)) { EncodeMeaning(m.value); }
        ObjectMeaning(v);
      case _ =>
    }
  }

  /** `canonical_object_bytes` on texts already written: each key with its text, by ascending key. */
  ghost predicate JoinsEntries(entries: seq<Entry>, t: string, order: seq<Entry>, parts: seq<string>) {
    && multiset(order) == multiset(entries) && |parts| == |order|
    && (forall i, j :: 0 <= i < j < |order| ==> Alphabetical(order[i].key, order[j].key))
    && (forall i :: 0 <= i < |order| ==> PairText(order[i].key, order[i].text, parts[i]))
    && Enclosed('{', parts, '}', t)
  }

  lemma ObjectTextMeaning(entries: seq<Entry>)
    ensures exists order, parts :: JoinsEntries(entries, ObjectText(entries), order, parts)
  {
    var order := Sort(EntryLeq, entries);
    var parts := EntryTexts(order);
    SortContents(EntryLeq, entries);
    EntryPreorder();
    SortSorted(EntryLeq, entries);
    forall i, j | 0 <= i < j < |order| ensures Alphabetical(order[i].key, order[j].key) {
      StrLeqMeaning(order[i].key, order[j].key);
    }
    forall i | 0 <= i < |order| ensures PairText(order[i].key, order[i].text, parts[i]) {
      PairMeaning(order[i].key, order[i].text);
    }
    JoinEnclosed('{', parts, '}');
    assert JoinsEntries(entries, ObjectText(entries), order, parts);
  }

  // ----- which values share a text

  /** A dict at every level: no key twice. */
  ghost predicate Keyed(v: Value)
    decreases v
  {
    match v
    case Arr(_, items) => forall i :: 0 <= i < |items| ==> Keyed(items[i])
    case Obj(members) =>
      Distinct(KeysOf(members)) && forall i :: 0 <= i < |members| ==> Keyed(members[i].value)
    case _ => true
  }

  /** Equal data: items in order whether list or tuple, members by key in any order. */
  ghost predicate SameData(a: Value, b: Value)
    decreases a
  {
    match a
    case Arr(_, items) =>
      b.Arr? && |items| == |b.items| && forall i :: 0 <= i < |items| ==> SameData(items[i], b.items[i])
    case Obj(members) => b.Obj? && |members| == |b.members| && forall m :: m in members ==> SameMember(a, m, b)
    case _ => a == b
  }

  ghost predicate SameMember(a: Value, m: Member, b: Value)
    requires a.Obj? && m in a.members && b.Obj?
    decreases a, 0
  {
    exists n :: n in b.members && n.key == m.key && SameData(m.value, n.value)
  }

  lemma DistinctSameContents<T>(s: seq<T>, t: seq<T>)
    requires Distinct(s) && Distinct(t) && |s| == |t| && forall x :: x in s ==> x in t
    ensures multiset(s) == multiset(t)
  {
    DistinctSize(s);
    DistinctSize(t);
    SubsetSame(Elements(s), Elements(t));
    forall x ensures multiset(s)[x] == multiset(t)[x] {
      CountAtMostOnce(s, x);
      CountAtMostOnce(t, x);
      assert x in s <==> x in Elements(s);
      assert x in t <==> x in Elements(t);
      assert x in multiset(s) <==> x in s;
      assert x in multiset(t) <==> x in t;
    }
  }

  lemma CanonKeys(members: seq<Member>)
    requires Distinct(KeysOf(members))
    ensures Distinct(CanonMembers(members)) && KeysDistinguish(MemberLeq, CanonMembers(members))
  {
    var canon := CanonMembers(members);
    forall i, j | 0 <= i < j < |canon| ensures canon[i].key != canon[j].key {
      assert KeysOf(members)[i] != KeysOf(members)[j];
    }
    forall x, y | x in canon && y in canon && MemberLeq(x, y) && MemberLeq(y, x) ensures x == y {
      StrAntisymmetric(x.key, y.key);
    }
  }

  /** The members' canonical forms are the same, in whatever order. */
  ghost predicate SameCanon(a: seq<Member>, b: seq<Member>) {
    multiset(CanonMembers(a)) == multiset(CanonMembers(b))
  }

  lemma SortCanon(a: seq<Member>, b: seq<Member>)
    requires Distinct(KeysOf(a)) && Distinct(KeysOf(b))
    ensures Sort(MemberLeq, CanonMembers(a)) == Sort(MemberLeq, CanonMembers(b)) <==> SameCanon(a, b)
  {
    CanonKeys(a);
    EntryPreorder();
    if SameCanon(a, b) { SortPermutation(MemberLeq, CanonMembers(a), CanonMembers(b)); }
    SortContents(MemberLeq, CanonMembers(a));
    SortContents(MemberLeq, CanonMembers(b));
  }

  lemma CanonOf(members: seq<Member>, m: Member)
    requires m in members
    ensures Member(m.key, Canon(m.value)) in CanonMembers(members)
  {
    var i :| 0 <= i < |members| && members[i] == m;
    assert CanonMembers(members)[i] == Member(m.key, Canon(m.value));
  }

  lemma OfCanon(members: seq<Member>, c: Member) returns (m: Member)
    requires c in CanonMembers(members)
    ensures m in members && c == Member(m.key, Canon(m.value))
  {
    var i :| 0 <= i < |members| && CanonMembers(members)[i] == c;
    m := members[i];
  }

  /** The hypothesis of the induction: the members' values are compared exactly. */
  ghost predicate Compared(a: seq<Member>, b: seq<Member>) {
    forall m, n :: m in a && n in b ==> (Canon(m.value) == Canon(n.value) <==> SameData(m.value, n.value))
  }

  lemma SameCanonMembers(a: Value, b: Value)
    requires a.Obj? && b.Obj? && Compared(a.members, b.members) && SameCanon(a.members, b.members)
    ensures SameData(a, b)
  {
    assert |CanonMembers(a.members)| == |multiset(CanonMembers(a.members))|;
    assert |CanonMembers(b.members)| == |multiset(CanonMembers(b.members))|;
    forall m | m in a.members ensures SameMember(a, m, b) {
      CanonOf(a.members, m);
      assert Member(m.key, Canon(m.value)) in multiset(CanonMembers(b.members));
      var n := OfCanon(b.members, Member(m.key, Canon(m.value)));
    }
  }

  lemma SameMembersCanon(a: Value, b: Value)
    requires a.Obj? && b.Obj? && Compared(a.members, b.members) && SameData(a, b)
    requires Distinct(KeysOf(a.members)) && Distinct(KeysOf(b.members))
    ensures SameCanon(a.members, b.members)
  {
    CanonKeys(a.members);
    CanonKeys(b.members);
    forall c | c in CanonMembers(a.members) ensures c in CanonMembers(b.members) {
      var m := OfCanon(a.members, c);
      assert SameMember(a, m, b);
      var n :| n in b.members && n.key == m.key && SameData(m.value, n.value);
      CanonOf(b.members, n);
    }
    DistinctSameContents(CanonMembers(a.members), CanonMembers(b.members));
  }

  lemma {:induction false} CanonSame(a: Value, b: Value)
    requires Keyed(a) && Keyed(b)
    ensures Canon(a) == Canon(b) <==> SameData(a, b)
    decreases a
  {
    if a.Arr? && b.Arr? && |a.items| == |b.items| {
      forall i | 0 <= i < |a.items|
        ensures Canon(a.items[i]) == Canon(b.items[i]) <==> SameData(a.items[i], b.items[i])
      {
        CanonSame(a.items[i], b.items[i]);
      }
      if Canon(a) == Canon(b) {
        forall i | 0 <= i < |a.items| ensures SameData(a.items[i], b.items[i]) {
          assert CanonItems(a.items)[i] == CanonItems(b.items)[i];
        }
      }
      if SameData(a, b) { assert CanonItems(a.items) == CanonItems(b.items); }
    } else if a.Obj? && b.Obj? {
      forall m, n | m in a.members && n in b.members
        ensures Canon(m.value) == Canon(n.value) <==> SameData(m.value, n.value)
      {
        var i :| 0 <= i < |a.members| && a.members[i] == m;
        var j :| 0 <= j < |b.members| && b.members[j] == n;
        CanonSame(m.value, n.value);
      }
      SortCanon(a.members, b.members);
      if SameCanon(a.members, b.members) { SameCanonMembers(a, b); }
      if SameData(a, b) { SameMembersCanon(a, b); }
    }
  }

  /** Two values share a text exactly when they are the same data. */
  lemma EncodeSame(a: Value, b: Value)
    requires Keyed(a) && Keyed(b)
    ensures Encode(a) == Encode(b) <==> SameData(a, b)
  {
    EncodeInjective(a, b);
    CanonSame(a, b);
  }

  lemma SortedKeys(members: seq<Member>)
    requires Distinct(members) && KeysDistinguish(MemberLeq, members)
    ensures Distinct(KeysOf(Sort(MemberLeq, members)))
  {
    var sorted := Sort(MemberLeq, members);
    SortContents(MemberLeq, members);
    DistinctPermutation(members, sorted);
    SameElements(sorted, members);
    forall i, j | 0 <= i < j < |sorted| ensures sorted[i].key != sorted[j].key {
      KeysApart(members, sorted[i], sorted[j]);
    }
  }

  lemma KeysApart(members: seq<Member>, a: Member, b: Member)
    requires KeysDistinguish(MemberLeq, members) && a in members && b in members && a != b
    ensures a.key != b.key
  {
    StrTotal(a.key, a.key);
    assert !(MemberLeq(a, b) && MemberLeq(b, a));
  }

  lemma {:induction false} CanonKeyed(v: Value)
    requires Keyed(v)
    ensures Keyed(Canon(v))
    decreases v
  {
    match v {
      case Arr(_, items) =>
        forall i | 0 <= i < |items| ensures Keyed(CanonItems(items)[i]) { CanonKeyed(items[i]); }
      case Obj(members) =>
        var canon := CanonMembers(members);
        CanonKeys(members);
        SortedKeys(canon);
        SortedFrom(canon);
        forall i | 0 <= i < |canon| ensures Keyed(Sort(MemberLeq, canon)[i].value) {
          var m := OfCanon(members, Sort(MemberLeq, canon)[i]);
          var j :| 0 <= j < |members| && members[j] == m;
          CanonKeyed(members[j].value);
        }
      case _ =>
    }
  }

  /** Reading a text back gives the same data. */
  lemma DecodeSame(v: Value)
    requires Keyed(v)
    ensures Decode(Encode(v)).Some? && SameData(v, Decode(Encode(v)).value)
  {
    RoundTrip(v);
    CanonKeyed(v);
    CanonIdempotent(v);
    CanonSame(v, Canon(v));
  }

  /** A digest preimage is the text of the envelope, and tells domain, version and payload data apart. */
  lemma PreimageMeaning(d: string, p: Value, m: int, e: string, q: Value, n: int)
    requires DomainName(d) && DomainName(e) && m >= 1 && n >= 1 && Keyed(p) && Keyed(q)
    ensures Preimage(d, Encode(p), m).Some?
    ensures IsTextOf(Obj([Member("domain", Str(d)), Member("payload", p), Member("schema_version", Int(m))]),
                     Preimage(d, Encode(p), m).value)
    ensures Preimage(d, Encode(p), m) == Preimage(e, Encode(q), n) <==> d == e && m == n && SameData(p, q)
  {
    PreimageEncodes(d, p, m);
    EncodeMeaning(Envelope(d, p, m));
    PreimageInjective(d, p, m, e, q, n);
    CanonSame(p, q);
  }
}
