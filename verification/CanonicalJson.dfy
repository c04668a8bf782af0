/** Canonical JSON text and the digest envelope (`cacheon/stack_identity.py`). */
module CanonicalJson {
  import opened Orders
  import opened Wrappers

  /** Data a canonical identity accepts. An object is a dict: its members in insertion order. */
  datatype Value =
    | Null
    | Bool(b: bool)
    | Int(n: int)
    | Str(s: string)
    | Arr(tuple: bool, items: seq<Value>)
    | Obj(members: seq<Member>)

  datatype Member = Member(key: string, value: Value)

  /** A key with the encoding of its value. */
  datatype Entry = Entry(key: string, text: string)

  // ----- encoding

  function DigitChar(d: int): char
    requires 0 <= d < 10
  {
    ['0', '1', '2', '3', '4', '5', '6', '7', '8', '9'][d]
  }

  function NatText(n: nat): string {
    if n < 10 then [DigitChar(n)] else NatText(n / 10) + [DigitChar(n % 10)]
  }

  function IntText(n: int): string {
    if n < 0 then "-" + NatText(-n) else NatText(n)
  }

  function HexChar(d: int): char
    requires 0 <= d < 16
  {
    ['0', '1', '2', '3', '4', '5', '6', '7', '8', '9', 'a', 'b', 'c', 'd', 'e', 'f'][d]
  }

  /** Quote, backslash and the controls are escaped; the short forms where JSON has them. */
  function EscapeChar(c: char): string {
    if c == '\"' then ['\\', '\"']
    else if c == '\\' then ['\\', '\\']
    else if c == '\U{8}' then ['\\', 'b']
    else if c == '\U{9}' then ['\\', 't']
    else if c == '\U{a}' then ['\\', 'n']
    else if c == '\U{c}' then ['\\', 'f']
    else if c == '\U{d}' then ['\\', 'r']
    else if c < ' ' then ['\\', 'u', '0', '0', HexChar(c as int / 16), HexChar(c as int % 16)]
    else [c]
  }

  function Escape(s: string): string {
    if s == [] then [] else EscapeChar(s[0]) + Escape(s[1..])
  }

  function StrText(s: string): string {
    ['\"'] + Escape(s) + ['\"']
  }

  predicate EntryLeq(a: Entry, b: Entry) {
    StrLeq(a.key, b.key)
  }

  predicate MemberLeq(a: Member, b: Member) {
    StrLeq(a.key, b.key)
  }

  /** Texts separated by commas. */
  function Join(texts: seq<string>): string {
    if texts == [] then [] else if |texts| == 1 then texts[0] else texts[0] + [','] + Join(texts[1..])
  }

  function EntryText(e: Entry): string {
    StrText(e.key) + [':'] + e.text
  }

  function EntryTexts(entries: seq<Entry>): seq<string> {
    seq(|entries|, i requires 0 <= i < |entries| => EntryText(entries[i]))
  }

  /** `canonical_object_bytes`: the sorted members' encodings joined. */
  function ObjectText(entries: seq<Entry>): string {
    ['{'] + Join(EntryTexts(Sort(EntryLeq, entries))) + ['}']
  }

  lemma SortedFrom(members: seq<Member>)
    ensures |Sort(MemberLeq, members)| == |members|
    ensures forall i :: 0 <= i < |members| ==> Sort(MemberLeq, members)[i] in members
  {
    var sorted := Sort(MemberLeq, members);
    SortContents(MemberLeq, members);
    forall i | 0 <= i < |sorted| ensures sorted[i] in members { assert sorted[i] in multiset(sorted); }
  }

  /** `_dumps`: an object's items are sorted by key and then written; no whitespace, lists and tuples alike. */
  function Encode(v: Value): string
    decreases v, 1
  {
    match v
    case Null => "null"
    case Bool(b) => if b then "true" else "false"
    case Int(n) => IntText(n)
    case Str(s) => StrText(s)
    case Arr(_, items) => ['['] + Join(EncodeItems(items)) + [']']
    case Obj(members) =>
      SortedFrom(members);
      ['{'] + Join(WriteMembers(v, Sort(MemberLeq, members))) + ['}']
  }

  function EncodeItems(items: seq<Value>): (r: seq<string>)
    ensures |r| == |items|
    ensures forall i :: 0 <= i < |items| ==> r[i] == Encode(items[i])
    decreases items
  {
    if items == [] then [] else [Encode(items[0])] + EncodeItems(items[1..])
  }

  /** Items of an object written in the order given: the key, a colon, the value. */
  function WriteMembers(v: Value, items: seq<Member>): (r: seq<string>)
    requires v.Obj? && forall i :: 0 <= i < |items| ==> items[i] in v.members
    ensures |r| == |items|
    ensures forall i :: 0 <= i < |items| ==> r[i] == StrText(items[i].key) + [':'] + Encode(items[i].value)
    decreases v, 0, |items|
  {
    if items == [] then []
    else
      [StrText(items[0].key) + [':'] + Encode(items[0].value)] + WriteMembers(v, items[1..])
  }

  /** The members' encodings, one by one. */
  function EncodeMembers(members: seq<Member>): (r: seq<Entry>)
    ensures |r| == |members|
    ensures forall i :: 0 <= i < |members| ==> r[i] == Entry(members[i].key, Encode(members[i].value))
  {
    seq(|members|, i requires 0 <= i < |members| => Entry(members[i].key, Encode(members[i].value)))
  }

  // ----- the canonical form

  /** Members sorted by key at every level, tuples as lists. */
  function Canon(v: Value): Value
    decreases v
  {
    match v
    case Arr(_, items) => Arr(false, CanonItems(items))
    case Obj(members) => Obj(Sort(MemberLeq, CanonMembers(members)))
    case _ => v
  }

  function CanonItems(items: seq<Value>): (r: seq<Value>)
    ensures |r| == |items|
    ensures forall i :: 0 <= i < |items| ==> r[i] == Canon(items[i])
    decreases items
  {
    if items == [] then [] else [Canon(items[0])] + CanonItems(items[1..])
  }

  function CanonMembers(members: seq<Member>): (r: seq<Member>)
    ensures |r| == |members|
    ensures forall i :: 0 <= i < |members| ==> r[i] == Member(members[i].key, Canon(members[i].value))
    decreases members
  {
    if members == [] then [] else [Member(members[0].key, Canon(members[0].value))] + CanonMembers(members[1..])
  }

  // ----- decoding

  predicate IsDigit(c: char) {
    '0' <= c <= '9'
  }

  function DigitValue(c: char): int
    requires IsDigit(c)
  {
    c as int - '0' as int
  }

  predicate AllDigits(s: string) {
    forall c :: c in s ==> IsDigit(c)
  }

  /** How many digits a text starts with. */
  function DigitRun(s: string): (n: nat)
    ensures n <= |s| && AllDigits(s[..n])
  {
    if s == [] || !IsDigit(s[0]) then 0
    else
      var n := 1 + DigitRun(s[1..]);
      assert s[..n] == [s[0]] + s[1..][..n - 1];
      n
  }

  function NatValue(s: string): nat
    requires AllDigits(s)
  {
    if s == [] then 0 else 10 * NatValue(s[..|s| - 1]) + DigitValue(s[|s| - 1])
  }

  /** Digits without a needless leading zero. */
  function ParseNat(s: string): (r: Option<(nat, string)>)
    ensures r.Some? ==> |r.value.1| < |s|
  {
    var n := DigitRun(s);
    if n == 0 || (n > 1 && s[0] == '0') then None else Some((NatValue(s[..n]), s[n..]))
  }

  function ParseInt(s: string): (r: Option<(Value, string)>)
    ensures r.Some? ==> |r.value.1| < |s|
  {
    if s != [] && s[0] == '-' then
      match ParseNat(s[1..])
      case None => None
      case Some(p) => Some((Int(0 - p.0), p.1))
    else
      match ParseNat(s)
      case None => None
      case Some(p) => Some((Int(p.0), p.1))
  }

  function HexValue(c: char): Option<int> {
    if '0' <= c <= '9' then Some(c as int - '0' as int)
    else if 'a' <= c <= 'f' then Some(c as int - 'a' as int + 10)
    else if 'A' <= c <= 'F' then Some(c as int - 'A' as int + 10)
    else None
  }

  /** The four hex digits of an escape, naming a character that is not half of a surrogate pair. */
  function ParseHex(s: string): (r: Option<(char, string)>)
    ensures r.Some? ==> |r.value.1| < |s|
  {
    if |s| < 4 then None
    else
      var a, b, c, d := HexValue(s[0]), HexValue(s[1]), HexValue(s[2]), HexValue(s[3]);
      if a.None? || b.None? || c.None? || d.None? then None
      else
        var code := ((a.value * 16 + b.value) * 16 + c.value) * 16 + d.value;
        if 0 <= code < 0xD800 || 0xE000 <= code < 0x10000 then Some((code as char, s[4..])) else None
  }

  /** One character of a string literal: section 7 of RFC 8259. */
  function ParseChar(s: string): (r: Option<(char, string)>)
    ensures r.Some? ==> |r.value.1| < |s|
  {
    if s == [] || s[0] < ' ' || s[0] == '\"' then None
    else if s[0] != '\\' then Some((s[0], s[1..]))
    else if |s| == 1 then None
    else match s[1]
      case '\"' => Some(('\"', s[2..]))
      case '\\' => Some(('\\', s[2..]))
      case '/' => Some(('/', s[2..]))
      case 'b' => Some(('\U{8}', s[2..]))
      case 'f' => Some(('\U{c}', s[2..]))
      case 'n' => Some(('\U{a}', s[2..]))
      case 'r' => Some(('\U{d}', s[2..]))
      case 't' => Some(('\U{9}', s[2..]))
      case 'u' => ParseHex(s[2..])
      case _ => None
  }

  /** No other text for a character is shorter than its escape. */
  lemma EscapeShortest(c: char, text: string)
    requires ParseChar(text).Some? && ParseChar(text).value.0 == c
    ensures |EscapeChar(c)| <= |text| - |ParseChar(text).value.1|
  {
  }

  /** A control without a short form is `\\u00` and two lower-case hex digits. */
  lemma EscapeHex(c: char)
    requires |EscapeChar(c)| > 2
    ensures |EscapeChar(c)| == 6 && EscapeChar(c)[..4] == ['\\', 'u', '0', '0']
    ensures forall k :: 4 <= k < 6 ==> '0' <= EscapeChar(c)[k] <= '9' || 'a' <= EscapeChar(c)[k] <= 'f'
  {
  }

  /** The rest of a string literal after its opening quote. */
  function ParseString(s: string): (r: Option<(string, string)>)
    ensures r.Some? ==> |r.value.1| < |s|
  {
    if s == [] then None
    else if s[0] == '\"' then Some(([], s[1..]))
    else
      match ParseChar(s)
      case None => None
      case Some(p) =>
        match ParseString(p.1)
        case None => None
        case Some(q) => Some(([p.0] + q.0, q.1))
  }

  /** No other literal for a string is shorter than its encoding. */
  lemma {:induction false} LiteralShortest(s: string)
    requires ParseString(s).Some?
    ensures |Escape(ParseString(s).value.0)| + 1 <= |s| - |ParseString(s).value.1|
  {
    if s[0] != '\"' {
      var p := ParseChar(s).value;
      EscapeShortest(p.0, s);
      LiteralShortest(p.1);
      var q := ParseString(p.1).value;
      assert ([p.0] + q.0)[1..] == q.0;
    }
  }

  function ParseValue(s: string): (r: Option<(Value, string)>)
    ensures r.Some? ==> |r.value.1| < |s|
    decreases |s|, 0
  {
    if s == [] then None
    else if s[0] == '\"' then
      match ParseString(s[1..])
      case None => None
      case Some(p) => Some((Str(p.0), p.1))
    else if s[0] == '[' then
      if |s| > 1 && s[1] == ']' then Some((Arr(false, []), s[2..]))
      else
        match ParseItems(s[1..])
        case None => None
        case Some(p) => Some((Arr(false, p.0), p.1))
    else if s[0] == '{' then
      if |s| > 1 && s[1] == '}' then Some((Obj([]), s[2..]))
      else
        match ParseMembers(s[1..])
        case None => None
        case Some(p) => Some((Obj(p.0), p.1))
    else if "null" <= s then Some((Null, s[4..]))
    else if "true" <= s then Some((Bool(true), s[4..]))
    else if "false" <= s then Some((Bool(false), s[5..]))
    else ParseInt(s)
  }

  function ParseItems(s: string): (r: Option<(seq<Value>, string)>)
    ensures r.Some? ==> |r.value.1| < |s|
    decreases |s|, 1
  {
    match ParseValue(s)
    case None => None
    case Some(p) =>
      if p.1 == [] then None
      else if p.1[0] == ']' then Some(([p.0], p.1[1..]))
      else if p.1[0] != ',' then None
      else
        match ParseItems(p.1[1..])
        case None => None
        case Some(q) => Some(([p.0] + q.0, q.1))
  }

  function ParseMember(s: string): (r: Option<(Member, string)>)
    ensures r.Some? ==> |r.value.1| < |s|
    decreases |s|, 1
  {
    if s == [] || s[0] != '\"' then None
    else
      match ParseString(s[1..])
      case None => None
      case Some(k) =>
        if k.1 == [] || k.1[0] != ':' then None
        else
          match ParseValue(k.1[1..])
          case None => None
          case Some(p) => Some((Member(k.0, p.0), p.1))
  }

  function ParseMembers(s: string): (r: Option<(seq<Member>, string)>)
    ensures r.Some? ==> |r.value.1| < |s|
    decreases |s|, 2
  {
    match ParseMember(s)
    case None => None
    case Some(p) =>
      if p.1 == [] then None
      else if p.1[0] == '}' then Some(([p.0], p.1[1..]))
      else if p.1[0] != ',' then None
      else
        match ParseMembers(p.1[1..])
        case None => None
        case Some(q) => Some(([p.0] + q.0, q.1))
  }

  /** A whole text. */
  function Decode(s: string): Option<Value> {
    match ParseValue(s)
    case None => None
    case Some(p) => if p.1 == [] then Some(p.0) else None
  }

  // ----- numbers

  /** What may follow a number. */
  predicate Stops(rest: string) {
    rest == [] || !IsDigit(rest[0])
  }

  lemma DigitAppended(t: string, k: nat, d: nat)
    requires t != [] && AllDigits(t) && NatValue(t) == k && d < 10
    ensures AllDigits(t + [DigitChar(d)]) && NatValue(t + [DigitChar(d)]) == 10 * k + d
    ensures (t + [DigitChar(d)])[0] == t[0]
  {
    assert (t + [DigitChar(d)])[..|t|] == t;
  }

  lemma {:induction false} NatTextDigits(n: nat)
    ensures NatText(n) != [] && AllDigits(NatText(n)) && NatValue(NatText(n)) == n
    ensures NatText(n)[0] == '0' ==> |NatText(n)| == 1
  {
    if n >= 10 {
      NatTextDigits(n / 10);
      DigitAppended(NatText(n / 10), n / 10, n % 10);
      assert NatValue(['0']) == 0;
    }
  }

  lemma {:induction false} DigitRunExact(digits: string, rest: string)
    requires AllDigits(digits) && Stops(rest)
    ensures DigitRun(digits + rest) == |digits|
  {
    if digits == [] {
      assert digits + rest == rest;
    } else {
      assert digits[0] in digits && (digits + rest)[1..] == digits[1..] + rest;
      DigitRunExact(digits[1..], rest);
    }
  }

  lemma {:induction false} ParseNatText(n: nat, rest: string)
    requires Stops(rest)
    ensures ParseNat(NatText(n) + rest) == Some((n, rest))
  {
    NatTextDigits(n);
    DigitRunExact(NatText(n), rest);
    var s := NatText(n) + rest;
    assert s[..|NatText(n)|] == NatText(n) && s[|NatText(n)|..] == rest;
  }

  lemma NumberStarts(s: string)
    requires s != [] && (IsDigit(s[0]) || s[0] == '-')
    ensures ParseValue(s) == ParseInt(s)
  {
  }

  lemma ParseMinus(t: string, k: nat, rest: string)
    requires ParseNat(t) == Some((k, rest))
    ensures ParseInt(['-'] + t) == Some((Int(0 - k), rest))
  {
    assert (['-'] + t)[1..] == t;
  }

  lemma ParsePlain(t: string, k: nat, rest: string)
    requires t != [] && t[0] != '-' && ParseNat(t) == Some((k, rest))
    ensures ParseInt(t) == Some((Int(k), rest))
  {
  }

  lemma NatTextStarts(n: nat)
    ensures NatText(n) != [] && IsDigit(NatText(n)[0])
  {
    NatTextDigits(n);
    assert NatText(n)[0] in NatText(n);
  }

  lemma {:induction false} ParseNegative(n: nat, rest: string)
    requires Stops(rest)
    ensures ParseInt((['-'] + NatText(n)) + rest) == Some((Int(0 - n), rest))
  {
    ParseNatText(n, rest);
    ParseMinus(NatText(n) + rest, n, rest);
    Regroup(['-'], NatText(n), rest);
  }

  lemma {:induction false} ParseNonNegative(n: nat, rest: string)
    requires Stops(rest)
    ensures ParseInt(NatText(n) + rest) == Some((Int(n), rest))
  {
    ParseNatText(n, rest);
    NatTextStarts(n);
    ParsePlain(NatText(n) + rest, n, rest);
  }

  lemma {:induction false} ParseSigned(n: int, rest: string)
    requires Stops(rest)
    ensures ParseInt(IntText(n) + rest) == Some((Int(n), rest))
  {
    if n < 0 {
      ParseNegative(-n, rest);
      assert IntText(n) == ['-'] + NatText(-n);
    } else {
      ParseNonNegative(n, rest);
      assert IntText(n) == NatText(n);
    }
  }

  lemma IntTextStarts(n: int)
    ensures IntText(n) != [] && (IsDigit(IntText(n)[0]) || IntText(n)[0] == '-')
  {
    if n >= 0 { NatTextStarts(n); }
  }

  lemma {:induction false} NoLeadingZero(n: nat)
    requires n > 0
    ensures NatText(n) != [] && NatText(n)[0] != '0'
  {
    if n >= 10 { NoLeadingZero(n / 10); }
  }

  /** Only negative numbers carry a sign, and no number a leading zero. */
  lemma IntCanonical(n: int)
    ensures IntText(0) == "0"
    ensures n > 0 ==> IntText(n) != [] && IntText(n)[0] !in {'-', '0'}
    ensures n < 0 ==> |IntText(n)| > 1 && IntText(n)[0] == '-' && IntText(n)[1] !in {'-', '0'}
  {
    if n != 0 {
      var k := if n < 0 then -n else n;
      NoLeadingZero(k);
      NatTextStarts(k);
    }
  }

  lemma {:induction false} ParseIntText(n: int, rest: string)
    requires Stops(rest)
    ensures ParseValue(IntText(n) + rest) == Some((Int(n), rest))
  {
    ParseSigned(n, rest);
    IntTextStarts(n);
    NumberStarts(IntText(n) + rest);
  }

  // ----- strings

  lemma ParseEscapedChar(c: char, rest: string)
    ensures ParseChar(EscapeChar(c) + rest) == Some((c, rest)) && EscapeChar(c) != [] && EscapeChar(c)[0] != '\"'
  {
    var s := EscapeChar(c) + rest;
    if c < ' ' && |EscapeChar(c)| == 6 {
      HexRoundTrip(c as int);
      assert s[2..][..4] == ['0', '0', HexChar(c as int / 16), HexChar(c as int % 16)];
      assert s[2..][4..] == rest;
    } else {
      assert s[|EscapeChar(c)|..] == rest;
    }
  }

  lemma HexRoundTrip(code: int)
    requires 0 <= code < 32
    ensures HexValue(HexChar(code / 16)) == Some(code / 16) && HexValue(HexChar(code % 16)) == Some(code % 16)
  {
  }

  lemma StringStep(c: char, escaped: string, tail: string, q: (string, string))
    requires escaped != [] && escaped[0] != '\"' && ParseChar(escaped + tail) == Some((c, tail)) &&
      ParseString(tail) == Some(q)
    ensures ParseString(escaped + tail) == Some(([c] + q.0, q.1))
  {
    assert (escaped + tail)[0] == escaped[0];
  }

  lemma {:induction false} ParseEscaped(s: string, rest: string)
    ensures ParseString(Escape(s) + (['\"'] + rest)) == Some((s, rest))
  {
    var quoted := ['\"'] + rest;
    if s == [] {
      assert Escape(s) + quoted == quoted && quoted[1..] == rest;
    } else {
      var tail := Escape(s[1..]) + quoted;
      assert Escape(s) + quoted == EscapeChar(s[0]) + tail;
      ParseEscapedChar(s[0], tail);
      ParseEscaped(s[1..], rest);
      StringStep(s[0], EscapeChar(s[0]), tail, (s[1..], rest));
      assert s == [s[0]] + s[1..];
    }
  }

  lemma ParseStrText(s: string, rest: string)
    ensures (StrText(s) + rest)[0] == '\"' && ParseString((StrText(s) + rest)[1..]) == Some((s, rest))
  {
    ParseEscaped(s, rest);
    assert (StrText(s) + rest)[1..] == Escape(s) + (['\"'] + rest);
  }

  // ----- lists

  /** Whatever follows, the text parses as `v` and no further. */
  ghost predicate ParsesTo(text: string, v: Value) {
    forall rest :: Stops(rest) ==> ParseValue(text + rest) == Some((v, rest))
  }

  lemma ItemsEnd(s: string, v: Value, rest: string)
    requires ParseValue(s) == Some((v, [']'] + rest))
    ensures ParseItems(s) == Some(([v], rest))
  {
    assert ([']'] + rest)[1..] == rest;
  }

  lemma ItemsMore(s: string, v: Value, tail: string, q: (seq<Value>, string))
    requires ParseValue(s) == Some((v, [','] + tail)) && ParseItems(tail) == Some(q)
    ensures ParseItems(s) == Some(([v] + q.0, q.1))
  {
    assert ([','] + tail)[1..] == tail;
  }

  lemma ParsesBefore(text: string, v: Value, rest: string)
    requires ParsesTo(text, v) && Stops(rest)
    ensures ParseValue(text + rest) == Some((v, rest))
  {
  }

  lemma JoinMore(texts: seq<string>, closed: string)
    requires |texts| > 1
    ensures Join(texts) + closed == texts[0] + ([','] + (Join(texts[1..]) + closed))
  {
  }

  lemma {:induction false} ParseItemsJoin(texts: seq<string>, items: seq<Value>, rest: string)
    requires |texts| == |items| > 0
    requires forall i :: 0 <= i < |texts| ==> ParsesTo(texts[i], items[i])
    ensures ParseItems(Join(texts) + ([']'] + rest)) == Some((items, rest))
    decreases |texts|
  {
    var closed := [']'] + rest;
    if |texts| == 1 {
      ParsesBefore(texts[0], items[0], closed);
      ItemsEnd(texts[0] + closed, items[0], rest);
      assert items == [items[0]];
    } else {
      var tail := Join(texts[1..]) + closed;
      JoinMore(texts, closed);
      ParseItemsJoin(texts[1..], items[1..], rest);
      ParsesBefore(texts[0], items[0], [','] + tail);
      ItemsMore(texts[0] + ([','] + tail), items[0], tail, (items[1..], rest));
      assert items == [items[0]] + items[1..];
    }
  }

  lemma ParseMemberText(e: Entry, m: Member, rest: string)
    requires e.key == m.key && ParsesTo(e.text, m.value) && Stops(rest)
    ensures ParseMember(EntryText(e) + rest) == Some((m, rest))
  {
    var after := [':'] + (e.text + rest);
    assert EntryText(e) + rest == StrText(e.key) + after;
    ParseStrText(e.key, after);
    assert after[1..] == e.text + rest;
  }

  /** An entry holds the encoding of a member. */
  ghost predicate Holds(e: Entry, m: Member) {
    e.key == m.key && ParsesTo(e.text, m.value)
  }

  lemma MembersEnd(s: string, m: Member, rest: string)
    requires ParseMember(s) == Some((m, ['}'] + rest))
    ensures ParseMembers(s) == Some(([m], rest))
  {
    assert (['}'] + rest)[1..] == rest;
  }

  lemma MembersMore(s: string, m: Member, tail: string, q: (seq<Member>, string))
    requires ParseMember(s) == Some((m, [','] + tail)) && ParseMembers(tail) == Some(q)
    ensures ParseMembers(s) == Some(([m] + q.0, q.1))
  {
    assert ([','] + tail)[1..] == tail;
  }

  lemma EntryTextsTail(entries: seq<Entry>)
    requires entries != []
    ensures EntryTexts(entries)[1..] == EntryTexts(entries[1..])
  {
  }

  lemma {:induction false} ParseMembersJoin(entries: seq<Entry>, members: seq<Member>, rest: string)
    requires |entries| == |members| > 0
    requires forall i :: 0 <= i < |entries| ==> Holds(entries[i], members[i])
    ensures ParseMembers(Join(EntryTexts(entries)) + (['}'] + rest)) == Some((members, rest))
    decreases |entries|
  {
    var closed, texts := ['}'] + rest, EntryTexts(entries);
    if |entries| == 1 {
      ParseMemberText(entries[0], members[0], closed);
      MembersEnd(texts[0] + closed, members[0], rest);
      assert members == [members[0]];
    } else {
      var tail := Join(texts[1..]) + closed;
      JoinMore(texts, closed);
      EntryTextsTail(entries);
      ParseMembersJoin(entries[1..], members[1..], rest);
      ParseMemberText(entries[0], members[0], [','] + tail);
      MembersMore(texts[0] + ([','] + tail), members[0], tail, (members[1..], rest));
      assert members == [members[0]] + members[1..];
    }
  }

  // ----- sorting entries sorts members

  ghost predicate Aligned(entries: seq<Entry>, members: seq<Member>) {
    |entries| == |members| && forall i :: 0 <= i < |entries| ==> Holds(entries[i], members[i])
  }

  lemma {:induction false} InsertAligned(e: Entry, m: Member, entries: seq<Entry>, members: seq<Member>)
    requires Holds(e, m) && Aligned(entries, members)
    ensures Aligned(Insert(EntryLeq, e, entries), Insert(MemberLeq, m, members))
  {
    if entries != [] {
      assert Holds(entries[0], members[0]);
      InsertAligned(e, m, entries[1..], members[1..]);
    }
  }

  lemma {:induction false} SortAligned(entries: seq<Entry>, members: seq<Member>)
    requires Aligned(entries, members)
    ensures Aligned(Sort(EntryLeq, entries), Sort(MemberLeq, members))
  {
    if entries != [] {
      SortAligned(entries[1..], members[1..]);
      InsertAligned(entries[0], members[0], Sort(EntryLeq, entries[1..]), Sort(MemberLeq, members[1..]));
    }
  }

  // ----- decoding inverts encoding

  lemma ParseArray(texts: seq<string>, items: seq<Value>, rest: string)
    requires |texts| == |items| && forall i :: 0 <= i < |texts| ==>
      ParsesTo(texts[i], items[i]) && texts[i] != [] && texts[i][0] != ']'
    ensures ParseValue((['['] + Join(texts) + [']']) + rest) == Some((Arr(false, items), rest))
  {
    var s := (['['] + Join(texts) + [']']) + rest;
    assert s[1..] == Join(texts) + ([']'] + rest);
    if texts == [] {
      assert s[1..] == [']'] + rest && s[2..] == rest;
    } else {
      ParseItemsJoin(texts, items, rest);
      assert s[1] == texts[0][0];
    }
  }

  lemma ParseObject(entries: seq<Entry>, members: seq<Member>, rest: string)
    requires Aligned(entries, members)
    ensures ParseValue((['{'] + Join(EntryTexts(entries)) + ['}']) + rest) == Some((Obj(members), rest))
  {
    var texts := EntryTexts(entries);
    var s := (['{'] + Join(texts) + ['}']) + rest;
    assert s[1..] == Join(texts) + (['}'] + rest);
    if entries == [] {
      assert s[1..] == ['}'] + rest && s[2..] == rest;
    } else {
      ParseMembersJoin(entries, members, rest);
      assert s[1] == texts[0][0] == '\"';
    }
  }

  lemma EncodeStarts(v: Value)
    ensures Encode(v) != [] && Encode(v)[0] != ']'
  {
    match v {
      case Int(n) => NatTextDigits(if n < 0 then -n else n);
        assert NatText(if n < 0 then -n else n)[0] in NatText(if n < 0 then -n else n);
      case _ =>
    }
  }

  lemma {:induction false} EncodeParses(v: Value)
    ensures ParsesTo(Encode(v), Canon(v))
    decreases v
  {
    forall rest | Stops(rest) ensures ParseValue(Encode(v) + rest) == Some((Canon(v), rest)) {
      match v {
        case Null => assert ("null" + rest)[4..] == rest;
        case Bool(b) =>
          if b { assert ("true" + rest)[4..] == rest; } else { assert ("false" + rest)[5..] == rest; }
        case Int(n) => ParseIntText(n, rest);
        case Str(t) => ParseStrText(t, rest);
        case Arr(_, items) =>
          forall i | 0 <= i < |items|
            ensures ParsesTo(Encode(items[i]), Canon(items[i]))
            ensures Encode(items[i]) != [] && Encode(items[i])[0] != ']'
          {
            EncodeParses(items[i]);
            EncodeStarts(items[i]);
          }
          ParseArray(EncodeItems(items), CanonItems(items), rest);
        case Obj(members) =>
          forall i | 0 <= i < |members| ensures Holds(EncodeMembers(members)[i], CanonMembers(members)[i]) {
            EncodeParses(members[i].value);
          }
          SortAligned(EncodeMembers(members), CanonMembers(members));
          EncodedObject(members);
          ParseObject(Sort(EntryLeq, EncodeMembers(members)), Sort(MemberLeq, CanonMembers(members)), rest);
      }
    }
  }

  /** Decoding an encoding gives the canonical form back. */
  lemma RoundTrip(v: Value)
    ensures Decode(Encode(v)) == Some(Canon(v))
  {
    EncodeParses(v);
    assert Encode(v) + [] == Encode(v);
    assert ParseValue(Encode(v) + []) == Some((Canon(v), []));
  }

  // ----- what the encoding identifies

  lemma {:induction false} CanonEncodes(v: Value)
    ensures Encode(Canon(v)) == Encode(v)
    decreases v
  {
    match v {
      case Arr(_, items) =>
        forall i | 0 <= i < |items| ensures Encode(Canon(items[i])) == Encode(items[i]) { CanonEncodes(items[i]); }
        assert EncodeItems(CanonItems(items)) == EncodeItems(items);
      case Obj(members) =>
        forall i | 0 <= i < |members| ensures Encode(Canon(members[i].value)) == Encode(members[i].value) {
          CanonEncodes(members[i].value);
        }
        var canon := CanonMembers(members);
        assert EncodeMembers(canon) == EncodeMembers(members);
        SortEncodes(canon);
        SortTwice(EncodeMembers(canon));
        EncodedObject(members);
        EncodedObject(Sort(MemberLeq, canon));
      case _ =>
    }
  }

  lemma {:induction false} InsertEncodes(m: Member, members: seq<Member>)
    ensures EncodeMembers(Insert(MemberLeq, m, members)) ==
            Insert(EntryLeq, Entry(m.key, Encode(m.value)), EncodeMembers(members))
  {
    if members != [] && !MemberLeq(m, members[0]) {
      InsertEncodes(m, members[1..]);
      assert EncodeMembers(members)[1..] == EncodeMembers(members[1..]);
    }
  }

  lemma {:induction false} SortEncodes(members: seq<Member>)
    ensures EncodeMembers(Sort(MemberLeq, members)) == Sort(EntryLeq, EncodeMembers(members))
  {
    if members != [] {
      SortEncodes(members[1..]);
      InsertEncodes(members[0], Sort(MemberLeq, members[1..]));
      assert EncodeMembers(members)[1..] == EncodeMembers(members[1..]);
    }
  }

  lemma EntryPreorder()
    ensures TotalPreorder(EntryLeq) && TotalPreorder(MemberLeq)
  {
    StrPreorder();
  }

  lemma {:induction false} SortOfSorted(entries: seq<Entry>)
    requires Sorted(EntryLeq, entries)
    ensures Sort(EntryLeq, entries) == entries
  {
    if entries != [] {
      SortOfSorted(entries[1..]);
      assert entries == [entries[0]] + entries[1..];
    }
  }

  lemma SortTwice(entries: seq<Entry>)
    ensures Sort(EntryLeq, Sort(EntryLeq, entries)) == Sort(EntryLeq, entries)
  {
    EntryPreorder();
    SortSorted(EntryLeq, entries);
    SortOfSorted(Sort(EntryLeq, entries));
  }

  /** Two values encode alike exactly when their canonical forms agree. */
  lemma EncodeInjective(a: Value, b: Value)
    ensures Encode(a) == Encode(b) <==> Canon(a) == Canon(b)
  {
    RoundTrip(a);
    RoundTrip(b);
    CanonEncodes(a);
    CanonEncodes(b);
  }

  lemma CanonIdempotent(v: Value)
    ensures Canon(Canon(v)) == Canon(v)
  {
    CanonEncodes(v);
    EncodeInjective(Canon(v), v);
  }

  function KeysOf(members: seq<Member>): seq<string> {
    seq(|members|, i requires 0 <= i < |members| => members[i].key)
  }

  /** The insertion order of a dict's members does not show. */
  lemma InsertionOrder(a: seq<Member>, b: seq<Member>)
    requires Distinct(KeysOf(a)) && multiset(a) == multiset(b)
    ensures Encode(Obj(a)) == Encode(Obj(b))
  {
    EntryPreorder();
    forall x, y | x in a && y in a && MemberLeq(x, y) && MemberLeq(y, x) ensures x == y {
      StrAntisymmetric(x.key, y.key);
      var i :| 0 <= i < |a| && a[i] == x;
      var j :| 0 <= j < |a| && a[j] == y;
      assert KeysOf(a)[i] == KeysOf(a)[j];
    }
    SortPermutation(MemberLeq, a, b);
    SortedFrom(a);
    SortedFrom(b);
    assert WriteMembers(Obj(a), Sort(MemberLeq, a)) == WriteMembers(Obj(b), Sort(MemberLeq, b));
  }

  /** Writing items is writing their encodings. */
  lemma WriteIsEntries(v: Value, items: seq<Member>)
    requires v.Obj? && forall i :: 0 <= i < |items| ==> items[i] in v.members
    ensures WriteMembers(v, items) == EntryTexts(EncodeMembers(items))
  {
  }

  /** Sorting the encoded members and joining them is sorting the members and writing them. */
  lemma EncodedObject(members: seq<Member>)
    ensures ObjectText(EncodeMembers(members)) == Encode(Obj(members))
  {
    SortedFrom(members);
    SortEncodes(members);
    WriteIsEntries(Obj(members), Sort(MemberLeq, members));
  }

  /** `canonical_object_bytes` on members' encodings is the encoding of the whole object. */
  lemma Compositional(entries: seq<Entry>, members: seq<Member>)
    requires |entries| == |members|
    requires forall i :: 0 <= i < |entries| ==>
      entries[i].key == members[i].key && entries[i].text == Encode(members[i].value)
    ensures ObjectText(entries) == Encode(Obj(members))
  {
    assert entries == EncodeMembers(members);
    EncodedObject(members);
  }

  // ----- the digest envelope

  predicate DomainChar(c: char, first: bool) {
    'a' <= c <= 'z' || '0' <= c <= '9' || (!first && (c == '.' || c == '_' || c == '-'))
  }

  predicate DomainName(s: string) {
    s != [] && DomainChar(s[0], true) && forall c :: c in s ==> DomainChar(c, false)
  }

  /** `canonical_payload_digest`: the domain, the payload and the schema version in one object. */
  function Preimage(domain: string, payload: string, version: int): Option<string> {
    if !DomainName(domain) || version < 1 then None
    else Some(ObjectText([Entry("domain", Encode(Str(domain))), Entry("payload", payload),
                          Entry("schema_version", Encode(Int(version)))]))
  }

  /** A digest needs a positive version and a domain of lower-case letters, digits and inner punctuation. */
  lemma PreimageIff(domain: string, payload: string, version: int)
    ensures Preimage(domain, payload, version).Some? <==>
      && version > 0 && domain != [] && domain[0] !in {'-', '.', '_'}
      && forall i :: 0 <= i < |domain| ==>
        48 <= domain[i] as int <= 57 || 97 <= domain[i] as int <= 122 || domain[i] as int in {45, 46, 95}
  {
    if DomainName(domain) {
      forall i | 0 <= i < |domain| ensures DomainChar(domain[i], false) { assert domain[i] in domain; }
    }
  }

  function Envelope(domain: string, payload: Value, version: int): Value {
    Obj([Member("domain", Str(domain)), Member("payload", payload), Member("schema_version", Int(version))])
  }

  lemma PreimageEncodes(domain: string, payload: Value, version: int)
    requires DomainName(domain) && version >= 1
    ensures Preimage(domain, Encode(payload), version) == Some(Encode(Envelope(domain, payload, version)))
  {
    Compositional([Entry("domain", Encode(Str(domain))), Entry("payload", Encode(payload)),
                   Entry("schema_version", Encode(Int(version)))],
                  [Member("domain", Str(domain)), Member("payload", payload), Member("schema_version", Int(version))]);
  }

  lemma SortThree(a: Member, b: Member, c: Member)
    requires MemberLeq(a, b) && MemberLeq(b, c)
    ensures Sort(MemberLeq, [a, b, c]) == [a, b, c]
  {
    assert [a, b, c][1..] == [b, c] && [b, c][1..] == [c] && [c][1..] == [];
    assert Sort(MemberLeq, [c]) == [c];
    assert Sort(MemberLeq, [b, c]) == [b, c];
  }

  lemma EnvelopeKeys()
    ensures StrLeq("domain", "payload") && StrLeq("payload", "schema_version")
  {
  }

  lemma EnvelopeCanon(domain: string, payload: Value, version: int)
    ensures Canon(Envelope(domain, payload, version)) == Envelope(domain, Canon(payload), version)
  {
    var a, b := Member("domain", Str(domain)), Member("payload", Canon(payload));
    var c := Member("schema_version", Int(version));
    assert CanonMembers(Envelope(domain, payload, version).members) == [a, b, c];
    EnvelopeKeys();
    SortThree(a, b, c);
  }

  /** Equal preimages are equal domains, schema versions and payloads. */
  lemma PreimageInjective(d: string, p: Value, m: int, e: string, q: Value, n: int)
    requires DomainName(d) && DomainName(e) && m >= 1 && n >= 1
    ensures Preimage(d, Encode(p), m) == Preimage(e, Encode(q), n) <==> d == e && m == n && Canon(p) == Canon(q)
  {
    PreimageEncodes(d, p, m);
    PreimageEncodes(e, q, n);
    EncodeInjective(Envelope(d, p, m), Envelope(e, q, n));
    EnvelopeCanon(d, p, m);
    EnvelopeCanon(e, q, n);
    assert Envelope(d, Canon(p), m) == Envelope(e, Canon(q), n) <==> d == e && m == n && Canon(p) == Canon(q) by {
      var x, y := Envelope(d, Canon(p), m).members, Envelope(e, Canon(q), n).members;
      assert x == y ==> x[0] == y[0] && x[1] == y[1] && x[2] == y[2];
    }
  }
}
