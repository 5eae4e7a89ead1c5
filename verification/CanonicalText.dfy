// canonical_blob of schema_preparation_cache.py: json.dumps with sorted keys, compact
// separators and ASCII escapes. Two snapshots get the same text exactly when they are
// the same JSON value with object keys unordered; a parser that undoes the printer shows it.
module CanonicalText {
  import opened Json
  import opened Sorting
  import opened Decimal

  // ------------------------------------------------------------------------------
  // Printing
  // ------------------------------------------------------------------------------

  // The repr of a finite double is foreign code: some token for each double, from which
  // the double can be read back.
  datatype FloatText = FloatText(isDouble: real -> bool, print_: real -> string, read_: string -> real)

  predicate NumberChar(c: char) {
    '0' <= c <= '9' || c in "+-.eE"
  }

  predicate NumberStart(c: char) {
    '0' <= c <= '9' || c == '-'
  }

  predicate FloatToken(t: string) {
    && t != [] && NumberStart(t[0])
    && (forall i :: 0 <= i < |t| ==> NumberChar(t[i]))
    && ('.' in t || 'e' in t)
  }

  ghost predicate Faithful(ft: FloatText) {
    forall x :: ft.isDouble(x) ==> FloatToken(ft.print_(x)) && ft.read_(ft.print_(x)) == x
  }

  // Every float of the value is a finite double.
  ghost predicate Doubles(ft: FloatText, j: Json) {
    match j
    case JFloat(x) => ft.isDouble(x)
    case JArr(items) => forall y :: y in items ==> Doubles(ft, y)
    case JObj(keys, m) => forall k :: k in m ==> Doubles(ft, m[k])
    case _ => true
  }

  function HexDigit(d: int): char
    requires 0 <= d < 16
  {
    "0123456789abcdef"[d]
  }

  function Hex4(n: int): string
    requires 0 <= n < 0x10000
  {
    [HexDigit(n / 4096), HexDigit(n / 256 % 16), HexDigit(n / 16 % 16), HexDigit(n % 16)]
  }

  // Section 7 of RFC 8259, with everything outside printable ASCII escaped; a character
  // beyond the basic plane becomes a surrogate pair.
  function EscapedChar(c: char): string {
    if c == '"' then "\\\""
    else if c == '\\' then "\\\\"
    else if c == '\n' then "\\n"
    else if c == '\r' then "\\r"
    else if c == '\t' then "\\t"
    else if c == '\U{c}' then "\\f"
    else if c == '\U{8}' then "\\b"
    else if ' ' <= c <= '~' then [c]
    else if c as int < 0x10000 then "\\u" + Hex4(c as int)
    else
      var v := c as int - 0x10000;
      "\\u" + Hex4(0xd800 + v / 1024) + "\\u" + Hex4(0xdc00 + v % 1024)
  }

  function Escaped(s: string): string {
    if s == [] then "" else EscapedChar(s[0]) + Escaped(s[1..])
  }

  function Quoted(s: string): string {
    "\"" + Escaped(s) + "\""
  }

  function SortedKeys(keys: seq<string>): seq<string> {
    Sort(keys, StringLeq)
  }

  // canonical_blob.
  function Blob(ft: FloatText, j: Json): string
    requires WellFormed(j)
    decreases j, 2
  {
    match j
    case JNull => "null"
    case JBool(b) => if b then "true" else "false"
    case JInt(n) => IntText(n)
    case JFloat(x) => ft.print_(x)
    case JStr(s) => Quoted(s)
    case JArr(items) => "[" + ItemsText(ft, items) + "]"
    case JObj(keys, m) =>
      SortedKeysAreTheKeys(j);
      "{" + MembersText(ft, j, SortedKeys(keys)) + "}"
  }

  function ItemsText(ft: FloatText, items: seq<Json>): string
    requires forall x :: x in items ==> WellFormed(x)
    decreases items, 0
  {
    if items == [] then ""
    else if |items| == 1 then Blob(ft, items[0])
    else Blob(ft, items[0]) + "," + ItemsText(ft, items[1..])
  }

  function MemberText(ft: FloatText, j: Json, k: string): string
    requires j.JObj? && k in j.m && WellFormed(j)
    decreases j, 0
  {
    Quoted(k) + ":" + Blob(ft, j.m[k])
  }

  function MembersText(ft: FloatText, j: Json, ks: seq<string>): string
    requires j.JObj? && WellFormed(j) && forall k :: k in ks ==> k in j.m
    decreases j, 1, |ks|
  {
    if ks == [] then ""
    else if |ks| == 1 then MemberText(ft, j, ks[0])
    else MemberText(ft, j, ks[0]) + "," + MembersText(ft, j, ks[1..])
  }

  lemma SortedKeysAreTheKeys(j: Json)
    requires j.JObj? && WellFormed(j)
    ensures forall k :: k in SortedKeys(j.keys) <==> k in j.m
    ensures |SortedKeys(j.keys)| == |j.keys|
  {
    StringOrder();
    SortMembers(j.keys, StringLeq);
    SortSorts(j.keys, StringLeq);
  }

  // ------------------------------------------------------------------------------
  // Parsing
  // ------------------------------------------------------------------------------

  datatype Parsed<+T> = Fail | Got(value: T, rest: string)

  predicate Starts(s: string, prefix: string) {
    prefix <= s
  }

  function HexValue(c: char): int {
    if '0' <= c <= '9' then c as int - '0' as int
    else if 'a' <= c <= 'f' then c as int - 'a' as int + 10
    else -1
  }

  function ReadHex4(s: string): int
    requires |s| >= 4
  {
    var a, b, c, d := HexValue(s[0]), HexValue(s[1]), HexValue(s[2]), HexValue(s[3]);
    if a < 0 || b < 0 || c < 0 || d < 0 then -1 else ((a * 16 + b) * 16 + c) * 16 + d
  }

  // One \uXXXX escape, or the two that spell a character beyond the basic plane; s starts
  // after the first "\u".
  function ParseUnicode(s: string): (r: Parsed<char>)
    ensures r.Got? ==> |r.rest| < |s|
  {
    if |s| < 4 then Fail
    else
      var n := ReadHex4(s);
      if n < 0 || 0xdc00 <= n < 0xe000 then Fail
      else if 0xd800 <= n < 0xdc00 then
        if |s| < 10 || s[4] != '\\' || s[5] != 'u' then Fail
        else
          var low := ReadHex4(s[6..]);
          if 0xdc00 <= low < 0xe000 then
            Got((0x10000 + (n - 0xd800) * 1024 + (low - 0xdc00)) as char, s[10..])
          else Fail
      else if n < 0x10000 then Got(n as char, s[4..])
      else Fail
  }

  function ParseChar(s: string): (r: Parsed<char>)
    ensures r.Got? ==> |r.rest| < |s|
  {
    if s == [] then Fail
    else if s[0] != '\\' then Got(s[0], s[1..])
    else if |s| < 2 then Fail
    else if s[1] == '"' then Got('"', s[2..])
    else if s[1] == '\\' then Got('\\', s[2..])
    else if s[1] == 'n' then Got('\n', s[2..])
    else if s[1] == 'r' then Got('\r', s[2..])
    else if s[1] == 't' then Got('\t', s[2..])
    else if s[1] == 'f' then Got('\U{c}', s[2..])
    else if s[1] == 'b' then Got('\U{8}', s[2..])
    else if s[1] == 'u' then ParseUnicode(s[2..])
    else Fail
  }

  // The rest of a string literal, after its opening quote.
  function ParseString(s: string): (r: Parsed<string>)
    ensures r.Got? ==> |r.rest| < |s|
    decreases |s|
  {
    if s == [] then Fail
    else if s[0] == '"' then Got("", s[1..])
    else
      match ParseChar(s)
      case Fail => Fail
      case Got(c, rest) =>
        match ParseString(rest)
        case Fail => Fail
        case Got(cs, rest') => Got([c] + cs, rest')
  }

  function NumberLength(s: string): nat {
    if s == [] || !NumberChar(s[0]) then 0 else 1 + NumberLength(s[1..])
  }

  lemma NumberLengthBound(s: string)
    ensures NumberLength(s) <= |s|
  {
  }

  function ParseNumber(ft: FloatText, s: string): (r: Parsed<Value>)
    requires s != [] && NumberStart(s[0])
    ensures r.Got? ==> |r.rest| < |s|
  {
    NumberLengthBound(s);
    var n := NumberLength(s);
    var token := s[..n];
    if '.' in token || 'e' in token then Got(VFloat(ft.read_(token)), s[n..])
    else Got(VInt(IntOf(token)), s[n..])
  }

  function ParseValue(ft: FloatText, s: string): (r: Parsed<Value>)
    ensures r.Got? ==> |r.rest| < |s|
    decreases |s|, 1
  {
    if s == [] then Fail
    else if s[0] == '"' then
      match ParseString(s[1..])
      case Fail => Fail
      case Got(t, rest) => Got(VStr(t), rest)
    else if s[0] == '[' then
      if Starts(s[1..], "]") then Got(VArr([]), s[2..])
      else
        match ParseItems(ft, s[1..])
        case Fail => Fail
        case Got(items, rest) => Got(VArr(items), rest)
    else if s[0] == '{' then
      if Starts(s[1..], "}") then Got(VObj(map[]), s[2..])
      else
        match ParseMembers(ft, s[1..])
        case Fail => Fail
        case Got(m, rest) => Got(VObj(m), rest)
    else if Starts(s, "null") then Got(VNull, s[4..])
    else if Starts(s, "true") then Got(VBool(true), s[4..])
    else if Starts(s, "false") then Got(VBool(false), s[5..])
    else if NumberStart(s[0]) then ParseNumber(ft, s)
    else Fail
  }

  function ParseItems(ft: FloatText, s: string): (r: Parsed<seq<Value>>)
    ensures r.Got? ==> |r.rest| < |s|
    decreases |s|, 2
  {
    match ParseValue(ft, s)
    case Fail => Fail
    case Got(v, rest) =>
      if Starts(rest, "]") then Got([v], rest[1..])
      else if Starts(rest, ",") then
        match ParseItems(ft, rest[1..])
        case Fail => Fail
        case Got(vs, rest') => Got([v] + vs, rest')
      else Fail
  }

  function ParseMember(ft: FloatText, s: string): (r: Parsed<(string, Value)>)
    ensures r.Got? ==> |r.rest| < |s|
    decreases |s|, 2
  {
    if !Starts(s, "\"") then Fail
    else
      match ParseString(s[1..])
      case Fail => Fail
      case Got(k, rest) =>
        if !Starts(rest, ":") then Fail
        else
          match ParseValue(ft, rest[1..])
          case Fail => Fail
          case Got(v, rest') => Got((k, v), rest')
  }

  function ParseMembers(ft: FloatText, s: string): (r: Parsed<map<string, Value>>)
    ensures r.Got? ==> |r.rest| < |s|
    decreases |s|, 3
  {
    match ParseMember(ft, s)
    case Fail => Fail
    case Got(kv, rest) =>
      if Starts(rest, "}") then Got(map[kv.0 := kv.1], rest[1..])
      else if Starts(rest, ",") then
        match ParseMembers(ft, rest[1..])
        case Fail => Fail
        case Got(m, rest') => Got(map[kv.0 := kv.1] + m, rest')
      else Fail
  }

  // ------------------------------------------------------------------------------
  // Strings and numbers come back
  // ------------------------------------------------------------------------------

  lemma HexRoundTrip(n: int, rest: string)
    requires 0 <= n < 0x10000
    ensures ReadHex4(Hex4(n) + rest) == n && (Hex4(n) + rest)[4..] == rest
  {
    hide HexDigit, HexValue;
    var a, b, c, d := n / 4096, n / 256 % 16, n / 16 % 16, n % 16;
    DigitRoundTrip(a);
    DigitRoundTrip(b);
    DigitRoundTrip(c);
    DigitRoundTrip(d);
    DigitsMakeTheNumber(n);
    var s := Hex4(n) + rest;
    assert s[0] == HexDigit(a) && s[1] == HexDigit(b) && s[2] == HexDigit(c) && s[3] == HexDigit(d);
  }

  lemma DigitRoundTrip(d: int)
    requires 0 <= d < 16
    ensures HexValue(HexDigit(d)) == d
  {
  }

  lemma DigitsMakeTheNumber(n: int)
    requires 0 <= n < 0x10000
    ensures n == ((n / 4096 * 16 + n / 256 % 16) * 16 + n / 16 % 16) * 16 + n % 16
  {
    assert n / 256 / 16 == n / 4096 && n / 16 / 16 == n / 256;
  }

  lemma UnicodeRoundTrip(c: char, rest: string)
    requires c as int < 0x10000
    ensures ParseUnicode(Hex4(c as int) + rest) == Got(c, rest)
  {
    HexRoundTrip(c as int, rest);
  }

  lemma SurrogateRoundTrip(c: char, rest: string)
    requires c as int >= 0x10000
    ensures var v := c as int - 0x10000;
            ParseUnicode(Hex4(0xd800 + v / 1024) + ("\\u" + (Hex4(0xdc00 + v % 1024) + rest))) == Got(c, rest)
  {
    hide ReadHex4;
    var v := c as int - 0x10000;
    var hi, lo := 0xd800 + v / 1024, 0xdc00 + v % 1024;
    HexRoundTrip(hi, "\\u" + (Hex4(lo) + rest));
    HexRoundTrip(lo, rest);
    PairParses(Hex4(hi) + ("\\u" + (Hex4(lo) + rest)), Hex4(lo) + rest, rest, hi, lo);
  }

  // A high surrogate, "\\u" and a low surrogate.
  lemma PairParses(s: string, tail: string, rest: string, hi: int, lo: int)
    requires |s| >= 10 && ReadHex4(s) == hi && s[4..] == "\\u" + tail && ReadHex4(tail) == lo && tail[4..] == rest
    requires 0xd800 <= hi < 0xdc00 && 0xdc00 <= lo < 0xe000
    ensures ParseUnicode(s) == Got((0x10000 + (hi - 0xd800) * 1024 + (lo - 0xdc00)) as char, rest)
  {
    hide ReadHex4;
    assert s[4] == s[4..][0] == '\\' && s[5] == s[4..][1] == 'u';
    assert s[6..] == s[4..][2..] == tail;
    assert s[10..] == s[6..][4..] == rest;
  }

  lemma CharRoundTrip(c: char, rest: string)
    ensures ParseChar(EscapedChar(c) + rest) == Got(c, rest)
    ensures EscapedChar(c)[0] != '"'
  {
    if EscapedChar(c)[0] != '\\' {
      assert (EscapedChar(c) + rest)[1..] == rest;
    } else if EscapedChar(c)[1] != 'u' {
      ShortEscapeRoundTrip(c, rest);
    } else {
      LongEscapeRoundTrip(c, rest);
    }
  }

  lemma ShortEscapeRoundTrip(c: char, rest: string)
    requires EscapedChar(c)[0] == '\\' && EscapedChar(c)[1] != 'u'
    ensures ParseChar(EscapedChar(c) + rest) == Got(c, rest)
  {
    hide Hex4, ParseUnicode;
    assert |EscapedChar(c)| == 2;
    var s := EscapedChar(c) + rest;
    assert s[0] == EscapedChar(c)[0] && s[1] == EscapedChar(c)[1] && s[2..] == rest;
  }

  lemma LongEscapeRoundTrip(c: char, rest: string)
    requires EscapedChar(c)[0] == '\\' && EscapedChar(c)[1] == 'u'
    ensures ParseChar(EscapedChar(c) + rest) == Got(c, rest)
  {
    hide Hex4, ParseUnicode, EscapedChar;
    LongEscapeIs(c);
    var s := EscapedChar(c) + rest;
    assert s[0] == '\\' && s[1] == 'u';
    if c as int < 0x10000 {
      assert s[2..] == Hex4(c as int) + rest;
      UnicodeRoundTrip(c, rest);
    } else {
      var v := c as int - 0x10000;
      assert s[2..] == Hex4(0xd800 + v / 1024) + ("\\u" + (Hex4(0xdc00 + v % 1024) + rest));
      SurrogateRoundTrip(c, rest);
    }
  }

  lemma LongEscapeIs(c: char)
    requires EscapedChar(c)[0] == '\\' && EscapedChar(c)[1] == 'u'
    ensures EscapedChar(c) == if c as int < 0x10000 then "\\u" + Hex4(c as int)
                              else var v := c as int - 0x10000;
                                   "\\u" + Hex4(0xd800 + v / 1024) + "\\u" + Hex4(0xdc00 + v % 1024)
  {
    hide Hex4;
  }

  lemma {:induction false} StringRoundTrip(s: string, rest: string)
    ensures ParseString(Escaped(s) + "\"" + rest) == Got(s, rest)
  {
    hide EscapedChar, ParseChar;
    var text := Escaped(s) + "\"" + rest;
    if s == [] {
      assert text[1..] == rest;
    } else {
      var rest' := Escaped(s[1..]) + "\"" + rest;
      EscapeIsNoQuote(s[0]);
      assert text == EscapedChar(s[0]) + rest';
      assert text[0] == EscapedChar(s[0])[0];
      CharRoundTrip(s[0], rest');
      StringRoundTrip(s[1..], rest);
      assert s == [s[0]] + s[1..];
    }
  }

  lemma EscapeIsNoQuote(c: char)
    ensures EscapedChar(c) != [] && EscapedChar(c)[0] != '"'
  {
    hide Hex4;
  }

  lemma IntRoundTrip(n: int)
    ensures var t := IntText(n);
            t != [] && IntOf(t) == n && NumberStart(t[0]) && '.' !in t && 'e' !in t
            && forall i :: 0 <= i < |t| ==> NumberChar(t[i])
  {
    NatRoundTrip(if n < 0 then -n else n);
    if n < 0 {
      assert IntText(n)[1..] == NatText(-n);
    }
  }

  // What may follow a number: nothing that could extend it.
  predicate Follows(rest: string) {
    rest == [] || !NumberChar(rest[0])
  }

  lemma {:induction false} NumberLengthOf(token: string, rest: string)
    requires Follows(rest) && forall i :: 0 <= i < |token| ==> NumberChar(token[i])
    ensures NumberLength(token + rest) == |token|
  {
    if token == [] {
      assert token + rest == rest;
    } else {
      assert (token + rest)[1..] == token[1..] + rest;
      NumberLengthOf(token[1..], rest);
    }
  }

  lemma NumberRoundTrip(ft: FloatText, token: string, rest: string)
    requires Follows(rest) && token != [] && NumberStart(token[0])
    requires forall i :: 0 <= i < |token| ==> NumberChar(token[i])
    ensures ParseValue(ft, token + rest)
         == Got(if '.' in token || 'e' in token then VFloat(ft.read_(token)) else VInt(IntOf(token)), rest)
  {
    var s := token + rest;
    NumberLengthOf(token, rest);
    assert s[..|token|] == token && s[|token|..] == rest;
    assert s[0] == token[0];
  }

  // ------------------------------------------------------------------------------
  // The parser undoes the printer
  // ------------------------------------------------------------------------------

  lemma FirstChar(ft: FloatText, j: Json)
    requires WellFormed(j) && Doubles(ft, j) && Faithful(ft)
    ensures Blob(ft, j) != [] && Blob(ft, j)[0] !in "]}"
  {
    if j.JInt? {
      IntRoundTrip(j.n);
    } else if j.JFloat? {
      assert FloatToken(ft.print_(j.x));
    }
  }

  lemma LiteralRoundTrip(ft: FloatText, rest: string)
    ensures ParseValue(ft, "null" + rest) == Got(VNull, rest)
    ensures ParseValue(ft, "true" + rest) == Got(VBool(true), rest)
    ensures ParseValue(ft, "false" + rest) == Got(VBool(false), rest)
  {
    assert ("null" + rest)[4..] == ("true" + rest)[4..] == ("false" + rest)[5..] == rest;
  }

  lemma QuotedRoundTrip(ft: FloatText, t: string, rest: string)
    ensures ParseValue(ft, Quoted(t) + rest) == Got(VStr(t), rest)
  {
    hide Escaped, ParseString;
    StringRoundTrip(t, rest);
    assert (Quoted(t) + rest)[1..] == Escaped(t) + "\"" + rest;
  }

  lemma {:induction false} BlobRoundTrip(ft: FloatText, j: Json, rest: string)
    requires WellFormed(j) && Doubles(ft, j) && Faithful(ft) && Follows(rest)
    ensures ParseValue(ft, Blob(ft, j) + rest) == Got(Unordered(j), rest)
    decreases j, 2
  {
    hide ParseValue, IntText, Quoted, NumberStart, NumberChar;
    match j
    case JNull => LiteralRoundTrip(ft, rest);
    case JBool(b) => LiteralRoundTrip(ft, rest);
    case JInt(n) =>
      IntRoundTrip(n);
      NumberRoundTrip(ft, IntText(n), rest);
    case JFloat(x) =>
      assert FloatToken(ft.print_(x));
      NumberRoundTrip(ft, ft.print_(x), rest);
    case JStr(t) => QuotedRoundTrip(ft, t, rest);
    case JArr(_) => ArrayRoundTrip(ft, j, rest);
    case JObj(_, _) => ObjectRoundTrip(ft, j, rest);
  }

  lemma FirstItemChar(ft: FloatText, items: seq<Json>)
    requires items != [] && Faithful(ft)
    requires forall x :: x in items ==> WellFormed(x) && Doubles(ft, x)
    ensures ItemsText(ft, items) != [] && ItemsText(ft, items)[0] !in "]}"
  {
    hide Blob;
    FirstChar(ft, items[0]);
    assert ItemsText(ft, items)[0] == Blob(ft, items[0])[0];
  }

  lemma EmptyText(ft: FloatText, j: Json)
    ensures ItemsText(ft, []) == ""
    ensures j.JObj? && WellFormed(j) ==> MembersText(ft, j, []) == ""
  {
  }

  lemma NotClosing(s: string)
    requires s != [] && s[0] !in "]}"
    ensures !Starts(s, "]") && !Starts(s, "}")
  {
    assert "]}"[0] == ']' && "]}"[1] == '}';
  }

  lemma {:induction false} ArrayRoundTrip(ft: FloatText, j: Json, rest: string)
    requires j.JArr? && WellFormed(j) && Doubles(ft, j) && Faithful(ft) && Follows(rest)
    ensures ParseValue(ft, Blob(ft, j) + rest) == Got(Unordered(j), rest)
    decreases j, 1
  {
    hide ParseItems, ItemsText;
    var s, items := Blob(ft, j) + rest, j.items;
    assert s[1..] == ItemsText(ft, items) + "]" + rest;
    EmptyText(ft, j);
    if items == [] {
      assert s[2..] == rest;
    } else {
      FirstItemChar(ft, items);
      NotClosing(s[1..]);
      ItemsRoundTrip(ft, items, rest);
    }
  }

  lemma {:induction false} ItemsRoundTrip(ft: FloatText, items: seq<Json>, rest: string)
    requires items != [] && Faithful(ft)
    requires forall x :: x in items ==> WellFormed(x) && Doubles(ft, x)
    ensures ParseItems(ft, ItemsText(ft, items) + "]" + rest)
         == Got(UnorderedItems(items), rest)
    decreases items, 0
  {
    hide Blob, ParseValue, Unordered;
    var text := Blob(ft, items[0]);
    if |items| == 1 {
      assert text + "]" + rest == text + ("]" + rest);
      BlobRoundTrip(ft, items[0], "]" + rest);
      assert UnorderedItems(items) == [Unordered(items[0])] + UnorderedItems(items[1..]) == [Unordered(items[0])];
      assert ("]" + rest)[1..] == rest;
    } else {
      var rest' := ItemsText(ft, items[1..]) + "]" + rest;
      assert ItemsText(ft, items) + "]" + rest == text + ("," + rest');
      BlobRoundTrip(ft, items[0], "," + rest');
      assert ("," + rest')[1..] == rest';
      ItemsRoundTrip(ft, items[1..], rest);
    }
  }

  lemma {:induction false} ObjectRoundTrip(ft: FloatText, j: Json, rest: string)
    requires j.JObj? && WellFormed(j) && Doubles(ft, j) && Faithful(ft) && Follows(rest)
    ensures ParseValue(ft, Blob(ft, j) + rest) == Got(Unordered(j), rest)
    decreases j, 1
  {
    hide ParseMembers, MembersText, Sort;
    SortedKeysAreTheKeys(j);
    EmptyText(ft, j);
    var s, ks := Blob(ft, j) + rest, SortedKeys(j.keys);
    assert s[1..] == MembersText(ft, j, ks) + "}" + rest;
    if ks == [] {
      assert s[2..] == rest;
      assert j.m == map[];
    } else {
      FirstMemberChar(ft, j, ks);
      NotClosing(s[1..]);
      MembersRoundTrip(ft, j, ks, rest);
      assert MembersValue(j, ks) == Unordered(j).m;
    }
  }

  lemma FirstMemberChar(ft: FloatText, j: Json, ks: seq<string>)
    requires j.JObj? && WellFormed(j) && ks != [] && forall k :: k in ks ==> k in j.m
    ensures MembersText(ft, j, ks) != [] && MembersText(ft, j, ks)[0] == '"'
  {
    hide Blob, Escaped;
  }

  ghost function MembersValue(j: Json, ks: seq<string>): map<string, Value>
    requires j.JObj? && forall k :: k in ks ==> k in j.m
  {
    map k | k in ks :: Unordered(j.m[k])
  }

  lemma MembersValueUnfolds(j: Json, ks: seq<string>)
    requires j.JObj? && ks != [] && forall k :: k in ks ==> k in j.m
    ensures MembersValue(j, ks) == map[ks[0] := Unordered(j.m[ks[0]])] + MembersValue(j, ks[1..])
    ensures |ks| == 1 ==> MembersValue(j, ks) == map[ks[0] := Unordered(j.m[ks[0]])]
  {
    hide Unordered;
    assert ks == [ks[0]] + ks[1..];
    assert |ks| == 1 ==> MembersValue(j, ks[1..]) == map[];
  }

  lemma {:induction false} MemberRoundTrip(ft: FloatText, j: Json, k: string, rest: string)
    requires j.JObj? && WellFormed(j) && Doubles(ft, j) && Faithful(ft) && Follows(rest) && k in j.m
    ensures ParseMember(ft, MemberText(ft, j, k) + rest) == Got((k, Unordered(j.m[k])), rest)
    decreases j, 0, 0
  {
    hide Blob, ParseValue, Escaped, ParseString, Unordered;
    var text := Blob(ft, j.m[k]) + rest;
    var s := MemberText(ft, j, k) + rest;
    assert s[1..] == Escaped(k) + "\"" + (":" + text);
    StringRoundTrip(k, ":" + text);
    assert (":" + text)[1..] == text;
    BlobRoundTrip(ft, j.m[k], rest);
  }

  lemma {:induction false} MembersRoundTrip(ft: FloatText, j: Json, ks: seq<string>, rest: string)
    requires j.JObj? && WellFormed(j) && Doubles(ft, j) && Faithful(ft)
    requires ks != [] && forall k :: k in ks ==> k in j.m
    ensures ParseMembers(ft, MembersText(ft, j, ks) + "}" + rest) == Got(MembersValue(j, ks), rest)
    decreases j, 0, |ks|
  {
    hide MemberText, ParseMember, MembersValue;
    var text := MemberText(ft, j, ks[0]);
    if |ks| == 1 {
      assert text + "}" + rest == text + ("}" + rest);
      MemberRoundTrip(ft, j, ks[0], "}" + rest);
      assert ("}" + rest)[1..] == rest;
      MembersValueUnfolds(j, ks);
    } else {
      var rest' := MembersText(ft, j, ks[1..]) + "}" + rest;
      assert MembersText(ft, j, ks) + "}" + rest == text + ("," + rest');
      MemberRoundTrip(ft, j, ks[0], "," + rest');
      assert ("," + rest')[1..] == rest';
      MembersRoundTrip(ft, j, ks[1..], rest);
      MembersValueUnfolds(j, ks);
    }
  }

  // ------------------------------------------------------------------------------
  // Same text exactly when same unordered value
  // ------------------------------------------------------------------------------

  lemma {:induction false} SameValueSameBlob(ft: FloatText, a: Json, b: Json)
    requires WellFormed(a) && WellFormed(b) && Unordered(a) == Unordered(b)
    ensures Blob(ft, a) == Blob(ft, b)
    decreases a, 2
  {
    if a.JArr? {
      assert b.JArr? && Unordered(a).items == Unordered(b).items;
      SameItems(ft, a.items, b.items);
    } else if a.JObj? {
      assert b.JObj? && Unordered(a).m == Unordered(b).m;
      assert a.m.Keys == Unordered(a).m.Keys == Unordered(b).m.Keys == b.m.Keys;
      SameSortedKeys(a, b);
      SortedKeysAreTheKeys(a);
      SameMembers(ft, a, b, SortedKeys(a.keys));
    }
  }

  lemma {:induction false} SameItems(ft: FloatText, a: seq<Json>, b: seq<Json>)
    requires forall x :: x in a ==> WellFormed(x)
    requires forall x :: x in b ==> WellFormed(x)
    requires UnorderedItems(a) == UnorderedItems(b)
    ensures ItemsText(ft, a) == ItemsText(ft, b)
    decreases a, 0
  {
    if a != [] {
      assert UnorderedItems(a)[0] == Unordered(a[0]) && UnorderedItems(b)[0] == Unordered(b[0]);
      assert UnorderedItems(a)[1..] == UnorderedItems(a[1..]) && UnorderedItems(b)[1..] == UnorderedItems(b[1..]);
      SameValueSameBlob(ft, a[0], b[0]);
      SameItems(ft, a[1..], b[1..]);
    }
  }

  lemma {:induction false} SameMembers(ft: FloatText, a: Json, b: Json, ks: seq<string>)
    requires a.JObj? && b.JObj? && WellFormed(a) && WellFormed(b)
    requires Unordered(a).m == Unordered(b).m
    requires forall k :: k in ks ==> k in a.m && k in b.m
    ensures MembersText(ft, a, ks) == MembersText(ft, b, ks)
    decreases a, 0, |ks|
  {
    if ks != [] {
      var k := ks[0];
      assert Unordered(a).m[k] == Unordered(a.m[k]) && Unordered(b).m[k] == Unordered(b.m[k]);
      SameValueSameBlob(ft, a.m[k], b.m[k]);
      SameMembers(ft, a, b, ks[1..]);
    }
  }

  lemma SameSortedKeys(a: Json, b: Json)
    requires a.JObj? && b.JObj? && WellFormed(a) && WellFormed(b) && a.m.Keys == b.m.Keys
    ensures SortedKeys(a.keys) == SortedKeys(b.keys)
  {
    StringOrder();
    SortSorts(a.keys, StringLeq);
    SortSorts(b.keys, StringLeq);
    assert forall k :: k in a.keys <==> k in b.keys;
    DistinctMultiset(a.keys, b.keys);
    SortedUnique(SortedKeys(a.keys), SortedKeys(b.keys), StringLeq);
  }

  lemma DistinctMultiset(a: seq<string>, b: seq<string>)
    requires forall i, j :: 0 <= i < j < |a| ==> a[i] != a[j]
    requires forall i, j :: 0 <= i < j < |b| ==> b[i] != b[j]
    requires forall k :: k in a <==> k in b
    ensures multiset(a) == multiset(b)
  {
    forall k ensures multiset(a)[k] == multiset(b)[k] {
      OnceEach(a, k);
      OnceEach(b, k);
    }
  }

  lemma {:induction false} OnceEach(a: seq<string>, k: string)
    requires forall i, j :: 0 <= i < j < |a| ==> a[i] != a[j]
    ensures multiset(a)[k] == if k in a then 1 else 0
  {
    if a != [] {
      OnceEach(a[1..], k);
      assert a == [a[0]] + a[1..];
    }
  }

  lemma BlobIdentifiesTheValue(ft: FloatText, a: Json, b: Json)
    requires WellFormed(a) && Doubles(ft, a) && WellFormed(b) && Doubles(ft, b) && Faithful(ft)
    ensures Blob(ft, a) == Blob(ft, b) <==> Unordered(a) == Unordered(b)
  {
    if Blob(ft, a) == Blob(ft, b) {
      BlobRoundTrip(ft, a, "");
      BlobRoundTrip(ft, b, "");
    } else if Unordered(a) == Unordered(b) {
      SameValueSameBlob(ft, a, b);
    }
  }
}
