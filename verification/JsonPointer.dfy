// Local JSON pointers of contract_admission.py: _unescape_pointer_token and
// _resolve_pointer, against the escaping of section 3 of RFC 6901.
module JsonPointer {
  import opened Options
  import opened Json
  import opened Decimal

  // ------------------------------------------------------------------------------
  // Tokens
  // ------------------------------------------------------------------------------

  // str.replace with a two-character pattern.
  function Replace(s: string, a: char, b: char, new_: char): string {
    if |s| < 2 then s
    else if s[0] == a && s[1] == b then [new_] + Replace(s[2..], a, b, new_)
    else [s[0]] + Replace(s[1..], a, b, new_)
  }

  // _unescape_pointer_token: two passes, "~1" first.
  function Unescape(token: string): string {
    Replace(Replace(token, '~', '1', '/'), '~', '0', '~')
  }

  // Section 4 of RFC 6901 read as one left-to-right pass.
  function Decode(token: string): string {
    if |token| >= 2 && token[0] == '~' && token[1] == '1' then "/" + Decode(token[2..])
    else if |token| >= 2 && token[0] == '~' && token[1] == '0' then "~" + Decode(token[2..])
    else if token == [] then []
    else [token[0]] + Decode(token[1..])
  }

  // Section 3 of RFC 6901.
  function Escape(s: string): string {
    if s == [] then []
    else (if s[0] == '~' then "~0" else if s[0] == '/' then "~1" else [s[0]]) + Escape(s[1..])
  }

  lemma {:induction false} ReplaceHead(s: string, a: char, b: char, new_: char)
    ensures s != [] ==> Replace(s, a, b, new_) != []
    ensures s != [] && !(|s| >= 2 && s[0] == a && s[1] == b) ==>
              Replace(s, a, b, new_) == [s[0]] + Replace(s[1..], a, b, new_)
    ensures |s| >= 2 && s[0] == a && s[1] == b ==> Replace(s, a, b, new_)[0] == new_
  {
    if |s| == 1 {
      assert s == [s[0]] + s[1..];
    }
  }

  // The two passes agree with the one-pass decoder on every string.
  lemma {:induction false} TwoPassesAreOne(s: string)
    ensures Unescape(s) == Decode(s)
    decreases |s|
  {
    if s != [] {
      var once := Replace(s, '~', '1', '/');
      ReplaceHead(s, '~', '1', '/');
      ReplaceHead(s[1..], '~', '1', '/');
      ReplaceHead(once, '~', '0', '~');
      if |s| >= 2 && s[0] == '~' && s[1] == '1' {
        TwoPassesAreOne(s[2..]);
        assert once == "/" + Replace(s[2..], '~', '1', '/');
      } else if |s| >= 2 && s[0] == '~' && s[1] == '0' {
        TwoPassesAreOne(s[2..]);
        assert s[1..][1..] == s[2..];
        assert once == ['~', '0'] + Replace(s[2..], '~', '1', '/');
        assert once[2..] == Replace(s[2..], '~', '1', '/');
      } else {
        TwoPassesAreOne(s[1..]);
        assert once[1..] == Replace(s[1..], '~', '1', '/');
      }
    }
  }

  lemma {:induction false} DecodeEscape(s: string)
    ensures Decode(Escape(s)) == s && '/' !in Escape(s)
  {
    if s != [] {
      DecodeEscape(s[1..]);
      assert s == [s[0]] + s[1..];
      var rest := Escape(s[1..]);
      if s[0] == '~' || s[0] == '/' {
        assert Escape(s)[2..] == rest;
      } else {
        assert Escape(s)[1..] == rest;
      }
    }
  }

  // ------------------------------------------------------------------------------
  // Splitting
  // ------------------------------------------------------------------------------

  // str.split(sep).
  function Split(s: string, sep: char): (r: seq<string>)
    ensures r != []
  {
    if s == [] then [""]
    else
      var rest := Split(s[1..], sep);
      if s[0] == sep then [""] + rest else [[s[0]] + rest[0]] + rest[1..]
  }

  // sep.join(tokens).
  function Join(tokens: seq<string>, sep: char): string {
    if tokens == [] then ""
    else if |tokens| == 1 then tokens[0]
    else tokens[0] + [sep] + Join(tokens[1..], sep)
  }

  lemma {:induction false} SplitToken(token: string, rest: string, sep: char)
    requires sep !in token
    ensures Split(token + [sep] + rest, sep) == [token] + Split(rest, sep)
    ensures Split(token, sep) == [token]
  {
    if token == [] {
      assert token + [sep] + rest == [sep] + rest;
      assert ([sep] + rest)[1..] == rest;
    } else {
      assert (token + [sep] + rest)[1..] == token[1..] + [sep] + rest;
      SplitToken(token[1..], rest, sep);
      assert token == [token[0]] + token[1..];
    }
  }

  lemma {:induction false} SplitJoin(tokens: seq<string>, sep: char)
    requires tokens != [] && forall t :: t in tokens ==> sep !in t
    ensures Split(Join(tokens, sep), sep) == tokens
  {
    if |tokens| == 1 {
      SplitToken(tokens[0], "", sep);
    } else {
      SplitToken(tokens[0], Join(tokens[1..], sep), sep);
      SplitJoin(tokens[1..], sep);
    }
  }

  // ------------------------------------------------------------------------------
  // Python's int() on a token
  // ------------------------------------------------------------------------------

  predicate IsSpace(c: char) {
    c in " \t\n\r" || c == '\U{b}' || c == '\U{c}' || '\U{1c}' <= c <= '\U{1f}'
  }

  function Stripped(s: string): string {
    if s == [] then s
    else if IsSpace(s[0]) then Stripped(s[1..])
    else if IsSpace(s[|s| - 1]) then Stripped(s[..|s| - 1])
    else s
  }

  predicate IsDigit(c: char) {
    '0' <= c <= '9'
  }

  // Digits, with single underscores between them.
  predicate IsNumeral(s: string) {
    && s != [] && IsDigit(s[0]) && IsDigit(s[|s| - 1])
    && forall i :: 0 <= i < |s| ==> IsDigit(s[i]) || (s[i] == '_' && 0 < i < |s| - 1 && IsDigit(s[i - 1]))
  }

  function DigitsOnly(s: string): string {
    if s == [] then [] else (if IsDigit(s[0]) then [s[0]] else []) + DigitsOnly(s[1..])
  }

  // int(token): None for ValueError.
  function PyInt(token: string): Option<int> {
    var s := Stripped(token);
    if s != [] && (s[0] == '-' || s[0] == '+') then
      (if IsNumeral(s[1..]) then Some(if s[0] == '-' then -NatOf(DigitsOnly(s[1..])) else NatOf(DigitsOnly(s[1..]))) else None)
    else if IsNumeral(s) then Some(NatOf(DigitsOnly(s)))
    else None
  }

  lemma {:induction false} DigitsOnlyOfDigits(s: string)
    requires forall i :: 0 <= i < |s| ==> IsDigit(s[i])
    ensures DigitsOnly(s) == s
  {
    if s != [] {
      DigitsOnlyOfDigits(s[1..]);
      assert s == [s[0]] + s[1..];
    }
  }

  lemma DigitIsNoSpace(c: char)
    requires IsDigit(c)
    ensures !IsSpace(c) && c != '-' && c != '+'
  {
  }

  lemma DigitsStayWhole(s: string)
    requires s != [] && forall i :: 0 <= i < |s| ==> IsDigit(s[i])
    ensures Stripped(s) == s && IsNumeral(s)
  {
    hide IsSpace;
    DigitIsNoSpace(s[0]);
    DigitIsNoSpace(s[|s| - 1]);
  }

  lemma PyIntOfDigits(s: string)
    requires s != [] && forall i :: 0 <= i < |s| ==> IsDigit(s[i])
    ensures PyInt(s) == Some(NatOf(s))
  {
    hide NatOf, IsSpace, Stripped, IsNumeral, DigitsOnly, IsDigit;
    DigitsOnlyOfDigits(s);
    DigitsStayWhole(s);
    DigitIsNoSpace(s[0]);
  }

  lemma PyIntOfNatText(n: nat)
    ensures PyInt(NatText(n)) == Some(n)
  {
    hide NatText, PyInt;
    NatRoundTrip(n);
    PyIntOfDigits(NatText(n));
  }

  // ------------------------------------------------------------------------------
  // Resolving
  // ------------------------------------------------------------------------------

  // One token; None is the _MISSING sentinel.
  function Descend(current: Json, token: string): Option<Json> {
    match current
    case JObj(_, m) => if token in m then Some(m[token]) else None
    case JArr(items) =>
      (match PyInt(token)
       case None => None
       case Some(i) =>
         var at := if i < 0 then i + |items| else i;
         if 0 <= at < |items| then Some(items[at]) else None)
    case _ => None
  }

  function Walk(current: Json, tokens: seq<string>): Option<Json> {
    if tokens == [] then Some(current)
    else
      match Descend(current, Unescape(tokens[0]))
      case None => None
      case Some(next) => Walk(next, tokens[1..])
  }

  function Body(pointer: string): string {
    if pointer != [] && pointer[0] == '#' then pointer[1..] else pointer
  }

  function Resolve(root: Json, pointer: string): Option<Json> {
    if pointer == "" || pointer == "#" then Some(root)
    else if Body(pointer) == [] || Body(pointer)[0] != '/' then None
    else Walk(root, Split(Body(pointer)[1..], '/'))
  }

  method ResolvePointer(root: Json, pointer: string) returns (target: Option<Json>)
    ensures target == Resolve(root, pointer)
  {
    hide Descend, Unescape, Split;
    if pointer == "" || pointer == "#" {
      return Some(root);
    }
    var body := if pointer[0] == '#' then pointer[1..] else pointer;
    if body == [] || body[0] != '/' {
      return None;
    }
    var tokens := Split(body[1..], '/');
    var current := root;
    for i := 0 to |tokens|
      invariant Walk(current, tokens[i..]) == Walk(root, tokens)
    {
      assert tokens[i..][1..] == tokens[i + 1..];
      var next := Descend(current, Unescape(tokens[i]));
      if next.None? {
        return None;
      }
      current := next.value;
    }
    target := Some(current);
  }

  // ------------------------------------------------------------------------------
  // Paths
  // ------------------------------------------------------------------------------

  datatype PathStep = Key(key: string) | Index(index: nat)

  // The node a path leads to in a document.
  function NodeAt(doc: Json, path: seq<PathStep>): Option<Json> {
    if path == [] then Some(doc)
    else
      match path[0]
      case Key(k) => if doc.JObj? && k in doc.m then NodeAt(doc.m[k], path[1..]) else None
      case Index(i) => if doc.JArr? && i < |doc.items| then NodeAt(doc.items[i], path[1..]) else None
  }

  function TokenOf(step: PathStep): string {
    match step
    case Key(k) => Escape(k)
    case Index(i) => Escape(NatText(i))
  }

  function TokensOf(path: seq<PathStep>): seq<string> {
    if path == [] then [] else [TokenOf(path[0])] + TokensOf(path[1..])
  }

  // The pointer of a path, as section 3 of RFC 6901 writes it.
  function PointerOf(path: seq<PathStep>): string {
    if path == [] then "" else "/" + Join(TokensOf(path), '/')
  }

  lemma {:induction false} WalkAlongPath(doc: Json, path: seq<PathStep>)
    requires NodeAt(doc, path).Some?
    ensures Walk(doc, TokensOf(path)) == NodeAt(doc, path)
    ensures forall t :: t in TokensOf(path) ==> '/' !in t
  {
    hide Unescape, Decode, Escape, PyInt, NatText;
    if path != [] {
      var raw := match path[0] case Key(k) => k case Index(i) => NatText(i);
      DecodeEscape(raw);
      TwoPassesAreOne(Escape(raw));
      if path[0].Index? {
        PyIntOfNatText(path[0].index);
      }
      var next := Descend(doc, raw).value;
      WalkAlongPath(next, path[1..]);
      assert TokensOf(path)[1..] == TokensOf(path[1..]);
    }
  }

  // A pointer that starts with '/', bare or as a fragment.
  lemma ResolveSlash(doc: Json, body: string)
    ensures Resolve(doc, "/" + body) == Walk(doc, Split(body, '/'))
    ensures Resolve(doc, "#" + ("/" + body)) == Walk(doc, Split(body, '/'))
  {
    hide Walk, Split;
    assert ("/" + body)[1..] == body;
    assert ("#" + ("/" + body))[1..] == "/" + body;
  }

  // Printing any path of any document and resolving it, as a fragment or bare, returns
  // that very node.
  lemma PointerRoundTrip(doc: Json, path: seq<PathStep>)
    requires NodeAt(doc, path).Some?
    ensures Resolve(doc, PointerOf(path)) == NodeAt(doc, path)
    ensures Resolve(doc, "#" + PointerOf(path)) == NodeAt(doc, path)
  {
    if path == [] {
      assert "#" + PointerOf(path) == "#";
    } else {
      LongPointerRoundTrip(doc, path);
    }
  }

  lemma LongPointerRoundTrip(doc: Json, path: seq<PathStep>)
    requires path != [] && NodeAt(doc, path).Some?
    ensures Resolve(doc, PointerOf(path)) == NodeAt(doc, path)
    ensures Resolve(doc, "#" + PointerOf(path)) == NodeAt(doc, path)
  {
    hide Resolve, Walk, Split, Join, NodeAt;
    WalkAlongPath(doc, path);
    SplitJoin(TokensOf(path), '/');
    ResolveSlash(doc, Join(TokensOf(path), '/'));
  }

  // Whatever resolves is a node of the document.
  lemma {:induction false} WalkedIsANode(doc: Json, tokens: seq<string>) returns (path: seq<PathStep>)
    requires Walk(doc, tokens).Some?
    ensures NodeAt(doc, path) == Walk(doc, tokens)
  {
    path := [];
    if tokens != [] {
      var token := Unescape(tokens[0]);
      var rest := WalkedIsANode(Descend(doc, token).value, tokens[1..]);
      if doc.JObj? {
        path := [Key(token)] + rest;
      } else {
        var i := PyInt(token).value;
        path := [Index(if i < 0 then i + |doc.items| else i)] + rest;
      }
    }
  }

  lemma ResolvedIsANode(doc: Json, pointer: string) returns (path: seq<PathStep>)
    requires Resolve(doc, pointer).Some?
    ensures NodeAt(doc, path) == Resolve(doc, pointer)
  {
    if pointer == "" || pointer == "#" {
      path := [];
    } else {
      path := WalkedIsANode(doc, Split(Body(pointer)[1..], '/'));
    }
  }

  // ------------------------------------------------------------------------------
  // Array tokens against section 4 of RFC 6901
  // ------------------------------------------------------------------------------

  // array-index = "0" / digit1-9 followed by digits
  predicate IsArrayIndex(token: string) {
    && token != [] && (forall i :: 0 <= i < |token| ==> IsDigit(token[i]))
    && (|token| == 1 || token[0] != '0')
  }

  // The item an array token refers to; every other token, "-" among them, refers to none.
  function ItemAt(items: seq<Json>, token: string): Option<Json> {
    if IsArrayIndex(token) && 0 <= NatOf(token) < |items| then Some(items[NatOf(token)]) else None
  }

  lemma {:induction false} DigitsAreNatural(s: string)
    requires forall i :: 0 <= i < |s| ==> IsDigit(s[i])
    ensures NatOf(s) >= 0
    ensures s != [] && s[0] != '0' ==> NatOf(s) > 0
  {
    if s != [] {
      DigitsAreNatural(s[..|s| - 1]);
    }
  }

  // The grammar is exactly the decimal texts of the natural numbers.
  lemma {:induction false} ArrayIndexIsNatText(token: string)
    requires token != [] && forall i :: 0 <= i < |token| ==> IsDigit(token[i])
    ensures NatOf(token) >= 0 && (IsArrayIndex(token) ==> token == NatText(NatOf(token)))
  {
    DigitsAreNatural(token);
    var n := |token| - 1;
    assert token == token[..n] + [token[n]];
    if n == 0 {
      assert token[..0] == [] && NatOf(token[..0]) == 0;
    } else if token[0] != '0' {
      DigitsAreNatural(token[..n]);
      ArrayIndexIsNatText(token[..n]);
      LastDigit(NatOf(token[..n]), token[n]);
    }
  }

  lemma LastDigit(front: int, last: char)
    requires front > 0 && IsDigit(last)
    ensures var n := 10 * front + (last as int - '0' as int);
            n >= 10 && n / 10 == front && Digit(n % 10) == last
  {
  }

  lemma {:induction false} NatTextIsArrayIndex(n: nat)
    ensures IsArrayIndex(NatText(n)) && (n > 0 ==> NatText(n)[0] != '0')
  {
    if n >= 10 {
      NatTextIsArrayIndex(n / 10);
    }
  }

  lemma ArrayIndexReads(token: string)
    requires IsArrayIndex(token)
    ensures PyInt(token) == Some(NatOf(token)) && NatOf(token) >= 0
  {
    DigitsAreNatural(token);
    PyIntOfDigits(token);
  }

  // int() reads more tokens than section 4 of RFC 6901 allows, and the resolver differs from
  // it on exactly those: tokens that are not the decimal text of an index but read as an
  // integer from -n to n - 1. On all others the two agree.
  lemma LaxerExactlyWhen(items: seq<Json>, token: string)
    ensures Descend(JArr(items), token) != ItemAt(items, token)
       <==> && PyInt(token).Some? && -|items| <= PyInt(token).value < |items|
            && !(PyInt(token).value >= 0 && token == NatText(PyInt(token).value))
    ensures ItemAt(items, token).Some? ==> Descend(JArr(items), token) == ItemAt(items, token)
  {
    hide PyInt, NatText, NatOf;
    if IsArrayIndex(token) {
      ArrayIndexReads(token);
      ArrayIndexIsNatText(token);
    } else if PyInt(token).Some? && PyInt(token).value >= 0 {
      NatTextIsArrayIndex(PyInt(token).value);
    }
  }

  // A negative index counts from the end, and a sign is read.
  lemma IndexesAreLaxer(items: seq<Json>)
    requires |items| >= 2
    ensures Descend(JArr(items), "-1") == Some(items[|items| - 1]) && ItemAt(items, "-1") == None
    ensures Descend(JArr(items), "+1") == Some(items[1]) && ItemAt(items, "+1") == None
  {
    hide PyInt;
    SignedOne();
  }

  lemma SignedOne()
    ensures PyInt("-1") == Some(-1) && PyInt("+1") == Some(1)
    ensures !IsArrayIndex("-1") && !IsArrayIndex("+1")
  {
    assert "-1"[1..] == "1" && "+1"[1..] == "1";
    assert !IsDigit("-1"[0]) && !IsDigit("+1"[0]);
    One();
  }

  lemma One()
    ensures IsNumeral("1") && DigitsOnly("1") == "1" && NatOf("1") == 1
  {
    assert "1"[1..] == [] && "1"[..0] == [];
  }
}
