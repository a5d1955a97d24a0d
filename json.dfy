/** The pieces of `json.dumps(..., ensure_ascii=False, separators=(",", ":"), sort_keys=True)`
    that the transaction record uses (strings, integers, arrays, objects), and the parsers that
    read those pieces back, as `json.loads` does for this output. */
module Json {
  import opened Octets
  import Hex
  import Utf8
  import opened KeyOrder

  // ---------------------------------------------------------------- strings

  /** The characters a JSON string may not hold as they are: `"`, `\` and the controls below U+0020. */
  predicate NeedsEscape(c: char)
  {
    c == '"' || c == '\\' || (c as int) < 0x20
  }

  /** How one character is written inside a string literal. With `ensure_ascii=False` every
      other character, however far from ASCII, is written as it is. */
  function EscapeChar(c: char): (e: string)
    ensures !NeedsEscape(c) <==> e == [c]
    ensures NeedsEscape(c) ==> 2 <= |e| && e[0] == '\\'
  {
    if c == '"' then "\\\""
    else if c == '\\' then "\\\\"
    else if c == '\n' then "\\n"
    else if c == '\r' then "\\r"
    else if c == '\t' then "\\t"
    else if c == 8 as char then "\\b"
    else if c == 12 as char then "\\f"
    else if (c as int) < 0x20 then "\\u00" + [Hex.DigitChar(c as int / 16), Hex.DigitChar(c as int % 16)]
    else [c]
  }

  function Escape(s: string): string
  {
    if s == [] then [] else EscapeChar(s[0]) + Escape(s[1..])
  }

  /** A string literal. */
  function Quote(s: string): string
  {
    "\"" + Escape(s) + "\""
  }

  /** Text with nothing to escape is written as it is. */
  lemma {:induction false} EscapePlain(s: string)
    requires forall i :: 0 <= i < |s| ==> !NeedsEscape(s[i])
    ensures Escape(s) == s
  {
    if s != [] {
      EscapePlain(s[1..]);
      assert s == [s[0]] + s[1..];
    }
  }

  /** Reads one character of a string literal's body, escaped or not, and returns what follows.
      A raw control character is refused, as `json.loads` does by default. */
  function ParseUnit(s: string): (r: Option<(char, string)>)
    ensures r.Some? ==> |r.value.1| < |s|
  {
    if s == [] || s[0] == '"' || (s[0] as int) < 0x20 then None
    else if s[0] != '\\' then Some((s[0], s[1..]))
    else if |s| < 2 then None
    else
      var e := s[1];
      if e == '"' || e == '\\' || e == '/' then Some((e, s[2..]))
      else if e == 'b' then Some((8 as char, s[2..]))
      else if e == 'f' then Some((12 as char, s[2..]))
      else if e == 'n' then Some(('\n', s[2..]))
      else if e == 'r' then Some(('\r', s[2..]))
      else if e == 't' then Some(('\t', s[2..]))
      else if e == 'u' && |s| >= 6 then
        match (Hex.DigitValue(s[2]), Hex.DigitValue(s[3]), Hex.DigitValue(s[4]), Hex.DigitValue(s[5]))
        case (Some(d0), Some(d1), Some(d2), Some(d3)) =>
          var n := ((d0 * 16 + d1) * 16 + d2) * 16 + d3;
          if Utf8.IsScalar(n) then Some((n as char, s[6..])) else None
        case _ => None
      else None
  }

  /** Reads a string literal's body up to and including its closing quote. */
  function ParseChars(s: string): (r: Option<(string, string)>)
    ensures r.Some? ==> |r.value.1| < |s|
    decreases |s|
  {
    if s == [] then None
    else if s[0] == '"' then Some(([], s[1..]))
    else
      match ParseUnit(s)
      case None => None
      case Some((c, r)) =>
        match ParseChars(r)
        case None => None
        case Some((cs, r2)) => Some(([c] + cs, r2))
  }

  /** Reads a string literal. */
  function ParseString(s: string): (r: Option<(string, string)>)
    ensures r.Some? ==> |r.value.1| < |s|
  {
    if s != [] && s[0] == '"' then ParseChars(s[1..]) else None
  }

  lemma ParseUnitEscapeChar(c: char, rest: string)
    ensures ParseUnit(EscapeChar(c) + rest) == Some((c, rest))
  {
    var s := EscapeChar(c) + rest;
    if !NeedsEscape(c) {
    } else if c == '"' || c == '\\' || c == '\n' || c == '\r' || c == '\t' || c == 8 as char || c == 12 as char {
      assert s[2..] == rest;
    } else {
      ParseUnitControl(c, rest);
    }
  }

  /** A control character without a short escape reads back from its `\u00XX` form. */
  lemma ParseUnitControl(c: char, rest: string)
    requires (c as int) < 0x20 && c != '\n' && c != '\r' && c != '\t' && c != 8 as char && c != 12 as char
    ensures ParseUnit(EscapeChar(c) + rest) == Some((c, rest))
  {
    var hi, lo := c as int / 16, c as int % 16;
    var s := "\\u00" + [Hex.DigitChar(hi), Hex.DigitChar(lo)] + rest;
    assert EscapeChar(c) + rest == s;
    assert s[1] == 'u' && |s| >= 6;
    assert Hex.DigitValue(s[2]) == Some(0) && Hex.DigitValue(s[3]) == Some(0);
    assert Hex.DigitValue(s[4]) == Some(hi) && Hex.DigitValue(s[5]) == Some(lo);
    assert ((0 * 16 + 0) * 16 + hi) * 16 + lo == c as int;
    assert s[6..] == rest;
  }

  lemma {:induction false} ParseCharsEscape(x: string, rest: string)
    ensures ParseChars(Escape(x) + "\"" + rest) == Some((x, rest))
  {
    if x == [] {
      assert Escape(x) + "\"" + rest == "\"" + rest;
    } else {
      var tail := Escape(x[1..]) + "\"" + rest;
      assert Escape(x) + "\"" + rest == EscapeChar(x[0]) + tail;
      ParseUnitEscapeChar(x[0], tail);
      assert EscapeChar(x[0]) != [] && EscapeChar(x[0])[0] != '"';
      ParseCharsEscape(x[1..], rest);
      assert [x[0]] + x[1..] == x;
    }
  }

  /** A string literal reads back as the text it was written from, whatever follows it. */
  lemma ParseStringQuote(x: string, rest: string)
    ensures ParseString(Quote(x) + rest) == Some((x, rest))
  {
    assert (Quote(x) + rest)[1..] == Escape(x) + "\"" + rest;
    ParseCharsEscape(x, rest);
  }

  // ---------------------------------------------------------------- integers

  predicate IsDigit(c: char)
  {
    '0' <= c <= '9'
  }

  predicate AllDigits(s: string)
  {
    forall i :: 0 <= i < |s| ==> IsDigit(s[i])
  }

  /** The decimal digits of `n`, most significant first, with no leading zero. */
  function NatText(n: nat): (t: string)
    ensures t != [] && AllDigits(t)
    ensures |t| > 1 ==> t[0] != '0'
  {
    if n < 10 then ["0123456789"[n]] else NatText(n / 10) + ["0123456789"[n % 10]]
  }

  /** `repr` of a Python `int`, which is how `json.dumps` writes one. */
  function IntText(i: int): string
  {
    if i < 0 then "-" + NatText(-i) else NatText(i)
  }

  /** The number a string of decimal digits denotes. */
  function DigitsValue(ds: string): nat
    requires AllDigits(ds)
  {
    if ds == [] then 0 else DigitsValue(ds[..|ds| - 1]) * 10 + (ds[|ds| - 1] as int - '0' as int)
  }

  lemma {:induction false} DigitsValueNatText(n: nat)
    ensures DigitsValue(NatText(n)) == n
  {
    if n >= 10 {
      var t := NatText(n);
      assert t[..|t| - 1] == NatText(n / 10);
      DigitsValueNatText(n / 10);
    }
  }

  /** The length of the run of digits `s` starts with. */
  function DigitRun(s: string): (k: nat)
    ensures k <= |s| && AllDigits(s[..k])
    ensures k < |s| ==> !IsDigit(s[k])
  {
    if s != [] && IsDigit(s[0]) then
      var k := 1 + DigitRun(s[1..]);
      assert s[..k] == [s[0]] + s[1..][..k - 1];
      k
    else 0
  }

  lemma {:induction false} DigitRunOf(ds: string, rest: string)
    requires AllDigits(ds)
    requires rest == [] || !IsDigit(rest[0])
    ensures DigitRun(ds + rest) == |ds|
  {
    if ds != [] {
      assert (ds + rest)[1..] == ds[1..] + rest;
      DigitRunOf(ds[1..], rest);
    }
  }

  /** Reads a non-negative integer: a run of digits without a leading zero. */
  function ParseNat(s: string): (r: Option<(nat, string)>)
    ensures r.Some? ==> |r.value.1| < |s|
  {
    var k := DigitRun(s);
    if k == 0 || (k > 1 && s[0] == '0') then None else Some((DigitsValue(s[..k]), s[k..]))
  }

  /** Reads an integer, with an optional minus sign. */
  function ParseInt(s: string): (r: Option<(int, string)>)
    ensures r.Some? ==> |r.value.1| < |s|
  {
    if s != [] && s[0] == '-' then
      match ParseNat(s[1..])
      case None => None
      case Some((n, r)) => Some((0 - n, r))
    else
      match ParseNat(s)
      case None => None
      case Some((n, r)) => Some((n, r))
  }

  lemma ParseNatText(n: nat, rest: string)
    requires rest == [] || !IsDigit(rest[0])
    ensures ParseNat(NatText(n) + rest) == Some((n, rest))
  {
    var t := NatText(n);
    DigitRunOf(t, rest);
    DigitsValueNatText(n);
    assert (t + rest)[..|t|] == t && (t + rest)[|t|..] == rest;
  }

  lemma ParseIntMinus(d: string, n: nat, rest: string)
    requires ParseNat(d + rest) == Some((n, rest))
    ensures ParseInt("-" + d + rest) == Some((0 - n, rest))
  {
    assert ("-" + d + rest)[1..] == d + rest;
  }

  /** An integer reads back as itself when no digit follows it. */
  lemma ParseIntText(i: int, rest: string)
    requires rest == [] || !IsDigit(rest[0])
    ensures ParseInt(IntText(i) + rest) == Some((i, rest))
  {
    if i < 0 {
      ParseNegativeText(i, rest);
    } else {
      ParseNonNegativeText(i, rest);
    }
  }

  lemma ParseNegativeText(i: int, rest: string)
    requires i < 0
    requires rest == [] || !IsDigit(rest[0])
    ensures ParseInt(IntText(i) + rest) == Some((i, rest))
  {
    var n: nat := -i;
    ParseNatText(n, rest);
    ParseIntMinus(NatText(n), n, rest);
    assert IntText(i) == "-" + NatText(n);
    assert 0 - n == i;
  }

  lemma ParseNonNegativeText(i: nat, rest: string)
    requires rest == [] || !IsDigit(rest[0])
    ensures ParseInt(IntText(i) + rest) == Some((i, rest))
  {
    ParseNatText(i, rest);
    assert (NatText(i) + rest)[0] == NatText(i)[0];
  }

  // ---------------------------------------------------------------- arrays and objects

  /** `",".join(parts)`: the compact separator between array items and between object members. */
  function Join(parts: seq<string>): string
  {
    if |parts| == 0 then ""
    else if |parts| == 1 then parts[0]
    else parts[0] + "," + Join(parts[1..])
  }

  /** An array whose items are already written. */
  function ArrayText(items: seq<string>): string
  {
    "[" + Join(items) + "]"
  }

  /** `"key":`, with no space before or after the colon. */
  function KeyText(key: string): string
  {
    Quote(key) + ":"
  }

  /** `"key":value`. */
  function MemberText(m: Member): string
  {
    KeyText(m.key) + m.value
  }

  function MemberTexts(ms: seq<Member>): (ts: seq<string>)
    ensures |ts| == |ms|
    ensures forall i :: 0 <= i < |ms| ==> ts[i] == MemberText(ms[i])
  {
    if ms == [] then [] else [MemberText(ms[0])] + MemberTexts(ms[1..])
  }

  /** A dict whose values are already written, in insertion order `ms`: its members come out
      sorted by key, compactly separated. */
  function ObjectText(ms: seq<Member>): string
  {
    "{" + Join(MemberTexts(SortByKey(ms))) + "}"
  }

  /** A dict of two members whose sorted order is `m0`, `m1`. */
  lemma ObjectTextOfTwo(ms: seq<Member>, m0: Member, m1: Member)
    requires SortByKey(ms) == [m0, m1]
    ensures ObjectText(ms) == "{" + (MemberText(m0) + "," + MemberText(m1)) + "}"
  {
    var ts := MemberTexts(SortByKey(ms));
    assert Join(ts) == ts[0] + "," + ts[1];
  }

  /** A dict of five members whose sorted order is `m0` to `m4`. */
  lemma ObjectTextOfFive(ms: seq<Member>, m0: Member, m1: Member, m2: Member, m3: Member, m4: Member)
    requires SortByKey(ms) == [m0, m1, m2, m3, m4]
    ensures ObjectText(ms) ==
      "{" + (MemberText(m0) + "," + (MemberText(m1) + "," + (MemberText(m2) + "," + (MemberText(m3) + "," + MemberText(m4))))) + "}"
  {
    var sorted := SortByKey(ms);
    var ts := MemberTexts(sorted);
    JoinOfFive(ts);
    assert sorted[0] == m0 && sorted[1] == m1 && sorted[2] == m2 && sorted[3] == m3 && sorted[4] == m4;
  }

  lemma JoinOfFive(ts: seq<string>)
    requires |ts| == 5
    ensures Join(ts) == ts[0] + "," + (ts[1] + "," + (ts[2] + "," + (ts[3] + "," + ts[4])))
  {
    assert Join(ts[3..]) == ts[3] + "," + ts[4];
    assert Join(ts[2..]) == ts[2] + "," + Join(ts[3..]);
    assert Join(ts[1..]) == ts[1] + "," + Join(ts[2..]);
  }

  /** Reads the items of a non-empty array, up to and including the closing bracket.
      `item` reads one item; an item reader that does not consume input stops the loop. */
  function ParseItems<T>(s: string, item: string -> Option<(T, string)>): Option<(seq<T>, string)>
    decreases |s|
  {
    match item(s)
    case None => None
    case Some((x, r)) =>
      if r != [] && r[0] == ']' then Some(([x], r[1..]))
      else if r != [] && r[0] == ',' && |r| <= |s| then
        match ParseItems(r[1..], item)
        case None => None
        case Some((xs, r2)) => Some(([x] + xs, r2))
      else None
  }

  /** Reads an array, each item with `item`. */
  function ParseArray<T>(s: string, item: string -> Option<(T, string)>): Option<(seq<T>, string)>
  {
    if |s| >= 2 && s[0] == '[' && s[1] == ']' then Some(([], s[2..]))
    else if s != [] && s[0] == '[' then ParseItems(s[1..], item)
    else None
  }

  /** The property an item reader needs for arrays to read back: each item's text reads back as
      that item when a comma or a closing bracket follows it. */
  ghost predicate ReadsBack<T>(xs: seq<T>, texts: seq<string>, item: string -> Option<(T, string)>)
  {
    && |texts| == |xs|
    && (forall i :: 0 <= i < |texts| ==> texts[i] != [] && texts[i][0] != ']')
    && (forall i, r :: 0 <= i < |xs| && r != [] && (r[0] == ',' || r[0] == ']') ==>
          item(texts[i] + r) == Some((xs[i], r)))
  }

  lemma ReadsBackAt<T>(xs: seq<T>, texts: seq<string>, item: string -> Option<(T, string)>, i: nat, r: string)
    requires ReadsBack(xs, texts, item) && i < |xs| && r != [] && (r[0] == ',' || r[0] == ']')
    ensures item(texts[i] + r) == Some((xs[i], r))
  {
  }

  lemma {:induction false} ParseItemsJoin<T>(xs: seq<T>, texts: seq<string>, item: string -> Option<(T, string)>, rest: string)
    requires xs != [] && ReadsBack(xs, texts, item)
    ensures ParseItems(Join(texts) + "]" + rest, item) == Some((xs, rest))
  {
    var s := Join(texts) + "]" + rest;
    if |texts| == 1 {
      assert s == texts[0] + ("]" + rest);
      ReadsBackAt(xs, texts, item, 0, "]" + rest);
      assert ("]" + rest)[1..] == rest;
      assert xs == [xs[0]];
    } else {
      var more := Join(texts[1..]) + "]" + rest;
      assert s == texts[0] + ("," + more);
      ReadsBackAt(xs, texts, item, 0, "," + more);
      assert ("," + more)[1..] == more;
      assert ReadsBack(xs[1..], texts[1..], item) by {
        forall i, r | 0 <= i < |xs[1..]| && r != [] && (r[0] == ',' || r[0] == ']')
          ensures item(texts[1..][i] + r) == Some((xs[1..][i], r))
        {
          assert texts[1..][i] == texts[i + 1];
        }
      }
      ParseItemsJoin(xs[1..], texts[1..], item, rest);
      assert [xs[0]] + xs[1..] == xs;
    }
  }

  /** An array reads back as its items, whatever follows it. */
  lemma ParseArrayText<T>(xs: seq<T>, texts: seq<string>, item: string -> Option<(T, string)>, rest: string)
    requires ReadsBack(xs, texts, item)
    ensures ParseArray(ArrayText(texts) + rest, item) == Some((xs, rest))
  {
    var s := ArrayText(texts) + rest;
    if xs == [] {
      assert s == "[]" + rest;
    } else {
      assert s[1..] == Join(texts) + "]" + rest;
      assert Join(texts) != [] && Join(texts)[0] == texts[0][0];
      ParseItemsJoin(xs, texts, item, rest);
    }
  }

  /** Reads the literal text `lit` and returns what follows it. */
  function Expect(lit: string, s: string): (r: Option<string>)
    ensures r.Some? ==> s == lit + r.value
  {
    if |lit| <= |s| && s[..|lit|] == lit then
      assert s == s[..|lit|] + s[|lit|..];
      Some(s[|lit|..])
    else None
  }

  /** Regrouping lemmas that let a reader consume written text one piece at a time. */
  lemma RegroupMember(k: string, v: string, more: string, rest: string)
    ensures k + v + "," + more + rest == k + (v + ("," + (more + rest)))
  {
  }

  lemma RegroupLastMember(k: string, v: string, rest: string)
    ensures k + v + rest == k + (v + rest)
  {
  }

  lemma RegroupObject(body: string, rest: string)
    ensures "{" + body + "}" + rest == "{" + (body + ("}" + rest))
  {
  }

  lemma ExpectLit(lit: string, rest: string)
    ensures Expect(lit, lit + rest) == Some(rest)
  {
    assert (lit + rest)[..|lit|] == lit;
  }

  // ---------------------------------------------------------------- compactness

  /** JSON's insignificant whitespace: space, tab, line feed and carriage return. */
  predicate IsWhitespace(c: char)
  {
    c == ' ' || c == '\t' || c == '\n' || c == '\r'
  }

  /** Each character `EscapeChar` writes is the character itself, when it needs no escape, or
      no whitespace at all. */
  lemma EscapeCharShape(x: char)
    ensures forall i :: 0 <= i < |EscapeChar(x)| ==>
      (EscapeChar(x)[i] == x && !NeedsEscape(x)) || !IsWhitespace(EscapeChar(x)[i])
  {
  }

  lemma EscapeCharWhitespace(x: char, c: char)
    requires c in EscapeChar(x) && IsWhitespace(c)
    ensures c == ' ' && x == ' '
  {
    EscapeCharShape(x);
    var i :| 0 <= i < |EscapeChar(x)| && EscapeChar(x)[i] == c;
  }

  /** Escaping writes no tab, line feed or carriage return, and a space only for a space. */
  lemma {:induction false} EscapeWhitespace(s: string, c: char)
    requires c in Escape(s) && IsWhitespace(c)
    ensures c == ' ' && ' ' in s
  {
    if c in EscapeChar(s[0]) {
      EscapeCharWhitespace(s[0], c);
    } else {
      EscapeWhitespace(s[1..], c);
    }
  }

  lemma QuoteWhitespace(s: string, c: char)
    requires c in Quote(s) && IsWhitespace(c)
    ensures c == ' ' && ' ' in s
  {
    EscapeWhitespace(s, c);
  }

  /** An integer is written with digits and perhaps a minus sign only. */
  lemma IntTextNoWhitespace(i: int, c: char)
    requires c in IntText(i)
    ensures !IsWhitespace(c)
  {
    var n: nat := if i < 0 then -i else i;
    var t := NatText(n);
    if c in t {
      var k :| 0 <= k < |t| && t[k] == c;
    }
  }

  /** What `Join` adds to its parts is commas only. */
  lemma {:induction false} JoinWhitespace(parts: seq<string>, c: char)
    requires c in Join(parts) && IsWhitespace(c)
    ensures exists i :: 0 <= i < |parts| && c in parts[i]
  {
    if |parts| > 1 && c !in parts[0] {
      JoinWhitespace(parts[1..], c);
      var i :| 0 <= i < |parts[1..]| && c in parts[1..][i];
      assert c in parts[i + 1];
    }
  }

  /** What `ArrayText` adds to its items is brackets and commas only. */
  lemma ArrayWhitespace(items: seq<string>, c: char)
    requires c in ArrayText(items) && IsWhitespace(c)
    ensures exists i :: 0 <= i < |items| && c in items[i]
  {
    JoinWhitespace(items, c);
  }

  /** How many whitespace characters `s` holds. */
  function WsCount(s: string): nat
  {
    if s == [] then 0 else (if IsWhitespace(s[0]) then 1 else 0) + WsCount(s[1..])
  }

  /** How many spaces `s` holds. */
  function SpaceCount(s: string): nat
  {
    if s == [] then 0 else (if s[0] == ' ' then 1 else 0) + SpaceCount(s[1..])
  }

  lemma {:induction false} WsCountConcat(a: string, b: string)
    ensures WsCount(a + b) == WsCount(a) + WsCount(b)
  {
    if a != [] {
      assert (a + b)[1..] == a[1..] + b;
      WsCountConcat(a[1..], b);
    } else {
      assert a + b == b;
    }
  }

  lemma {:induction false} WsCountNone(s: string)
    requires forall i :: 0 <= i < |s| ==> !IsWhitespace(s[i])
    ensures WsCount(s) == 0
  {
    if s != [] {
      assert !IsWhitespace(s[0]);
      WsCountNone(s[1..]);
    }
  }

  /** One escaped character holds one whitespace character if it is a space, and none otherwise. */
  lemma EscapeCharWsCount(x: char)
    ensures WsCount(EscapeChar(x)) == if x == ' ' then 1 else 0
  {
    if NeedsEscape(x) {
      EscapeCharShape(x);
      WsCountNone(EscapeChar(x));
    } else {
      assert EscapeChar(x) == [x] && [x][1..] == [];
    }
  }

  /** Escaping keeps the spaces of the text and adds no whitespace: the escaped text holds
      exactly as many whitespace characters as the text holds spaces. */
  lemma {:induction false} EscapeWsCount(s: string)
    ensures WsCount(Escape(s)) == SpaceCount(s)
  {
    if s != [] {
      EscapeCharWsCount(s[0]);
      EscapeWsCount(s[1..]);
      WsCountConcat(EscapeChar(s[0]), Escape(s[1..]));
    }
  }

  lemma QuoteWsCount(s: string)
    ensures WsCount(Quote(s)) == SpaceCount(s)
  {
    EscapeWsCount(s);
    WsCountConcat("\"", Escape(s));
    WsCountConcat("\"" + Escape(s), "\"");
  }

  lemma IntTextWsCount(i: int)
    ensures WsCount(IntText(i)) == 0
  {
    var t := IntText(i);
    forall k | 0 <= k < |t| ensures !IsWhitespace(t[k]) {
      IntTextNoWhitespace(i, t[k]);
    }
    WsCountNone(t);
  }

  /** The whitespace characters of all `parts` together. */
  function WsTotal(parts: seq<string>): nat
  {
    if parts == [] then 0 else WsCount(parts[0]) + WsTotal(parts[1..])
  }

  /** `Join` adds no whitespace to its parts. */
  lemma {:induction false} JoinWsCount(parts: seq<string>)
    ensures WsCount(Join(parts)) == WsTotal(parts)
  {
    if |parts| > 1 {
      JoinWsCount(parts[1..]);
      WsCountConcat(parts[0], ",");
      WsCountConcat(parts[0] + ",", Join(parts[1..]));
    } else if |parts| == 1 {
      assert parts[1..] == [];
    }
  }

  /** `ArrayText` adds no whitespace to its items. */
  lemma ArrayWsCount(items: seq<string>)
    ensures WsCount(ArrayText(items)) == WsTotal(items)
  {
    JoinWsCount(items);
    WsCountConcat("[", Join(items));
    WsCountConcat("[" + Join(items), "]");
  }

  /** `"key":value`, written with nothing in between. */
  lemma MemberWsCount(k: string, v: string)
    ensures WsCount(k + v) == WsCount(k) + WsCount(v)
  {
    WsCountConcat(k, v);
  }

  /** The braces and commas of an object add no whitespace to its members. */
  lemma ObjectWsCount(body: string)
    ensures WsCount("{" + body + "}") == WsCount(body)
  {
    WsCountConcat("{", body);
    WsCountConcat("{" + body, "}");
  }

  lemma CommaWsCount(a: string, b: string)
    ensures WsCount(a + "," + b) == WsCount(a) + WsCount(b)
  {
    WsCountConcat(a, ",");
    WsCountConcat(a + ",", b);
  }
}
