/**
 * The cookie printer and parser (crates/auth/src/lib.rs,
 * `encode_cookie_value` and `cookie_value`). Text is its UTF-8 bytes.
 */
module Cookies {
  import opened Options

  type Byte = b: int | 0 <= b < 256
  type Bytes = seq<Byte>

  const TAB: Byte := 0x09
  const SPACE: Byte := 0x20
  const QUOTE: Byte := 0x22
  const PERCENT: Byte := 0x25
  const COMMA: Byte := 0x2C
  const SEMICOLON: Byte := 0x3B
  const EQUALS: Byte := 0x3D
  const BACKSLASH: Byte := 0x5C

  // ------------------------------------------------------------------
  // Printing
  // ------------------------------------------------------------------

  /** Controls, separators and everything outside ASCII are written as `%XX`. */
  predicate MustEncode(b: Byte) {
    b < 0x20 || b >= 0x7F || b == SPACE || b == QUOTE || b == PERCENT || b == COMMA || b == SEMICOLON || b == BACKSLASH
  }

  function HexDigit(n: int): Byte
    requires 0 <= n < 16
  {
    if n < 10 then 0x30 + n else 0x41 + (n - 10)
  }

  function EncodeByte(b: Byte): Bytes {
    if MustEncode(b) then [PERCENT, HexDigit(b / 16), HexDigit(b % 16)] else [b]
  }

  function Encode(value: Bytes): Bytes {
    if value == [] then [] else EncodeByte(value[0]) + Encode(value[1..])
  }

  datatype Cookie = Cookie(name: Bytes, value: Bytes)

  function Print(c: Cookie): Bytes { c.name + [EQUALS] + Encode(c.value) }

  /** A `Cookie` header line: pairs joined by a semicolon and a space. */
  function Join(cookies: seq<Cookie>): Bytes {
    if cookies == [] then []
    else if |cookies| == 1 then Print(cookies[0])
    else Print(cookies[0]) + [SEMICOLON, SPACE] + Join(cookies[1..])
  }

  /** A byte that section 4.1.1 of RFC 6265 allows in a cookie's value. */
  predicate IsCookieOctet(b: Byte) {
    b == 0x21 || 0x23 <= b <= 0x2B || 0x2D <= b <= 0x3A || 0x3C <= b <= 0x5B || 0x5D <= b <= 0x7E
  }

  /** A byte stands for itself exactly if it may stand in a cookie's value and is not the percent sign. */
  lemma KeepsExactlyCookieOctets(b: Byte)
    ensures EncodeByte(b) == [b] <==> IsCookieOctet(b) && b != PERCENT
  {
  }

  /** Everything that is printed for a value may stand in a cookie's value. */
  lemma {:induction false} EncodedIsCookieOctets(value: Bytes, i: nat)
    requires i < |Encode(value)|
    ensures IsCookieOctet(Encode(value)[i])
  {
    var first := EncodeByte(value[0]);
    if i >= |first| {
      EncodedIsCookieOctets(value[1..], i - |first|);
    }
  }

  // ------------------------------------------------------------------
  // Parsing
  // ------------------------------------------------------------------

  /** What a header value must consist of to be read as text. */
  predicate IsVisible(b: Byte) { SPACE <= b < 0x7F || b == TAB }

  predicate IsText(line: Bytes) { forall i :: 0 <= i < |line| ==> IsVisible(line[i]) }

  function Split(s: Bytes, separator: Byte): seq<Bytes> {
    if s == [] then [[]]
    else
      var rest := Split(s[1..], separator);
      if s[0] == separator then [[]] + rest
      else if rest == [] then [[s[0]]]
      else [[s[0]] + rest[0]] + rest[1..]
  }

  predicate IsSpace(b: Byte) { b == SPACE || b == TAB }

  function TrimStart(s: Bytes): Bytes { if s != [] && IsSpace(s[0]) then TrimStart(s[1..]) else s }

  function TrimEnd(s: Bytes): Bytes { if s != [] && IsSpace(s[|s| - 1]) then TrimEnd(s[..|s| - 1]) else s }

  function Trim(s: Bytes): Bytes { TrimEnd(TrimStart(s)) }

  /** The parts before and after the first separator. */
  function SplitOnce(s: Bytes, separator: Byte): Option<(Bytes, Bytes)> {
    if s == [] then None
    else if s[0] == separator then Some(([], s[1..]))
    else
      var rest := SplitOnce(s[1..], separator);
      if rest.None? then None else Some(([s[0]] + rest.value.0, rest.value.1))
  }

  function HexValue(b: Byte): Option<int> {
    if 0x30 <= b <= 0x39 then Some(b - 0x30)
    else if 0x41 <= b <= 0x46 then Some(b - 0x41 + 10)
    else if 0x61 <= b <= 0x66 then Some(b - 0x61 + 10)
    else None
  }

  const UPPER_DIGITS: Bytes := [0x30, 0x31, 0x32, 0x33, 0x34, 0x35, 0x36, 0x37, 0x38, 0x39,
                               0x41, 0x42, 0x43, 0x44, 0x45, 0x46]
  const LOWER_DIGITS: Bytes := [0x30, 0x31, 0x32, 0x33, 0x34, 0x35, 0x36, 0x37, 0x38, 0x39,
                               0x61, 0x62, 0x63, 0x64, 0x65, 0x66]

  /** A digit is written in upper case and read in either case, and nothing else is a digit. */
  lemma DigitsExactlyWhen(b: Byte, n: int)
    requires 0 <= n < 16
    ensures HexDigit(n) == UPPER_DIGITS[n]
    ensures HexValue(b) == Some(n) <==> b == UPPER_DIGITS[n] || b == LOWER_DIGITS[n]
  {
  }

  /** A percent sign that is not followed by two digits stands for itself. */
  function Decode(s: Bytes): Bytes {
    if s == [] then []
    else if s[0] == PERCENT && |s| >= 3 && HexValue(s[1]).Some? && HexValue(s[2]).Some? then
      assert 0 <= HexValue(s[1]).value < 16 && 0 <= HexValue(s[2]).value < 16;
      [HexValue(s[1]).value * 16 + HexValue(s[2]).value] + Decode(s[3..])
    else [s[0]] + Decode(s[1..])
  }

  predicate IsContinuation(s: Bytes, i: nat) { i < |s| && 0x80 <= s[i] <= 0xBF }

  /** Well-formed UTF-8: shortest forms only, no surrogates, nothing past U+10FFFF. */
  predicate IsUtf8(s: Bytes)
    decreases |s|
  {
    if s == [] then true
    else if s[0] < 0x80 then IsUtf8(s[1..])
    else if 0xC2 <= s[0] <= 0xDF then IsContinuation(s, 1) && IsUtf8(s[2..])
    else if 0xE0 <= s[0] <= 0xEF then
      && IsContinuation(s, 1) && IsContinuation(s, 2)
      && (s[0] == 0xE0 ==> s[1] >= 0xA0) && (s[0] == 0xED ==> s[1] <= 0x9F)
      && IsUtf8(s[3..])
    else if 0xF0 <= s[0] <= 0xF4 then
      && IsContinuation(s, 1) && IsContinuation(s, 2) && IsContinuation(s, 3)
      && (s[0] == 0xF0 ==> s[1] >= 0x90) && (s[0] == 0xF4 ==> s[1] <= 0x8F)
      && IsUtf8(s[4..])
    else false
  }

  /** What a character can be: no surrogate, nothing past U+10FFFF. */
  type Scalar = c: int | 0 <= c < 0xD800 || 0xE000 <= c < 0x11_0000

  function EncodeScalar(c: Scalar): Bytes {
    if c < 0x80 then [c]
    else if c < 0x800 then [0xC0 + c / 64, 0x80 + c % 64]
    else if c < 0x1_0000 then [0xE0 + c / 4096, 0x80 + c / 64 % 64, 0x80 + c % 64]
    else [0xF0 + c / 262144, 0x80 + c / 4096 % 64, 0x80 + c / 64 % 64, 0x80 + c % 64]
  }

  function EncodeText(text: seq<Scalar>): Bytes {
    if text == [] then [] else EncodeScalar(text[0]) + EncodeText(text[1..])
  }

  lemma ScalarThenRest(c: Scalar, rest: Bytes)
    ensures IsUtf8(EncodeScalar(c) + rest) <==> IsUtf8(rest)
  {
    var s := EncodeScalar(c) + rest;
    assert s[|EncodeScalar(c)|..] == rest;
  }

  lemma {:induction false} EncodedTextIsUtf8(text: seq<Scalar>)
    ensures IsUtf8(EncodeText(text))
  {
    if text != [] {
      EncodedTextIsUtf8(text[1..]);
      ScalarThenRest(text[0], EncodeText(text[1..]));
    }
  }

  lemma SixBits(high: int, low: int)
    requires 0 <= low < 64
    ensures (high * 64 + low) / 64 == high && (high * 64 + low) % 64 == low
  {
  }

  /** Three and four groups of six bits, from the most significant one down. */
  lemma Groups(x: int, y: int, z: int)
    requires 0 <= y < 64 && 0 <= z < 64
    ensures
      var c := (x * 64 + y) * 64 + z;
      c / 4096 == x && c / 64 == x * 64 + y && c / 64 % 64 == y && c % 64 == z
  {
    SixBits(x, y);
    SixBits(x * 64 + y, z);
  }

  lemma FourGroups(w: int, x: int, y: int, z: int)
    requires 0 <= x < 64 && 0 <= y < 64 && 0 <= z < 64
    ensures
      var c := ((w * 64 + x) * 64 + y) * 64 + z;
      c / 262144 == w && c / 4096 % 64 == x && c / 64 % 64 == y && c % 64 == z
  {
    SixBits(w, x);
    Groups(w * 64 + x, y, z);
    var c := ((w * 64 + x) * 64 + y) * 64 + z;
    assert c / 4096 == w * 64 + x;
  }

  /** The character at the front, and how many bytes it takes. */
  lemma FirstScalar(s: Bytes) returns (c: Scalar, n: nat)
    requires s != [] && IsUtf8(s)
    ensures 0 < n <= |s| && EncodeScalar(c) == s[..n] && IsUtf8(s[n..])
  {
    var a: int := s[0];
    if a < 0x80 {
      c, n := a, 1;
    } else if a <= 0xDF {
      c := TwoBytes(a, s[1]);
      n := 2;
    } else if a <= 0xEF {
      c := ThreeBytes(a, s[1], s[2]);
      n := 3;
    } else {
      c := FourBytes(a, s[1], s[2], s[3]);
      n := 4;
    }
  }

  lemma TwoBytes(a: int, b: int) returns (c: Scalar)
    requires 0xC2 <= a <= 0xDF && 0x80 <= b <= 0xBF
    ensures EncodeScalar(c) == [a, b]
  {
    SixBits(a - 0xC0, b - 0x80);
    c := (a - 0xC0) * 64 + (b - 0x80);
  }

  lemma ThreeBytes(a: int, b: int, d: int) returns (c: Scalar)
    requires 0xE0 <= a <= 0xEF && 0x80 <= b <= 0xBF && 0x80 <= d <= 0xBF
    requires (a == 0xE0 ==> b >= 0xA0) && (a == 0xED ==> b <= 0x9F)
    ensures EncodeScalar(c) == [a, b, d]
  {
    Groups(a - 0xE0, b - 0x80, d - 0x80);
    c := ((a - 0xE0) * 64 + (b - 0x80)) * 64 + (d - 0x80);
  }

  lemma FourBytes(a: int, b: int, d: int, e: int) returns (c: Scalar)
    requires 0xF0 <= a <= 0xF4 && 0x80 <= b <= 0xBF && 0x80 <= d <= 0xBF && 0x80 <= e <= 0xBF
    requires (a == 0xF0 ==> b >= 0x90) && (a == 0xF4 ==> b <= 0x8F)
    ensures EncodeScalar(c) == [a, b, d, e]
  {
    FourGroups(a - 0xF0, b - 0x80, d - 0x80, e - 0x80);
    c := (((a - 0xF0) * 64 + (b - 0x80)) * 64 + (d - 0x80)) * 64 + (e - 0x80);
  }

  lemma {:induction false} Utf8IsEncodedText(s: Bytes) returns (text: seq<Scalar>)
    requires IsUtf8(s)
    ensures EncodeText(text) == s
    decreases |s|
  {
    text := [];
    if s != [] {
      var c, n := FirstScalar(s);
      var rest := Utf8IsEncodedText(s[n..]);
      text := [c] + rest;
      assert text[1..] == rest && s == s[..n] + s[n..];
    }
  }

  /** Bytes are well formed exactly when they are the encoding of some text. */
  lemma Utf8ExactlyWhen(s: Bytes)
    ensures IsUtf8(s) <==> exists text: seq<Scalar> :: EncodeText(text) == s
  {
    if IsUtf8(s) {
      var text := Utf8IsEncodedText(s);
    }
    forall text: seq<Scalar> | EncodeText(text) == s ensures IsUtf8(s) {
      EncodedTextIsUtf8(text);
    }
  }

  /** The value of a pair with this name, if it decodes to text. */
  function ReadPair(pair: Bytes, name: Bytes): Option<Bytes> {
    var parts := SplitOnce(Trim(pair), EQUALS);
    if parts.None? || parts.value.0 != name || !IsUtf8(Decode(parts.value.1)) then None
    else Some(Decode(parts.value.1))
  }

  function ReadPairs(pairs: seq<Bytes>, name: Bytes): Option<Bytes> {
    if pairs == [] then None
    else
      var first := ReadPair(pairs[0], name);
      if first.Some? then first else ReadPairs(pairs[1..], name)
  }

  function Pairs(lines: seq<Bytes>): seq<Bytes> {
    if lines == [] then []
    else (if IsText(lines[0]) then Split(lines[0], SEMICOLON) else []) + Pairs(lines[1..])
  }

  /** The first readable value under a name over all header lines. */
  function CookieValue(lines: seq<Bytes>, name: Bytes): Option<Bytes> { ReadPairs(Pairs(lines), name) }

  // ------------------------------------------------------------------
  // Reading back what was printed
  // ------------------------------------------------------------------

  /** A cookie name: no separator, no space, nothing invisible (a token). */
  predicate IsName(name: Bytes) {
    forall i :: 0 <= i < |name| ==> SPACE < name[i] < 0x7F && name[i] != SEMICOLON && name[i] != EQUALS
  }

  predicate Printable(cookies: seq<Cookie>) {
    forall i :: 0 <= i < |cookies| ==> IsName(cookies[i].name) && IsUtf8(cookies[i].value)
  }

  /** The reference: the value of the first cookie with the name. */
  function First(cookies: seq<Cookie>, name: Bytes): Option<Bytes> {
    if cookies == [] then None
    else if cookies[0].name == name then Some(cookies[0].value)
    else First(cookies[1..], name)
  }

  predicate IsPlain(b: Byte) { SPACE < b < 0x7F && b != SEMICOLON }

  lemma {:induction false} EncodedIsPlain(value: Bytes)
    ensures forall i :: 0 <= i < |Encode(value)| ==> IsPlain(Encode(value)[i])
  {
    if value != [] {
      EncodedIsPlain(value[1..]);
    }
  }

  lemma {:induction false} DecodeEncoded(value: Bytes)
    ensures Decode(Encode(value)) == value
  {
    if value != [] {
      DecodeEncoded(value[1..]);
      var b, s := value[0], Encode(value);
      if MustEncode(b) {
        assert s[0] == PERCENT && s[1] == HexDigit(b / 16) && s[2] == HexDigit(b % 16) && s[3..] == Encode(value[1..]);
        assert HexValue(s[1]) == Some(b / 16) && HexValue(s[2]) == Some(b % 16);
      } else {
        assert s[0] == b && s[1..] == Encode(value[1..]);
      }
      assert value == [b] + value[1..];
    }
  }

  lemma {:induction false} SplitOnceAfterName(name: Bytes, rest: Bytes)
    requires forall i :: 0 <= i < |name| ==> name[i] != EQUALS
    ensures SplitOnce(name + [EQUALS] + rest, EQUALS) == Some((name, rest))
  {
    var s := name + [EQUALS] + rest;
    if name == [] {
      assert s == [EQUALS] + rest;
      assert s[1..] == rest;
    } else {
      assert s[1..] == name[1..] + [EQUALS] + rest;
      SplitOnceAfterName(name[1..], rest);
      assert name == [name[0]] + name[1..];
    }
  }

  lemma TrimPlain(s: Bytes, padded: bool)
    requires forall i :: 0 <= i < |s| ==> IsPlain(s[i])
    ensures Trim(if padded then [SPACE] + s else s) == s
  {
    if padded {
      var t: Bytes := [SPACE] + s;
      assert t[1..] == s && t[0] == SPACE;
      assert TrimStart(t) == TrimStart(s) == s;
    }
  }

  lemma PrintedIsPlain(c: Cookie)
    requires IsName(c.name)
    ensures forall i :: 0 <= i < |Print(c)| ==> IsPlain(Print(c)[i])
  {
    EncodedIsPlain(c.value);
  }

  lemma ReadPrinted(c: Cookie, name: Bytes, padded: bool)
    requires IsName(c.name) && IsUtf8(c.value)
    ensures ReadPair(Pad(Print(c), padded), name) == if c.name == name then Some(c.value) else None
  {
    PrintedIsPlain(c);
    TrimPlain(Print(c), padded);
    SplitOnceAfterName(c.name, Encode(c.value));
    DecodeEncoded(c.value);
  }

  lemma {:induction false} SplitPlain(s: Bytes)
    requires forall i :: 0 <= i < |s| ==> s[i] != SEMICOLON
    ensures Split(s, SEMICOLON) == [s]
  {
    if s != [] {
      SplitPlain(s[1..]);
      assert s == [s[0]] + s[1..];
    }
  }

  lemma {:induction false} SplitFirst(s: Bytes, rest: Bytes)
    requires forall i :: 0 <= i < |s| ==> s[i] != SEMICOLON
    ensures Split(s + [SEMICOLON] + rest, SEMICOLON) == [s] + Split(rest, SEMICOLON)
  {
    var t := s + [SEMICOLON] + rest;
    if s == [] {
      assert t == [SEMICOLON] + rest;
      assert t[1..] == rest;
    } else {
      assert t[1..] == s[1..] + [SEMICOLON] + rest;
      SplitFirst(s[1..], rest);
      assert s == [s[0]] + s[1..];
    }
  }

  function Pad(s: Bytes, padded: bool): Bytes {
    if padded then [SPACE] + s else s
  }

  lemma PadConcat(first: Bytes, rest: Bytes, padded: bool)
    ensures Pad(first + [SEMICOLON, SPACE] + rest, padded) == Pad(first, padded) + [SEMICOLON] + Pad(rest, true)
  {
  }

  lemma JoinSteps(cookies: seq<Cookie>, padded: bool)
    requires cookies != []
    ensures Pad(Join(cookies), padded) ==
            if |cookies| == 1 then Pad(Print(cookies[0]), padded)
            else Pad(Print(cookies[0]), padded) + [SEMICOLON] + Pad(Join(cookies[1..]), true)
  {
    PadConcat(Print(cookies[0]), Join(cookies[1..]), padded);
  }

  /** One header line reads like the list it was printed from, padded or not. */
  lemma {:induction false} ReadLine(cookies: seq<Cookie>, name: Bytes, padded: bool)
    requires cookies != [] && Printable(cookies)
    ensures ReadPairs(Split(Pad(Join(cookies), padded), SEMICOLON), name) == First(cookies, name)
    decreases |cookies|
  {
    var head := Pad(Print(cookies[0]), padded);
    PrintedIsPlain(cookies[0]);
    ReadPrinted(cookies[0], name, padded);
    JoinSteps(cookies, padded);
    if |cookies| == 1 {
      SplitPlain(head);
      assert First(cookies[1..], name) == None;
      var one: seq<Bytes> := [head];
      assert one[1..] == [];
    } else {
      var rest := Pad(Join(cookies[1..]), true);
      SplitFirst(head, rest);
      ReadLine(cookies[1..], name, true);
      assert ([head] + Split(rest, SEMICOLON))[1..] == Split(rest, SEMICOLON);
    }
  }

  lemma {:induction false} JoinIsText(cookies: seq<Cookie>)
    requires Printable(cookies)
    ensures IsText(Join(cookies))
  {
    if cookies != [] {
      PrintedIsPlain(cookies[0]);
      JoinIsText(cookies[1..]);
    }
  }

  lemma {:induction false} ReadPairsConcat(a: seq<Bytes>, b: seq<Bytes>, name: Bytes)
    ensures ReadPairs(a + b, name) == if ReadPairs(a, name).Some? then ReadPairs(a, name) else ReadPairs(b, name)
  {
    if a == [] {
      assert a + b == b;
    } else {
      assert (a + b)[1..] == a[1..] + b;
      ReadPairsConcat(a[1..], b, name);
    }
  }

  function PrintLines(lines: seq<seq<Cookie>>): seq<Bytes> {
    if lines == [] then [] else [Join(lines[0])] + PrintLines(lines[1..])
  }

  function Flatten(lines: seq<seq<Cookie>>): seq<Cookie> {
    if lines == [] then [] else lines[0] + Flatten(lines[1..])
  }

  lemma {:induction false} FirstConcat(a: seq<Cookie>, b: seq<Cookie>, name: Bytes)
    ensures First(a + b, name) == if First(a, name).Some? then First(a, name) else First(b, name)
  {
    if a == [] {
      assert a + b == b;
    } else {
      assert (a + b)[1..] == a[1..] + b;
      FirstConcat(a[1..], b, name);
    }
  }

  /**
   * Printer and parser undo each other. Any cookies with proper names and any
   * text as values, printed over any number of header lines, are read back:
   * the answer for a name is the value of the first cookie stored under it.
   */
  lemma {:induction false} CookiesReadBack(lines: seq<seq<Cookie>>, name: Bytes)
    requires forall k :: 0 <= k < |lines| ==> Printable(lines[k])
    ensures CookieValue(PrintLines(lines), name) == First(Flatten(lines), name)
    decreases |lines|
  {
    if lines != [] {
      CookiesReadBack(lines[1..], name);
      JoinIsText(lines[0]);
      var printed := PrintLines(lines);
      assert printed[0] == Join(lines[0]) && printed[1..] == PrintLines(lines[1..]);
      ReadPairsConcat(Split(printed[0], SEMICOLON), Pairs(printed[1..]), name);
      FirstConcat(lines[0], Flatten(lines[1..]), name);
      if lines[0] == [] {
        var nothing: Bytes := [];
        assert Split(nothing, SEMICOLON) == [nothing];
        var one: seq<Bytes> := [nothing];
        assert one[1..] == [];
        assert ReadPair(nothing, name) == None;
      } else {
        ReadLine(lines[0], name, false);
      }
    }
  }
}
