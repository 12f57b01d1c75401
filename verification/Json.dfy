/** JSON, as scripts see it: printing values and parsing them back. */
module Json {
  import opened Bytes
  import opened Decimal
  import opened ScriptValues

  const QUOTE: byte := 34
  const BACKSLASH: byte := 92
  const COMMA: byte := 44
  const COLON: byte := 58
  const OPEN_BRACKET: byte := 91
  const CLOSE_BRACKET: byte := 93
  const OPEN_BRACE: byte := 123
  const CLOSE_BRACE: byte := 125

  const NULL: seq<byte> := [110, 117, 108, 108]
  const TRUE: seq<byte> := [116, 114, 117, 101]
  const FALSE: seq<byte> := [102, 97, 108, 115, 101]

  // --------------------------------------------------------------------- printing

  function HexDigit(n: nat): byte
    requires n < 16
  {
    if n < 10 then 48 + n else 87 + n
  }

  /** A byte of a string: quotes, backslashes and control characters are escaped, all else stands. */
  function Escaped(c: byte): seq<byte> {
    if c == QUOTE then [BACKSLASH, QUOTE]
    else if c == BACKSLASH then [BACKSLASH, BACKSLASH]
    else if c == 8 then [BACKSLASH, 98]
    else if c == 12 then [BACKSLASH, 102]
    else if c == 10 then [BACKSLASH, 110]
    else if c == 13 then [BACKSLASH, 114]
    else if c == 9 then [BACKSLASH, 116]
    else if c < 0x20 then [BACKSLASH, 117, 48, 48, HexDigit(c / 16), HexDigit(c % 16)]
    else [c]
  }

  function EscapedAll(s: seq<byte>): seq<byte> {
    if s == [] then [] else Escaped(s[0]) + EscapedAll(s[1..])
  }

  function Quoted(s: seq<byte>): seq<byte> {
    [QUOTE] + EscapedAll(s) + [QUOTE]
  }

  /** An object key as text; booleans cannot be keys. */
  function KeyText(k: Scalar): seq<byte>
    requires !k.Bool?
  {
    if k.Str? then k.s else Render(k.i)
  }

  /** Tables print as arrays when their keys are 1 up to the border, else as objects whose keys are strings
      or integers; nil is no table value. */
  predicate Printable(h: Held)
    decreases h
  {
    match h
    case Nil => true
    case One(_) => true
    case Table(pairs, border) =>
      && (forall j :: 0 <= j < |pairs| ==> !pairs[j].0.Bool? && !pairs[j].1.Nil? && Printable(pairs[j].1))
      && (IsArray(pairs, border) ==> ArrayShaped(h))
  }

  function Printed(h: Held): seq<byte>
    requires Printable(h)
    decreases h, 1, 0
  {
    match h
    case Nil => NULL
    case One(Bool(b)) => if b then TRUE else FALSE
    case One(Int(i)) => Render(i)
    case One(Str(s)) => Quoted(s)
    case Table(pairs, border) =>
      if pairs == [] then [OPEN_BRACE, CLOSE_BRACE]
      else if IsArray(pairs, border) then [OPEN_BRACKET] + Elements(h, 1) + [CLOSE_BRACKET]
      else [OPEN_BRACE] + Members(h, 0) + [CLOSE_BRACE]
  }

  /** Array elements from the `i`th on, separated by commas. */
  function Elements(h: Held, i: nat): seq<byte>
    requires Printable(h) && ArrayShaped(h) && 1 <= i <= h.border
    decreases h, 0, h.border - i
  {
    ArrayHasAll(h.pairs, h.border, i);
    Printed(h.pairs[Place(h.pairs, Int(i))].1) + if i == h.border then [] else [COMMA] + Elements(h, i + 1)
  }

  function Members(h: Held, k: nat): seq<byte>
    requires Printable(h) && h.Table? && k < |h.pairs|
    decreases h, 0, |h.pairs| - k
  {
    Quoted(KeyText(h.pairs[k].0)) + [COLON] + Printed(h.pairs[k].1)
    + if k + 1 == |h.pairs| then [] else [COMMA] + Members(h, k + 1)
  }

  // ---------------------------------------------------------------------- parsing

  datatype Error = BadChar | BadToken | Unterminated | BadEscape | BadArray | BadObject | Trailing | Unmodelled

  datatype Parsed<+T> = Got(value: T, rest: seq<byte>) | Fail(error: Error)

  predicate IsSpace(b: byte) {
    b == 32 || b == 9 || b == 10 || b == 13
  }

  function SkipWs(s: seq<byte>): (r: seq<byte>)
    ensures |r| <= |s|
  {
    if s != [] && IsSpace(s[0]) then SkipWs(s[1..]) else s
  }

  function HexValue(b: byte): Option<nat> {
    var n: int := b;
    if 48 <= b <= 57 then Some(n - 48)
    else if 97 <= b <= 102 then Some(n - 87)
    else if 65 <= b <= 70 then Some(n - 55)
    else None
  }

  function HexNumber(s: seq<byte>): Option<nat> {
    if s == [] then Some(0)
    else match (HexNumber(s[..|s| - 1]), HexValue(s[|s| - 1]))
      case (Some(hi), Some(lo)) => Some(16 * hi + lo)
      case _ => None
  }

  /** Four hexadecimal digits; as the source's number parser allows, the first may be a plus sign. */
  function Hex4(s: seq<byte>): (r: Parsed<nat>)
    ensures r.Got? ==> |r.rest| + 4 == |s|
  {
    if |s| < 4 then Fail(BadEscape)
    else match HexNumber(if s[0] == PLUS then s[1..4] else s[..4])
      case None => Fail(BadEscape)
      case Some(n) => Got(n, s[4..])
  }

  /** UTF-8 of a code point; anything that is no character becomes U+FFFD. */
  function Utf8(cp: nat): seq<byte> {
    if cp < 0x80 then [cp]
    else if cp < 0x800 then [0xc0 + cp / 64, 0x80 + cp % 64]
    else if cp > 0x10ffff || 0xd800 <= cp < 0xe000 then [0xef, 0xbf, 0xbd]
    else if cp < 0x10000 then [0xe0 + cp / 4096, 0x80 + (cp / 64) % 64, 0x80 + cp % 64]
    else [0xf0 + cp / 262144, 0x80 + (cp / 4096) % 64, 0x80 + (cp / 64) % 64, 0x80 + cp % 64]
  }

  /** What follows `\u`: one code unit, or two when the first is a high surrogate and another escape follows. */
  function Unicode(s: seq<byte>): (r: Parsed<seq<byte>>)
    ensures r.Got? ==> |r.rest| < |s|
  {
    match Hex4(s)
    case Fail(e) => Fail(e)
    case Got(hi, rest) =>
      if 0xd800 <= hi < 0xdc00 && 2 <= |rest| && rest[0] == BACKSLASH && rest[1] == 117 then
        match Hex4(rest[2..])
        case Fail(e) => Fail(e)
        case Got(lo, after) => Got(Utf8(0x10000 + (hi - 0xd800) * 0x400 + lo - 0xdc00), after)
      else Got(Utf8(hi), rest)
  }

  function SimpleEscape(e: byte): Option<byte> {
    if e == QUOTE || e == BACKSLASH || e == 47 then Some(e)
    else if e == 98 then Some(8)
    else if e == 102 then Some(12)
    else if e == 110 then Some(10)
    else if e == 114 then Some(13)
    else if e == 116 then Some(9)
    else None
  }

  /** One character of a string and what follows it, `Got([], _)` standing for the closing quote. */
  function CharAt(s: seq<byte>): (r: Parsed<seq<byte>>)
    ensures r.Got? ==> |r.rest| < |s|
  {
    if s == [] then Fail(Unterminated)
    else if s[0] == QUOTE then Got([], s[1..])
    else if s[0] != BACKSLASH then Got([s[0]], s[1..])
    else if |s| < 2 then Fail(Unterminated)
    else if s[1] == 117 then Unicode(s[2..])
    else match SimpleEscape(s[1])
      case None => Fail(BadEscape)
      case Some(c) => Got([c], s[2..])
  }

  /** The text up to the closing quote. */
  function StringAt(s: seq<byte>): (r: Parsed<seq<byte>>)
    ensures r.Got? ==> |r.rest| < |s|
    decreases |s|
  {
    match CharAt(s)
    case Fail(e) => Fail(e)
    case Got(c, rest) =>
      if s[0] == QUOTE then Got([], rest)
      else match StringAt(rest)
        case Fail(e) => Fail(e)
        case Got(more, after) => Got(c + more, after)
  }

  predicate IsNumberByte(b: byte) {
    IsDigit(b) || b == MINUS || b == PLUS || b == 46 || b == 101 || b == 69
  }

  function NumberLength(s: seq<byte>): (n: nat)
    ensures n <= |s|
  {
    if s == [] || !IsNumberByte(s[0]) then 0 else 1 + NumberLength(s[1..])
  }

  /** An integer that fits; other numbers are floats, which are not part of this model, or errors. */
  function NumberAt(s: seq<byte>): (r: Parsed<Value>)
    ensures r.Got? ==> |r.rest| < |s|
  {
    var n := NumberLength(s);
    match ParseI64(s[..n])
    case Some(i) => Got(VOne(Int(i)), s[n..])
    case None => Fail(Unmodelled)
  }

  function LiteralAt(s: seq<byte>, text: seq<byte>, v: Value): (r: Parsed<Value>)
    requires text != []
    ensures r.Got? ==> |r.rest| < |s|
  {
    if text <= s then Got(v, s[|text|..]) else Fail(BadToken)
  }

  function Set(m: map<Scalar, Value>, k: Scalar, v: Value): map<Scalar, Value> {
    if v.VNil? then m else m[k := v]
  }

  function ValueAt(text: seq<byte>): (r: Parsed<Value>)
    ensures r.Got? ==> |r.rest| < |text|
    decreases |text|, 0
  {
    var s := SkipWs(text);
    if s == [] then Fail(BadChar)
    else if s[0] == OPEN_BRACE then ObjectAt(s[1..])
    else if s[0] == OPEN_BRACKET then ArrayAt(s[1..])
    else if s[0] == QUOTE then
      match StringAt(s[1..])
      case Fail(e) => Fail(e)
      case Got(t, rest) => Got(VOne(Str(t)), rest)
    else if s[0] == 116 then LiteralAt(s, TRUE, VOne(Bool(true)))
    else if s[0] == 102 then LiteralAt(s, FALSE, VOne(Bool(false)))
    else if s[0] == 110 then LiteralAt(s, NULL, VNil)
    else if s[0] == MINUS || IsDigit(s[0]) then NumberAt(s)
    else Fail(BadChar)
  }

  function ArrayAt(text: seq<byte>): (r: Parsed<Value>)
    ensures r.Got? ==> |r.rest| < |text|
    decreases |text|, 2
  {
    var s := SkipWs(text);
    if s != [] && s[0] == CLOSE_BRACKET then Got(VTable(map[]), s[1..])
    else ElementsAt(s, 1, map[])
  }

  /** Elements from the `i`th on, with the closing bracket. */
  function ElementsAt(s: seq<byte>, i: nat, m: map<Scalar, Value>): (r: Parsed<Value>)
    ensures r.Got? ==> |r.rest| < |s|
    decreases |s|, 1
  {
    match ValueAt(s)
    case Fail(e) => Fail(e)
    case Got(v, rest) =>
      if i >= I64_LIMIT then Fail(Unmodelled)
      else
        var after := SkipWs(rest);
        if after != [] && after[0] == COMMA then ElementsAt(after[1..], i + 1, Set(m, Int(i), v))
        else if after != [] && after[0] == CLOSE_BRACKET then Got(VTable(Set(m, Int(i), v)), after[1..])
        else Fail(BadArray)
  }

  function ObjectAt(text: seq<byte>): (r: Parsed<Value>)
    ensures r.Got? ==> |r.rest| < |text|
    decreases |text|, 2
  {
    var s := SkipWs(text);
    if s != [] && s[0] == CLOSE_BRACE then Got(VTable(map[]), s[1..])
    else MembersAt(s, map[])
  }

  /** A quoted key and the colon after it. */
  function KeyAt(text: seq<byte>): (r: Parsed<seq<byte>>)
    ensures r.Got? ==> |r.rest| < |text|
  {
    var s := SkipWs(text);
    if s == [] || s[0] != QUOTE then Fail(BadObject)
    else match StringAt(s[1..])
      case Fail(e) => Fail(e)
      case Got(key, rest) =>
        var after := SkipWs(rest);
        if after == [] || after[0] != COLON then Fail(BadObject) else Got(key, after[1..])
  }

  function MembersAt(s: seq<byte>, m: map<Scalar, Value>): (r: Parsed<Value>)
    ensures r.Got? ==> |r.rest| < |s|
    decreases |s|, 1
  {
    match KeyAt(s)
    case Fail(e) => Fail(e)
    case Got(key, rest) =>
      match ValueAt(rest)
      case Fail(e) => Fail(e)
      case Got(v, rest2) =>
        var after := SkipWs(rest2);
        if after != [] && after[0] == COMMA then MembersAt(after[1..], Set(m, Str(key), v))
        else if after != [] && after[0] == CLOSE_BRACE then Got(VTable(Set(m, Str(key), v)), after[1..])
        else Fail(BadObject)
  }

  /** A whole text: one value with only white space around it. */
  function Decoded(text: seq<byte>): Parsed<Value> {
    match ValueAt(SkipWs(text))
    case Fail(e) => Fail(e)
    case Got(v, rest) => if SkipWs(rest) == [] then Got(v, []) else Fail(Trailing)
  }

  // --------------------------------------------------------------------- strings

  lemma HexDigitReads(n: nat)
    requires n < 16
    ensures HexValue(HexDigit(n)) == Some(n)
  {}

  /** A code unit as four hexadecimal digits. */
  function HexText(n: nat): (s: seq<byte>)
    requires n < 0x1_0000
    ensures |s| == 4
  {
    [HexDigit(n / 4096), HexDigit((n / 256) % 16), HexDigit((n / 16) % 16), HexDigit(n % 16)]
  }

  lemma FourDigits(a: nat, b: nat, c: nat, d: nat)
    requires a < 16 && b < 16 && c < 16 && d < 16
    ensures HexNumber([HexDigit(a), HexDigit(b), HexDigit(c), HexDigit(d)]) == Some(4096 * a + 256 * b + 16 * c + d)
  {
    hide HexDigit;
    HexDigitReads(a);
    HexDigitReads(b);
    HexDigitReads(c);
    HexDigitReads(d);
    var w, x, y, z := HexDigit(a), HexDigit(b), HexDigit(c), HexDigit(d);
    var s: seq<byte> := [w, x, y, z];
    assert s[..3] == [w, x, y] && [w, x, y][..2] == [w, x] && [w, x][..1] == [w] && [w][..0] == [];
    assert HexNumber([w]) == Some(a);
    assert HexNumber([w, x]) == Some(16 * a + b);
    assert HexNumber([w, x, y]) == Some(256 * a + 16 * b + c);
  }

  lemma PlainDigit(n: nat)
    requires n < 16
    ensures HexDigit(n) != PLUS
  {}

  lemma Hex4Reads(n: nat, rest: seq<byte>)
    requires n < 0x1_0000
    ensures Hex4(HexText(n) + rest) == Got(n, rest)
  {
    hide HexNumber, HexDigit;
    var s := HexText(n) + rest;
    assert s[0] != PLUS by {
      PlainDigit(n / 4096);
    }
    assert s[..4] == HexText(n) && s[4..] == rest;
    FourDigits(n / 4096, (n / 256) % 16, (n / 16) % 16, n % 16);
    Nibbles(n);
  }

  lemma Nibbles(n: nat)
    ensures n == 4096 * (n / 4096) + 256 * ((n / 256) % 16) + 16 * ((n / 16) % 16) + n % 16
  {
    assert n / 16 == 16 * (n / 256) + (n / 16) % 16;
    assert n / 256 == 16 * (n / 4096) + (n / 256) % 16;
  }

  lemma ControlReads(c: byte, rest: seq<byte>)
    requires c < 0x20
    ensures Unicode([48, 48, HexDigit(c / 16), HexDigit(c % 16)] + rest) == Got([c], rest)
  {
    hide Hex4;
    assert HexText(c) == [48, 48, HexDigit(c / 16), HexDigit(c % 16)];
    Hex4Reads(c, rest);
  }

  /** A character beyond the first plane, escaped as its two surrogates, reads as its UTF-8. */
  lemma SurrogatePairReads(cp: nat, rest: seq<byte>)
    requires 0x1_0000 <= cp <= 0x10_ffff
    ensures var hi, lo := 0xd800 + (cp - 0x1_0000) / 0x400, 0xdc00 + (cp - 0x1_0000) % 0x400;
            Unicode(HexText(hi) + [BACKSLASH, 117] + HexText(lo) + rest) == Got(Utf8(cp), rest)
  {
    hide Hex4, HexText, Utf8;
    var hi, lo := 0xd800 + (cp - 0x1_0000) / 0x400, 0xdc00 + (cp - 0x1_0000) % 0x400;
    var tail := [BACKSLASH, 117] + (HexText(lo) + rest);
    assert HexText(hi) + [BACKSLASH, 117] + HexText(lo) + rest == HexText(hi) + tail;
    Hex4Reads(hi, tail);
    assert tail[2..] == HexText(lo) + rest;
    Hex4Reads(lo, rest);
    assert 0x1_0000 + (hi - 0xd800) * 0x400 + lo - 0xdc00 == cp;
  }

  /** The code point whose UTF-8 stands at the head of `s`, told by its first byte. */
  function FromUtf8(s: seq<byte>): Option<nat> {
    var n := |s|;
    if n == 0 then None
    else
      var b: int := s[0];
      if b < 0x80 then Some(b)
      else if b < 0xc0 then None
      else if b < 0xe0 && n >= 2 then Some((b - 0xc0) * 64 + Low6(s[1]))
      else if 0xe0 <= b < 0xf0 && n >= 3 then Some(((b - 0xe0) * 64 + Low6(s[1])) * 64 + Low6(s[2]))
      else if 0xf0 <= b && n >= 4 then
        Some((((b - 0xf0) * 64 + Low6(s[1])) * 64 + Low6(s[2])) * 64 + Low6(s[3]))
      else None
  }

  function Low6(b: byte): nat {
    b % 64
  }

  lemma Low6Reads(x: nat)
    requires x < 64
    ensures Low6(0x80 + x) == x
  {}

  lemma Sextets(cp: nat)
    ensures cp == 64 * (cp / 64) + cp % 64
    ensures cp / 64 == 64 * (cp / 4096) + (cp / 64) % 64
    ensures cp / 4096 == 64 * (cp / 262144) + (cp / 4096) % 64
  {
    assert (cp / 64) / 64 == cp / 4096;
    assert (cp / 4096) / 64 == cp / 262144;
  }

  /** Every character is told from its UTF-8, and whatever is none of them from U+FFFD. */
  lemma Utf8RoundTrip(cp: nat, rest: seq<byte>)
    ensures FromUtf8(Utf8(cp) + rest)
            == Some(if cp > 0x10_ffff || 0xd800 <= cp < 0xe000 then 0xfffd else cp)
  {
    hide Low6;
    Low6Reads(cp % 64);
    Low6Reads((cp / 64) % 64);
    Low6Reads((cp / 4096) % 64);
    Low6Reads(0x3f);
    Low6Reads(0x3d);
    Sextets(cp);
  }

  lemma EscapedReads(c: byte, rest: seq<byte>)
    ensures CharAt(Escaped(c) + rest) == Got([c], rest) && (Escaped(c) + rest)[0] != QUOTE
  {
    hide Unicode;
    var s := Escaped(c) + rest;
    if c < 0x20 && !(c == 8 || c == 9 || c == 10 || c == 12 || c == 13) {
      var d: seq<byte> := [48, 48, HexDigit(c / 16), HexDigit(c % 16)];
      assert s == [BACKSLASH, 117] + (d + rest);
      assert s[2..] == d + rest;
      ControlReads(c, rest);
    } else if |Escaped(c)| == 2 {
      assert s[2..] == rest;
    } else {
      assert s[1..] == rest;
    }
  }

  /** Escaping and reading back is the identity on every byte string. */
  lemma {:induction false} StringRoundTrip(s: seq<byte>, rest: seq<byte>)
    ensures StringAt(EscapedAll(s) + [QUOTE] + rest) == Got(s, rest)
  {
    hide CharAt, Escaped;
    if s == [] {
      assert EscapedAll(s) + [QUOTE] + rest == [QUOTE] + rest;
      ClosingQuote(rest);
    } else {
      var tail := EscapedAll(s[1..]) + [QUOTE] + rest;
      assert EscapedAll(s) + [QUOTE] + rest == Escaped(s[0]) + tail;
      EscapedReads(s[0], tail);
      StringRoundTrip(s[1..], rest);
      assert [s[0]] + s[1..] == s;
    }
  }

  lemma ClosingQuote(rest: seq<byte>)
    ensures CharAt([QUOTE] + rest) == Got([], rest)
  {
    assert ([QUOTE] + rest)[1..] == rest;
  }

  // ---------------------------------------------------------------------- numbers

  /** What may come after a value: nothing that a number would swallow. */
  predicate Delimited(rest: seq<byte>) {
    rest == [] || !IsNumberByte(rest[0])
  }

  lemma {:induction false} NumberEnds(s: seq<byte>, rest: seq<byte>)
    requires Delimited(rest) && forall i :: 0 <= i < |s| ==> IsNumberByte(s[i])
    ensures NumberLength(s + rest) == |s|
  {
    if s == [] {
      assert s + rest == rest;
    } else {
      assert (s + rest)[1..] == s[1..] + rest;
      NumberEnds(s[1..], rest);
    }
  }

  lemma NumberRoundTrip(i: i64, rest: seq<byte>)
    requires Delimited(rest)
    ensures var s := Render(i) + rest;
            NumberAt(s) == Got(VOne(Int(i)), rest) && (s[0] == MINUS || IsDigit(s[0]))
  {
    hide ParseI64, NumberLength;
    var d := Render(i);
    assert forall k :: 0 <= k < |d| ==> IsNumberByte(d[k]);
    NumberEnds(d, rest);
    assert (d + rest)[..|d|] == d && (d + rest)[|d|..] == rest;
    I64RoundTrip(i);
  }

  // -------------------------------------------------------------------- round trip

  /** No table that prints as an object has an integer key. */
  predicate StringKeyed(h: Held)
    decreases h
  {
    h.Table? ==>
      && (IsArray(h.pairs, h.border) || forall j :: 0 <= j < |h.pairs| ==> !h.pairs[j].0.Int?)
      && (forall j :: 0 <= j < |h.pairs| ==> StringKeyed(h.pairs[j].1))
  }

  lemma HeadAndTail(b: byte, t: seq<byte>)
    ensures ([b] + t)[0] == b && ([b] + t)[1..] == t
  {}

  lemma NoSpace(s: seq<byte>)
    requires s != [] && !IsSpace(s[0])
    ensures SkipWs(s) == s
  {}

  lemma LiteralReads(text: seq<byte>, v: Value, rest: seq<byte>)
    requires text != []
    ensures LiteralAt(text + rest, text, v) == Got(v, rest) && (text + rest)[0] == text[0]
  {
    assert (text + rest)[|text|..] == rest;
  }

  lemma ScalarRoundTrip(x: Scalar, rest: seq<byte>)
    requires Delimited(rest)
    ensures ValueAt(Printed(One(x)) + rest) == Got(VOne(x), rest)
  {
    hide LiteralAt, StringAt, NumberAt, ObjectAt, ArrayAt, Render, EscapedAll, SkipWs;
    var s := Printed(One(x)) + rest;
    match x {
      case Bool(b) =>
        LiteralReads(if b then TRUE else FALSE, VOne(x), rest);
      case Int(i) =>
        NumberRoundTrip(i, rest);
      case Str(t) =>
        assert s == [QUOTE] + (EscapedAll(t) + [QUOTE] + rest);
        HeadAndTail(QUOTE, EscapedAll(t) + [QUOTE] + rest);
        StringRoundTrip(t, rest);
    }
    NoSpace(s);
  }

  /** Every printed value starts with something that is neither white space nor a closing bracket. */
  lemma PrintedStarts(h: Held)
    requires Printable(h)
    ensures Printed(h) != [] && !IsSpace(Printed(h)[0]) && Printed(h)[0] != CLOSE_BRACKET && Printed(h)[0] != CLOSE_BRACE
  {
    hide Printable, Elements, Members, EscapedAll;
    if h.One? && h.x.Int? {
      assert Delimited([]);
      NumberRoundTrip(h.x.i, []);
      assert Render(h.x.i) + [] == Render(h.x.i);
    }
  }

  /** Parsing what was printed gives the value back and consumes exactly what was printed. */
  lemma {:induction false} RoundTrip(h: Held, rest: seq<byte>)
    requires Printable(h) && StringKeyed(h) && Delimited(rest)
    ensures ValueAt(Printed(h) + rest) == Got(Meaning(h), rest)
    decreases h, 1, 0
  {
    match h {
      case Nil =>
        hide SkipWs, LiteralAt;
        LiteralReads(NULL, VNil, rest);
        NoSpace(NULL + rest);
      case One(x) =>
        hide ValueAt;
        ScalarRoundTrip(x, rest);
      case Table(pairs, border) =>
        hide Printable, StringKeyed, ValueAt, Printed;
        if pairs == [] {
          EmptyRoundTrip(h, rest);
        } else if IsArray(pairs, border) {
          ArrayRoundTrip(h, rest);
        } else {
          ObjectRoundTrip(h, rest);
        }
    }
  }

  lemma EmptyRoundTrip(h: Held, rest: seq<byte>)
    requires Printable(h) && h.Table? && h.pairs == []
    ensures ValueAt(Printed(h) + rest) == Got(Meaning(h), rest)
  {
    hide SkipWs, MembersAt;
    var s := [CLOSE_BRACE] + rest;
    assert Printed(h) + rest == [OPEN_BRACE] + s;
    HeadAndTail(OPEN_BRACE, s);
    HeadAndTail(CLOSE_BRACE, rest);
    NoSpace([OPEN_BRACE] + s);
    NoSpace(s);
  }

  lemma ArrayRoundTrip(h: Held, rest: seq<byte>)
    requires Printable(h) && StringKeyed(h) && ArrayShaped(h) && h.pairs != []
    ensures ValueAt(Printed(h) + rest) == Got(Meaning(h), rest)
    decreases h, 0, h.border + 1
  {
    hide SkipWs, ElementsAt, Printable, StringKeyed, Elements, MeaningTo, ItemsTo, DistinctKeys;
    var s := Elements(h, 1) + [CLOSE_BRACKET] + rest;
    assert Printed(h) + rest == [OPEN_BRACKET] + s;
    HeadAndTail(OPEN_BRACKET, s);
    NoSpace([OPEN_BRACKET] + s);
    ElementsStart(h, 1);
    assert s[0] == Elements(h, 1)[0];
    NoSpace(s);
    NoItems(h);
    ElementsRoundTrip(h, 1, rest);
    ItemsMeaning(h);
  }

  lemma ElementsStart(h: Held, i: nat)
    requires Printable(h) && ArrayShaped(h) && 1 <= i <= h.border
    ensures Elements(h, i) != [] && !IsSpace(Elements(h, i)[0]) && Elements(h, i)[0] != CLOSE_BRACKET
  {
    hide Printed;
    ArrayHasAll(h.pairs, h.border, i);
    PrintedStarts(h.pairs[Place(h.pairs, Int(i))].1);
  }

  lemma {:induction false} ElementsRoundTrip(h: Held, i: nat, rest: seq<byte>)
    requires Printable(h) && StringKeyed(h) && ArrayShaped(h) && 1 <= i <= h.border
    ensures ElementsAt(Elements(h, i) + [CLOSE_BRACKET] + rest, i, ItemsTo(h, i - 1))
            == Got(VTable(ItemsTo(h, h.border)), rest)
    decreases h, 0, h.border - i
  {
    hide ValueAt, Printed, Meaning, DistinctKeys, HasKey, Place, ElementsAt, SkipWs;
    ArrayHasAll(h.pairs, h.border, i);
    var item := h.pairs[Place(h.pairs, Int(i))].1;
    NotNil(item);
    var m := ItemsTo(h, i - 1);
    assert ItemsTo(h, i) == m[Int(i) := Meaning(item)];
    if i == h.border {
      var end := [CLOSE_BRACKET] + rest;
      assert Elements(h, i) + [CLOSE_BRACKET] + rest == Printed(item) + end;
      HeadAndTail(CLOSE_BRACKET, rest);
      RoundTrip(item, end);
      LastElement(Printed(item) + end, i, m, Meaning(item), rest);
    } else {
      var more := Elements(h, i + 1) + [CLOSE_BRACKET] + rest;
      assert Elements(h, i) + [CLOSE_BRACKET] + rest == Printed(item) + ([COMMA] + more);
      HeadAndTail(COMMA, more);
      RoundTrip(item, [COMMA] + more);
      NextElement(Printed(item) + ([COMMA] + more), i, m, Meaning(item), more);
      ElementsRoundTrip(h, i + 1, rest);
    }
  }

  lemma LastElement(s: seq<byte>, i: nat, m: map<Scalar, Value>, v: Value, rest: seq<byte>)
    requires i < I64_LIMIT && ValueAt(s) == Got(v, [CLOSE_BRACKET] + rest) && !v.VNil?
    ensures ElementsAt(s, i, m) == Got(VTable(m[Int(i) := v]), rest)
  {
    hide ValueAt, SkipWs;
    HeadAndTail(CLOSE_BRACKET, rest);
    NoSpace([CLOSE_BRACKET] + rest);
  }

  lemma NextElement(s: seq<byte>, i: nat, m: map<Scalar, Value>, v: Value, more: seq<byte>)
    requires i < I64_LIMIT && ValueAt(s) == Got(v, [COMMA] + more) && !v.VNil?
    ensures ElementsAt(s, i, m) == ElementsAt(more, i + 1, m[Int(i) := v])
  {
    hide ValueAt, SkipWs;
    HeadAndTail(COMMA, more);
    NoSpace([COMMA] + more);
  }

  lemma ObjectRoundTrip(h: Held, rest: seq<byte>)
    requires Printable(h) && StringKeyed(h) && h.Table? && h.pairs != [] && !IsArray(h.pairs, h.border)
    ensures ValueAt(Printed(h) + rest) == Got(Meaning(h), rest)
    decreases h, 0, |h.pairs| + 1
  {
    hide SkipWs, MembersAt, Printable, StringKeyed, Members, IsArray;
    var s := Members(h, 0) + [CLOSE_BRACE] + rest;
    assert Printed(h) + rest == [OPEN_BRACE] + s;
    HeadAndTail(OPEN_BRACE, s);
    NoSpace([OPEN_BRACE] + s);
    MembersStart(h, 0);
    assert s[0] == Members(h, 0)[0];
    NoSpace(s);
    MembersRoundTrip(h, 0, rest);
  }

  lemma MembersStart(h: Held, k: nat)
    requires Printable(h) && h.Table? && k < |h.pairs|
    ensures Members(h, k) != [] && Members(h, k)[0] == QUOTE
  {
    hide Printed, EscapedAll;
  }

  lemma KeyReads(key: seq<byte>, rest: seq<byte>)
    ensures KeyAt(Quoted(key) + [COLON] + rest) == Got(key, rest)
  {
    hide SkipWs, StringAt, EscapedAll;
    var tail := [COLON] + rest;
    assert Quoted(key) + [COLON] + rest == [QUOTE] + (EscapedAll(key) + [QUOTE] + tail);
    HeadAndTail(QUOTE, EscapedAll(key) + [QUOTE] + tail);
    NoSpace([QUOTE] + (EscapedAll(key) + [QUOTE] + tail));
    StringRoundTrip(key, tail);
    HeadAndTail(COLON, rest);
    NoSpace(tail);
  }

  lemma {:induction false} MembersRoundTrip(h: Held, k: nat, rest: seq<byte>)
    requires Printable(h) && StringKeyed(h) && h.Table? && !IsArray(h.pairs, h.border) && k < |h.pairs|
    ensures MembersAt(Members(h, k) + [CLOSE_BRACE] + rest, MeaningTo(h, k))
            == Got(VTable(MeaningTo(h, |h.pairs|)), rest)
    decreases h, 0, |h.pairs| - k
  {
    hide ValueAt, Printed, Meaning, MembersAt, KeyAt, SkipWs, Quoted, IsArray;
    var (key, v) := h.pairs[k];
    NotNil(v);
    var m := MeaningTo(h, k);
    if k + 1 == |h.pairs| {
      var end := [CLOSE_BRACE] + rest;
      assert Members(h, k) + [CLOSE_BRACE] + rest == Quoted(key.s) + [COLON] + (Printed(v) + end);
      HeadAndTail(CLOSE_BRACE, rest);
      KeyReads(key.s, Printed(v) + end);
      RoundTrip(v, end);
      LastMember(Quoted(key.s) + [COLON] + (Printed(v) + end), m, key.s, Printed(v) + end, Meaning(v), rest);
    } else {
      var more := Members(h, k + 1) + [CLOSE_BRACE] + rest;
      assert Members(h, k) + [CLOSE_BRACE] + rest == Quoted(key.s) + [COLON] + (Printed(v) + ([COMMA] + more));
      HeadAndTail(COMMA, more);
      KeyReads(key.s, Printed(v) + ([COMMA] + more));
      RoundTrip(v, [COMMA] + more);
      NextMember(Quoted(key.s) + [COLON] + (Printed(v) + ([COMMA] + more)), m, key.s,
                 Printed(v) + ([COMMA] + more), Meaning(v), more);
      MembersRoundTrip(h, k + 1, rest);
    }
  }

  lemma LastMember(s: seq<byte>, m: map<Scalar, Value>, key: seq<byte>, t: seq<byte>, v: Value, rest: seq<byte>)
    requires KeyAt(s) == Got(key, t) && ValueAt(t) == Got(v, [CLOSE_BRACE] + rest) && !v.VNil?
    ensures MembersAt(s, m) == Got(VTable(m[Str(key) := v]), rest)
  {
    hide KeyAt, ValueAt, SkipWs;
    HeadAndTail(CLOSE_BRACE, rest);
    NoSpace([CLOSE_BRACE] + rest);
  }

  lemma NextMember(s: seq<byte>, m: map<Scalar, Value>, key: seq<byte>, t: seq<byte>, v: Value, more: seq<byte>)
    requires KeyAt(s) == Got(key, t) && ValueAt(t) == Got(v, [COMMA] + more) && !v.VNil?
    ensures MembersAt(s, m) == MembersAt(more, m[Str(key) := v])
  {
    hide KeyAt, ValueAt, SkipWs;
    HeadAndTail(COMMA, more);
    NoSpace([COMMA] + more);
  }

  // ------------------------------------------------------------- integer keys

  /** What an object's integer keys turn into: their decimal text. */
  function Textual(h: Held): (r: Held)
    requires Printable(h)
    ensures r.Nil? == h.Nil?
    decreases h
  {
    match h
    case Nil => h
    case One(_) => h
    case Table(pairs, border) =>
      Table(seq(|pairs|, j requires 0 <= j < |pairs| =>
                  (if IsArray(pairs, border) then pairs[j].0 else Str(KeyText(pairs[j].0)), Textual(pairs[j].1))), border)
  }

  lemma {:induction false} TextualShape(h: Held)
    requires Printable(h) && h.Table?
    ensures var t := Textual(h);
            && t.Table? && |t.pairs| == |h.pairs| && t.border == h.border
            && (IsArray(t.pairs, t.border) <==> IsArray(h.pairs, h.border))
            && (IsArray(h.pairs, h.border) ==> ArrayShaped(h) && ArrayShaped(t))
  {
    var t := Textual(h);
    if IsArray(h.pairs, h.border) {
      assert forall j :: 0 <= j < |h.pairs| ==> t.pairs[j].0 == h.pairs[j].0;
    } else if h.pairs != [] {
      assert t.pairs[0].0.Str?;
    }
  }

  lemma {:induction false} TextualIsPrintable(h: Held)
    requires Printable(h)
    ensures Printable(Textual(h)) && StringKeyed(Textual(h))
    decreases h
  {
    if h.Table? {
      TextualShape(h);
      forall j | 0 <= j < |h.pairs|
        ensures Printable(Textual(h).pairs[j].1) && StringKeyed(Textual(h).pairs[j].1)
      {
        TextualIsPrintable(h.pairs[j].1);
      }
    }
  }

  /** The text is the same as if the keys had been strings all along. */
  lemma {:induction false} PrintsTextual(h: Held)
    requires Printable(h)
    ensures Printable(Textual(h)) && Printed(Textual(h)) == Printed(h)
    decreases h, 1, 0
  {
    hide StringKeyed, Textual;
    TextualIsPrintable(h);
    if h.Table? {
      TextualShape(h);
      if h.pairs == [] {
      } else if IsArray(h.pairs, h.border) {
        ElementsTextual(h, 1);
      } else {
        MembersTextual(h, 0);
      }
    } else {
      TextualPlain(h);
    }
  }

  lemma TextualPlain(h: Held)
    requires Printable(h) && !h.Table?
    ensures Textual(h) == h
  {}

  lemma {:induction false} ElementsTextual(h: Held, i: nat)
    requires Printable(h) && Printable(Textual(h)) && ArrayShaped(h) && ArrayShaped(Textual(h)) && 1 <= i <= h.border
    requires Textual(h).border == h.border
    ensures Elements(Textual(h), i) == Elements(h, i)
    decreases h, 0, h.border - i
  {
    hide StringKeyed, Printed, Printable;
    var t := Textual(h);
    ArrayHasAll(h.pairs, h.border, i);
    ArrayHasAll(t.pairs, t.border, i);
    var j, k := Place(h.pairs, Int(i)), Place(t.pairs, Int(i));
    TextualPairs(h, k);
    SamePlace(h.pairs, j, k);
    PrintablePair(h, j);
    PrintsTextual(h.pairs[j].1);
    if i < h.border {
      ElementsTextual(h, i + 1);
    }
  }

  lemma SamePlace(pairs: seq<(Scalar, Held)>, j: nat, k: nat)
    requires DistinctKeys(pairs) && j < |pairs| && k < |pairs| && pairs[j].0 == pairs[k].0
    ensures j == k
  {}

  lemma PrintablePair(h: Held, j: nat)
    requires Printable(h) && h.Table? && j < |h.pairs|
    ensures !h.pairs[j].0.Bool? && !h.pairs[j].1.Nil? && Printable(h.pairs[j].1)
  {}

  lemma TextualPairs(h: Held, j: nat)
    requires Printable(h) && h.Table? && j < |h.pairs|
    ensures !h.pairs[j].0.Bool? && Printable(h.pairs[j].1)
    ensures Textual(h).Table? && |Textual(h).pairs| == |h.pairs|
    ensures Textual(h).pairs[j] == (if IsArray(h.pairs, h.border) then h.pairs[j].0 else Str(KeyText(h.pairs[j].0)),
                                    Textual(h.pairs[j].1))
  {}

  lemma {:induction false} MembersTextual(h: Held, k: nat)
    requires Printable(h) && Printable(Textual(h)) && h.Table? && Textual(h).Table? && !IsArray(h.pairs, h.border)
    requires |Textual(h).pairs| == |h.pairs| && k < |h.pairs|
    ensures Members(Textual(h), k) == Members(h, k)
    decreases h, 0, |h.pairs| - k
  {
    hide StringKeyed, Printed, Printable, Quoted;
    TextualPairs(h, k);
    PrintsTextual(h.pairs[k].1);
    if k + 1 < |h.pairs| {
      MembersTextual(h, k + 1);
    }
  }

  /** All tables have distinct keys, as tables do. */
  predicate DistinctAll(h: Held)
    decreases h
  {
    h.Table? ==> DistinctKeys(h.pairs) && forall j :: 0 <= j < |h.pairs| ==> DistinctAll(h.pairs[j].1)
  }

  lemma {:induction false} StringKeyedIsTextual(h: Held)
    requires Printable(h) && StringKeyed(h)
    ensures Textual(h) == h
    decreases h
  {
    if h.Table? {
      forall j | 0 <= j < |h.pairs|
        ensures Textual(h).pairs[j] == h.pairs[j]
      {
        StringKeyedIsTextual(h.pairs[j].1);
      }
      assert Textual(h).pairs == h.pairs;
    }
  }

  lemma {:induction false} IntegerKeyChanges(h: Held)
    requires Printable(h) && DistinctAll(h) && !StringKeyed(h)
    ensures Meaning(Textual(h)) != Meaning(h)
    decreases h
  {
    hide Meaning, Textual;
    var t := Textual(h);
    TextualShape(h);
    MeaningOfTable(h);
    MeaningOfTable(t);
    MeaningAt(h, |h.pairs|);
    if !IsArray(h.pairs, h.border) && exists j :: 0 <= j < |h.pairs| && h.pairs[j].0.Int? {
      var j :| 0 <= j < |h.pairs| && h.pairs[j].0.Int?;
      OnlyStrings(h, |h.pairs|);
      assert h.pairs[j].0 in MeaningTo(h, |h.pairs|) && h.pairs[j].0 !in MeaningTo(t, |t.pairs|);
    } else {
      var j :| 0 <= j < |h.pairs| && !StringKeyed(h.pairs[j].1);
      IntegerKeyChanges(h.pairs[j].1);
      SameKeys(h);
      MeaningAt(t, |t.pairs|);
      TextualPairs(h, j);
      assert t.pairs[j].0 == h.pairs[j].0;
    }
  }

  lemma MeaningOfTable(h: Held)
    requires h.Table?
    ensures Meaning(h) == VTable(MeaningTo(h, |h.pairs|))
  {}

  lemma {:induction false} OnlyStrings(h: Held, n: nat)
    requires Printable(h) && h.Table? && !IsArray(h.pairs, h.border) && n <= |h.pairs|
    requires Textual(h).Table? && |Textual(h).pairs| == |h.pairs|
    ensures forall k :: k in MeaningTo(Textual(h), n) ==> k.Str?
    decreases n
  {
    hide Printable, Meaning;
    if n > 0 {
      OnlyStrings(h, n - 1);
      TextualPairs(h, n - 1);
    }
  }

  lemma SameKeys(h: Held)
    requires Printable(h) && h.Table? && DistinctKeys(h.pairs)
    requires IsArray(h.pairs, h.border) || forall j :: 0 <= j < |h.pairs| ==> !h.pairs[j].0.Int?
    ensures Textual(h).Table? && |Textual(h).pairs| == |h.pairs| && DistinctKeys(Textual(h).pairs)
    ensures forall j :: 0 <= j < |h.pairs| ==> Textual(h).pairs[j].0 == h.pairs[j].0
  {
    forall j | 0 <= j < |h.pairs|
      ensures Textual(h).pairs[j].0 == h.pairs[j].0
    {
      TextualPairs(h, j);
    }
  }

  /** Decoding an encoding gives the value with its objects' integer keys as text; that is the value
      itself exactly when no table that prints as an object has an integer key. */
  lemma DecodeUndoesEncode(h: Held)
    requires Printable(h) && DistinctAll(h)
    ensures Decoded(Printed(h)) == Got(Meaning(Textual(h)), [])
    ensures Decoded(Printed(h)) == Got(Meaning(h), []) <==> StringKeyed(h)
  {
    hide ValueAt, Printable, StringKeyed, Textual, Printed, Meaning, DistinctAll;
    TextualIsPrintable(h);
    PrintsTextual(h);
    var t := Textual(h);
    RoundTrip(t, []);
    assert Printed(t) + [] == Printed(t);
    PrintedStarts(t);
    NoSpace(Printed(t));
    if StringKeyed(h) {
      StringKeyedIsTextual(h);
    } else {
      IntegerKeyChanges(h);
    }
  }

  /** The table {2: true, "2": false}. */
  function Colliding(): Held {
    Table([(Int(2), One(Bool(true))), (Str([50]), One(Bool(false)))], 0)
  }

  lemma CollidingPrints()
    ensures Printable(Colliding()) && DistinctAll(Colliding())
  {
    var h := Colliding();
    assert h.pairs[0].0.Int? && h.pairs[1].0.Str?;
    forall i, j | 0 <= i < j < |h.pairs|
      ensures h.pairs[i].0 != h.pairs[j].0
    {
      assert i == 0 && j == 1;
    }
    forall j | 0 <= j < |h.pairs|
      ensures DistinctAll(h.pairs[j].1) && Printable(h.pairs[j].1)
    {
      assert h.pairs[j].1 == One(Bool(j == 0));
    }
  }

  /** The failing case: a table with the integer key 2 and the string key "2" prints as an object that names
      one member twice, and comes back with one entry instead of two. */
  lemma IntegerKeyCollides()
    ensures var two, h := Str([50]), Colliding();
            && Printable(h) && DistinctAll(h)
            && Meaning(h) == VTable(map[Int(2) := VOne(Bool(true)), two := VOne(Bool(false))])
            && Decoded(Printed(h)) == Got(VTable(map[two := VOne(Bool(false))]), [])
  {
    hide Decoded, Printed, MeaningTo, Textual, Printable, DistinctAll;
    var two, h := Str([50]), Colliding();
    CollidingPrints();
    TwoPairs(h);
    DecodeUndoesEncode(h);
    var t := Textual(h);
    TextualPairs(h, 0);
    TextualPairs(h, 1);
    TextOfScalar(true);
    TextOfScalar(false);
    assert t.pairs[0] == (two, One(Bool(true))) && t.pairs[1] == (two, One(Bool(false)));
    TwoPairs(t);
    assert Meaning(t).entries == map[two := VOne(Bool(false))];
  }

  lemma TextOfScalar(b: bool)
    ensures Textual(One(Bool(b))) == One(Bool(b)) && Meaning(One(Bool(b))) == VOne(Bool(b))
  {}

  lemma TwoPairs(h: Held)
    requires h.Table? && |h.pairs| == 2
    ensures Meaning(h) == VTable(map[h.pairs[0].0 := Meaning(h.pairs[0].1)][h.pairs[1].0 := Meaning(h.pairs[1].1)])
  {
    assert MeaningTo(h, 1) == map[h.pairs[0].0 := Meaning(h.pairs[0].1)];
  }

  /** One element of an array, and what follows it. */
  lemma ElementsStep(s: seq<byte>, i: nat, m: map<Scalar, Value>)
    ensures ValueAt(s).Fail? ==> ElementsAt(s, i, m) == Fail(ValueAt(s).error)
    ensures ValueAt(s).Got? && i >= I64_LIMIT ==> ElementsAt(s, i, m) == Fail(Unmodelled)
    ensures ValueAt(s).Got? && i < I64_LIMIT ==>
              var after, more := SkipWs(ValueAt(s).rest), Set(m, Int(i), ValueAt(s).value);
              ElementsAt(s, i, m) == if after != [] && after[0] == COMMA then ElementsAt(after[1..], i + 1, more)
                                     else if after != [] && after[0] == CLOSE_BRACKET then Got(VTable(more), after[1..])
                                     else Fail(BadArray)
  {}

  /** One member of an object, and what follows it. */
  lemma MembersStep(s: seq<byte>, m: map<Scalar, Value>)
    ensures KeyAt(s).Fail? ==> MembersAt(s, m) == Fail(KeyAt(s).error)
    ensures KeyAt(s).Got? && ValueAt(KeyAt(s).rest).Fail? ==> MembersAt(s, m) == Fail(ValueAt(KeyAt(s).rest).error)
    ensures KeyAt(s).Got? && ValueAt(KeyAt(s).rest).Got? ==>
              var v := ValueAt(KeyAt(s).rest);
              var after, more := SkipWs(v.rest), Set(m, Str(KeyAt(s).value), v.value);
              MembersAt(s, m) == if after != [] && after[0] == COMMA then MembersAt(after[1..], more)
                                 else if after != [] && after[0] == CLOSE_BRACE then Got(VTable(more), after[1..])
                                 else Fail(BadObject)
  {}

  // ------------------------------------------------------------------ the program

  method EncodeString(out: Buffer, s: seq<byte>)
    modifies out
    ensures out.bytes == old(out.bytes) + Quoted(s)
  {
    hide Escaped;
    ghost var before := out.bytes;
    out.Push(QUOTE);
    ghost var goal := out.bytes + EscapedAll(s);
    assert s[0..] == s;
    for i := 0 to |s|
      invariant out.bytes + EscapedAll(s[i..]) == goal
    {
      assert s[i..][1..] == s[i + 1..];
      ghost var so := out.bytes;
      EncodeByte(out, s[i]);
      assert so + (Escaped(s[i]) + EscapedAll(s[i + 1..])) == out.bytes + EscapedAll(s[i + 1..]);
    }
    assert s[|s|..] == [] && out.bytes + [] == out.bytes;
    out.Push(QUOTE);
    assert out.bytes == before + ([QUOTE] + EscapedAll(s) + [QUOTE]);
  }

  method EncodeByte(out: Buffer, c: byte)
    modifies out
    ensures out.bytes == old(out.bytes) + Escaped(c)
  {
    if c == QUOTE || c == BACKSLASH {
      out.Extend([BACKSLASH, c]);
    } else if c == 8 {
      out.Extend([BACKSLASH, 98]);
    } else if c == 12 {
      out.Extend([BACKSLASH, 102]);
    } else if c == 10 {
      out.Extend([BACKSLASH, 110]);
    } else if c == 13 {
      out.Extend([BACKSLASH, 114]);
    } else if c == 9 {
      out.Extend([BACKSLASH, 116]);
    } else if c < 0x20 {
      out.Extend([BACKSLASH, 117, 48, 48, HexDigit(c / 16), HexDigit(c % 16)]);
    } else {
      out.Push(c);
    }
  }

  /** What every table of the interpreter satisfies: no nil values, and array-like tables have distinct keys. */
  predicate Proper(h: Held)
    decreases h
  {
    h.Table? ==>
      && (IsArray(h.pairs, h.border) ==> ArrayShaped(h))
      && (forall j :: 0 <= j < |h.pairs| ==> !h.pairs[j].1.Nil? && Proper(h.pairs[j].1))
  }

  /** Succeeds exactly on printable values: a boolean key is an error. */
  method EncodeValue(out: Buffer, h: Held) returns (ok: bool)
    requires Proper(h)
    modifies out
    ensures ok == Printable(h) && (ok ==> out.bytes == old(out.bytes) + Printed(h))
    decreases h, 4
  {
    match h {
      case Nil =>
        out.Extend(NULL);
        return true;
      case One(Bool(b)) =>
        out.Extend(if b then TRUE else FALSE);
        return true;
      case One(Int(i)) =>
        out.Extend(Render(i));
        return true;
      case One(Str(s)) =>
        EncodeString(out, s);
        return true;
      case Table(_, _) =>
        ok := EncodeTable(out, h);
    }
  }

  method EncodeTable(out: Buffer, h: Held) returns (ok: bool)
    requires Proper(h) && h.Table?
    modifies out
    ensures ok == Printable(h) && (ok ==> out.bytes == old(out.bytes) + Printed(h))
    decreases h, 2
  {
    hide Elements, Members;
    var count, isArray := 0, true;
    while count < |h.pairs|
      invariant count <= |h.pairs|
      invariant isArray <==> forall j :: 0 <= j < count ==> h.pairs[j].0.Int? && 1 <= h.pairs[j].0.i <= h.border
    {
      var k := h.pairs[count].0;
      if !(k.Int? && k.i >= 1 && k.i <= h.border) {
        isArray := false;
      }
      count := count + 1;
    }
    if count == 0 {
      out.Extend([OPEN_BRACE, CLOSE_BRACE]);
      return true;
    }
    ghost var before := out.bytes;
    if isArray && count == h.border {
      ok := EncodeElements(out, h);
      assert ok ==> out.bytes == before + ([OPEN_BRACKET] + Elements(h, 1) + [CLOSE_BRACKET]);
    } else {
      ok := EncodeMembers(out, h);
      assert ok ==> out.bytes == before + ([OPEN_BRACE] + Members(h, 0) + [CLOSE_BRACE]);
    }
  }

  method EncodeElements(out: Buffer, h: Held) returns (ok: bool)
    requires Proper(h) && ArrayShaped(h) && h.pairs != []
    modifies out
    ensures ok == Printable(h)
    ensures ok ==> out.bytes == old(out.bytes) + [OPEN_BRACKET] + Elements(h, 1) + [CLOSE_BRACKET]
    decreases h, 1
  {
    hide IsArray, ElementsPrintable, ElementsFrom, Elements, Printable;
    out.Push(OPEN_BRACKET);
    ghost var head := out.bytes;
    NoneYet(h);
    for i := 1 to h.border + 1
      invariant ElementsPrintable(h, i - 1)
      invariant Printable(h) ==> head + ElementsFrom(h, 1) == out.bytes + ElementsFrom(h, i)
    {
      ok := EncodeElement(out, h, i);
      if !ok {
        return;
      }
    }
    AllElementsPrintable(h);
    assert out.bytes + [] == out.bytes;
    out.Push(CLOSE_BRACKET);
    return true;
  }

  lemma NoneYet(h: Held)
    requires ArrayShaped(h)
    ensures ElementsPrintable(h, 0)
  {}

  /** One turn of that loop: a comma unless it is the first, and the element. */
  method EncodeElement(out: Buffer, h: Held, i: nat) returns (ok: bool)
    requires Proper(h) && ArrayShaped(h) && 1 <= i <= h.border && ElementsPrintable(h, i - 1)
    modifies out
    ensures ok ==> ElementsPrintable(h, i)
    ensures !ok ==> !Printable(h)
    ensures ok && Printable(h) ==> old(out.bytes) + ElementsFrom(h, i) == out.bytes + ElementsFrom(h, i + 1)
    decreases h, 0
  {
    hide IsArray, ElementsPrintable, ElementsFrom, Place, Printed, Printable;
    ghost var before := out.bytes;
    if i > 1 {
      out.Push(COMMA);
    }
    ArrayHasAll(h.pairs, h.border, i);
    var item := h.pairs[Place(h.pairs, Int(i))].1;
    ok := EncodeValue(out, item);
    if !ok {
      NotAllPrintable(h, Place(h.pairs, Int(i)));
      return;
    }
    NextPrintable(h, i);
    if Printable(h) {
      ElementsUnfold(h, i);
      Resume(before, if i > 1 then [COMMA] else [], Printed(item), ElementsFrom(h, i + 1));
    }
  }

  lemma Resume(before: seq<byte>, comma: seq<byte>, item: seq<byte>, rest: seq<byte>)
    ensures before + (comma + item + rest) == before + comma + item + rest
    ensures comma == [] ==> before + comma == before
  {}

  /** The elements up to the `n`th can be printed. */
  ghost predicate ElementsPrintable(h: Held, n: nat)
    requires ArrayShaped(h)
  {
    forall j :: 0 <= j < |h.pairs| && h.pairs[j].0.i <= n ==> Printable(h.pairs[j].1)
  }

  lemma NextPrintable(h: Held, i: nat)
    requires ArrayShaped(h) && 1 <= i <= h.border && ElementsPrintable(h, i - 1) && HasKey(h.pairs, Int(i))
    requires Printable(h.pairs[Place(h.pairs, Int(i))].1)
    ensures ElementsPrintable(h, i)
  {
    forall j | 0 <= j < |h.pairs| && h.pairs[j].0.i <= i
      ensures Printable(h.pairs[j].1)
    {
      if h.pairs[j].0.i == i {
        SamePlace(h.pairs, j, Place(h.pairs, Int(i)));
      }
    }
  }

  lemma AllElementsPrintable(h: Held)
    requires Proper(h) && ArrayShaped(h) && h.pairs != [] && ElementsPrintable(h, h.border)
    ensures Printable(h) && ElementsFrom(h, 1) == Elements(h, 1) && ElementsFrom(h, h.border + 1) == []
  {
    hide Elements;
    assert [] + Elements(h, 1) == Elements(h, 1);
  }

  lemma NotAllPrintable(h: Held, j: nat)
    requires h.Table? && j < |h.pairs| && !Printable(h.pairs[j].1)
    ensures !Printable(h)
  {}

  /** What is still to come before element `i`: a comma unless it is the first, and the rest. */
  function ElementsFrom(h: Held, i: nat): seq<byte>
    requires Printable(h) && ArrayShaped(h) && 1 <= i <= h.border + 1
  {
    if i == h.border + 1 then [] else (if i > 1 then [COMMA] else []) + Elements(h, i)
  }

  lemma ElementsUnfold(h: Held, i: nat)
    requires Printable(h) && ArrayShaped(h) && 1 <= i <= h.border && HasKey(h.pairs, Int(i))
    ensures ElementsFrom(h, i) == (if i > 1 then [COMMA] else []) + Printed(h.pairs[Place(h.pairs, Int(i))].1)
                                  + ElementsFrom(h, i + 1)
  {
    hide Printed, Place;
  }

  method EncodeMembers(out: Buffer, h: Held) returns (ok: bool)
    requires Proper(h) && h.Table? && h.pairs != [] && !IsArray(h.pairs, h.border)
    modifies out
    ensures ok == Printable(h)
    ensures ok ==> out.bytes == old(out.bytes) + [OPEN_BRACE] + Members(h, 0) + [CLOSE_BRACE]
    decreases h, 0
  {
    hide IsArray, Quoted, Printed, Members, MembersFrom;
    out.Push(OPEN_BRACE);
    ghost var head := out.bytes;
    for k := 0 to |h.pairs|
      invariant forall j :: 0 <= j < k ==> !h.pairs[j].0.Bool? && Printable(h.pairs[j].1)
      invariant Printable(h) ==> head + MembersFrom(h, 0) == out.bytes + MembersFrom(h, k)
    {
      ghost var so := out.bytes;
      if k > 0 {
        out.Push(COMMA);
      }
      var (key, v) := h.pairs[k];
      var good := EncodeMember(out, key, v);
      if !good {
        NotMember(h, k);
        return false;
      }
      if Printable(h) {
        MembersUnfold(h, k);
        assert so + ((if k > 0 then [COMMA] else []) + Quoted(KeyText(key)) + [COLON] + Printed(v) + MembersFrom(h, k + 1))
               == out.bytes + MembersFrom(h, k + 1);
      }
    }
    MembersEnds(h);
    assert out.bytes + [] == out.bytes;
    out.Push(CLOSE_BRACE);
    return true;
  }

  method EncodeMember(out: Buffer, key: Scalar, v: Held) returns (ok: bool)
    requires Proper(v)
    modifies out
    ensures ok == (!key.Bool? && Printable(v))
    ensures ok ==> out.bytes == old(out.bytes) + Quoted(KeyText(key)) + [COLON] + Printed(v)
    decreases v, 5
  {
    hide Quoted, Printed, Printable;
    match key {
      case Str(s) => EncodeString(out, s);
      case Int(i) => EncodeString(out, Render(i));
      case Bool(_) => return false;
    }
    out.Push(COLON);
    ok := EncodeValue(out, v);
  }

  lemma NotMember(h: Held, k: nat)
    requires h.Table? && k < |h.pairs| && (h.pairs[k].0.Bool? || !Printable(h.pairs[k].1))
    requires !IsArray(h.pairs, h.border)
    ensures !Printable(h)
  {
    hide IsArray;
  }

  lemma MembersEnds(h: Held)
    requires Proper(h) && h.Table? && h.pairs != [] && !IsArray(h.pairs, h.border)
    requires forall j :: 0 <= j < |h.pairs| ==> !h.pairs[j].0.Bool? && Printable(h.pairs[j].1)
    ensures Printable(h) && MembersFrom(h, 0) == Members(h, 0) && MembersFrom(h, |h.pairs|) == []
  {
    hide Members;
    assert [] + Members(h, 0) == Members(h, 0);
  }

  function MembersFrom(h: Held, k: nat): seq<byte>
    requires Printable(h) && h.Table? && k <= |h.pairs|
  {
    if k == |h.pairs| then [] else (if k > 0 then [COMMA] else []) + Members(h, k)
  }

  lemma MembersUnfold(h: Held, k: nat)
    requires Printable(h) && h.Table? && k < |h.pairs|
    ensures MembersFrom(h, k) == (if k > 0 then [COMMA] else []) + Quoted(KeyText(h.pairs[k].0)) + [COLON]
                                 + Printed(h.pairs[k].1) + MembersFrom(h, k + 1)
  {
    hide Printed, Quoted;
  }

  datatype Outcome<+T> = Read(value: T) | Failed(error: Error)

  class Parser {
    const data: seq<byte>
    var pos: nat

    constructor (data: seq<byte>)
      ensures this.data == data && pos == 0
    {
      this.data := data;
      pos := 0;
    }

    ghost predicate Valid()
      reads this
    {
      pos <= |data|
    }

    function Rest(): seq<byte>
      reads this
      requires pos <= |data|
    {
      data[pos..]
    }

    /** `r` is what parsing gives by the specification, and on success the position is where it stopped. */
    ghost predicate Follows<T>(spec: Parsed<T>, r: Outcome<T>)
      reads this
    {
      && Valid()
      && (spec.Got? ==> r == Read(spec.value) && Rest() == spec.rest)
      && (spec.Fail? ==> r == Failed(spec.error))
    }

    method Skip()
      requires Valid()
      modifies this`pos
      ensures Valid() && old(pos) <= pos && Rest() == SkipWs(old(Rest()))
    {
      while pos < |data| && IsSpace(data[pos])
        invariant Valid() && old(pos) <= pos && SkipWs(Rest()) == SkipWs(old(Rest()))
      {
        assert Rest()[1..] == data[pos + 1..];
        pos := pos + 1;
      }
    }

    method ParseValue() returns (r: Outcome<Value>)
      requires Valid()
      modifies this`pos
      ensures Follows(ValueAt(old(Rest())), r)
      decreases |data| - pos, 1
    {
      hide SkipWs, StringAt, LiteralAt, NumberAt, ArrayAt, ObjectAt;
      Skip();
      if pos == |data| {
        return Failed(BadChar);
      }
      var c := data[pos];
      assert Rest()[0] == c && Rest()[1..] == data[pos + 1..];
      if c == OPEN_BRACE {
        r := ParseObject();
      } else if c == OPEN_BRACKET {
        r := ParseArray();
      } else if c == QUOTE {
        var text := ParseString();
        return if text.Read? then Read(VOne(Str(text.value))) else Failed(text.error);
      } else if c == 116 {
        r := Expect(TRUE, VOne(Bool(true)));
      } else if c == 102 {
        r := Expect(FALSE, VOne(Bool(false)));
      } else if c == 110 {
        r := Expect(NULL, VNil);
      } else if c == MINUS || IsDigit(c) {
        r := ParseNumber();
      } else {
        return Failed(BadChar);
      }
    }

    method Expect(text: seq<byte>, v: Value) returns (r: Outcome<Value>)
      requires Valid() && text != []
      modifies this`pos
      ensures Follows(LiteralAt(old(Rest()), text, v), r)
    {
      if text <= data[pos..] {
        pos := pos + |text|;
        return Read(v);
      }
      return Failed(BadToken);
    }

    method ParseNumber() returns (r: Outcome<Value>)
      requires Valid()
      modifies this`pos
      ensures Follows(NumberAt(old(Rest())), r)
    {
      var start := pos;
      while pos < |data| && IsNumberByte(data[pos])
        invariant start <= pos <= |data|
        invariant NumberLength(data[start..]) == pos - start + NumberLength(Rest())
      {
        assert Rest()[1..] == data[pos + 1..];
        pos := pos + 1;
      }
      assert data[start..][..pos - start] == data[start..pos];
      var n := ParseI64(data[start..pos]);
      return if n.Some? then Read(VOne(Int(n.value))) else Failed(Unmodelled);
    }

    /** After the opening quote has been seen. */
    method ParseString() returns (r: Outcome<seq<byte>>)
      requires Valid() && pos < |data| && data[pos] == QUOTE
      modifies this`pos
      ensures Follows(StringAt(old(Rest())[1..]), r)
      ensures r.Read? ==> old(pos) < pos
    {
      hide CharAt;
      assert Rest()[1..] == data[pos + 1..];
      pos := pos + 1;
      var out: seq<byte> := [];
      ghost var whole := StringAt(Rest());
      NothingYet(whole);
      while true
        invariant Valid() && old(pos) < pos && whole == Joined(out, StringAt(Rest()))
        decreases |data| - pos
      {
        StringStep(out, Rest());
        var closing := pos < |data| && data[pos] == QUOTE;
        ghost var at := pos;
        var c := ParseChar();
        if c.Failed? {
          return Failed(c.error);
        }
        if closing {
          return Read(out);
        }
        out := out + c.value;
      }
    }

    method ParseChar() returns (r: Outcome<seq<byte>>)
      requires Valid()
      modifies this`pos
      ensures Follows(CharAt(old(Rest())), r)
      ensures r.Read? ==> old(pos) < pos
    {
      hide Unicode;
      if pos == |data| {
        return Failed(Unterminated);
      }
      var c := data[pos];
      assert Rest()[1..] == data[pos + 1..];
      ghost var s := Rest();
      pos := pos + 1;
      if c == QUOTE {
        return Read([]);
      }
      if c != BACKSLASH {
        return Read([c]);
      }
      if pos == |data| {
        return Failed(Unterminated);
      }
      var e := data[pos];
      assert s[2..] == data[pos + 1..] && s[1] == e;
      pos := pos + 1;
      if e == 117 {
        r := ParseUnicodeEscape();
        return;
      }
      var plain := SimpleEscape(e);
      return if plain.Some? then Read([plain.value]) else Failed(BadEscape);
    }

    method ReadHex4() returns (r: Outcome<nat>)
      requires Valid()
      modifies this`pos
      ensures Follows(Hex4(old(Rest())), r)
    {
      hide HexNumber;
      if |data| < pos + 4 {
        return Failed(BadEscape);
      }
      var digits := data[pos..pos + 4];
      assert Rest()[..4] == digits && Rest()[1..4] == digits[1..] && Rest()[4..] == data[pos + 4..];
      var n := HexNumber(if digits[0] == PLUS then digits[1..] else digits);
      if n.None? {
        return Failed(BadEscape);
      }
      pos := pos + 4;
      return Read(n.value);
    }

    method ParseUnicodeEscape() returns (r: Outcome<seq<byte>>)
      requires Valid()
      modifies this`pos
      ensures Follows(Unicode(old(Rest())), r)
      ensures r.Read? ==> old(pos) < pos
    {
      hide Hex4, Utf8;
      var hi := ReadHex4();
      if hi.Failed? {
        return Failed(hi.error);
      }
      if 0xd800 <= hi.value < 0xdc00 && pos + 1 < |data| && data[pos] == BACKSLASH && data[pos + 1] == 117 {
        assert Rest()[2..] == data[pos + 2..];
        pos := pos + 2;
        var lo := ReadHex4();
        if lo.Failed? {
          return Failed(lo.error);
        }
        return Read(Utf8(0x10000 + (hi.value - 0xd800) * 0x400 + lo.value - 0xdc00));
      }
      return Read(Utf8(hi.value));
    }

    /** A comma, after which more is to come, or the closing mark; nothing else will do. */
    method Separator(close: byte) returns (more: Option<bool>)
      requires Valid() && close != COMMA
      modifies this`pos
      ensures Valid() && old(pos) <= pos
      ensures var after := SkipWs(old(Rest()));
              if after == [] || (after[0] != COMMA && after[0] != close) then more == None
              else more == Some(after[0] == COMMA) && Rest() == after[1..] && old(pos) < pos
    {
      Skip();
      if pos == |data| || (data[pos] != COMMA && data[pos] != close) {
        return None;
      }
      assert Rest()[1..] == data[pos + 1..];
      pos := pos + 1;
      return Some(data[pos - 1] == COMMA);
    }

    method ParseArray() returns (r: Outcome<Value>)
      requires Valid() && pos < |data|
      modifies this`pos
      ensures Follows(ArrayAt(old(Rest())[1..]), r)
      decreases |data| - pos, 0
    {
      hide ValueAt, SkipWs, ElementsAt, Set;
      assert Rest()[1..] == data[pos + 1..];
      pos := pos + 1;
      Skip();
      var t: map<Scalar, Value> := map[];
      if pos < |data| && data[pos] == CLOSE_BRACKET {
        assert Rest()[1..] == data[pos + 1..];
        pos := pos + 1;
        return Read(VTable(t));
      }
      ghost var whole := ElementsAt(Rest(), 1, t);
      assert whole == ArrayAt(old(Rest())[1..]);
      hide ArrayAt;
      var i := 1;
      while true
        invariant Valid() && old(pos) < pos && i >= 1 && whole == ElementsAt(Rest(), i, t)
        decreases |data| - pos
      {
        ElementsStep(Rest(), i, t);
        var v := ParseValue();
        if v.Failed? {
          return v;
        }
        if i >= I64_LIMIT {
          return Failed(Unmodelled);
        }
        t := Set(t, Int(i), v.value);
        i := i + 1;
        var more := Separator(CLOSE_BRACKET);
        if more.None? {
          return Failed(BadArray);
        }
        if !more.value {
          return Read(VTable(t));
        }
      }
    }

    method ParseKey() returns (r: Outcome<seq<byte>>)
      requires Valid()
      modifies this`pos
      ensures Follows(KeyAt(old(Rest())), r) && (r.Read? ==> old(pos) < pos)
    {
      hide SkipWs, StringAt;
      Skip();
      if pos == |data| || data[pos] != QUOTE {
        return Failed(BadObject);
      }
      r := ParseString();
      if r.Failed? {
        return;
      }
      Skip();
      if pos == |data| || data[pos] != COLON {
        return Failed(BadObject);
      }
      assert Rest()[1..] == data[pos + 1..];
      pos := pos + 1;
    }

    method ParseObject() returns (r: Outcome<Value>)
      requires Valid() && pos < |data|
      modifies this`pos
      ensures Follows(ObjectAt(old(Rest())[1..]), r)
      decreases |data| - pos, 0
    {
      hide ValueAt, SkipWs, KeyAt, MembersAt, Set;
      assert Rest()[1..] == data[pos + 1..];
      pos := pos + 1;
      Skip();
      var t: map<Scalar, Value> := map[];
      if pos < |data| && data[pos] == CLOSE_BRACE {
        assert Rest()[1..] == data[pos + 1..];
        pos := pos + 1;
        return Read(VTable(t));
      }
      ghost var whole := MembersAt(Rest(), t);
      assert whole == ObjectAt(old(Rest())[1..]);
      hide ObjectAt;
      while true
        invariant Valid() && old(pos) < pos && whole == MembersAt(Rest(), t)
        decreases |data| - pos
      {
        MembersStep(Rest(), t);
        var key := ParseKey();
        if key.Failed? {
          return Failed(key.error);
        }
        var v := ParseValue();
        if v.Failed? {
          return v;
        }
        t := Set(t, Str(key.value), v.value);
        var more := Separator(CLOSE_BRACE);
        if more.None? {
          return Failed(BadObject);
        }
        if !more.value {
          return Read(VTable(t));
        }
      }
    }

    method Decode() returns (r: Outcome<Value>)
      requires pos == 0
      modifies this`pos
      ensures match Decoded(data)
              case Got(v, _) => r == Read(v)
              case Fail(e) => r == Failed(e)
    {
      hide SkipWs, ValueAt;
      assert Rest() == data;
      Skip();
      r := ParseValue();
      if r.Failed? {
        return;
      }
      Skip();
      if pos != |data| {
        return Failed(Trailing);
      }
    }
  }

  function Joined(a: seq<byte>, r: Parsed<seq<byte>>): Parsed<seq<byte>> {
    match r
    case Fail(e) => Fail(e)
    case Got(b, rest) => Got(a + b, rest)
  }

  lemma NothingYet(r: Parsed<seq<byte>>)
    ensures Joined([], r) == r
  {
    if r.Got? {
      assert [] + r.value == r.value;
    }
  }

  lemma StringStep(out: seq<byte>, s: seq<byte>)
    ensures Joined(out, StringAt(s)) == match CharAt(s)
              case Fail(e) => Fail(e)
              case Got(c, rest) =>
                if s[0] == QUOTE then Got(out, rest) else Joined(out + c, StringAt(rest))
  {
    hide CharAt;
    assert out + [] == out;
    if CharAt(s).Got? && s[0] != QUOTE {
      var more := StringAt(CharAt(s).rest);
      if more.Got? {
        assert out + (CharAt(s).value + more.value) == (out + CharAt(s).value) + more.value;
      }
    }
  }
}
