/** The listpack container: the one packed format meebis both writes and reads. */
module Listpack {
  import opened Bytes

  datatype Element = Int(i: i64) | Str(s: seq<byte>)

  // ------------------------------------------------------------- the format

  /** Back-length trailer: base 128, most significant digit first, marked on all but the first byte. */
  function BackLen(n: nat): (s: seq<byte>)
    ensures |s| > 0
  {
    if n < 128 then [n] else BackLen(n / 128) + [128 + n % 128]
  }

  /** How a walker going backwards reads a trailer that ends `s`: the value and the bytes it used. */
  function BackwardLength(s: seq<byte>): (r: Option<(nat, nat)>) {
    if s == [] then None
    else
      var last := s[|s| - 1];
      if last < 128 then Some((last, 1))
      else match BackwardLength(s[..|s| - 1])
        case None => None
        case Some((high, used)) => Some((128 * high + last - 128, used + 1))
  }

  function BackLenSize(n: nat): nat {
    if n < 128 then 1 else if n < 16384 then 2 else if n < 2_097_152 then 3
    else if n < 268_435_456 then 4 else 5
  }

  function IntEncoding(v: i64): (code: seq<byte>)
    ensures 1 <= |code| <= 9
  {
    Pow256Values();
    if 0 <= v <= 127 then [v]
    else if -4096 <= v <= 4095 then
      var raw := if v < 0 then v + 8192 else v;
      [0xc0 + raw / 256, raw % 256]
    else if FitsSigned(v, 2) then [0xf1] + LE(Wrap(v, 2), 2)
    else if -0x80_0000 <= v < 0x80_0000 then [0xf2] + LE(Wrap(v, 4), 3)
    else if FitsSigned(v, 4) then [0xf3] + LE(Wrap(v, 4), 4)
    else [0xf4] + LE(Wrap(v, 8), 8)
  }

  function StrHead(len: nat): (head: seq<byte>)
    ensures 1 <= |head| <= 5
  {
    if len < 64 then [0x80 + len]
    else if len < 4096 then [0xe0 + len / 256, len % 256]
    else [0xf0] + LE(len, 4)
  }

  function StrEncoding(s: seq<byte>): (code: seq<byte>)
    ensures 1 <= |code| <= |s| + 5
  {
    StrHead(|s|) + s
  }

  function Encoding(e: Element): seq<byte> {
    match e
    case Int(v) => IntEncoding(v)
    case Str(s) => StrEncoding(s)
  }

  function Entry(e: Element): seq<byte> {
    Encoding(e) + BackLen(|Encoding(e)|)
  }

  function Body(es: seq<Element>): seq<byte> {
    if es == [] then [] else Entry(es[0]) + Body(es[1..])
  }

  /** The whole container; the header fields are truncated and saturated as the source casts them. */
  function Image(es: seq<Element>): seq<byte> {
    LE(7 + |Body(es)|, 4) + LE(if |es| < 65535 then |es| else 65535, 2) + Body(es) + [0xff]
  }

  /** The length field of a string entry is 32 bits wide. */
  predicate Encodable(e: Element) {
    e.Str? ==> |e.s| < 0x1_0000_0000
  }

  predicate AllEncodable(es: seq<Element>) {
    forall i :: 0 <= i < |es| ==> Encodable(es[i])
  }

  // ---------------------------------------------------------------- decoder

  /** Reading the low bits of a pattern as signed, `half` being the weight of the sign bit. */
  function SignExtend(raw: nat, half: nat): int {
    if raw < half then raw else raw - 2 * half
  }

  function SignedField(s: seq<byte>, at: nat, w: nat): (r: Option<int>)
    ensures r.Some? ==> FitsSigned(r.value, w)
  {
    if at + w <= |s| then
      FromLEBound(s[at..at + w]);
      Some(Signed(FromLE(s[at..at + w]), w))
    else None
  }

  function IntField(s: seq<byte>, at: nat, w: nat): Option<(Element, nat)>
    requires w <= 8
  {
    match SignedField(s, at, w)
    case None => None
    case Some(v) => FitsI64(v, w); Some((Int(v), at + w))
  }

  lemma FitsI64(v: int, w: nat)
    requires w <= 8 && FitsSigned(v, w)
    ensures -0x8000_0000_0000_0000 <= v < 0x8000_0000_0000_0000
  {
    Pow256Values();
    Pow256Mono(w, 8);
  }

  function StrField(s: seq<byte>, at: nat, len: nat): Option<(Element, nat)> {
    if at + len <= |s| then Some((Str(s[at..at + len]), at + len)) else None
  }

  /** Encoding and data at the head of `s`: the element and its length without the trailer. */
  function EncodingAt(s: seq<byte>): Option<(Element, nat)> {
    if s == [] then None
    else
      var b: int := s[0];
      if b < 0x80 then Some((Int(b), 1))
      else if b < 0xc0 then StrField(s, 1, b - 0x80)
      else if b < 0xe0 then
        if |s| < 2 then None else Some((Int(SignExtend((b - 0xc0) * 256 + s[1], 4096)), 2))
      else if b == 0xf1 then IntField(s, 1, 2)
      else if b == 0xf2 then IntField(s, 1, 3)
      else if b == 0xf3 then IntField(s, 1, 4)
      else if b == 0xf4 then IntField(s, 1, 8)
      else if b == 0xf0 then
        if |s| < 5 then None else StrField(s, 5, FromLE(s[1..5]))
      else if b < 0xf0 then
        if |s| < 2 then None else StrField(s, 2, (b - 0xe0) * 256 + s[1])
      else None
  }

  /** One element at the head of `s` and its whole footprint; the trailer's content is not looked at. */
  function ElementAt(s: seq<byte>): (r: Option<(Element, nat)>)
    ensures r.Some? ==> r.value.1 > 0
  {
    match EncodingAt(s)
    case None => None
    case Some((e, n)) => Some((e, n + BackLenSize(n)))
  }

  /** The elements from the head of `s` up to the terminator, and how far the terminator is. */
  function Elements(s: seq<byte>): (r: Option<(seq<Element>, nat)>)
    ensures r.Some? ==> r.value.1 < |s|
  {
    if s == [] then None
    else if s[0] == 0xff then Some(([], 0))
    else match ElementAt(s)
      case None => None
      case Some((e, size)) =>
        if size > |s| then None
        else match Elements(s[size..])
          case None => None
          case Some((rest, end)) => Some(([e] + rest, size + end))
  }

  function Decode(buf: seq<byte>): Option<seq<Element>> {
    if |buf| < 7 then None
    else match Elements(buf[6..])
      case None => None
      case Some((es, _)) => Some(es)
  }

  /** `out` already read, followed by whatever `r` finds. */
  function After(out: seq<Element>, r: Option<(seq<Element>, nat)>): Option<seq<Element>> {
    match r
    case None => None
    case Some((es, _)) => Some(out + es)
  }

  lemma AfterStep(out: seq<Element>, buf: seq<byte>, pos: nat)
    requires pos < |buf|
    ensures After(out, Elements(buf[pos..])) ==
            if buf[pos] == 0xff then Some(out)
            else match ElementAt(buf[pos..])
              case None => None
              case Some((e, size)) =>
                if pos + size > |buf| then None else After(out + [e], Elements(buf[pos + size..]))
  {
    hide ElementAt;
    var s := buf[pos..];
    if s[0] == 0xff {
      assert out + [] == out;
    } else {
      match ElementAt(s) {
        case None =>
        case Some((e, size)) =>
          if size <= |s| {
            assert s[size..] == buf[pos + size..];
            if Elements(s[size..]).Some? {
              var rest := Elements(s[size..]).value.0;
              assert out + ([e] + rest) == (out + [e]) + rest;
            }
          }
      }
    }
  }

  /** The loop of `listpack`: walk to the terminator, collecting elements. */
  method ReadListpack(buf: seq<byte>) returns (r: Option<seq<Element>>)
    ensures r == Decode(buf)
  {
    hide ElementAt;
    if |buf| < 7 {
      return None;
    }
    var out: seq<Element> := [];
    var pos := 6;
    assert forall es: seq<Element> :: out + es == es;
    assert Decode(buf) == After(out, Elements(buf[pos..]));
    while pos < |buf|
      invariant 6 <= pos
      invariant Decode(buf) == if pos <= |buf| then After(out, Elements(buf[pos..])) else None
    {
      AfterStep(out, buf, pos);
      if buf[pos] == 0xff {
        return Some(out);
      }
      match ElementAt(buf[pos..]) {
        case None => return None;
        case Some((e, size)) =>
          out := out + [e];
          pos := pos + size;
      }
    }
    return None;
  }

  // ---------------------------------------------------------------- encoder

  class ListpackWriter {
    var body: seq<byte>
    var elements: nat
    ghost var contents: seq<Element>

    ghost predicate Valid()
      reads this
    {
      body == Body(contents) && elements == |contents|
    }

    constructor ()
      ensures Valid() && contents == []
    {
      body := [];
      elements := 0;
      contents := [];
    }

    /** Low digits go into a five-byte scratch array, which is then copied out in reverse. */
    method PushBackLen(len: nat)
      requires len < Pow128(5)
      modifies this`body
      ensures body == old(body) + BackLen(len)
    {
      if len <= 127 {
        body := body + [len];
        return;
      }
      var stack := new byte[5](_ => 0);
      var n := 0;
      var remaining: nat := len;
      ghost var digits: seq<byte> := [];
      while remaining > 0
        invariant body == old(body)
        invariant n == |digits| <= 5 && remaining < Pow128(5 - n)
        invariant stack[..n] == digits
        invariant IsDigits(digits) && len == Digits(digits, remaining)
        invariant remaining == 0 ==> n > 0 && digits[n - 1] > 0
      {
        stack[n] := remaining % 128;
        DigitsSnoc(digits, remaining % 128, remaining / 128);
        digits := digits + [remaining % 128];
        n := n + 1;
        remaining := remaining / 128;
      }
      BackLenDigits(digits);
      PushReversed(stack, n);
    }

    method PushReversed(stack: array<byte>, n: nat)
      requires n <= stack.Length && IsDigits(stack[..n])
      modifies this`body
      ensures body == old(body) + Marked(stack[..n])
    {
      ghost var digits := stack[..n];
      var i := n;
      while i > 0
        invariant i <= n
        invariant body == old(body) + Marked(digits[i..])
      {
        i := i - 1;
        var marker := if i == n - 1 then 0 else 128;
        assert stack[i] == digits[i];
        assert digits[i..][1..] == digits[i + 1..];
        body := body + [stack[i] + marker];
      }
      assert digits[0..] == digits;
    }

    method EncodeInt(v: i64)
      modifies this`body
      ensures body == old(body) + IntEncoding(v)
    {
      Pow256Values();
      if 0 <= v <= 127 {
        body := body + [v];
      } else if -4096 <= v <= 4095 {
        var raw := if v < 0 then v + 8192 else v;
        body := body + [0xc0 + raw / 256];
        body := body + [raw % 256];
      } else if -0x8000 <= v < 0x8000 {
        body := body + [0xf1];
        body := body + LE(Wrap(v, 2), 2);
      } else if -0x80_0000 <= v < 0x80_0000 {
        body := body + [0xf2];
        body := body + LE(Wrap(v, 4), 4)[..3];
        LEPrefix(Wrap(v, 4), 4, 3);
      } else if -0x8000_0000 <= v < 0x8000_0000 {
        body := body + [0xf3];
        body := body + LE(Wrap(v, 4), 4);
      } else {
        body := body + [0xf4];
        body := body + LE(Wrap(v, 8), 8);
      }
    }

    method EncodeStr(s: seq<byte>)
      requires Encodable(Str(s))
      modifies this`body
      ensures body == old(body) + StrEncoding(s)
    {
      if |s| < 64 {
        body := body + [0x80 + |s|];
      } else if |s| < 4096 {
        body := body + [0xe0 + |s| / 256];
        body := body + [|s| % 256];
      } else {
        body := body + [0xf0];
        body := body + LE(|s|, 4);
      }
      assert body == old(body) + StrHead(|s|);
      body := body + s;
    }

    method PushInt(v: i64)
      requires Valid()
      modifies this
      ensures Valid() && contents == old(contents) + [Int(v)]
    {
      hide IntEncoding;
      var start := |body|;
      EncodeInt(v);
      CloseEntry(|body| - start, Int(v));
    }

    method PushStr(s: seq<byte>)
      requires Valid() && Encodable(Str(s))
      modifies this
      ensures Valid() && contents == old(contents) + [Str(s)]
    {
      hide StrEncoding;
      var start := |body|;
      EncodeStr(s);
      CloseEntry(|body| - start, Str(s));
    }

    /** Trailer and count for an entry of `len` bytes already appended. */
    method CloseEntry(len: nat, ghost e: Element)
      requires Encodable(e) && body == Body(contents) + Encoding(e) && len == |Encoding(e)|
      requires elements == |contents|
      modifies this
      ensures Valid() && contents == old(contents) + [e]
    {
      hide IntEncoding, StrEncoding, Pow128, BackLen, Body;
      Pow128Five();
      PushBackLen(len);
      elements := elements + 1;
      BodySnoc(contents, e);
      contents := contents + [e];
    }

    method Finish() returns (out: seq<byte>)
      requires Valid()
      ensures out == Image(contents)
    {
      var total := 6 + |body| + 1;
      out := LE(total, 4);
      out := out + LE(if elements < 65535 then elements else 65535, 2);
      out := out + body;
      out := out + [0xff];
    }
  }

  function Pow128(k: nat): nat {
    if k == 0 then 1 else 128 * Pow128(k - 1)
  }

  lemma Pow128Five()
    ensures Pow128(5) == 0x8_0000_0000
  {
    assert Pow128(3) == 128 * Pow128(2) == 0x20_0000;
  }

  ghost predicate IsDigits(low: seq<byte>) {
    forall i :: 0 <= i < |low| ==> low[i] < 128
  }

  /** The number with low base-128 digits `low`, least significant first, above which stands `high`. */
  ghost function Digits(low: seq<byte>, high: nat): nat {
    if low == [] then high else low[0] + 128 * Digits(low[1..], high)
  }

  lemma {:induction false} DigitsSnoc(low: seq<byte>, d: byte, high: nat)
    ensures Digits(low + [d], high) == Digits(low, d + 128 * high)
  {
    if low != [] {
      assert (low + [d])[1..] == low[1..] + [d];
      DigitsSnoc(low[1..], d, high);
    }
  }

  /** Digits emitted from the top down; only the topmost one goes unmarked. */
  ghost function Marked(low: seq<byte>): seq<byte>
    requires IsDigits(low)
  {
    if |low| <= 1 then low else Marked(low[1..]) + [low[0] + 128]
  }

  lemma {:induction false} BackLenDigits(low: seq<byte>)
    requires IsDigits(low)
    requires low != [] && low[|low| - 1] > 0
    ensures BackLen(Digits(low, 0)) == Marked(low) && Digits(low, 0) > 0
  {
    if |low| > 1 {
      BackLenDigits(low[1..]);
    }
  }

  lemma {:induction false} LEPrefix(n: nat, w: nat, k: nat)
    requires k <= w
    ensures LE(n, w)[..k] == LE(n, k)
  {
    if k > 0 {
      LEPrefix(n / 256, w - 1, k - 1);
    }
  }

  lemma {:induction false} BodySnoc(es: seq<Element>, e: Element)
    ensures Body(es + [e]) == Body(es) + Entry(e)
  {
    if es == [] {
      assert es + [e] == [e] && [e][1..] == [];
    } else {
      assert (es + [e])[1..] == es[1..] + [e];
      BodySnoc(es[1..], e);
    }
  }

  // ------------------------------------------------------------- properties

  lemma {:induction false} BackLenWidth(n: nat)
    requires n < 0x8_0000_0000
    ensures |BackLen(n)| == BackLenSize(n)
  {
    if n >= 128 {
      BackLenWidth(n / 128);
    }
  }

  /** Read backwards from its end, a trailer yields the entry length it stands for, whatever precedes it. */
  lemma {:induction false} BackLenReadsBackwards(pre: seq<byte>, n: nat)
    ensures BackwardLength(pre + BackLen(n)) == Some((n, |BackLen(n)|))
  {
    var s := pre + BackLen(n);
    if n >= 128 {
      assert s[..|s| - 1] == pre + BackLen(n / 128);
      BackLenReadsBackwards(pre, n / 128);
    }
  }

  lemma IntDecodes(v: i64, rest: seq<byte>)
    ensures EncodingAt(IntEncoding(v) + rest) == Some((Int(v), |IntEncoding(v)|))
  {
    Pow256Values();
    var enc := IntEncoding(v);
    var s := enc + rest;
    if 0 <= v <= 127 {
    } else if -4096 <= v <= 4095 {
    } else if FitsSigned(v, 2) {
      assert s[1..3] == LE(Wrap(v, 2), 2);
      LERoundTrip(Wrap(v, 2), 2);
    } else if -0x80_0000 <= v < 0x80_0000 {
      assert s[1..4] == LE(Wrap(v, 4), 3);
      LEThree(v);
    } else if FitsSigned(v, 4) {
      assert s[1..5] == LE(Wrap(v, 4), 4);
      LERoundTrip(Wrap(v, 4), 4);
    } else {
      assert s[1..9] == LE(Wrap(v, 8), 8);
      LERoundTrip(Wrap(v, 8), 8);
    }
  }

  /** Cutting a 32-bit pattern to three bytes loses nothing when the value fits 24 bits. */
  lemma LEThree(v: int)
    requires -0x80_0000 <= v < 0x80_0000 && FitsSigned(v, 4)
    ensures Signed(FromLE(LE(Wrap(v, 4), 3)), 3) == v
  {
    Pow256Values();
    LERoundTrip(Wrap(v, 3), 3);
    var n, m := Wrap(v, 4), Wrap(v, 3);
    if v < 0 {
      SameLowByte(n, m, 0xff_0000);
      SameLowByte(n / 256, m / 256, 0xff00);
      SameLowByte(n / 256 / 256, m / 256 / 256, 0xff);
    }
    LEThreeBytes(n);
    LEThreeBytes(m);
  }

  /** Numbers a multiple of 256 apart have the same low byte, and quotients that multiple apart. */
  lemma SameLowByte(n: nat, m: nat, d: nat)
    requires n == m + 256 * d
    ensures n % 256 == m % 256 && n / 256 == m / 256 + d
  {}

  lemma LEThreeBytes(n: nat)
    ensures LE(n, 3) == [n % 256, n / 256 % 256, n / 256 / 256 % 256]
  {
    assert LE(n / 256, 2) == [n / 256 % 256] + LE(n / 256 / 256, 1);
  }

  lemma StrDecodes(d: seq<byte>, rest: seq<byte>)
    requires Encodable(Str(d))
    ensures EncodingAt(StrEncoding(d) + rest) == Some((Str(d), |StrEncoding(d)|))
  {
    var enc := StrEncoding(d);
    var s := enc + rest;
    if |d| < 64 {
      assert s[1..1 + |d|] == d;
    } else if |d| < 4096 {
      assert s[2..2 + |d|] == d;
    } else {
      Pow256Values();
      assert s[1..5] == LE(|d|, 4);
      LERoundTrip(|d|, 4);
      assert s[5..5 + |d|] == d;
    }
  }

  lemma EntryDecodes(e: Element, rest: seq<byte>)
    requires Encodable(e)
    ensures ElementAt(Entry(e) + rest) == Some((e, |Entry(e)|)) && Entry(e)[0] != 0xff
  {
    var enc := Encoding(e);
    var trailer := BackLen(|enc|);
    assert Entry(e) + rest == enc + (trailer + rest);
    match e {
      case Int(v) => IntDecodes(v, trailer + rest);
      case Str(d) => StrDecodes(d, trailer + rest);
    }
    BackLenWidth(|enc|);
  }

  lemma {:induction false} BodyDecodes(es: seq<Element>, rest: seq<byte>)
    requires AllEncodable(es)
    ensures Elements(Body(es) + [0xff] + rest) == Some((es, |Body(es)|))
  {
    hide ElementAt, Entry;
    var s := Body(es) + [0xff] + rest;
    if es != [] {
      var tail := Body(es[1..]) + [0xff] + rest;
      assert s == Entry(es[0]) + tail;
      EntryDecodes(es[0], tail);
      assert s[|Entry(es[0])|..] == tail;
      BodyDecodes(es[1..], rest);
      assert [es[0]] + es[1..] == es;
    }
  }

  /** Reading what was written gives back exactly the elements, whatever follows the terminator. */
  lemma RoundTrip(es: seq<Element>, rest: seq<byte>)
    requires AllEncodable(es)
    ensures Decode(Image(es) + rest) == Some(es)
  {
    var s := Image(es) + rest;
    assert s[6..] == Body(es) + [0xff] + rest;
    BodyDecodes(es, rest);
  }

  /** A successful walk of a prefix is the walk of the whole. */
  lemma {:induction false} ElementsStable(s: seq<byte>, rest: seq<byte>)
    requires Elements(s).Some?
    ensures Elements(s + rest) == Elements(s)
  {
    hide ElementAt;
    if s[0] != 0xff {
      var size := ElementAt(s).value.1;
      ElementStable(s, rest);
      assert (s + rest)[size..] == s[size..] + rest;
      ElementsStable(s[size..], rest);
    }
  }

  lemma ElementStable(s: seq<byte>, rest: seq<byte>)
    requires ElementAt(s).Some?
    ensures ElementAt(s + rest) == ElementAt(s)
  {
    hide EncodingAt;
    EncodingStable(s, rest);
  }

  lemma EncodingStable(s: seq<byte>, rest: seq<byte>)
    requires EncodingAt(s).Some?
    ensures EncodingAt(s + rest) == EncodingAt(s)
  {
    var t := s + rest;
    assert t[0] == s[0];
    var n := EncodingAt(s).value.1;
    assert forall lo, hi :: 0 <= lo <= hi <= |s| ==> t[lo..hi] == s[lo..hi];
  }

  /** Every proper prefix of a written listpack is rejected. */
  lemma ProperPrefixRejected(es: seq<Element>, k: nat)
    requires AllEncodable(es) && k < |Image(es)|
    ensures Decode(Image(es)[..k]) == None
  {
    hide Elements, Body;
    var whole := Image(es);
    if k >= 7 && Elements(whole[..k][6..]).Some? {
      var s, rest := whole[..k][6..], whole[k..];
      ElementsStable(s, rest);
      assert s + rest == Body(es) + [0xff] + [];
      BodyDecodes(es, []);
    }
  }

  // ------------------------------------------------- the format, byte by byte

  /** The narrowest of six forms for a number. */
  lemma IntForms(v: i64)
    ensures var c := IntEncoding(v);
            && (0 <= v <= 127 ==> c == [v])
            && (-4096 <= v < 0 || 128 <= v <= 4095 ==>
                  |c| == 2 && c[0] as int * 256 + c[1] == 49152 + if v < 0 then v + 8192 else v)
            && (-32768 <= v < -4096 || 4095 < v <= 32767 ==> |c| == 3 && c[0] == 241 && Signed(FromLE(c[1..]), 2) == v)
            && (-8388608 <= v < -32768 || 32767 < v <= 8388607 ==>
                  |c| == 4 && c[0] == 242 && Signed(FromLE(c[1..]), 3) == v)
            && (-2147483648 <= v < -8388608 || 8388607 < v <= 2147483647 ==>
                  |c| == 5 && c[0] == 243 && Signed(FromLE(c[1..]), 4) == v)
            && (v < -2147483648 || 2147483647 < v ==> |c| == 9 && c[0] == 244 && Signed(FromLE(c[1..]), 8) == v)
  {
    Pow256Values();
    var c := IntEncoding(v);
    if -4096 <= v <= 4095 {
    } else if FitsSigned(v, 2) {
      assert c[1..] == LE(Wrap(v, 2), 2);
      LERoundTrip(Wrap(v, 2), 2);
    } else if -0x80_0000 <= v < 0x80_0000 {
      assert c[1..] == LE(Wrap(v, 4), 3);
      LEThree(v);
    } else if FitsSigned(v, 4) {
      assert c[1..] == LE(Wrap(v, 4), 4);
      LERoundTrip(Wrap(v, 4), 4);
    } else {
      assert c[1..] == LE(Wrap(v, 8), 8);
      LERoundTrip(Wrap(v, 8), 8);
    }
  }

  /** Six, twelve or thirty-two bits of length, then the bytes. */
  lemma StrForms(d: seq<byte>)
    ensures var c := StrEncoding(d);
            && (|d| < 64 ==> c == [128 + |d|] + d)
            && (64 <= |d| < 4096 ==> |c| == 2 + |d| && c[0] == 224 + |d| / 256 && c[1] == |d| % 256 && c[2..] == d)
            && (4096 <= |d| < 4294967296 ==> |c| == 5 + |d| && c[0] == 240 && FromLE(c[1..5]) == |d| && c[5..] == d)
  {
    Pow256Values();
    if 4096 <= |d| < 4294967296 {
      var c := StrEncoding(d);
      assert c[1..5] == LE(|d|, 4);
      LERoundTrip(|d|, 4);
    }
  }

  /** The trailer in base 128: the first digit plain, the others marked by their top bit. */
  lemma BackLenForms(n: nat)
    ensures n < 128 ==> BackLen(n) == [n]
    ensures 128 <= n < 16384 ==> BackLen(n) == [n / 128, 128 + n % 128]
    ensures 16384 <= n < 2097152 ==> BackLen(n) == [n / 128 / 128, 128 + n / 128 % 128, 128 + n % 128]
  {}

  /** Total size, number of elements, entries one after another, terminator. */
  lemma ImageForm(es: seq<Element>)
    ensures var c := Image(es);
            && |c| == 7 + |Body(es)| && c[6..|c| - 1] == Body(es) && c[|c| - 1] == 255
            && FromLE(c[..4]) == |c| % 4294967296
            && FromLE(c[4..6]) == if |es| < 65535 then |es| else 65535
  {
    Pow256Values();
    var c := Image(es);
    assert c[..4] == LE(|c|, 4);
    LETruncates(|c|, 4);
    assert c[4..6] == LE(if |es| < 65535 then |es| else 65535, 2);
    LERoundTrip(if |es| < 65535 then |es| else 65535, 2);
  }

  lemma {:induction false} LETruncates(n: nat, w: nat)
    ensures FromLE(LE(n, w)) == n % Pow256(w)
  {
    if w > 0 {
      LETruncates(n / 256, w - 1);
      assert LE(n, w)[1..] == LE(n / 256, w - 1);
      TwoStepRemainder(n, Pow256(w - 1));
    }
  }

  lemma TwoStepRemainder(n: nat, m: nat)
    requires m > 0
    ensures n % (256 * m) == n % 256 + 256 * (n / 256 % m)
  {
    var q, r := n / 256 / m, n / 256 % m;
    assert n / 256 == q * m + r;
    assert n == q * (256 * m) + (n % 256 + 256 * r);
    DivisionIsUnique(n, 256 * m, q, n % 256 + 256 * r);
  }

  lemma AtLeastOnce(k: nat, m: nat)
    requires k >= 1
    ensures k * m >= m
  {}

  lemma DivisionIsUnique(n: nat, m: nat, q: nat, r: nat)
    requires m > 0 && n == q * m + r && r < m
    ensures n % m == r
  {
    var q2, r2 := n / m, n % m;
    assert (q - q2) * m == r2 - r;
    if q > q2 {
      AtLeastOnce(q - q2, m);
    } else if q < q2 {
      AtLeastOnce(q2 - q, m);
    }
  }

  /** An entry is its encoding and that encoding's length; entries keep their order. */
  lemma {:induction false} BodyInOrder(a: seq<Element>, b: seq<Element>)
    ensures Body(a + b) == Body(a) + Body(b)
    decreases a
  {
    if a == [] {
      assert a + b == b;
    } else {
      assert (a + b)[1..] == a[1..] + b;
      BodyInOrder(a[1..], b);
    }
  }

  lemma BodyOfOne(e: Element)
    ensures Body([e]) == (match e case Int(v) => IntEncoding(v) case Str(d) => StrEncoding(d))
                         + BackLen(match e case Int(v) => |IntEncoding(v)| case Str(d) => |StrEncoding(d)|)
  {
    assert [e][1..] == [];
  }

  function IntOf(v: int, w: nat): Element
    requires w <= 8 && FitsSigned(v, w)
  {
    FitsI64(v, w);
    Int(v)
  }

  lemma NumberFieldReads(v: int, w: nat, head: byte, rest: seq<byte>)
    requires w <= 8 && FitsSigned(v, w)
    ensures IntField([head] + LE(Wrap(v, w), w) + rest, 1, w) == Some((IntOf(v, w), 1 + w))
  {
    assert ([head] + LE(Wrap(v, w), w) + rest)[1..1 + w] == LE(Wrap(v, w), w);
    LERoundTrip(Wrap(v, w), w);
  }

  /** A reader takes any form for a number, the narrowest or not. */
  lemma AnyIntReads(v: int, rest: seq<byte>)
    ensures 0 <= v < 128 ==> EncodingAt([v] + rest) == Some((Int(v), 1))
    ensures -4096 <= v < 4096 ==>
              var raw := if v < 0 then v + 8192 else v; EncodingAt([192 + raw / 256, raw % 256] + rest) == Some((Int(v), 2))
    ensures FitsSigned(v, 2) ==> EncodingAt([241] + LE(Wrap(v, 2), 2) + rest) == Some((IntOf(v, 2), 3))
    ensures FitsSigned(v, 3) ==> EncodingAt([242] + LE(Wrap(v, 3), 3) + rest) == Some((IntOf(v, 3), 4))
    ensures FitsSigned(v, 4) ==> EncodingAt([243] + LE(Wrap(v, 4), 4) + rest) == Some((IntOf(v, 4), 5))
    ensures FitsSigned(v, 8) ==> EncodingAt([244] + LE(Wrap(v, 8), 8) + rest) == Some((IntOf(v, 8), 9))
  {
    hide LE, FromLE, IntField, Wrap;
    if FitsSigned(v, 2) {
      NumberFieldReads(v, 2, 241, rest);
    }
    if FitsSigned(v, 3) {
      NumberFieldReads(v, 3, 242, rest);
    }
    if FitsSigned(v, 4) {
      NumberFieldReads(v, 4, 243, rest);
    }
    if FitsSigned(v, 8) {
      NumberFieldReads(v, 8, 244, rest);
    }
  }

  /** And any form for a length. */
  lemma AnyStrReads(d: seq<byte>, rest: seq<byte>)
    ensures |d| < 64 ==> EncodingAt([128 + |d|] + d + rest) == Some((Str(d), 1 + |d|))
    ensures |d| < 4096 ==> EncodingAt([224 + |d| / 256, |d| % 256] + d + rest) == Some((Str(d), 2 + |d|))
    ensures |d| < 4294967296 ==> EncodingAt([240] + LE(|d|, 4) + d + rest) == Some((Str(d), 5 + |d|))
  {
    hide EncodingAt, LE;
    if |d| < 64 {
      ShortStrReads(d, rest);
    }
    if |d| < 4096 {
      MiddleStrReads(d, rest);
    }
    if |d| < 4294967296 {
      LongStrReads(d, rest);
    }
  }

  lemma ShortStrReads(d: seq<byte>, rest: seq<byte>)
    requires |d| < 64
    ensures EncodingAt([128 + |d|] + d + rest) == Some((Str(d), 1 + |d|))
  {
    hide StrField;
    StrFieldReads([128 + |d|], d, rest);
  }

  lemma MiddleStrReads(d: seq<byte>, rest: seq<byte>)
    requires |d| < 4096
    ensures EncodingAt([224 + |d| / 256, |d| % 256] + d + rest) == Some((Str(d), 2 + |d|))
  {
    hide StrField;
    StrFieldReads([224 + |d| / 256, |d| % 256], d, rest);
  }

  lemma LongStrReads(d: seq<byte>, rest: seq<byte>)
    requires |d| < 4294967296
    ensures EncodingAt([240] + LE(|d|, 4) + d + rest) == Some((Str(d), 5 + |d|))
  {
    hide EncodingAt, StrField, LE, FromLE, Pow256;
    Pow256Values();
    LERoundTrip(|d|, 4);
    var head := [240] + LE(|d|, 4);
    StrFieldReads(head, d, rest);
    assert (head + d + rest)[1..5] == LE(|d|, 4);
    LongHead(head + d + rest);
  }

  lemma LongHead(s: seq<byte>)
    requires |s| >= 5 && s[0] == 240
    ensures EncodingAt(s) == StrField(s, 5, FromLE(s[1..5]))
  {
    hide StrField, FromLE;
  }

  lemma StrFieldReads(head: seq<byte>, d: seq<byte>, rest: seq<byte>)
    ensures StrField(head + d + rest, |head|, |d|) == Some((Str(d), |head| + |d|))
  {
    assert (head + d + rest)[|head|..|head| + |d|] == d;
  }

  /** Bytes 245 to 254 begin no entry. */
  lemma NoOtherForm(b: byte, rest: seq<byte>)
    requires 245 <= b
    ensures EncodingAt([b] + rest) == None
  {}
}
