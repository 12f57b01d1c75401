/** The length and string encodings every RDB value is built from, and the bounds-checked reader. */
module Cursor {
  import opened Bytes
  import Decimal
  import Lzf

  datatype Error = Corrupt | Unsupported | Unmodelled

  datatype Result<+T> = Ok(value: T) | Err(error: Error)

  /** A length field doubles as a string-encoding discriminator. */
  datatype Len = Plain(n: u64) | Special(kind: nat)

  // ---------------------------------------------------------------- writing

  function LengthCode(n: nat): (code: seq<byte>)
    ensures code != []
  {
    if n < 64 then [n]
    else if n < 16384 then [0x40 + n / 256, n % 256]
    else if n < 0x1_0000_0000 then [0x80] + BE(n, 4)
    else [0x81] + BE(n, 8)
  }

  function StringCode(s: seq<byte>): seq<byte> {
    LengthCode(|s|) + s
  }

  /** What a machine with 64-bit sizes can hold. */
  predicate InMemory<T>(s: seq<T>) {
    |s| < 0x1_0000_0000_0000_0000
  }

  method PutLength(out: Buffer, n: u64)
    modifies out
    ensures out.bytes == old(out.bytes) + LengthCode(n)
  {
    if n < 64 {
      out.Push(n);
    } else if n < 16384 {
      out.Push(0x40 + n / 256);
      out.Push(n % 256);
    } else if n <= 0xffff_ffff {
      out.Push(0x80);
      out.Extend(BE(n, 4));
    } else {
      out.Push(0x81);
      out.Extend(BE(n, 8));
    }
  }

  method PutRawString(out: Buffer, s: seq<byte>)
    requires InMemory(s)
    modifies out
    ensures out.bytes == old(out.bytes) + StringCode(s)
  {
    PutLength(out, |s|);
    out.Extend(s);
  }

  // ---------------------------------------------------------------- reading
  //
  // Each `...At` function says what stands at the head of `s` and how many bytes it takes.

  function BytesAt(s: seq<byte>, n: nat): Result<(seq<byte>, nat)> {
    if n <= |s| then Ok((s[..n], n)) else Err(Corrupt)
  }

  function FixedBE(s: seq<byte>, w: nat): Result<(u64, nat)>
    requires w <= 8
  {
    if 1 + w <= |s| then
      FromBEFits(s[1..1 + w]);
      Ok((FromBE(s[1..1 + w]), 1 + w))
    else Err(Corrupt)
  }

  lemma FromBEFits(s: seq<byte>)
    requires |s| <= 8
    ensures FromBE(s) < 0x1_0000_0000_0000_0000
  {
    FromBEBound(s);
    Pow256Values();
    Pow256Mono(|s|, 8);
  }

  function LenAt(s: seq<byte>): (r: Result<(Len, nat)>)
    ensures r.Ok? ==> 0 < r.value.1 <= |s|
  {
    if s == [] then Err(Corrupt)
    else
      var b: int := s[0];
      if b < 0x40 then Ok((Plain(b), 1))
      else if b < 0x80 then
        if |s| < 2 then Err(Corrupt) else Ok((Plain((b - 0x40) * 256 + s[1]), 2))
      else if b >= 0xc0 then Ok((Special(b - 0xc0), 1))
      else if b == 0x80 || b == 0x81 then
        match FixedBE(s, if b == 0x80 then 4 else 8)
        case Err(e) => Err(e)
        case Ok((n, used)) => Ok((Plain(n), used))
      else Err(Corrupt)
  }

  function CountAt(s: seq<byte>): (r: Result<(u64, nat)>)
    ensures r.Ok? ==> 0 < r.value.1 <= |s|
  {
    match LenAt(s)
    case Err(e) => Err(e)
    case Ok((Plain(n), used)) => Ok((n, used))
    case Ok((Special(_), _)) => Err(Corrupt)
  }

  /** An integer stored in `w` bytes after the length byte, as its decimal text. */
  function IntStringAt(s: seq<byte>, w: nat): Result<(seq<byte>, nat)> {
    if 1 + w <= |s| then Ok((Decimal.Render(Signed(FromLE(s[1..1 + w]), w)), 1 + w)) else Err(Corrupt)
  }

  function LzfStringAt(s: seq<byte>): (r: Result<(seq<byte>, nat)>)
    requires s != []
    ensures r.Ok? ==> 0 < r.value.1 <= |s|
  {
    match CountAt(s[1..])
    case Err(e) => Err(e)
    case Ok((compressed, a)) =>
      match CountAt(s[1 + a..])
      case Err(e) => Err(e)
      case Ok((expanded, b)) =>
        var at := 1 + a + b;
        if at + compressed > |s| then Err(Corrupt)
        else match Lzf.Resume([], s[at..at + compressed])
          case None => Err(Corrupt)
          case Some(out) => if |out| == expanded then Ok((out, at + compressed)) else Err(Corrupt)
  }

  function StringAt(s: seq<byte>): (r: Result<(seq<byte>, nat)>)
    ensures r.Ok? ==> 0 < r.value.1 <= |s|
  {
    match LenAt(s)
    case Err(e) => Err(e)
    case Ok((Plain(n), used)) =>
      if used + n <= |s| then Ok((s[used..used + n], used + n)) else Err(Corrupt)
    case Ok((Special(kind), _)) =>
      if kind == 0 then IntStringAt(s, 1)
      else if kind == 1 then IntStringAt(s, 2)
      else if kind == 2 then IntStringAt(s, 4)
      else if kind == 3 then LzfStringAt(s)
      else Err(Corrupt)
  }

  /** A cursor call that began at `start` and ended at `end` did what `parsed` says of the bytes there. */
  ghost predicate Consumed<T>(parsed: Result<(T, nat)>, r: Result<T>, start: nat, end: nat) {
    match parsed
    case Ok((v, n)) => r == Ok(v) && end == start + n
    case Err(e) => r == Err(e)
  }

  class Reader {
    const buf: seq<byte>
    var pos: nat

    ghost predicate Valid()
      reads this
    {
      pos <= |buf|
    }

    ghost function Rest(): seq<byte>
      requires Valid()
      reads this
    {
      buf[pos..]
    }

    constructor (buf: seq<byte>)
      ensures Valid() && this.buf == buf && pos == 0
    {
      this.buf := buf;
      pos := 0;
    }

    method Seek(to: nat)
      requires to <= |buf|
      modifies this
      ensures pos == to
    {
      pos := to;
    }

    method Byte() returns (r: Result<byte>)
      requires Valid()
      modifies this
      ensures Valid()
      ensures r == if old(pos) < |buf| then Ok(buf[old(pos)]) else Err(Corrupt)
      ensures r.Ok? ==> pos == old(pos) + 1
    {
      if pos >= |buf| {
        return Err(Corrupt);
      }
      r := Ok(buf[pos]);
      pos := pos + 1;
    }

    method Take(n: nat) returns (r: Result<seq<byte>>)
      requires Valid()
      modifies this
      ensures Valid() && Consumed(BytesAt(old(Rest()), n), r, old(pos), pos)
    {
      var end := pos + n;
      if end > |buf| {
        return Err(Corrupt);
      }
      assert buf[pos..end] == Rest()[..n];
      r := Ok(buf[pos..end]);
      pos := end;
    }

    method Length() returns (r: Result<Len>)
      requires Valid()
      modifies this
      ensures Valid() && Consumed(LenAt(old(Rest())), r, old(pos), pos)
    {
      ghost var s := Rest();
      var first := Byte();
      if first.Err? {
        return Err(Corrupt);
      }
      var b: int := first.value;
      if b < 0x40 {
        return Ok(Plain(b));
      } else if b < 0x80 {
        var lo := Byte();
        if lo.Err? {
          return Err(Corrupt);
        }
        return Ok(Plain((b - 0x40) * 256 + lo.value));
      } else if b >= 0xc0 {
        return Ok(Special(b - 0xc0));
      } else if b == 0x80 || b == 0x81 {
        var w := if b == 0x80 then 4 else 8;
        assert Rest() == s[1..];
        var raw := Take(w);
        if raw.Err? {
          return Err(Corrupt);
        }
        assert raw.value == s[1..][..w] == s[1..1 + w];
        FromBEFits(raw.value);
        return Ok(Plain(FromBE(raw.value)));
      } else {
        return Err(Corrupt);
      }
    }

    method Count() returns (r: Result<u64>)
      requires Valid()
      modifies this
      ensures Valid() && Consumed(CountAt(old(Rest())), r, old(pos), pos)
    {
      var len := Length();
      match len {
        case Err(e) => return Err(e);
        case Ok(Plain(n)) => return Ok(n);
        case Ok(Special(_)) => return Err(Corrupt);
      }
    }

    method IntString(w: nat) returns (r: Result<seq<byte>>)
      requires Valid()
      modifies this
      ensures Valid()
      ensures r == if old(pos) + w <= |buf|
                   then Ok(Decimal.Render(Signed(FromLE(buf[old(pos)..old(pos) + w]), w))) else Err(Corrupt)
      ensures r.Ok? ==> pos == old(pos) + w
    {
      ghost var start := pos;
      var raw := Take(w);
      if raw.Err? {
        return Err(Corrupt);
      }
      assert raw.value == buf[start..start + w];
      return Ok(Decimal.Render(Signed(FromLE(raw.value), w)));
    }

    method LzfString() returns (r: Result<seq<byte>>)
      requires Valid() && pos > 0
      modifies this
      ensures Valid() && Consumed(LzfStringAt(buf[old(pos) - 1..]), r, old(pos) - 1, pos)
    {
      hide CountAt, Lzf.Resume;
      ghost var start := pos - 1;
      ghost var s := buf[start..];
      assert Rest() == s[1..];
      var compressed := Count();
      if compressed.Err? {
        return Err(compressed.error);
      }
      assert Rest() == s[pos - start..];
      var expanded := Count();
      if expanded.Err? {
        return Err(expanded.error);
      }
      ghost var at := pos - start;
      assert Rest() == s[at..];
      var block := Take(compressed.value);
      if block.Err? {
        return Err(Corrupt);
      }
      assert block.value == s[at..][..compressed.value] == s[at..at + compressed.value];
      var out := Lzf.Decompress(block.value, expanded.value);
      match out {
        case None => return Err(Corrupt);
        case Some(bytes) => return Ok(bytes);
      }
    }

    method String() returns (r: Result<seq<byte>>)
      requires Valid()
      modifies this
      ensures Valid() && Consumed(StringAt(old(Rest())), r, old(pos), pos)
    {
      ghost var start := pos;
      ghost var s := Rest();
      var len := Length();
      match len {
        case Err(e) => return Err(e);
        case Ok(Plain(n)) =>
          ghost var used := pos - start;
          assert Rest() == s[used..];
          r := Take(n);
          assert n <= |s| - used ==> s[used..][..n] == s[used..used + n];
        case Ok(Special(kind)) =>
          assert pos == start + 1;
          if kind == 0 {
            r := IntString(1);
            assert r.Ok? ==> buf[start + 1..start + 2] == s[1..2];
          } else if kind == 1 {
            r := IntString(2);
            assert r.Ok? ==> buf[start + 1..start + 3] == s[1..3];
          } else if kind == 2 {
            r := IntString(4);
            assert r.Ok? ==> buf[start + 1..start + 5] == s[1..5];
          } else if kind == 3 {
            r := LzfString();
          } else {
            r := Err(Corrupt);
          }
      }
    }
  }

  // ------------------------------------------------------------- properties

  lemma LengthRoundTrip(n: u64, rest: seq<byte>)
    ensures LenAt(LengthCode(n) + rest) == Ok((Plain(n), |LengthCode(n)|))
  {
    Pow256Values();
    var s := LengthCode(n) + rest;
    if n >= 0x1_0000_0000 {
      assert s[1..9] == BE(n, 8);
      BERoundTrip(n, 8);
    } else if n >= 16384 {
      assert s[1..5] == BE(n, 4);
      BERoundTrip(n, 4);
    }
  }

  lemma CountRoundTrip(n: u64, rest: seq<byte>)
    ensures CountAt(LengthCode(n) + rest) == Ok((n, |LengthCode(n)|))
  {
    LengthRoundTrip(n, rest);
  }

  lemma StringRoundTrip(d: seq<byte>, rest: seq<byte>)
    requires InMemory(d)
    ensures StringAt(StringCode(d) + rest) == Ok((d, |StringCode(d)|))
  {
    var s, used := StringCode(d) + rest, |LengthCode(|d|)|;
    assert s == LengthCode(|d|) + (d + rest);
    LengthRoundTrip(|d|, d + rest);
    assert s[used..used + |d|] == d;
  }

  // ------------------------------------------------- the format, byte by byte

  /** The shortest of the four forms: six bits, fourteen bits, or a marker and four or eight big-endian bytes. */
  lemma LengthForms(n: u64)
    ensures n < 64 ==> LengthCode(n) == [n]
    ensures 64 <= n < 16384 ==> |LengthCode(n)| == 2 && LengthCode(n)[0] == 64 + n / 256 && LengthCode(n)[1] == n % 256
    ensures 16384 <= n < 4294967296 ==> |LengthCode(n)| == 5 && LengthCode(n)[0] == 128 && FromBE(LengthCode(n)[1..]) == n
    ensures 4294967296 <= n ==> |LengthCode(n)| == 9 && LengthCode(n)[0] == 129 && FromBE(LengthCode(n)[1..]) == n
  {
    Pow256Values();
    if 4294967296 <= n {
      assert LengthCode(n)[1..] == BE(n, 8);
      BERoundTrip(n, 8);
    } else if 16384 <= n {
      assert LengthCode(n)[1..] == BE(n, 4);
      BERoundTrip(n, 4);
    }
  }

  /** A reader takes every form at its word, the shortest or not, and any other first byte is an error. */
  lemma LengthFormsRead(high: byte, low: byte, wide: seq<byte>, rest: seq<byte>)
    requires high < 64 && |wide| <= 8
    ensures LenAt([high] + rest) == Ok((Plain(high), 1))
    ensures LenAt([64 + high, low] + rest) == Ok((Plain(256 * high + low), 2))
    ensures |wide| == 4 ==> FromBE(wide) < 0x1_0000_0000_0000_0000 && LenAt([128] + wide + rest) == Ok((Plain(FromBE(wide)), 5))
    ensures |wide| == 8 ==> FromBE(wide) < 0x1_0000_0000_0000_0000 && LenAt([129] + wide + rest) == Ok((Plain(FromBE(wide)), 9))
    ensures high > 1 ==> LenAt([128 + high] + rest) == Err(Corrupt)
    ensures LenAt([192 + high] + rest) == Ok((Special(high), 1))
  {
    FromBEFits(wide);
    if |wide| == 4 {
      assert ([128] + wide + rest)[1..5] == wide;
    }
    if |wide| == 8 {
      assert ([129] + wide + rest)[1..9] == wide;
    }
  }

  /** A length cut short is an error. */
  lemma ShortLengths(b: byte, few: seq<byte>)
    ensures LenAt([]) == Err(Corrupt)
    ensures 64 <= b < 128 ==> LenAt([b]) == Err(Corrupt)
    ensures (b == 128 && |few| < 4) || (b == 129 && |few| < 8) ==> LenAt([b] + few) == Err(Corrupt)
  {}

  /** Integers of one, two and four bytes, stored as signed little-endian numbers, read as their decimal text. */
  lemma IntStringReads(v: int, rest: seq<byte>)
    ensures FitsSigned(v, 1) ==> StringAt([192] + LE(Wrap(v, 1), 1) + rest) == Ok((Decimal.Render(v), 2))
    ensures FitsSigned(v, 2) ==> StringAt([193] + LE(Wrap(v, 2), 2) + rest) == Ok((Decimal.Render(v), 3))
    ensures FitsSigned(v, 4) ==> StringAt([194] + LE(Wrap(v, 4), 4) + rest) == Ok((Decimal.Render(v), 5))
  {
    hide Decimal.Render, LE, FromLE, Wrap, Signed, Pow256;
    if FitsSigned(v, 1) {
      NumberReads(v, 1, 192, rest);
    }
    if FitsSigned(v, 2) {
      NumberReads(v, 2, 193, rest);
    }
    if FitsSigned(v, 4) {
      NumberReads(v, 4, 194, rest);
    }
  }

  lemma NumberReads(v: int, w: nat, head: byte, rest: seq<byte>)
    requires FitsSigned(v, w)
    ensures IntStringAt([head] + LE(Wrap(v, w), w) + rest, w) == Ok((Decimal.Render(v), 1 + w))
  {
    hide Decimal.Render;
    assert ([head] + LE(Wrap(v, w), w) + rest)[1..1 + w] == LE(Wrap(v, w), w);
    LERoundTrip(Wrap(v, w), w);
  }

  /** A compressed string: the length of the block, the length of the text, the block. It reads as the text the block
      expands to, and not at all when the lengths disagree. */
  lemma CompressedReads(block: seq<byte>, expanded: nat, rest: seq<byte>)
    requires InMemory(block) && expanded < 0x1_0000_0000_0000_0000
    ensures var s := [195] + LengthCode(|block|) + LengthCode(expanded) + block + rest;
            var text := Lzf.Resume([], block);
            if text.Some? && |text.value| == expanded then StringAt(s) == Ok((text.value, |s| - |rest|))
            else StringAt(s) == Err(Corrupt)
  {
    hide LengthCode, CountAt, Lzf.Resume;
    var a, b := LengthCode(|block|), LengthCode(expanded);
    var s := [195] + a + b + block + rest;
    assert s[1..] == a + (b + block + rest);
    CountRoundTrip(|block|, b + block + rest);
    assert s[1 + |a|..] == b + (block + rest);
    CountRoundTrip(expanded, block + rest);
    var at := 1 + |a| + |b|;
    assert s[at..at + |block|] == block;
  }

  /** There is no other encoding, and a string cut short is an error. */
  lemma NoOtherString(kind: byte, n: nat, few: seq<byte>)
    requires 3 < kind < 64
    ensures StringAt([192 + kind] + few) == Err(Corrupt)
    ensures |few| < n < 64 ==> StringAt([n] + few) == Err(Corrupt)
    ensures StringAt([192]) == Err(Corrupt)
    ensures |few| < 2 ==> StringAt([193] + few) == Err(Corrupt)
    ensures |few| < 4 ==> StringAt([194] + few) == Err(Corrupt)
  {}

  /** What the tokens expand to is what the compressed string reads as. */
  lemma CompressedTextReads(ts: seq<Lzf.Token>, text: seq<byte>, rest: seq<byte>)
    requires Lzf.AllValid(ts) && Lzf.Expand([], ts) == Some(text)
    requires InMemory(Lzf.Encode(ts)) && InMemory(text)
    ensures var block := Lzf.Encode(ts);
            var s := [195] + LengthCode(|block|) + LengthCode(|text|) + block;
            StringAt(s + rest) == Ok((text, |s|))
  {
    hide LengthCode, StringAt, Lzf.Resume, Lzf.Expand, Lzf.Encode;
    Lzf.ResumeIsExpansion(Lzf.Encode(ts), text);
    CompressedReads(Lzf.Encode(ts), |text|, rest);
  }
}
