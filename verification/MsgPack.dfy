/** MessagePack, as scripts see it: tables go out as arrays or maps and come back as tables. */
module MsgPack {
  import opened Bytes
  import opened ScriptValues

  predicate ScalarOk(x: Scalar) {
    x.Str? ==> |x.s| < 0x1_0000_0000
  }

  /** Tables have distinct keys, no nil values, a border, and sizes that fit the format. */
  predicate Ok(h: Held)
    decreases h
  {
    match h
    case Nil => true
    case One(x) => ScalarOk(x)
    case Table(pairs, border) =>
      && DistinctKeys(pairs) && IsBorder(pairs, border) && |pairs| < 0x1_0000_0000
      && (forall j :: 0 <= j < |pairs| ==> ScalarOk(pairs[j].0) && !pairs[j].1.Nil? && Ok(pairs[j].1))
  }

  // -------------------------------------------------------------------- encoding

  function IntCode(i: i64): seq<byte> {
    if 0 <= i <= 127 then [i]
    else if -32 <= i < 0 then [256 + i]
    else if -0x80 <= i < 0x80 then [0xd0, if i < 0 then 256 + i else i]
    else if -0x8000 <= i < 0x8000 then [0xd1] + BE(if i < 0 then i + 0x1_0000 else i, 2)
    else if -0x8000_0000 <= i < 0x8000_0000 then [0xd2] + BE(if i < 0 then i + 0x1_0000_0000 else i, 4)
    else [0xd3] + BE(if i < 0 then i + 0x1_0000_0000_0000_0000 else i, 8)
  }

  /** Headers hold the size in the tag when it is small, else in as many big-endian bytes as it takes. */
  function StrHeader(n: nat): seq<byte> {
    if n < 32 then [0xa0 + n]
    else if n < 256 then [0xd9, n]
    else if n < 65536 then [0xda] + BE(n, 2)
    else [0xdb] + BE(n, 4)
  }

  function ArrayHeader(n: nat): seq<byte> {
    if n < 16 then [0x90 + n] else if n < 65536 then [0xdc] + BE(n, 2) else [0xdd] + BE(n, 4)
  }

  function MapHeader(n: nat): seq<byte> {
    if n < 16 then [0x80 + n] else if n < 65536 then [0xde] + BE(n, 2) else [0xdf] + BE(n, 4)
  }

  function ScalarCode(x: Scalar): seq<byte> {
    match x
    case Bool(b) => [if b then 0xc3 else 0xc2]
    case Int(i) => IntCode(i)
    case Str(s) => StrHeader(|s|) + s
  }

  function Code(h: Held): seq<byte>
    requires Ok(h)
    decreases h, 1, 0
  {
    match h
    case Nil => [0xc0]
    case One(x) => ScalarCode(x)
    case Table(pairs, border) =>
      if IsArray(pairs, border) then ArrayHeader(border) + ItemsCode(h, 1) else MapHeader(|pairs|) + PairsCode(h, 0)
  }

  /** Array items from the `i`th on. */
  function ItemsCode(h: Held, i: nat): seq<byte>
    requires Ok(h) && h.Table? && IsArray(h.pairs, h.border) && 1 <= i <= h.border + 1
    decreases h, 0, h.border + 1 - i
  {
    if i == h.border + 1 then []
    else
      ArrayHasAll(h.pairs, h.border, i);
      Code(h.pairs[Place(h.pairs, Int(i))].1) + ItemsCode(h, i + 1)
  }

  /** Keys and values from the `k`th pair on. */
  function PairsCode(h: Held, k: nat): seq<byte>
    requires Ok(h) && h.Table? && k <= |h.pairs|
    decreases h, 0, |h.pairs| - k
  {
    if k == |h.pairs| then []
    else ScalarCode(h.pairs[k].0) + Code(h.pairs[k].1) + PairsCode(h, k + 1)
  }

  // -------------------------------------------------------------------- decoding

  datatype Error = Truncated | BadTag | NilKey | Unmodelled

  datatype Decoded<+T> = Got(value: T, rest: seq<byte>) | Fail(error: Error)

  function NumberAt(s: seq<byte>, w: nat): (r: Decoded<nat>)
    ensures r.Got? ==> |r.rest| + w == |s| && r.value < Pow256(w)
  {
    if |s| < w then Fail(Truncated) else FromBEBound(s[..w]); Got(FromBE(s[..w]), s[w..])
  }

  function StrAt(s: seq<byte>, n: nat): (r: Decoded<Value>)
    ensures r.Got? ==> |r.rest| + n == |s|
  {
    if |s| < n then Fail(Truncated) else Got(VOne(Str(s[..n])), s[n..])
  }

  function SizedStr(s: seq<byte>, w: nat): (r: Decoded<Value>)
    ensures r.Got? ==> |r.rest| <= |s|
  {
    match NumberAt(s, w)
    case Fail(e) => Fail(e)
    case Got(n, rest) => StrAt(rest, n)
  }

  function UnsignedAt(s: seq<byte>, w: nat): (r: Decoded<Value>)
    ensures r.Got? ==> |r.rest| <= |s|
  {
    match NumberAt(s, w)
    case Fail(e) => Fail(e)
    case Got(n, rest) => if n < I64_LIMIT then Got(VOne(Int(n)), rest) else Fail(Unmodelled)
  }

  function SignedAt(s: seq<byte>, w: nat): (r: Decoded<Value>)
    requires 1 <= w <= 8
    ensures r.Got? ==> |r.rest| <= |s|
  {
    match NumberAt(s, w)
    case Fail(e) => Fail(e)
    case Got(n, rest) =>
      Pow256Values(); Pow256Mono(w, 8);
      Got(VOne(Int(Signed(n, w))), rest)
  }

  function FloatAt(s: seq<byte>, w: nat): Decoded<Value> {
    if |s| < w then Fail(Truncated) else Fail(Unmodelled)
  }

  function Set(m: map<Scalar, Value>, k: Scalar, v: Value): map<Scalar, Value> {
    if v.VNil? then m else m[k := v]
  }

  function ValueAt(s: seq<byte>): (r: Decoded<Value>)
    ensures r.Got? ==> |r.rest| < |s|
    decreases |s|, 0, 0
  {
    if s == [] then Fail(Truncated)
    else
      var tag: int, t := s[0], s[1..];
      if tag <= 0x7f then Got(VOne(Int(tag)), t)
      else if tag <= 0x8f then DecodePairs(t, tag - 0x80, map[])
      else if tag <= 0x9f then DecodeItems(t, tag - 0x90, 1, map[])
      else if tag <= 0xbf then StrAt(t, tag - 0xa0)
      else if tag == 0xc0 then Got(VNil, t)
      else if tag == 0xc2 then Got(VOne(Bool(false)), t)
      else if tag == 0xc3 then Got(VOne(Bool(true)), t)
      else if tag == 0xc4 || tag == 0xd9 then SizedStr(t, 1)
      else if tag == 0xc5 || tag == 0xda then SizedStr(t, 2)
      else if tag == 0xc6 || tag == 0xdb then SizedStr(t, 4)
      else if tag == 0xca then FloatAt(t, 4)
      else if tag == 0xcb then FloatAt(t, 8)
      else if tag == 0xcc then UnsignedAt(t, 1)
      else if tag == 0xcd then UnsignedAt(t, 2)
      else if tag == 0xce then UnsignedAt(t, 4)
      else if tag == 0xcf then UnsignedAt(t, 8)
      else if tag == 0xd0 then SignedAt(t, 1)
      else if tag == 0xd1 then SignedAt(t, 2)
      else if tag == 0xd2 then SignedAt(t, 4)
      else if tag == 0xd3 then SignedAt(t, 8)
      else if tag == 0xdc then SizedItems(t, 2)
      else if tag == 0xdd then SizedItems(t, 4)
      else if tag == 0xde then SizedPairs(t, 2)
      else if tag == 0xdf then SizedPairs(t, 4)
      else if tag >= 0xe0 then Got(VOne(Int(tag - 0x100)), t)
      else Fail(BadTag)
  }

  function SizedItems(s: seq<byte>, w: nat): (r: Decoded<Value>)
    ensures r.Got? ==> |r.rest| <= |s|
    decreases |s|, 2, 0
  {
    match NumberAt(s, w)
    case Fail(e) => Fail(e)
    case Got(n, rest) => DecodeItems(rest, n, 1, map[])
  }

  function SizedPairs(s: seq<byte>, w: nat): (r: Decoded<Value>)
    ensures r.Got? ==> |r.rest| <= |s|
    decreases |s|, 2, 0
  {
    match NumberAt(s, w)
    case Fail(e) => Fail(e)
    case Got(n, rest) => DecodePairs(rest, n, map[])
  }

  /** `n` more items, the next of them item `i`, on top of those already set. */
  function DecodeItems(s: seq<byte>, n: nat, i: nat, m: map<Scalar, Value>): (r: Decoded<Value>)
    ensures r.Got? ==> |r.rest| <= |s|
    decreases |s|, 1, n
  {
    if n == 0 then Got(VTable(m), s)
    else match ValueAt(s)
      case Fail(e) => Fail(e)
      case Got(v, rest) =>
        if i < I64_LIMIT then DecodeItems(rest, n - 1, i + 1, Set(m, Int(i), v)) else Fail(Unmodelled)
  }

  function DecodePairs(s: seq<byte>, n: nat, m: map<Scalar, Value>): (r: Decoded<Value>)
    ensures r.Got? ==> |r.rest| <= |s|
    decreases |s|, 1, n
  {
    if n == 0 then Got(VTable(m), s)
    else match ValueAt(s)
      case Fail(e) => Fail(e)
      case Got(k, rest) =>
        match ValueAt(rest)
        case Fail(e) => Fail(e)
        case Got(v, rest2) =>
          if v.VNil? then DecodePairs(rest2, n - 1, m)
          else match k
            case VNil => Fail(NilKey)
            case VTable(_) => Fail(Unmodelled)
            case VOne(x) => DecodePairs(rest2, n - 1, m[x := v])
  }

  // ------------------------------------------------------------------ round trips

  lemma NumberRoundTrip(n: nat, w: nat, rest: seq<byte>)
    requires n < Pow256(w)
    ensures NumberAt(BE(n, w) + rest, w) == Got(n, rest)
  {
    BERoundTrip(n, w);
    var s := BE(n, w) + rest;
    assert s[..w] == BE(n, w) && s[w..] == rest;
  }

  lemma HeadAndTail(tag: byte, t: seq<byte>)
    ensures ([tag] + t)[0] == tag && ([tag] + t)[1..] == t
  {}

  lemma SignedRoundTrip(i: i64, w: nat, rest: seq<byte>)
    requires 1 <= w <= 8 && FitsSigned(i, w)
    ensures SignedAt(BE(Wrap(i, w), w) + rest, w) == Got(VOne(Int(i)), rest)
  {
    NumberRoundTrip(Wrap(i, w), w, rest);
  }

  lemma IntRoundTrip(i: i64, rest: seq<byte>)
    ensures ValueAt(IntCode(i) + rest) == Got(VOne(Int(i)), rest)
  {
    hide SignedAt, BE, Pow256;
    Pow256Values();
    var s := IntCode(i) + rest;
    if 0 <= i <= 127 {
      HeadAndTail(i, rest);
    } else if -32 <= i < 0 {
      HeadAndTail(256 + i, rest);
    } else if -0x80 <= i < 0x80 {
      var b := if i < 0 then 256 + i else i;
      OneByte(b);
      HeadAndTail(0xd0, BE(b, 1) + rest);
      assert s == [0xd0] + (BE(b, 1) + rest);
      SignedRoundTrip(i, 1, rest);
    } else if -0x8000 <= i < 0x8000 {
      WideInt(0xd1, i, 2, rest);
    } else if -0x8000_0000 <= i < 0x8000_0000 {
      WideInt(0xd2, i, 4, rest);
    } else {
      WideInt(0xd3, i, 8, rest);
    }
  }

  lemma OneByte(b: byte)
    ensures BE(b, 1) == [b]
  {
    assert BE(b / 256, 0) == [];
  }

  lemma WideInt(tag: byte, i: i64, w: nat, rest: seq<byte>)
    requires 1 <= w <= 8 && FitsSigned(i, w)
    ensures var s := [tag] + BE(Wrap(i, w), w) + rest;
            s[0] == tag && SignedAt(s[1..], w) == Got(VOne(Int(i)), rest)
  {
    assert [tag] + BE(Wrap(i, w), w) + rest == [tag] + (BE(Wrap(i, w), w) + rest);
    HeadAndTail(tag, BE(Wrap(i, w), w) + rest);
    SignedRoundTrip(i, w, rest);
  }

  /** A tag and a big-endian size, then whatever follows. */
  lemma SizedHead(tag: byte, n: nat, w: nat, rest: seq<byte>)
    requires n < Pow256(w)
    ensures var s := [tag] + BE(n, w) + rest;
            s[0] == tag && NumberAt(s[1..], w) == Got(n, rest)
  {
    assert [tag] + BE(n, w) + rest == [tag] + (BE(n, w) + rest);
    HeadAndTail(tag, BE(n, w) + rest);
    NumberRoundTrip(n, w, rest);
  }

  lemma StrHeaderReads(n: nat, rest: seq<byte>)
    requires n < 0x1_0000_0000
    ensures ValueAt(StrHeader(n) + rest) == StrAt(rest, n)
  {
    hide NumberAt, BE, Pow256, StrAt;
    Pow256Values();
    if n < 32 {
      HeadAndTail(0xa0 + n, rest);
    } else if n < 256 {
      OneByte(n);
      SizedHead(0xd9, n, 1, rest);
      assert [0xd9, n] + rest == [0xd9] + BE(n, 1) + rest;
    } else if n < 65536 {
      SizedHead(0xda, n, 2, rest);
    } else {
      SizedHead(0xdb, n, 4, rest);
    }
  }

  lemma StrRoundTrip(s: seq<byte>, rest: seq<byte>)
    requires |s| < 0x1_0000_0000
    ensures ValueAt(StrHeader(|s|) + s + rest) == Got(VOne(Str(s)), rest)
  {
    hide ValueAt, StrHeader;
    assert StrHeader(|s|) + s + rest == StrHeader(|s|) + (s + rest);
    StrHeaderReads(|s|, s + rest);
    assert (s + rest)[..|s|] == s && (s + rest)[|s|..] == rest;
  }

  lemma ScalarRoundTrip(x: Scalar, rest: seq<byte>)
    requires ScalarOk(x)
    ensures ValueAt(ScalarCode(x) + rest) == Got(VOne(x), rest)
  {
    hide IntCode, StrHeader;
    match x {
      case Bool(b) => HeadAndTail(if b then 0xc3 else 0xc2, rest);
      case Int(i) =>
        hide ValueAt;
        IntRoundTrip(i, rest);
      case Str(s) =>
        hide ValueAt;
        StrRoundTrip(s, rest);
    }
  }

  lemma ArrayHeaderReads(n: nat, rest: seq<byte>)
    requires n < 0x1_0000_0000
    ensures ValueAt(ArrayHeader(n) + rest) == DecodeItems(rest, n, 1, map[])
  {
    hide NumberAt, BE, Pow256, DecodeItems;
    Pow256Values();
    if n < 16 {
      HeadAndTail(0x90 + n, rest);
    } else if n < 65536 {
      SizedHead(0xdc, n, 2, rest);
    } else {
      SizedHead(0xdd, n, 4, rest);
    }
  }

  lemma MapHeaderReads(n: nat, rest: seq<byte>)
    requires n < 0x1_0000_0000
    ensures ValueAt(MapHeader(n) + rest) == DecodePairs(rest, n, map[])
  {
    hide NumberAt, BE, Pow256, DecodePairs;
    Pow256Values();
    if n < 16 {
      HeadAndTail(0x80 + n, rest);
    } else if n < 65536 {
      SizedHead(0xde, n, 2, rest);
    } else {
      SizedHead(0xdf, n, 4, rest);
    }
  }

  /** Nested values come back with their meaning, and nothing after them is touched. */
  lemma {:induction false} RoundTrip(h: Held, rest: seq<byte>)
    requires Ok(h)
    ensures ValueAt(Code(h) + rest) == Got(Meaning(h), rest)
    decreases h, 1, 0
  {
    match h {
      case Nil => HeadAndTail(0xc0, rest);
      case One(x) =>
        hide ValueAt;
        ScalarRoundTrip(x, rest);
      case Table(pairs, border) =>
        hide ValueAt, Code, Meaning;
        if IsArray(pairs, border) {
          ArrayRoundTrip(h, rest);
        } else {
          MapRoundTrip(h, rest);
        }
    }
  }

  lemma ArrayRoundTrip(h: Held, rest: seq<byte>)
    requires Ok(h) && h.Table? && IsArray(h.pairs, h.border)
    ensures ValueAt(Code(h) + rest) == Got(Meaning(h), rest)
    decreases h, 0, h.border + 2
  {
    hide ValueAt, DecodeItems, ArrayHeader, ItemsCode, MeaningTo, IsArray;
    assert Code(h) + rest == ArrayHeader(h.border) + (ItemsCode(h, 1) + rest);
    OkTable(h);
    ArrayHeaderReads(h.border, ItemsCode(h, 1) + rest);
    NoItems(h);
    ItemsRoundTrip(h, 1, rest);
    ItemsMeaning(h);
  }

  lemma MapRoundTrip(h: Held, rest: seq<byte>)
    requires Ok(h) && h.Table? && !IsArray(h.pairs, h.border)
    ensures ValueAt(Code(h) + rest) == Got(Meaning(h), rest)
    decreases h, 0, |h.pairs| + 1
  {
    hide ValueAt, DecodePairs, MapHeader, PairsCode, IsArray;
    assert Code(h) + rest == MapHeader(|h.pairs|) + (PairsCode(h, 0) + rest);
    MapHeaderReads(|h.pairs|, PairsCode(h, 0) + rest);
    PairsRoundTrip(h, 0, rest);
  }

  lemma {:induction false} ItemsRoundTrip(h: Held, i: nat, rest: seq<byte>)
    requires Ok(h) && h.Table? && IsArray(h.pairs, h.border) && 1 <= i <= h.border + 1
    ensures DecodeItems(ItemsCode(h, i) + rest, h.border + 1 - i, i, ItemsTo(h, i - 1))
            == Got(VTable(ItemsTo(h, h.border)), rest)
    decreases h, 0, h.border + 1 - i
  {
    hide ValueAt, Code, Meaning, DistinctKeys, IsBorder, HasKey, Place;
    if i == h.border + 1 {
      assert [] + rest == rest;
    } else {
      hide DecodeItems;
      OkTable(h);
      ArrayHasAll(h.pairs, h.border, i);
      var item := h.pairs[Place(h.pairs, Int(i))].1;
      var more := ItemsCode(h, i + 1) + rest;
      assert ItemsCode(h, i) + rest == Code(item) + more;
      RoundTrip(item, more);
      NotNil(item);
      ItemStep(Code(item) + more, h.border + 1 - i, i, ItemsTo(h, i - 1), Meaning(item), more);
      ItemsRoundTrip(h, i + 1, rest);
    }
  }

  lemma ItemStep(s: seq<byte>, n: nat, i: nat, m: map<Scalar, Value>, v: Value, rest: seq<byte>)
    requires n > 0 && i < I64_LIMIT && ValueAt(s) == Got(v, rest) && !v.VNil?
    ensures DecodeItems(s, n, i, m) == DecodeItems(rest, n - 1, i + 1, m[Int(i) := v])
  {
    hide ValueAt;
  }

  lemma {:induction false} PairsRoundTrip(h: Held, k: nat, rest: seq<byte>)
    requires Ok(h) && h.Table? && k <= |h.pairs|
    ensures DecodePairs(PairsCode(h, k) + rest, |h.pairs| - k, MeaningTo(h, k))
            == Got(VTable(MeaningTo(h, |h.pairs|)), rest)
    decreases h, 0, |h.pairs| - k
  {
    hide ValueAt, Code, Meaning, ScalarCode;
    if k == |h.pairs| {
      assert [] + rest == rest;
    } else {
      var (key, v) := h.pairs[k];
      var more := PairsCode(h, k + 1) + rest;
      assert PairsCode(h, k) + rest == ScalarCode(key) + (Code(v) + more);
      ScalarRoundTrip(key, Code(v) + more);
      RoundTrip(v, more);
      NotNil(v);
      PairsRoundTrip(h, k + 1, rest);
    }
  }

  lemma OkTable(h: Held)
    requires Ok(h) && h.Table?
    ensures DistinctKeys(h.pairs) && h.border < I64_LIMIT
    ensures IsArray(h.pairs, h.border) ==> h.border < 0x1_0000_0000
  {}

  // ---------------------------------------------------------------- the program

  method EncodeInt(out: Buffer, i: i64)
    modifies out
    ensures out.bytes == old(out.bytes) + IntCode(i)
  {
    if 0 <= i <= 127 {
      out.Push(i);
    } else if -32 <= i < 0 {
      out.Push(i + 0x100);
    } else if -0x80 <= i <= 0x7f {
      out.Extend([0xd0, if i < 0 then i + 0x100 else i]);
    } else if -0x8000 <= i <= 0x7fff {
      out.Extend([0xd1] + BE(if i < 0 then i + 0x1_0000 else i, 2));
    } else if -0x8000_0000 <= i <= 0x7fff_ffff {
      out.Extend([0xd2] + BE(if i < 0 then i + 0x1_0000_0000 else i, 4));
    } else {
      out.Extend([0xd3] + BE(if i < 0 then i + 0x1_0000_0000_0000_0000 else i, 8));
    }
  }

  method EncodeScalar(out: Buffer, x: Scalar)
    modifies out
    ensures out.bytes == old(out.bytes) + ScalarCode(x)
  {
    match x {
      case Bool(b) => out.Push(if b then 0xc3 else 0xc2);
      case Int(i) => EncodeInt(out, i);
      case Str(s) =>
        ghost var before := out.bytes;
        out.Extend(StrHeader(|s|));
        out.Extend(s);
        assert out.bytes == before + (StrHeader(|s|) + s);
    }
  }

  method EncodeValue(out: Buffer, h: Held)
    requires Ok(h)
    modifies out
    ensures out.bytes == old(out.bytes) + Code(h)
    decreases h, 2
  {
    match h {
      case Nil => out.Push(0xc0);
      case One(x) => EncodeScalar(out, x);
      case Table(_, _) => EncodeTable(out, h);
    }
  }

  method EncodeTable(out: Buffer, h: Held)
    requires Ok(h) && h.Table?
    modifies out
    ensures out.bytes == old(out.bytes) + Code(h)
    decreases h, 1
  {
    hide BE, Place, DistinctKeys, IsBorder, ArrayHeader, MapHeader, ItemsCode, PairsCode;
    OkTable(h);
    var count, isArray := 0, true;
    while count < |h.pairs|
      invariant count <= |h.pairs|
      invariant isArray <==> forall j :: 0 <= j < count ==> h.pairs[j].0.Int? && 1 <= h.pairs[j].0.i <= h.border
    {
      var k := h.pairs[count].0;
      if !(k.Int? && k.i >= 1 && k.i <= h.border) {
        isArray := false;
      }
      count := count + 1;
    }
    ghost var before := out.bytes;
    if isArray && count == h.border {
      EncodeItems(out, h);
      assert out.bytes == before + (ArrayHeader(h.border) + ItemsCode(h, 1));
    } else {
      EncodePairs(out, h);
      assert out.bytes == before + (MapHeader(|h.pairs|) + PairsCode(h, 0));
    }
  }

  method EncodeItems(out: Buffer, h: Held)
    requires Ok(h) && h.Table? && IsArray(h.pairs, h.border)
    modifies out
    ensures out.bytes == old(out.bytes) + ArrayHeader(h.border) + ItemsCode(h, 1)
    decreases h, 0
  {
    hide ArrayHeader, DistinctKeys, IsBorder, IsArray, HasKey, Place, Code;
    out.Extend(ArrayHeader(h.border));
    ghost var goal := out.bytes + ItemsCode(h, 1);
    for i := 1 to h.border + 1
      invariant out.bytes + ItemsCode(h, i) == goal
    {
      OkTable(h);
      ArrayHasAll(h.pairs, h.border, i);
      var item := h.pairs[Place(h.pairs, Int(i))].1;
      ghost var so := out.bytes;
      EncodeValue(out, item);
      assert so + (Code(item) + ItemsCode(h, i + 1)) == out.bytes + ItemsCode(h, i + 1);
    }
    assert out.bytes + [] == out.bytes;
  }

  method EncodePairs(out: Buffer, h: Held)
    requires Ok(h) && h.Table?
    modifies out
    ensures out.bytes == old(out.bytes) + MapHeader(|h.pairs|) + PairsCode(h, 0)
    decreases h, 0
  {
    hide MapHeader, DistinctKeys, IsBorder, ScalarCode, Code;
    out.Extend(MapHeader(|h.pairs|));
    ghost var goal := out.bytes + PairsCode(h, 0);
    for k := 0 to |h.pairs|
      invariant out.bytes + PairsCode(h, k) == goal
    {
      var (key, v) := h.pairs[k];
      ghost var so := out.bytes;
      EncodeScalar(out, key);
      EncodeValue(out, v);
      assert so + (ScalarCode(key) + Code(v) + PairsCode(h, k + 1)) == out.bytes + PairsCode(h, k + 1);
    }
    assert out.bytes + [] == out.bytes;
  }

  datatype Outcome = Read(value: Value) | Failed(error: Error)

  class Decoder {
    const data: seq<byte>
    var pos: nat

    constructor (data: seq<byte>)
      ensures this.data == data && pos == 0
    {
      this.data := data;
      pos := 0;
    }

    ghost predicate Valid()
      reads this
    {
      pos <= |data|
    }

    function Rest(): seq<byte>
      reads this
      requires pos <= |data|
    {
      data[pos..]
    }

    /** `r` is what decoding `before` gives, and on success the position is where it stopped. */
    ghost predicate Follows(before: Decoded<Value>, r: Outcome)
      reads this
    {
      && Valid()
      && (before.Got? ==> r == Read(before.value) && Rest() == before.rest)
      && (before.Fail? ==> r == Failed(before.error))
    }

    method Take(n: nat) returns (r: Option<seq<byte>>)
      requires Valid()
      modifies this`pos
      ensures Valid() && r.Some? == (n <= |old(Rest())|)
      ensures r.Some? ==> r.value == old(Rest())[..n] && Rest() == old(Rest())[n..]
      ensures r.None? ==> pos == old(pos)
    {
      if |data| < pos + n {
        return None;
      }
      r := Some(data[pos..pos + n]);
      pos := pos + n;
    }

    method BeU(w: nat) returns (r: Option<nat>)
      requires Valid()
      modifies this`pos
      ensures Valid()
      ensures match NumberAt(old(Rest()), w)
              case Got(n, rest) => r == Some(n) && Rest() == rest
              case Fail(e) => r == None && e == Truncated
    {
      var bytes := Take(w);
      if bytes.None? {
        return None;
      }
      var v: nat := 0;
      for i := 0 to |bytes.value|
        invariant v == FromBE(bytes.value[..i])
      {
        assert bytes.value[..i + 1][..i] == bytes.value[..i];
        v := 256 * v + bytes.value[i];
      }
      assert bytes.value[..|bytes.value|] == bytes.value;
      return Some(v);
    }

    method DecodeStr(n: nat) returns (r: Outcome)
      requires Valid()
      modifies this`pos
      ensures Follows(StrAt(old(Rest()), n), r)
    {
      var bytes := Take(n);
      return if bytes.Some? then Read(VOne(Str(bytes.value))) else Failed(Truncated);
    }

    method DecodeSized(w: nat) returns (r: Outcome)
      requires Valid()
      modifies this`pos
      ensures Follows(SizedStr(old(Rest()), w), r)
    {
      var n := BeU(w);
      if n.None? {
        return Failed(Truncated);
      }
      r := DecodeStr(n.value);
    }

    method DecodeUnsigned(w: nat) returns (r: Outcome)
      requires Valid()
      modifies this`pos
      ensures Follows(UnsignedAt(old(Rest()), w), r)
    {
      var n := BeU(w);
      if n.None? {
        return Failed(Truncated);
      }
      return if n.value < I64_LIMIT then Read(VOne(Int(n.value))) else Failed(Unmodelled);
    }

    method DecodeSigned(w: nat) returns (r: Outcome)
      requires Valid() && 1 <= w <= 8
      modifies this`pos
      ensures Follows(SignedAt(old(Rest()), w), r)
    {
      hide NumberAt;
      var n := BeU(w);
      if n.None? {
        return Failed(Truncated);
      }
      Pow256Values();
      Pow256Mono(w, 8);
      return Read(VOne(Int(Signed(n.value, w))));
    }

    method DecodeFloat(w: nat) returns (r: Outcome)
      requires Valid()
      modifies this`pos
      ensures Follows(FloatAt(old(Rest()), w), r)
    {
      var bytes := Take(w);
      return if bytes.None? then Failed(Truncated) else Failed(Unmodelled);
    }

    method Decode() returns (r: Outcome)
      requires Valid()
      modifies this`pos
      ensures Follows(ValueAt(old(Rest())), r)
      decreases |data| - pos, 0
    {
      hide NumberAt, StrAt, SizedStr, UnsignedAt, SignedAt, FloatAt, DecodeItems, DecodePairs;
      if pos == |data| {
        return Failed(Truncated);
      }
      var tag: int := data[pos];
      assert Rest()[0] == tag && Rest()[1..] == data[pos + 1..];
      pos := pos + 1;
      if tag <= 0x7f {
        return Read(VOne(Int(tag)));
      } else if tag <= 0x8f {
        r := DecodeMap(tag - 0x80);
      } else if tag <= 0x9f {
        r := DecodeArray(tag - 0x90);
      } else if tag <= 0xbf {
        r := DecodeStr(tag - 0xa0);
      } else if tag == 0xc0 {
        return Read(VNil);
      } else if tag == 0xc2 || tag == 0xc3 {
        return Read(VOne(Bool(tag == 0xc3)));
      } else if tag == 0xc4 || tag == 0xd9 {
        r := DecodeSized(1);
      } else if tag == 0xc5 || tag == 0xda {
        r := DecodeSized(2);
      } else if tag == 0xc6 || tag == 0xdb {
        r := DecodeSized(4);
      } else if tag == 0xca {
        r := DecodeFloat(4);
      } else if tag == 0xcb {
        r := DecodeFloat(8);
      } else if tag == 0xcc {
        r := DecodeUnsigned(1);
      } else if tag == 0xcd {
        r := DecodeUnsigned(2);
      } else if tag == 0xce {
        r := DecodeUnsigned(4);
      } else if tag == 0xcf {
        r := DecodeUnsigned(8);
      } else if tag == 0xd0 {
        r := DecodeSigned(1);
      } else if tag == 0xd1 {
        r := DecodeSigned(2);
      } else if tag == 0xd2 {
        r := DecodeSigned(4);
      } else if tag == 0xd3 {
        r := DecodeSigned(8);
      } else if tag == 0xdc || tag == 0xdd {
        r := DecodeCounted(if tag == 0xdc then 2 else 4, false);
      } else if tag == 0xde || tag == 0xdf {
        r := DecodeCounted(if tag == 0xde then 2 else 4, true);
      } else if tag >= 0xe0 {
        return Read(VOne(Int(tag - 0x100)));
      } else {
        return Failed(BadTag);
      }
    }

    method DecodeCounted(w: nat, isMap: bool) returns (r: Outcome)
      requires Valid()
      modifies this`pos
      ensures Follows(if isMap then SizedPairs(old(Rest()), w) else SizedItems(old(Rest()), w), r)
      decreases |data| - pos, 2
    {
      hide NumberAt, DecodeItems, DecodePairs;
      var n := BeU(w);
      if n.None? {
        return Failed(Truncated);
      }
      if isMap {
        r := DecodeMap(n.value);
      } else {
        r := DecodeArray(n.value);
      }
    }

    method DecodeArray(n: nat) returns (r: Outcome)
      requires Valid()
      modifies this`pos
      ensures Follows(DecodeItems(old(Rest()), n, 1, map[]), r)
      decreases |data| - pos, 1
    {
      hide ValueAt;
      ghost var whole := DecodeItems(Rest(), n, 1, map[]);
      var t: map<Scalar, Value> := map[];
      for i := 1 to n + 1
        invariant Valid() && old(pos) <= pos
        invariant whole == DecodeItems(Rest(), n + 1 - i, i, t)
      {
        var v := Decode();
        if v.Failed? {
          return v;
        }
        if i >= I64_LIMIT {
          return Failed(Unmodelled);
        }
        t := Set(t, Int(i), v.value);
      }
      return Read(VTable(t));
    }

    method DecodeMap(n: nat) returns (r: Outcome)
      requires Valid()
      modifies this`pos
      ensures Follows(DecodePairs(old(Rest()), n, map[]), r)
      decreases |data| - pos, 1
    {
      hide ValueAt;
      ghost var whole := DecodePairs(Rest(), n, map[]);
      var t: map<Scalar, Value> := map[];
      for i := 0 to n
        invariant Valid() && old(pos) <= pos
        invariant whole == DecodePairs(Rest(), n - i, t)
      {
        var k := Decode();
        if k.Failed? {
          return k;
        }
        var v := Decode();
        if v.Failed? {
          return v;
        }
        if !v.value.VNil? {
          match k.value {
            case VNil => return Failed(NilKey);
            case VTable(_) => return Failed(Unmodelled);
            case VOne(x) => t := t[x := v.value];
          }
        }
      }
      return Read(VTable(t));
    }

    /** Every value in the buffer. */
    method Unpack() returns (values: seq<Value>, error: Option<Error>)
      requires Valid()
      modifies this`pos
      ensures match UnpackAll(old(Rest()))
              case Got(vs, _) => error.None? && values == vs
              case Fail(e) => error == Some(e)
    {
      hide ValueAt;
      values := [];
      ghost var whole := UnpackAll(Rest());
      NothingBefore(whole);
      while pos < |data|
        invariant Valid() && whole == Before([], values, UnpackAll(Rest()))
        decreases |data| - pos
      {
        ghost var s := Rest();
        var v := Decode();
        if v.Failed? {
          return values, Some(v.error);
        }
        UnpackStep(values, s);
        values := values + [v.value];
      }
      assert Rest() == [] && values + [] == values;
      return values, None;
    }
  }

  function UnpackAll(s: seq<byte>): Decoded<seq<Value>>
    decreases |s|
  {
    if s == [] then Got([], [])
    else match ValueAt(s)
      case Fail(e) => Fail(e)
      case Got(v, rest) => Before([v], [], UnpackAll(rest))
  }

  /** Values already read, put before what `r` reads. */
  function Before(a: seq<Value>, b: seq<Value>, r: Decoded<seq<Value>>): Decoded<seq<Value>> {
    match r
    case Fail(e) => Fail(e)
    case Got(vs, rest) => Got(a + b + vs, rest)
  }

  lemma NothingBefore(r: Decoded<seq<Value>>)
    ensures Before([], [], r) == r
  {
    if r.Got? {
      assert [] + [] + r.value == r.value;
    }
  }

  lemma UnpackStep(values: seq<Value>, s: seq<byte>)
    requires s != [] && ValueAt(s).Got?
    ensures Before([], values, UnpackAll(s)) == Before([], values + [ValueAt(s).value], UnpackAll(ValueAt(s).rest))
  {
    hide ValueAt;
    var more := UnpackAll(ValueAt(s).rest);
    if more.Got? {
      assert [] + values + ([ValueAt(s).value] + [] + more.value) == [] + (values + [ValueAt(s).value]) + more.value;
    }
  }

  function CodeAll(hs: seq<Held>): seq<byte>
    requires forall i :: 0 <= i < |hs| ==> Ok(hs[i])
  {
    if hs == [] then [] else Code(hs[0]) + CodeAll(hs[1..])
  }

  function MeaningAll(hs: seq<Held>): seq<Value> {
    if hs == [] then [] else [Meaning(hs[0])] + MeaningAll(hs[1..])
  }

  /** Unpacking what was packed gives the values back, one for one, whatever order tables iterate in. */
  lemma {:induction false} PackUnpack(hs: seq<Held>)
    requires forall i :: 0 <= i < |hs| ==> Ok(hs[i])
    ensures UnpackAll(CodeAll(hs)) == Got(MeaningAll(hs), [])
    decreases hs
  {
    hide ValueAt, Code, Meaning, Ok;
    if hs != [] {
      RoundTrip(hs[0], CodeAll(hs[1..]));
      CodeNotEmpty(hs[0]);
      PackUnpack(hs[1..]);
      assert [Meaning(hs[0])] + [] + MeaningAll(hs[1..]) == [Meaning(hs[0])] + MeaningAll(hs[1..]);
    }
  }

  lemma CodeNotEmpty(h: Held)
    requires Ok(h)
    ensures Code(h) != []
  {
    hide ValueAt;
    RoundTrip(h, []);
    NothingToDecode();
    assert Code(h) + [] == Code(h);
  }

  lemma NothingToDecode()
    ensures ValueAt([]) == Fail(Truncated)
  {}

  /** No code is a proper prefix of another, and equal codes mean the same value. */
  lemma PrefixFree(a: Held, b: Held, x: seq<byte>, y: seq<byte>)
    requires Ok(a) && Ok(b) && Code(a) + x == Code(b) + y
    ensures Meaning(a) == Meaning(b) && x == y
  {
    hide ValueAt, Code, Meaning, Ok;
    RoundTrip(a, x);
    RoundTrip(b, y);
  }
}
