/** MessagePack by its bytes: every form the decoder takes, and what each means. */
module MsgPackWire {
  import opened Bytes
  import opened ScriptValues
  import opened MsgPack

  /** A value in one of the forms the format has for it; `w` is how many bytes hold its number or size, none
      when they are part of the tag. */
  datatype Wire =
    | Empty
    | Truth(b: bool)
    | Small(i: int)
    | Unsigned(w: nat, n: nat)
    | SignedInt(w: nat, i: int)
    | Text(binary: bool, w: nat, s: seq<byte>)
    | Items(w: nat, items: seq<Wire>)
    | Pairs(w: nat, entries: seq<Entry>)

  datatype Entry = Entry(key: Wire, value: Wire)

  const UNSIGNED_TAGS: map<nat, byte> := map[1 := 0xcc, 2 := 0xcd, 4 := 0xce, 8 := 0xcf]
  const SIGNED_TAGS: map<nat, byte> := map[1 := 0xd0, 2 := 0xd1, 4 := 0xd2, 8 := 0xd3]
  const TEXT_TAGS: map<nat, byte> := map[1 := 0xd9, 2 := 0xda, 4 := 0xdb]
  const BINARY_TAGS: map<nat, byte> := map[1 := 0xc4, 2 := 0xc5, 4 := 0xc6]
  const ITEMS_TAGS: map<nat, byte> := map[2 := 0xdc, 4 := 0xdd]
  const PAIRS_TAGS: map<nat, byte> := map[2 := 0xde, 4 := 0xdf]

  /** A size of `n`: added to `least` in the tag itself when there are fewer than `most`, else after a tag of `tags`. */
  predicate SizeFits(w: nat, n: nat, most: nat, tags: map<nat, byte>) {
    if w == 0 then n < most else w in tags && n < Pow256(w)
  }

  function Size(w: nat, n: nat, least: byte, most: nat, tags: map<nat, byte>): seq<byte>
    requires SizeFits(w, n, most, tags) && least + most <= 256
  {
    if w == 0 then [least + n] else [tags[w]] + BE(n, w)
  }

  /** Any width the format has will do, whether or not a narrower one would. */
  predicate Proper(x: Wire)
    decreases x
  {
    match x
    case Empty => true
    case Truth(_) => true
    case Small(i) => -32 <= i < 128
    case Unsigned(w, n) => w in UNSIGNED_TAGS && n < Pow256(w) && n < I64_LIMIT
    case SignedInt(w, i) => w in SIGNED_TAGS && FitsSigned(i, w)
    case Text(binary, w, s) => SizeFits(w, |s|, if binary then 0 else 32, if binary then BINARY_TAGS else TEXT_TAGS)
    case Items(w, items) => SizeFits(w, |items|, 16, ITEMS_TAGS) && forall k :: 0 <= k < |items| ==> Proper(items[k])
    case Pairs(w, entries) => SizeFits(w, |entries|, 16, PAIRS_TAGS) && forall k :: 0 <= k < |entries| ==> ProperEntry(entries[k])
  }

  /** Only a boolean, a number or a text can be a key, except beside a nil value, where anything can. */
  predicate ProperEntry(e: Entry)
    decreases e
  {
    Proper(e.key) && Proper(e.value) && (e.value.Empty? || IsKey(e.key))
  }

  predicate IsKey(x: Wire) {
    !x.Empty? && !x.Items? && !x.Pairs?
  }

  function Form(x: Wire): seq<byte>
    requires Proper(x)
    decreases x
  {
    match x
    case Empty => [0xc0]
    case Truth(b) => if b then [0xc3] else [0xc2]
    case Small(i) => if i < 0 then [256 + i] else [i]
    case Unsigned(w, n) => [UNSIGNED_TAGS[w]] + BE(n, w)
    case SignedInt(w, i) => [SIGNED_TAGS[w]] + BE(Wrap(i, w), w)
    case Text(binary, w, s) =>
      (if binary then Size(w, |s|, 0, 0, BINARY_TAGS) else Size(w, |s|, 0xa0, 32, TEXT_TAGS)) + s
    case Items(w, items) => Size(w, |items|, 0x90, 16, ITEMS_TAGS) + ItemsForm(items)
    case Pairs(w, entries) => Size(w, |entries|, 0x80, 16, PAIRS_TAGS) + PairsForm(entries)
  }

  function ItemsForm(items: seq<Wire>): seq<byte>
    requires forall k :: 0 <= k < |items| ==> Proper(items[k])
    decreases items
  {
    if items == [] then [] else Form(items[0]) + ItemsForm(items[1..])
  }

  function PairsForm(entries: seq<Entry>): seq<byte>
    requires forall k :: 0 <= k < |entries| ==> ProperEntry(entries[k])
    decreases entries
  {
    if entries == [] then []
    else
      assert ProperEntry(entries[0]);
      EntryForm(entries[0]) + PairsForm(entries[1..])
  }

  function EntryForm(e: Entry): seq<byte>
    requires ProperEntry(e)
    decreases e
  {
    Form(e.key) + Form(e.value)
  }

  function Means(x: Wire): (v: Value)
    requires Proper(x)
    ensures v.VNil? <==> x.Empty?
    ensures v.VOne? <==> IsKey(x)
    decreases x
  {
    match x
    case Empty => VNil
    case Truth(b) => VOne(Bool(b))
    case Small(i) => VOne(Int(i))
    case Unsigned(_, n) => VOne(Int(n))
    case SignedInt(w, i) => SignedFits(i, w); VOne(Int(i))
    case Text(_, _, s) => VOne(Str(s))
    case Items(w, items) => SizeSmall(w, |items|); VTable(ItemsMean(items))
    case Pairs(_, entries) => VTable(PairsMean(entries))
  }

  lemma SignedFits(i: int, w: nat)
    requires w in SIGNED_TAGS && FitsSigned(i, w)
    ensures -0x8000_0000_0000_0000 <= i < 0x8000_0000_0000_0000
  {
    Pow256Values();
  }

  lemma SizeSmall(w: nat, n: nat)
    requires SizeFits(w, n, 16, ITEMS_TAGS)
    ensures n < I64_LIMIT
  {
    Pow256Values();
  }

  /** Numbered from one; a nil leaves its number unused. */
  function ItemsMean(items: seq<Wire>): map<Scalar, Value>
    requires |items| < I64_LIMIT && forall k :: 0 <= k < |items| ==> Proper(items[k])
    decreases items
  {
    if items == [] then map[]
    else
      var n, most := |items|, ItemsMean(items[..|items| - 1]);
      var v := Means(items[n - 1]);
      if v.VNil? then most else most[Int(n) := v]
  }

  /** The last pair with a key whose value is not nil counts. */
  function PairsMean(entries: seq<Entry>): map<Scalar, Value>
    requires forall k :: 0 <= k < |entries| ==> ProperEntry(entries[k])
    decreases entries
  {
    if entries == [] then map[]
    else
      var e, most := entries[|entries| - 1], PairsMean(entries[..|entries| - 1]);
      assert ProperEntry(e);
      EntrySet(most, e)
  }

  function EntrySet(m: map<Scalar, Value>, e: Entry): map<Scalar, Value>
    requires ProperEntry(e)
    decreases e
  {
    if e.value.Empty? then m else m[Means(e.key).x := Means(e.value)]
  }

  // --------------------------------------------------------------------------- tags

  lemma UnsignedHead(w: nat, t: seq<byte>)
    requires w in UNSIGNED_TAGS
    ensures ValueAt([UNSIGNED_TAGS[w]] + t) == UnsignedAt(t, w)
  {
    hide UnsignedAt;
    HeadAndTail(UNSIGNED_TAGS[w], t);
  }

  lemma SignedHead(w: nat, t: seq<byte>)
    requires w in SIGNED_TAGS
    ensures ValueAt([SIGNED_TAGS[w]] + t) == SignedAt(t, w)
  {
    hide SignedAt;
    HeadAndTail(SIGNED_TAGS[w], t);
  }

  lemma TextHead(w: nat, t: seq<byte>)
    ensures w in TEXT_TAGS ==> ValueAt([TEXT_TAGS[w]] + t) == SizedStr(t, w)
    ensures w in BINARY_TAGS ==> ValueAt([BINARY_TAGS[w]] + t) == SizedStr(t, w)
    ensures w < 32 ==> ValueAt([0xa0 + w] + t) == StrAt(t, w)
  {
    hide SizedStr, StrAt;
    if w in TEXT_TAGS {
      HeadAndTail(TEXT_TAGS[w], t);
      HeadAndTail(BINARY_TAGS[w], t);
    }
    if w < 32 {
      HeadAndTail(0xa0 + w, t);
    }
  }

  lemma ItemsHead(w: nat, t: seq<byte>)
    ensures w in ITEMS_TAGS ==> ValueAt([ITEMS_TAGS[w]] + t) == SizedItems(t, w)
    ensures w < 16 ==> ValueAt([0x90 + w] + t) == DecodeItems(t, w, 1, map[])
  {
    hide SizedItems, DecodeItems;
    if w in ITEMS_TAGS {
      HeadAndTail(ITEMS_TAGS[w], t);
    }
    if w < 16 {
      HeadAndTail(0x90 + w, t);
    }
  }

  lemma PairsHead(w: nat, t: seq<byte>)
    ensures w in PAIRS_TAGS ==> ValueAt([PAIRS_TAGS[w]] + t) == SizedPairs(t, w)
    ensures w < 16 ==> ValueAt([0x80 + w] + t) == DecodePairs(t, w, map[])
  {
    hide SizedPairs, DecodePairs;
    if w in PAIRS_TAGS {
      HeadAndTail(PAIRS_TAGS[w], t);
    }
    if w < 16 {
      HeadAndTail(0x80 + w, t);
    }
  }

  /** A size read back, from the tag or from the bytes after it. */
  lemma SizeSplit(w: nat, n: nat, least: byte, most: nat, tags: map<nat, byte>, t: seq<byte>)
    requires SizeFits(w, n, most, tags) && least + most <= 256
    ensures var s := Size(w, n, least, most, tags) + t;
            if w == 0 then s == [least + n] + t
            else s == [tags[w]] + (BE(n, w) + t) && NumberAt(BE(n, w) + t, w) == Got(n, t)
  {
    hide NumberAt, BE, Pow256;
    if w > 0 {
      NumberRoundTrip(n, w, t);
    }
  }

  // ---------------------------------------------------------------------- what is read

  lemma ScalarReads(x: Wire, rest: seq<byte>)
    requires Proper(x) && (x.Empty? || x.Truth? || x.Small?)
    ensures ValueAt(Form(x) + rest) == Got(Means(x), rest)
  {
    match x {
      case Empty => HeadAndTail(0xc0, rest);
      case Truth(b) => HeadAndTail(if b then 0xc3 else 0xc2, rest);
      case Small(i) => HeadAndTail(if i < 0 then 256 + i else i, rest);
    }
  }

  lemma NumberReads(x: Wire, rest: seq<byte>)
    requires Proper(x) && (x.Unsigned? || x.SignedInt?)
    ensures ValueAt(Form(x) + rest) == Got(Means(x), rest)
  {
    hide ValueAt, BE, Pow256, NumberAt;
    match x {
      case Unsigned(w, n) =>
        UnsignedHead(w, BE(n, w) + rest);
        NumberRoundTrip(n, w, rest);
        assert Form(x) + rest == [UNSIGNED_TAGS[w]] + (BE(n, w) + rest);
      case SignedInt(w, i) =>
        SignedFits(i, w);
        SignedHead(w, BE(Wrap(i, w), w) + rest);
        NumberRoundTrip(Wrap(i, w), w, rest);
        assert Form(x) + rest == [SIGNED_TAGS[w]] + (BE(Wrap(i, w), w) + rest);
    }
  }

  lemma TextReads(x: Wire, rest: seq<byte>)
    requires Proper(x) && x.Text?
    ensures ValueAt(Form(x) + rest) == Got(Means(x), rest)
  {
    hide ValueAt, BE, Pow256, NumberAt, Size;
    var Text(binary, w, s) := x;
    var t := s + rest;
    assert t[..|s|] == s && t[|s|..] == rest;
    if binary {
      assert Form(x) + rest == Size(w, |s|, 0, 0, BINARY_TAGS) + t;
      SizeSplit(w, |s|, 0, 0, BINARY_TAGS, t);
      TextHead(w, BE(|s|, w) + t);
    } else {
      assert Form(x) + rest == Size(w, |s|, 0xa0, 32, TEXT_TAGS) + t;
      SizeSplit(w, |s|, 0xa0, 32, TEXT_TAGS, t);
      TextHead(w, BE(|s|, w) + t);
      TextHead(|s|, t);
    }
  }

  /** Every form reads as what it means, and nothing after it is touched. */
  lemma FormReads(x: Wire, rest: seq<byte>)
    requires Proper(x)
    ensures ValueAt(Form(x) + rest) == Got(Means(x), rest)
    decreases x
  {
    hide ValueAt, Form, Means, Proper;
    match x {
      case Items(_, _) => ItemsRead(x, rest);
      case Pairs(_, _) => PairsRead(x, rest);
      case Text(_, _, _) => TextReads(x, rest);
      case Unsigned(_, _) => NumberReads(x, rest);
      case SignedInt(_, _) => NumberReads(x, rest);
      case _ => ScalarReads(x, rest);
    }
  }

  lemma ItemsRead(x: Wire, rest: seq<byte>)
    requires Proper(x) && x.Items?
    ensures ValueAt(Form(x) + rest) == Got(Means(x), rest)
    decreases x, 0
  {
    hide ValueAt, BE, Pow256, NumberAt, Size, ItemsForm, ItemsMean, DecodeItems;
    var Items(w, items) := x;
    var t := ItemsForm(items) + rest;
    assert Form(x) + rest == Size(w, |items|, 0x90, 16, ITEMS_TAGS) + t;
    SizeSplit(w, |items|, 0x90, 16, ITEMS_TAGS, t);
    SizeSmall(w, |items|);
    ItemsHead(w, BE(|items|, w) + t);
    ItemsHead(|items|, t);
    assert items[0..] == items && items[..0] == [];
    NoItemsMean();
    EachItemRead(items, 0, rest);
  }

  lemma NoItemsMean()
    ensures ItemsMean([]) == map[] && PairsMean([]) == map[]
  {}

  lemma ItemStepAny(s: seq<byte>, n: nat, i: nat, m: map<Scalar, Value>)
    requires n > 0 && i < I64_LIMIT && ValueAt(s).Got?
    ensures DecodeItems(s, n, i, m) == DecodeItems(ValueAt(s).rest, n - 1, i + 1, Set(m, Int(i), ValueAt(s).value))
  {
    hide ValueAt, Set;
  }

  lemma ItemSet(items: seq<Wire>, k: nat)
    requires k < |items| < I64_LIMIT && forall j :: 0 <= j < |items| ==> Proper(items[j])
    ensures Set(ItemsMean(items[..k]), Int(k + 1), Means(items[k])) == ItemsMean(items[..k + 1])
  {
    hide Means, Proper;
    assert items[..k + 1][..k] == items[..k];
  }

  lemma {:induction false} EachItemRead(items: seq<Wire>, k: nat, rest: seq<byte>)
    requires k <= |items| < I64_LIMIT && forall j :: 0 <= j < |items| ==> Proper(items[j])
    ensures DecodeItems(ItemsForm(items[k..]) + rest, |items| - k, k + 1, ItemsMean(items[..k]))
         == Got(VTable(ItemsMean(items)), rest)
    decreases items, |items| - k
  {
    hide ValueAt, Form, Means, Proper, ItemsMean, Set;
    if k == |items| {
      assert items[..k] == items && ItemsForm(items[k..]) + rest == rest;
    } else {
      var more := ItemsForm(items[k + 1..]) + rest;
      assert items[k..][1..] == items[k + 1..];
      assert ItemsForm(items[k..]) + rest == Form(items[k]) + more;
      hide DecodeItems, ItemsForm;
      FormReads(items[k], more);
      ItemStepAny(Form(items[k]) + more, |items| - k, k + 1, ItemsMean(items[..k]));
      ItemSet(items, k);
      EachItemRead(items, k + 1, rest);
    }
  }

  lemma PairsRead(x: Wire, rest: seq<byte>)
    requires Proper(x) && x.Pairs?
    ensures ValueAt(Form(x) + rest) == Got(Means(x), rest)
    decreases x, 0
  {
    hide ValueAt, BE, Pow256, NumberAt, Size, PairsForm, PairsMean, DecodePairs;
    var Pairs(w, entries) := x;
    var t := PairsForm(entries) + rest;
    assert Form(x) + rest == Size(w, |entries|, 0x80, 16, PAIRS_TAGS) + t;
    SizeSplit(w, |entries|, 0x80, 16, PAIRS_TAGS, t);
    PairsHead(w, BE(|entries|, w) + t);
    PairsHead(|entries|, t);
    assert entries[0..] == entries && entries[..0] == [];
    NoItemsMean();
    EachPairRead(entries, 0, rest);
  }

  lemma PairStepAny(s: seq<byte>, n: nat, m: map<Scalar, Value>)
    requires n > 0 && ValueAt(s).Got? && ValueAt(ValueAt(s).rest).Got?
    ensures var k, v := ValueAt(s).value, ValueAt(ValueAt(s).rest);
            DecodePairs(s, n, m)
            == if v.value.VNil? then DecodePairs(v.rest, n - 1, m)
               else if k.VNil? then Fail(NilKey)
               else if k.VTable? then Fail(Unmodelled)
               else DecodePairs(v.rest, n - 1, m[k.x := v.value])
  {
    hide ValueAt;
  }

  lemma PairSet(entries: seq<Entry>, k: nat)
    requires k < |entries| && forall j :: 0 <= j < |entries| ==> ProperEntry(entries[j])
    ensures ProperEntry(entries[k])
    ensures EntrySet(PairsMean(entries[..k]), entries[k]) == PairsMean(entries[..k + 1])
  {
    hide EntrySet, ProperEntry;
    assert entries[..k + 1][..k] == entries[..k];
  }

  lemma EntryReads(e: Entry, rest: seq<byte>)
    requires ProperEntry(e)
    ensures var s := EntryForm(e) + rest;
            && ValueAt(s) == Got(Means(e.key), Form(e.value) + rest)
            && ValueAt(Form(e.value) + rest) == Got(Means(e.value), rest)
    decreases e
  {
    hide ValueAt, Form, Means;
    assert EntryForm(e) + rest == Form(e.key) + (Form(e.value) + rest);
    FormReads(e.key, Form(e.value) + rest);
    FormReads(e.value, rest);
  }

  lemma {:induction false} EachPairRead(entries: seq<Entry>, k: nat, rest: seq<byte>)
    requires k <= |entries| && forall j :: 0 <= j < |entries| ==> ProperEntry(entries[j])
    ensures DecodePairs(PairsForm(entries[k..]) + rest, |entries| - k, PairsMean(entries[..k]))
         == Got(VTable(PairsMean(entries)), rest)
    decreases entries, |entries| - k
  {
    hide ValueAt, EntryForm, Form, Means, Proper, PairsMean;
    if k == |entries| {
      assert entries[..k] == entries && PairsForm(entries[k..]) + rest == rest;
    } else {
      var e := entries[k];
      assert ProperEntry(e);
      var more := PairsForm(entries[k + 1..]) + rest;
      assert entries[k..][1..] == entries[k + 1..];
      assert PairsForm(entries[k..]) + rest == EntryForm(e) + more;
      hide DecodePairs, PairsForm;
      EntryReads(e, more);
      PairStepAny(EntryForm(e) + more, |entries| - k, PairsMean(entries[..k]));
      PairSet(entries, k);
      EachPairRead(entries, k + 1, rest);
    }
  }

  // ------------------------------------------------------------- what decodes, and no more

  lemma {:induction false} BytesOfNumber(s: seq<byte>)
    ensures BE(FromBE(s), |s|) == s
  {
    if s != [] {
      BytesOfNumber(s[..|s| - 1]);
      LastDigit(FromBE(s[..|s| - 1]), s[|s| - 1]);
      assert s == s[..|s| - 1] + [s[|s| - 1]];
    }
  }

  lemma LastDigit(n: nat, b: byte)
    ensures (256 * n + b) / 256 == n && (256 * n + b) % 256 == b
  {}

  lemma NumberWritten(s: seq<byte>, w: nat)
    requires NumberAt(s, w).Got?
    ensures var r := NumberAt(s, w);
            s == BE(r.value, w) + r.rest && r.value < Pow256(w)
  {
    hide BE, Pow256, FromBE;
    BytesOfNumber(s[..w]);
    assert s == s[..w] + s[w..];
  }

  lemma UnsignedWritten(s: seq<byte>, w: nat) returns (x: Wire)
    requires s != [] && w in UNSIGNED_TAGS && s[0] == UNSIGNED_TAGS[w] && UnsignedAt(s[1..], w).Got?
    ensures var r := UnsignedAt(s[1..], w);
            Proper(x) && s == Form(x) + r.rest && r.value == Means(x)
  {
    hide NumberAt, BE, Pow256;
    NumberWritten(s[1..], w);
    x := Unsigned(w, NumberAt(s[1..], w).value);
    assert s == [s[0]] + s[1..];
  }

  lemma SignedWritten(s: seq<byte>, w: nat) returns (x: Wire)
    requires s != [] && w in SIGNED_TAGS && s[0] == SIGNED_TAGS[w] && SignedAt(s[1..], w).Got?
    ensures var r := SignedAt(s[1..], w);
            Proper(x) && s == Form(x) + r.rest && r.value == Means(x)
  {
    hide NumberAt, BE, Pow256;
    NumberWritten(s[1..], w);
    var n := NumberAt(s[1..], w).value;
    SignedWraps(n, w);
    x := SignedInt(w, Signed(n, w));
    assert s == [s[0]] + s[1..];
  }

  lemma SignedWraps(n: nat, w: nat)
    requires n < Pow256(w)
    ensures FitsSigned(Signed(n, w), w) && Wrap(Signed(n, w), w) == n
  {
    hide Pow256;
  }

  lemma SizedWritten(s: seq<byte>, w: nat, binary: bool) returns (x: Wire)
    requires s != [] && SizedStr(s[1..], w).Got?
    requires if binary then w in BINARY_TAGS && s[0] == BINARY_TAGS[w] else w in TEXT_TAGS && s[0] == TEXT_TAGS[w]
    ensures var r := SizedStr(s[1..], w);
            Proper(x) && s == Form(x) + r.rest && r.value == Means(x)
  {
    hide NumberAt, BE, Pow256;
    NumberWritten(s[1..], w);
    var Got(n, t) := NumberAt(s[1..], w);
    x := Text(binary, w, t[..n]);
    hide Form, BINARY_TAGS, TEXT_TAGS;
    TextForm(x);
    TextSplits(s, BE(n, w), t, n);
  }

  lemma TextForm(x: Wire)
    requires Proper(x) && x.Text? && x.w > 0
    ensures Form(x) == [if x.binary then BINARY_TAGS[x.w] else TEXT_TAGS[x.w]] + BE(|x.s|, x.w) + x.s
  {
    hide BE, Pow256;
  }

  lemma TextSplits(s: seq<byte>, size: seq<byte>, t: seq<byte>, n: nat)
    requires s != [] && s[1..] == size + t && n <= |t|
    ensures s == [s[0]] + size + t[..n] + t[n..]
  {
    assert s == [s[0]] + s[1..];
    assert t == t[..n] + t[n..];
  }

  lemma ShortWritten(s: seq<byte>) returns (x: Wire)
    requires s != [] && 0xa0 <= s[0] <= 0xbf && StrAt(s[1..], s[0] - 0xa0).Got?
    ensures var r := StrAt(s[1..], s[0] - 0xa0);
            Proper(x) && s == Form(x) + r.rest && r.value == Means(x)
  {
    var n := s[0] - 0xa0;
    x := Text(false, 0, s[1..][..n]);
    assert s == [s[0]] + (s[1..][..n] + s[1..][n..]);
  }

  lemma {:induction false} EachItemWritten(t: seq<byte>, n: nat, done: seq<Wire>) returns (items: seq<Wire>)
    requires |done| + n < I64_LIMIT && forall j :: 0 <= j < |done| ==> Proper(done[j])
    requires DecodeItems(t, n, |done| + 1, ItemsMean(done)).Got?
    ensures |items| == |done| + n && items[..|done|] == done && forall j :: 0 <= j < |items| ==> Proper(items[j])
    ensures var r := DecodeItems(t, n, |done| + 1, ItemsMean(done));
            t == ItemsForm(items[|done|..]) + r.rest && r.value == VTable(ItemsMean(items))
    decreases |t|, 3, n
  {
    hide ValueAt, Form, Means, Proper, ItemsMean, Set;
    var k, m := |done|, ItemsMean(done);
    if n == 0 {
      items := done;
      assert items[k..] == [] && items[..k] == done;
    } else {
      ItemRead(t, n, k + 1, m);
      var x := FormWritten(t);
      var rest := ValueAt(t).rest;
      ItemStepAny(t, n, k + 1, m);
      ItemSet(done + [x], k);
      assert (done + [x])[..k] == done && (done + [x])[..k + 1] == done + [x];
      hide DecodeItems;
      items := EachItemWritten(rest, n - 1, done + [x]);
      assert items[..k] == items[..k + 1][..k] == done;
      assert items[k] == items[..k + 1][k] == x;
      assert items[k..][0] == x && items[k..][1..] == items[k + 1..];
    }
  }

  lemma ItemRead(s: seq<byte>, n: nat, i: nat, m: map<Scalar, Value>)
    requires n > 0 && DecodeItems(s, n, i, m).Got?
    ensures ValueAt(s).Got? && i < I64_LIMIT
  {
    hide ValueAt;
  }

  lemma {:induction false} EachPairWritten(t: seq<byte>, n: nat, done: seq<Entry>) returns (entries: seq<Entry>)
    requires forall j :: 0 <= j < |done| ==> ProperEntry(done[j])
    requires DecodePairs(t, n, PairsMean(done)).Got?
    ensures |entries| == |done| + n && entries[..|done|] == done
    ensures forall j :: 0 <= j < |entries| ==> ProperEntry(entries[j])
    ensures var r := DecodePairs(t, n, PairsMean(done));
            t == PairsForm(entries[|done|..]) + r.rest && r.value == VTable(PairsMean(entries))
    decreases |t|, 3, n
  {
    hide ValueAt, Form, Means, Proper, PairsMean;
    var k, m := |done|, PairsMean(done);
    if n == 0 {
      entries := done;
      assert entries[k..] == [] && entries[..k] == done;
    } else {
      PairRead(t, n, m);
      var key := FormWritten(t);
      var value := FormWritten(ValueAt(t).rest);
      var e := Entry(key, value);
      var rest := ValueAt(ValueAt(t).rest).rest;
      PairStepAny(t, n, m);
      PairSet(done + [e], k);
      assert (done + [e])[..k] == done && (done + [e])[..k + 1] == done + [e];
      hide DecodePairs;
      entries := EachPairWritten(rest, n - 1, done + [e]);
      assert entries[..k] == entries[..k + 1][..k] == done;
      assert entries[k] == entries[..k + 1][k] == e;
      assert entries[k..][0] == e && entries[k..][1..] == entries[k + 1..];
      assert t == EntryForm(e) + rest;
    }
  }

  lemma PairRead(s: seq<byte>, n: nat, m: map<Scalar, Value>)
    requires n > 0 && DecodePairs(s, n, m).Got?
    ensures ValueAt(s).Got? && ValueAt(ValueAt(s).rest).Got?
    ensures var k, v := ValueAt(s).value, ValueAt(ValueAt(s).rest).value;
            v.VNil? || k.VOne?
    ensures |ValueAt(ValueAt(s).rest).rest| < |ValueAt(s).rest| < |s|
  {
    PairParts(s, n, m);
    hide ValueAt;
  }

  lemma PairParts(s: seq<byte>, n: nat, m: map<Scalar, Value>)
    requires n > 0 && DecodePairs(s, n, m).Got?
    ensures ValueAt(s).Got? && ValueAt(ValueAt(s).rest).Got?
  {
    hide ValueAt;
  }

  lemma ItemsWritten(s: seq<byte>, w: nat) returns (x: Wire)
    requires s != [] && (if w == 0 then 0x90 <= s[0] <= 0x9f else w in ITEMS_TAGS && s[0] == ITEMS_TAGS[w])
    requires ValueAt(s).Got?
    ensures Proper(x) && s == Form(x) + ValueAt(s).rest && ValueAt(s).value == Means(x)
    decreases |s|, 1, 0
  {
    hide NumberAt, BE, Pow256, DecodeItems, ItemsForm, ItemsMean;
    var n, t := s[0] - 0x90, s[1..];
    assert s == [s[0]] + s[1..];
    if w > 0 {
      NumberWritten(t, w);
      n, t := NumberAt(t, w).value, NumberAt(t, w).rest;
    }
    SizeSmall(w, n);
    NoItemsMean();
    var items := EachItemWritten(t, n, []);
    assert items[0..] == items;
    x := Items(w, items);
  }

  lemma PairsWritten(s: seq<byte>, w: nat) returns (x: Wire)
    requires s != [] && (if w == 0 then 0x80 <= s[0] <= 0x8f else w in PAIRS_TAGS && s[0] == PAIRS_TAGS[w])
    requires ValueAt(s).Got?
    ensures Proper(x) && s == Form(x) + ValueAt(s).rest && ValueAt(s).value == Means(x)
    decreases |s|, 1, 0
  {
    hide NumberAt, BE, Pow256, DecodePairs, PairsForm, PairsMean;
    var n, t := s[0] - 0x80, s[1..];
    assert s == [s[0]] + s[1..];
    if w > 0 {
      NumberWritten(t, w);
      n, t := NumberAt(t, w).value, NumberAt(t, w).rest;
    }
    NoItemsMean();
    var entries := EachPairWritten(t, n, []);
    assert entries[0..] == entries;
    x := Pairs(w, entries);
  }

  /** Which reader a tag calls for. */
  lemma Dispatch(s: seq<byte>)
    requires s != []
    ensures var tag: int, t := s[0], s[1..];
            && (tag <= 0x7f ==> ValueAt(s) == Got(VOne(Int(tag)), t))
            && (tag >= 0xe0 ==> ValueAt(s) == Got(VOne(Int(tag - 0x100)), t))
            && (0xa0 <= tag <= 0xbf ==> ValueAt(s) == StrAt(t, tag - 0xa0))
            && (tag == 0xc0 ==> ValueAt(s) == Got(VNil, t))
            && (tag == 0xc2 || tag == 0xc3 ==> ValueAt(s) == Got(VOne(Bool(tag == 0xc3)), t))
            && (tag == 0xca || tag == 0xcb || tag == 0xc1 || 0xc7 <= tag <= 0xc9 || 0xd4 <= tag <= 0xd8
                ==> ValueAt(s).Fail?)
  {
    hide StrAt;
  }

  lemma DispatchSized(s: seq<byte>)
    requires s != []
    ensures var tag: int, t := s[0], s[1..];
            && (tag == 0xc4 || tag == 0xd9 ==> ValueAt(s) == SizedStr(t, 1))
            && (tag == 0xc5 || tag == 0xda ==> ValueAt(s) == SizedStr(t, 2))
            && (tag == 0xc6 || tag == 0xdb ==> ValueAt(s) == SizedStr(t, 4))
            && (tag == 0xcc ==> ValueAt(s) == UnsignedAt(t, 1))
            && (tag == 0xcd ==> ValueAt(s) == UnsignedAt(t, 2))
            && (tag == 0xce ==> ValueAt(s) == UnsignedAt(t, 4))
            && (tag == 0xcf ==> ValueAt(s) == UnsignedAt(t, 8))
            && (tag == 0xd0 ==> ValueAt(s) == SignedAt(t, 1))
            && (tag == 0xd1 ==> ValueAt(s) == SignedAt(t, 2))
            && (tag == 0xd2 ==> ValueAt(s) == SignedAt(t, 4))
            && (tag == 0xd3 ==> ValueAt(s) == SignedAt(t, 8))
  {
    hide SizedStr, UnsignedAt, SignedAt;
  }

  lemma FormWritten(s: seq<byte>) returns (x: Wire)
    requires ValueAt(s).Got?
    ensures Proper(x) && s == Form(x) + ValueAt(s).rest && ValueAt(s).value == Means(x)
    decreases |s|, 2, 0
  {
    NotEmpty(s);
    Dispatch(s);
    DispatchSized(s);
    hide ValueAt, StrAt, SizedStr, UnsignedAt, SignedAt;
    var tag: int := s[0];
    if tag <= 0x7f || tag >= 0xe0 || tag == 0xc0 || tag == 0xc2 || tag == 0xc3 {
      x := ShortestWritten(s);
    } else if tag <= 0x8f {
      x := PairsWritten(s, 0);
    } else if tag <= 0x9f {
      x := ItemsWritten(s, 0);
    } else if tag <= 0xbf {
      x := ShortWritten(s);
    } else if tag >= 0xdc {
      x := TableWritten(s);
    } else {
      x := SizedScalarWritten(s);
    }
  }

  lemma NotEmpty(s: seq<byte>)
    requires ValueAt(s).Got?
    ensures s != []
  {}

  lemma ShortestWritten(s: seq<byte>) returns (x: Wire)
    requires s != [] && (s[0] <= 0x7f || s[0] >= 0xe0 || s[0] == 0xc0 || s[0] == 0xc2 || s[0] == 0xc3)
    ensures Proper(x) && ValueAt(s).Got? && s == Form(x) + ValueAt(s).rest && ValueAt(s).value == Means(x)
  {
    Dispatch(s);
    hide ValueAt;
    var tag: int := s[0];
    x := if tag <= 0x7f then Small(tag) else if tag >= 0xe0 then Small(tag - 256)
         else if tag == 0xc0 then Empty else Truth(tag == 0xc3);
    assert s == [s[0]] + s[1..];
  }

  lemma TableWritten(s: seq<byte>) returns (x: Wire)
    requires s != [] && 0xdc <= s[0] <= 0xdf && ValueAt(s).Got?
    ensures Proper(x) && s == Form(x) + ValueAt(s).rest && ValueAt(s).value == Means(x)
    decreases |s|, 1, 1
  {
    hide ValueAt, Form, Means, Proper;
    if s[0] == 0xdc {
      x := ItemsWritten(s, 2);
    } else if s[0] == 0xdd {
      x := ItemsWritten(s, 4);
    } else if s[0] == 0xde {
      x := PairsWritten(s, 2);
    } else {
      x := PairsWritten(s, 4);
    }
  }

  lemma SizedScalarWritten(s: seq<byte>) returns (x: Wire)
    requires s != [] && 0xc1 <= s[0] <= 0xdb && s[0] != 0xc2 && s[0] != 0xc3 && ValueAt(s).Got?
    ensures Proper(x) && s == Form(x) + ValueAt(s).rest && ValueAt(s).value == Means(x)
  {
    Dispatch(s);
    DispatchSized(s);
    hide ValueAt, Form, Means, Proper, SizedStr, UnsignedAt, SignedAt;
    var tag: int := s[0];
    if tag <= 0xc6 {
      x := SizedWritten(s, if tag == 0xc4 then 1 else if tag == 0xc5 then 2 else 4, true);
    } else if tag >= 0xd9 {
      x := SizedWritten(s, if tag == 0xd9 then 1 else if tag == 0xda then 2 else 4, false);
    } else if tag <= 0xcf {
      x := UnsignedWritten(s, if tag == 0xcc then 1 else if tag == 0xcd then 2 else if tag == 0xce then 4 else 8);
    } else {
      x := SignedWritten(s, if tag == 0xd0 then 1 else if tag == 0xd1 then 2 else if tag == 0xd2 then 4 else 8);
    }
  }

  ghost predicate Stands(s: seq<byte>, v: Value, rest: seq<byte>) {
    exists x :: Proper(x) && Means(x) == v && s == Form(x) + rest
  }

  /** A value is read exactly when one of its forms stands there, whichever width it uses. */
  lemma ReadsExactly(s: seq<byte>, v: Value, rest: seq<byte>)
    ensures ValueAt(s) == Got(v, rest) <==> Stands(s, v, rest)
  {
    hide ValueAt, Form, Means, Proper;
    if ValueAt(s) == Got(v, rest) {
      var x := FormWritten(s);
    }
    if Stands(s, v, rest) {
      var x :| Proper(x) && Means(x) == v && s == Form(x) + rest;
      FormReads(x, rest);
    }
  }

  // --------------------------------------------------------------------------- failures

  /** Tags of no use here, numbers past the script's integers, floats, and keys that are none. */
  lemma OtherForms(tag: byte, t: seq<byte>)
    ensures tag in {0xc1, 0xc7, 0xc8, 0xc9, 0xd4, 0xd5, 0xd6, 0xd7, 0xd8} ==> ValueAt([tag] + t) == Fail(BadTag)
    ensures tag == 0xca ==> ValueAt([tag] + t) == Fail(if |t| < 4 then Truncated else Unmodelled)
    ensures tag == 0xcb ==> ValueAt([tag] + t) == Fail(if |t| < 8 then Truncated else Unmodelled)
    ensures ValueAt([]) == Fail(Truncated)
  {
    hide DecodePairs, DecodeItems, StrAt, SizedStr, UnsignedAt, SignedAt, SizedItems, SizedPairs;
    HeadAndTail(tag, t);
  }

  lemma TooLarge(n: nat, rest: seq<byte>)
    requires I64_LIMIT <= n < 0x1_0000_0000_0000_0000
    ensures ValueAt([0xcf] + (BE(n, 8) + rest)) == Fail(Unmodelled)
  {
    hide ValueAt, BE, NumberAt;
    Pow256Values();
    UnsignedHead(8, BE(n, 8) + rest);
    NumberRoundTrip(n, 8, rest);
  }

  lemma CutNumber(n: nat, w: nat, t: seq<byte>, k: nat)
    requires n < Pow256(w) && k <= w + |t|
    ensures var s := (BE(n, w) + t)[..k];
            NumberAt(s, w) == if k < w then Fail(Truncated) else Got(n, t[..k - w])
  {
    hide BE, Pow256, NumberAt;
    var s := (BE(n, w) + t)[..k];
    if k >= w {
      assert s == BE(n, w) + t[..k - w];
      NumberRoundTrip(n, w, t[..k - w]);
    } else {
      ShortNumber(s, w);
    }
  }

  lemma ShortNumber(s: seq<byte>, w: nat)
    requires |s| < w
    ensures NumberAt(s, w) == Fail(Truncated)
  {}

  lemma CutScalar(x: Wire, k: nat)
    requires Proper(x) && (x.Unsigned? || x.SignedInt?) && 0 < k < |Form(x)|
    ensures ValueAt(Form(x)[..k]) == Fail(Truncated)
  {
    hide ValueAt, BE, Pow256, NumberAt;
    match x {
      case Unsigned(w, n) =>
        assert Form(x)[..k] == [UNSIGNED_TAGS[w]] + BE(n, w)[..k - 1];
        UnsignedHead(w, BE(n, w)[..k - 1]);
        ShortNumber(BE(n, w)[..k - 1], w);
      case SignedInt(w, i) =>
        var b := BE(Wrap(i, w), w);
        assert Form(x)[..k] == [SIGNED_TAGS[w]] + b[..k - 1];
        SignedHead(w, b[..k - 1]);
        ShortNumber(b[..k - 1], w);
    }
  }

  /** A tag, and a prefix of the size and contents after it. */
  lemma CutSize(w: nat, n: nat, least: byte, most: nat, tags: map<nat, byte>, t: seq<byte>, k: nat)
    requires SizeFits(w, n, most, tags) && least + most <= 256 && 0 < k <= |Size(w, n, least, most, tags)| + |t|
    ensures var s := (Size(w, n, least, most, tags) + t)[..k];
            if w == 0 then s == [least + n] + t[..k - 1]
            else s == [tags[w]] + (BE(n, w) + t)[..k - 1]
                 && NumberAt((BE(n, w) + t)[..k - 1], w) == if k - 1 < w then Fail(Truncated) else Got(n, t[..k - 1 - w])
  {
    hide NumberAt, BE, Pow256;
    if w > 0 {
      CutNumber(n, w, t, k - 1);
      assert Size(w, n, least, most, tags) + t == [tags[w]] + (BE(n, w) + t);
    }
  }

  lemma CutText(x: Wire, k: nat)
    requires Proper(x) && x.Text? && 0 < k < |Form(x)|
    ensures ValueAt(Form(x)[..k]) == Fail(Truncated)
  {
    hide ValueAt, BE, Pow256, NumberAt, Size;
    var Text(binary, w, s) := x;
    if binary {
      SizeLength(w, |s|, 0, 0, BINARY_TAGS);
      CutSize(w, |s|, 0, 0, BINARY_TAGS, s, k);
      TextHead(w, (BE(|s|, w) + s)[..k - 1]);
    } else {
      CutSize(w, |s|, 0xa0, 32, TEXT_TAGS, s, k);
      SizeLength(w, |s|, 0xa0, 32, TEXT_TAGS);
      if w == 0 {
        TextHead(|s|, s[..k - 1]);
      } else {
        TextHead(w, (BE(|s|, w) + s)[..k - 1]);
      }
    }
  }

  lemma SizeLength(w: nat, n: nat, least: byte, most: nat, tags: map<nat, byte>)
    requires SizeFits(w, n, most, tags) && least + most <= 256
    ensures |Size(w, n, least, most, tags)| == 1 + w
  {}

  lemma OneByteForms(x: Wire)
    requires Proper(x) && (x.Empty? || x.Truth? || x.Small?)
    ensures |Form(x)| == 1
  {}

  /** Cut anywhere before its end, a value reads as truncated. */
  lemma CutForm(x: Wire, k: nat)
    requires Proper(x) && k < |Form(x)|
    ensures ValueAt(Form(x)[..k]) == Fail(Truncated)
    decreases x, 1
  {
    if k == 0 {
      assert Form(x)[..0] == [];
    } else {
      if x.Empty? || x.Truth? || x.Small? {
        OneByteForms(x);
      }
      hide Form, Proper, ValueAt;
      match x {
        case Items(_, _) => CutItems(x, k);
        case Pairs(_, _) => CutPairs(x, k);
        case Text(_, _, _) => CutText(x, k);
        case Unsigned(_, _) => CutScalar(x, k);
        case SignedInt(_, _) => CutScalar(x, k);
        case _ =>
      }
    }
  }

  lemma CutItems(x: Wire, k: nat)
    requires Proper(x) && x.Items? && 0 < k < |Form(x)|
    ensures ValueAt(Form(x)[..k]) == Fail(Truncated)
    decreases x, 0
  {
    hide ValueAt, BE, Pow256, NumberAt, Size, ItemsForm, DecodeItems;
    var Items(w, items) := x;
    var t := ItemsForm(items);
    SizeSmall(w, |items|);
    SizeLength(w, |items|, 0x90, 16, ITEMS_TAGS);
    CutSize(w, |items|, 0x90, 16, ITEMS_TAGS, t, k);
    assert items[0..] == items;
    if w == 0 {
      ItemsHead(|items|, t[..k - 1]);
      CutEachItem(items, 0, k - 1, map[]);
    } else {
      ItemsHead(w, (BE(|items|, w) + t)[..k - 1]);
      if k - 1 >= w {
        CutEachItem(items, 0, k - 1 - w, map[]);
      }
    }
  }

  lemma {:induction false} CutEachItem(items: seq<Wire>, j: nat, k: nat, m: map<Scalar, Value>)
    requires |items| < I64_LIMIT && forall i :: 0 <= i < |items| ==> Proper(items[i])
    requires j <= |items| && k < |ItemsForm(items[j..])|
    ensures DecodeItems(ItemsForm(items[j..])[..k], |items| - j, j + 1, m) == Fail(Truncated)
    decreases items, |items| - j
  {
    hide ValueAt, Form, Proper, Set;
    var x := items[j];
    var s, more := ItemsForm(items[j..])[..k], ItemsForm(items[j + 1..]);
    assert items[j..][1..] == items[j + 1..];
    assert ItemsForm(items[j..]) == Form(x) + more;
    var n := |Form(x)|;
    if k < n {
      assert s == Form(x)[..k];
      CutForm(x, k);
    } else {
      assert s == Form(x) + more[..k - n];
      FormReads(x, more[..k - n]);
      hide ItemsForm;
      ItemStepAny(s, |items| - j, j + 1, m);
      CutEachItem(items, j + 1, k - n, Set(m, Int(j + 1), ValueAt(s).value));
    }
  }

  lemma CutPairs(x: Wire, k: nat)
    requires Proper(x) && x.Pairs? && 0 < k < |Form(x)|
    ensures ValueAt(Form(x)[..k]) == Fail(Truncated)
    decreases x, 0
  {
    hide ValueAt, BE, Pow256, NumberAt, Size, PairsForm, DecodePairs;
    var Pairs(w, entries) := x;
    var t := PairsForm(entries);
    SizeLength(w, |entries|, 0x80, 16, PAIRS_TAGS);
    CutSize(w, |entries|, 0x80, 16, PAIRS_TAGS, t, k);
    assert entries[0..] == entries;
    if w == 0 {
      PairsHead(|entries|, t[..k - 1]);
      CutEachPair(entries, 0, k - 1, map[]);
    } else {
      PairsHead(w, (BE(|entries|, w) + t)[..k - 1]);
      if k - 1 >= w {
        CutEachPair(entries, 0, k - 1 - w, map[]);
      }
    }
  }

  lemma CutEntry(e: Entry, k: nat, n: nat, m: map<Scalar, Value>)
    requires ProperEntry(e) && k < |EntryForm(e)| && n > 0
    ensures DecodePairs(EntryForm(e)[..k], n, m) == Fail(Truncated)
    decreases e
  {
    hide ValueAt, Form, Proper;
    var s := EntryForm(e)[..k];
    var a := |Form(e.key)|;
    if k < a {
      assert s == Form(e.key)[..k];
      CutForm(e.key, k);
    } else {
      assert s == Form(e.key) + Form(e.value)[..k - a];
      FormReads(e.key, Form(e.value)[..k - a]);
      CutForm(e.value, k - a);
    }
  }

  lemma {:induction false} CutEachPair(entries: seq<Entry>, j: nat, k: nat, m: map<Scalar, Value>)
    requires forall i :: 0 <= i < |entries| ==> ProperEntry(entries[i])
    requires j <= |entries| && k < |PairsForm(entries[j..])|
    ensures DecodePairs(PairsForm(entries[j..])[..k], |entries| - j, m) == Fail(Truncated)
    decreases entries, |entries| - j
  {
    hide ValueAt, Form, EntryForm, Proper, Means;
    var e := entries[j];
    assert ProperEntry(e);
    var s, more := PairsForm(entries[j..])[..k], PairsForm(entries[j + 1..]);
    assert entries[j..][1..] == entries[j + 1..];
    assert PairsForm(entries[j..]) == EntryForm(e) + more;
    hide DecodePairs, PairsForm;
    var n := |EntryForm(e)|;
    if k < n {
      assert s == EntryForm(e)[..k];
      CutEntry(e, k, |entries| - j, m);
    } else {
      assert s == EntryForm(e) + more[..k - n];
      EntryReads(e, more[..k - n]);
      PairStepAny(s, |entries| - j, m);
      CutEachPair(entries, j + 1, k - n, EntrySet(m, e));
    }
  }

  function AllMean(xs: seq<Wire>): seq<Value>
    requires forall i :: 0 <= i < |xs| ==> Proper(xs[i])
  {
    if xs == [] then [] else [Means(xs[0])] + AllMean(xs[1..])
  }

  /** Unpacking takes values until the bytes end, in whatever forms they stand, and fails with the first that does. */
  lemma {:induction false} UnpacksInOrder(xs: seq<Wire>, s: seq<byte>)
    requires forall i :: 0 <= i < |xs| ==> Proper(xs[i])
    requires s == [] || ValueAt(s).Fail?
    ensures UnpackAll(ItemsForm(xs) + s) == if s == [] then Got(AllMean(xs), []) else Fail(ValueAt(s).error)
    decreases xs
  {
    hide ValueAt, Form, Means, Proper;
    if xs == [] {
      assert ItemsForm(xs) + s == s;
    } else {
      var more := ItemsForm(xs[1..]) + s;
      assert ItemsForm(xs) + s == Form(xs[0]) + more;
      FormReads(xs[0], more);
      FormStands(xs[0]);
      UnpacksInOrder(xs[1..], s);
      assert [Means(xs[0])] + [] + AllMean(xs[1..]) == AllMean(xs);
    }
  }

  lemma FormStands(x: Wire)
    requires Proper(x)
    ensures Form(x) != []
  {
    hide BE, ItemsForm, PairsForm;
  }

  // ---------------------------------------------------------------------- what is written

  /** The narrowest signed form, one byte from -32 to 127. */
  lemma IntsWritten(i: i64)
    ensures IntCode(i) == Form(if -32 <= i < 128 then Small(i)
                               else SignedInt(if FitsSigned(i, 1) then 1 else if FitsSigned(i, 2) then 2
                                              else if FitsSigned(i, 4) then 4 else 8, i))
  {
    hide BE, Pow256;
    Pow256Values();
    if -0x80 <= i < 0x80 && !(-32 <= i < 128) {
      OneByte(if i < 0 then 256 + i else i);
    }
  }

  /** The narrowest size. */
  lemma SizesWritten(n: nat)
    requires n < 0x1_0000_0000
    ensures StrHeader(n) == if n < 32 then [0xa0 + n] else if n < 0x100 then [0xd9] + BE(n, 1)
                            else if n < 0x1_0000 then [0xda] + BE(n, 2) else [0xdb] + BE(n, 4)
    ensures ArrayHeader(n) == if n < 16 then [0x90 + n] else if n < 0x1_0000 then [0xdc] + BE(n, 2) else [0xdd] + BE(n, 4)
    ensures MapHeader(n) == if n < 16 then [0x80 + n] else if n < 0x1_0000 then [0xde] + BE(n, 2) else [0xdf] + BE(n, 4)
  {
    hide BE;
    if n < 256 {
      OneByte(n);
    }
  }

  function Joined(parts: seq<seq<byte>>): seq<byte> {
    if parts == [] then [] else parts[0] + Joined(parts[1..])
  }

  lemma {:induction false} ItemsJoined(h: Held, i: nat, parts: seq<seq<byte>>)
    requires Ok(h) && h.Table? && IsArray(h.pairs, h.border) && 1 <= i <= h.border + 1 && |parts| == h.border
    requires forall j :: 0 <= j < |h.pairs| ==> parts[h.pairs[j].0.i - 1] == Code(h.pairs[j].1)
    ensures ItemsCode(h, i) == Joined(parts[i - 1..])
    decreases h.border + 1 - i
  {
    hide Code;
    if i <= h.border {
      ArrayHasAll(h.pairs, h.border, i);
      var j := Place(h.pairs, Int(i));
      assert parts[h.pairs[j].0.i - 1] == parts[i - 1..][0];
      ItemsJoined(h, i + 1, parts);
      assert parts[i - 1..][1..] == parts[i..];
    }
  }

  /** An array is its size and its values in key order. */
  lemma ArrayWritten(h: Held, parts: seq<seq<byte>>)
    requires Ok(h) && h.Table? && IsArray(h.pairs, h.border) && |parts| == h.border
    requires forall j :: 0 <= j < |h.pairs| ==> parts[h.pairs[j].0.i - 1] == Code(h.pairs[j].1)
    ensures Code(h) == ArrayHeader(|h.pairs|) + Joined(parts)
  {
    hide ItemsCode, ArrayHeader;
    ItemsJoined(h, 1, parts);
    assert parts[0..] == parts;
  }

  lemma {:induction false} PairsJoined(h: Held, k: nat, parts: seq<seq<byte>>)
    requires Ok(h) && h.Table? && k <= |h.pairs| == |parts|
    requires forall j :: 0 <= j < |h.pairs| ==> parts[j] == ScalarCode(h.pairs[j].0) + Code(h.pairs[j].1)
    ensures PairsCode(h, k) == Joined(parts[k..])
    decreases |h.pairs| - k
  {
    hide Code, ScalarCode;
    if k < |h.pairs| {
      PairsJoined(h, k + 1, parts);
      assert parts[k] == parts[k..][0] && parts[k..][1..] == parts[k + 1..];
    }
  }

  /** A map is its size and its pairs in the order they come, each key before its value. */
  lemma MapWritten(h: Held, parts: seq<seq<byte>>)
    requires Ok(h) && h.Table? && !IsArray(h.pairs, h.border) && |parts| == |h.pairs|
    requires forall j :: 0 <= j < |h.pairs| ==> parts[j] == ScalarCode(h.pairs[j].0) + Code(h.pairs[j].1)
    ensures Code(h) == MapHeader(|h.pairs|) + Joined(parts)
  {
    hide PairsCode, MapHeader, ScalarCode;
    PairsJoined(h, 0, parts);
    assert parts[0..] == parts;
  }

  lemma ScalarsWritten(b: bool, i: i64, s: seq<byte>)
    ensures MsgPack.Code(Nil) == [0xc0] && ScalarCode(Bool(b)) == (if b then [0xc3] else [0xc2])
    ensures ScalarCode(Int(i)) == IntCode(i) && ScalarCode(Str(s)) == StrHeader(|s|) + s
  {}
}
