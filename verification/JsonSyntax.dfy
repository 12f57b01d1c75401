/** JSON texts by how they are written: exactly which bytes decode, and to what. */
module JsonSyntax {
  import opened Bytes
  import opened Decimal
  import opened ScriptValues
  import opened Json

  // ------------------------------------------------------------------ written texts

  /** A character of a string as written: itself, after a backslash, or as one or two code units. */
  datatype Chr = Raw(b: byte) | Short(e: byte) | Unit(h: seq<byte>) | Pair(hi: seq<byte>, lo: seq<byte>)

  /** A value with white space before and after it. */
  datatype Doc = Doc(pre: seq<byte>, body: Body, post: seq<byte>)

  /** What a value is written as; `gap` is what stands between the brackets when nothing else does. */
  datatype Body =
    | Null | True | False
    | Num(text: seq<byte>)
    | Chars(chars: seq<Chr>)
    | Arr(items: seq<Doc>, gap: seq<byte>)
    | Obj(members: seq<Member>, gap: seq<byte>)

  datatype Member = Member(pre: seq<byte>, key: seq<Chr>, mid: seq<byte>, value: Doc)

  /** Space, tab, line feed and carriage return. */
  predicate IsGap(s: seq<byte>) {
    forall i :: 0 <= i < |s| ==> s[i] in {32, 9, 10, 13}
  }

  /** A quote, a backslash, a slash, and the letters b, f, n, r and t. */
  const SHORT: map<byte, byte> := map[34 := 34, 92 := 92, 47 := 47, 98 := 8, 102 := 12, 110 := 10, 114 := 13, 116 := 9]

  predicate IsHexDigit(b: byte) {
    48 <= b <= 57 || 97 <= b <= 102 || 65 <= b <= 70
  }

  function HexDigitOf(b: byte): nat
    requires IsHexDigit(b)
  {
    var n: int := b;
    if n <= 57 then n - 48 else if n <= 70 then n - 65 + 10 else n - 97 + 10
  }

  /** Four hexadecimal digits, the first of which may be a plus sign instead. */
  predicate IsHex(h: seq<byte>) {
    |h| == 4 && (h[0] == 43 || IsHexDigit(h[0])) && IsHexDigit(h[1]) && IsHexDigit(h[2]) && IsHexDigit(h[3])
  }

  function HexOf(h: seq<byte>): nat
    requires IsHex(h)
  {
    (if h[0] == 43 then 0 else 4096 * HexDigitOf(h[0]))
    + 256 * HexDigitOf(h[1]) + 16 * HexDigitOf(h[2]) + HexDigitOf(h[3])
  }

  predicate IsHigh(h: seq<byte>) {
    IsHex(h) && 0xd800 <= HexOf(h) < 0xdc00
  }

  predicate ProperChar(c: Chr) {
    match c
    case Raw(b) => b != 34 && b != 92
    case Short(e) => e in SHORT
    case Unit(h) => IsHex(h)
    case Pair(hi, lo) => IsHigh(hi) && IsHex(lo)
  }

  /** A high surrogate pairs with whatever code unit is written next to it. */
  predicate ProperChars(cs: seq<Chr>) {
    cs == []
    || (ProperChar(cs[0]) && ProperChars(cs[1..])
        && (cs[0].Unit? && IsHigh(cs[0].h) ==> |cs| == 1 || cs[1].Raw? || cs[1].Short?))
  }

  function CharText(c: Chr): (s: seq<byte>)
    ensures s != []
  {
    match c
    case Raw(b) => [b]
    case Short(e) => [92, e]
    case Unit(h) => [92, 117] + h
    case Pair(hi, lo) => [92, 117] + hi + ([92, 117] + lo)
  }

  function CharMeans(c: Chr): seq<byte>
    requires ProperChar(c)
  {
    match c
    case Raw(b) => [b]
    case Short(e) => [SHORT[e]]
    case Unit(h) => Utf8(HexOf(h))
    case Pair(hi, lo) => Utf8(0x1_0000 + (HexOf(hi) - 0xd800) * 0x400 + HexOf(lo) - 0xdc00)
  }

  function CharsText(cs: seq<Chr>): seq<byte> {
    if cs == [] then [] else CharText(cs[0]) + CharsText(cs[1..])
  }

  function CharsMean(cs: seq<Chr>): seq<byte>
    requires ProperChars(cs)
  {
    if cs == [] then [] else CharMeans(cs[0]) + CharsMean(cs[1..])
  }

  function StrText(cs: seq<Chr>): seq<byte> {
    [34] + CharsText(cs) + [34]
  }

  // ------------------------------------------------------------------------ strings

  lemma HexDigitMeans(b: byte)
    ensures HexValue(b) == if IsHexDigit(b) then Some(HexDigitOf(b)) else None
  {}

  lemma ShortMeans(e: byte)
    ensures SimpleEscape(e) == if e in SHORT then Some(SHORT[e]) else None
  {}

  lemma Number3(a: byte, b: byte, c: byte)
    ensures HexNumber([a, b, c]) == if IsHexDigit(a) && IsHexDigit(b) && IsHexDigit(c)
                                    then Some(256 * HexDigitOf(a) + 16 * HexDigitOf(b) + HexDigitOf(c)) else None
  {
    hide HexValue, HexDigitOf, IsHexDigit;
    HexDigitMeans(a);
    HexDigitMeans(b);
    HexDigitMeans(c);
    assert [a, b, c][..2] == [a, b] && [a, b][..1] == [a] && [a][..0] == [];
    assert HexNumber([a]) == HexValue(a);
  }

  lemma Number4(a: byte, b: byte, c: byte, d: byte)
    ensures HexNumber([a, b, c, d])
         == if IsHexDigit(a) && IsHexDigit(b) && IsHexDigit(c) && IsHexDigit(d)
            then Some(4096 * HexDigitOf(a) + 256 * HexDigitOf(b) + 16 * HexDigitOf(c) + HexDigitOf(d)) else None
  {
    hide HexValue, HexDigitOf, IsHexDigit;
    Number3(a, b, c);
    HexDigitMeans(d);
    assert [a, b, c, d][..3] == [a, b, c];
  }

  lemma HexReads(s: seq<byte>)
    ensures Hex4(s) == if 4 <= |s| && IsHex(s[..4]) then Got(HexOf(s[..4]), s[4..]) else Fail(BadEscape)
  {
    hide HexNumber, HexDigitOf, IsHexDigit;
    if 4 <= |s| {
      var h := s[..4];
      assert h == [s[0], s[1], s[2], s[3]] && s[1..4] == [s[1], s[2], s[3]];
      Number3(s[1], s[2], s[3]);
      Number4(s[0], s[1], s[2], s[3]);
      PlusIsNoDigit();
    }
  }

  lemma PlusIsNoDigit()
    ensures !IsHexDigit(43)
  {}

  /** UTF-8 in the fewest bytes; a surrogate or a number past the last character is U+FFFD instead. */
  lemma Utf8Forms(cp: nat)
    ensures |Utf8(cp)| == if cp <= 127 then 1 else if cp <= 2047 then 2 else if cp <= 65535 || cp > 1114111 then 3 else 4
    ensures cp <= 127 ==> Utf8(cp)[0] == cp
    ensures 55296 <= cp <= 57343 || cp > 1114111 ==> Utf8(cp) == Utf8(65533) == [239, 191, 189]
    ensures forall i :: 1 <= i < |Utf8(cp)| ==> 128 <= Utf8(cp)[i] <= 191
    ensures var lead := Utf8(cp)[0];
            && (|Utf8(cp)| == 2 ==> 194 <= lead <= 223) && (|Utf8(cp)| == 3 ==> 224 <= lead <= 239)
            && (|Utf8(cp)| == 4 ==> 240 <= lead <= 244)
  {}

  /** The first character of a string, as written. */
  function FirstChar(s: seq<byte>): Chr
    requires s != []
  {
    if s[0] != 92 || |s| < 2 then Raw(s[0])
    else if s[1] != 117 then Short(s[1])
    else if |s| < 6 then Raw(s[0])
    else if IsHigh(s[2..6]) && 12 <= |s| && s[6] == 92 && s[7] == 117 then Pair(s[2..6], s[8..12])
    else Unit(s[2..6])
  }

  predicate StartsUnit(s: seq<byte>) {
    2 <= |s| && s[0] == 92 && s[1] == 117
  }

  predicate CharFits(c: Chr, rest: seq<byte>) {
    ProperChar(c) && (c.Unit? && IsHigh(c.h) ==> !StartsUnit(rest))
  }

  lemma UnitReads(h: seq<byte>, rest: seq<byte>)
    requires CharFits(Unit(h), rest)
    ensures Unicode(h + rest) == Got(Utf8(HexOf(h)), rest)
  {
    hide Hex4, Utf8, HexOf;
    HexReads(h + rest);
    assert (h + rest)[..4] == h && (h + rest)[4..] == rest;
  }

  lemma PairReads(hi: seq<byte>, lo: seq<byte>, rest: seq<byte>)
    requires CharFits(Pair(hi, lo), rest)
    ensures Unicode(hi + ([92, 117] + lo) + rest) == Got(CharMeans(Pair(hi, lo)), rest)
  {
    hide Hex4, Utf8, HexOf;
    var more := [92, 117] + (lo + rest);
    assert hi + ([92, 117] + lo) + rest == hi + more;
    HexReads(hi + more);
    assert (hi + more)[..4] == hi && (hi + more)[4..] == more;
    assert more[2..] == lo + rest;
    HexReads(lo + rest);
    assert (lo + rest)[..4] == lo && (lo + rest)[4..] == rest;
  }

  lemma CharReads(c: Chr, rest: seq<byte>)
    requires CharFits(c, rest)
    ensures CharAt(CharText(c) + rest) == Got(CharMeans(c), rest) && (CharText(c) + rest)[0] != 34
  {
    hide Unicode, SimpleEscape, Utf8, HexOf;
    var s := CharText(c) + rest;
    match c {
      case Raw(b) =>
        assert s[1..] == rest;
      case Short(e) =>
        ShortMeans(e);
        assert s[2..] == rest;
      case Unit(h) =>
        UnitReads(h, rest);
        assert s[2..] == h + rest;
      case Pair(hi, lo) =>
        PairReads(hi, lo, rest);
        assert s[2..] == hi + ([92, 117] + lo) + rest;
    }
  }

  lemma UnitWritten(s: seq<byte>)
    requires StartsUnit(s) && Unicode(s[2..]).Got?
    ensures var c, rest := FirstChar(s), Unicode(s[2..]).rest;
            CharFits(c, rest) && s == CharText(c) + rest && Unicode(s[2..]).value == CharMeans(c)
  {
    hide Hex4, Utf8, HexOf, IsHex, CharText;
    HexReads(s[2..]);
    assert s[2..][..4] == s[2..6] && s[2..][4..] == s[6..];
    UnitSplits(s);
    if IsHigh(s[2..6]) && StartsUnit(s[6..]) {
      assert s[6..][2..] == s[8..];
      HexReads(s[8..]);
      assert s[8..][..4] == s[8..12] && s[8..][4..] == s[12..];
      PairSplits(s);
    }
  }

  lemma UnitSplits(s: seq<byte>)
    requires StartsUnit(s) && 6 <= |s|
    ensures s == CharText(Unit(s[2..6])) + s[6..]
  {
    assert s == [92, 117] + s[2..6] + s[6..];
  }

  lemma PairSplits(s: seq<byte>)
    requires StartsUnit(s) && 12 <= |s| && StartsUnit(s[6..])
    ensures s == CharText(Pair(s[2..6], s[8..12])) + s[12..]
  {
    assert s == [92, 117] + s[2..6] + ([92, 117] + s[8..12]) + s[12..];
  }

  lemma CharWritten(s: seq<byte>)
    requires CharAt(s).Got? && s[0] != 34
    ensures var c, rest := FirstChar(s), CharAt(s).rest;
            CharFits(c, rest) && s == CharText(c) + rest && CharAt(s).value == CharMeans(c)
  {
    hide Unicode, SimpleEscape, HexOf, Utf8;
    if s[0] != 92 {
      assert s == [s[0]] + s[1..];
    } else if s[1] == 117 {
      UnitWritten(s);
    } else {
      ShortMeans(s[1]);
      assert s == [92, s[1]] + s[2..];
    }
  }

  lemma {:induction false} StringReads(cs: seq<Chr>, rest: seq<byte>)
    requires ProperChars(cs)
    ensures StringAt(CharsText(cs) + [34] + rest) == Got(CharsMean(cs), rest)
  {
    hide CharAt, CharText, CharMeans;
    var s := CharsText(cs) + [34] + rest;
    if cs == [] {
      assert s[1..] == rest;
      QuoteCloses(s);
    } else {
      var tail := CharsText(cs[1..]) + [34] + rest;
      assert s == CharText(cs[0]) + tail;
      NextIsNoUnit(cs, rest);
      CharReads(cs[0], tail);
      StringReads(cs[1..], rest);
    }
  }

  lemma QuoteCloses(s: seq<byte>)
    requires s != [] && s[0] == 34
    ensures CharAt(s) == Got([], s[1..])
  {}

  lemma NextIsNoUnit(cs: seq<Chr>, rest: seq<byte>)
    requires ProperChars(cs) && cs != []
    ensures CharFits(cs[0], CharsText(cs[1..]) + [34] + rest)
  {
    hide HexOf, IsHex;
    if |cs| > 1 {
      assert (CharsText(cs[1..]) + [34] + rest)[..|CharText(cs[1])|] == CharText(cs[1]);
    }
  }

  lemma {:induction false} StringWritten(s: seq<byte>) returns (cs: seq<Chr>)
    requires StringAt(s).Got?
    ensures ProperChars(cs) && s == CharsText(cs) + [34] + StringAt(s).rest && StringAt(s).value == CharsMean(cs)
    decreases |s|
  {
    hide CharAt, FirstChar, CharText, CharMeans, CharFits;
    if s[0] == 34 {
      QuoteCloses(s);
      cs := [];
    } else {
      CharWritten(s);
      var c, rest := FirstChar(s), CharAt(s).rest;
      var more := StringWritten(rest);
      cs := [c] + more;
      assert cs[1..] == more;
      OneMore(c, more, StringAt(rest).rest);
    }
  }

  lemma OneMore(c: Chr, more: seq<Chr>, rest: seq<byte>)
    requires ProperChars(more) && CharFits(c, CharsText(more) + [34] + rest)
    ensures ProperChars([c] + more)
  {
    hide HexOf, IsHex;
    assert ([c] + more)[1..] == more;
    if more != [] {
      assert (CharsText(more) + [34] + rest)[..|CharText(more[0])|] == CharText(more[0]);
    }
  }

  // ---------------------------------------------------------------------- documents

  predicate Proper(d: Doc)
    decreases d
  {
    IsGap(d.pre) && IsGap(d.post) && ProperBody(d.body)
  }

  /** A number is digits with at most one sign, a minus sign, in front. */
  predicate ProperBody(b: Body)
    decreases b
  {
    match b
    case Null => true
    case True => true
    case False => true
    case Num(text) => text != [] && (text[0] == 45 || 48 <= text[0] <= 57) && ParseI64(text).Some?
    case Chars(chars) => ProperChars(chars)
    case Arr(items, gap) =>
      IsGap(gap) && |items| < I64_LIMIT && forall i :: 0 <= i < |items| ==> Proper(items[i])
    case Obj(members, gap) =>
      IsGap(gap) && forall i :: 0 <= i < |members| ==> ProperMember(members[i])
  }

  predicate ProperMember(e: Member)
    decreases e
  {
    IsGap(e.pre) && ProperChars(e.key) && IsGap(e.mid) && Proper(e.value)
  }

  function Text(d: Doc): seq<byte>
    decreases d
  {
    d.pre + (BodyText(d.body) + d.post)
  }

  function BodyText(b: Body): seq<byte>
    decreases b
  {
    match b
    case Null => [110, 117, 108, 108]
    case True => [116, 114, 117, 101]
    case False => [102, 97, 108, 115, 101]
    case Num(text) => text
    case Chars(chars) => StrText(chars)
    case Arr(items, gap) => [91] + (if items == [] then gap else ItemsText(items)) + [93]
    case Obj(members, gap) => [123] + (if members == [] then gap else MembersText(members)) + [125]
  }

  /** Separated by commas. */
  function ItemsText(items: seq<Doc>): seq<byte>
    requires items != []
    decreases items
  {
    Text(items[0]) + if |items| == 1 then [] else [44] + ItemsText(items[1..])
  }

  function MembersText(members: seq<Member>): seq<byte>
    requires members != []
    decreases members
  {
    MemberText(members[0]) + if |members| == 1 then [] else [44] + MembersText(members[1..])
  }

  function MemberText(e: Member): seq<byte>
    decreases e
  {
    e.pre + (StrText(e.key) + (e.mid + ([58] + Text(e.value))))
  }

  function Means(d: Doc): Value
    requires Proper(d)
    decreases d
  {
    BodyMeans(d.body)
  }

  function BodyMeans(b: Body): Value
    requires ProperBody(b)
    decreases b
  {
    match b
    case Null => VNil
    case True => VOne(Bool(true))
    case False => VOne(Bool(false))
    case Num(text) => VOne(Int(ParseI64(text).value))
    case Chars(chars) => VOne(Str(CharsMean(chars)))
    case Arr(items, _) => VTable(ItemsMean(items))
    case Obj(members, _) => VTable(MembersMean(members))
  }

  /** Items are numbered from one; a null leaves its number unused. */
  function ItemsMean(items: seq<Doc>): map<Scalar, Value>
    requires |items| < I64_LIMIT && forall i :: 0 <= i < |items| ==> Proper(items[i])
    decreases items
  {
    if items == [] then map[]
    else
      var n, most := |items|, ItemsMean(items[..|items| - 1]);
      var v := Means(items[n - 1]);
      if v.VNil? then most else most[Int(n) := v]
  }

  /** The last member with a key that is not null counts. */
  function MembersMean(members: seq<Member>): map<Scalar, Value>
    requires forall i :: 0 <= i < |members| ==> ProperMember(members[i])
    decreases members
  {
    if members == [] then map[]
    else
      var n, most := |members|, MembersMean(members[..|members| - 1]);
      var e := members[n - 1];
      assert ProperMember(e);
      if Means(e.value).VNil? then most else most[Str(CharsMean(e.key)) := Means(e.value)]
  }

  // --------------------------------------------------------------------- white space

  /** White space before anything is skipped, and only white space. */
  lemma {:induction false} GapSkipped(gap: seq<byte>, s: seq<byte>)
    requires IsGap(gap)
    ensures SkipWs(gap + s) == SkipWs(s)
  {
    if gap == [] {
      assert gap + s == s;
    } else {
      assert (gap + s)[1..] == gap[1..] + s;
      GapSkipped(gap[1..], s);
    }
  }

  lemma NothingSkipped(s: seq<byte>)
    requires s != [] && s[0] !in {32, 9, 10, 13}
    ensures SkipWs(s) == s
  {}

  lemma {:induction false} GapWritten(s: seq<byte>) returns (gap: seq<byte>)
    ensures IsGap(gap) && s == gap + SkipWs(s)
    ensures SkipWs(s) == [] || SkipWs(s)[0] !in {32, 9, 10, 13}
  {
    if s != [] && IsSpace(s[0]) {
      gap := GapWritten(s[1..]);
      gap := [s[0]] + gap;
      assert s == [s[0]] + s[1..];
    } else {
      gap := [];
    }
  }

  lemma {:induction false} SkipTwice(s: seq<byte>)
    ensures SkipWs(SkipWs(s)) == SkipWs(s)
  {
    if s != [] && IsSpace(s[0]) {
      SkipTwice(s[1..]);
    }
  }

  lemma ValueSkips(s: seq<byte>)
    ensures ValueAt(SkipWs(s)) == ValueAt(s)
  {
    hide SkipWs, StringAt, ArrayAt, ObjectAt, NumberAt, LiteralAt;
    SkipTwice(s);
  }

  // ------------------------------------------------------------------ what texts mean

  predicate Fits(b: Body, rest: seq<byte>) {
    b.Num? ==> Delimited(rest)
  }

  lemma GapDelimits(gap: seq<byte>, s: seq<byte>)
    requires IsGap(gap) && Delimited(s)
    ensures Delimited(gap + s)
  {}

  lemma {:induction false} DigitsOnly(text: seq<byte>)
    requires ParseI64(text).Some?
    ensures forall i :: 0 <= i < |text| ==> IsNumberByte(text[i])
  {
    hide Decimal.Value;
  }

  lemma NumReads(text: seq<byte>, rest: seq<byte>)
    requires ProperBody(Num(text)) && Delimited(rest)
    ensures ValueAt(text + rest) == Got(BodyMeans(Num(text)), rest)
  {
    hide ParseI64, NumberLength;
    DigitsOnly(text);
    NumberEnds(text, rest);
    var s := text + rest;
    assert s[..|text|] == text && s[|text|..] == rest;
    NothingSkipped(s);
  }

  lemma WordReads(b: Body, rest: seq<byte>)
    requires b.Null? || b.True? || b.False?
    ensures ValueAt(BodyText(b) + rest) == Got(BodyMeans(b), rest)
  {
    var s := BodyText(b) + rest;
    NothingSkipped(s);
    assert s[|BodyText(b)|..] == rest;
  }

  lemma StrReads(cs: seq<Chr>, rest: seq<byte>)
    requires ProperChars(cs)
    ensures ValueAt(StrText(cs) + rest) == Got(VOne(Str(CharsMean(cs))), rest)
  {
    hide StringAt, CharsText, CharsMean, ProperChars;
    var s := StrText(cs) + rest;
    NothingSkipped(s);
    assert s[1..] == CharsText(cs) + [34] + rest;
    StringReads(cs, rest);
  }

  lemma DocReads(d: Doc, rest: seq<byte>)
    requires Proper(d) && Fits(d.body, d.post + rest)
    ensures ValueAt(Text(d) + rest) == Got(Means(d), d.post + rest)
    decreases d
  {
    hide ValueAt, BodyText, BodyMeans, ProperBody, Fits;
    var s := BodyText(d.body) + (d.post + rest);
    assert Text(d) + rest == d.pre + s;
    GapSkipped(d.pre, s);
    ValueSkips(d.pre + s);
    ValueSkips(s);
    BodyReads(d.body, d.post + rest);
  }

  lemma BodyReads(b: Body, rest: seq<byte>)
    requires ProperBody(b) && Fits(b, rest)
    ensures ValueAt(BodyText(b) + rest) == Got(BodyMeans(b), rest)
    decreases b
  {
    hide ValueAt, ParseI64, ProperChars;
    match b {
      case Num(text) => NumReads(text, rest);
      case Chars(chars) => StrReads(chars, rest);
      case Arr(items, gap) => ArrReads(items, gap, rest);
      case Obj(members, gap) => ObjReads(members, gap, rest);
      case _ => WordReads(b, rest);
    }
  }

  /** No value begins with white space or with what ends or separates others. */
  lemma BodyStarts(b: Body)
    requires ProperBody(b)
    ensures BodyText(b) != [] && BodyText(b)[0] !in {32, 9, 10, 13, 44, 58, 93, 125}
  {}

  lemma TextStarts(d: Doc, rest: seq<byte>)
    requires Proper(d)
    ensures var s := SkipWs(Text(d) + rest);
            s != [] && s[0] !in {32, 9, 10, 13, 44, 58, 93, 125}
  {
    hide ProperBody, BodyText;
    BodyStarts(d.body);
    var s := BodyText(d.body) + (d.post + rest);
    assert Text(d) + rest == d.pre + s;
    GapSkipped(d.pre, s);
    NothingSkipped(s);
  }

  lemma OpensArray(t: seq<byte>)
    ensures ValueAt([91] + t) == ArrayAt(t)
  {
    hide ArrayAt;
    NothingSkipped([91] + t);
    assert ([91] + t)[1..] == t;
  }

  lemma OpensObject(t: seq<byte>)
    ensures ValueAt([123] + t) == ObjectAt(t)
  {
    hide ObjectAt;
    NothingSkipped([123] + t);
    assert ([123] + t)[1..] == t;
  }

  lemma ArrayBegins(t: seq<byte>)
    ensures var s := SkipWs(t);
            ArrayAt(t) == if s != [] && s[0] == 93 then Got(VTable(map[]), s[1..]) else ElementsAt(t, 1, map[])
  {
    hide SkipWs, ValueAt;
    ValueSkips(t);
  }

  lemma ElementsStep(s: seq<byte>, i: nat, m: map<Scalar, Value>)
    requires ValueAt(s).Got? && i < I64_LIMIT
    ensures var after, next := SkipWs(ValueAt(s).rest), Set(m, Int(i), ValueAt(s).value);
            ElementsAt(s, i, m)
            == if after != [] && after[0] == 44 then ElementsAt(after[1..], i + 1, next)
               else if after != [] && after[0] == 93 then Got(VTable(next), after[1..])
               else Fail(BadArray)
  {
    hide SkipWs, ValueAt;
  }

  lemma ItemsSplit(items: seq<Doc>, k: nat, rest: seq<byte>)
    requires k < |items|
    ensures ItemsText(items[k..]) + rest
         == Text(items[k]) + if k + 1 == |items| then rest else [44] + (ItemsText(items[k + 1..]) + rest)
  {
    hide Text;
    assert items[k..][1..] == items[k + 1..];
    if k + 1 == |items| {
      assert Text(items[k]) + [] == Text(items[k]);
    }
  }

  lemma ItemSet(items: seq<Doc>, k: nat)
    requires k < |items| < I64_LIMIT && forall i :: 0 <= i < |items| ==> Proper(items[i])
    ensures Set(ItemsMean(items[..k]), Int(k + 1), Means(items[k])) == ItemsMean(items[..k + 1])
  {
    hide Means, Proper;
    assert items[..k + 1][..k] == items[..k];
  }

  lemma ArrReads(items: seq<Doc>, gap: seq<byte>, rest: seq<byte>)
    requires ProperBody(Arr(items, gap))
    ensures ValueAt(BodyText(Arr(items, gap)) + rest) == Got(VTable(ItemsMean(items)), rest)
    decreases items, |items|
  {
    hide ValueAt, ElementsAt, Text, Proper, Means, ArrayAt;
    var end := [93] + rest;
    var t := (if items == [] then gap else ItemsText(items)) + end;
    assert BodyText(Arr(items, gap)) + rest == [91] + t;
    OpensArray(t);
    ArrayBegins(t);
    NothingSkipped(end);
    if items == [] {
      GapSkipped(gap, end);
      assert end[1..] == rest;
    } else {
      assert items[0..] == items && items[..0] == [];
      ItemsSplit(items, 0, end);
      TextStarts(items[0], if |items| == 1 then end else [44] + (ItemsText(items[1..]) + end));
      ItemsRead(items, 0, rest);
    }
  }

  lemma {:induction false} ItemsRead(items: seq<Doc>, k: nat, rest: seq<byte>)
    requires k < |items| < I64_LIMIT && forall i :: 0 <= i < |items| ==> Proper(items[i])
    ensures ElementsAt(ItemsText(items[k..]) + ([93] + rest), k + 1, ItemsMean(items[..k]))
         == Got(VTable(ItemsMean(items)), rest)
    decreases items, |items| - k - 1
  {
    hide ValueAt, ElementsAt, Text, Means, ItemsText, ItemsMean, ProperBody, Set, SkipWs;
    var d := items[k];
    var end := [93] + rest;
    var more := if k + 1 == |items| then end else [44] + (ItemsText(items[k + 1..]) + end);
    ItemsSplit(items, k, end);
    GapDelimits(d.post, more);
    DocReads(d, more);
    GapSkipped(d.post, more);
    NothingSkipped(more);
    ElementsStep(Text(d) + more, k + 1, ItemsMean(items[..k]));
    ItemSet(items, k);
    if k + 1 == |items| {
      assert items[..k + 1] == items && more[1..] == rest;
    } else {
      assert more[1..] == ItemsText(items[k + 1..]) + end;
      ItemsRead(items, k + 1, rest);
    }
  }

  lemma ObjReads(members: seq<Member>, gap: seq<byte>, rest: seq<byte>)
    requires ProperBody(Obj(members, gap))
    ensures ValueAt(BodyText(Obj(members, gap)) + rest) == Got(VTable(MembersMean(members)), rest)
    decreases members, |members|
  {
    hide ValueAt, MembersAt, MemberText, ProperMember, ObjectAt;
    var end := [125] + rest;
    var t := (if members == [] then gap else MembersText(members)) + end;
    assert BodyText(Obj(members, gap)) + rest == [123] + t;
    OpensObject(t);
    ObjectBegins(t);
    NothingSkipped(end);
    if members == [] {
      GapSkipped(gap, end);
      assert end[1..] == rest;
    } else {
      assert members[0..] == members && members[..0] == [];
      MembersSplit(members, 0, end);
      MemberStarts(members[0], if |members| == 1 then end else [44] + (MembersText(members[1..]) + end));
      MembersRead(members, 0, rest);
    }
  }

  lemma ObjectBegins(t: seq<byte>)
    ensures var s := SkipWs(t);
            ObjectAt(t) == if s != [] && s[0] == 125 then Got(VTable(map[]), s[1..]) else MembersAt(t, map[])
  {
    hide SkipWs, ValueAt, StringAt;
    SkipTwice(t);
  }

  lemma MembersSplit(members: seq<Member>, k: nat, rest: seq<byte>)
    requires k < |members|
    ensures MembersText(members[k..]) + rest
         == MemberText(members[k]) + if k + 1 == |members| then rest else [44] + (MembersText(members[k + 1..]) + rest)
  {
    hide MemberText;
    assert members[k..][1..] == members[k + 1..];
    if k + 1 == |members| {
      assert MemberText(members[k]) + [] == MemberText(members[k]);
    }
  }

  lemma MemberStarts(e: Member, rest: seq<byte>)
    requires ProperMember(e)
    ensures var s := SkipWs(MemberText(e) + rest);
            s != [] && s[0] == 34
  {
    hide Text, Proper;
    var s := StrText(e.key) + (e.mid + ([58] + Text(e.value)) + rest);
    assert MemberText(e) + rest == e.pre + s;
    GapSkipped(e.pre, s);
    NothingSkipped(s);
  }

  lemma KeyReads(e: Member, rest: seq<byte>)
    requires ProperMember(e)
    ensures KeyAt(MemberText(e) + rest) == Got(CharsMean(e.key), Text(e.value) + rest)
  {
    hide Text, Proper, SkipWs, StringAt, CharsText, CharsMean, ProperChars;
    var value := Text(e.value) + rest;
    var after := [58] + value;
    var tail := e.mid + after;
    var s := StrText(e.key) + tail;
    assert MemberText(e) + rest == e.pre + s;
    GapSkipped(e.pre, s);
    NothingSkipped(s);
    assert s[1..] == CharsText(e.key) + [34] + tail;
    StringReads(e.key, tail);
    GapSkipped(e.mid, after);
    NothingSkipped(after);
    assert after[1..] == value;
  }

  lemma MembersStep(s: seq<byte>, m: map<Scalar, Value>)
    requires KeyAt(s).Got? && ValueAt(KeyAt(s).rest).Got?
    ensures var v := ValueAt(KeyAt(s).rest);
            var after, next := SkipWs(v.rest), Set(m, Str(KeyAt(s).value), v.value);
            MembersAt(s, m)
            == if after != [] && after[0] == 44 then MembersAt(after[1..], next)
               else if after != [] && after[0] == 125 then Got(VTable(next), after[1..])
               else Fail(BadObject)
  {
    hide SkipWs, ValueAt, KeyAt;
  }

  lemma MemberSet(members: seq<Member>, k: nat)
    requires k < |members| && forall i :: 0 <= i < |members| ==> ProperMember(members[i])
    ensures var e := members[k];
            && ProperMember(e)
            && Set(MembersMean(members[..k]), Str(CharsMean(e.key)), Means(e.value)) == MembersMean(members[..k + 1])
  {
    hide Means, Proper, CharsMean;
    assert members[..k + 1][..k] == members[..k];
  }

  lemma {:induction false} MembersRead(members: seq<Member>, k: nat, rest: seq<byte>)
    requires k < |members| && forall i :: 0 <= i < |members| ==> ProperMember(members[i])
    ensures MembersAt(MembersText(members[k..]) + ([125] + rest), MembersMean(members[..k]))
         == Got(VTable(MembersMean(members)), rest)
    decreases members, |members| - k - 1
  {
    hide ValueAt, MembersAt, KeyAt, Text, Means, MembersText, MemberText, MembersMean, ProperBody, Set, SkipWs, CharsMean,
      ProperChars;
    var e := members[k];
    var d := e.value;
    var end := [125] + rest;
    var more := if k + 1 == |members| then end else [44] + (MembersText(members[k + 1..]) + end);
    MembersSplit(members, k, end);
    KeyReads(e, more);
    GapDelimits(d.post, more);
    DocReads(d, more);
    GapSkipped(d.post, more);
    NothingSkipped(more);
    MembersStep(MemberText(e) + more, MembersMean(members[..k]));
    MemberSet(members, k);
    if k + 1 == |members| {
      assert members[..k + 1] == members && more[1..] == rest;
    } else {
      assert more[1..] == MembersText(members[k + 1..]) + end;
      MembersRead(members, k + 1, rest);
    }
  }

  // ------------------------------------------------------------- what decodes, and no more

  lemma {:induction false} NumberRun(s: seq<byte>)
    ensures Delimited(s[NumberLength(s)..])
  {
    if s != [] && IsNumberByte(s[0]) {
      NumberRun(s[1..]);
      assert s[1..][NumberLength(s[1..])..] == s[NumberLength(s)..];
    }
  }

  lemma LiteralWritten(s: seq<byte>, text: seq<byte>, v: Value)
    requires text != [] && LiteralAt(s, text, v).Got?
    ensures s == text + LiteralAt(s, text, v).rest && LiteralAt(s, text, v).value == v
  {}

  /** What the first byte of a value, white space aside, says of the rest. */
  lemma Dispatch(s: seq<byte>)
    requires s != [] && s[0] !in {32, 9, 10, 13}
    ensures s[0] == 123 ==> ValueAt(s) == ObjectAt(s[1..])
    ensures s[0] == 91 ==> ValueAt(s) == ArrayAt(s[1..])
    ensures s[0] == 34 ==> ValueAt(s) == match StringAt(s[1..])
              case Fail(e) => Fail(e)
              case Got(t, rest) => Got(VOne(Str(t)), rest)
    ensures s[0] == 116 ==> ValueAt(s) == LiteralAt(s, [116, 114, 117, 101], VOne(Bool(true)))
    ensures s[0] == 102 ==> ValueAt(s) == LiteralAt(s, [102, 97, 108, 115, 101], VOne(Bool(false)))
    ensures s[0] == 110 ==> ValueAt(s) == LiteralAt(s, [110, 117, 108, 108], VNil)
    ensures s[0] == 45 || 48 <= s[0] <= 57 ==> ValueAt(s) == NumberAt(s)
    ensures s[0] !in {123, 91, 34, 116, 102, 110, 45} && !(48 <= s[0] <= 57) ==> ValueAt(s) == Fail(BadChar)
  {
    hide ObjectAt, ArrayAt, StringAt, LiteralAt, NumberAt;
    NothingSkipped(s);
  }

  lemma BodyWritten(s: seq<byte>) returns (b: Body)
    requires s != [] && s[0] !in {32, 9, 10, 13} && ValueAt(s).Got?
    ensures ProperBody(b) && Fits(b, ValueAt(s).rest) && s == BodyText(b) + ValueAt(s).rest
    ensures ValueAt(s).value == BodyMeans(b)
    decreases |s|, 1
  {
    hide ValueAt, ArrayAt, ObjectAt, StringAt, LiteralAt, NumberAt;
    Dispatch(s);
    if s[0] == 123 {
      b := ObjWritten(s[1..]);
      assert s == [123] + s[1..];
    } else if s[0] == 91 {
      b := ArrWritten(s[1..]);
      assert s == [91] + s[1..];
    } else if s[0] == 34 {
      var cs := StringWritten(s[1..]);
      b := Chars(cs);
      assert s == [34] + s[1..];
    } else if s[0] == 116 {
      LiteralWritten(s, [116, 114, 117, 101], VOne(Bool(true)));
      b := True;
    } else if s[0] == 102 {
      LiteralWritten(s, [102, 97, 108, 115, 101], VOne(Bool(false)));
      b := False;
    } else if s[0] == 110 {
      LiteralWritten(s, [110, 117, 108, 108], VNil);
      b := Null;
    } else {
      b := NumWritten(s);
    }
  }

  lemma NumWritten(s: seq<byte>) returns (b: Body)
    requires s != [] && (s[0] == 45 || 48 <= s[0] <= 57) && NumberAt(s).Got?
    ensures ProperBody(b) && Fits(b, NumberAt(s).rest) && s == BodyText(b) + NumberAt(s).rest
    ensures NumberAt(s).value == BodyMeans(b)
  {
    hide ParseI64;
    NumberRun(s);
    b := Num(s[..NumberLength(s)]);
    assert s == s[..NumberLength(s)] + s[NumberLength(s)..];
  }

  lemma DocWritten(s: seq<byte>) returns (d: Doc)
    requires ValueAt(s).Got?
    ensures Proper(d) && d.post == [] && Fits(d.body, ValueAt(s).rest) && s == Text(d) + ValueAt(s).rest
    ensures ValueAt(s).value == Means(d)
    decreases |s|, 2
  {
    hide ValueAt, BodyText, ProperBody, BodyMeans;
    var gap := GapWritten(s);
    ValueSkips(s);
    NoValue(s);
    var b := BodyWritten(SkipWs(s));
    d := Doc(gap, b, []);
    assert b == d.body && BodyText(b) + [] == BodyText(b);
    assert s == gap + BodyText(b) + ValueAt(s).rest;
  }

  lemma NoValue(s: seq<byte>)
    requires ValueAt(s).Got?
    ensures SkipWs(s) != []
  {
    hide ObjectAt, ArrayAt, StringAt, LiteralAt, NumberAt;
  }

  lemma ArrWritten(t: seq<byte>) returns (b: Body)
    requires ArrayAt(t).Got?
    ensures b.Arr? && ProperBody(b) && [91] + t == BodyText(b) + ArrayAt(t).rest && ArrayAt(t).value == BodyMeans(b)
    decreases |t|, 5
  {
    hide ArrayAt, ElementsAt, Proper, BodyText, BodyMeans, ProperBody, ItemsText, ItemsMean, SkipWs, IsGap;
    NoGap();
    ArrayBegins(t);
    NoItemsMean();
    var gap := GapWritten(t);
    var s := SkipWs(t);
    if s != [] && s[0] == 93 {
      b := Arr([], gap);
      Bracketed(91, gap, 93, s[1..], t);
      ArrIs([], gap);
    } else {
      var items := ItemsWritten(t, []);
      b := Arr(items, []);
      assert items[0..] == items;
      ArrIs(items, []);
      Bracketed(91, ItemsText(items), 93, ArrayAt(t).rest, t);
    }
  }

  lemma NoGap()
    ensures IsGap([])
  {}

  lemma Bracketed(open: byte, inner: seq<byte>, close: byte, rest: seq<byte>, t: seq<byte>)
    requires |t| >= |inner| && t[..|inner|] == inner && t[|inner|..] == [close] + rest
    ensures [open] + t == [open] + inner + [close] + rest
  {
    assert t == inner + ([close] + rest);
  }

  lemma NoItemsMean()
    ensures ItemsMean([]) == map[] && MembersMean([]) == map[]
  {}

  lemma ArrIs(items: seq<Doc>, gap: seq<byte>)
    requires IsGap(gap) && |items| < I64_LIMIT && forall i :: 0 <= i < |items| ==> Proper(items[i])
    ensures ProperBody(Arr(items, gap)) && BodyMeans(Arr(items, gap)) == VTable(ItemsMean(items))
    ensures BodyText(Arr(items, gap)) == [91] + (if items == [] then gap else ItemsText(items)) + [93]
  {
    hide ItemsText, ItemsMean, Proper;
  }

  lemma ObjIs(members: seq<Member>, gap: seq<byte>)
    requires IsGap(gap) && forall i :: 0 <= i < |members| ==> ProperMember(members[i])
    ensures ProperBody(Obj(members, gap)) && BodyMeans(Obj(members, gap)) == VTable(MembersMean(members))
    ensures BodyText(Obj(members, gap)) == [123] + (if members == [] then gap else MembersText(members)) + [125]
  {
    hide MembersText, MembersMean, ProperMember;
  }

  /** One document longer, and what its white space and separator leave. */
  lemma ItemWritten(s: seq<byte>) returns (d: Doc)
    requires ValueAt(s).Got?
    ensures var after := SkipWs(ValueAt(s).rest);
            Proper(d) && s == Text(d) + after && ValueAt(s).value == Means(d)
    decreases |s|, 3
  {
    hide ValueAt, BodyText, ProperBody, BodyMeans;
    d := DocWritten(s);
    var rest := ValueAt(s).rest;
    var gap := GapWritten(rest);
    assert s == d.pre + (BodyText(d.body) + []) + (gap + SkipWs(rest));
    d := Doc(d.pre, d.body, gap);
  }

  lemma AddItem(done: seq<Doc>, d: Doc)
    requires |done| + 1 < I64_LIMIT && Proper(d) && forall i :: 0 <= i < |done| ==> Proper(done[i])
    ensures forall i :: 0 <= i < |done + [d]| ==> Proper((done + [d])[i])
    ensures Set(ItemsMean(done), Int(|done| + 1), Means(d)) == ItemsMean(done + [d])
  {
    hide Means, Proper;
    assert (done + [d])[..|done|] == done;
  }

  lemma {:induction false} ItemsWritten(s: seq<byte>, done: seq<Doc>) returns (items: seq<Doc>)
    requires |done| < I64_LIMIT && forall i :: 0 <= i < |done| ==> Proper(done[i])
    requires ElementsAt(s, |done| + 1, ItemsMean(done)).Got?
    ensures |done| < |items| < I64_LIMIT && items[..|done|] == done
    ensures forall i :: 0 <= i < |items| ==> Proper(items[i])
    ensures var r := ElementsAt(s, |done| + 1, ItemsMean(done));
            s == ItemsText(items[|done|..]) + ([93] + r.rest) && r.value == VTable(ItemsMean(items))
    decreases |s|, 4
  {
    hide ValueAt, ElementsAt, Text, Proper, Means, ItemsText, ItemsMean, SkipWs, Set;
    var n, m := |done|, ItemsMean(done);
    ElementRead(s, n + 1, m);
    var d := ItemWritten(s);
    var after := SkipWs(ValueAt(s).rest);
    ElementsStep(s, n + 1, m);
    AddItem(done, d);
    if after[0] == 44 {
      items := ItemsWritten(after[1..], done + [d]);
      assert after == [44] + after[1..];
      assert items[..n] == items[..n + 1][..n] == done;
      assert items[n] == items[..n + 1][n] == d;
      ItemsSplit(items, n, [93] + ElementsAt(s, n + 1, m).rest);
    } else {
      items := done + [d];
      assert after == [93] + after[1..];
      ItemsSplit(items, n, after);
    }
  }

  lemma ElementRead(s: seq<byte>, i: nat, m: map<Scalar, Value>)
    requires ElementsAt(s, i, m).Got?
    ensures ValueAt(s).Got? && i < I64_LIMIT
  {
    hide ValueAt, SkipWs;
  }

  lemma ObjWritten(t: seq<byte>) returns (b: Body)
    requires ObjectAt(t).Got?
    ensures b.Obj? && ProperBody(b) && [123] + t == BodyText(b) + ObjectAt(t).rest && ObjectAt(t).value == BodyMeans(b)
    decreases |t|, 5
  {
    hide ObjectAt, MembersAt, ProperMember, BodyText, BodyMeans, ProperBody, MembersText, MembersMean, SkipWs, IsGap;
    NoGap();
    ObjectBegins(t);
    NoItemsMean();
    var gap := GapWritten(t);
    var s := SkipWs(t);
    if s != [] && s[0] == 125 {
      b := Obj([], gap);
      Bracketed(123, gap, 125, s[1..], t);
      ObjIs([], gap);
    } else {
      var members := MembersWritten(t, []);
      b := Obj(members, []);
      assert members[0..] == members;
      ObjIs(members, []);
      Bracketed(123, MembersText(members), 125, ObjectAt(t).rest, t);
    }
  }

  lemma AddMember(done: seq<Member>, e: Member)
    requires ProperMember(e) && forall i :: 0 <= i < |done| ==> ProperMember(done[i])
    ensures forall i :: 0 <= i < |done + [e]| ==> ProperMember((done + [e])[i])
    ensures Set(MembersMean(done), Str(CharsMean(e.key)), Means(e.value)) == MembersMean(done + [e])
  {
    hide Means, Proper, CharsMean;
    assert (done + [e])[..|done|] == done;
  }

  lemma MemberRead(s: seq<byte>, m: map<Scalar, Value>)
    requires MembersAt(s, m).Got?
    ensures KeyAt(s).Got? && ValueAt(KeyAt(s).rest).Got?
  {
    hide ValueAt, SkipWs, KeyAt;
  }

  lemma KeyWritten(s: seq<byte>) returns (pre: seq<byte>, key: seq<Chr>, mid: seq<byte>)
    requires KeyAt(s).Got?
    ensures IsGap(pre) && ProperChars(key) && IsGap(mid)
    ensures s == pre + (StrText(key) + (mid + ([58] + KeyAt(s).rest))) && KeyAt(s).value == CharsMean(key)
  {
    hide StringAt, CharsText, CharsMean, SkipWs;
    pre := GapWritten(s);
    var t := SkipWs(s);
    key := StringWritten(t[1..]);
    var rest := StringAt(t[1..]).rest;
    mid := GapWritten(rest);
    var after := SkipWs(rest);
    assert after == [58] + after[1..];
    assert t == [34] + t[1..];
    assert t == StrText(key) + rest;
  }

  lemma {:induction false} MembersWritten(s: seq<byte>, done: seq<Member>) returns (members: seq<Member>)
    requires forall i :: 0 <= i < |done| ==> ProperMember(done[i])
    requires MembersAt(s, MembersMean(done)).Got?
    ensures |done| < |members| && members[..|done|] == done
    ensures forall i :: 0 <= i < |members| ==> ProperMember(members[i])
    ensures var r := MembersAt(s, MembersMean(done));
            s == MembersText(members[|done|..]) + ([125] + r.rest) && r.value == VTable(MembersMean(members))
    decreases |s|, 4
  {
    hide ValueAt, KeyAt, MembersAt, Text, Proper, Means, MembersText, MembersMean, SkipWs, Set, StrText, CharsMean,
      ProperChars;
    var n, m := |done|, MembersMean(done);
    MemberRead(s, m);
    var pre, key, mid := KeyWritten(s);
    KeyShorter(s);
    var d := ItemWritten(KeyAt(s).rest);
    var e := Member(pre, key, mid, d);
    var after := SkipWs(ValueAt(KeyAt(s).rest).rest);
    assert s == MemberText(e) + after;
    MembersStep(s, m);
    AddMember(done, e);
    if after[0] == 44 {
      members := MembersWritten(after[1..], done + [e]);
      assert after == [44] + after[1..];
      assert members[..n] == members[..n + 1][..n] == done;
      assert members[n] == members[..n + 1][n] == e;
      MembersSplit(members, n, [125] + MembersAt(s, m).rest);
    } else {
      members := done + [e];
      assert after == [125] + after[1..];
      MembersSplit(members, n, after);
    }
  }

  lemma KeyShorter(s: seq<byte>)
    requires KeyAt(s).Got?
    ensures |KeyAt(s).rest| < |s|
  {}

  ghost predicate Writes(text: seq<byte>, v: Value) {
    exists d :: Proper(d) && Text(d) == text && Means(d) == v
  }

  /** A text decodes to a value exactly when it is a document for it, with white space wherever tokens meet. */
  lemma DecodesExactly(text: seq<byte>, v: Value)
    ensures Decoded(text) == Got(v, []) <==> Writes(text, v)
  {
    hide ValueAt, Text, Means, Proper;
    ValueSkips(text);
    if Decoded(text) == Got(v, []) {
      var d := ItemWritten(text);
      assert Text(d) + [] == Text(d);
    }
    if Writes(text, v) {
      var d :| Proper(d) && Text(d) == text && Means(d) == v;
      WholeReads(d);
    }
  }

  lemma WholeReads(d: Doc)
    requires Proper(d)
    ensures ValueAt(Text(d)) == Got(Means(d), d.post) && SkipWs(d.post) == []
  {
    hide ValueAt, Text, Means, ProperBody;
    assert d.post + [] == d.post && Text(d) + [] == Text(d);
    GapDelimits(d.post, []);
    DocReads(d, []);
    GapSkipped(d.post, []);
  }

  // ----------------------------------------------------------------------- printing

  const HEX: seq<byte> := [48, 49, 50, 51, 52, 53, 54, 55, 56, 57, 97, 98, 99, 100, 101, 102]

  /** The characters printed with a backslash, by their letter. */
  const LETTERS: map<byte, byte> := map[34 := 34, 92 := 92, 8 := 98, 12 := 102, 10 := 110, 13 := 114, 9 := 116]

  /** A letter where there is one, else `\u00XX` in lower case for a control character; any other byte stands. */
  lemma EscapesPrinted(c: byte)
    ensures Escaped(c) == if c in LETTERS then [92, LETTERS[c]]
                          else if c < 32 then [92, 117, 48, 48, HEX[c / 16], HEX[c % 16]]
                          else [c]
  {}

  /** Character by character, between quotes. */
  lemma {:induction false} StringPrinted(s: seq<byte>, c: byte)
    ensures Quoted(s) == [34] + EscapedAll(s) + [34]
    ensures EscapedAll([]) == [] && EscapedAll(s + [c]) == EscapedAll(s) + Escaped(c)
  {
    hide Escaped;
    if s == [] {
      assert [] + [c] == [c] && [c][1..] == [];
      assert EscapedAll([c]) == Escaped(c) + EscapedAll([]);
    } else {
      assert (s + [c])[0] == s[0] && (s + [c])[1..] == s[1..] + [c];
      StringPrinted(s[1..], c);
    }
  }

  function Listed(parts: seq<seq<byte>>): seq<byte>
    requires parts != []
  {
    parts[0] + if |parts| == 1 then [] else [44] + Listed(parts[1..])
  }

  lemma WordsPrinted(i: i64, s: seq<byte>)
    ensures Printed(Nil) == [110, 117, 108, 108]
    ensures Printed(One(Bool(true))) == [116, 114, 117, 101] && Printed(One(Bool(false))) == [102, 97, 108, 115, 101]
    ensures Printed(One(Int(i))) == Render(i) && Printed(One(Str(s))) == Quoted(s)
    ensures KeyText(Str(s)) == s && KeyText(Int(i)) == Render(i)
  {}

  /** Each value of an array stands at its own key's place. */
  predicate PlacedParts(h: Held, parts: seq<seq<byte>>)
    requires Printable(h) && ArrayShaped(h)
  {
    && |parts| == h.border
    && forall j :: 0 <= j < |h.pairs| ==> parts[h.pairs[j].0.i - 1] == Printed(h.pairs[j].1)
  }

  lemma {:induction false} ElementsListed(h: Held, i: nat, parts: seq<seq<byte>>)
    requires Printable(h) && ArrayShaped(h) && 1 <= i <= h.border && PlacedParts(h, parts)
    ensures Elements(h, i) == Listed(parts[i - 1..])
    decreases h.border - i
  {
    hide Printed;
    ArrayHasAll(h.pairs, h.border, i);
    var j := Place(h.pairs, Int(i));
    assert parts[h.pairs[j].0.i - 1] == parts[i - 1..][0];
    if i < h.border {
      ElementsListed(h, i + 1, parts);
      assert parts[i - 1..][1..] == parts[i..];
    }
  }

  /** A table whose keys are 1 up to its border prints as its values in that order, with commas and no space. */
  lemma ArrayPrinted(h: Held, parts: seq<seq<byte>>)
    requires Printable(h) && ArrayShaped(h) && h.pairs != [] && PlacedParts(h, parts)
    ensures Printed(h) == [91] + Listed(parts) + [93]
  {
    hide Elements;
    ElementsListed(h, 1, parts);
    assert parts[0..] == parts;
  }

  function MemberPrinted(h: Held, j: nat): seq<byte>
    requires Printable(h) && h.Table? && j < |h.pairs|
  {
    Quoted(KeyText(h.pairs[j].0)) + [58] + Printed(h.pairs[j].1)
  }

  lemma {:induction false} MembersListed(h: Held, k: nat, parts: seq<seq<byte>>)
    requires Printable(h) && h.Table? && k < |h.pairs| == |parts|
    requires forall j :: 0 <= j < |h.pairs| ==> parts[j] == MemberPrinted(h, j)
    ensures Members(h, k) == Listed(parts[k..])
    decreases |h.pairs| - k
  {
    hide Printed, Quoted;
    assert MemberPrinted(h, k) == parts[k..][0];
    if k + 1 < |h.pairs| {
      MembersListed(h, k + 1, parts);
      assert parts[k..][1..] == parts[k + 1..];
    }
  }

  /** Any other table prints as its pairs in the order they come; an empty one as an empty object. */
  lemma ObjectPrinted(h: Held, parts: seq<seq<byte>>)
    requires Printable(h) && h.Table? && |parts| == |h.pairs|
    requires forall j :: 0 <= j < |h.pairs| ==> parts[j] == MemberPrinted(h, j)
    ensures h.pairs == [] ==> Printed(h) == [123, 125]
    ensures h.pairs != [] && !IsArray(h.pairs, h.border) ==> Printed(h) == [123] + Listed(parts) + [125]
  {
    hide MemberPrinted, Members;
    if h.pairs != [] {
      MembersListed(h, 0, parts);
      assert parts[0..] == parts;
    }
  }
}
