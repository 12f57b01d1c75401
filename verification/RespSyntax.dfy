/** Commands by the text a client sends: which bytes mean which arguments. */
module RespSyntax {
  import opened Bytes
  import opened Decimal
  import opened Resp
  import Json

  // ------------------------------------------------------------------ inline words

  /** One character between quotes, as it is typed: itself, or after a backslash. */
  datatype Piece = Plain(b: byte) | Escaped(b: byte)

  /** An argument as it is typed: bare, or between single (39) or double (34) quotes. */
  datatype Word = Bare(text: seq<byte>) | Quoted(quote: byte, pieces: seq<Piece>)

  /** A line: words with blanks before each, and blanks after the last. */
  datatype Line = End(blanks: seq<byte>) | More(blanks: seq<byte>, word: Word, rest: Line)

  /** Space, tab, line feed, form feed and carriage return. */
  const BLANKS: set<byte> := {32, 9, 10, 12, 13}

  /** The letters n, r, t, b and a after a backslash; any other byte there stands for itself. */
  const ESCAPES: map<byte, byte> := map[110 := 10, 114 := 13, 116 := 9, 98 := 8, 97 := 7]

  predicate AllBlank(s: seq<byte>) {
    forall i :: 0 <= i < |s| ==> s[i] in BLANKS
  }

  predicate NoBlank(s: seq<byte>) {
    forall i :: 0 <= i < |s| ==> s[i] !in BLANKS
  }

  /** Between double quotes a backslash always escapes; between single ones only before the quote. */
  predicate ProperPieces(quote: byte, ps: seq<Piece>) {
    ps == []
    || ((match ps[0]
         case Plain(b) => b != quote && (b == 92 ==> quote == 39 && 1 < |ps|)
         case Escaped(b) => quote == 34 || b == 39)
        && ProperPieces(quote, ps[1..]))
  }

  function PieceText(p: Piece): (s: seq<byte>)
    ensures s != []
  {
    match p
    case Plain(b) => [b]
    case Escaped(b) => [92, b]
  }

  function PieceMeans(p: Piece): byte {
    if p.Escaped? && p.b in ESCAPES then ESCAPES[p.b] else p.b
  }

  function PiecesText(ps: seq<Piece>): seq<byte> {
    if ps == [] then [] else PieceText(ps[0]) + PiecesText(ps[1..])
  }

  function PiecesMean(ps: seq<Piece>): seq<byte> {
    if ps == [] then [] else [PieceMeans(ps[0])] + PiecesMean(ps[1..])
  }

  function WordText(w: Word): seq<byte> {
    match w
    case Bare(text) => text
    case Quoted(quote, pieces) => [quote] + PiecesText(pieces) + [quote]
  }

  function WordMeans(w: Word): seq<byte> {
    if w.Bare? then w.text else PiecesMean(w.pieces)
  }

  function LineText(l: Line): seq<byte> {
    match l
    case End(blanks) => blanks
    case More(blanks, word, rest) => blanks + (WordText(word) + LineText(rest))
  }

  function LineMeans(l: Line): Args {
    match l
    case End(_) => []
    case More(_, word, rest) => [WordMeans(word)] + LineMeans(rest)
  }

  /** A bare word runs up to the next blank; a quoted one ends at its quote, blank or not. */
  predicate ProperWord(w: Word, after: seq<byte>) {
    match w
    case Bare(text) =>
      && text != [] && NoBlank(text) && text[0] != 34 && text[0] != 39
      && (after == [] || after[0] in BLANKS)
    case Quoted(quote, pieces) => (quote == 34 || quote == 39) && ProperPieces(quote, pieces)
  }

  predicate ProperLine(l: Line) {
    match l
    case End(blanks) => AllBlank(blanks)
    case More(blanks, word, rest) => AllBlank(blanks) && ProperWord(word, LineText(rest)) && ProperLine(rest)
  }

  lemma BlankMeans(b: byte)
    ensures IsBlank(b) <==> b in BLANKS
  {}

  lemma EscapeMeans(b: byte)
    ensures PieceMeans(Escaped(b)) == Unescape(b)
  {}

  lemma {:induction false} PiecesRead(quote: byte, ps: seq<Piece>, rest: seq<byte>)
    requires (quote == 34 || quote == 39) && ProperPieces(quote, ps)
    ensures QuotedBy(PiecesText(ps) + [quote] + rest, quote) == Some((PiecesMean(ps), |PiecesText(ps)| + 1))
  {
    var s := PiecesText(ps) + [quote] + rest;
    if ps != [] {
      var tail := PiecesText(ps[1..]) + [quote] + rest;
      var n := |PieceText(ps[0])|;
      assert s == PieceText(ps[0]) + tail;
      assert s[n..] == tail;
      PiecesRead(quote, ps[1..], rest);
      if 1 < |ps| {
        NextStarts(quote, ps[1..], [quote] + rest);
        assert tail == PiecesText(ps[1..]) + ([quote] + rest);
      }
    }
  }

  lemma NextStarts(quote: byte, ps: seq<Piece>, rest: seq<byte>)
    requires (quote == 34 || quote == 39) && ProperPieces(quote, ps) && ps != []
    ensures (PiecesText(ps) + rest)[0] != quote
  {}

  function FirstPiece(quote: byte, s: seq<byte>): Piece
    requires s != []
  {
    if s[0] == 92 && 1 < |s| && (quote == 34 || s[1] == 39) then Escaped(s[1]) else Plain(s[0])
  }

  lemma PieceReads(quote: byte, s: seq<byte>)
    requires (quote == 34 || quote == 39) && s != [] && s[0] != quote
    ensures var p := FirstPiece(quote, s);
            var n := |PieceText(p)|;
            && n <= |s| && s[..n] == PieceText(p)
            && QuotedBy(s, quote) == Shifted([PieceMeans(p)], n, QuotedBy(s[n..], quote))
  {}

  lemma NothingOpen(quote: byte)
    requires quote == 34 || quote == 39
    ensures QuotedBy([], quote) == None
  {}

  lemma QuoteCloses(quote: byte, s: seq<byte>)
    requires (quote == 34 || quote == 39) && s != [] && s[0] == quote
    ensures QuotedBy(s, quote) == Some(([], 1))
  {}

  lemma QuotedFits(quote: byte, s: seq<byte>)
    requires QuotedBy(s, quote).Some?
    ensures QuotedBy(s, quote).value.1 <= |s|
  {}

  /** Whatever reads as quoted text was written so. */
  lemma {:induction false} PiecesWritten(quote: byte, s: seq<byte>) returns (ps: seq<Piece>)
    requires (quote == 34 || quote == 39) && QuotedBy(s, quote).Some?
    ensures var (text, used) := QuotedBy(s, quote).value;
            ProperPieces(quote, ps) && used <= |s| && s[..used] == PiecesText(ps) + [quote] && text == PiecesMean(ps)
    decreases |s|
  {
    hide QuotedBy, PieceText, PieceMeans;
    NothingOpen(quote);
    QuotedFits(quote, s);
    if s[0] == quote {
      QuoteCloses(quote, s);
      ps := [];
    } else {
      PieceReads(quote, s);
      var p := FirstPiece(quote, s);
      var n := |PieceText(p)|;
      var more := PiecesWritten(quote, s[n..]);
      var used := QuotedBy(s[n..], quote).value.1;
      ps := [p] + more;
      assert ps[1..] == more;
      assert s[..n + used] == s[..n] + s[n..][..used];
      assert s[n..] != [];
      BackslashEscapes(quote, s, n);
      assert more == [] ==> s[n..][..used][0] == quote;
    }
  }

  lemma BackslashEscapes(quote: byte, s: seq<byte>, n: nat)
    requires (quote == 34 || quote == 39) && s != [] && n == |PieceText(FirstPiece(quote, s))| < |s|
    ensures FirstPiece(quote, s) == Plain(92) ==> quote == 39 && s[n..][0] != quote
  {}

  lemma {:induction false} BareReads(text: seq<byte>, after: seq<byte>)
    requires NoBlank(text) && (after == [] || after[0] in BLANKS)
    ensures BareLength(text + after) == |text|
  {
    if text == [] {
      assert text + after == after;
    } else {
      assert (text + after)[1..] == text[1..] + after;
      BareReads(text[1..], after);
    }
  }

  lemma WordReads(w: Word, after: seq<byte>)
    requires ProperWord(w, after)
    ensures var s := WordText(w) + after;
            s != [] && !IsBlank(s[0]) && TokenAt(s) == Some((WordMeans(w), |WordText(w)|))
  {
    hide ProperPieces, PiecesText, PiecesMean;
    var s := WordText(w) + after;
    match w {
      case Bare(text) =>
        BareReads(text, after);
        assert s[..|text|] == text;
      case Quoted(quote, pieces) =>
        PiecesRead(quote, pieces, after);
        assert s[1..] == PiecesText(pieces) + [quote] + after;
    }
  }

  lemma {:induction false} SkipBlanks(blanks: seq<byte>, s: seq<byte>)
    requires AllBlank(blanks)
    ensures SplitLine(blanks + s) == SplitLine(s)
  {
    if blanks == [] {
      assert blanks + s == s;
    } else {
      assert (blanks + s)[1..] == blanks[1..] + s;
      SkipBlanks(blanks[1..], s);
    }
  }

  lemma {:induction false} LineSplits(l: Line)
    requires ProperLine(l)
    ensures SplitLine(LineText(l)) == Some(LineMeans(l))
  {
    hide TokenAt, ProperWord;
    match l {
      case End(blanks) =>
        assert blanks + [] == blanks;
        SkipBlanks(blanks, []);
      case More(blanks, word, rest) =>
        var s := WordText(word) + LineText(rest);
        SkipBlanks(blanks, s);
        WordReads(word, LineText(rest));
        assert s[|WordText(word)|..] == LineText(rest);
        LineSplits(rest);
    }
  }

  lemma {:induction false} BareStops(s: seq<byte>)
    ensures var n := BareLength(s);
            NoBlank(s[..n]) && (s[n..] == [] || s[n..][0] in BLANKS)
  {
    if s != [] && !IsBlank(s[0]) {
      BareStops(s[1..]);
      var n := BareLength(s[1..]);
      assert s[..n + 1] == [s[0]] + s[1..][..n];
      assert s[1..][n..] == s[n + 1..];
    }
  }

  lemma WordWritten(s: seq<byte>) returns (w: Word)
    requires s != [] && !IsBlank(s[0]) && TokenAt(s).Some?
    ensures var (arg, used) := TokenAt(s).value;
            WordText(w) == s[..used] && WordMeans(w) == arg && ProperWord(w, s[used..])
  {
    hide ProperPieces, PiecesText, PiecesMean;
    if s[0] == 34 || s[0] == 39 {
      var ps := PiecesWritten(s[0], s[1..]);
      w := Quoted(s[0], ps);
      var used := TokenAt(s).value.1;
      assert s[..used] == [s[0]] + s[1..][..used - 1];
    } else {
      BareStops(s);
      w := Bare(s[..BareLength(s)]);
    }
  }

  lemma {:induction false} LineWritten(s: seq<byte>) returns (l: Line)
    requires SplitLine(s).Some?
    ensures ProperLine(l) && LineText(l) == s && LineMeans(l) == SplitLine(s).value
    decreases |s|
  {
    hide TokenAt, ProperWord, WordText, WordMeans;
    if s == [] {
      l := End([]);
    } else if IsBlank(s[0]) {
      var more := LineWritten(s[1..]);
      l := Blanked(s[0], more);
      assert s == [s[0]] + s[1..];
    } else {
      var w := WordWritten(s);
      var used := TokenAt(s).value.1;
      var more := LineWritten(s[used..]);
      l := More([], w, more);
      assert s == s[..used] + s[used..];
      assert LineText(l) == s;
    }
  }

  /** The line with one more blank before it. */
  lemma Blanked(b: byte, l: Line) returns (r: Line)
    requires b in BLANKS && ProperLine(l)
    ensures ProperLine(r) && LineText(r) == [b] + LineText(l) && LineMeans(r) == LineMeans(l)
  {
    hide ProperWord, WordText, WordMeans;
    match l {
      case End(blanks) =>
        r := End([b] + blanks);
      case More(blanks, word, rest) =>
        r := More([b] + blanks, word, rest);
        assert [b] + blanks + (WordText(word) + LineText(rest)) == [b] + LineText(l);
    }
  }

  ghost predicate Means(s: seq<byte>, args: Args) {
    exists l :: ProperLine(l) && LineText(l) == s && LineMeans(l) == args
  }

  /** A line splits into some arguments exactly when it is written as words for them; the only other lines
      are those that leave a quote open. */
  lemma LineMeaning(s: seq<byte>, args: Args)
    ensures SplitLine(s) == Some(args) <==> Means(s, args)
  {
    if SplitLine(s) == Some(args) {
      var l := LineWritten(s);
    }
    if Means(s, args) {
      var l :| ProperLine(l) && LineText(l) == s && LineMeans(l) == args;
      LineSplits(l);
    }
  }

  /** Any other first byte than `*` starts an inline command, ended by LF or by CR and LF. */
  lemma InlineMeaning(line: seq<byte>, cr: bool, rest: seq<byte>, args: Args)
    requires 10 !in line && (line == [] || line[0] != 42)
    requires !cr ==> line == [] || line[|line| - 1] != 13
    ensures var end := if cr then [13, 10] else [10];
            && (Means(line, args) ==> Command(line + end + rest) == Done(args, |line| + |end|))
            && ((forall a :: !Means(line, a)) ==> Command(line + end + rest) == Protocol(UnbalancedQuotes))
  {
    hide SplitLine, Means, FindNewline;
    var end: seq<byte> := if cr then [13, 10] else [10];
    var all := line + if cr then [13] else [];
    var s := line + end + rest;
    assert s == all + [10] + rest;
    FirstNewline(all, rest);
    assert s[..|all|] == all;
    TrimsOne(line, cr);
    LineMeaning(line, args);
    if SplitLine(line).Some? {
      LineMeaning(line, SplitLine(line).value);
    }
  }

  lemma TrimsOne(line: seq<byte>, cr: bool)
    requires !cr ==> line == [] || line[|line| - 1] != 13
    ensures TrimCr(line + if cr then [13] else []) == line
  {
    assert line + [] == line;
  }

  // --------------------------------------------------------------- lengths as text

  /** Unicode white space. */
  predicate IsWhite(c: nat) {
    || 9 <= c <= 13 || c == 0x20 || c == 0x85 || c == 0xa0 || c == 0x1680 || 0x2000 <= c <= 0x200a
    || c == 0x2028 || c == 0x2029 || c == 0x202f || c == 0x205f || c == 0x3000
  }

  function Whites(cs: seq<nat>): seq<byte> {
    if cs == [] then [] else Json.Utf8(cs[0]) + Whites(cs[1..])
  }

  predicate AllWhite(cs: seq<nat>) {
    forall i :: 0 <= i < |cs| ==> IsWhite(cs[i])
  }

  /** No white space at either end. */
  ghost predicate IsTrimmed(t: seq<byte>) {
    forall c, u :: IsWhite(c) ==> t != Json.Utf8(c) + u && t != u + Json.Utf8(c)
  }

  lemma WhiteHead(c: nat, rest: seq<byte>)
    requires IsWhite(c)
    ensures 1 <= |Json.Utf8(c)| <= 3 && SpaceLength(Json.Utf8(c) + rest) == |Json.Utf8(c)|
  {}

  /** The character a space-like head is the UTF-8 of. */
  function WhiteAt(s: seq<byte>): (c: nat)
    requires SpaceLength(s) > 0
    ensures IsWhite(c) && Json.Utf8(c) == s[..SpaceLength(s)]
  {
    if SpaceLength(s) == 1 then s[0]
    else if SpaceLength(s) == 2 then s[1]
    else if s[0] == 0xe1 then 0x1680
    else if s[0] == 0xe2 && s[1] == 0x80 then (var low: int := s[2]; 0x2000 + low - 0x80)
    else if s[0] == 0xe2 then 0x205f
    else 0x3000
  }

  lemma {:induction false} TrimsFront(cs: seq<nat>, s: seq<byte>)
    requires AllWhite(cs) && SpaceLength(s) == 0
    ensures TrimStart(Whites(cs) + s) == s
  {
    hide SpaceLength;
    if cs == [] {
      assert [] + s == s;
    } else {
      var head, more := Json.Utf8(cs[0]), Whites(cs[1..]) + s;
      WhiteHead(cs[0], more);
      assert Whites(cs) + s == head + more;
      assert (head + more)[|head|..] == more;
      TrimsFront(cs[1..], s);
    }
  }

  lemma {:induction false} WhitesEnd(cs: seq<nat>, c: nat)
    ensures Whites(cs + [c]) == Whites(cs) + Json.Utf8(c)
  {
    hide Json.Utf8;
    if cs == [] {
      assert [] + [c] == [c] && [c][1..] == [];
    } else {
      assert (cs + [c])[0] == cs[0] && (cs + [c])[1..] == cs[1..] + [c];
      WhitesEnd(cs[1..], c);
    }
  }

  /** Bytes ending a text are cut off when they are white space and no fewer of them are. */
  lemma CutsOff(s: seq<byte>, w: seq<byte>)
    requires 1 <= |w| <= 3 && SpaceLength(w) == |w|
    requires |w| > 1 ==> SpaceLength(w[|w| - 1..]) != 1
    requires |w| > 2 ==> SpaceLength(w[1..]) != 2
    ensures TrimEnd(s + w) == TrimEnd(s)
  {
    hide SpaceLength, SpaceLengthEnd;
    var t := s + w;
    assert t[|s|..] == w && t[..|s|] == s;
    assert |w| > 1 ==> t[|t| - 1..] == w[|w| - 1..];
    assert |w| > 2 ==> t[|t| - 2..] == w[1..];
    CutLength(t, |w|);
  }

  lemma CutLength(t: seq<byte>, k: nat)
    requires 1 <= k <= 3 && k <= |t| && SpaceLength(t[|t| - k..]) == k
    requires k > 1 ==> SpaceLength(t[|t| - 1..]) != 1
    requires k > 2 ==> SpaceLength(t[|t| - 2..]) != 2
    ensures SpaceLengthEnd(t) == k
  {
    hide SpaceLength;
  }

  lemma OneOff(s: seq<byte>, c: nat)
    requires IsWhite(c)
    ensures TrimEnd(s + Json.Utf8(c)) == TrimEnd(s)
  {
    hide TrimEnd;
    WhiteWhole(c);
    CutsOff(s, Json.Utf8(c));
  }

  lemma WhiteWhole(c: nat)
    requires IsWhite(c)
    ensures var w := Json.Utf8(c);
            && 1 <= |w| <= 3 && SpaceLength(w) == |w|
            && (|w| > 1 ==> SpaceLength(w[|w| - 1..]) != 1)
            && (|w| > 2 ==> SpaceLength(w[1..]) != 2)
  {}

  lemma {:induction false} TrimsBack(t: seq<byte>, cs: seq<nat>)
    requires AllWhite(cs)
    ensures TrimEnd(t + Whites(cs)) == TrimEnd(t)
    decreases |cs|
  {
    hide TrimEnd, Json.Utf8;
    if cs == [] {
      assert t + [] == t;
    } else {
      var most, last := cs[..|cs| - 1], cs[|cs| - 1];
      assert cs == most + [last];
      WhitesEnd(most, last);
      assert t + Whites(cs) == (t + Whites(most)) + Json.Utf8(last);
      OneOff(t + Whites(most), last);
      TrimsBack(t, most);
    }
  }

  lemma WhiteInFront(t: seq<byte>)
    requires SpaceLength(t) > 0
    ensures !IsTrimmed(t)
  {
    var c := WhiteAt(t);
    assert t == Json.Utf8(c) + t[SpaceLength(t)..];
  }

  lemma WhiteBehind(t: seq<byte>, k: nat)
    requires 1 <= k <= |t| && SpaceLength(t[|t| - k..]) == k
    ensures !IsTrimmed(t)
  {
    hide SpaceLength, Json.Utf8;
    var c := WhiteAt(t[|t| - k..]);
    assert t[|t| - k..][..k] == t[|t| - k..];
    assert t == t[..|t| - k] + Json.Utf8(c);
  }

  lemma TrimmedStays(t: seq<byte>)
    requires IsTrimmed(t)
    ensures SpaceLength(t) == 0 && TrimEnd(t) == t
  {
    hide SpaceLength, IsTrimmed;
    if SpaceLength(t) > 0 {
      WhiteInFront(t);
    }
    if 1 <= |t| && SpaceLength(t[|t| - 1..]) == 1 {
      WhiteBehind(t, 1);
    }
    if 2 <= |t| && SpaceLength(t[|t| - 2..]) == 2 {
      WhiteBehind(t, 2);
    }
    if 3 <= |t| && SpaceLength(t[|t| - 3..]) == 3 {
      WhiteBehind(t, 3);
    }
  }

  lemma WhitesStart(cs: seq<nat>)
    requires AllWhite(cs) && cs != []
    ensures Whites(cs) != [] && !(0x80 <= Whites(cs)[0] < 0xc0)
  {}

  lemma NoneGrows(t: seq<byte>, s: seq<byte>)
    requires SpaceLength(t) == 0 && t != [] && s != [] && !(0x80 <= s[0] < 0xc0)
    ensures SpaceLength(t + s) == 0
  {}

  /** White space after a text that does not begin with any makes no white space of its head. */
  lemma NoneBefore(t: seq<byte>, cs: seq<nat>)
    requires SpaceLength(t) == 0 && t != [] && AllWhite(cs)
    ensures SpaceLength(t + Whites(cs)) == 0
  {
    if cs == [] {
      assert t + [] == t;
    } else {
      hide Whites, Json.Utf8;
      WhitesStart(cs);
      NoneGrows(t, Whites(cs));
    }
  }

  lemma {:induction false} WhitesJoin(a: seq<nat>, b: seq<nat>)
    ensures Whites(a + b) == Whites(a) + Whites(b)
  {
    hide Json.Utf8;
    if a == [] {
      assert a + b == b;
    } else {
      assert (a + b)[0] == a[0] && (a + b)[1..] == a[1..] + b;
      WhitesJoin(a[1..], b);
    }
  }

  lemma OnlyWhite(before: seq<nat>, after: seq<nat>)
    requires AllWhite(before) && AllWhite(after)
    ensures TrimEnd(TrimStart(Whites(before) + Whites(after))) == []
  {
    hide Whites;
    WhitesJoin(before, after);
    TrimsFront(before + after, []);
    assert Whites(before + after) + [] == Whites(before + after);
  }

  /** Around a count or length any Unicode white space may stand; what is left between must be a 64-bit number. */
  lemma LengthMeaning(before: seq<nat>, t: seq<byte>, after: seq<nat>)
    requires AllWhite(before) && AllWhite(after) && IsTrimmed(t)
    ensures LengthOf(Whites(before) + t + Whites(after)) == ParseI64(t)
  {
    hide SpaceLength, TrimStart, TrimEnd, IsTrimmed, Whites, ParseI64;
    TrimmedStays(t);
    var s := Whites(before) + t + Whites(after);
    assert s == Whites(before) + (t + Whites(after));
    if t == [] {
      OnlyWhite(before, after);
      assert t + Whites(after) == Whites(after);
    } else {
      NoneBefore(t, after);
      TrimsFront(before, t + Whites(after));
      TrimsBack(t, after);
    }
  }

  ghost predicate Around(before: seq<nat>, t: seq<byte>, after: seq<nat>, s: seq<byte>) {
    AllWhite(before) && AllWhite(after) && s == Whites(before) + t + Whites(after)
  }

  /** Nothing else is a length: every text is white space around a trimmed one. */
  lemma {:induction false} AnyLength(s: seq<byte>) returns (before: seq<nat>, t: seq<byte>, after: seq<nat>)
    ensures Around(before, t, after, s) && IsTrimmed(t)
    decreases |s|
  {
    hide SpaceLength, SpaceLengthEnd, IsTrimmed, Around;
    if SpaceLength(s) > 0 {
      before, t, after := AnyLength(s[SpaceLength(s)..]);
      before := FrontGrows(before, t, after, s);
    } else if SpaceLengthEnd(s) > 0 {
      before, t, after := AnyLength(s[..|s| - SpaceLengthEnd(s)]);
      after := BackGrows(before, t, after, s);
    } else {
      NoWhiteEnds(s);
      before, t, after := [], s, [];
      AlreadyTrimmed(s);
    }
  }

  lemma AlreadyTrimmed(s: seq<byte>)
    ensures Around([], s, [], s)
  {
    assert [] + s + [] == s;
  }

  lemma FrontGrows(before: seq<nat>, t: seq<byte>, after: seq<nat>, s: seq<byte>) returns (longer: seq<nat>)
    requires SpaceLength(s) > 0 && Around(before, t, after, s[SpaceLength(s)..])
    ensures Around(longer, t, after, s)
  {
    hide SpaceLength, Json.Utf8;
    var c := WhiteAt(s);
    longer := [c] + before;
    assert longer[1..] == before;
    assert s == s[..SpaceLength(s)] + s[SpaceLength(s)..];
    assert s == Whites(longer) + t + Whites(after);
  }

  lemma BackGrows(before: seq<nat>, t: seq<byte>, after: seq<nat>, s: seq<byte>) returns (longer: seq<nat>)
    requires SpaceLengthEnd(s) > 0 && Around(before, t, after, s[..|s| - SpaceLengthEnd(s)])
    ensures Around(before, t, longer, s)
  {
    hide SpaceLength, SpaceLengthEnd, Json.Utf8, Whites;
    var n := |s| - SpaceLengthEnd(s);
    EndIsWhite(s);
    var c := WhiteAt(s[n..]);
    longer := after + [c];
    WhitesEnd(after, c);
    assert s[n..][..|s| - n] == s[n..];
    assert s == s[..n] + s[n..];
    assert s == Whites(before) + t + Whites(longer);
  }

  lemma EndIsWhite(s: seq<byte>)
    requires SpaceLengthEnd(s) > 0
    ensures SpaceLength(s[|s| - SpaceLengthEnd(s)..]) == SpaceLengthEnd(s)
  {
    hide SpaceLength;
  }

  lemma NoWhiteEnds(t: seq<byte>)
    requires SpaceLength(t) == 0 && SpaceLengthEnd(t) == 0
    ensures IsTrimmed(t)
  {
    hide SpaceLength, SpaceLengthEnd, Json.Utf8;
    forall c, u | IsWhite(c)
      ensures t != Json.Utf8(c) + u && t != u + Json.Utf8(c)
    {
      WhiteHead(c, u);
      WhiteTail(u, c);
    }
  }

  lemma WhiteTail(s: seq<byte>, c: nat)
    requires IsWhite(c)
    ensures SpaceLengthEnd(s + Json.Utf8(c)) > 0
  {
    hide SpaceLength, SpaceLengthEnd, Json.Utf8;
    WhiteWhole(c);
    var w := Json.Utf8(c);
    var t := s + w;
    assert t[|s|..] == w;
    assert |w| > 1 ==> t[|t| - 1..] == w[|w| - 1..];
    assert |w| > 2 ==> t[|t| - 2..] == w[1..];
    CutLength(t, |w|);
  }

  // ------------------------------------------------------------- arrays as text

  predicate LineEnd(end: seq<byte>, line: seq<byte>) {
    10 !in line && (end == [13, 10] || (end == [10] && (line == [] || line[|line| - 1] != 13)))
  }

  lemma HeaderReads(marker: byte, line: seq<byte>, end: seq<byte>, rest: seq<byte>)
    requires marker != 10 && LineEnd(end, line)
    ensures var s := [marker] + line + end + rest;
            var n := |line| + |end|;
            FindNewline(s) == Some(n) && TrimCr(s[1..n]) == line && s[n + 1..] == rest
  {
    hide FindNewline;
    var cr := |end| == 2;
    var all := [marker] + line + if cr then [13] else [];
    var s := [marker] + line + end + rest;
    assert s == all + [10] + rest;
    FirstNewline(all, rest);
    assert s[1..|all|] == line + if cr then [13] else [];
    TrimsOne(line, cr);
  }

  /** A bulk string is `$`, a length, a line end, that many bytes, CR and LF; a negative length is an empty
      argument with nothing after its line. */
  lemma BulkMeaning(line: seq<byte>, end: seq<byte>, rest: seq<byte>)
    requires LineEnd(end, line)
    ensures var s, n, len := [36] + line + end + rest, 1 + |line| + |end|, LengthOf(line);
            && (len == None ==> BulkAt(s) == Protocol(BadLength))
            && (len.Some? && len.value < 0 ==> BulkAt(s) == Done([], n))
            && (len.Some? && 0 <= len.value ==>
                  BulkAt(s) == if |rest| < len.value + 2 then Incomplete
                               else if rest[len.value..len.value + 2] != [13, 10] then Protocol(MissingCrlf)
                               else Done(rest[..len.value], n + len.value + 2))
  {
    hide FindNewline, LengthOf, TrimCr;
    var s := [36] + line + end + rest;
    HeaderReads(36, line, end, rest);
    DataReads(s, 1 + |line| + |end|, rest, line);
  }

  /** What stands from `at` on, once the length is known. */
  lemma DataReads(s: seq<byte>, at: nat, rest: seq<byte>, line: seq<byte>)
    requires 0 < at <= |s| && s[0] == 36 && s[at..] == rest
    requires FindNewline(s) == Some(at - 1) && TrimCr(s[1..at - 1]) == line
    ensures var len := LengthOf(line);
            && (len == None ==> BulkAt(s) == Protocol(BadLength))
            && (len.Some? && len.value < 0 ==> BulkAt(s) == Done([], at))
            && (len.Some? && 0 <= len.value ==>
                  BulkAt(s) == if |rest| < len.value + 2 then Incomplete
                               else if rest[len.value..len.value + 2] != [13, 10] then Protocol(MissingCrlf)
                               else Done(rest[..len.value], at + len.value + 2))
  {
    hide FindNewline, LengthOf, TrimCr;
    var len := LengthOf(line);
    if len.Some? && 0 <= len.value && len.value + 2 <= |rest| {
      DataWhole(s, at, rest, len.value);
    }
  }

  lemma DataWhole(s: seq<byte>, at: nat, rest: seq<byte>, n: nat)
    requires at <= |s| && s[at..] == rest && n + 2 <= |rest|
    ensures s[at..at + n] == rest[..n] && |s| == at + |rest|
    ensures (s[at + n] == 13 && s[at + n + 1] == 10) <==> rest[n..n + 2] == [13, 10]
  {
    SliceOfTail(s, at, rest, n);
    assert s[at + n] == rest[n] && s[at + n + 1] == rest[n + 1];
    assert rest[n..n + 2] == [rest[n], rest[n + 1]];
  }

  /** Before its line has ended nothing is known, except that it must begin with `$`. */
  lemma BulkStarts(s: seq<byte>)
    ensures s == [] || (s[0] == 36 && 10 !in s) ==> BulkAt(s) == Incomplete
    ensures s != [] && s[0] != 36 ==> BulkAt(s) == Protocol(ExpectedDollar(s[0]))
  {
    hide FindNewline, LengthOf;
  }

  /** Bulk strings are read one after another until there are enough; the first that cannot be decides. */
  lemma {:induction false} BulksMeaning(bulks: seq<seq<byte>>, args: Args, rest: seq<byte>, n: nat)
    requires |bulks| == |args| <= n
    requires forall i :: 0 <= i < |bulks| ==> BulkAt(bulks[i]) == Done(args[i], |bulks[i]|)
    ensures var r := BulksAt(Concat(bulks) + rest, n);
            if n == |bulks| then r == Done(args, |Concat(bulks)|)
            else match BulkAt(rest)
              case Incomplete => r == Incomplete
              case Protocol(e) => r == Protocol(e)
              case Done(_, _) => true
    decreases |bulks|
  {
    hide BulkAt;
    if bulks == [] {
      assert Concat(bulks) + rest == rest;
    } else {
      var mine, others := bulks[0], Concat(bulks[1..]) + rest;
      assert Concat(bulks) + rest == mine + others;
      BulkStable(mine, others);
      assert (mine + others)[|mine|..] == others;
      BulksMeaning(bulks[1..], args[1..], rest, n - 1);
      assert [args[0]] + args[1..] == args;
    }
  }

  /** An array is `*`, a count and a line end, then that many bulk strings; none for a count of zero or less. */
  lemma ArrayMeaning(line: seq<byte>, end: seq<byte>, bulks: seq<seq<byte>>, args: Args, rest: seq<byte>)
    requires LineEnd(end, line) && |bulks| == |args|
    requires forall i :: 0 <= i < |bulks| ==> BulkAt(bulks[i]) == Done(args[i], |bulks[i]|)
    ensures var s, n, count := [42] + line + end + (Concat(bulks) + rest), 1 + |line| + |end|, LengthOf(line);
            && (count == None ==> Command(s) == Protocol(BadLength))
            && (count.Some? && count.value <= 0 ==> Command(s) == Done([], n))
            && (count == Some(|bulks|) ==> Command(s) == Done(args, n + |Concat(bulks)|))
            && (count.Some? && |bulks| < count.value && BulkAt(rest) == Incomplete ==> Command(s) == Incomplete)
            && (count.Some? && |bulks| < count.value && BulkAt(rest).Protocol? ==>
                  Command(s) == Protocol(BulkAt(rest).error))
  {
    hide FindNewline, LengthOf, TrimCr, BulkAt, BulksAt, Concat;
    var tail := Concat(bulks) + rest;
    HeaderReads(42, line, end, tail);
    var count := LengthOf(line);
    if count.Some? && |bulks| <= count.value {
      BulksMeaning(bulks, args, rest, count.value);
    }
    if bulks == [] && count == Some(0) {
      NoBulks();
    }
  }

  lemma NoBulks()
    ensures Concat([]) == []
  {}

  /** A connection runs its commands in the order they stand in its input, stops after the first that closes it,
      and otherwise keeps what is not yet a command, or fails on what cannot become one. */
  lemma {:induction false} RunsInOrder(closes: Closes, done: seq<Args>, texts: seq<seq<byte>>, args: seq<Args>, rest: seq<byte>)
    requires |texts| == |args| && forall i :: 0 <= i < |texts| ==> Command(texts[i]) == Done(args[i], |texts[i]|)
    requires forall n :: 1 <= n < |args| ==> !closes(done + args[..n])
    ensures args != [] && closes(done + args) ==>
              Drain(closes, done, Concat(texts) + rest) == Input(done + args, rest, Quit)
    ensures (args == [] || !closes(done + args)) && Command(rest).Incomplete? ==>
              Drain(closes, done, Concat(texts) + rest) == Input(done + args, rest, Open)
    ensures (args == [] || !closes(done + args)) && Command(rest).Protocol? ==>
              Drain(closes, done, Concat(texts) + rest) == Input(done + args, rest, Failed(Command(rest).error))
    decreases |texts|
  {
    hide Command;
    if texts == [] {
      assert Concat(texts) + rest == rest && done + args == done;
    } else {
      var others := Concat(texts[1..]) + rest;
      assert Concat(texts) + rest == texts[0] + others;
      CommandStable(texts[0], others);
      assert (texts[0] + others)[|texts[0]|..] == others;
      assert args[..1] == [args[0]];
      if |texts| == 1 {
        assert args == [args[0]] && others == rest;
        NothingMore(closes, done + args, rest);
      } else {
        forall n | 1 <= n < |args| - 1
          ensures !closes(done + [args[0]] + args[1..][..n])
        {
          assert done + [args[0]] + args[1..][..n] == done + args[..n + 1];
        }
        RunsInOrder(closes, done + [args[0]], texts[1..], args[1..], rest);
        assert done + [args[0]] + args[1..] == done + args;
      }
    }
  }

  lemma NothingMore(closes: Closes, done: seq<Args>, rest: seq<byte>)
    ensures Command(rest).Incomplete? ==> Drain(closes, done, rest) == Input(done, rest, Open)
    ensures Command(rest).Protocol? ==> Drain(closes, done, rest) == Input(done, rest, Failed(Command(rest).error))
  {
    hide Command;
  }

  lemma UnendedLine(s: seq<byte>)
    requires 10 !in s
    ensures Command(s) == Incomplete
  {
    hide LengthOf, SplitLine, BulksAt;
  }

  // ---------------------------------------------------------------- arrays as sent

  /** The bytes of an array of bulk strings: lengths in decimal, every line ended by CR and LF. */
  lemma {:induction false} ArrayForm(args: Args, more: Args, arg: seq<byte>)
    ensures ArrayCode(args) == [42] + Digits(|args|) + [13, 10] + BulksCode(args)
    ensures BulksCode([]) == [] && BulksCode(args + more) == BulksCode(args) + BulksCode(more)
    ensures BulksCode([arg]) == [36] + Digits(|arg|) + [13, 10] + arg + [13, 10]
    decreases args
  {
    hide BulkCode, Digits;
    if args == [] {
      assert args + more == more;
    } else {
      assert (args + more)[0] == args[0] && (args + more)[1..] == args[1..] + more;
      ArrayForm(args[1..], more, arg);
    }
    OneBulk(arg);
  }

  lemma OneBulk(arg: seq<byte>)
    ensures BulksCode([arg]) == [36] + Digits(|arg|) + [13, 10] + arg + [13, 10]
  {
    hide Digits;
    assert [arg][1..] == [];
    assert BulkCode(arg) + [] == BulkCode(arg);
  }
}
