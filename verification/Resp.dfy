/** The incremental command parser and the loop that feeds it. */
module Resp {
  import opened Bytes
  import opened Decimal

  const LF: byte := 10
  const CR: byte := 13
  const STARBYTE: byte := 42
  const DOLLAR: byte := 36
  const QUOTE: byte := 34
  const APOSTROPHE: byte := 39
  const BACKSLASH: byte := 92
  const SPACE: byte := 32

  datatype ProtocolError = BadLength | ExpectedDollar(got: byte) | MissingCrlf | UnbalancedQuotes

  /** What a buffer's head holds: arguments and the bytes they took, too little to tell, or garbage. */
  datatype Parsed<+T> = Done(value: T, used: nat) | Incomplete | Protocol(error: ProtocolError)

  type Args = seq<seq<byte>>

  // ----------------------------------------------------------------- lengths

  function FindNewline(s: seq<byte>): (r: Option<nat>)
    ensures r.Some? ==> r.value < |s| && s[r.value] == LF
    ensures forall i :: 0 <= i < (if r.Some? then r.value else |s|) ==> s[i] != LF
  {
    if s == [] then None
    else if s[0] == LF then Some(0)
    else match FindNewline(s[1..])
      case None => None
      case Some(i) => Some(i + 1)
  }

  function TrimCr(line: seq<byte>): seq<byte> {
    if line != [] && line[|line| - 1] == CR then line[..|line| - 1] else line
  }

  /** The bytes a Unicode whitespace character takes at the head of `s`, zero if none stands there. */
  function SpaceLength(s: seq<byte>): (n: nat)
    ensures n <= |s|
  {
    if s == [] then 0
    else if 9 <= s[0] <= 13 || s[0] == SPACE then 1
    else if 2 <= |s| && s[0] == 0xc2 && (s[1] == 0x85 || s[1] == 0xa0) then 2
    else if 3 <= |s| && s[0] == 0xe1 && s[1] == 0x9a && s[2] == 0x80 then 3
    else if 3 <= |s| && s[0] == 0xe2 && s[1] == 0x80
            && (0x80 <= s[2] <= 0x8a || s[2] == 0xa8 || s[2] == 0xa9 || s[2] == 0xaf) then 3
    else if 3 <= |s| && s[0] == 0xe2 && s[1] == 0x81 && s[2] == 0x9f then 3
    else if 3 <= |s| && s[0] == 0xe3 && s[1] == 0x80 && s[2] == 0x80 then 3
    else 0
  }

  function TrimStart(s: seq<byte>): seq<byte> {
    if SpaceLength(s) == 0 then s else TrimStart(s[SpaceLength(s)..])
  }

  /** The bytes of the whitespace character that ends `s`, zero if none does. */
  function SpaceLengthEnd(s: seq<byte>): (n: nat)
    ensures n <= |s|
  {
    if 1 <= |s| && SpaceLength(s[|s| - 1..]) == 1 then 1
    else if 2 <= |s| && SpaceLength(s[|s| - 2..]) == 2 then 2
    else if 3 <= |s| && SpaceLength(s[|s| - 3..]) == 3 then 3
    else 0
  }

  function TrimEnd(s: seq<byte>): seq<byte> {
    if SpaceLengthEnd(s) == 0 then s else TrimEnd(s[..|s| - SpaceLengthEnd(s)])
  }

  /** A count or length: decimal, with whitespace around it allowed. */
  function LengthOf(s: seq<byte>): Option<i64> {
    ParseI64(TrimEnd(TrimStart(s)))
  }

  // ------------------------------------------------------- arrays of bulk strings

  /** One bulk string; a negative length stands for an empty argument with no data after it. */
  function BulkAt(s: seq<byte>): (r: Parsed<seq<byte>>)
    ensures r.Done? ==> 0 < r.used <= |s|
  {
    if s == [] then Incomplete
    else if s[0] != DOLLAR then Protocol(ExpectedDollar(s[0]))
    else match FindNewline(s)
      case None => Incomplete
      case Some(nl) =>
        match LengthOf(TrimCr(s[1..nl]))
        case None => Protocol(BadLength)
        case Some(len) =>
          var at := nl + 1;
          if len < 0 then Done([], at)
          else if |s| < at + len + 2 then Incomplete
          else if s[at + len] != CR || s[at + len + 1] != LF then Protocol(MissingCrlf)
          else Done(s[at..at + len], at + len + 2)
  }

  function BulksAt(s: seq<byte>, n: nat): (r: Parsed<Args>)
    ensures r.Done? ==> r.used <= |s|
    decreases n
  {
    if n == 0 then Done([], 0)
    else match BulkAt(s)
      case Incomplete => Incomplete
      case Protocol(e) => Protocol(e)
      case Done(arg, a) =>
        match BulksAt(s[a..], n - 1)
        case Incomplete => Incomplete
        case Protocol(e) => Protocol(e)
        case Done(rest, b) => Done([arg] + rest, a + b)
  }

  function ArrayAt(s: seq<byte>): (r: Parsed<Args>)
    requires s != [] && s[0] == STARBYTE
    ensures r.Done? ==> 0 < r.used <= |s|
  {
    match FindNewline(s)
    case None => Incomplete
    case Some(nl) =>
      match LengthOf(TrimCr(s[1..nl]))
      case None => Protocol(BadLength)
      case Some(count) =>
        if count <= 0 then Done([], nl + 1)
        else match BulksAt(s[nl + 1..], count)
          case Incomplete => Incomplete
          case Protocol(e) => Protocol(e)
          case Done(args, used) => Done(args, nl + 1 + used)
  }

  // ---------------------------------------------------------------- inline lines

  predicate IsBlank(b: byte) {
    b == SPACE || b == 9 || b == LF || b == 12 || b == CR
  }

  function Unescape(b: byte): byte {
    if b == 110 then LF else if b == 114 then CR else if b == 116 then 9 else if b == 98 then 8
    else if b == 97 then 7 else b
  }

  /** The text up to the closing double quote and the bytes used, the quote included. */
  function DoubleQuoted(s: seq<byte>): (r: Option<(seq<byte>, nat)>)
    ensures r.Some? ==> 0 < r.value.1 <= |s|
  {
    if s == [] then None
    else if s[0] == QUOTE then Some(([], 1))
    else
      var (c, n) := if s[0] == BACKSLASH && 1 < |s| then (Unescape(s[1]), 2) else (s[0], 1);
      match DoubleQuoted(s[n..])
      case None => None
      case Some((text, used)) => Some(([c] + text, n + used))
  }

  function SingleQuoted(s: seq<byte>): (r: Option<(seq<byte>, nat)>)
    ensures r.Some? ==> 0 < r.value.1 <= |s|
  {
    if s == [] then None
    else if s[0] == APOSTROPHE then Some(([], 1))
    else
      var (c, n) := if s[0] == BACKSLASH && 1 < |s| && s[1] == APOSTROPHE then (APOSTROPHE, 2) else (s[0], 1);
      match SingleQuoted(s[n..])
      case None => None
      case Some((text, used)) => Some(([c] + text, n + used))
  }

  function BareLength(s: seq<byte>): (n: nat)
    ensures n <= |s|
  {
    if s == [] || IsBlank(s[0]) then 0 else 1 + BareLength(s[1..])
  }

  /** The argument at the head of `s`. */
  function TokenAt(s: seq<byte>): (r: Option<(seq<byte>, nat)>)
    requires s != [] && !IsBlank(s[0])
    ensures r.Some? ==> 0 < r.value.1 <= |s|
  {
    if s[0] == QUOTE || s[0] == APOSTROPHE then
      match if s[0] == QUOTE then DoubleQuoted(s[1..]) else SingleQuoted(s[1..])
      case None => None
      case Some((text, used)) => Some((text, 1 + used))
    else Some((s[..BareLength(s)], BareLength(s)))
  }

  /** The arguments of a line, `None` when a quote is left open. */
  function SplitLine(s: seq<byte>): Option<Args>
    decreases |s|
  {
    if s == [] then Some([])
    else if IsBlank(s[0]) then SplitLine(s[1..])
    else match TokenAt(s)
      case None => None
      case Some((arg, used)) =>
        match SplitLine(s[used..])
        case None => None
        case Some(rest) => Some([arg] + rest)
  }

  function InlineAt(s: seq<byte>): (r: Parsed<Args>)
    ensures r.Done? ==> 0 < r.used <= |s|
  {
    match FindNewline(s)
    case None => Incomplete
    case Some(nl) =>
      match SplitLine(TrimCr(s[..nl]))
      case None => Protocol(UnbalancedQuotes)
      case Some(args) => Done(args, nl + 1)
  }

  // --------------------------------------------------------------- one command

  function Command(s: seq<byte>): (r: Parsed<Args>)
    ensures r.Done? ==> 0 < r.used <= |s|
  {
    if s == [] then Incomplete
    else if s[0] == STARBYTE then ArrayAt(s)
    else InlineAt(s)
  }

  // ------------------------------------------------------------- the program

  /** Arguments gathered so far, followed by what `r` finds `at` bytes in. */
  function After(args: Args, at: nat, r: Parsed<Args>): Parsed<Args> {
    match r
    case Incomplete => Incomplete
    case Protocol(e) => Protocol(e)
    case Done(rest, used) => Done(args + rest, at + used)
  }

  lemma BulksStep(args: Args, s: seq<byte>, at: nat, left: nat)
    requires at <= |s| && left > 0
    ensures After(args, at, BulksAt(s[at..], left)) == match BulkAt(s[at..])
              case Incomplete => Incomplete
              case Protocol(e) => Protocol(e)
              case Done(arg, used) => After(args + [arg], at + used, BulksAt(s[at + used..], left - 1))
  {
    hide BulkAt;
    var r := BulkAt(s[at..]);
    if r.Done? {
      assert s[at..][r.used..] == s[at + r.used..];
      var more := BulksAt(s[at + r.used..], left - 1);
      if more.Done? {
        assert (args + [r.value]) + more.value == args + ([r.value] + more.value);
      }
    }
  }

  lemma AfterNothing(at: nat, r: Parsed<Args>)
    ensures After([], at, r) == match r
              case Incomplete => Incomplete
              case Protocol(e) => Protocol(e)
              case Done(args, used) => Done(args, at + used)
  {
    if r.Done? {
      assert [] + r.value == r.value;
    }
  }

  method ParseArray(buf: seq<byte>) returns (r: Parsed<Args>)
    requires buf != [] && buf[0] == STARBYTE
    ensures r == ArrayAt(buf)
  {
    hide BulksAt, LengthOf;
    var nl := FindNewline(buf);
    if nl.None? {
      return Incomplete;
    }
    var count := LengthOf(TrimCr(buf[1..nl.value]));
    if count.None? {
      return Protocol(BadLength);
    }
    var pos := nl.value + 1;
    if count.value <= 0 {
      return Done([], pos);
    }
    var args: Args := [];
    AfterNothing(pos, BulksAt(buf[pos..], count.value));
    for k := 0 to count.value
      invariant pos <= |buf|
      invariant ArrayAt(buf) == After(args, pos, BulksAt(buf[pos..], count.value - k))
    {
      BulksStep(args, buf, pos, count.value - k);
      var arg := ParseBulk(buf, pos);
      match arg {
        case Incomplete => return Incomplete;
        case Protocol(e) => return Protocol(e);
        case Done(data, used) =>
          args := args + [data];
          pos := pos + used;
      }
    }
    BulksDone(args, buf, pos);
    return Done(args, pos);
  }

  lemma BulksDone(args: Args, s: seq<byte>, at: nat)
    requires at <= |s|
    ensures After(args, at, BulksAt(s[at..], 0)) == Done(args, at)
  {
    assert args + [] == args;
  }

  /** One turn of the array loop, by absolute position. */
  method ParseBulk(buf: seq<byte>, start: nat) returns (r: Parsed<seq<byte>>)
    requires start <= |buf|
    ensures r == BulkAt(buf[start..])
  {
    hide LengthOf, FindNewline;
    ghost var s := buf[start..];
    var pos := start;
    if pos >= |buf| {
      return Incomplete;
    }
    if buf[pos] != DOLLAR {
      return Protocol(ExpectedDollar(buf[pos]));
    }
    var nl := FindNewline(buf[pos..]);
    if nl.None? {
      return Incomplete;
    }
    assert buf[pos + 1..pos + nl.value] == s[1..nl.value];
    var len := LengthOf(TrimCr(buf[pos + 1..pos + nl.value]));
    if len.None? {
      return Protocol(BadLength);
    }
    pos := pos + nl.value + 1;
    if len.value < 0 {
      return Done([], pos - start);
    }
    if |buf| < pos + len.value + 2 {
      return Incomplete;
    }
    var data := buf[pos..pos + len.value];
    assert data == s[pos - start..pos - start + len.value];
    pos := pos + len.value;
    if buf[pos] != CR || buf[pos + 1] != LF {
      return Protocol(MissingCrlf);
    }
    pos := pos + 2;
    return Done(data, pos - start);
  }

  method SplitInline(line: seq<byte>) returns (r: Option<Args>)
    ensures r == SplitLine(line)
  {
    hide TokenAt;
    var args: Args := [];
    var i := 0;
    assert line[0..] == line;
    JoinNothing(SplitLine(line));
    while i < |line|
      invariant i <= |line|
      invariant SplitLine(line) == Join(args, SplitLine(line[i..]))
    {
      while i < |line| && IsBlank(line[i])
        invariant i <= |line|
        invariant SplitLine(line) == Join(args, SplitLine(line[i..]))
      {
        assert line[i..][1..] == line[i + 1..];
        i := i + 1;
      }
      if i >= |line| {
        break;
      }
      JoinStep(args, line, i);
      var token := Token(line, i);
      if token.None? {
        return None;
      }
      args := args + [token.value.0];
      i := i + token.value.1;
    }
    assert line[i..] == [] && args + [] == args;
    return Some(args);
  }

  function Join(args: Args, rest: Option<Args>): Option<Args> {
    match rest
    case None => None
    case Some(more) => Some(args + more)
  }

  lemma JoinNothing(r: Option<Args>)
    ensures Join([], r) == r
  {
    if r.Some? {
      assert [] + r.value == r.value;
    }
  }

  lemma JoinStep(args: Args, line: seq<byte>, i: nat)
    requires i < |line| && !IsBlank(line[i])
    ensures Join(args, SplitLine(line[i..])) == match TokenAt(line[i..])
              case None => None
              case Some((arg, used)) => Join(args + [arg], SplitLine(line[i + used..]))
  {
    hide TokenAt;
    var token := TokenAt(line[i..]);
    if token.Some? {
      var (arg, used) := token.value;
      assert line[i..][used..] == line[i + used..];
      var rest := SplitLine(line[i + used..]);
      if rest.Some? {
        assert (args + [arg]) + rest.value == args + ([arg] + rest.value);
      }
    }
  }

  /** One argument, read in place: quoted with either quote, or bare. */
  method Token(line: seq<byte>, start: nat) returns (r: Option<(seq<byte>, nat)>)
    requires start < |line| && !IsBlank(line[start])
    ensures r == TokenAt(line[start..])
  {
    var i := start;
    if line[i] == QUOTE || line[i] == APOSTROPHE {
      var quote := line[i];
      assert line[start..][1..] == line[i + 1..];
      var text := Quoted(line, i + 1, quote);
      if text.None? {
        return None;
      }
      return Some((text.value.0, 1 + text.value.1));
    }
    var cur: seq<byte> := [];
    ghost var n := BareLength(line[start..]);
    while i < |line| && !IsBlank(line[i])
      invariant start <= i <= |line|
      invariant cur == line[start..i] && n == i - start + BareLength(line[i..])
    {
      assert line[i..][1..] == line[i + 1..];
      cur := cur + [line[i]];
      i := i + 1;
    }
    assert line[start..][..n] == line[start..i];
    return Some((cur, i - start));
  }

  method Quoted(line: seq<byte>, start: nat, quote: byte) returns (r: Option<(seq<byte>, nat)>)
    requires start <= |line| && (quote == QUOTE || quote == APOSTROPHE)
    ensures r == QuotedBy(line[start..], quote)
  {
    hide QuotedBy, Shifted;
    var i := start;
    var cur: seq<byte> := [];
    ghost var whole := QuotedBy(line[start..], quote);
    QuotedNothing(whole);
    while true
      invariant start <= i <= |line|
      invariant whole == Shifted(cur, i - start, QuotedBy(line[i..], quote))
      decreases |line| - i
    {
      ShiftedEnd(cur, i - start, line[i..], quote);
      if i >= |line| {
        return None;
      }
      if line[i] == quote {
        i := i + 1;
        return Some((cur, i - start));
      }
      ShiftedStep(cur, i - start, line[i..], quote);
      ghost var at := i;
      if quote == QUOTE && line[i] == BACKSLASH && i + 1 < |line| {
        i := i + 1;
        cur := cur + [Unescape(line[i])];
        i := i + 1;
      } else if quote == APOSTROPHE && line[i] == BACKSLASH && i + 1 < |line| && line[i + 1] == APOSTROPHE {
        cur := cur + [APOSTROPHE];
        i := i + 2;
      } else {
        cur := cur + [line[i]];
        i := i + 1;
      }
      assert line[at..][i - at..] == line[i..];
    }
  }

  lemma ShiftedEnd(cur: seq<byte>, n: nat, s: seq<byte>, quote: byte)
    ensures s == [] ==> Shifted(cur, n, QuotedBy(s, quote)) == None
    ensures s != [] && s[0] == quote && (quote == QUOTE || quote == APOSTROPHE)
            ==> Shifted(cur, n, QuotedBy(s, quote)) == Some((cur, n + 1))
  {
    assert cur + [] == cur;
  }

  function QuotedBy(s: seq<byte>, quote: byte): Option<(seq<byte>, nat)> {
    if quote == QUOTE then DoubleQuoted(s) else SingleQuoted(s)
  }

  function Shifted(cur: seq<byte>, n: nat, r: Option<(seq<byte>, nat)>): Option<(seq<byte>, nat)> {
    match r
    case None => None
    case Some((text, used)) => Some((cur + text, n + used))
  }

  lemma QuotedNothing(r: Option<(seq<byte>, nat)>)
    ensures Shifted([], 0, r) == r
  {
    if r.Some? {
      assert [] + r.value.0 == r.value.0;
    }
  }

  lemma ShiftedStep(cur: seq<byte>, n: nat, s: seq<byte>, quote: byte)
    requires s != [] && s[0] != quote && (quote == QUOTE || quote == APOSTROPHE)
    ensures var escaped := s[0] == BACKSLASH && 1 < |s| && (quote == QUOTE || s[1] == APOSTROPHE);
            var c := if escaped then (if quote == QUOTE then Unescape(s[1]) else APOSTROPHE) else s[0];
            var k := if escaped then 2 else 1;
            Shifted(cur, n, QuotedBy(s, quote)) == Shifted(cur + [c], n + k, QuotedBy(s[k..], quote))
  {
    var escaped := s[0] == BACKSLASH && 1 < |s| && (quote == QUOTE || s[1] == APOSTROPHE);
    var c := if escaped then (if quote == QUOTE then Unescape(s[1]) else APOSTROPHE) else s[0];
    var k := if escaped then 2 else 1;
    var rest := QuotedBy(s[k..], quote);
    if rest.Some? {
      assert cur + ([c] + rest.value.0) == (cur + [c]) + rest.value.0;
    }
  }

  method ParseInline(buf: seq<byte>) returns (r: Parsed<Args>)
    ensures r == InlineAt(buf)
  {
    var nl := FindNewline(buf);
    if nl.None? {
      return Incomplete;
    }
    var args := SplitInline(TrimCr(buf[..nl.value]));
    match args {
      case None => return Protocol(UnbalancedQuotes);
      case Some(found) => return Done(found, nl.value + 1);
    }
  }

  /** A successful parse advances the buffer past the bytes it used; anything else leaves it alone. */
  method ParseCommand(buf: Buffer) returns (r: Parsed<Args>)
    modifies buf
    ensures r == Command(old(buf.bytes))
    ensures buf.bytes == if r.Done? then old(buf.bytes)[r.used..] else old(buf.bytes)
  {
    hide ArrayAt, InlineAt;
    if buf.bytes == [] {
      return Incomplete;
    }
    if buf.bytes[0] == STARBYTE {
      r := ParseArray(buf.bytes);
    } else {
      r := ParseInline(buf.bytes);
    }
    if r.Done? {
      buf.bytes := buf.bytes[r.used..];
    }
  }

  // ------------------------------------------------------- the connection loop

  /** A connection reads until it meets a protocol error or runs a command that closes it, QUIT. */
  datatype End = Open | Failed(error: ProtocolError) | Quit

  /** Whether the reply to the last of these commands, run after the others, closes the connection. */
  type Closes = seq<Args> -> bool

  /** What has come of the bytes so far: the commands run, the bytes left over, and whether reading goes on. */
  datatype Input = Input(commands: seq<Args>, buf: seq<byte>, end: End)

  const NEW := Input([], [], Open)

  /** Commands from the front of `s` on, after those already done. */
  function Drain(closes: Closes, done: seq<Args>, s: seq<byte>): Input
    decreases |s|
  {
    match Command(s)
    case Incomplete => Input(done, s, Open)
    case Protocol(e) => Input(done, s, Failed(e))
    case Done(args, used) =>
      if closes(done + [args]) then Input(done + [args], s[used..], Quit)
      else Drain(closes, done + [args], s[used..])
  }

  /** One read of `chunk`; a closed connection reads no more. */
  function OnChunk(closes: Closes, st: Input, chunk: seq<byte>): Input {
    if st.end.Open? then Drain(closes, st.commands, st.buf + chunk) else st
  }

  function OnChunks(closes: Closes, st: Input, chunks: seq<seq<byte>>): Input
    decreases chunks
  {
    if chunks == [] then st else OnChunks(closes, OnChunk(closes, st, chunks[0]), chunks[1..])
  }

  class Connection {
    const closes: Closes
    var buf: Buffer
    var commands: seq<Args>
    var end: End

    ghost function State(): Input
      reads this, buf
    {
      Input(commands, buf.bytes, end)
    }

    constructor (closes: Closes)
      ensures fresh(buf) && State() == NEW && this.closes == closes
    {
      this.closes := closes;
      buf := new Buffer();
      commands := [];
      end := Open;
    }

    method Read(chunk: seq<byte>)
      modifies this, buf
      ensures buf == old(buf) && State() == OnChunk(closes, old(State()), chunk)
    {
      hide Command;
      if !end.Open? {
        return;
      }
      buf.Extend(chunk);
      ghost var whole := Drain(closes, commands, buf.bytes);
      var more := true;
      while more && end.Open?
        invariant buf == old(buf)
        invariant if more && end.Open? then whole == Drain(closes, commands, buf.bytes) else whole == State()
        decreases more && end.Open?, |buf.bytes|
      {
        var r := ParseCommand(buf);
        match r {
          case Done(args, used) =>
            commands := commands + [args];
            if closes(commands) {
              end := Quit;
            }
          case Incomplete =>
            more := false;
          case Protocol(e) =>
            end := Failed(e);
        }
      }
    }
  }

  // --------------------------------------------------------------- encoding

  const CRLF: seq<byte> := [CR, LF]

  function BulkCode(arg: seq<byte>): seq<byte> {
    [DOLLAR] + Digits(|arg|) + CRLF + arg + CRLF
  }

  function BulksCode(args: Args): seq<byte> {
    if args == [] then [] else BulkCode(args[0]) + BulksCode(args[1..])
  }

  /** An array reply whose items are bulk strings; the same bytes are a command. */
  function ArrayCode(args: Args): seq<byte> {
    [STARBYTE] + Digits(|args|) + CRLF + BulksCode(args)
  }

  method EncodeBulk(out: Buffer, data: seq<byte>)
    modifies out
    ensures out.bytes == old(out.bytes) + BulkCode(data)
  {
    out.Extend([DOLLAR]);
    out.Extend(Digits(|data|));
    out.Extend(CRLF);
    out.Extend(data);
    out.Extend(CRLF);
    assert out.bytes == old(out.bytes) + ([DOLLAR] + Digits(|data|) + CRLF + data + CRLF);
  }

  method EncodeArray(out: Buffer, items: Args)
    modifies out
    ensures out.bytes == old(out.bytes) + ArrayCode(items)
  {
    hide BulkCode, Digits;
    out.Extend([STARBYTE]);
    out.Extend(Digits(|items|));
    out.Extend(CRLF);
    ghost var head := out.bytes;
    assert head == old(out.bytes) + ([STARBYTE] + Digits(|items|) + CRLF);
    assert items[0..] == items;
    for k := 0 to |items|
      invariant head + BulksCode(items) == out.bytes + BulksCode(items[k..])
    {
      assert items[k..][1..] == items[k + 1..];
      EncodeBulk(out, items[k]);
    }
    assert items[|items|..] == [] && out.bytes + [] == out.bytes;
    assert out.bytes == head + BulksCode(items);
  }

  // ------------------------------------------------------------- properties

  lemma {:induction false} NewlineStable(s: seq<byte>, more: seq<byte>)
    requires FindNewline(s).Some?
    ensures FindNewline(s + more) == FindNewline(s)
  {
    if s[0] != LF {
      assert (s + more)[1..] == s[1..] + more;
      NewlineStable(s[1..], more);
    }
  }

  lemma BulkStable(s: seq<byte>, more: seq<byte>)
    requires !BulkAt(s).Incomplete?
    ensures BulkAt(s + more) == BulkAt(s)
  {
    hide LengthOf;
    var t := s + more;
    assert t[0] == s[0];
    if s[0] == DOLLAR {
      NewlineStable(s, more);
      var nl := FindNewline(s).value;
      assert t[1..nl] == s[1..nl];
      assert forall lo, hi :: 0 <= lo <= hi <= |s| ==> t[lo..hi] == s[lo..hi];
    }
  }

  lemma {:induction false} BulksStable(s: seq<byte>, more: seq<byte>, n: nat)
    requires !BulksAt(s, n).Incomplete?
    ensures BulksAt(s + more, n) == BulksAt(s, n)
    decreases n
  {
    hide BulkAt;
    if n > 0 {
      BulkStable(s, more);
      if BulkAt(s).Done? {
        var a := BulkAt(s).used;
        assert (s + more)[a..] == s[a..] + more;
        BulksStable(s[a..], more, n - 1);
      }
    }
  }

  /** A command or a protocol error, once recognised, is unchanged by bytes arriving after it. */
  lemma CommandStable(s: seq<byte>, more: seq<byte>)
    requires !Command(s).Incomplete?
    ensures Command(s + more) == Command(s)
  {
    hide LengthOf, BulksAt, SplitLine;
    var t := s + more;
    assert t[0] == s[0];
    NewlineStable(s, more);
    var nl := FindNewline(s).value;
    if s[0] == STARBYTE {
      assert t[1..nl] == s[1..nl];
      assert t[nl + 1..] == s[nl + 1..] + more;
      var count := LengthOf(TrimCr(s[1..nl]));
      if count.Some? && count.value > 0 {
        BulksStable(s[nl + 1..], more, count.value);
      }
    } else {
      assert t[..nl] == s[..nl];
    }
  }

  /** Cut anywhere before its end, a command reads as incomplete. */
  lemma PrefixIncomplete(s: seq<byte>, k: nat)
    requires Command(s).Done? && k < Command(s).used
    ensures Command(s[..k]) == Incomplete
  {
    hide Command;
    assert s == s[..k] + s[k..];
    if !Command(s[..k]).Incomplete? {
      CommandStable(s[..k], s[k..]);
    }
  }

  lemma CommandFits(s: seq<byte>)
    requires Command(s).Done?
    ensures 0 < Command(s).used <= |s|
  {}

  /** Bytes that come later are read after those already there, unless reading has stopped. */
  lemma {:induction false} DrainSplit(closes: Closes, done: seq<Args>, a: seq<byte>, b: seq<byte>)
    ensures var d := Drain(closes, done, a);
            Drain(closes, done, a + b) == if d.end.Open? then Drain(closes, d.commands, d.buf + b) else d.(buf := d.buf + b)
    decreases |a|
  {
    hide Command;
    match Command(a) {
      case Incomplete =>
      case Protocol(_) => CommandStable(a, b);
      case Done(args, used) =>
        CommandStable(a, b);
        CommandFits(a);
        assert (a + b)[used..] == a[used..] + b;
        DrainSplit(closes, done + [args], a[used..], b);
    }
  }

  function Concat(chunks: seq<seq<byte>>): seq<byte> {
    if chunks == [] then [] else chunks[0] + Concat(chunks[1..])
  }

  /** The same commands, ended in the same way, and with the same bytes left while reading goes on. */
  predicate SameInput(got: Input, whole: Input) {
    got.commands == whole.commands && got.end == whole.end && (got.end.Open? ==> got.buf == whole.buf)
  }

  lemma {:induction false} ChunksFrom(closes: Closes, st: Input, chunks: seq<seq<byte>>)
    requires st.end.Open? && Command(st.buf).Incomplete?
    ensures SameInput(OnChunks(closes, st, chunks), Drain(closes, st.commands, st.buf + Concat(chunks)))
    decreases chunks
  {
    hide Command;
    if chunks == [] {
      assert st.buf + [] == st.buf;
    } else {
      var next := OnChunk(closes, st, chunks[0]);
      DrainSplit(closes, st.commands, st.buf + chunks[0], Concat(chunks[1..]));
      assert st.buf + Concat(chunks) == (st.buf + chunks[0]) + Concat(chunks[1..]);
      if next.end.Open? {
        DrainedIncomplete(closes, st.commands, st.buf + chunks[0]);
        ChunksFrom(closes, next, chunks[1..]);
      } else {
        ClosedStays(closes, next, chunks[1..]);
      }
    }
  }

  lemma {:induction false} ClosedStays(closes: Closes, st: Input, chunks: seq<seq<byte>>)
    requires !st.end.Open?
    ensures OnChunks(closes, st, chunks) == st
    decreases chunks
  {
    if chunks != [] {
      ClosedStays(closes, st, chunks[1..]);
    }
  }

  lemma {:induction false} DrainedIncomplete(closes: Closes, done: seq<Args>, s: seq<byte>)
    requires Drain(closes, done, s).end.Open?
    ensures Command(Drain(closes, done, s).buf).Incomplete?
    decreases |s|
  {
    hide Command;
    if Command(s).Done? {
      CommandFits(s);
      DrainedIncomplete(closes, done + [Command(s).value], s[Command(s).used..]);
    }
  }

  /** However a byte stream is cut into reads, a connection runs the same commands, stops at the same QUIT or
      the same first protocol error, and while it is open has the same bytes left over. */
  lemma CutsDoNotMatter(closes: Closes, chunks: seq<seq<byte>>)
    ensures SameInput(OnChunks(closes, NEW, chunks), Drain(closes, [], Concat(chunks)))
  {
    ChunksFrom(closes, NEW, chunks);
    assert [] + Concat(chunks) == Concat(chunks);
  }

  // ------------------------------------------------- encoding, then parsing

  lemma DigitsAreNoSpace(s: seq<byte>, k: nat)
    requires AllDigits(s) && 1 <= k <= |s|
    ensures SpaceLength(s[|s| - k..]) == 0
  {
    assert IsDigit(s[|s| - k]);
  }

  lemma DigitsAreTrimmed(s: seq<byte>)
    requires s != [] && AllDigits(s)
    ensures TrimEnd(TrimStart(s)) == s
  {
    hide SpaceLength, SpaceLengthEnd, AllDigits;
    DigitsAreNoSpace(s, |s|);
    assert s[0..] == s;
    DigitsEndIsNoSpace(s);
  }

  lemma DigitsEndIsNoSpace(s: seq<byte>)
    requires s != [] && AllDigits(s)
    ensures SpaceLengthEnd(s) == 0
  {
    hide SpaceLength, AllDigits;
    DigitsAreNoSpace(s, 1);
    if 2 <= |s| {
      DigitsAreNoSpace(s, 2);
    }
    if 3 <= |s| {
      DigitsAreNoSpace(s, 3);
    }
  }

  /** A header line: marker, decimal length, CRLF. */
  lemma HeaderParses(marker: byte, n: nat, rest: seq<byte>)
    requires n < 0x8000_0000_0000_0000 && marker != LF
    ensures var s := [marker] + Digits(n) + CRLF + rest;
            var nl := |Digits(n)| + 2;
            FindNewline(s) == Some(nl) && LengthOf(TrimCr(s[1..nl])) == Some(n) && s[nl + 1..] == rest
  {
    hide LengthOf, FindNewline;
    var d := Digits(n);
    var s := [marker] + d + CRLF + rest;
    FirstNewline([marker] + d + [CR], rest);
    assert s == ([marker] + d + [CR]) + [LF] + rest;
    assert s[1..|d| + 2] == d + [CR];
    TrimOneCr(d);
    LengthOfDigits(n);
  }

  lemma TrimOneCr(line: seq<byte>)
    ensures TrimCr(line + [CR]) == line
  {}

  lemma LengthOfDigits(n: nat)
    requires n < 0x8000_0000_0000_0000
    ensures LengthOf(Digits(n)) == Some(n)
  {
    hide TrimStart, TrimEnd, ParseI64, Digits;
    DigitsAreTrimmed(Digits(n));
    NatRoundTrip(n);
  }

  lemma NatRoundTrip(n: nat)
    requires n < 0x8000_0000_0000_0000
    ensures ParseI64(Digits(n)) == Some(n)
  {
    I64RoundTrip(n);
  }

  lemma {:induction false} FirstNewline(a: seq<byte>, rest: seq<byte>)
    requires forall i :: 0 <= i < |a| ==> a[i] != LF
    ensures FindNewline(a + [LF] + rest) == Some(|a|)
  {
    var s := a + [LF] + rest;
    if a != [] {
      assert s[1..] == a[1..] + [LF] + rest;
      FirstNewline(a[1..], rest);
    }
  }

  lemma BulkRoundTrip(arg: seq<byte>, rest: seq<byte>)
    requires |arg| < 0x8000_0000_0000_0000
    ensures BulkAt(BulkCode(arg) + rest) == Done(arg, |BulkCode(arg)|)
  {
    hide LengthOf, FindNewline, Digits, TrimCr;
    var tail := arg + CRLF + rest;
    BulkCodeSplit(arg, rest);
    var s := [DOLLAR] + Digits(|arg|) + CRLF + tail;
    HeaderParses(DOLLAR, |arg|, tail);
    SliceOfTail(s, |Digits(|arg|)| + 3, tail, |arg|);
    TailParts(arg, rest);
  }

  lemma BulkCodeSplit(arg: seq<byte>, rest: seq<byte>)
    ensures BulkCode(arg) + rest == [DOLLAR] + Digits(|arg|) + CRLF + (arg + CRLF + rest)
  {
    Regroup([DOLLAR] + Digits(|arg|) + CRLF, arg, CRLF, rest);
  }

  lemma Regroup<T>(a: seq<T>, b: seq<T>, c: seq<T>, d: seq<T>)
    ensures a + b + c + d == a + (b + c + d)
  {}

  lemma TailParts(arg: seq<byte>, rest: seq<byte>)
    ensures var tail := arg + CRLF + rest;
            |tail| == |arg| + 2 + |rest| && tail[..|arg|] == arg && tail[|arg|] == CR && tail[|arg| + 1] == LF
  {}

  lemma SliceOfTail(s: seq<byte>, at: nat, tail: seq<byte>, n: nat)
    requires at <= |s| && s[at..] == tail && n <= |tail|
    ensures s[at..at + n] == tail[..n] && |s| == at + |tail|
    ensures forall i :: 0 <= i < |tail| ==> s[at + i] == tail[i]
  {
    assert forall i :: 0 <= i < |tail| ==> s[at..][i] == s[at + i];
  }

  lemma {:induction false} BulksRoundTrip(args: Args, rest: seq<byte>)
    requires forall i :: 0 <= i < |args| ==> |args[i]| < 0x8000_0000_0000_0000
    ensures BulksAt(BulksCode(args) + rest, |args|) == Done(args, |BulksCode(args)|)
    decreases args
  {
    hide BulkAt, BulkCode;
    if args != [] {
      var mine, others := BulkCode(args[0]), BulksCode(args[1..]) + rest;
      assert BulksCode(args) + rest == mine + others;
      BulkRoundTrip(args[0], others);
      assert (mine + others)[|mine|..] == others;
      BulksRoundTrip(args[1..], rest);
      assert [args[0]] + args[1..] == args;
    }
  }

  /** An encoded array of one or more bulk strings parses back to them and leaves what follows. */
  lemma ArrayRoundTrip(args: Args, rest: seq<byte>)
    requires 0 < |args| < 0x8000_0000_0000_0000
    requires forall i :: 0 <= i < |args| ==> |args[i]| < 0x8000_0000_0000_0000
    ensures Command(ArrayCode(args) + rest) == Done(args, |ArrayCode(args)|)
  {
    hide LengthOf, FindNewline, BulksAt, BulksCode;
    var s := ArrayCode(args) + rest;
    var tail := BulksCode(args) + rest;
    assert s == [STARBYTE] + Digits(|args|) + CRLF + tail;
    HeaderParses(STARBYTE, |args|, tail);
    BulksRoundTrip(args, rest);
  }

  // ---------------------------------------------------- quoting inline arguments

  /** A byte inside double quotes: escaped where it would end the argument or the line. */
  function QuotedByte(b: byte): seq<byte> {
    if b == QUOTE || b == BACKSLASH then [BACKSLASH, b]
    else if b == LF then [BACKSLASH, 110]
    else [b]
  }

  function QuotedBytes(arg: seq<byte>): seq<byte> {
    if arg == [] then [] else QuotedByte(arg[0]) + QuotedBytes(arg[1..])
  }

  function QuotedLine(args: Args): seq<byte> {
    if args == [] then []
    else [QUOTE] + QuotedBytes(args[0]) + [QUOTE, SPACE] + QuotedLine(args[1..])
  }

  lemma {:induction false} QuotedBytesRead(arg: seq<byte>, rest: seq<byte>)
    ensures DoubleQuoted(QuotedBytes(arg) + [QUOTE] + rest) == Some((arg, |QuotedBytes(arg)| + 1))
  {
    var s := QuotedBytes(arg) + [QUOTE] + rest;
    if arg != [] {
      var tail := QuotedBytes(arg[1..]) + [QUOTE] + rest;
      var n := |QuotedByte(arg[0])|;
      assert s == QuotedByte(arg[0]) + tail;
      assert s[n..] == tail;
      QuotedBytesRead(arg[1..], rest);
      assert [arg[0]] + arg[1..] == arg;
    }
  }

  lemma {:induction false} QuotedLineSplits(args: Args)
    ensures SplitLine(QuotedLine(args)) == Some(args)
    decreases args
  {
    hide DoubleQuoted, QuotedBytes;
    if args != [] {
      var q, rest := QuotedBytes(args[0]), QuotedLine(args[1..]);
      var s := QuotedLine(args);
      assert s[1..] == q + [QUOTE] + ([SPACE] + rest);
      QuotedBytesRead(args[0], [SPACE] + rest);
      assert s[|q| + 2..] == [SPACE] + rest;
      assert ([SPACE] + rest)[1..] == rest;
      QuotedLineSplits(args[1..]);
      assert [args[0]] + args[1..] == args;
    }
  }

  lemma {:induction false} QuotedBytesNoNewline(arg: seq<byte>)
    ensures forall i :: 0 <= i < |QuotedBytes(arg)| ==> QuotedBytes(arg)[i] != LF
  {
    if arg != [] {
      QuotedBytesNoNewline(arg[1..]);
    }
  }

  lemma {:induction false} QuotedLineNoNewline(args: Args)
    ensures forall i :: 0 <= i < |QuotedLine(args)| ==> QuotedLine(args)[i] != LF
    decreases args
  {
    if args != [] {
      QuotedBytesNoNewline(args[0]);
      QuotedLineNoNewline(args[1..]);
    }
  }

  /** Any arguments can be typed as one inline line by quoting them. */
  lemma InlineRoundTrip(args: Args, rest: seq<byte>)
    requires args != []
    ensures Command(QuotedLine(args) + CRLF + rest) == Done(args, |QuotedLine(args)| + 2)
  {
    hide SplitLine, FindNewline, QuotedLine;
    var line := QuotedLine(args);
    var s := line + CRLF + rest;
    assert s == (line + [CR]) + [LF] + rest;
    QuotedLineNoNewline(args);
    FirstNewline(line + [CR], rest);
    assert s[..|line| + 1] == line + [CR];
    TrimOneCr(line);
    QuotedLineSplits(args);
    QuotedLineStarts(args);
    assert s[0] == QUOTE;
  }

  lemma QuotedLineStarts(args: Args)
    requires args != []
    ensures QuotedLine(args) != [] && QuotedLine(args)[0] == QUOTE
  {}
}
