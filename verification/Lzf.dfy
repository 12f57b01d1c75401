/** LZF expansion: the one compression scheme RDB applies to strings. */
module Lzf {
  import opened Bytes

  /** A literal run of 1 to 32 bytes, or `len` bytes copied from `dist` bytes back. */
  datatype Token = Literal(run: seq<byte>) | Ref(dist: nat, len: nat) {
    predicate Valid() {
      match this
      case Literal(run) => 1 <= |run| <= 32
      case Ref(dist, len) => 1 <= dist <= 8192 && 3 <= len <= 264
    }
  }

  predicate AllValid(ts: seq<Token>) {
    forall i :: 0 <= i < |ts| ==> ts[i].Valid()
  }

  // ------------------------------------------------------------- the format

  function TokenBytes(t: Token): seq<byte>
    requires t.Valid()
  {
    match t
    case Literal(run) => [|run| - 1] + run
    case Ref(dist, len) =>
      var high, low := (dist - 1) / 256, (dist - 1) % 256;
      if len < 9 then [32 * (len - 2) + high, low] else [224 + high, len - 9, low]
  }

  function Encode(ts: seq<Token>): seq<byte>
    requires AllValid(ts)
  {
    if ts == [] then [] else TokenBytes(ts[0]) + Encode(ts[1..])
  }

  /** `out` extended by `len` bytes, each one the byte `dist` places before it. */
  function Copy(out: seq<byte>, dist: nat, len: nat): (r: seq<byte>)
    requires 1 <= dist <= |out|
    ensures |r| == |out| + len && r[..|out|] == out
    ensures forall k :: |out| <= k < |r| ==> r[k] == r[k - dist]
  {
    if len == 0 then out
    else
      var r := Copy(out, dist, len - 1);
      r + [r[|r| - dist]]
  }

  function Apply(out: seq<byte>, t: Token): Option<seq<byte>> {
    match t
    case Literal(run) => Some(out + run)
    case Ref(dist, len) => if 1 <= dist <= |out| then Some(Copy(out, dist, len)) else None
  }

  /** The meaning of a token sequence; a reference to before the start has none. */
  function Expand(out: seq<byte>, ts: seq<Token>): Option<seq<byte>>
    decreases |ts|
  {
    if ts == [] then Some(out)
    else match Apply(out, ts[0])
      case None => None
      case Some(next) => Expand(next, ts[1..])
  }

  /** Three bits of length and thirteen of distance, with a second length byte when the three are all ones. */
  lemma TokenForms(run: seq<byte>, dist: nat, len: nat)
    requires 1 <= |run| <= 32 && 1 <= dist <= 8192 && 3 <= len <= 264
    ensures TokenBytes(Literal(run))[0] == |run| - 1 && TokenBytes(Literal(run))[1..] == run
    ensures var code, d := TokenBytes(Ref(dist, len)), dist - 1;
            if len <= 8 then |code| == 2 && code[0] == (len - 2) * 32 + d / 256 && code[1] == d % 256
            else |code| == 3 && code[0] == 7 * 32 + d / 256 && code[1] == len - 9 && code[2] == d % 256
  {}

  /** Tokens act one after another, first to last. */
  lemma {:induction false} ExpandInOrder(out: seq<byte>, a: seq<Token>, b: seq<Token>)
    ensures Expand(out, a + b) == if Expand(out, a).None? then None else Expand(Expand(out, a).value, b)
    decreases |a|
  {
    hide Apply;
    if a == [] {
      assert a + b == b;
    } else {
      assert (a + b)[1..] == a[1..] + b;
      if Apply(out, a[0]).Some? {
        ExpandInOrder(Apply(out, a[0]).value, a[1..], b);
      }
    }
  }

  /** A literal adds its bytes; a reference repeats what stands `dist` back, and fails when nothing does. */
  lemma ExpandOne(out: seq<byte>, run: seq<byte>, dist: nat, len: nat)
    ensures Expand(out, [Literal(run)]) == Some(out + run)
    ensures Expand(out, [Ref(dist, len)]).Some? <==> 1 <= dist <= |out|
    ensures 1 <= dist <= |out| ==>
              var r := Expand(out, [Ref(dist, len)]).value;
              |r| == |out| + len && r[..|out|] == out && forall k :: |out| <= k < |r| ==> r[k] == r[k - dist]
  {
    assert [Literal(run)][1..] == [] && [Ref(dist, len)][1..] == [];
  }

  // ---------------------------------------------------------------- decoder

  /** The token at the head of `s` and its length in bytes. */
  function TokenAt(s: seq<byte>): (r: Option<(Token, nat)>)
    ensures r.Some? ==> 0 < r.value.1 <= |s| && r.value.0.Valid()
  {
    if s == [] then None
    else
      var ctrl: int := s[0];
      if ctrl < 32 then
        if ctrl + 2 <= |s| then Some((Literal(s[1..ctrl + 2]), ctrl + 2)) else None
      else if ctrl < 224 then
        if |s| < 2 then None else Some((Ref((ctrl % 32) * 256 + s[1] + 1, ctrl / 32 + 2), 2))
      else if |s| < 3 then None
      else Some((Ref((ctrl % 32) * 256 + s[2] + 1, s[1] as int + 9), 3))
  }

  function Tokens(s: seq<byte>): (r: Option<seq<Token>>)
    ensures r.Some? ==> AllValid(r.value)
  {
    if s == [] then Some([])
    else match TokenAt(s)
      case None => None
      case Some((t, n)) =>
        match Tokens(s[n..])
        case None => None
        case Some(rest) => Some([t] + rest)
  }

  /** Expanding the tokens of `s` on top of what is already out. */
  function Resume(out: seq<byte>, s: seq<byte>): Option<seq<byte>> {
    match Tokens(s)
    case None => None
    case Some(ts) => Expand(out, ts)
  }

  lemma ResumeDone(out: seq<byte>)
    ensures Resume(out, []) == Some(out)
  {}

  lemma ResumeStep(out: seq<byte>, s: seq<byte>)
    requires s != []
    ensures Resume(out, s) == match TokenAt(s)
                              case None => None
                              case Some((t, n)) => (match Apply(out, t)
                                case None => None
                                case Some(next) => Resume(next, s[n..]))
  {}

  /** The next token read off `input` by index, as the loop below reads it. */
  lemma TokenAtIndex(input: seq<byte>, i: nat)
    requires i < |input|
    ensures var ctrl: int := input[i];
            var at := if ctrl / 32 == 7 then i + 2 else i + 1;
            TokenAt(input[i..]) ==
            if ctrl < 32 then
              if i + ctrl + 2 <= |input| then Some((Literal(input[i + 1..i + ctrl + 2]), ctrl + 2)) else None
            else if at >= |input| then None
            else Some((Ref((ctrl % 32) * 256 + input[at] + 1,
                           if ctrl / 32 == 7 then input[i + 1] as int + 9 else ctrl / 32 + 2), at + 1 - i))
  {
    var s, ctrl := input[i..], input[i] as int;
    assert ctrl / 32 == 7 <==> ctrl >= 224;
    if ctrl < 32 && i + ctrl + 2 <= |input| {
      assert s[1..ctrl + 2] == input[i + 1..i + ctrl + 2];
    }
  }

  /** References may overlap what they produce, so bytes are copied one at a time. */
  method CopyBack(base: seq<byte>, dist: nat, len: nat) returns (out: seq<byte>)
    requires 1 <= dist <= |base|
    ensures out == Copy(base, dist, len)
  {
    out := base;
    var src := |out| - dist;
    for k := 0 to len
      invariant src == |base| - dist + k
      invariant out == Copy(base, dist, k)
    {
      out := out + [out[src]];
      src := src + 1;
    }
  }

  method Decompress(input: seq<byte>, expectedLen: nat) returns (r: Option<seq<byte>>)
    ensures r == match Resume([], input)
                 case None => None
                 case Some(out) => if |out| == expectedLen then Some(out) else None
  {
    hide Resume, TokenAt, Copy;
    var out: seq<byte> := [];
    var i := 0;
    assert input[0..] == input;
    while i < |input|
      invariant i <= |input|
      invariant Resume([], input) == Resume(out, input[i..])
    {
      ResumeStep(out, input[i..]);
      TokenAtIndex(input, i);
      ghost var at := i;
      var ctrl: int := input[i];
      i := i + 1;
      if ctrl < 32 {
        var end := i + ctrl + 1;
        if end > |input| {
          return None;
        }
        out := out + input[i..end];
        i := end;
      } else {
        var len := ctrl / 32;
        if len == 7 {
          if i >= |input| {
            return None;
          }
          len := len + input[i];
          i := i + 1;
        }
        if i >= |input| {
          return None;
        }
        var dist := (ctrl % 32) * 256 + input[i];
        i := i + 1;
        if |out| < dist + 1 {
          return None;
        }
        out := CopyBack(out, dist + 1, len + 2);
      }
      assert input[at..][i - at..] == input[i..];
    }
    assert input[i..] == [];
    ResumeDone(out);
    r := if |out| == expectedLen then Some(out) else None;
  }

  // ------------------------------------------------------------- properties

  lemma TokenOfBytes(t: Token, rest: seq<byte>)
    requires t.Valid()
    ensures TokenAt(TokenBytes(t) + rest) == Some((t, |TokenBytes(t)|))
  {
    if t.Literal? {
      assert (TokenBytes(t) + rest)[1..|t.run| + 1] == t.run;
    }
  }

  lemma {:induction false} TokensOfEncoding(ts: seq<Token>)
    requires AllValid(ts)
    ensures Tokens(Encode(ts)) == Some(ts)
  {
    hide TokenAt, TokenBytes;
    if ts != [] {
      var mine, rest := TokenBytes(ts[0]), Encode(ts[1..]);
      TokenOfBytes(ts[0], rest);
      assert (mine + rest)[|mine|..] == rest;
      TokensOfEncoding(ts[1..]);
      assert [ts[0]] + ts[1..] == ts;
    }
  }

  lemma TokenBytesOf(s: seq<byte>)
    requires TokenAt(s).Some?
    ensures TokenBytes(TokenAt(s).value.0) == s[..TokenAt(s).value.1]
  {
    var ctrl: int := s[0];
    var (t, n) := TokenAt(s).value;
    if ctrl < 32 {
      assert s[..n] == [s[0]] + s[1..n];
    } else if ctrl < 224 {
      SplitDistance(ctrl, s[1]);
      assert s[..2] == [s[0], s[1]];
    } else {
      SplitDistance(ctrl, s[2]);
      assert s[..3] == [s[0], s[1], s[2]];
    }
  }

  lemma SplitDistance(ctrl: int, low: byte)
    requires 32 <= ctrl < 256
    ensures var dist := (ctrl % 32) * 256 + low + 1;
            (dist - 1) / 256 == ctrl % 32 && (dist - 1) % 256 == low
    ensures ctrl == 32 * (ctrl / 32) + ctrl % 32
  {}

  lemma {:induction false} EncodingOfTokens(s: seq<byte>)
    requires Tokens(s).Some?
    ensures Encode(Tokens(s).value) == s
  {
    hide TokenAt, TokenBytes;
    if s != [] {
      var (t, n) := TokenAt(s).value;
      TokenBytesOf(s);
      EncodingOfTokens(s[n..]);
      assert Tokens(s).value[1..] == Tokens(s[n..]).value;
    }
  }

  /** Decompression accepts exactly the encodings of token sequences, and returns what they mean. */
  lemma ResumeIsExpansion(s: seq<byte>, out: seq<byte>)
    ensures Resume([], s) == Some(out)
            <==> exists ts :: AllValid(ts) && Encode(ts) == s && Expand([], ts) == Some(out)
  {
    if Resume([], s) == Some(out) {
      EncodingOfTokens(s);
      assert Encode(Tokens(s).value) == s;
    }
    forall ts | AllValid(ts) && Encode(ts) == s && Expand([], ts) == Some(out)
      ensures Resume([], s) == Some(out)
    {
      TokensOfEncoding(ts);
    }
  }

  lemma {:induction false} ExpansionBound(out: seq<byte>, ts: seq<Token>)
    requires AllValid(ts) && Expand(out, ts).Some?
    ensures |Expand(out, ts).value| <= |out| + 88 * |Encode(ts)|
    decreases |ts|
  {
    if ts != [] {
      ExpansionBound(Apply(out, ts[0]).value, ts[1..]);
    }
  }

  /** No input expands to more than 88 times its size. */
  lemma OutputBound(s: seq<byte>)
    requires Resume([], s).Some?
    ensures |Resume([], s).value| <= 88 * |s|
  {
    EncodingOfTokens(s);
    ExpansionBound([], Tokens(s).value);
  }
}
