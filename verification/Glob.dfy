/** Glob matching of keys and channels. */
module Glob {
  import opened Bytes

  const STAR: byte := 42
  const QUERY: byte := 63
  const OPEN: byte := 91
  const CLOSE: byte := 93
  const CARET: byte := 94
  const DASH: byte := 45
  const BACKSLASH: byte := 92

  // ---------------------------------------------------- classes, as a grammar

  /** One member of a `[...]` class: a byte, or a range given in either order. */
  datatype Item = One(b: byte) | Range(a: byte, z: byte) {
    predicate Has(ch: byte) {
      match this
      case One(b) => ch == b
      case Range(a, z) => a <= ch <= z || z <= ch <= a
    }
  }

  /** The member at the head of `s` and its length; an escape makes the next byte plain, and a trailing
      dash or one before the closing bracket is no range. */
  function ItemAt(s: seq<byte>): (r: (Item, nat))
    requires s != []
    ensures 0 < r.1 <= |s|
  {
    if s[0] == BACKSLASH && 1 < |s| then (One(s[1]), 2)
    else if 2 < |s| && s[1] == DASH && s[2] != CLOSE then (Range(s[0], s[2]), 3)
    else (One(s[0]), 1)
  }

  /** The members up to the closing bracket, and what follows it. A bracket in first place is a member. */
  function ClassItems(s: seq<byte>, first: bool): (r: Option<(seq<Item>, seq<byte>)>)
    ensures r.Some? ==> |r.value.1| < |s|
    decreases |s|
  {
    if s == [] then None
    else if s[0] == CLOSE && !first then Some(([], s[1..]))
    else
      var (item, n) := ItemAt(s);
      match ClassItems(s[n..], false)
      case None => None
      case Some((items, rest)) => Some(([item] + items, rest))
  }

  predicate AnyHas(items: seq<Item>, ch: byte) {
    exists i :: 0 <= i < |items| && items[i].Has(ch)
  }

  /** What a class says of the next character (none at the end of the text), and the pattern after it. */
  function Class(s: seq<byte>, ch: Option<byte>): (r: Option<(bool, seq<byte>)>)
    ensures r.Some? ==> |r.value.1| < |s| && (r.value.0 ==> ch.Some?)
  {
    var negate := s != [] && s[0] == CARET;
    match ClassItems(if negate then s[1..] else s, true)
    case None => None
    case Some((items, rest)) => Some((ch.Some? && AnyHas(items, ch.value) != negate, rest))
  }

  /** Members already seen, put before what the rest of the class holds. */
  function Joined(seen: seq<Item>, r: Option<(seq<Item>, seq<byte>)>): Option<(seq<Item>, seq<byte>)> {
    match r
    case None => None
    case Some((items, rest)) => Some((seen + items, rest))
  }

  lemma JoinedStep(seen: seq<Item>, s: seq<byte>, first: bool)
    requires s != []
    ensures s[0] == CLOSE && !first ==> Joined(seen, ClassItems(s, first)) == Some((seen, s[1..]))
    ensures !(s[0] == CLOSE && !first) ==>
      Joined(seen, ClassItems(s, first)) == Joined(seen + [ItemAt(s).0], ClassItems(s[ItemAt(s).1..], false))
  {
    assert seen + [] == seen;
    var (item, n) := ItemAt(s);
    var more := ClassItems(s[n..], false);
    if more.Some? {
      assert seen + ([item] + more.value.0) == (seen + [item]) + more.value.0;
    }
  }

  lemma JoinedNothing(r: Option<(seq<Item>, seq<byte>)>)
    ensures Joined([], r) == r
  {
    if r.Some? {
      assert [] + r.value.0 == r.value.0;
    }
  }

  lemma NoClass(seen: seq<Item>, first: bool)
    ensures Joined(seen, ClassItems([], first)) == None
  {}

  method MatchClass(body: seq<byte>, ch: Option<byte>) returns (r: Option<(bool, seq<byte>)>)
    ensures r == Class(body, ch)
  {
    hide ClassItems, Joined;
    var i := 0;
    var negate := body != [] && body[0] == CARET;
    if negate {
      i := i + 1;
    }
    var matched := false;
    var first := true;
    ghost var seen: seq<Item> := [];
    ghost var whole := ClassItems(body[i..], true);
    assert body[0..] == body;
    JoinedNothing(whole);
    while i < |body|
      invariant i <= |body|
      invariant matched <==> ch.Some? && AnyHas(seen, ch.value)
      invariant whole == Joined(seen, ClassItems(body[i..], first))
    {
      ghost var s := body[i..];
      var c := body[i];
      JoinedStep(seen, s, first);
      if c == CLOSE && !first {
        assert s[1..] == body[i + 1..];
        return Some((ch.Some? && (matched != negate), body[i + 1..]));
      }
      ghost var (item, n) := ItemAt(s);
      HasExtended(seen, item, ch);
      assert s[n..] == body[i + n..];
      seen := seen + [item];
      if c == BACKSLASH && i + 1 < |body| {
        if ch == Some(body[i + 1]) {
          matched := true;
        }
        i := i + 2;
      } else if i + 2 < |body| && body[i + 1] == DASH && body[i + 2] != CLOSE {
        var lo, hi := c, body[i + 2];
        if ch.Some? {
          if hi < lo {
            lo, hi := hi, lo;
          }
          if lo <= ch.value <= hi {
            matched := true;
          }
        }
        i := i + 3;
      } else {
        if ch == Some(c) {
          matched := true;
        }
        i := i + 1;
      }
      first := false;
    }
    assert body[i..] == [];
    NoClass(seen, first);
    return None;
  }

  lemma HasExtended(items: seq<Item>, item: Item, ch: Option<byte>)
    ensures ch.Some? ==> (AnyHas(items + [item], ch.value) <==> AnyHas(items, ch.value) || item.Has(ch.value))
  {
    var more := items + [item];
    assert more[|items|] == item;
    assert forall i :: 0 <= i < |items| ==> more[i] == items[i];
  }

  // ------------------------------------------------- matching, by trying every split

  /** A pattern that begins with anything but a star: how it consumes the first character of `s`, and
      what pattern is left. */
  function Consume(p: seq<byte>, s: seq<byte>): (r: Option<seq<byte>>)
    requires p != [] && p[0] != STAR
    ensures r.Some? ==> s != [] && |r.value| < |p|
  {
    var rest := p[1..];
    if p[0] == QUERY then
      if s == [] then None else Some(rest)
    else if p[0] == OPEN then
      match Class(rest, if s == [] then None else Some(s[0]))
      case Some((matched, after)) => if matched then Some(after) else None
      case None => if s != [] && s[0] == OPEN then Some(rest) else None
    else if p[0] == BACKSLASH && rest != [] then
      if s != [] && s[0] == rest[0] then Some(rest[1..]) else None
    else if s != [] && s[0] == p[0] then Some(rest)
    else None
  }

  /** The meaning of a pattern: a star stands for any run of characters. */
  predicate Matches(p: seq<byte>, s: seq<byte>)
    decreases |p| + |s|
  {
    if p == [] then s == []
    else if p[0] == STAR then Matches(p[1..], s) || (s != [] && Matches(p, s[1..]))
    else
      var rest := Consume(p, s);
      rest.Some? && Matches(rest.value, s[1..])
  }

  /** A star matches exactly when the rest of the pattern matches some suffix. */
  lemma {:induction false} StarMatches(p: seq<byte>, s: seq<byte>)
    requires p != [] && p[0] == STAR
    ensures Matches(p, s) <==> exists k :: 0 <= k <= |s| && Matches(p[1..], s[k..])
    decreases |s|
  {
    if s != [] {
      StarMatches(p, s[1..]);
      forall k | 0 <= k <= |s| && Matches(p[1..], s[k..])
        ensures Matches(p, s)
      {
        if k == 0 {
          assert s[0..] == s;
        } else {
          assert s[1..][k - 1..] == s[k..];
        }
      }
      if Matches(p, s) {
        if Matches(p[1..], s) {
          assert s[0..] == s;
        } else {
          var k :| 0 <= k <= |s[1..]| && Matches(p[1..], s[1..][k..]);
          assert s[1..][k..] == s[k + 1..];
        }
      }
    } else {
      assert s[0..] == [];
      assert forall k :: 0 <= k <= |s| ==> s[k..] == [];
    }
  }

  // ------------------------------------------------- patterns by what is written

  lemma EmptyPattern(s: seq<byte>)
    ensures Matches([], s) <==> s == []
  {}

  lemma QueryMatches(rest: seq<byte>, s: seq<byte>)
    ensures Matches([QUERY] + rest, s) <==> s != [] && Matches(rest, s[1..])
  {
    assert ([QUERY] + rest)[1..] == rest;
  }

  /** An escaped byte stands for itself, whatever it is. */
  lemma EscapeMatches(b: byte, rest: seq<byte>, s: seq<byte>)
    ensures Matches([BACKSLASH, b] + rest, s) <==> s != [] && s[0] == b && Matches(rest, s[1..])
  {
    var p := [BACKSLASH, b] + rest;
    assert p[1..] == [b] + rest && p[1..][1..] == rest;
  }

  /** So does any byte without a meaning of its own, and a backslash at the very end. */
  lemma PlainMatches(b: byte, rest: seq<byte>, s: seq<byte>)
    requires b != STAR && b != QUERY && b != OPEN && (b == BACKSLASH ==> rest == [])
    ensures Matches([b] + rest, s) <==> s != [] && s[0] == b && Matches(rest, s[1..])
  {
    assert ([b] + rest)[1..] == rest;
  }

  /** What may be written between the brackets of a class. */
  datatype Written = Bare(b: byte) | Slashed(b: byte) | Span(a: byte, z: byte)

  function TextOf(w: Written): seq<byte> {
    match w
    case Bare(b) => [b]
    case Slashed(b) => [BACKSLASH, b]
    case Span(a, z) => [a, DASH, z]
  }

  function TextsOf(ws: seq<Written>): seq<byte> {
    if ws == [] then [] else TextOf(ws[0]) + TextsOf(ws[1..])
  }

  /** The bytes it covers; a span may be written from either end. */
  predicate Covers(w: Written, ch: byte) {
    match w
    case Bare(b) => b == ch
    case Slashed(b) => b == ch
    case Span(a, z) => (a <= ch && ch <= z) || (z <= ch && ch <= a)
  }

  /** A bracket is a member only in first place, a backslash only escaped, and a dash not right after a bare member. */
  predicate Proper(ws: seq<Written>, first: bool) {
    forall i :: 0 <= i < |ws| ==>
      && (TextOf(ws[i])[0] == BACKSLASH ==> ws[i].Slashed?)
      && (TextOf(ws[i])[0] == CLOSE ==> first && i == 0)
      && (TextOf(ws[i])[0] == DASH ==> i == 0 || !ws[i - 1].Bare?)
      && (ws[i].Span? ==> ws[i].z != CLOSE)
  }

  /** A class as it is written, with an optional dash before the closing bracket. */
  function ClassText(negate: bool, ws: seq<Written>, dash: bool): seq<byte> {
    [OPEN] + ((if negate then [CARET] else []) + (TextsOf(ws) + ((if dash then [DASH] else []) + [CLOSE])))
  }

  predicate IsMember(ws: seq<Written>, dash: bool, ch: byte) {
    (dash && ch == DASH) || exists i :: 0 <= i < |ws| && Covers(ws[i], ch)
  }

  /** A class matches exactly one byte: one that some member covers or, with a caret, one that none does. */
  lemma ClassMatches(negate: bool, ws: seq<Written>, dash: bool, rest: seq<byte>, s: seq<byte>)
    requires Proper(ws, true) && (ws != [] || dash)
    requires !negate && ws != [] ==> TextOf(ws[0])[0] != CARET
    ensures Matches(ClassText(negate, ws, dash) + rest, s)
            <==> s != [] && Matches(rest, s[1..])
                 && if negate then !IsMember(ws, dash, s[0]) else IsMember(ws, dash, s[0])
  {
    hide Class, IsMember, Proper, TextsOf;
    var p := ClassText(negate, ws, dash) + rest;
    ClassReads(negate, ws, dash, rest, if s == [] then None else Some(s[0]));
    assert p[0] == OPEN && p[1..] == ClassText(negate, ws, dash)[1..] + rest;
  }

  lemma ClassReads(negate: bool, ws: seq<Written>, dash: bool, rest: seq<byte>, ch: Option<byte>)
    requires Proper(ws, true) && (ws != [] || dash)
    requires !negate && ws != [] ==> TextOf(ws[0])[0] != CARET
    ensures Class(ClassText(negate, ws, dash)[1..] + rest, ch)
            == Some((ch.Some? && IsMember(ws, dash, ch.value) != negate, rest))
  {
    hide ClassItems, IsMember, Proper, TextOf, TextsOf, AnyHas;
    var tail := (if dash then [DASH] else []) + [CLOSE];
    var body := TextsOf(ws) + tail + rest;
    var s := ClassText(negate, ws, dash)[1..] + rest;
    WrittenItems(ws, dash, rest, true);
    if negate {
      assert s == [CARET] + body && s[1..] == body;
    } else {
      BodyStarts(ws, dash, rest);
      assert s == body;
    }
    if ch.Some? {
      SameMembers(ItemsOf(ws, dash), ws, dash, ch.value);
    }
  }

  lemma BodyStarts(ws: seq<Written>, dash: bool, rest: seq<byte>)
    requires (ws != [] || dash) && (ws != [] ==> TextOf(ws[0])[0] != CARET)
    ensures var body := TextsOf(ws) + ((if dash then [DASH] else []) + [CLOSE]) + rest;
            body != [] && body[0] != CARET
  {}

  function ItemOf(w: Written): Item {
    match w
    case Bare(b) => One(b)
    case Slashed(b) => One(b)
    case Span(a, z) => Range(a, z)
  }

  function ItemsOf(ws: seq<Written>, dash: bool): seq<Item> {
    if ws == [] then (if dash then [One(DASH)] else []) else [ItemOf(ws[0])] + ItemsOf(ws[1..], dash)
  }

  lemma {:induction false} WrittenItems(ws: seq<Written>, dash: bool, rest: seq<byte>, first: bool)
    requires Proper(ws, first) && (first ==> ws != [] || dash)
    ensures ClassItems(TextsOf(ws) + ((if dash then [DASH] else []) + [CLOSE]) + rest, first)
            == Some((ItemsOf(ws, dash), rest))
    decreases ws
  {
    hide ClassItems, ItemAt, TextOf, ItemOf;
    var tail := (if dash then [DASH] else []) + [CLOSE];
    if ws == [] {
      ClassEnds(dash, rest, first);
      assert TextsOf(ws) + tail + rest == tail + rest;
    } else {
      var others := TextsOf(ws[1..]) + tail + rest;
      assert TextsOf(ws) + tail + rest == TextOf(ws[0]) + others;
      OthersProper(ws, first);
      WrittenItems(ws[1..], dash, rest, false);
      OthersStart(ws, dash, rest);
      OneItemRead(ws[0], others, first);
    }
  }

  lemma ClassEnds(dash: bool, rest: seq<byte>, first: bool)
    requires first ==> dash
    ensures ClassItems((if dash then [DASH] else []) + [CLOSE] + rest, first)
            == Some((if dash then [One(DASH)] else [], rest))
  {
    if dash {
      var s := [DASH] + [CLOSE] + rest;
      assert s == [DASH, CLOSE] + rest;
      assert s[1..] == [CLOSE] + rest && s[1..][1..] == rest;
      assert ClassItems(s[1..], false) == Some(([], rest));
      assert [One(DASH)] + [] == [One(DASH)];
    } else {
      var s := [] + [CLOSE] + rest;
      assert s == [CLOSE] + rest && s[1..] == rest;
    }
  }

  lemma OthersProper(ws: seq<Written>, first: bool)
    requires Proper(ws, first) && ws != []
    ensures Proper(ws[1..], false)
  {
    forall i | 0 <= i < |ws[1..]|
      ensures ws[1..][i] == ws[i + 1]
    {}
  }

  /** One member, and the others after it. */
  lemma OneItemRead(w: Written, others: seq<byte>, first: bool)
    requires Proper([w], first)
    requires others != [] && (w.Bare? && others[0] == DASH ==> |others| > 1 && others[1] == CLOSE)
    requires ClassItems(others, false).Some?
    ensures var r := ClassItems(others, false).value;
            ClassItems(TextOf(w) + others, first) == Some(([ItemOf(w)] + r.0, r.1))
  {
    hide ClassItems;
    var s := TextOf(w) + others;
    assert [w][0] == w;
    assert ItemAt(s) == (ItemOf(w), |TextOf(w)|);
    assert s[|TextOf(w)|..] == others;
    MemberFirst(s, first);
  }

  lemma MemberFirst(s: seq<byte>, first: bool)
    requires s != [] && (s[0] == CLOSE ==> first)
    ensures var (item, n) := ItemAt(s);
            ClassItems(s, first) == match ClassItems(s[n..], false)
              case None => None
              case Some((items, rest)) => Some(([item] + items, rest))
  {
    hide ItemAt;
  }

  /** After a bare member no dash begins a span. */
  lemma OthersStart(ws: seq<Written>, dash: bool, rest: seq<byte>)
    requires Proper(ws, true) && ws != []
    ensures var s := TextsOf(ws[1..]) + ((if dash then [DASH] else []) + [CLOSE]) + rest;
            s != [] && (ws[0].Bare? && s[0] == DASH ==> |s| > 1 && s[1] == CLOSE)
  {
    if |ws| > 1 {
      assert ws[1..][0] == ws[1];
      assert TextsOf(ws[1..])[0] == TextOf(ws[1])[0];
    }
  }

  lemma {:induction false} SameMembers(items: seq<Item>, ws: seq<Written>, dash: bool, ch: byte)
    requires items == ItemsOf(ws, dash)
    ensures AnyHas(items, ch) <==> IsMember(ws, dash, ch)
    decreases ws
  {
    if ws == [] {
      assert dash ==> items[0] == One(DASH);
    } else {
      var rest := items[1..];
      SameMembers(rest, ws[1..], dash, ch);
      assert items[0].Has(ch) <==> Covers(ws[0], ch);
      assert forall i :: 0 <= i < |rest| ==> rest[i] == items[i + 1];
      assert forall i :: 0 <= i < |ws[1..]| ==> ws[1..][i] == ws[i + 1];
      if AnyHas(rest, ch) {
        var i :| 0 <= i < |rest| && rest[i].Has(ch);
        assert items[i + 1].Has(ch);
      }
      if i :| 0 <= i < |ws[1..]| && Covers(ws[1..][i], ch) {
        assert Covers(ws[i + 1], ch);
      }
    }
  }

  /** Whatever closes was written so. */
  lemma {:induction false} ItemsWritten(s: seq<byte>, first: bool) returns (ws: seq<Written>, dash: bool)
    requires ClassItems(s, first).Some?
    ensures Proper(ws, first) && (first ==> ws != [] || dash)
    ensures s == TextsOf(ws) + ((if dash then [DASH] else []) + [CLOSE]) + ClassItems(s, first).value.1
    ensures s[0] == DASH && 1 < |s| && s[1] == CLOSE ==> ws == []
    decreases |s|
  {
    if s[0] == CLOSE && !first {
      ws, dash := [], false;
      assert s == [CLOSE] + s[1..];
    } else if s[0] == DASH && 1 < |s| && s[1] == CLOSE {
      ws, dash := [], true;
      assert s == [DASH, CLOSE] + s[1..][1..];
    } else {
      hide ClassItems, TextsOf, TextOf, Proper, ItemAt, FirstWritten;
      MemberFirst(s, first);
      NoLoneBackslash(s, first);
      FirstStands(s);
      var w, n := FirstWritten(s), ItemAt(s).1;
      var more;
      more, dash := ItemsWritten(s[n..], false);
      ws := [w] + more;
      var rest := ClassItems(s, first).value.1;
      MoreText(w, more, s, n, dash, rest);
      MoreProper(w, more, dash, first, rest, s);
    }
  }

  lemma FirstStands(s: seq<byte>)
    requires s != [] && s != [BACKSLASH]
    ensures var n := |TextOf(FirstWritten(s))|;
            n == ItemAt(s).1 && n <= |s| && s[..n] == TextOf(FirstWritten(s))
  {}

  function FirstWritten(s: seq<byte>): (w: Written)
    requires s != []
  {
    if s[0] == BACKSLASH && 1 < |s| then Slashed(s[1])
    else if 2 < |s| && s[1] == DASH && s[2] != CLOSE then Span(s[0], s[2])
    else Bare(s[0])
  }

  lemma NoLoneBackslash(s: seq<byte>, first: bool)
    requires s != [] && ClassItems(s, first).Some?
    ensures s != [BACKSLASH]
  {}

  lemma MoreText(w: Written, more: seq<Written>, s: seq<byte>, n: nat, dash: bool, rest: seq<byte>)
    requires n <= |s| && s[..n] == TextOf(w)
    requires s[n..] == TextsOf(more) + ((if dash then [DASH] else []) + [CLOSE]) + rest
    ensures s == TextsOf([w] + more) + ((if dash then [DASH] else []) + [CLOSE]) + rest
  {
    hide TextOf;
    assert ([w] + more)[1..] == more;
    assert s == s[..n] + s[n..];
  }

  lemma MoreProper(w: Written, more: seq<Written>, dash: bool, first: bool, rest: seq<byte>, s: seq<byte>)
    requires Proper(more, false) && s != [] && w == FirstWritten(s) && s != [BACKSLASH] && (s[0] == CLOSE ==> first)
    requires s[|TextOf(w)|..] == TextsOf(more) + ((if dash then [DASH] else []) + [CLOSE]) + rest
    requires var t := s[|TextOf(w)|..];
             t != [] && (t[0] == DASH && 1 < |t| && t[1] == CLOSE ==> more == [])
    ensures Proper([w] + more, first)
  {
    if more != [] {
      assert TextsOf(more)[0] == TextOf(more[0])[0];
    }
    forall i | 1 <= i < |[w] + more|
      ensures ([w] + more)[i] == more[i - 1]
    {}
  }

  /** A pattern that begins with a bracket but with no class, because none closes, begins with an ordinary byte. */
  lemma OpenClassMatches(body: seq<byte>, s: seq<byte>)
    requires forall negate, ws, dash, rest :: Proper(ws, true) && (ws != [] || dash) ==>
               [OPEN] + body != ClassText(negate, ws, dash) + rest
    ensures Matches([OPEN] + body, s) <==> s != [] && s[0] == OPEN && Matches(body, s[1..])
  {
    hide ClassItems, Proper, TextsOf;
    assert ([OPEN] + body)[1..] == body;
    if Class(body, None).Some? {
      ClassStands(body);
    }
    SameClass(body, if s == [] then None else Some(s[0]));
  }

  lemma SameClass(body: seq<byte>, ch: Option<byte>)
    ensures Class(body, ch).Some? <==> Class(body, None).Some?
  {
    hide ClassItems;
  }

  lemma ClassStands(body: seq<byte>)
    requires Class(body, None).Some?
    ensures exists negate, ws, dash, rest :: Proper(ws, true) && (ws != [] || dash)
              && [OPEN] + body == ClassText(negate, ws, dash) + rest
  {
    hide ClassItems, Proper, TextsOf;
    var negate := body != [] && body[0] == CARET;
    var inner := if negate then body[1..] else body;
    var ws, dash := ItemsWritten(inner, true);
    var rest := ClassItems(inner, true).value.1;
    assert [OPEN] + body == ClassText(negate, ws, dash) + rest;
  }

  /** Without a closing bracket none closes. */
  lemma NoBracketNoClass(body: seq<byte>, s: seq<byte>)
    requires CLOSE !in body
    ensures Matches([OPEN] + body, s) <==> s != [] && s[0] == OPEN && Matches(body, s[1..])
  {
    assert ([OPEN] + body)[1..] == body;
    NeverCloses(body, true);
    if body != [] && body[0] == CARET {
      assert forall b :: b in body[1..] ==> b in body;
      NeverCloses(body[1..], true);
    }
  }

  lemma {:induction false} NeverCloses(s: seq<byte>, first: bool)
    requires CLOSE !in s
    ensures ClassItems(s, first) == None
    decreases |s|
  {
    if s != [] {
      var rest := s[ItemAt(s).1..];
      assert forall b :: b in rest ==> b in s;
      NeverCloses(rest, false);
    }
  }

  // --------------------------------------- the iterative form, one star remembered

  /** `afterStar` may still match some later suffix of `text`. */
  ghost predicate Later(afterStar: seq<byte>, text: seq<byte>) {
    exists k :: 1 <= k <= |text| && Matches(afterStar, text[k..])
  }

  /** Wherever the pattern after the star matches, it first eats `n` characters and then goes on as `p`. */
  ghost predicate Leads(afterStar: seq<byte>, p: seq<byte>, n: nat) {
    forall t :: Matches(afterStar, t) ==> |t| >= n && Matches(p, t[n..])
  }

  lemma LeadsStep(afterStar: seq<byte>, p: seq<byte>, n: nat, s: seq<byte>)
    requires p != [] && p[0] != STAR && Leads(afterStar, p, n) && Consume(p, s).Some?
    ensures Leads(afterStar, Consume(p, s).value, n + 1)
  {
    var rest := Consume(p, s).value;
    forall t | Matches(afterStar, t)
      ensures |t| >= n + 1 && Matches(rest, t[n + 1..])
    {
      ConsumeSame(p, s, t[n..]);
      assert t[n..][1..] == t[n + 1..];
    }
  }

  /** What is left of the pattern does not depend on the character eaten. */
  lemma ConsumeSame(p: seq<byte>, s: seq<byte>, t: seq<byte>)
    requires p != [] && p[0] != STAR && Consume(p, s).Some? && Matches(p, t)
    ensures Consume(p, t) == Consume(p, s)
  {}

  /** At a new star, matches that an older star could still give are matches the new one gives too. */
  lemma NewStarSuffices(older: seq<byte>, text: seq<byte>, p: seq<byte>, n: nat)
    requires p != [] && p[0] == STAR && n <= |text| && Leads(older, p, n) && Later(older, text)
    ensures Matches(p, text[n..])
  {
    var k :| 1 <= k <= |text| && Matches(older, text[k..]);
    assert Matches(p, text[k..][n..]);
    StarMatches(p, text[k..][n..]);
    var j :| 0 <= j <= |text[k..][n..]| && Matches(p[1..], text[k..][n..][j..]);
    assert text[n..][k + j..] == text[k..][n..][j..];
    StarMatches(p, text[n..]);
  }

  /** Either the current position matches, or the remembered star can take at least one more character. */
  ghost predicate Answer(p: seq<byte>, s: seq<byte>, star: Option<seq<byte>>, starText: seq<byte>) {
    Matches(p, s) || (star.Some? && Later(star.value, starText))
  }

  method GlobMatch(pattern: seq<byte>, text: seq<byte>) returns (r: bool)
    ensures r <==> Matches(pattern, text)
  {
    hide Matches, Answer, Leads, Class;
    var p, s := pattern, text;
    NoStarAnswer(p, s, []);
    var star: Option<seq<byte>>, starText: seq<byte> := None, [];
    while true
      invariant Matches(pattern, text) <==> Answer(p, s, star, starText)
      invariant star.Some? ==> |s| <= |starText| && s == starText[|starText| - |s|..]
      invariant star.Some? ==> |star.value| >= |p| && Leads(star.value, p, |starText| - |s|)
      invariant star.None? ==> |p| <= |pattern|
      decreases if star.Some? then |star.value| else |pattern| + 1, if star.Some? then |starText| else 0, |p|
    {
      if p != [] {
        var pc, rest := p[0], p[1..];
        if pc == STAR {
          StarAnswer(p, s, star, starText);
          LeadsSelf(rest);
          star := Some(rest);
          starText := s;
          p := rest;
          continue;
        } else if pc == QUERY {
          if s != [] {
            EatAnswer(p, s, star, starText);
            s := s[1..];
            p := rest;
            continue;
          }
        } else if pc == OPEN {
          var c := MatchClass(rest, if s == [] then None else Some(s[0]));
          match c {
            case Some((matched, after)) =>
              if matched {
                EatAnswer(p, s, star, starText);
                s := s[1..];
                p := after;
                continue;
              }
            case None =>
              if s != [] && s[0] == OPEN {
                EatAnswer(p, s, star, starText);
                s := s[1..];
                p := rest;
                continue;
              }
          }
        } else if pc == BACKSLASH && rest != [] {
          if s != [] && s[0] == rest[0] {
            EatAnswer(p, s, star, starText);
            s := s[1..];
            p := rest[1..];
            continue;
          }
        } else if s != [] && s[0] == pc {
          EatAnswer(p, s, star, starText);
          s := s[1..];
          p := rest;
          continue;
        }
      } else if s == [] {
        BothEmpty(star, starText);
        return true;
      }
      NoMatch(p, s);
      if star.None? {
        NoStarAnswer(p, s, starText);
        return false;
      }
      Retry(p, s, star.value, starText);
      if starText == [] {
        return false;
      }
      LeadsSelf(star.value);
      starText := starText[1..];
      s := starText;
      p := star.value;
    }
  }

  lemma NoStarAnswer(p: seq<byte>, s: seq<byte>, starText: seq<byte>)
    ensures Answer(p, s, None, starText) <==> Matches(p, s)
  {}

  lemma BothEmpty(star: Option<seq<byte>>, starText: seq<byte>)
    ensures Answer([], [], star, starText)
  {}

  lemma NoMatch(p: seq<byte>, s: seq<byte>)
    requires if p == [] then s != [] else p[0] != STAR && Consume(p, s).None?
    ensures !Matches(p, s)
  {}

  /** When the current position fails, all that is left is to give the star one more character. */
  lemma Retry(p: seq<byte>, s: seq<byte>, star: seq<byte>, starText: seq<byte>)
    requires !Matches(p, s)
    ensures Answer(p, s, Some(star), starText)
            <==> starText != [] && Answer(star, starText[1..], Some(star), starText[1..])
  {
    hide Matches;
    if starText != [] {
      LaterStep(star, starText);
    }
  }

  lemma LeadsSelf(p: seq<byte>)
    ensures Leads(p, p, 0)
  {
    forall t | Matches(p, t)
      ensures Matches(p, t[0..])
    {
      assert t[0..] == t;
    }
  }

  lemma LaterStep(p: seq<byte>, text: seq<byte>)
    requires text != []
    ensures Later(p, text) <==> Matches(p, text[1..]) || Later(p, text[1..])
  {
    var tail := text[1..];
    if Later(p, text) {
      var k :| 1 <= k <= |text| && Matches(p, text[k..]);
      assert k > 1 ==> tail[k - 1..] == text[k..];
    }
    if Later(p, tail) {
      var k :| 1 <= k <= |tail| && Matches(p, tail[k..]);
      assert tail[k..] == text[k + 1..];
    }
  }

  lemma StarAnswer(p: seq<byte>, s: seq<byte>, star: Option<seq<byte>>, starText: seq<byte>)
    requires p != [] && p[0] == STAR
    requires star.Some? ==> |s| <= |starText| && s == starText[|starText| - |s|..]
    requires star.Some? ==> Leads(star.value, p, |starText| - |s|)
    ensures Answer(p, s, star, starText) <==> Answer(p[1..], s, Some(p[1..]), s)
  {
    if star.Some? && Later(star.value, starText) {
      NewStarSuffices(star.value, starText, p, |starText| - |s|);
    }
    StarMatches(p, s);
    if Matches(p, s) {
      var k :| 0 <= k <= |s| && Matches(p[1..], s[k..]);
      assert k == 0 ==> s[k..] == s;
    }
    if Matches(p[1..], s) {
      assert s[0..] == s;
    }
  }

  lemma EatAnswer(p: seq<byte>, s: seq<byte>, star: Option<seq<byte>>, starText: seq<byte>)
    requires p != [] && p[0] != STAR && Consume(p, s).Some?
    requires star.Some? ==> |s| <= |starText| && s == starText[|starText| - |s|..]
    requires star.Some? ==> Leads(star.value, p, |starText| - |s|)
    ensures Answer(p, s, star, starText) <==> Answer(Consume(p, s).value, s[1..], star, starText)
    ensures star.Some? ==> s[1..] == starText[|starText| - |s[1..]|..]
    ensures star.Some? ==> Leads(star.value, Consume(p, s).value, |starText| - |s[1..]|)
  {
    if star.Some? {
      LeadsStep(star.value, p, |starText| - |s|, s);
    }
  }
}
