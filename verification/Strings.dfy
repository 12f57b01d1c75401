/** The string commands that write back through `set_keep_ttl`. */
module Strings {
  import opened Bytes
  import opened Decimal
  import opened Values
  import opened Expiry

  datatype Answer = Okay | Nil | Bulk(s: seq<byte>) | Number(n: int) | WrongType | NotAnInteger | Overflow | OutOfRange

  // ------------------------------------- meanings, on a map that expires eagerly

  /** A key's text: none for a missing key, an error for another type. */
  datatype TextAt = Missing | There(s: seq<byte>) | OtherType

  function TextIn(m: Store, key: Key): TextAt {
    if key !in m then Missing
    else match m[key].value
      case Text(s) => There(s)
      case _ => OtherType
  }

  function OrEmpty(t: TextAt): seq<byte> {
    if t.There? then t.s else []
  }

  /** New text under the expiry the key already has. */
  function Rewritten(m: Store, key: Key, s: seq<byte>): Store {
    m[key := Entry(Text(s), if key in m then m[key].expireAt else None)]
  }

  function Appended(m: Store, key: Key, suffix: seq<byte>): (Store, Answer) {
    var was := TextIn(m, key);
    if was.OtherType? then (m, WrongType)
    else (Rewritten(m, key, OrEmpty(was) + suffix), Number(|OrEmpty(was)| + |suffix|))
  }

  function Incremented(m: Store, key: Key, delta: i64): (Store, Answer) {
    match TextIn(m, key)
    case OtherType => (m, WrongType)
    case Missing => Counted(m, key, 0, delta)
    case There(s) =>
      match ParseI64(s)
      case None => (m, NotAnInteger)
      case Some(n) => Counted(m, key, n, delta)
  }

  function Counted(m: Store, key: Key, n: int, delta: int): (Store, Answer) {
    if -0x8000_0000_0000_0000 <= n + delta < 0x8000_0000_0000_0000
    then (Rewritten(m, key, Render(n + delta)), Number(n + delta)) else (m, Overflow)
  }

  /** `s` with `patch` laid over it at `offset`, zero bytes filling any gap. */
  predicate Patched(s: seq<byte>, offset: nat, patch: seq<byte>, r: seq<byte>) {
    && |r| == (if |s| < offset + |patch| then offset + |patch| else |s|)
    && (forall i :: 0 <= i < |r| ==> r[i] == if offset <= i < offset + |patch| then patch[i - offset]
                                            else if i < |s| then s[i] else 0)
  }

  datatype SetOptions = SetOptions(nx: bool, xx: bool, keepttl: bool, get: bool, expireAt: Option<u64>)

  /** SET: the old text is looked up in `before`, everything else happens to `m`. The two differ when
      the clock moves between the command's own readings. */
  function Assigned(before: Store, m: Store, key: Key, value: seq<byte>, o: SetOptions): (Store, Answer) {
    var was := TextIn(before, key);
    if o.get && was.OtherType? then (m, WrongType)
    else
      var shall := !(o.nx && key in m) && !(o.xx && key !in m);
      var next :=
        if !shall then m
        else if o.keepttl then Rewritten(m, key, value)
        else m[key := Entry(Text(value), o.expireAt)];
      (next, if o.get then (if was.There? then Bulk(was.s) else Nil) else if shall then Okay else Nil)
  }

  // ------------------------------------------- commands as the calls they make

  /** A command, as far as the database sees it. `Rewrite` looks a text up and may store another in its place;
      a call that stands for itself is never `set_keep_ttl`. */
  datatype Command =
    | Rewrite(key: Key, next: TextAt -> Option<seq<byte>>)
    | Assign(key: Key, value: seq<byte>, o: SetOptions)
    | Other(op: Op)

  type Request = c: Command | !(c.Other? && c.op.SetKeepTtl?) witness Other(Len)

  /** What `get_str` makes of the reply to a lookup. */
  function TextFound(r: Reply): TextAt {
    if !r.Found? || r.value.None? then Missing
    else match r.value.value
      case Text(s) => There(s)
      case _ => OtherType
  }

  predicate Shall(o: SetOptions, exist: bool) {
    !(o.nx && exist) && !(o.xx && !exist)
  }

  const MOST_CALLS: nat := 4

  /** The next call of a command that has had the replies `got`; none once it is done. */
  function NextCall(c: Request, got: seq<Reply>): (op: Option<Op>)
    ensures got == [] ==> op.Some?
    ensures |got| >= MOST_CALLS ==> op.None?
  {
    match c
    case Rewrite(key, next) =>
      if got == [] then Some(Op.Get(key))
      else if |got| > 1 then None
      else (
        match next(TextFound(got[0]))
        case None => None
        case Some(s) => Some(Op.SetKeepTtl(key, Text(s)))
      )
    case Assign(key, value, o) =>
      var asked := if o.get then 1 else 0;
      if |got| < asked then Some(Op.Get(key))
      else if o.get && TextFound(got[0]).OtherType? then None
      else if |got| == asked then Some(Op.Contains(key))
      else if !Shall(o, got[asked] == Yes(true)) then None
      else if |got| == asked + 1 then Some(if o.keepttl then Op.SetKeepTtl(key, Text(value)) else Op.Set(key, Text(value)))
      else if |got| == asked + 2 && !o.keepttl && o.expireAt.Some? then Some(Op.SetExpire(key, o.expireAt.value))
      else None
    case Other(op) => if got == [] then Some(op) else None
  }

  /** The database after the rest of a command's calls, the clock being read afresh for each. */
  function Played(c: Request, data: Store, clock: nat -> nat, got: seq<Reply>): Store
    requires |got| <= MOST_CALLS
    decreases MOST_CALLS - |got|, data
  {
    match NextCall(c, got)
    case None => data
    case Some(op) =>
      var (after, reply) := Lazy(data, clock(|got|), op);
      Played(c, after, clock, got + [reply])
  }

  /** APPEND, INCR and SETRANGE as rewrites; SETBIT and INCRBYFLOAT are others. */
  function Longer(suffix: seq<byte>): TextAt -> Option<seq<byte>> {
    (t: TextAt) => if t.OtherType? then None else Some(OrEmpty(t) + suffix)
  }

  function Sum(delta: i64): TextAt -> Option<seq<byte>> {
    (t: TextAt) =>
      var n := if t.There? then ParseI64(t.s) else Some(0);
      if t.OtherType? || n.None? || !(-0x8000_0000_0000_0000 <= n.value + delta < 0x8000_0000_0000_0000) then None
      else Some(Render(n.value + delta))
  }

  function Overlaid(s: seq<byte>, offset: nat, patch: seq<byte>): (r: seq<byte>)
    ensures Patched(s, offset, patch, r)
  {
    var long := if |s| < offset + |patch| then s + seq(offset + |patch| - |s|, _ => 0) else s;
    long[..offset] + patch + long[offset + |patch|..]
  }

  function Overlay(offset: nat, patch: seq<byte>): TextAt -> Option<seq<byte>> {
    (t: TextAt) => if t.OtherType? || patch == [] then None else Some(Overlaid(OrEmpty(t), offset, patch))
  }

  /** The readings SET takes, told by the number of the call. */
  function SetClock(o: SetOptions, t0: nat, t1: nat, t2: nat): nat -> nat {
    (i: nat) => if o.get && i == 0 then t0 else if i == (if o.get then 1 else 0) then t1 else t2
  }

  lemma RewritePlayed(key: Key, next: TextAt -> Option<seq<byte>>, data: Store, now: nat)
    ensures var purged := Purge(data, key, now);
            Played(Rewrite(key, next), data, _ => now, [])
            == if next(TextIn(purged, key)).None? then purged
               else Plain(purged, Op.SetKeepTtl(key, Text(next(TextIn(purged, key)).value))).0
  {
    hide Played, Purge;
    var c: Request := Rewrite(key, next);
    var clock: nat -> nat := _ => now;
    var (purged, found) := Lazy(data, now, Op.Get(key));
    PlayedStep(c, data, clock, [], Op.Get(key));
    assert [] + [found] == [found];
    assert TextFound(found) == TextIn(purged, key);
    if next(TextIn(purged, key)).None? {
      PlayedDone(c, purged, clock, [found]);
    } else {
      var op := Op.SetKeepTtl(key, Text(next(TextIn(purged, key)).value));
      PlayedStep(c, purged, clock, [found], op);
      PlayedDone(c, Plain(purged, op).0, clock, [found] + [Nothing]);
    }
  }

  lemma ContainsPurges(data: Store, key: Key, now: nat)
    ensures Lazy(data, now, Op.Contains(key)).0 == Purge(data, key, now)
  {}

  /** One call of a command, then the rest. */
  lemma PlayedStep(c: Request, data: Store, clock: nat -> nat, got: seq<Reply>, op: Op)
    requires |got| < MOST_CALLS && NextCall(c, got) == Some(op)
    ensures var (after, reply) := Lazy(data, clock(|got|), op);
            Played(c, data, clock, got) == Played(c, after, clock, got + [reply])
  {
    hide Lazy, NextCall;
  }

  lemma AssignPlayed(data: Store, key: Key, value: seq<byte>, o: SetOptions, t0: nat, t1: nat, t2: nat)
    ensures var looked := if o.get then Purge(data, key, t0) else data;
            var purged := Purge(looked, key, t1);
            Played(Assign(key, value, o), data, SetClock(o, t0, t1, t2), [])
            == if o.get && TextIn(looked, key).OtherType? then looked
               else if !Shall(o, key in purged) then purged
               else if o.keepttl then Plain(purged, Op.SetKeepTtl(key, Text(value))).0
               else
                 var stored := Plain(purged, Op.Set(key, Text(value))).0;
                 if o.expireAt.Some? then Lazy(stored, t2, Op.SetExpire(key, o.expireAt.value)).0 else stored
  {
    hide Played, Purge;
    var c: Request, clock := Assign(key, value, o), SetClock(o, t0, t1, t2);
    if o.get {
      var (looked, found) := Lazy(data, t0, Op.Get(key));
      PlayedStep(c, data, clock, [], Op.Get(key));
      assert [] + [found] == [found];
      assert TextFound(found) == TextIn(looked, key);
      if TextIn(looked, key).OtherType? {
        PlayedDone(c, looked, clock, [found]);
      } else {
        AssignRest(looked, key, value, o, t0, t1, t2, [found]);
      }
    } else {
      AssignRest(data, key, value, o, t0, t1, t2, []);
    }
  }

  lemma PlayedDone(c: Request, data: Store, clock: nat -> nat, got: seq<Reply>)
    requires |got| <= MOST_CALLS && NextCall(c, got) == None
    ensures Played(c, data, clock, got) == data
  {
    hide NextCall;
  }

  /** From the call to `contains` on. */
  lemma AssignRest(data: Store, key: Key, value: seq<byte>, o: SetOptions, t0: nat, t1: nat, t2: nat, got: seq<Reply>)
    requires |got| == if o.get then 1 else 0
    requires o.get ==> !TextFound(got[0]).OtherType?
    ensures var purged := Purge(data, key, t1);
            Played(Assign(key, value, o), data, SetClock(o, t0, t1, t2), got)
            == if !Shall(o, key in purged) then purged
               else if o.keepttl then Plain(purged, Op.SetKeepTtl(key, Text(value))).0
               else
                 var stored := Plain(purged, Op.Set(key, Text(value))).0;
                 if o.expireAt.Some? then Lazy(stored, t2, Op.SetExpire(key, o.expireAt.value)).0 else stored
  {
    hide Played, Purge, TextFound, Shall;
    var c: Request, clock := Assign(key, value, o), SetClock(o, t0, t1, t2);
    var (purged, answer) := Lazy(data, t1, Op.Contains(key));
    PlayedStep(c, data, clock, got, Op.Contains(key));
    var got2 := got + [answer];
    if !Shall(o, key in purged) {
      PlayedDone(c, purged, clock, got2);
    } else {
      var write := if o.keepttl then Op.SetKeepTtl(key, Text(value)) else Op.Set(key, Text(value));
      PlayedStep(c, purged, clock, got2, write);
      var stored := Plain(purged, write).0;
      var got3 := got2 + [Nothing];
      if !o.keepttl && o.expireAt.Some? {
        var (expiring, done) := Lazy(stored, t2, Op.SetExpire(key, o.expireAt.value));
        PlayedStep(c, stored, clock, got3, Op.SetExpire(key, o.expireAt.value));
        PlayedDone(c, expiring, clock, got3 + [done]);
      } else {
        PlayedDone(c, stored, clock, got3);
      }
    }
  }

  // ------------------------------------------------------------ the program

  method GetStr(db: Db, key: Key, now: nat) returns (r: TextAt)
    modifies db
    ensures r == TextIn(LiveAt(old(db.data), now), key) == TextIn(db.data, key)
    ensures LiveAt(db.data, now) == LiveAt(old(db.data), now) && !Stale(db.data, key, now)
    ensures db.data == Purge(old(db.data), key, now)
  {
    var v := db.Get(key, now);
    match v {
      case None => r := Missing;
      case Some(Text(s)) => r := There(s);
      case Some(_) => r := OtherType;
    }
  }

  /** What `set_keep_ttl` does to a key that has just been looked at. */
  lemma RewriteIsLive(data: Store, key: Key, s: seq<byte>, now: nat)
    requires !Stale(data, key, now)
    ensures LiveAt(Plain(data, Op.SetKeepTtl(key, Text(s))).0, now) == Rewritten(LiveAt(data, now), key, s)
  {}

  method Append(db: Db, key: Key, suffix: seq<byte>, now: nat) returns (r: Answer)
    modifies db
    ensures (LiveAt(db.data, now), r) == Appended(LiveAt(old(db.data), now), key, suffix)
    ensures db.data == Played(Rewrite(key, Longer(suffix)), old(db.data), _ => now, [])
  {
    hide LiveAt, Stale, Plain, Rewritten, Played, Purge;
    RewritePlayed(key, Longer(suffix), db.data, now);
    var was := GetStr(db, key, now);
    if was.OtherType? {
      return WrongType;
    }
    var buf := if was.There? then was.s else [];
    buf := buf + suffix;
    RewriteIsLive(db.data, key, buf, now);
    db.SetKeepTtl(key, Text(buf));
    return Number(|buf|);
  }

  method DoIncr(db: Db, key: Key, delta: i64, now: nat) returns (r: Answer)
    modifies db
    ensures (LiveAt(db.data, now), r) == Incremented(LiveAt(old(db.data), now), key, delta)
    ensures db.data == Played(Rewrite(key, Sum(delta)), old(db.data), _ => now, [])
  {
    hide LiveAt, Stale, Plain, Rewritten, ParseI64, Render, Played, Purge;
    RewritePlayed(key, Sum(delta), db.data, now);
    var was := GetStr(db, key, now);
    var cur := 0;
    match was {
      case Missing =>
      case OtherType => return WrongType;
      case There(s) =>
        var parsed := ParseI64(s);
        if parsed.None? {
          return NotAnInteger;
        }
        cur := parsed.value;
    }
    var next := cur + delta;
    if next < -0x8000_0000_0000_0000 || next >= 0x8000_0000_0000_0000 {
      return Overflow;
    }
    RewriteIsLive(db.data, key, Render(next), now);
    db.SetKeepTtl(key, Text(Render(next)));
    return Number(next);
  }

  method SetRange(db: Db, key: Key, offset: i64, patch: seq<byte>, now: nat) returns (r: Answer)
    modifies db
    ensures offset < 0 ==> r == OutOfRange && db.data == old(db.data)
    ensures offset >= 0 ==>
      var m := LiveAt(old(db.data), now);
      var was := TextIn(m, key);
      if was.OtherType? then r == WrongType && LiveAt(db.data, now) == m
      else if patch == [] then r == Number(|OrEmpty(was)|) && LiveAt(db.data, now) == m
      else exists s :: && Patched(OrEmpty(was), offset, patch, s)
                       && r == Number(|s|) && LiveAt(db.data, now) == Rewritten(m, key, s)
    ensures offset >= 0 ==> db.data == Played(Rewrite(key, Overlay(offset, patch)), old(db.data), _ => now, [])
  {
    hide LiveAt, Stale, Plain, Rewritten, Played, Purge;
    if offset < 0 {
      return OutOfRange;
    }
    RewritePlayed(key, Overlay(offset, patch), db.data, now);
    var was := GetStr(db, key, now);
    if was.OtherType? {
      return WrongType;
    }
    var buf := if was.There? then was.s else [];
    if patch == [] {
      return Number(|buf|);
    }
    if |buf| < offset + |patch| {
      buf := buf + seq(offset + |patch| - |buf|, _ => 0);
    }
    buf := buf[..offset] + patch + buf[offset + |patch|..];
    assert buf == Overlaid(OrEmpty(was), offset, patch);
    RewriteIsLive(db.data, key, buf, now);
    db.SetKeepTtl(key, Text(buf));
    return Number(|buf|);
  }

  /** SET, with the clock read afresh by each database call it makes. */
  method Set(db: Db, key: Key, value: seq<byte>, o: SetOptions, t0: nat, t1: nat, t2: nat) returns (r: Answer)
    requires t0 <= t1 <= t2
    modifies db
    ensures var m := Assigned(LiveAt(old(db.data), t0), LiveAt(old(db.data), t1), key, value, o);
            r == m.1 && LiveAt(db.data, t1) == LiveAt(m.0, t1)
    ensures db.data == Played(Assign(key, value, o), old(db.data), SetClock(o, t0, t1, t2), [])
  {
    hide LiveAt, Stale, Plain, Rewritten, Played, NextCall, Lazy, Purge;
    AssignPlayed(db.data, key, value, o, t0, t1, t2);
    LiveTwice(db.data, t0, t1);
    LiveTwice(db.data, t1, t1);
    var was := Missing;
    if o.get {
      was := GetStr(db, key, t0);
      LiveTwice(db.data, t0, t1);
      if was.OtherType? {
        return WrongType;
      }
    }
    ContainsPurges(db.data, key, t1);
    var exist := db.Contains(key, t1);
    ContainsIsLive(db.data, key, t1);
    var shall := !(o.nx && exist) && !(o.xx && !exist);
    if shall {
      if o.keepttl {
        RewriteIsLive(db.data, key, value, t1);
        db.SetKeepTtl(key, Text(value));
        LiveTwice(db.data, t1, t1);
      } else {
        ghost var data := db.data;
        db.Set(key, Text(value));
        if o.expireAt.Some? {
          var _ := db.SetExpire(key, o.expireAt.value, t2);
        }
        AssignIsLive(data, key, value, o.expireAt, t1, t2);
      }
    }
    if o.get {
      return if was.There? then Bulk(was.s) else Nil;
    }
    return if shall then Okay else Nil;
  }

  lemma ContainsIsLive(data: Store, key: Key, now: nat)
    requires !Stale(data, key, now)
    ensures key in data <==> key in LiveAt(data, now)
  {}

  lemma AssignIsLive(data: Store, key: Key, value: seq<byte>, expireAt: Option<u64>, t1: nat, t2: nat)
    ensures var blank := Plain(data, Op.Set(key, Text(value))).0;
            var after := if expireAt.Some? then Lazy(blank, t2, Op.SetExpire(key, expireAt.value)).0 else blank;
            LiveAt(after, t1) == LiveAt(LiveAt(data, t1)[key := Entry(Text(value), expireAt)], t1)
  {}

  /** SET acts as one step at its second clock reading exactly when GET is not asked for or the key did
      not expire between the two: otherwise the reply tells of a key that the write no longer sees. */
  lemma SetIsAtomic(data: Store, key: Key, value: seq<byte>, o: SetOptions, t0: nat, t1: nat)
    requires t0 <= t1
    ensures var before, m := LiveAt(data, t0), LiveAt(data, t1);
            Assigned(before, m, key, value, o) == Assigned(m, m, key, value, o)
            <==> !(o.get && key in before && key !in m)
  {
    hide Rewritten;
    var before, m := LiveAt(data, t0), LiveAt(data, t1);
    assert key in m ==> key in before && m[key] == before[key];
  }

  /** What SET leaves live at its second reading, and its reply. */
  function Seen(data: Store, key: Key, value: seq<byte>, o: SetOptions, t0: nat, t1: nat): (Store, Answer) {
    var r := Assigned(LiveAt(data, t0), LiveAt(data, t1), key, value, o);
    (LiveAt(r.0, t1), r.1)
  }

  /** The same, had the whole command taken place at the one moment `t`. */
  function SeenAt(data: Store, key: Key, value: seq<byte>, o: SetOptions, t: nat, t1: nat): (Store, Answer) {
    var r := Assigned(LiveAt(data, t), LiveAt(data, t), key, value, o);
    (LiveAt(r.0, t1), r.1)
  }

  /** A text expired between the readings, GET has told of it, and the write then decided as for a missing key
      and made a difference by that. */
  predicate Torn(data: Store, key: Key, o: SetOptions, t0: nat, t1: nat) {
    && o.get && TextIn(LiveAt(data, t0), key).There? && key !in LiveAt(data, t1)
    && if o.keepttl then !o.xx else o.nx != o.xx && !Expired(o.expireAt, t1)
  }

  /** There is a moment from the first to the second reading at which SET could have happened as one step,
      for its reply and all that is live afterwards, if and only if it was not torn. */
  lemma SetIsOneStep(data: Store, key: Key, value: seq<byte>, o: SetOptions, t0: nat, t1: nat)
    requires t0 <= t1
    ensures (exists t :: t0 <= t <= t1 && SeenAt(data, key, value, o, t, t1) == Seen(data, key, value, o, t0, t1))
            <==> !Torn(data, key, o, t0, t1)
  {
    hide SeenAt, Seen, Torn;
    if Torn(data, key, o, t0, t1) {
      forall t | t0 <= t <= t1
        ensures SeenAt(data, key, value, o, t, t1) != Seen(data, key, value, o, t0, t1)
      {
        TornNowhere(data, key, value, o, t0, t, t1);
      }
    } else {
      EarlyOrLate(data, key, value, o, t0, t1);
    }
  }

  lemma EarlyOrLate(data: Store, key: Key, value: seq<byte>, o: SetOptions, t0: nat, t1: nat)
    requires t0 <= t1 && !Torn(data, key, o, t0, t1)
    ensures var seen := Seen(data, key, value, o, t0, t1);
            SeenAt(data, key, value, o, t0, t1) == seen || SeenAt(data, key, value, o, t1, t1) == seen
  {
    var before, m := LiveAt(data, t0), LiveAt(data, t1);
    LiveTwice(data, t0, t1);
    LiveTwice(data, t1, t1);
    if o.get && key in before && key !in m {
      assert Expired(before[key].expireAt, t1);
      assert LiveAt(Rewritten(before, key, value), t1) == m;
      var entry := Entry(Text(value), o.expireAt);
      assert LiveAt(before[key := entry], t1) == LiveAt(m[key := entry], t1);
      assert Expired(o.expireAt, t1) ==> LiveAt(m[key := entry], t1) == m;
    } else {
      SetIsAtomic(data, key, value, o, t0, t1);
    }
  }

  lemma TornNowhere(data: Store, key: Key, value: seq<byte>, o: SetOptions, t0: nat, t: nat, t1: nat)
    requires t0 <= t <= t1 && Torn(data, key, o, t0, t1)
    ensures SeenAt(data, key, value, o, t, t1) != Seen(data, key, value, o, t0, t1)
  {
    var before, mid, m := LiveAt(data, t0), LiveAt(data, t), LiveAt(data, t1);
    assert Expired(data[key].expireAt, t1);
    if key in mid {
      assert key in SeenAt(data, key, value, o, t, t1).0 <==> !o.nx && !o.keepttl && !Expired(o.expireAt, t1);
      assert key in Seen(data, key, value, o, t0, t1).0 <==> !o.xx && (o.keepttl || !Expired(o.expireAt, t1));
    }
  }

  /** The failing case: SET key b XX GET on a key that expires between its two readings answers with the old
      text and yet writes nothing. At no moment could a single step have done that. */
  lemma ReplyAndWriteDisagree(t: nat)
    requires 4 <= t <= 5
    ensures var key: Key := [107];
            var data: Store := map[key := Entry(Text([97]), Some(5))];
            var o := SetOptions(false, true, false, true, None);
            && Seen(data, key, [98], o, 4, 5) == (map[], Bulk([97]))
            && SeenAt(data, key, [98], o, t, 5)
               == (if t == 4 then (map[key := Entry(Text([98]), None)], Bulk([97])) else (map[], Nil))
  {
    var key: Key := [107];
    var data: Store := map[key := Entry(Text([97]), Some(5))];
    assert LiveAt(data, 4) == data;
    assert LiveAt(data, 5) == map[];
    assert data[key := Entry(Text([98]), None)] == map[key := Entry(Text([98]), None)];
    assert TextIn(data, key) == There([97]);
    assert LiveAt(map[key := Entry(Text([98]), None)], 5) == map[key := Entry(Text([98]), None)];
    assert LiveAt(map[], 5) == map[];
  }

  /** APPEND keeps the old text in front and puts the new one behind it, under the old expiry, creating the key if need
      be; it answers with the new length. Another type is refused. */
  lemma AppendGrows(m: Store, key: Key, suffix: seq<byte>)
    ensures var (after, r) := Appended(m, key, suffix);
            && (r == WrongType <==> key in m && !m[key].value.Text?)
            && (r == WrongType ==> after == m)
            && (r != WrongType ==>
                  && key in after && after[key].value.Text? && after[key].expireAt == ExpiryIn(m, key)
                  && (key in m ==> m[key].value.s + suffix == after[key].value.s)
                  && (key !in m ==> after[key].value.s == suffix)
                  && r == Number(|after[key].value.s|)
                  && (forall k :: k != key ==> (k in after <==> k in m) && (k in m ==> after[k] == m[k])))
  {}

  /** INCR fails on another type, on a text that is no 64-bit integer, and when the sum is none; a missing key counts
      as zero. */
  lemma IncrementFails(m: Store, key: Key, delta: i64)
    ensures var r := Incremented(m, key, delta).1;
            && (r == WrongType <==> key in m && !m[key].value.Text?)
            && (r == NotAnInteger <==> key in m && m[key].value.Text? && ParseI64(m[key].value.s).None?)
            && (r == Overflow ==> key in m && m[key].value.Text? && ParseI64(m[key].value.s).Some?)
            && (key !in m ==> r == Number(delta))
            && (key in m && m[key].value.Text? && ParseI64(m[key].value.s).Some? ==>
                  var sum := ParseI64(m[key].value.s).value + delta;
                  r == if sum < -9223372036854775808 || sum > 9223372036854775807 then Overflow else Number(sum))
  {
    hide ParseI64, Render;
  }

  /** SET at one moment: NX wants the key missing, XX wants it there; the text is stored under the expiry given, the old
      one with KEEPTTL, or none; GET answers with the old text and refuses another type. */
  lemma SetMeans(m: Store, key: Key, value: seq<byte>, o: SetOptions)
    ensures var (after, r) := Assigned(m, m, key, value, o);
            var refused := o.get && key in m && !m[key].value.Text?;
            var writes := !refused && (o.nx ==> key !in m) && (o.xx ==> key in m);
            && (!writes ==> after == m)
            && (writes ==> after == m[key := Entry(Text(value), if !o.keepttl then o.expireAt
                                                                else if key in m then m[key].expireAt else None)])
            && (r == WrongType <==> refused)
            && (!refused && o.get ==> r == if key in m then Bulk(m[key].value.s) else Nil)
            && (!o.get ==> r == if writes then Okay else Nil)
  {}

  /** An increment that succeeds leaves the sum as text, under the expiry the key had, and touches no other key. */
  lemma IncrementAdds(m: Store, key: Key, delta: i64)
    ensures var (after, r) := Incremented(m, key, delta);
            var was := TextIn(m, key);
            && (r.Number? ==>
                  && TextIn(after, key) == There(Render(r.n)) && ParseI64(Render(r.n)) == Some(r.n)
                  && (if was.There? then ParseI64(was.s) == Some(r.n - delta) else r.n == delta)
                  && ExpiryIn(after, key) == ExpiryIn(m, key))
            && (!r.Number? ==> after == m)
            && (forall k :: k != key ==> (k in after <==> k in m) && (k in m ==> after[k] == m[k]))
  {
    hide ParseI64, Render;
    var r := Incremented(m, key, delta).1;
    if r.Number? {
      I64RoundTrip(r.n);
    }
  }

  // ------------------------------------------------- whole runs of commands

  /** Whoever sends the commands: the next one may depend on all replies to the ones before. */
  type Caller = seq<seq<Reply>> -> Request

  /** The replies so far: those of every finished command, and those of the one under way. */
  function Progress(caller: Caller, replies: seq<Reply>): (p: (seq<seq<Reply>>, seq<Reply>))
    ensures NextCall(caller(p.0), p.1).Some?
    ensures |p.1| <= |replies|
  {
    if replies == [] then ([], [])
    else
      var (finished, current) := Progress(caller, replies[..|replies| - 1]);
      var got := current + [replies[|replies| - 1]];
      if NextCall(caller(finished), got).None? then (finished + [got], []) else (finished, got)
  }

  /** The calls that reach the database. */
  function Calls(caller: Caller): Client {
    (replies: seq<Reply>) =>
      var p := Progress(caller, replies);
      NextCall(caller(p.0), p.1).value
  }

  /** A command that is not at its first call made the call before it, and if it is now at `set_keep_ttl`,
      that call has purged the key. */
  lemma KeepTtlAfterLookup(c: Request, got: seq<Reply>)
    requires NextCall(c, got).Some? && NextCall(c, got).value.SetKeepTtl?
    ensures got != []
    ensures var earlier := NextCall(c, got[..|got| - 1]);
            earlier.Some? && Settles(earlier.value, NextCall(c, got).value.key)
  {
    if c.Assign? && c.o.get {
      assert got[..|got| - 1][0] == got[0];
    }
  }

  lemma CommandsAreCareful(caller: Caller)
    ensures Careful(Calls(caller))
  {
    hide NextCall, Settles;
    forall replies: seq<Reply> | Calls(caller)(replies).SetKeepTtl?
      ensures replies != []
              && Settles(Calls(caller)(replies[..|replies| - 1]), Calls(caller)(replies).key)
    {
      var (finished, got) := Progress(caller, replies);
      KeepTtlAfterLookup(caller(finished), got);
      var most := replies[..|replies| - 1];
      assert Progress(caller, most) == (finished, got[..|got| - 1]) by {
        StillUnderWay(caller, replies);
      }
    }
  }

  lemma StillUnderWay(caller: Caller, replies: seq<Reply>)
    requires Progress(caller, replies).1 != []
    ensures replies != []
    ensures var (finished, got) := Progress(caller, replies);
            Progress(caller, replies[..|replies| - 1]) == (finished, got[..|got| - 1])
  {
    hide NextCall, Progress;
    ProgressMade(caller, replies);
    if replies != [] {
      var current := Progress(caller, replies[..|replies| - 1]).1;
      assert (current + [replies[|replies| - 1]])[..|current|] == current;
    }
  }

  lemma ProgressMade(caller: Caller, replies: seq<Reply>)
    ensures replies == [] ==> Progress(caller, replies).1 == []
    ensures replies != [] ==>
              var before := Progress(caller, replies[..|replies| - 1]);
              var got := before.1 + [replies[|replies| - 1]];
              Progress(caller, replies) == (before.0, got) || Progress(caller, replies).1 == []
  {
    hide NextCall;
  }

  /** Lazy expiry cannot be observed through commands: whatever sequence of them anyone sends, each choice
      depending on all that was answered, every reply is the eagerly expiring map's, and so is what is left. */
  lemma CommandsCannotTell(caller: Caller, clock: nat -> nat, data: Store, n: nat)
    requires Forward(clock)
    ensures Agree(LazyRun(Calls(caller), clock, data, n), EagerRun(Calls(caller), clock, data, n))
  {
    hide Careful, Agree;
    CommandsAreCareful(caller);
    Unobservable(Calls(caller), clock, data, n);
  }
}
