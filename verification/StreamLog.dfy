/** One stream over its whole life: id allocation, deletion, trimming and a reader that tails it. */
module StreamLog {
  import opened Bytes
  import opened Decimal
  import opened Values

  const DASH: byte := 45
  const STAR: byte := 42

  type LogEntry = (StreamId, Fields)

  /** A stream, its entries in the order a `BTreeMap` keeps them. */
  datatype Journal = Journal(entries: seq<LogEntry>, lastId: StreamId, maxDeletedId: StreamId)

  const EMPTY := Journal([], MIN_ID, MIN_ID)

  predicate Ascending(entries: seq<LogEntry>) {
    forall i, j :: 0 <= i < j < |entries| ==> entries[i].0.Less(entries[j].0)
  }

  predicate Sound(log: Journal) {
    && Ascending(log.entries)
    && (forall i :: 0 <= i < |log.entries| ==> log.entries[i].0.AtMost(log.lastId))
    && log.maxDeletedId.AtMost(log.lastId)
  }

  // ------------------------------------------------------------------------ ids

  function Next(id: StreamId): Option<StreamId> {
    if id.num == 0xffff_ffff_ffff_ffff then
      if id.ms == 0xffff_ffff_ffff_ffff then None else Some(StreamId(id.ms + 1, 0))
    else Some(StreamId(id.ms, id.num + 1))
  }

  /** `Next` is the least id above, and only the greatest id has none. */
  lemma NextIsLeastAbove(id: StreamId, other: StreamId)
    ensures Next(id).None? <==> id == MAX_ID
    ensures Next(id).Some? ==> (id.Less(other) <==> Next(id).value.AtMost(other))
  {}

  datatype IdError = Invalid | TooSmall | Exhausted
  datatype IdResult = Good(id: StreamId) | Bad(error: IdError)

  function FirstDash(s: seq<byte>): (r: Option<nat>)
    ensures r.Some? ==> r.value < |s| && s[r.value] == DASH
  {
    if s == [] then None
    else if s[0] == DASH then Some(0)
    else match FirstDash(s[1..])
      case None => None
      case Some(i) => Some(i + 1)
  }

  function NextOf(last: StreamId): IdResult {
    match Next(last)
    case None => Bad(Exhausted)
    case Some(id) => Good(id)
  }

  function Above(id: StreamId, last: StreamId): IdResult {
    if id.AtMost(last) then Bad(TooSmall) else Good(id)
  }

  /** The id an XADD will use, from its argument, the stream's last id and the clock. */
  function ResolveAddId(arg: seq<byte>, last: StreamId, now: u64): IdResult {
    if arg == [STAR] then
      if now > last.ms then Good(StreamId(now, 0)) else NextOf(last)
    else match FirstDash(arg)
      case Some(dash) => (
        match ParseU64(arg[..dash])
        case None => Bad(Invalid)
        case Some(ms) =>
          if arg[dash + 1..] == [STAR] then
            if last.ms == ms then
              match NextOf(last)
              case Bad(e) => Bad(e)
              case Good(id) => Above(id, last)
            else Above(StreamId(ms, 0), last)
          else match ParseU64(arg[dash + 1..])
            case None => Bad(Invalid)
            case Some(num) => Above(StreamId(ms, num), last)
      )
      case None =>
        match ParseU64(arg)
        case None => Bad(Invalid)
        case Some(ms) => Above(StreamId(ms, 0), last)
  }

  /** Whatever the argument and the clock say, an id that is given out is above every id before it; in
      particular it is never 0-0, so the check for that after it cannot fire. */
  lemma ResolvedIsAbove(arg: seq<byte>, last: StreamId, now: u64)
    requires ResolveAddId(arg, last, now).Good?
    ensures last.Less(ResolveAddId(arg, last, now).id) && ResolveAddId(arg, last, now).id != MIN_ID
  {
    hide ParseU64, FirstDash;
    NextIsLeastAbove(last, MAX_ID);
  }

  /** `id` is the least one above `last` that is at or after `from`. */
  ghost predicate LeastAbove(id: StreamId, last: StreamId, from: StreamId) {
    && last.Less(id) && from.AtMost(id)
    && (forall other: StreamId :: last.Less(other) && from.AtMost(other) ==> id.AtMost(other))
  }

  /** `*` gives the least id above the last one that is not before the clock, whichever way the clock has
      moved, and fails only when there is none. */
  lemma AutoIdIsLeast(last: StreamId, now: u64)
    ensures match ResolveAddId([STAR], last, now)
            case Good(id) => LeastAbove(id, last, StreamId(now, 0))
            case Bad(e) => e == Exhausted && last == MAX_ID
  {
    forall other: StreamId
      ensures last != MAX_ID ==> (last.Less(other) <==> Next(last).value.AtMost(other))
    {
      NextIsLeastAbove(last, other);
    }
  }

  /** `<ms>-*` gives the least id above the last one from that millisecond on. When the last id has used
      the millisecond up, that is an id of the next one. */
  lemma AutoSequenceIsLeast(ms: u64, last: StreamId, now: u64)
    ensures match ResolveAddId(Digits(ms) + [DASH, STAR], last, now)
            case Good(id) => ms >= last.ms && LeastAbove(id, last, StreamId(ms, 0))
            case Bad(e) => (e == TooSmall && ms < last.ms) || (e == Exhausted && last == MAX_ID && ms == last.ms)
  {
    hide ParseU64;
    var a := Digits(ms);
    var arg := a + [DASH, STAR];
    assert arg == a + [DASH] + [STAR];
    DashAfterDigits(a, [STAR]);
    assert arg[..|a|] == a && arg[|a| + 1..] == [STAR];
    assert IsDigit(arg[0]);
    U64RoundTrip(ms);
    forall other: StreamId
      ensures last != MAX_ID ==> (last.Less(other) <==> Next(last).value.AtMost(other))
    {
      NextIsLeastAbove(last, other);
    }
  }

  /** An explicit id, printed and resolved again, is taken exactly when it is above the last one. */
  lemma ExplicitId(id: StreamId, last: StreamId, now: u64)
    ensures ResolveAddId(Digits(id.ms) + [DASH] + Digits(id.num), last, now)
            == if last.Less(id) then Good(id) else Bad(TooSmall)
  {
    hide ParseU64;
    var a, b := Digits(id.ms), Digits(id.num);
    var arg := a + [DASH] + b;
    DashAfterDigits(a, b);
    assert arg[..|a|] == a && arg[|a| + 1..] == b;
    assert IsDigit(arg[0]) && IsDigit(b[0]);
    U64RoundTrip(id.ms);
    U64RoundTrip(id.num);
  }

  lemma {:induction false} DashAfterDigits(a: seq<byte>, b: seq<byte>)
    requires AllDigits(a)
    ensures FirstDash(a + [DASH] + b) == Some(|a|)
  {
    var s := a + [DASH] + b;
    if a != [] {
      assert s[0] == a[0] && IsDigit(a[0]);
      assert s[1..] == a[1..] + [DASH] + b;
      DashAfterDigits(a[1..], b);
    }
  }

  // ------------------------------------------------------------------ operations

  datatype TrimSpec = MaxLen(target: nat, limit: Option<i64>) | MinId(min: StreamId, limit: Option<i64>)

  function Greater(a: StreamId, b: StreamId): StreamId {
    if b.Less(a) then a else b
  }

  /** `entries` without the first, which is the least. */
  function DropFirst(log: Journal): Journal
    requires log.entries != []
  {
    Journal(log.entries[1..], log.lastId, Greater(log.entries[0].0, log.maxDeletedId))
  }

  function DropFirsts(log: Journal, n: nat): Journal
    requires n <= |log.entries|
    decreases n
  {
    if n == 0 then log else DropFirsts(DropFirst(log), n - 1)
  }

  /** How many entries lie below `min`. */
  function Below(entries: seq<LogEntry>, min: StreamId): (n: nat)
    ensures n <= |entries|
  {
    if entries == [] || !entries[0].0.Less(min) then 0 else 1 + Below(entries[1..], min)
  }

  function AtMostCap(n: nat, cap: nat): nat {
    if cap < n then cap else n
  }

  /** How many entries a trim removes. A MAXLEN limit of zero or less removes nothing; a negative MINID
      limit is cast to a huge count and limits nothing. */
  function TrimCount(entries: seq<LogEntry>, spec: TrimSpec): (n: nat)
    ensures n <= |entries|
  {
    match spec
    case MaxLen(target, limit) =>
      var over := if |entries| > target then |entries| - target else 0;
      if limit.None? then over else if limit.value <= 0 then 0 else AtMostCap(over, limit.value)
    case MinId(min, limit) =>
      if limit.None? then Below(entries, min) else AtMostCap(Below(entries, min), limit.value % 0x1_0000_0000_0000_0000)
  }

  function Trimmed(log: Journal, spec: TrimSpec): Journal {
    DropFirsts(log, TrimCount(log.entries, spec))
  }

  function IndexOfId(entries: seq<LogEntry>, id: StreamId): (r: Option<nat>)
    ensures r.Some? ==> r.value < |entries| && entries[r.value].0 == id
    ensures r.None? ==> forall i :: 0 <= i < |entries| ==> entries[i].0 != id
  {
    if entries == [] then None
    else if entries[0].0 == id then Some(0)
    else match IndexOfId(entries[1..], id)
      case None => None
      case Some(i) => Some(i + 1)
  }

  function DelOne(log: Journal, id: StreamId): Journal {
    match IndexOfId(log.entries, id)
    case None => log
    case Some(i) => Journal(log.entries[..i] + log.entries[i + 1..], log.lastId, Greater(id, log.maxDeletedId))
  }

  function DelAll(log: Journal, ids: seq<StreamId>): Journal {
    if ids == [] then log else DelOne(DelAll(log, ids[..|ids| - 1]), ids[|ids| - 1])
  }

  datatype Op =
    | XAdd(arg: seq<byte>, fields: Fields, now: u64, trim: Option<TrimSpec>)
    | XDel(ids: seq<StreamId>)
    | XTrim(spec: TrimSpec)

  function Appended(log: Journal, id: StreamId, fields: Fields, trim: Option<TrimSpec>): Journal {
    var more := Journal(log.entries + [(id, fields)], id, log.maxDeletedId);
    if trim.None? then more else Trimmed(more, trim.value)
  }

  function Do(log: Journal, op: Op): Journal {
    match op
    case XAdd(arg, fields, now, trim) => (
      match ResolveAddId(arg, log.lastId, now)
      case Bad(_) => log
      case Good(id) => Appended(log, id, fields, trim)
    )
    case XDel(ids) => DelAll(log, ids)
    case XTrim(spec) => Trimmed(log, spec)
  }

  /** Entries from the first above `from` on, no more than `count` of them; a count of zero still
      returns one. */
  function After(entries: seq<LogEntry>, from: StreamId): seq<LogEntry> {
    var lower := if Next(from).None? then MAX_ID else Next(from).value;
    entries[Below(entries, lower)..]
  }

  function ReadAfter(entries: seq<LogEntry>, from: StreamId, count: Option<nat>): seq<LogEntry> {
    var items := After(entries, from);
    if count.None? || |items| == 0 then items
    else items[..AtMostCap(|items|, if count.value == 0 then 1 else count.value)]
  }

  // ------------------------------------------------------------------ the program

  class StreamKey {
    var entries: seq<LogEntry>
    var lastId: StreamId
    var maxDeletedId: StreamId

    constructor ()
      ensures State() == EMPTY
    {
      entries, lastId, maxDeletedId := [], MIN_ID, MIN_ID;
    }

    ghost function State(): Journal
      reads this
    {
      Journal(entries, lastId, maxDeletedId)
    }

    /** The ordered map's `insert` of an id above all others puts it last. */
    method XAdd(arg: seq<byte>, fields: Fields, now: u64, trim: Option<TrimSpec>) returns (r: IdResult)
      requires Sound(State())
      modifies this
      ensures r == ResolveAddId(arg, old(lastId), now)
      ensures State() == Do(old(State()), Op.XAdd(arg, fields, now, trim)) && Sound(State())
    {
      hide ResolveAddId, Trimmed;
      r := ResolveAddId(arg, lastId, now);
      match r {
        case Bad(_) =>
        case Good(id) =>
          ResolvedIsAbove(arg, lastId, now);
          DoSound(State(), Op.XAdd(arg, fields, now, trim));
          entries := entries + [(id, fields)];
          lastId := id;
          if trim.Some? {
            var _ := ApplyTrim(trim.value);
          }
      }
    }

    method XDel(ids: seq<StreamId>) returns (n: nat)
      requires Sound(State())
      modifies this
      ensures State() == Do(old(State()), Op.XDel(ids)) && Sound(State())
      ensures n == |old(entries)| - |entries|
    {
      n := 0;
      assert ids[..0] == [];
      DoSound(State(), Op.XDel(ids));
      for k := 0 to |ids|
        invariant State() == DelAll(old(State()), ids[..k]) && n == |old(entries)| - |entries|
      {
        assert ids[..k + 1][..k] == ids[..k];
        var i := IndexOfId(entries, ids[k]);
        if i.Some? {
          entries := entries[..i.value] + entries[i.value + 1..];
          if maxDeletedId.Less(ids[k]) {
            maxDeletedId := ids[k];
          }
          n := n + 1;
        }
      }
      assert ids[..|ids|] == ids;
    }

    method ApplyTrim(spec: TrimSpec) returns (removed: nat)
      modifies this
      ensures State() == Trimmed(old(State()), spec) && removed == TrimCount(old(entries), spec)
    {
      ghost var start := State();
      removed := 0;
      match spec {
        case MaxLen(target, limit) =>
          while |entries| > target
            invariant removed <= TrimCount(start.entries, spec) && |entries| == |start.entries| - removed
            invariant State() == DropFirsts(start, removed)
          {
            if limit.Some? && removed >= limit.value {
              break;
            }
            DropOneMore(start, removed);
            RemoveFirst();
            removed := removed + 1;
          }
        case MinId(min, limit) =>
          var cap := if limit.None? then |entries| else limit.value % 0x1_0000_0000_0000_0000;
          while removed < cap && entries != [] && entries[0].0.Less(min)
            invariant removed <= TrimCount(start.entries, spec) && |entries| == |start.entries| - removed
            invariant State() == DropFirsts(start, removed)
            invariant Below(start.entries, min) == removed + Below(entries, min)
          {
            DropOneMore(start, removed);
            RemoveFirst();
            removed := removed + 1;
          }
      }
    }

    method RemoveFirst()
      requires entries != []
      modifies this
      ensures State() == DropFirst(old(State()))
    {
      var first := entries[0].0;
      entries := entries[1..];
      if maxDeletedId.Less(first) {
        maxDeletedId := first;
      }
    }

    method XRead(from: StreamId, count: Option<nat>) returns (items: seq<LogEntry>)
      ensures items == ReadAfter(entries, from, count)
    {
      var lower := if Next(from).None? then MAX_ID else Next(from).value;
      items := [];
      ghost var rest := After(entries, from);
      for i := Below(entries, lower) to |entries|
        invariant |items| == i - Below(entries, lower) && items == rest[..|items|]
        invariant items != [] && count.Some? ==> |items| < count.value
      {
        items := items + [entries[i]];
        if count.Some? && |items| >= count.value {
          return;
        }
      }
    }
  }

  lemma {:induction false} DropOneMore(log: Journal, n: nat)
    requires n < |log.entries|
    ensures |DropFirsts(log, n).entries| == |log.entries| - n
    ensures DropFirsts(log, n + 1) == DropFirst(DropFirsts(log, n))
    decreases n
  {
    if n > 0 {
      DropOneMore(DropFirst(log), n - 1);
    }
  }

  // ------------------------------------------------------------------- one step

  lemma {:induction false} DropFirstsSuffix(log: Journal, n: nat)
    requires n <= |log.entries|
    ensures DropFirsts(log, n).entries == log.entries[n..] && DropFirsts(log, n).lastId == log.lastId
    ensures Sound(log) ==> Sound(DropFirsts(log, n))
    decreases n
  {
    if n > 0 {
      DropFirstsSuffix(DropFirst(log), n - 1);
    }
  }

  /** Trimming leaves a suffix. MAXLEN without a limit leaves the last `target`; MINID without one leaves
      exactly the ids from `min` up. */
  lemma TrimLeavesSuffix(log: Journal, spec: TrimSpec)
    requires Ascending(log.entries)
    ensures Trimmed(log, spec).entries == log.entries[TrimCount(log.entries, spec)..]
    ensures spec.MaxLen? && spec.limit.None? ==>
      |Trimmed(log, spec).entries| == AtMostCap(|log.entries|, spec.target)
    ensures spec.MinId? && (spec.limit.None? || |log.entries| <= spec.limit.value) ==>
      forall e :: e in Trimmed(log, spec).entries <==> e in log.entries && !e.0.Less(spec.min)
  {
    hide Below, Ascending;
    DropFirstsSuffix(log, TrimCount(log.entries, spec));
    if spec.MinId? {
      AboveMin(log.entries, spec.min);
    }
  }

  lemma AboveMin(entries: seq<LogEntry>, min: StreamId)
    requires Ascending(entries)
    ensures forall e :: e in entries[Below(entries, min)..] <==> e in entries && !e.0.Less(min)
  {
    hide Below, Ascending;
    BelowSplits(entries, min);
    var n := Below(entries, min);
    forall e | e in entries && !e.0.Less(min)
      ensures e in entries[n..]
    {
      var i :| 0 <= i < |entries| && entries[i] == e;
      assert entries[n..][i - n] == e;
    }
  }

  lemma {:induction false} BelowSplits(entries: seq<LogEntry>, min: StreamId)
    requires Ascending(entries)
    ensures forall i :: 0 <= i < |entries| ==> (entries[i].0.Less(min) <==> i < Below(entries, min))
  {
    if entries != [] {
      BelowSplits(entries[1..], min);
      forall i | 0 < i < |entries|
        ensures entries[i].0.Less(min) ==> entries[0].0.Less(min)
        ensures entries[i] == entries[1..][i - 1]
      {}
    }
  }

  lemma DelOneSound(log: Journal, id: StreamId)
    requires Sound(log)
    ensures Sound(DelOne(log, id)) && DelOne(log, id).lastId == log.lastId
    ensures forall e :: e in DelOne(log, id).entries <==> e in log.entries && e.0 != id
  {
    var r := IndexOfId(log.entries, id);
    if r.Some? {
      RemovedElements(log.entries, r.value);
      assert log.entries[r.value].0.AtMost(log.lastId);
    } else {
      forall e | e in log.entries
        ensures e.0 != id
      {
        var i :| 0 <= i < |log.entries| && log.entries[i] == e;
      }
    }
  }

  lemma OthersDiffer(entries: seq<LogEntry>, i: nat, j: nat)
    requires Ascending(entries) && i < |entries| && j < |entries| && i != j
    ensures entries[i].0 != entries[j].0
  {
    assert entries[i].0.Less(entries[j].0) || entries[j].0.Less(entries[i].0);
  }

  lemma RemovedElements(entries: seq<LogEntry>, i: nat)
    requires Ascending(entries) && i < |entries|
    ensures var kept := entries[..i] + entries[i + 1..];
            Ascending(kept) && forall e :: e in kept <==> e in entries && e.0 != entries[i].0
  {
    hide Ascending;
    var kept := entries[..i] + entries[i + 1..];
    RemovedAscending(entries, i);
    forall j | 0 <= j < |entries| && j != i
      ensures entries[j].0 != entries[i].0 && entries[j] in kept
    {
      OthersDiffer(entries, i, j);
      assert kept[if j < i then j else j - 1] == entries[j];
    }
    forall k | 0 <= k < |kept|
      ensures kept[k] == entries[if k < i then k else k + 1]
    {}
  }

  lemma RemovedAscending(entries: seq<LogEntry>, i: nat)
    requires Ascending(entries) && i < |entries|
    ensures Ascending(entries[..i] + entries[i + 1..])
  {
    var kept := entries[..i] + entries[i + 1..];
    forall a, b | 0 <= a < b < |kept|
      ensures kept[a].0.Less(kept[b].0)
    {
      assert kept[a] == entries[if a < i then a else a + 1] && kept[b] == entries[if b < i then b else b + 1];
    }
  }

  lemma {:induction false} DelAllSound(log: Journal, ids: seq<StreamId>)
    requires Sound(log)
    ensures Sound(DelAll(log, ids)) && DelAll(log, ids).lastId == log.lastId
    ensures forall e :: e in DelAll(log, ids).entries <==> e in log.entries && e.0 !in ids
  {
    hide Sound;
    if ids != [] {
      var last := |ids| - 1;
      DelAllSound(log, ids[..last]);
      DelOneSound(DelAll(log, ids[..last]), ids[last]);
      assert ids == ids[..last] + [ids[last]];
    }
  }

  lemma DoSound(log: Journal, op: Op)
    requires Sound(log)
    ensures Sound(Do(log, op)) && log.lastId.AtMost(Do(log, op).lastId)
  {
    hide ResolveAddId, TrimCount;
    match op {
      case XAdd(arg, fields, now, trim) =>
        var r := ResolveAddId(arg, log.lastId, now);
        if r.Good? {
          ResolvedIsAbove(arg, log.lastId, now);
          var more := Journal(log.entries + [(r.id, fields)], r.id, log.maxDeletedId);
          assert Sound(more);
          if trim.Some? {
            DropFirstsSuffix(more, TrimCount(more.entries, trim.value));
          }
        }
      case XDel(ids) => DelAllSound(log, ids);
      case XTrim(spec) => DropFirstsSuffix(log, TrimCount(log.entries, spec));
    }
  }

  // ------------------------------------------------------------------- whole runs

  function DoAll(log: Journal, ops: seq<Op>): Journal {
    if ops == [] then log else Do(DoAll(log, ops[..|ops| - 1]), ops[|ops| - 1])
  }

  /** The ids XADD returned, in order. */
  function Returned(log: Journal, ops: seq<Op>): seq<StreamId> {
    if ops == [] then []
    else
      var before, op := DoAll(log, ops[..|ops| - 1]), ops[|ops| - 1];
      Returned(log, ops[..|ops| - 1])
      + (if op.XAdd? && ResolveAddId(op.arg, before.lastId, op.now).Good?
         then [ResolveAddId(op.arg, before.lastId, op.now).id] else [])
  }

  /** Whatever an operation removes is at or below the greatest deleted id from then on. */
  lemma DeletedRemembered(log: Journal, op: Op)
    requires Sound(log)
    ensures log.maxDeletedId.AtMost(Do(log, op).maxDeletedId)
    ensures forall e :: e in log.entries && e !in Do(log, op).entries ==> e.0.AtMost(Do(log, op).maxDeletedId)
  {
    hide ResolveAddId, TrimCount, Sound;
    match op {
      case XAdd(arg, fields, now, trim) =>
        var r := ResolveAddId(arg, log.lastId, now);
        if r.Good? && trim.Some? {
          var more := Journal(log.entries + [(r.id, fields)], r.id, log.maxDeletedId);
          DropRemembered(more, TrimCount(more.entries, trim.value));
        }
      case XDel(ids) => DelRemembered(log, ids);
      case XTrim(spec) => DropRemembered(log, TrimCount(log.entries, spec));
    }
  }

  lemma {:induction false} DropRemembered(log: Journal, n: nat)
    requires n <= |log.entries|
    ensures log.maxDeletedId.AtMost(DropFirsts(log, n).maxDeletedId)
    ensures forall e :: e in log.entries && e !in DropFirsts(log, n).entries ==> e.0.AtMost(DropFirsts(log, n).maxDeletedId)
    decreases n
  {
    if n > 0 {
      var next := DropFirst(log);
      DropRemembered(next, n - 1);
      assert log.entries == [log.entries[0]] + next.entries;
    }
  }

  lemma {:induction false} DelRemembered(log: Journal, ids: seq<StreamId>)
    requires Sound(log)
    ensures log.maxDeletedId.AtMost(DelAll(log, ids).maxDeletedId)
    ensures forall e :: e in log.entries && e !in DelAll(log, ids).entries ==> e.0.AtMost(DelAll(log, ids).maxDeletedId)
  {
    hide Sound;
    if ids != [] {
      var last := |ids| - 1;
      var before := DelAll(log, ids[..last]);
      DelRemembered(log, ids[..last]);
      DelAllSound(log, ids[..last]);
      DelOneSound(before, ids[last]);
      forall e | e in before.entries && e !in DelOne(before, ids[last]).entries
        ensures e.0 == ids[last] && ids[last].AtMost(DelOne(before, ids[last]).maxDeletedId)
      {
        var r := IndexOfId(before.entries, ids[last]);
      }
    }
  }

  /** `ids` were given out in this order between `low` and `high`. */
  predicate Climbing(low: StreamId, ids: seq<StreamId>, high: StreamId) {
    && (forall i, j :: 0 <= i < j < |ids| ==> ids[i].Less(ids[j]))
    && (forall i :: 0 <= i < |ids| ==> low.Less(ids[i]) && ids[i].AtMost(high))
    && low.AtMost(high)
  }

  lemma ClimbOn(low: StreamId, ids: seq<StreamId>, high: StreamId, more: seq<StreamId>, top: StreamId)
    requires Climbing(low, ids, high) && high.AtMost(top)
    requires more == [] || (more == [top] && high.Less(top))
    ensures Climbing(low, ids + more, top)
  {}

  /** Over every run, ids given out strictly increase, and the stream stays ordered with every entry and
      the greatest deleted id at or below the last id, whatever the clock does. */
  lemma {:induction false} IdsIncrease(log: Journal, ops: seq<Op>)
    requires Sound(log)
    ensures Sound(DoAll(log, ops)) && Climbing(log.lastId, Returned(log, ops), DoAll(log, ops).lastId)
  {
    hide Sound, Do, ResolveAddId, Climbing;
    if ops == [] {
      assert Climbing(log.lastId, [], log.lastId) by {
        NothingClimbs(log.lastId);
      }
    } else {
      var most, op := ops[..|ops| - 1], ops[|ops| - 1];
      IdsIncrease(log, most);
      var before := DoAll(log, most);
      DoSound(before, op);
      var more := [];
      if op.XAdd? && ResolveAddId(op.arg, before.lastId, op.now).Good? {
        ResolvedIsAbove(op.arg, before.lastId, op.now);
        LastIsNew(before, op);
        more := [ResolveAddId(op.arg, before.lastId, op.now).id];
      }
      ClimbOn(log.lastId, Returned(log, most), before.lastId, more, Do(before, op).lastId);
    }
  }

  lemma NothingClimbs(id: StreamId)
    ensures Climbing(id, [], id)
  {}

  lemma LastIsNew(log: Journal, op: Op)
    requires op.XAdd? && ResolveAddId(op.arg, log.lastId, op.now).Good?
    ensures Do(log, op).lastId == ResolveAddId(op.arg, log.lastId, op.now).id
  {
    hide ResolveAddId, TrimCount;
    var id := ResolveAddId(op.arg, log.lastId, op.now).id;
    var more := Journal(log.entries + [(id, op.fields)], id, log.maxDeletedId);
    if op.trim.Some? {
      DropFirstsSuffix(more, TrimCount(more.entries, op.trim.value));
    }
  }

  // -------------------------------------------------------------- a tailing reader

  /** Reading from `from` gives entries above it exactly when `from` is not the greatest id, or no entry
      has that id: there the reader would be given the same entry for ever. */
  lemma ReadsAboveExactly(entries: seq<LogEntry>, from: StreamId)
    requires Ascending(entries)
    ensures (forall e :: e in After(entries, from) <==> e in entries && from.Less(e.0))
            <==> (from != MAX_ID || forall e :: e in entries ==> e.0 != MAX_ID)
  {
    var lower := if Next(from).None? then MAX_ID else Next(from).value;
    AfterIsFrom(entries, lower);
    forall e: LogEntry
      ensures from != MAX_ID ==> (from.Less(e.0) <==> lower.AtMost(e.0))
      ensures from == MAX_ID ==> !from.Less(e.0) && (lower.AtMost(e.0) <==> e.0 == MAX_ID)
    {
      NextIsLeastAbove(from, e.0);
    }
  }

  /** The failing case, one XADD away in any stream: once an entry has the greatest id, a reader that has seen
      it is given it again, however often and with whatever count it asks. */
  lemma GreatestIdRepeats(log: Journal, fields: Fields, now: u64, count: Option<nat>)
    requires Sound(log) && log.lastId != MAX_ID
    ensures var after := Do(log, XAdd(IdText(MAX_ID), fields, now, None));
            && after.entries == log.entries + [(MAX_ID, fields)]
            && ReadAfter(after.entries, MAX_ID, count) == [(MAX_ID, fields)]
  {
    hide ResolveAddId, Digits, Below;
    ExplicitId(MAX_ID, log.lastId, now);
    DoSound(log, XAdd(IdText(MAX_ID), fields, now, None));
    LastAlone(log.entries + [(MAX_ID, fields)]);
  }

  lemma LastAlone(entries: seq<LogEntry>)
    requires Ascending(entries) && entries != [] && entries[|entries| - 1].0 == MAX_ID
    ensures After(entries, MAX_ID) == [entries[|entries| - 1]]
  {
    var last, n := |entries| - 1, Below(entries, MAX_ID);
    AfterIsFrom(entries, MAX_ID);
    assert entries[last] in entries[n..];
    assert entries[n..][0] == entries[n];
  }

  lemma AfterIsFrom(entries: seq<LogEntry>, lower: StreamId)
    requires Ascending(entries)
    ensures forall e :: e in entries[Below(entries, lower)..] <==> e in entries && lower.AtMost(e.0)
  {
    AboveMin(entries, lower);
  }

  /** A reader that feeds the last id it saw back to XREAD, and everything it has been given. */
  datatype Reader = Reader(from: StreamId, given: seq<LogEntry>)

  datatype Event = Write(op: Op) | Poll(count: Option<nat>)

  datatype Tail = Tail(log: Journal, reader: Reader)

  /** The reader stops at the greatest id: nothing can follow it. */
  function OnEvent(t: Tail, ev: Event): Tail {
    match ev
    case Write(op) => t.(log := Do(t.log, op))
    case Poll(count) =>
      var items := ReadAfter(t.log.entries, t.reader.from, count);
      if t.reader.from == MAX_ID || items == [] then t
      else t.(reader := Reader(items[|items| - 1].0, t.reader.given + items))
  }

  function OnEvents(t: Tail, events: seq<Event>): Tail {
    if events == [] then t else OnEvent(OnEvents(t, events[..|events| - 1]), events[|events| - 1])
  }

  /** Nothing given twice or out of order, and nothing still in the stream passed over. */
  ghost predicate Faithful(start: StreamId, t: Tail) {
    var given, from := t.reader.given, t.reader.from;
    && Sound(t.log) && Ascending(given)
    && (forall e :: e in given ==> start.Less(e.0) && e.0.AtMost(from))
    && (forall e :: e in t.log.entries && start.Less(e.0) && e.0.AtMost(from) ==> e in given)
    && (from == start || (start.Less(from) && from.AtMost(t.log.lastId)))
  }

  lemma WriteFaithful(start: StreamId, t: Tail, op: Op)
    requires Faithful(start, t)
    ensures Faithful(start, OnEvent(t, Write(op)))
  {
    hide Do;
    DoSound(t.log, op);
    DoAddsOnlyAbove(t.log, op);
  }

  /** What an operation leaves was there before, or is above everything that was. */
  lemma DoAddsOnlyAbove(log: Journal, op: Op)
    requires Sound(log)
    ensures forall e :: e in Do(log, op).entries ==> e in log.entries || log.lastId.Less(e.0)
  {
    hide ResolveAddId, TrimCount;
    match op {
      case XAdd(arg, fields, now, trim) =>
        var r := ResolveAddId(arg, log.lastId, now);
        if r.Good? {
          ResolvedIsAbove(arg, log.lastId, now);
          var more := Journal(log.entries + [(r.id, fields)], r.id, log.maxDeletedId);
          if trim.Some? {
            DropFirstsSuffix(more, TrimCount(more.entries, trim.value));
          }
        }
      case XDel(ids) => DelAllSound(log, ids);
      case XTrim(spec) => DropFirstsSuffix(log, TrimCount(log.entries, spec));
    }
  }

  /** What a read gives is the first stretch of what lies above `from`. */
  lemma ReadIsFirstStretch(entries: seq<LogEntry>, from: StreamId, count: Option<nat>)
    requires Ascending(entries) && from != MAX_ID && ReadAfter(entries, from, count) != []
    ensures var items := ReadAfter(entries, from, count);
            var last := items[|items| - 1].0;
            && Ascending(items)
            && (forall e :: e in items ==> e in entries && from.Less(e.0) && e.0.AtMost(last))
            && (forall e :: e in entries && from.Less(e.0) && e.0.AtMost(last) ==> e in items)
  {
    hide Below, Next;
    ReadsAboveExactly(entries, from);
    var rest, items := After(entries, from), ReadAfter(entries, from, count);
    assert Ascending(rest);
    assert items == rest[..|items|];
    PrefixUpToLast(rest, |items|);
  }

  lemma PrefixUpToLast(rest: seq<LogEntry>, n: nat)
    requires Ascending(rest) && 0 < n <= |rest|
    ensures Ascending(rest[..n])
    ensures forall e :: e in rest[..n] <==> e in rest && e.0.AtMost(rest[n - 1].0)
  {
    forall e | e in rest && e.0.AtMost(rest[n - 1].0)
      ensures e in rest[..n]
    {
      var i :| 0 <= i < |rest| && rest[i] == e;
      assert n - 1 < i || rest[..n][i] == e;
    }
    forall e | e in rest[..n]
      ensures e in rest && e.0.AtMost(rest[n - 1].0)
    {
      var i :| 0 <= i < n && rest[..n][i] == e;
      assert rest[i] == e;
    }
  }

  lemma PollFaithful(start: StreamId, t: Tail, count: Option<nat>)
    requires Faithful(start, t)
    ensures Faithful(start, OnEvent(t, Poll(count)))
  {
    hide ReadAfter, After;
    var items := ReadAfter(t.log.entries, t.reader.from, count);
    if t.reader.from != MAX_ID && items != [] {
      ReadIsFirstStretch(t.log.entries, t.reader.from, count);
      var last := items[|items| - 1];
      assert last in items && last in t.log.entries;
      forall e | e in t.log.entries && start.Less(e.0) && e.0.AtMost(last.0)
        ensures e in t.reader.given + items
      {
        assert e.0.AtMost(t.reader.from) || t.reader.from.Less(e.0);
      }
    }
  }

  /** However XADD, XDEL, XTRIM and reads with any counts interleave, a reader that feeds back the last id
      it saw is given entries in id order, none twice, and misses only entries deleted before it came by. */
  lemma {:induction false} TailIsFaithful(log: Journal, start: StreamId, events: seq<Event>)
    requires Sound(log)
    ensures Faithful(start, OnEvents(Tail(log, Reader(start, [])), events))
  {
    hide Faithful, OnEvent;
    if events == [] {
      assert Faithful(start, Tail(log, Reader(start, []))) by {
        StartFaithful(log, start);
      }
    } else {
      TailIsFaithful(log, start, events[..|events| - 1]);
      var t := OnEvents(Tail(log, Reader(start, [])), events[..|events| - 1]);
      match events[|events| - 1] {
        case Write(op) => WriteFaithful(start, t, op);
        case Poll(count) => PollFaithful(start, t, count);
      }
    }
  }

  lemma StartFaithful(log: Journal, start: StreamId)
    requires Sound(log)
    ensures Faithful(start, Tail(log, Reader(start, [])))
  {}

  /** A read with room for at least one entry gets somewhere whenever something is left to read. */
  lemma ReadProgresses(entries: seq<LogEntry>, from: StreamId, count: Option<nat>, e: LogEntry)
    requires Ascending(entries) && e in entries && from.Less(e.0)
    ensures ReadAfter(entries, from, count) != []
  {
    NextIsLeastAbove(from, e.0);
    ReadsAboveExactly(entries, from);
  }

  // ----------------------------------------------------------- blocking on `$`

  /** A strict id as XREAD and XDEL take it; a bare millisecond stands for its first or last id. */
  function ParseId(arg: seq<byte>, lastOfMs: bool): Option<StreamId> {
    if arg == [DASH] then Some(MIN_ID)
    else if arg == [43] then Some(MAX_ID)
    else match FirstDash(arg)
      case Some(dash) => (
        match (ParseU64(arg[..dash]), ParseU64(arg[dash + 1..]))
        case (Some(ms), Some(num)) => Some(StreamId(ms, num))
        case _ => None
      )
      case None =>
        match ParseU64(arg)
        case None => None
        case Some(ms) => Some(StreamId(ms, if lastOfMs then 0xffff_ffff_ffff_ffff else 0))
  }

  function IdText(id: StreamId): seq<byte> {
    Digits(id.ms) + [DASH] + Digits(id.num)
  }

  lemma IdRoundTrip(id: StreamId, lastOfMs: bool)
    ensures ParseId(IdText(id), lastOfMs) == Some(id)
  {
    hide ParseU64;
    var a, b := Digits(id.ms), Digits(id.num);
    DashAfterDigits(a, b);
    var arg := IdText(id);
    assert arg[..|a|] == a && arg[|a| + 1..] == b && |arg| >= 3;
    U64RoundTrip(id.ms);
    U64RoundTrip(id.num);
  }

  /** What `$` is replaced by before a client blocks: the id the stream has reached, as text. */
  function Dollar(log: Option<Journal>): seq<byte> {
    IdText(if log.Some? then log.value.lastId else MIN_ID)
  }

  lemma {:induction false} RunAddsOnlyAbove(log: Journal, ops: seq<Op>)
    requires Sound(log)
    ensures Sound(DoAll(log, ops)) && log.lastId.AtMost(DoAll(log, ops).lastId)
    ensures forall e :: e in DoAll(log, ops).entries ==> e in log.entries || log.lastId.Less(e.0)
  {
    hide Sound, Do;
    if ops != [] {
      var before := DoAll(log, ops[..|ops| - 1]);
      RunAddsOnlyAbove(log, ops[..|ops| - 1]);
      DoSound(before, ops[|ops| - 1]);
      DoAddsOnlyAbove(before, ops[|ops| - 1]);
    }
  }

  /** A client that blocks on `$` is later given exactly the entries added since, and still there. */
  lemma DollarSeesOnlyNew(log: Journal, ops: seq<Op>)
    requires Sound(log) && log.lastId != MAX_ID
    ensures var from := ParseId(Dollar(Some(log)), false);
            && from.Some?
            && forall e :: e in After(DoAll(log, ops).entries, from.value)
                           <==> e in DoAll(log, ops).entries && e !in log.entries
  {
    hide ParseId, IdText, After, Do;
    IdRoundTrip(log.lastId, false);
    RunAddsOnlyAbove(log, ops);
    ReadsAboveExactly(DoAll(log, ops).entries, log.lastId);
    forall e | e in log.entries
      ensures !log.lastId.Less(e.0)
    {
      var i :| 0 <= i < |log.entries| && log.entries[i] == e;
      assert e.0.AtMost(log.lastId);
    }
  }

  // ------------------------------------------------- what commands take and give

  /** The entries above `from` are those from place `k` on. */
  predicate AboveFrom(entries: seq<LogEntry>, from: StreamId, k: nat) {
    k <= |entries| && forall i :: 0 <= i < |entries| ==> (from.Less(entries[i].0) <==> k <= i)
  }

  /** A read gives consecutive entries, the first one above the id first, as many as the count allows; a count of zero
      still gives one. */
  lemma ReadMeans(entries: seq<LogEntry>, from: StreamId, count: Option<nat>)
    requires Ascending(entries) && from != MAX_ID
    ensures exists k: nat :: AboveFrom(entries, from, k) && ReadAfter(entries, from, count) == Limited(entries[k..], count)
  {
    var lower := Next(from).value;
    BelowSplits(entries, lower);
    var k := Below(entries, lower);
    forall i | 0 <= i < |entries|
      ensures from.Less(entries[i].0) <==> k <= i
    {
      NextIsLeastAbove(from, entries[i].0);
      OneSide(lower, entries[i].0);
    }
    assert AboveFrom(entries, from, k);
    hide Ascending, Below, AboveFrom;
    assert After(entries, from) == entries[k..];
  }

  function Limited<T>(items: seq<T>, count: Option<nat>): seq<T> {
    if count.None? || |items| <= count.value then items
    else if count.value == 0 then items[..1]
    else items[..count.value]
  }

  lemma OneSide(a: StreamId, b: StreamId)
    ensures a.AtMost(b) <==> !b.Less(a)
  {}

  lemma {:induction false} DashAfter(a: seq<byte>, b: seq<byte>)
    requires DASH !in a
    ensures FirstDash(a + [DASH] + b) == Some(|a|) && FirstDash(a) == None
  {
    var s := a + [DASH] + b;
    if a != [] {
      assert s[0] == a[0] && s[1..] == a[1..] + [DASH] + b;
      DashAfter(a[1..], b);
    }
  }

  /** A bare number asks for the first id of that millisecond; anything but numbers and stars is refused. */
  lemma OtherAddIds(a: seq<byte>, b: seq<byte>, last: StreamId, now: u64)
    requires DASH !in a && a != [STAR]
    ensures ResolveAddId(a, last, now)
            == if ParseU64(a).None? then Bad(Invalid)
               else if last.Less(StreamId(ParseU64(a).value, 0)) then Good(StreamId(ParseU64(a).value, 0))
               else Bad(TooSmall)
    ensures ParseU64(a).None? || (b != [STAR] && ParseU64(b).None?) ==>
              ResolveAddId(a + [DASH] + b, last, now) == Bad(Invalid)
  {
    hide ParseU64;
    DashAfter(a, b);
    var s := a + [DASH] + b;
    assert s[..|a|] == a && s[|a| + 1..] == b;
    assert |s| == 1 ==> s == [DASH];
    if ParseU64(a).Some? {
      OneSide(StreamId(ParseU64(a).value, 0), last);
    }
  }

  /** An id to read from or delete: `-` is the least, `+` the greatest, a bare number the first or last of its
      millisecond; two numbers around the first dash; nothing else. */
  lemma WhichIdsParse(a: seq<byte>, b: seq<byte>, lastOfMs: bool)
    requires DASH !in a
    ensures ParseId([45], lastOfMs) == Some(StreamId(0, 0))
    ensures ParseId([43], lastOfMs) == Some(StreamId(18446744073709551615, 18446744073709551615))
    ensures a != [43] ==>
              ParseId(a, lastOfMs) == if ParseU64(a).None? then None
                                      else Some(StreamId(ParseU64(a).value, if lastOfMs then 18446744073709551615 else 0))
    ensures a != [] || b != [] ==>
              ParseId(a + [DASH] + b, lastOfMs)
              == if ParseU64(a).None? || ParseU64(b).None? then None else Some(StreamId(ParseU64(a).value, ParseU64(b).value))
  {
    hide ParseU64;
    DashAfter(a, b);
    var s := a + [DASH] + b;
    assert s[..|a|] == a && s[|a| + 1..] == b;
    assert s[|a|] == DASH;
    assert a != [] || b != [] ==> |s| >= 2;
  }

  /** How much a trim may take: what exceeds MAXLEN, or lies below MINID, but no more than the limit. A MAXLEN limit
      that is not positive allows nothing, a negative MINID one everything. */
  lemma TrimTakes(entries: seq<LogEntry>, target: nat, min: StreamId, limit: i64)
    requires Ascending(entries) && |entries| < 9223372036854775808
    ensures var over, below := |entries| - target, Below(entries, min);
            && (forall i :: 0 <= i < |entries| ==> (entries[i].0.Less(min) <==> i < below))
            && TrimCount(entries, MaxLen(target, None)) == (if over > 0 then over else 0)
            && TrimCount(entries, MaxLen(target, Some(limit)))
               == (if over <= 0 || limit <= 0 then 0 else if over < limit then over else limit)
            && TrimCount(entries, MinId(min, None)) == below
            && TrimCount(entries, MinId(min, Some(limit))) == (if 0 <= limit < below then limit else below)
  {
    BelowSplits(entries, min);
    hide Below, Ascending;
  }

  /** An XADD that is accepted puts its entry last and makes its id the last one; one that is not changes nothing. */
  lemma AddMeans(log: Journal, arg: seq<byte>, fields: Fields, now: u64)
    ensures var after, r := Do(log, XAdd(arg, fields, now, None)), ResolveAddId(arg, log.lastId, now);
            if r.Bad? then after == log
            else after.entries == log.entries + [(r.id, fields)] && after.lastId == r.id
                 && after.maxDeletedId == log.maxDeletedId
  {
    hide ResolveAddId;
  }

  /** An XADD that also trims counts its own entry: it is added first, and the trim takes from the front. */
  lemma AddThenTrim(log: Journal, arg: seq<byte>, fields: Fields, now: u64, spec: TrimSpec)
    requires ResolveAddId(arg, log.lastId, now).Good?
    ensures var id := ResolveAddId(arg, log.lastId, now).id;
            var all, after := log.entries + [(id, fields)], Do(log, XAdd(arg, fields, now, Some(spec)));
            after.entries == all[TrimCount(all, spec)..] && after.lastId == id
  {
    hide ResolveAddId, TrimCount;
    var id := ResolveAddId(arg, log.lastId, now).id;
    var more := Journal(log.entries + [(id, fields)], id, log.maxDeletedId);
    DropFirstsSuffix(more, TrimCount(more.entries, spec));
    TrimRemembersExactly(more, TrimCount(more.entries, spec));
  }

  /** XDEL removes exactly the entries listed; the greatest deleted id is the old one or one of those removed. */
  lemma {:induction false} DeleteMeans(log: Journal, ids: seq<StreamId>)
    requires Sound(log)
    ensures var after := Do(log, XDel(ids));
            && after.lastId == log.lastId
            && (forall e :: e in after.entries <==> e in log.entries && e.0 !in ids)
            && (after.maxDeletedId == log.maxDeletedId
                || exists e :: e in log.entries && e.0 in ids && e.0 == after.maxDeletedId)
  {
    hide Sound;
    DelAllSound(log, ids);
    if ids != [] {
      var last := |ids| - 1;
      DeleteMeans(log, ids[..last]);
      DelAllSound(log, ids[..last]);
      assert ids == ids[..last] + [ids[last]];
      var before := DelAll(log, ids[..last]);
      var r := IndexOfId(before.entries, ids[last]);
      if r.Some? {
        assert before.entries[r.value] in log.entries;
      }
    }
  }

  /** A trim keeps the last id; the greatest deleted id is the old one or one of those removed. */
  lemma {:induction false} TrimRemembersExactly(log: Journal, n: nat)
    requires n <= |log.entries|
    ensures DropFirsts(log, n).lastId == log.lastId
    ensures DropFirsts(log, n).maxDeletedId == log.maxDeletedId
            || exists i :: 0 <= i < n && log.entries[i].0 == DropFirsts(log, n).maxDeletedId
    decreases n
  {
    if n > 0 {
      TrimRemembersExactly(DropFirst(log), n - 1);
      assert forall i :: 0 <= i < n - 1 ==> DropFirst(log).entries[i] == log.entries[i + 1];
    }
  }

  /** `$` stands for where the stream is, and for its beginning when there is none. */
  lemma DollarMeans(log: Journal)
    ensures ParseId(Dollar(Some(log)), false) == Some(log.lastId) && ParseId(Dollar(None), false) == Some(StreamId(0, 0))
  {
    hide ParseId, IdText;
    IdRoundTrip(log.lastId, false);
    IdRoundTrip(MIN_ID, false);
  }
}
