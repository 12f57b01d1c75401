/** Loading an RDB image: the opcode loop and what it does to the keyspace. */
module RdbLoad {
  import opened Bytes
  import opened Values
  import opened Listing
  import opened Cursor
  import opened RdbFormat
  import Decimal
  import Crc64
  import StreamCodec

  const MAX_RDB_VERSION: nat := 11

  type Database = map<seq<byte>, Entry>

  /** The clock as a load reads it: once for every key/value record, numbered from zero. */
  type Clock = nat -> nat

  datatype Stats = Stats(keys: nat, expired: nat, functions: nat, aux: seq<(seq<byte>, seq<byte>)>)

  /** What the opcode loop carries from one record to the next. */
  datatype LoadState = LoadState(dbs: seq<Database>, db: nat, pending: Option<u64>, stats: Stats) {
    predicate Valid() {
      db < |dbs|
    }

    function Records(): nat {
      stats.keys + stats.expired
    }
  }

  function Start(dbs: seq<Database>): LoadState {
    LoadState(dbs, 0, None, Stats(0, 0, 0, []))
  }

  // ----------------------------------------------- meaning of a record sequence

  function Store(st: LoadState, key: seq<byte>, value: Value, expireAt: Option<u64>): LoadState
    requires st.Valid()
  {
    st.(dbs := st.dbs[st.db := st.dbs[st.db][key := Entry(value, expireAt)]],
        pending := None,
        stats := st.stats.(keys := st.stats.keys + 1))
  }

  function Step(st: LoadState, op: Op<Value>, clock: Clock): (r: Result<LoadState>)
    requires st.Valid()
    ensures r.Ok? ==> r.value.Valid() && |r.value.dbs| == |st.dbs|
  {
    match op
    case SelectDb(n) => if n < |st.dbs| then Ok(st.(db := n, pending := None)) else Err(Unsupported)
    case ResizeDb(_, _) => Ok(st)
    case Aux(name, value) => Ok(st.(stats := st.stats.(aux := st.stats.aux + [(name, value)])))
    case ExpireMs(at) => Ok(st.(pending := Some(at)))
    case ExpireSec(secs) => Ok(st.(pending := Some((secs * 1000) % 0x1_0000_0000_0000_0000)))
    case Idle(_) => Ok(st)
    case Freq(_) => Ok(st)
    case Function(_, _) => Ok(st.(stats := st.stats.(functions := st.stats.functions + 1)))
    case SlotInfo(_, _, _) => Ok(st)
    case ModuleAux => Err(Unsupported)
    case Record(key, value) =>
      if Expired(st.pending, clock(st.Records())) then
        Ok(st.(pending := None, stats := st.stats.(expired := st.stats.expired + 1)))
      else Ok(Store(st, key, value, st.pending))
  }

  function Run(st: LoadState, ops: seq<Op<Value>>, clock: Clock): (r: Result<LoadState>)
    requires st.Valid()
    ensures r.Ok? ==> r.value.Valid() && |r.value.dbs| == |st.dbs|
    decreases ops
  {
    if ops == [] then Ok(st)
    else match Step(st, ops[0], clock)
      case Err(e) => Err(e)
      case Ok(next) => Run(next, ops[1..], clock)
  }

  // ------------------------------------------------------ the loop over bytes

  function Loop(st: LoadState, s: seq<byte>, clock: Clock): Result<LoadState>
    requires st.Valid()
    decreases |s|
  {
    if s == [] then Err(Corrupt)
    else if s[0] == OP_EOF then Ok(st)
    else match OpAt(s)
      case Err(e) => Err(e)
      case Ok((op, used)) =>
        match Step(st, op, clock)
        case Err(e) => Err(e)
        case Ok(next) => if 0 < used <= |s| then Loop(next, s[used..], clock) else Err(Corrupt)
  }

  const MAGIC: seq<byte> := [82, 69, 68, 73, 83]

  /** `parse::<u32>` of the four version bytes, which cannot overflow. */
  function Version(buf: seq<byte>): Option<nat>
    requires |buf| >= 9
  {
    Decimal.ParseDigits(if buf[5] == Decimal.PLUS then buf[6..9] else buf[5..9])
  }

  /** The trailer agrees with the bytes before it, or says it was not computed, or predates checksums. */
  predicate ChecksumPasses(buf: seq<byte>, version: nat)
    requires |buf| >= 9
  {
    var split := |buf| - 8;
    var stored := FromLE(buf[split..]);
    version < 5 || stored == 0 || stored == Crc64.Checksum(buf[..split])
  }

  function FromBytes(buf: seq<byte>, dbs: seq<Database>, clock: Clock): Result<LoadState>
    requires |dbs| > 0
  {
    if |buf| < 9 || buf[..5] != MAGIC then Err(Corrupt)
    else match Version(buf)
      case None => Err(Corrupt)
      case Some(version) =>
        if version > MAX_RDB_VERSION then Err(Unsupported)
        else if !ChecksumPasses(buf, version) then Err(Corrupt)
        else Loop(Start(dbs), buf[9..], clock)
  }

  // ------------------------------------------------------------- the program

  class Keyspace {
    var dbs: seq<Database>

    constructor (count: nat)
      ensures |dbs| == if count == 0 then 1 else count
      ensures forall i :: 0 <= i < |dbs| ==> dbs[i] == map[]
    {
      dbs := seq(if count == 0 then 1 else count, i => map[]);
    }

    method Put(db: nat, key: seq<byte>, value: Value, expireAt: Option<u64>)
      requires db < |dbs|
      modifies this
      ensures dbs == old(dbs)[db := old(dbs)[db][key := Entry(value, expireAt)]]
    {
      dbs := dbs[db := dbs[db][key := Entry(value, expireAt)]];
    }
  }

  method VerifyChecksum(buf: seq<byte>, version: nat) returns (passes: bool)
    requires |buf| >= 9
    ensures passes == ChecksumPasses(buf, version)
  {
    hide Crc64.Fold, Crc64.Val;
    if version < 5 {
      return true;
    }
    var split := |buf| - 8;
    var stored := FromLE(buf[split..]);
    if stored == 0 {
      return true;
    }
    var table := Crc64.BuildTable();
    var computed := Crc64.Update(table, Crc64.ZERO, buf[..split]);
    return stored == Crc64.Val(computed);
  }

  method ReadOp(r: Reader) returns (op: Result<Op<Value>>)
    requires r.Valid() && r.pos < |r.buf|
    modifies r
    ensures r.Valid() && Consumed(OpAt(old(r.Rest())), op, old(r.pos), r.pos)
  {
    hide ValueAt;
    ghost var start, s := r.pos, r.Rest();
    var code := r.Byte();
    assert r.Rest() == s[1..];
    op := ReadOperands(r, code.value);
  }

  method ReadOperands(r: Reader, code: byte) returns (op: Result<Op<Value>>)
    requires r.Valid()
    modifies r
    ensures r.Valid() && Consumed(OperandsAt(code, old(r.Rest())), op, old(r.pos), r.pos)
  {
    hide CountAt, StringAt, StreamCodec.CountsAt, RecordAt, FromLE;
    if code == OP_SELECTDB || code == OP_IDLE {
      var n := r.Count();
      return match n case Err(e) => Err(e) case Ok(v) => Ok(if code == OP_IDLE then Idle(v) else SelectDb(v));
    } else if code == OP_RESIZEDB {
      var ns := StreamCodec.ReadCounts(r, 2);
      return match ns case Err(e) => Err(e) case Ok(v) => Ok(ResizeDb(v[0], v[1]));
    } else if code == OP_SLOT_INFO {
      var ns := StreamCodec.ReadCounts(r, 3);
      return match ns case Err(e) => Err(e) case Ok(v) => Ok(SlotInfo(v[0], v[1], v[2]));
    } else if code == OP_AUX {
      var p := ReadPair(r);
      return match p case Err(e) => Err(e) case Ok(v) => Ok(Aux(v.0, v.1));
    } else if code == OP_EXPIRETIME_MS {
      var raw := r.Take(8);
      if raw.Err? {
        return Err(Corrupt);
      }
      FromLEFits(raw.value);
      return Ok(ExpireMs(FromLE(raw.value)));
    } else if code == OP_EXPIRETIME {
      var raw := r.Take(4);
      return match raw case Err(e) => Err(e) case Ok(v) => Ok(ExpireSec(FromLE(v)));
    } else if code == OP_FREQ {
      var b := r.Byte();
      return match b case Err(e) => Err(e) case Ok(v) => Ok(Freq(v));
    } else if code == OP_FUNCTION2 || code == OP_FUNCTION_PRE_GA {
      var source := r.String();
      return match source case Err(e) => Err(e) case Ok(v) => Ok(Function(code == OP_FUNCTION_PRE_GA, v));
    } else if code == OP_MODULE_AUX {
      return Ok(ModuleAux);
    } else {
      op := ReadRecord(r, code);
    }
  }

  method ReadPair(r: Reader) returns (p: Result<(seq<byte>, seq<byte>)>)
    requires r.Valid()
    modifies r
    ensures r.Valid() && Consumed(PairAt(old(r.Rest())), p, old(r.pos), r.pos)
  {
    hide StringAt;
    ghost var start, s := r.pos, r.Rest();
    var a := r.String();
    if a.Err? {
      return Err(a.error);
    }
    assert r.Rest() == s[r.pos - start..];
    var b := r.String();
    return match b case Err(e) => Err(e) case Ok(v) => Ok((a.value, v));
  }

  method ReadScored(r: Reader) returns (p: Result<(seq<byte>, u64)>)
    requires r.Valid()
    modifies r
    ensures r.Valid() && Consumed(ScoredAt(old(r.Rest())), p, old(r.pos), r.pos)
  {
    hide StringAt, FromLE;
    ghost var start, s := r.pos, r.Rest();
    var m := r.String();
    if m.Err? {
      return Err(m.error);
    }
    ghost var at := r.pos - start;
    assert r.Rest() == s[at..];
    var raw := r.Take(8);
    if raw.Err? {
      return Err(Corrupt);
    }
    assert raw.value == s[at..at + 8];
    FromLEFits(raw.value);
    return Ok((m.value, FromLE(raw.value)));
  }

  method ReadRecord(r: Reader, typeCode: byte) returns (op: Result<Op<Value>>)
    requires r.Valid()
    modifies r
    ensures r.Valid() && Consumed(RecordAt(old(r.Rest()), typeCode), op, old(r.pos), r.pos)
  {
    hide StringAt, ValueAt;
    ghost var start, s := r.pos, r.Rest();
    var key := r.String();
    if key.Err? {
      return Err(key.error);
    }
    assert r.Rest() == s[r.pos - start..];
    var value := ReadValue(r, typeCode);
    return match value case Err(e) => Err(e) case Ok(v) => Ok(Record(key.value, v));
  }

  method ReadValue(r: Reader, typeCode: byte) returns (value: Result<Value>)
    requires r.Valid()
    modifies r
    ensures r.Valid() && Consumed(ValueAt(old(r.Rest()), typeCode), value, old(r.pos), r.pos)
  {
    hide StringAt, CountAt, PairAt, ScoredAt, ItemsAt, StreamCodec.StreamAt, InsertAll;
    ghost var start, s := r.pos, r.Rest();
    if typeCode == STRING {
      var text := r.String();
      return match text case Err(e) => Err(e) case Ok(v) => Ok(Text(v));
    }
    if typeCode in {StreamCodec.STREAM_LISTPACKS, StreamCodec.STREAM_LISTPACKS_2, StreamCodec.STREAM_LISTPACKS_3} {
      var stream := StreamCodec.ReadStream(r, typeCode);
      return match stream case Err(e) => Err(e) case Ok(v) => Ok(Log(v));
    }
    if typeCode !in {LIST, SET, HASH, ZSET_2} {
      return Err(OtherType(typeCode));
    }
    var n := r.Count();
    if n.Err? {
      return Err(n.error);
    }
    assert r.Rest() == s[r.pos - start..];
    if typeCode == LIST || typeCode == SET {
      var items, members := ReadStrings(r, n.value);
      return match items
        case Err(e) => Err(e)
        case Ok(v) => Ok(if typeCode == LIST then List(v) else Set(members));
    } else if typeCode == HASH {
      var fields := ReadPairs(r, n.value);
      return match fields case Err(e) => Err(e) case Ok(v) => Ok(Hash(v));
    } else {
      var scores := ReadScores(r, n.value);
      return match scores case Err(e) => Err(e) case Ok(v) => Ok(ZSet(v));
    }
  }

  /** Items already read, followed by those still to come. */
  function ItemsAfter<T>(xs: seq<T>, used: nat, r: Result<(seq<T>, nat)>): Result<(seq<T>, nat)> {
    match r
    case Err(e) => Err(e)
    case Ok((rest, n)) => Ok((xs + rest, used + n))
  }

  /** Reading items from `start` on, told by absolute positions. */
  lemma ItemsGoal<T>(r: Result<(seq<T>, nat)>, start: nat)
    ensures ItemsAfter([], start, r) == match r
              case Err(e) => Err(e)
              case Ok((xs, used)) => Ok((xs, start + used))
  {
    if r.Ok? {
      assert [] + r.value.0 == r.value.0;
    }
  }

  lemma ItemsDone<T>(item: seq<byte> -> Result<(T, nat)>, s: seq<byte>, at: nat, xs: seq<T>)
    requires at <= |s|
    ensures ItemsAfter(xs, at, ItemsAt(item, s[at..], 0)) == Ok((xs, at))
  {
    assert xs + [] == xs;
  }

  lemma ItemsStep<T>(item: seq<byte> -> Result<(T, nat)>, s: seq<byte>, at: nat, left: nat, xs: seq<T>)
    requires at <= |s| && left > 0
    ensures ItemsAfter(xs, at, ItemsAt(item, s[at..], left)) == match item(s[at..])
              case Err(e) => Err(e)
              case Ok((x, used)) =>
                if at + used > |s| then Err(Corrupt)
                else ItemsAfter(xs + [x], at + used, ItemsAt(item, s[at + used..], left - 1))
  {
    match item(s[at..]) {
      case Err(e) =>
      case Ok((x, used)) =>
        if at + used <= |s| {
          assert s[at..][used..] == s[at + used..];
          match ItemsAt(item, s[at + used..], left - 1) {
            case Err(e) =>
            case Ok((rest, n)) => assert (xs + [x]) + rest == xs + ([x] + rest);
          }
        }
    }
  }

  method ReadStrings(r: Reader, n: nat) returns (items: Result<seq<seq<byte>>>, members: set<seq<byte>>)
    requires r.Valid()
    modifies r
    ensures r.Valid() && Consumed(ItemsAt(StringAt, old(r.Rest()), n), items, old(r.pos), r.pos)
    ensures items.Ok? ==> members == set m | m in items.value
  {
    hide StringAt, ItemsAt;
    ghost var start := r.pos;
    ghost var goal := ItemsAfter([], start, ItemsAt(StringAt, r.Rest(), n));
    var xs: seq<seq<byte>> := [];
    members := {};
    ItemsGoal(ItemsAt(StringAt, r.Rest(), n), start);
    for k := 0 to n
      invariant r.Valid() && start <= r.pos && members == set m | m in xs
      invariant goal == ItemsAfter(xs, r.pos, ItemsAt(StringAt, r.Rest(), n - k))
    {
      ItemsStep(StringAt, r.buf, r.pos, n - k, xs);
      var x := r.String();
      if x.Err? {
        return Err(x.error), members;
      }
      xs := xs + [x.value];
      members := members + {x.value};
    }
    ItemsDone(StringAt, r.buf, r.pos, xs);
    items := Ok(xs);
  }

  method ReadPairs(r: Reader, n: nat) returns (fields: Result<map<seq<byte>, seq<byte>>>)
    requires r.Valid()
    modifies r
    ensures r.Valid()
    ensures Consumed(MapValue(ItemsAt(PairAt, old(r.Rest()), n), v => InsertAll(map[], v)), fields, old(r.pos), r.pos)
  {
    hide PairAt, ItemsAt;
    ghost var start := r.pos;
    ghost var goal := ItemsAfter([], start, ItemsAt(PairAt, r.Rest(), n));
    ghost var xs: seq<(seq<byte>, seq<byte>)> := [];
    var hash: map<seq<byte>, seq<byte>> := map[];
    ItemsGoal(ItemsAt(PairAt, r.Rest(), n), start);
    for k := 0 to n
      invariant r.Valid() && start <= r.pos && hash == InsertAll(map[], xs)
      invariant goal == ItemsAfter(xs, r.pos, ItemsAt(PairAt, r.Rest(), n - k))
    {
      ItemsStep(PairAt, r.buf, r.pos, n - k, xs);
      var x := ReadPair(r);
      if x.Err? {
        return Err(x.error);
      }
      hash := hash[x.value.0 := x.value.1];
      assert (xs + [x.value])[..|xs|] == xs;
      xs := xs + [x.value];
    }
    ItemsDone(PairAt, r.buf, r.pos, xs);
    fields := Ok(hash);
  }

  method ReadScores(r: Reader, n: nat) returns (scores: Result<map<seq<byte>, u64>>)
    requires r.Valid()
    modifies r
    ensures r.Valid()
    ensures Consumed(MapValue(ItemsAt(ScoredAt, old(r.Rest()), n), v => InsertAll(map[], v)), scores, old(r.pos), r.pos)
  {
    hide ScoredAt, ItemsAt;
    ghost var start := r.pos;
    ghost var goal := ItemsAfter([], start, ItemsAt(ScoredAt, r.Rest(), n));
    ghost var xs: seq<(seq<byte>, u64)> := [];
    var zset: map<seq<byte>, u64> := map[];
    ItemsGoal(ItemsAt(ScoredAt, r.Rest(), n), start);
    for k := 0 to n
      invariant r.Valid() && start <= r.pos && zset == InsertAll(map[], xs)
      invariant goal == ItemsAfter(xs, r.pos, ItemsAt(ScoredAt, r.Rest(), n - k))
    {
      ItemsStep(ScoredAt, r.buf, r.pos, n - k, xs);
      var x := ReadScored(r);
      if x.Err? {
        return Err(x.error);
      }
      zset := zset[x.value.0 := x.value.1];
      assert (xs + [x.value])[..|xs|] == xs;
      xs := xs + [x.value];
    }
    ItemsDone(ScoredAt, r.buf, r.pos, xs);
    scores := Ok(zset);
  }

  /** The opcode loop. On success the keyspace and statistics are those of the specification. */
  method Load(buf: seq<byte>, ks: Keyspace, clock: Clock) returns (result: Result<Stats>)
    requires |ks.dbs| > 0
    modifies ks
    ensures match FromBytes(buf, old(ks.dbs), clock)
            case Err(e) => result == Err(e)
            case Ok(st) => result == Ok(st.stats) && ks.dbs == st.dbs
  {
    hide Loop, Step, Version, ChecksumPasses;
    if |buf| < 9 || buf[..5] != MAGIC {
      return Err(Corrupt);
    }
    var version := Version(buf);
    if version.None? {
      return Err(Corrupt);
    }
    if version.value > MAX_RDB_VERSION {
      return Err(Unsupported);
    }
    var passes := VerifyChecksum(buf, version.value);
    if !passes {
      return Err(Corrupt);
    }
    result := LoadRecords(buf, ks, clock);
  }

  method LoadRecords(buf: seq<byte>, ks: Keyspace, clock: Clock) returns (result: Result<Stats>)
    requires |ks.dbs| > 0 && |buf| >= 9
    modifies ks
    ensures match Loop(Start(old(ks.dbs)), buf[9..], clock)
            case Err(e) => result == Err(e)
            case Ok(st) => result == Ok(st.stats) && ks.dbs == st.dbs
  {
    hide OpAt, Loop;
    var r := new Reader(buf);
    r.Seek(9);
    var stats := Stats(0, 0, 0, []);
    var db := 0;
    var pending: Option<u64> := None;
    ghost var whole := Loop(Start(ks.dbs), buf[9..], clock);
    while r.pos < |buf|
      invariant fresh(r) && r.Valid() && r.buf == buf && db < |ks.dbs|
      invariant whole == Loop(LoadState(ks.dbs, db, pending, stats), r.Rest(), clock)
      decreases |buf| - r.pos
    {
      ghost var s, start := r.Rest(), r.pos;
      LoopStep(LoadState(ks.dbs, db, pending, stats), s, clock);
      if buf[r.pos] == OP_EOF {
        return Ok(stats);
      }
      var op := ReadOp(r);
      if op.Err? {
        return Err(op.error);
      }
      assert OpAt(s).Ok? && r.Rest() == s[r.pos - start..];
      OpTakesBytes(s);
      match op.value {
        case SelectDb(n) =>
          if n >= |ks.dbs| {
            return Err(Unsupported);
          }
          db := n;
          pending := None;
        case ResizeDb(_, _) =>
        case Aux(name, value) => stats := stats.(aux := stats.aux + [(name, value)]);
        case ExpireMs(at) => pending := Some(at);
        case ExpireSec(secs) => pending := Some((secs * 1000) % 0x1_0000_0000_0000_0000);
        case Idle(_) =>
        case Freq(_) =>
        case Function(_, _) => stats := stats.(functions := stats.functions + 1);
        case SlotInfo(_, _, _) =>
        case ModuleAux => return Err(Unsupported);
        case Record(key, value) =>
          var expireAt := pending;
          pending := None;
          if Expired(expireAt, clock(stats.keys + stats.expired)) {
            stats := stats.(expired := stats.expired + 1);
          } else {
            ks.Put(db, key, value, expireAt);
            stats := stats.(keys := stats.keys + 1);
          }
      }
    }
    LoopStep(LoadState(ks.dbs, db, pending, stats), r.Rest(), clock);
    return Err(Corrupt);
  }

  /** One turn of the loop. */
  lemma LoopStep(st: LoadState, s: seq<byte>, clock: Clock)
    requires st.Valid()
    ensures s == [] ==> Loop(st, s, clock) == Err(Corrupt)
    ensures s != [] && s[0] == OP_EOF ==> Loop(st, s, clock) == Ok(st)
    ensures s != [] && s[0] != OP_EOF && OpAt(s).Err? ==> Loop(st, s, clock) == Err(OpAt(s).error)
    ensures s != [] && s[0] != OP_EOF && OpAt(s).Ok? ==>
              var (op, used) := OpAt(s).value;
              var next := Step(st, op, clock);
              Loop(st, s, clock) == if next.Err? then Err(next.error)
                                    else if 0 < used <= |s| then Loop(next.value, s[used..], clock)
                                    else Err(Corrupt)
  {
    hide OpAt, Step;
  }

  lemma OpTakesBytes(s: seq<byte>)
    requires s != [] && OpAt(s).Ok?
    ensures OpAt(s).value.1 > 0
  {
    hide OperandsAt;
  }
}
