/** Saving a keyspace as an RDB image. */
module RdbSave {
  import opened Bytes
  import opened Values
  import opened Cursor
  import opened RdbFormat
  import StreamCodec
  import Crc64

  /** One key as the hash map hands it out. */
  datatype Stored = Stored(key: seq<byte>, flat: Flat, expireAt: Option<u64>)

  /** `order` is one of the orders in which database `db` may be iterated. */
  ghost predicate IteratesDb(order: seq<Stored>, db: map<seq<byte>, Entry>) {
    && (forall i :: 0 <= i < |order| ==>
          order[i].key in db && db[order[i].key].expireAt == order[i].expireAt
          && Iterates(order[i].flat, db[order[i].key].value))
    && (forall i, j :: 0 <= i < j < |order| ==> order[i].key != order[j].key)
    && (forall k :: k in db ==> exists i :: 0 <= i < |order| && order[i].key == k)
  }

  predicate WritableStored(s: Stored) {
    InMemory(s.key) && Writable(s.flat)
  }

  predicate WritableDb(order: seq<Stored>) {
    InMemory(order) && forall i :: 0 <= i < |order| ==> WritableStored(order[i])
  }

  predicate WritableKeyspace(dbs: seq<seq<Stored>>) {
    InMemory(dbs) && forall i :: 0 <= i < |dbs| ==> WritableDb(dbs[i])
  }

  /** Keys whose expiry has not passed, in iteration order. */
  function Live(order: seq<Stored>, now: nat): (live: seq<Stored>)
    ensures |live| <= |order|
  {
    if order == [] then []
    else (if Expired(order[0].expireAt, now) then [] else [order[0]]) + Live(order[1..], now)
  }

  function Volatile(order: seq<Stored>, now: nat): (n: nat)
    ensures n <= |order|
  {
    if order == [] then 0
    else (if order[0].expireAt.Some? && order[0].expireAt.value > now then 1 else 0) + Volatile(order[1..], now)
  }

  lemma {:induction false} LiveWritable(order: seq<Stored>, now: nat)
    requires WritableDb(order)
    ensures WritableDb(Live(order, now))
  {
    if order != [] {
      LiveWritable(order[1..], now);
    }
  }

  // ------------------------------------------------------------ the records

  function RecordOps(s: Stored): seq<Op<Flat>> {
    (if s.expireAt.Some? then [ExpireMs(s.expireAt.value)] else []) + [Record(s.key, s.flat)]
  }

  function DbOps(order: seq<Stored>): seq<Op<Flat>> {
    if order == [] then [] else RecordOps(order[0]) + DbOps(order[1..])
  }

  /** The clock as a save reads it: four times for each database that it writes. */
  type SaveClock = (nat, nat) -> nat

  function SectionOps(order: seq<Stored>, index: u64, clock: SaveClock): seq<Op<Flat>>
    requires InMemory(order)
  {
    if Live(order, clock(index, 0)) == [] then []
    else
      [SelectDb(index), ResizeDb(|Live(order, clock(index, 1))|, Volatile(order, clock(index, 2)))]
      + DbOps(Live(order, clock(index, 3)))
  }

  /** The sections of databases `from` onwards. */
  function SectionsOps(dbs: seq<seq<Stored>>, from: nat, clock: SaveClock): seq<Op<Flat>>
    requires WritableKeyspace(dbs) && from <= |dbs|
    decreases |dbs| - from
  {
    if from == |dbs| then [] else SectionOps(dbs[from], from, clock) + SectionsOps(dbs, from + 1, clock)
  }

  const HEADER: seq<byte> := [82, 69, 68, 73, 83, 48, 48, 49, 49]

  /** redis-ver 7.4.0, redis-bits 64, meebis-ver 0.15.0. */
  const AUX_OPS: seq<Op<Flat>> := [
    Aux([114, 101, 100, 105, 115, 45, 118, 101, 114], [55, 46, 52, 46, 48]),
    Aux([114, 101, 100, 105, 115, 45, 98, 105, 116, 115], [54, 52]),
    Aux([109, 101, 101, 98, 105, 115, 45, 118, 101, 114], [48, 46, 49, 53, 46, 48])
  ]

  function ImageOps(dbs: seq<seq<Stored>>, clock: SaveClock): seq<Op<Flat>>
    requires WritableKeyspace(dbs)
  {
    AUX_OPS + SectionsOps(dbs, 0, clock)
  }

  /** Header, records, end marker, checksum of everything before it. */
  function Sealed(records: seq<byte>): seq<byte> {
    var payload := HEADER + records + [OP_EOF];
    payload + LE(Crc64.Checksum(payload), 8)
  }

  lemma {:induction false} DbOpsWritable(order: seq<Stored>)
    requires WritableDb(order)
    ensures AllWritable(DbOps(order))
  {
    if order != [] {
      DbOpsWritable(order[1..]);
    }
  }

  lemma SectionOpsWritable(order: seq<Stored>, index: u64, clock: SaveClock)
    requires WritableDb(order)
    ensures AllWritable(SectionOps(order, index, clock))
  {
    LiveWritable(order, clock(index, 3));
    DbOpsWritable(Live(order, clock(index, 3)));
  }

  lemma {:induction false} SectionsOpsWritable(dbs: seq<seq<Stored>>, from: nat, clock: SaveClock)
    requires WritableKeyspace(dbs) && from <= |dbs|
    ensures AllWritable(SectionsOps(dbs, from, clock))
    decreases |dbs| - from
  {
    if from < |dbs| {
      SectionOpsWritable(dbs[from], from, clock);
      SectionsOpsWritable(dbs, from + 1, clock);
    }
  }

  lemma ImageOpsWritable(dbs: seq<seq<Stored>>, clock: SaveClock)
    requires WritableKeyspace(dbs)
    ensures AllWritable(ImageOps(dbs, clock))
  {
    SectionsOpsWritable(dbs, 0, clock);
  }

  lemma {:induction false} OpsCodeConcat(a: seq<Op<Flat>>, b: seq<Op<Flat>>)
    requires AllWritable(a) && AllWritable(b)
    ensures AllWritable(a + b) && OpsCode(a + b) == OpsCode(a) + OpsCode(b)
  {
    hide OpCode;
    if a == [] {
      assert a + b == b;
    } else {
      assert (a + b)[1..] == a[1..] + b;
      OpsCodeConcat(a[1..], b);
    }
  }

  lemma OneOp(op: Op<Flat>)
    requires WritableOp(op)
    ensures OpsCode([op]) == OpCode(op)
  {
    hide OpCode;
    assert [op][1..] == [];
  }

  // ------------------------------------------------------------- the program

  method PutAux(out: Buffer, name: seq<byte>, value: seq<byte>)
    requires InMemory(name) && InMemory(value)
    modifies out
    ensures out.bytes == old(out.bytes) + OpCode(Aux(name, value))
  {
    hide StringCode;
    out.Push(OP_AUX);
    PutRawString(out, name);
    PutRawString(out, value);
    assert out.bytes == old(out.bytes) + ([OP_AUX] + (StringCode(name) + StringCode(value)));
  }

  method PutStrings(out: Buffer, items: seq<seq<byte>>)
    requires AllInMemory(items)
    modifies out
    ensures out.bytes == old(out.bytes) + ItemsCode(StringCode, items)
    decreases items
  {
    hide StringCode;
    if items != [] {
      PutRawString(out, items[0]);
      PutStrings(out, items[1..]);
    }
  }

  method PutPairs(out: Buffer, pairs: seq<(seq<byte>, seq<byte>)>)
    requires forall i :: 0 <= i < |pairs| ==> InMemory(pairs[i].0) && InMemory(pairs[i].1)
    modifies out
    ensures out.bytes == old(out.bytes) + ItemsCode(PairCode, pairs)
    decreases pairs
  {
    hide StringCode;
    if pairs != [] {
      PutRawString(out, pairs[0].0);
      PutRawString(out, pairs[0].1);
      PutPairs(out, pairs[1..]);
    }
  }

  method PutScored(out: Buffer, scored: seq<(seq<byte>, u64)>)
    requires forall i :: 0 <= i < |scored| ==> InMemory(scored[i].0)
    modifies out
    ensures out.bytes == old(out.bytes) + ItemsCode(ScoredCode, scored)
    decreases scored
  {
    hide StringCode, LE;
    if scored != [] {
      PutRawString(out, scored[0].0);
      out.Extend(LE(scored[0].1, 8));
      PutScored(out, scored[1..]);
    }
  }

  method PutValue(out: Buffer, key: seq<byte>, f: Flat)
    requires InMemory(key) && Writable(f)
    modifies out
    ensures out.bytes == old(out.bytes) + OpCode(Record(key, f))
  {
    hide StringCode, BodyCode;
    out.Push(TypeCode(f));
    PutRawString(out, key);
    PutBody(out, f);
    assert out.bytes == old(out.bytes) + ([TypeCode(f)] + (StringCode(key) + BodyCode(f)));
  }

  method PutBody(out: Buffer, f: Flat)
    requires Writable(f)
    modifies out
    ensures out.bytes == old(out.bytes) + BodyCode(f)
  {
    hide StringCode, LengthCode, ItemsCode, StreamCodec.StreamCode;
    match f {
      case FText(s) => PutRawString(out, s);
      case FList(items) =>
        PutLength(out, |items|);
        PutStrings(out, items);
      case FSet(members) =>
        PutLength(out, |members|);
        PutStrings(out, members);
      case FHash(pairs) =>
        PutLength(out, |pairs|);
        PutPairs(out, pairs);
      case FZSet(scored) =>
        PutLength(out, |scored|);
        PutScored(out, scored);
      case FLog(order, last, deleted) => StreamCodec.PutStream(out, order, last, deleted);
    }
  }

  lemma StoredCode(s: Stored)
    requires WritableStored(s)
    ensures AllWritable(RecordOps(s)) && InMemory(s.key) && Writable(s.flat)
    ensures OpsCode(RecordOps(s))
         == (if s.expireAt.Some? then [OP_EXPIRETIME_MS] + LE(s.expireAt.value, 8) else []) + OpCode(Record(s.key, s.flat))
  {
    hide StringCode, BodyCode, LE;
    OneOp(Record(s.key, s.flat));
    if s.expireAt.Some? {
      OneOp(ExpireMs(s.expireAt.value));
      OpsCodeConcat([ExpireMs(s.expireAt.value)], [Record(s.key, s.flat)]);
    }
  }

  method PutStored(out: Buffer, s: Stored)
    requires WritableStored(s)
    modifies out
    ensures AllWritable(RecordOps(s)) && out.bytes == old(out.bytes) + OpsCode(RecordOps(s))
  {
    hide OpCode, OpsCode, RecordOps, AllWritable, LE;
    StoredCode(s);
    if s.expireAt.Some? {
      out.Push(OP_EXPIRETIME_MS);
      out.Extend(LE(s.expireAt.value, 8));
    }
    PutValue(out, s.key, s.flat);
  }

  /** One more key in front: its own records first, unless it has expired. */
  lemma LiveCode(order: seq<Stored>, now: nat)
    requires WritableDb(order) && order != []
    ensures var rest := order[1..];
            && WritableStored(order[0]) && AllWritable(RecordOps(order[0]))
            && AllWritable(DbOps(Live(order, now))) && AllWritable(DbOps(Live(rest, now)))
            && OpsCode(DbOps(Live(order, now)))
               == (if Expired(order[0].expireAt, now) then [] else OpsCode(RecordOps(order[0])))
                  + OpsCode(DbOps(Live(rest, now)))
  {
    hide OpCode, WritableOp, OpsCode, RecordOps, AllWritable, DbOps, Live;
    StoredCode(order[0]);
    LiveWritable(order, now);
    DbOpsWritable(Live(order, now));
    LiveWritable(order[1..], now);
    DbOpsWritable(Live(order[1..], now));
    LiveOps(order, now);
    if !Expired(order[0].expireAt, now) {
      OpsCodeConcat(RecordOps(order[0]), DbOps(Live(order[1..], now)));
    }
  }

  lemma LiveOps(order: seq<Stored>, now: nat)
    requires order != []
    ensures DbOps(Live(order, now))
         == if Expired(order[0].expireAt, now) then DbOps(Live(order[1..], now))
            else RecordOps(order[0]) + DbOps(Live(order[1..], now))
  {
    hide RecordOps, DbOps, Live, Expired;
    LiveFirst(order, now);
    FirstOps(order[0], Live(order[1..], now));
  }

  lemma LiveFirst(order: seq<Stored>, now: nat)
    requires order != []
    ensures Live(order, now)
         == if Expired(order[0].expireAt, now) then Live(order[1..], now) else [order[0]] + Live(order[1..], now)
  {
    hide Expired;
    assert [] + Live(order[1..], now) == Live(order[1..], now);
  }

  lemma FirstOps(s: Stored, rest: seq<Stored>)
    ensures DbOps([s] + rest) == RecordOps(s) + DbOps(rest)
  {
    hide RecordOps;
    assert ([s] + rest)[1..] == rest;
  }

  /** The loop over `iter_live`: keys filtered by one clock reading. */
  method PutLive(out: Buffer, order: seq<Stored>, now: nat)
    requires WritableDb(order)
    modifies out
    ensures AllWritable(DbOps(Live(order, now)))
    ensures out.bytes == old(out.bytes) + OpsCode(DbOps(Live(order, now)))
  {
    hide OpCode, WritableOp, WritableStored, RecordOps, OpsCode, DbOps, Live, AllWritable, Expired;
    ghost var start := out.bytes;
    LiveWritable(order, now);
    DbOpsWritable(Live(order, now));
    assert order[0..] == order;
    for i := 0 to |order|
      invariant AllWritable(DbOps(Live(order[i..], now)))
      invariant start + OpsCode(DbOps(Live(order, now))) == out.bytes + OpsCode(DbOps(Live(order[i..], now)))
    {
      assert order[i..][0] == order[i] && order[i..][1..] == order[i + 1..];
      LiveCode(order[i..], now);
      ghost var before, others := out.bytes, OpsCode(DbOps(Live(order[i + 1..], now)));
      if !Expired(order[i].expireAt, now) {
        PutStored(out, order[i]);
        assert before + (OpsCode(RecordOps(order[i])) + others) == out.bytes + others;
      } else {
        assert [] + others == others;
      }
    }
    NothingLive(order[|order|..], now);
    assert out.bytes + [] == out.bytes;
  }

  lemma NothingLive(order: seq<Stored>, now: nat)
    requires order == []
    ensures DbOps(Live(order, now)) == [] && OpsCode(DbOps(Live(order, now))) == []
  {}

  /** One database: nothing at all when it has no live key, else a section header and its live keys. */
  method PutSection(out: Buffer, order: seq<Stored>, index: u64, clock: SaveClock)
    requires WritableDb(order)
    modifies out
    ensures AllWritable(SectionOps(order, index, clock))
    ensures out.bytes == old(out.bytes) + OpsCode(SectionOps(order, index, clock))
  {
    hide WritableStored, Live, Volatile, OpCode, OpsCode, DbOps, Writable;
    SectionOpsWritable(order, index, clock);
    EmptyCode();
    var len := |Live(order, clock(index, 0))|;
    if len == 0 {
      return;
    }
    var keys, volatile := |Live(order, clock(index, 1))|, Volatile(order, clock(index, 2));
    PutSectionHeader(out, index, keys, volatile);
    PutLive(out, order, clock(index, 3));
    OpsCodeConcat([SelectDb(index), ResizeDb(keys, volatile)], DbOps(Live(order, clock(index, 3))));
  }

  method PutSectionHeader(out: Buffer, index: u64, keys: u64, volatile: u64)
    modifies out
    ensures out.bytes == old(out.bytes) + OpsCode([SelectDb(index), ResizeDb(keys, volatile)])
  {
    hide LengthCode, OpsCode;
    out.Push(OP_SELECTDB);
    PutLength(out, index);
    assert out.bytes == old(out.bytes) + ([OP_SELECTDB] + LengthCode(index));
    ghost var middle := out.bytes;
    out.Push(OP_RESIZEDB);
    PutLength(out, keys);
    PutLength(out, volatile);
    assert out.bytes == middle + ([OP_RESIZEDB] + (LengthCode(keys) + LengthCode(volatile)));
    ghost var select: Op<Flat>, resize: Op<Flat> := SelectDb(index), ResizeDb(keys, volatile);
    OneOp(select);
    OneOp(resize);
    OpsCodeConcat([select], [resize]);
    assert [select] + [resize] == [select, resize];
  }

  lemma EmptyCode()
    ensures OpsCode([]) == []
  {}

  method PutSections(out: Buffer, dbs: seq<seq<Stored>>, clock: SaveClock)
    requires WritableKeyspace(dbs)
    modifies out
    ensures AllWritable(SectionsOps(dbs, 0, clock))
    ensures out.bytes == old(out.bytes) + OpsCode(SectionsOps(dbs, 0, clock))
  {
    hide OpCode, OpsCode, WritableOp, WritableStored, SectionOps;
    SectionsOpsWritable(dbs, 0, clock);
    EmptyCode();
    ghost var start := out.bytes;
    for index := 0 to |dbs|
      invariant AllWritable(SectionsOps(dbs, index, clock))
      invariant start + OpsCode(SectionsOps(dbs, 0, clock)) == out.bytes + OpsCode(SectionsOps(dbs, index, clock))
    {
      SectionOpsWritable(dbs[index], index, clock);
      SectionsOpsWritable(dbs, index + 1, clock);
      OpsCodeConcat(SectionOps(dbs[index], index, clock), SectionsOps(dbs, index + 1, clock));
      PutSection(out, dbs[index], index, clock);
    }
  }

  /** Everything between the header and the end marker. */
  method PutRecords(out: Buffer, dbs: seq<seq<Stored>>, clock: SaveClock)
    requires WritableKeyspace(dbs)
    modifies out
    ensures AllWritable(ImageOps(dbs, clock))
    ensures out.bytes == old(out.bytes) + OpsCode(ImageOps(dbs, clock))
  {
    hide OpCode, SectionsOps;
    ImageOpsWritable(dbs, clock);
    SectionsOpsWritable(dbs, 0, clock);
    PutAux(out, AUX_OPS[0].name, AUX_OPS[0].value);
    PutAux(out, AUX_OPS[1].name, AUX_OPS[1].value);
    PutAux(out, AUX_OPS[2].name, AUX_OPS[2].value);
    ThreeOps(AUX_OPS);
    assert out.bytes == old(out.bytes) + OpsCode(AUX_OPS);
    PutSections(out, dbs, clock);
    OpsCodeConcat(AUX_OPS, SectionsOps(dbs, 0, clock));
  }

  /** `to_bytes`: the whole image. */
  method Save(dbs: seq<seq<Stored>>, clock: SaveClock) returns (image: seq<byte>)
    requires WritableKeyspace(dbs)
    ensures AllWritable(ImageOps(dbs, clock))
    ensures image == Sealed(OpsCode(ImageOps(dbs, clock)))
  {
    hide OpsCode, ImageOps, LE, Crc64.Fold, Crc64.Val;
    var out := new Buffer();
    out.Extend(HEADER);
    PutRecords(out, dbs, clock);
    out.Push(OP_EOF);
    assert out.bytes == HEADER + OpsCode(ImageOps(dbs, clock)) + [OP_EOF];
    var table := Crc64.BuildTable();
    var checksum := Crc64.Update(table, Crc64.ZERO, out.bytes);
    out.Extend(LE(Crc64.Val(checksum), 8));
    image := out.bytes;
  }

  lemma ThreeOps(ops: seq<Op<Flat>>)
    requires |ops| == 3 && AllWritable(ops)
    ensures OpsCode(ops) == OpCode(ops[0]) + OpCode(ops[1]) + OpCode(ops[2])
  {
    hide OpCode;
    OneOp(ops[2]);
    assert ops[2..] == [ops[2]];
    assert OpsCode(ops[1..]) == OpCode(ops[1]) + OpsCode(ops[2..]);
  }

  // ------------------------------------------------------ the image, written out

  /** REDIS0011, the records, the end marker, and the checksum of all that as eight little-endian bytes. */
  lemma SealedLayout(records: seq<byte>)
    ensures var image := Sealed(records);
            && |image| == 18 + |records|
            && image[..9] == [82, 69, 68, 73, 83, 48, 48, 49, 49]
            && image[9..|image| - 9] == records && image[|image| - 9] == 255
            && FromLE(image[|image| - 8..]) == Crc64.Checksum(image[..|image| - 8])
  {
    hide LE, FromLE, Crc64.Checksum;
    var payload := HEADER + records + [OP_EOF];
    var image := Sealed(records);
    Pow256Values();
    LERoundTrip(Crc64.Checksum(payload), 8);
    assert image[..|image| - 8] == payload && image[|image| - 8..] == LE(Crc64.Checksum(payload), 8);
  }

  /** Databases with a live key are written in order, each as its number, its two sizes and its live keys; a key has its
      expiry, if any, in front. */
  lemma SectionLayout(order: seq<Stored>, index: u64, clock: SaveClock)
    requires InMemory(order)
    ensures SectionOps(order, index, clock)
            == if forall i :: 0 <= i < |order| ==> Expired(order[i].expireAt, clock(index, 0)) then []
               else [SelectDb(index), ResizeDb(|Live(order, clock(index, 1))|, Volatile(order, clock(index, 2)))]
                    + DbOps(Live(order, clock(index, 3)))
  {
    NoneLive(order, clock(index, 0));
  }

  lemma {:induction false} NoneLive(order: seq<Stored>, now: nat)
    ensures Live(order, now) == [] <==> forall i :: 0 <= i < |order| ==> Expired(order[i].expireAt, now)
  {
    if order != [] {
      NoneLive(order[1..], now);
      assert forall i :: 1 <= i < |order| ==> order[i] == order[1..][i - 1];
    }
  }

  /** The second size: how many of the keys have an expiry still to come. */
  lemma {:induction false} VolatileCounts(order: seq<Stored>, now: nat)
    ensures Volatile(order, now) == |Pending(order, now)|
  {
    if order == [] {
      assert Pending(order, now) == {};
    } else {
      var most, last := order[..|order| - 1], order[|order| - 1];
      VolatileCounts(most, now);
      VolatileSnoc(most, last, now);
      assert order == most + [last];
      var more := if last.expireAt.Some? && last.expireAt.value > now then {|most|} else {};
      assert Pending(order, now) == Pending(most, now) + more;
    }
  }

  function Pending(order: seq<Stored>, now: nat): set<nat> {
    set i: nat | i < |order| && order[i].expireAt.Some? && order[i].expireAt.value > now
  }

  lemma {:induction false} VolatileSnoc(order: seq<Stored>, last: Stored, now: nat)
    ensures Volatile(order + [last], now)
            == Volatile(order, now) + if last.expireAt.Some? && last.expireAt.value > now then 1 else 0
  {
    if order == [] {
      assert ([] + [last])[1..] == [];
    } else {
      assert (order + [last])[1..] == order[1..] + [last];
      VolatileSnoc(order[1..], last, now);
    }
  }

  lemma {:induction false} KeysInOrder(a: seq<Stored>, b: seq<Stored>)
    ensures DbOps(a + b) == DbOps(a) + DbOps(b)
    decreases a
  {
    if a == [] {
      assert a + b == b;
    } else {
      assert (a + b)[1..] == a[1..] + b;
      KeysInOrder(a[1..], b);
    }
  }

  lemma OneKey(key: seq<byte>, flat: Flat, at: u64)
    ensures DbOps([Stored(key, flat, None)]) == [Record(key, flat)]
    ensures DbOps([Stored(key, flat, Some(at))]) == [ExpireMs(at), Record(key, flat)]
  {
    assert [Stored(key, flat, None)][1..] == [] && [Stored(key, flat, Some(at))][1..] == [];
  }
}
