/** The records of an RDB image: their bytes and how a reader takes them apart. */
module RdbFormat {
  import opened Bytes
  import opened Values
  import opened Listing
  import opened Cursor
  import StreamCodec

  const STRING: byte := 0
  const LIST: byte := 1
  const SET: byte := 2
  const ZSET: byte := 3
  const HASH: byte := 4
  const ZSET_2: byte := 5

  const OP_SLOT_INFO: byte := 0xf4
  const OP_FUNCTION2: byte := 0xf5
  const OP_FUNCTION_PRE_GA: byte := 0xf6
  const OP_MODULE_AUX: byte := 0xf7
  const OP_IDLE: byte := 0xf8
  const OP_FREQ: byte := 0xf9
  const OP_AUX: byte := 0xfa
  const OP_RESIZEDB: byte := 0xfb
  const OP_EXPIRETIME_MS: byte := 0xfc
  const OP_EXPIRETIME: byte := 0xfd
  const OP_SELECTDB: byte := 0xfe
  const OP_EOF: byte := 0xff

  // ---------------------------------------------------------------- values

  /** A value in the order its container happens to iterate. */
  datatype Flat =
    | FText(s: seq<byte>)
    | FList(items: seq<seq<byte>>)
    | FSet(members: seq<seq<byte>>)
    | FHash(pairs: seq<(seq<byte>, seq<byte>)>)
    | FZSet(scored: seq<(seq<byte>, u64)>)
    | FLog(order: seq<(StreamId, Fields)>, lastId: StreamId, maxDeletedId: StreamId)

  /** `f` is one of the orders in which `v` may be iterated. */
  ghost predicate Iterates(f: Flat, v: Value) {
    match v
    case Text(s) => f == FText(s)
    case List(items) => f == FList(items)
    case Set(members) => f.FSet? && ListsSet(f.members, members)
    case Hash(fields) => f.FHash? && Lists(f.pairs, fields)
    case ZSet(scores) => f.FZSet? && Lists(f.scored, scores)
    case Log(s) => f.FLog? && Lists(f.order, s.entries) && f.lastId == s.lastId && f.maxDeletedId == s.maxDeletedId
  }

  /** What a reader that inserts the elements one by one ends up with. */
  function Gathered(f: Flat): Value {
    match f
    case FText(s) => Text(s)
    case FList(items) => List(items)
    case FSet(members) => Set(set m | m in members)
    case FHash(pairs) => Hash(InsertAll(map[], pairs))
    case FZSet(scored) => ZSet(InsertAll(map[], scored))
    case FLog(order, last, deleted) => Log(Stream(InsertAll(map[], order), last, deleted))
  }

  lemma GatheredIterated(f: Flat, v: Value)
    requires Iterates(f, v)
    ensures Gathered(f) == v
  {
    match v {
      case Text(_) =>
      case List(_) =>
      case Set(_) =>
      case Hash(fields) => InsertingListing(f.pairs, fields);
      case ZSet(scores) => InsertingListing(f.scored, scores);
      case Log(s) => InsertingListing(f.order, s.entries);
    }
  }

  predicate AllInMemory(items: seq<seq<byte>>) {
    InMemory(items) && forall i :: 0 <= i < |items| ==> InMemory(items[i])
  }

  /** Sizes a 64-bit machine can hold and the format's length fields can carry. */
  predicate Writable(f: Flat) {
    match f
    case FText(s) => InMemory(s)
    case FList(items) => AllInMemory(items)
    case FSet(members) => AllInMemory(members)
    case FHash(pairs) =>
      InMemory(pairs) && forall i :: 0 <= i < |pairs| ==> InMemory(pairs[i].0) && InMemory(pairs[i].1)
    case FZSet(scored) => InMemory(scored) && forall i :: 0 <= i < |scored| ==> InMemory(scored[i].0)
    case FLog(order, _, _) => StreamCodec.WritableOrder(order)
  }

  function TypeCode(f: Flat): byte {
    match f
    case FText(_) => STRING
    case FList(_) => LIST
    case FSet(_) => SET
    case FHash(_) => HASH
    case FZSet(_) => ZSET_2
    case FLog(_, _, _) => StreamCodec.STREAM_LISTPACKS_2
  }

  function PairCode(p: (seq<byte>, seq<byte>)): seq<byte> {
    StringCode(p.0) + StringCode(p.1)
  }

  function ScoredCode(p: (seq<byte>, u64)): seq<byte> {
    StringCode(p.0) + LE(p.1, 8)
  }

  function ItemsCode<T>(code: T -> seq<byte>, xs: seq<T>): seq<byte> {
    if xs == [] then [] else code(xs[0]) + ItemsCode(code, xs[1..])
  }

  function BodyCode(f: Flat): seq<byte>
    requires Writable(f)
  {
    match f
    case FText(s) => StringCode(s)
    case FList(items) => LengthCode(|items|) + ItemsCode(StringCode, items)
    case FSet(members) => LengthCode(|members|) + ItemsCode(StringCode, members)
    case FHash(pairs) => LengthCode(|pairs|) + ItemsCode(PairCode, pairs)
    case FZSet(scored) => LengthCode(|scored|) + ItemsCode(ScoredCode, scored)
    case FLog(order, last, deleted) => StreamCodec.StreamCode(order, last, deleted)
  }

  function PairAt(s: seq<byte>): Result<((seq<byte>, seq<byte>), nat)> {
    match StringAt(s)
    case Err(e) => Err(e)
    case Ok((a, used)) =>
      match StringAt(s[used..])
      case Err(e) => Err(e)
      case Ok((b, more)) => Ok(((a, b), used + more))
  }

  function ScoredAt(s: seq<byte>): Result<((seq<byte>, u64), nat)> {
    match StringAt(s)
    case Err(e) => Err(e)
    case Ok((m, used)) =>
      if used + 8 <= |s| then
        FromLEFits(s[used..used + 8]);
        Ok(((m, FromLE(s[used..used + 8])), used + 8))
      else Err(Corrupt)
  }

  lemma FromLEFits(s: seq<byte>)
    requires |s| <= 8
    ensures FromLE(s) < 0x1_0000_0000_0000_0000
  {
    FromLEBound(s);
    Pow256Values();
    Pow256Mono(|s|, 8);
  }

  /** `n` items in a row. */
  function ItemsAt<T>(item: seq<byte> -> Result<(T, nat)>, s: seq<byte>, n: nat): Result<(seq<T>, nat)>
    decreases n
  {
    if n == 0 then Ok(([], 0))
    else match item(s)
      case Err(e) => Err(e)
      case Ok((x, a)) =>
        if a > |s| then Err(Corrupt)
        else match ItemsAt(item, s[a..], n - 1)
          case Err(e) => Err(e)
          case Ok((rest, b)) => Ok(([x] + rest, a + b))
  }

  function CountedAt<T>(item: seq<byte> -> Result<(T, nat)>, s: seq<byte>): Result<(seq<T>, nat)> {
    match CountAt(s)
    case Err(e) => Err(e)
    case Ok((n, a)) =>
      match ItemsAt(item, s[a..], n)
      case Err(e) => Err(e)
      case Ok((xs, b)) => Ok((xs, a + b))
  }

  function MapValue<A, B>(r: Result<(A, nat)>, f: A -> B): Result<(B, nat)> {
    match r
    case Err(e) => Err(e)
    case Ok((v, n)) => Ok((f(v), n))
  }

  /** Container layouts read but never written here, and types that are refused. */
  function OtherType(typeCode: byte): Error {
    if typeCode in {ZSET, 10, 11, 12, 13, 14, 16, 17, 18, 20} then Unmodelled
    else if typeCode in {6, 7, 9, 22, 23, 24, 25} then Unsupported
    else Corrupt
  }

  function ValueAt(s: seq<byte>, typeCode: byte): Result<(Value, nat)> {
    if typeCode == STRING then MapValue(StringAt(s), v => Text(v))
    else if typeCode == LIST then MapValue(CountedAt(StringAt, s), v => List(v))
    else if typeCode == SET then MapValue(CountedAt(StringAt, s), v => Set(set m | m in v))
    else if typeCode == HASH then MapValue(CountedAt(PairAt, s), v => Hash(InsertAll(map[], v)))
    else if typeCode == ZSET_2 then MapValue(CountedAt(ScoredAt, s), v => ZSet(InsertAll(map[], v)))
    else if typeCode in {StreamCodec.STREAM_LISTPACKS, StreamCodec.STREAM_LISTPACKS_2, StreamCodec.STREAM_LISTPACKS_3} then
      MapValue(StreamCodec.StreamAt(s, typeCode), v => Log(v))
    else Err(OtherType(typeCode))
  }

  // --------------------------------------------------------------- records

  /** One opcode with its operands; `V` is what a key/value record carries. */
  datatype Op<V> =
    | SelectDb(n: u64)
    | ResizeDb(keys: u64, volatile: u64)
    | Aux(name: seq<byte>, value: seq<byte>)
    | ExpireMs(at: u64)
    | ExpireSec(secs: nat)
    | Idle(idle: u64)
    | Freq(freq: byte)
    | Function(preGa: bool, source: seq<byte>)
    | SlotInfo(slot: u64, size: u64, expires: u64)
    | ModuleAux
    | Record(key: seq<byte>, content: V)

  predicate WritableOp(op: Op<Flat>) {
    match op
    case Aux(name, value) => InMemory(name) && InMemory(value)
    case ExpireSec(secs) => secs < 0x1_0000_0000
    case Function(_, source) => InMemory(source)
    case Record(key, f) => InMemory(key) && Writable(f)
    case _ => true
  }

  predicate AllWritable(ops: seq<Op<Flat>>) {
    forall i :: 0 <= i < |ops| ==> WritableOp(ops[i])
  }

  function OpCode(op: Op<Flat>): (code: seq<byte>)
    requires WritableOp(op)
    ensures code != [] && code[0] != OP_EOF
  {
    match op
    case SelectDb(n) => [OP_SELECTDB] + LengthCode(n)
    case ResizeDb(a, b) => [OP_RESIZEDB] + (LengthCode(a) + LengthCode(b))
    case Aux(name, value) => [OP_AUX] + (StringCode(name) + StringCode(value))
    case ExpireMs(at) => [OP_EXPIRETIME_MS] + LE(at, 8)
    case ExpireSec(secs) => [OP_EXPIRETIME] + LE(secs, 4)
    case Idle(n) => [OP_IDLE] + LengthCode(n)
    case Freq(b) => [OP_FREQ, b]
    case Function(preGa, source) => [if preGa then OP_FUNCTION_PRE_GA else OP_FUNCTION2] + StringCode(source)
    case SlotInfo(a, b, c) => [OP_SLOT_INFO] + (LengthCode(a) + (LengthCode(b) + LengthCode(c)))
    case ModuleAux => [OP_MODULE_AUX]
    case Record(key, f) => [TypeCode(f)] + (StringCode(key) + BodyCode(f))
  }

  function OpsCode(ops: seq<Op<Flat>>): seq<byte>
    requires AllWritable(ops)
  {
    if ops == [] then [] else OpCode(ops[0]) + OpsCode(ops[1..])
  }

  function GatheredOp(op: Op<Flat>): Op<Value> {
    match op
    case SelectDb(n) => SelectDb(n)
    case ResizeDb(a, b) => ResizeDb(a, b)
    case Aux(name, value) => Aux(name, value)
    case ExpireMs(at) => ExpireMs(at)
    case ExpireSec(secs) => ExpireSec(secs)
    case Idle(n) => Idle(n)
    case Freq(b) => Freq(b)
    case Function(preGa, source) => Function(preGa, source)
    case SlotInfo(a, b, c) => SlotInfo(a, b, c)
    case ModuleAux => ModuleAux
    case Record(key, f) => Record(key, Gathered(f))
  }

  function RecordAt(s: seq<byte>, typeCode: byte): Result<(Op<Value>, nat)> {
    match StringAt(s)
    case Err(e) => Err(e)
    case Ok((key, a)) => MapValue(Shift(a, ValueAt(s[a..], typeCode)), v => Record(key, v))
  }

  function Shift<T>(n: nat, r: Result<(T, nat)>): Result<(T, nat)> {
    match r
    case Err(e) => Err(e)
    case Ok((v, used)) => Ok((v, n + used))
  }

  /** The operands of opcode `op`, standing at the head of `s`. */
  function OperandsAt(op: byte, s: seq<byte>): Result<(Op<Value>, nat)> {
    if op == OP_SELECTDB then MapValue(CountAt(s), n => SelectDb(n))
    else if op == OP_RESIZEDB then
      MapValue(StreamCodec.CountsAt(s, 2), (ns: seq<u64>) => if |ns| == 2 then ResizeDb(ns[0], ns[1]) else ModuleAux)
    else if op == OP_AUX then MapValue(PairAt(s), (p: (seq<byte>, seq<byte>)) => Aux(p.0, p.1))
    else if op == OP_EXPIRETIME_MS then
      if |s| < 8 then Err(Corrupt) else FromLEFits(s[..8]); Ok((ExpireMs(FromLE(s[..8])), 8))
    else if op == OP_EXPIRETIME then
      if |s| < 4 then Err(Corrupt) else Ok((ExpireSec(FromLE(s[..4])), 4))
    else if op == OP_IDLE then MapValue(CountAt(s), n => Idle(n))
    else if op == OP_FREQ then
      if s == [] then Err(Corrupt) else Ok((Freq(s[0]), 1))
    else if op == OP_FUNCTION2 || op == OP_FUNCTION_PRE_GA then
      MapValue(StringAt(s), v => Function(op == OP_FUNCTION_PRE_GA, v))
    else if op == OP_SLOT_INFO then
      MapValue(StreamCodec.CountsAt(s, 3),
               (ns: seq<u64>) => if |ns| == 3 then SlotInfo(ns[0], ns[1], ns[2]) else ModuleAux)
    else if op == OP_MODULE_AUX then Ok((ModuleAux, 0))
    else RecordAt(s, op)
  }

  /** The whole record at the head of `s`, which is not at its end. */
  function OpAt(s: seq<byte>): Result<(Op<Value>, nat)>
    requires s != []
  {
    Shift(1, OperandsAt(s[0], s[1..]))
  }

  // ------------------------------------------------------------- properties

  /** An item decoder that undoes an item encoder undoes it on runs of items. */
  lemma {:induction false} ItemsRoundTrip<T(!new)>(item: seq<byte> -> Result<(T, nat)>, code: T -> seq<byte>,
                                                   xs: seq<T>, rest: seq<byte>)
    requires forall x, tail :: x in xs ==> item(code(x) + tail) == Ok((x, |code(x)|))
    ensures ItemsAt(item, ItemsCode(code, xs) + rest, |xs|) == Ok((xs, |ItemsCode(code, xs)|))
    decreases xs
  {
    if xs != [] {
      hide ItemsAt;
      var mine, others := code(xs[0]), ItemsCode(code, xs[1..]);
      SkipFirst(mine, others, rest);
      assert item(mine + (others + rest)) == Ok((xs[0], |mine|));
      ItemsRoundTrip(item, code, xs[1..], rest);
      ItemStep(item, mine + others + rest, |xs|, xs[0], |mine|);
      assert [xs[0]] + xs[1..] == xs;
    }
  }

  lemma SkipFirst(mine: seq<byte>, others: seq<byte>, rest: seq<byte>)
    ensures mine + others + rest == mine + (others + rest)
    ensures (mine + others + rest)[|mine|..] == others + rest
  {}

  lemma ItemStep<T>(item: seq<byte> -> Result<(T, nat)>, s: seq<byte>, n: nat, x: T, used: nat)
    requires n > 0 && item(s) == Ok((x, used)) && used <= |s|
    ensures ItemsAt(item, s, n) == match ItemsAt(item, s[used..], n - 1)
              case Err(e) => Err(e)
              case Ok((rest, more)) => Ok(([x] + rest, used + more))
  {}

  lemma CountedRoundTrip<T(!new)>(item: seq<byte> -> Result<(T, nat)>, code: T -> seq<byte>, xs: seq<T>,
                                  rest: seq<byte>)
    requires InMemory(xs)
    requires forall x, tail :: x in xs ==> item(code(x) + tail) == Ok((x, |code(x)|))
    ensures CountedAt(item, LengthCode(|xs|) + ItemsCode(code, xs) + rest)
            == Ok((xs, |LengthCode(|xs|) + ItemsCode(code, xs)|))
  {
    hide CountAt, LengthCode, ItemsAt, ItemsCode;
    var a, b := LengthCode(|xs|), ItemsCode(code, xs);
    assert a + b + rest == a + (b + rest);
    CountRoundTrip(|xs|, b + rest);
    assert (a + b + rest)[|a|..] == b + rest;
    ItemsRoundTrip(item, code, xs, rest);
  }

  lemma StringsRoundTrip(xs: seq<seq<byte>>, rest: seq<byte>)
    requires AllInMemory(xs)
    ensures CountedAt(StringAt, LengthCode(|xs|) + ItemsCode(StringCode, xs) + rest)
            == Ok((xs, |LengthCode(|xs|) + ItemsCode(StringCode, xs)|))
  {
    forall x, tail | x in xs
      ensures StringAt(StringCode(x) + tail) == Ok((x, |StringCode(x)|))
    {
      StringRoundTrip(x, tail);
    }
    CountedRoundTrip(StringAt, StringCode, xs, rest);
  }

  lemma PairRoundTrip(p: (seq<byte>, seq<byte>), rest: seq<byte>)
    requires InMemory(p.0) && InMemory(p.1)
    ensures PairAt(PairCode(p) + rest) == Ok((p, |PairCode(p)|))
  {
    hide StringAt, StringCode;
    var a, b := StringCode(p.0), StringCode(p.1);
    assert PairCode(p) + rest == a + (b + rest);
    StringRoundTrip(p.0, b + rest);
    assert (PairCode(p) + rest)[|a|..] == b + rest;
    StringRoundTrip(p.1, rest);
  }

  lemma ScoredRoundTrip(p: (seq<byte>, u64), rest: seq<byte>)
    requires InMemory(p.0)
    ensures ScoredAt(ScoredCode(p) + rest) == Ok((p, |ScoredCode(p)|))
  {
    hide StringAt, StringCode;
    var a, b := StringCode(p.0), LE(p.1, 8);
    var s := ScoredCode(p) + rest;
    assert s == a + (b + rest);
    StringRoundTrip(p.0, b + rest);
    assert s[|a|..|a| + 8] == b;
    Pow256Values();
    LERoundTrip(p.1, 8);
  }

  lemma ValueRoundTrip(f: Flat, rest: seq<byte>)
    requires Writable(f)
    ensures ValueAt(BodyCode(f) + rest, TypeCode(f)) == Ok((Gathered(f), |BodyCode(f)|))
  {
    hide StringAt, StringCode, PairAt, PairCode, ScoredAt, ScoredCode, CountedAt, StreamCodec.StreamAt,
         StreamCodec.StreamCode;
    match f {
      case FText(s) => StringRoundTrip(s, rest);
      case FList(items) => StringsRoundTrip(items, rest);
      case FSet(members) => StringsRoundTrip(members, rest);
      case FHash(pairs) =>
        forall p, tail | p in pairs
          ensures PairAt(PairCode(p) + tail) == Ok((p, |PairCode(p)|))
        {
          PairRoundTrip(p, tail);
        }
        CountedRoundTrip(PairAt, PairCode, pairs, rest);
      case FZSet(scored) =>
        forall p, tail | p in scored
          ensures ScoredAt(ScoredCode(p) + tail) == Ok((p, |ScoredCode(p)|))
        {
          ScoredRoundTrip(p, tail);
        }
        CountedRoundTrip(ScoredAt, ScoredCode, scored, rest);
      case FLog(order, last, deleted) => StreamCodec.StreamDecodes(order, last, deleted, rest);
    }
  }

  /** Every record reads back as itself, its containers gathered. */
  lemma OpRoundTrip(op: Op<Flat>, rest: seq<byte>)
    requires WritableOp(op)
    ensures OpAt(OpCode(op) + rest) == Ok((GatheredOp(op), |OpCode(op)|))
  {
    hide OperandsAt, OpCode, GatheredOp;
    OpCodeStarts(op);
    var s := OpCode(op) + rest;
    assert s[0] == OpCode(op)[0] && s[1..] == OpCode(op)[1..] + rest;
    if op.Record? {
      RecordOperands(op, rest);
    } else {
      OperandsRoundTrip(op, rest);
    }
  }

  lemma RecordOperands(op: Op<Flat>, rest: seq<byte>)
    requires WritableOp(op) && op.Record?
    ensures OpCode(op) != []
    ensures OperandsAt(OpCode(op)[0], OpCode(op)[1..] + rest) == Ok((GatheredOp(op), |OpCode(op)| - 1))
  {
    hide OperandsAt, StringCode, BodyCode, Gathered;
    RecordRoundTrip(op.key, op.content, rest);
    assert OpCode(op)[1..] == StringCode(op.key) + BodyCode(op.content);
  }

  lemma OpCodeStarts(op: Op<Flat>)
    requires WritableOp(op)
    ensures OpCode(op) != []
  {
    hide StringCode, LengthCode, BodyCode, LE;
  }

  lemma OperandsRoundTrip(op: Op<Flat>, rest: seq<byte>)
    requires WritableOp(op) && !op.Record?
    ensures OperandsAt(OpCode(op)[0], OpCode(op)[1..] + rest) == Ok((GatheredOp(op), |OpCode(op)| - 1))
  {
    hide StringAt, StringCode, CountAt, LengthCode, StreamCodec.CountsAt, PairAt, RecordAt;
    var operands := OpCode(op)[1..];
    match op {
      case SelectDb(n) => CountRoundTrip(n, rest);
      case ResizeDb(a, b) =>
        TwoCounts(a, b);
        StreamCodec.CountsRoundTrip([a, b], rest);
      case Aux(name, value) =>
        assert operands == PairCode((name, value));
        PairRoundTrip((name, value), rest);
      case ExpireMs(at) => FixedRoundTrip(at, 8, rest);
      case ExpireSec(secs) => FixedRoundTrip(secs, 4, rest);
      case Idle(n) => CountRoundTrip(n, rest);
      case Freq(_) =>
      case Function(_, source) => StringRoundTrip(source, rest);
      case SlotInfo(a, b, c) =>
        ThreeCounts(a, b, c);
        StreamCodec.CountsRoundTrip([a, b, c], rest);
      case ModuleAux =>
    }
  }

  lemma FixedRoundTrip(n: nat, w: nat, rest: seq<byte>)
    requires n < Pow256(w)
    ensures FromLE((LE(n, w) + rest)[..w]) == n
    ensures Pow256(4) == 0x1_0000_0000 && Pow256(8) == 0x1_0000_0000_0000_0000
  {
    assert (LE(n, w) + rest)[..w] == LE(n, w);
    LERoundTrip(n, w);
    Pow256Values();
  }

  lemma RecordRoundTrip(key: seq<byte>, f: Flat, rest: seq<byte>)
    requires InMemory(key) && Writable(f)
    ensures OperandsAt(TypeCode(f), StringCode(key) + BodyCode(f) + rest)
            == Ok((Record(key, Gathered(f)), |StringCode(key) + BodyCode(f)|))
  {
    hide StringAt, StringCode, BodyCode, ValueAt;
    var k, body := StringCode(key), BodyCode(f);
    var s := k + body + rest;
    assert s == k + (body + rest);
    StringRoundTrip(key, body + rest);
    assert s[|k|..] == body + rest;
    ValueRoundTrip(f, rest);
  }

  lemma TwoCounts(a: u64, b: u64)
    ensures StreamCodec.CountsCode([a, b]) == LengthCode(a) + LengthCode(b)
  {
    hide LengthCode;
    assert [a, b][1..] == [b] && [b][1..] == [];
    assert LengthCode(b) + [] == LengthCode(b);
    assert StreamCodec.CountsCode([b]) == LengthCode(b);
  }

  lemma ThreeCounts(a: u64, b: u64, c: u64)
    ensures StreamCodec.CountsCode([a, b, c]) == LengthCode(a) + (LengthCode(b) + LengthCode(c))
  {
    hide LengthCode;
    assert [a, b, c][1..] == [b, c];
    TwoCounts(b, c);
  }

  // ------------------------------------------------- the format, record by record

  /** Every record by its opcode, with its operands in order. */
  lemma OpForms(a: u64, b: u64, c: u64, d: byte, secs: nat, x: seq<byte>, y: seq<byte>)
    requires secs < 0x1_0000_0000 && InMemory(x) && InMemory(y)
    ensures OpCode(SelectDb(a)) == [254] + LengthCode(a)
    ensures OpCode(ResizeDb(a, b)) == [251] + (LengthCode(a) + LengthCode(b))
    ensures OpCode(Aux(x, y)) == [250] + (LengthCode(|x|) + x + (LengthCode(|y|) + y))
    ensures |OpCode(ExpireMs(a))| == 9 && OpCode(ExpireMs(a))[0] == 252 && FromLE(OpCode(ExpireMs(a))[1..]) == a
    ensures |OpCode(ExpireSec(secs))| == 5 && OpCode(ExpireSec(secs))[0] == 253 && FromLE(OpCode(ExpireSec(secs))[1..]) == secs
    ensures OpCode(Idle(a)) == [248] + LengthCode(a)
    ensures OpCode(Freq(d)) == [249, d]
    ensures OpCode(Function(true, x)) == [246] + (LengthCode(|x|) + x)
    ensures OpCode(Function(false, x)) == [245] + (LengthCode(|x|) + x)
    ensures OpCode(SlotInfo(a, b, c)) == [244] + (LengthCode(a) + (LengthCode(b) + LengthCode(c)))
    ensures OpCode(ModuleAux) == [247]
  {
    TimeForms(a, secs);
    TextForms(x, y);
    hide LengthCode, LE, FromLE, StringCode;
  }

  lemma TimeForms(a: u64, secs: nat)
    requires secs < 0x1_0000_0000
    ensures |OpCode(ExpireMs(a))| == 9 && OpCode(ExpireMs(a))[0] == 252 && FromLE(OpCode(ExpireMs(a))[1..]) == a
    ensures |OpCode(ExpireSec(secs))| == 5 && OpCode(ExpireSec(secs))[0] == 253 && FromLE(OpCode(ExpireSec(secs))[1..]) == secs
  {
    hide LengthCode, LE, FromLE;
    Pow256Values();
    LERoundTrip(a, 8);
    LERoundTrip(secs, 4);
    assert OpCode(ExpireMs(a))[1..] == LE(a, 8);
    assert OpCode(ExpireSec(secs))[1..] == LE(secs, 4);
  }

  lemma TextForms(x: seq<byte>, y: seq<byte>)
    requires InMemory(x) && InMemory(y)
    ensures OpCode(Aux(x, y)) == [250] + (LengthCode(|x|) + x + (LengthCode(|y|) + y))
    ensures OpCode(Function(true, x)) == [246] + (LengthCode(|x|) + x)
    ensures OpCode(Function(false, x)) == [245] + (LengthCode(|x|) + x)
  {
    hide LengthCode;
  }

  /** A key and its value by its type: text, list, set, hash, sorted set with binary scores, stream. */
  lemma RecordForms(key: seq<byte>, f: Flat)
    requires InMemory(key) && Writable(f)
    ensures OpCode(Record(key, f))
            == [match f
                case FText(_) => 0
                case FList(_) => 1
                case FSet(_) => 2
                case FHash(_) => 4
                case FZSet(_) => 5
                case FLog(_, _, _) => 19] + (LengthCode(|key|) + key + BodyCode(f))
  {
    hide LengthCode, BodyCode;
  }

  /** Containers begin with their size; the elements follow in the order of iteration. */
  lemma BodyForms(text: seq<byte>, items: seq<seq<byte>>, pairs: seq<(seq<byte>, seq<byte>)>, scored: seq<(seq<byte>, u64)>)
    requires Writable(FText(text)) && Writable(FList(items)) && Writable(FHash(pairs)) && Writable(FZSet(scored))
    ensures BodyCode(FText(text)) == LengthCode(|text|) + text
    ensures BodyCode(FList(items)) == BodyCode(FSet(items)) == LengthCode(|items|) + ItemsCode(StringCode, items)
    ensures BodyCode(FHash(pairs)) == LengthCode(|pairs|) + ItemsCode(PairCode, pairs)
    ensures BodyCode(FZSet(scored)) == LengthCode(|scored|) + ItemsCode(ScoredCode, scored)
  {}

  lemma {:induction false} ItemsInOrder<T>(code: T -> seq<byte>, a: seq<T>, b: seq<T>)
    ensures ItemsCode(code, a + b) == ItemsCode(code, a) + ItemsCode(code, b)
    decreases a
  {
    if a == [] {
      assert a + b == b;
    } else {
      assert (a + b)[1..] == a[1..] + b;
      ItemsInOrder(code, a[1..], b);
    }
  }

  /** A field and then its value; a member and then its score as eight little-endian bytes. */
  lemma OneItem(item: seq<byte>, pair: (seq<byte>, seq<byte>), scored: (seq<byte>, u64))
    ensures ItemsCode(StringCode, [item]) == LengthCode(|item|) + item
    ensures ItemsCode(PairCode, [pair]) == LengthCode(|pair.0|) + pair.0 + (LengthCode(|pair.1|) + pair.1)
    ensures var code, n := ItemsCode(ScoredCode, [scored]), |LengthCode(|scored.0|)| + |scored.0|;
            |code| == n + 8 && code[..n] == LengthCode(|scored.0|) + scored.0 && FromLE(code[n..]) == scored.1
  {
    hide LengthCode, LE, FromLE;
    assert [item][1..] == [] && [pair][1..] == [] && [scored][1..] == [];
    Pow256Values();
    LERoundTrip(scored.1, 8);
    assert ItemsCode(ScoredCode, [scored]) == LengthCode(|scored.0|) + scored.0 + LE(scored.1, 8);
    assert (LengthCode(|scored.0|) + scored.0 + LE(scored.1, 8))[|LengthCode(|scored.0|)| + |scored.0|..] == LE(scored.1, 8);
  }

  /** Which other types there are: packed containers and decimal scores, modules and the like, and none. */
  lemma OtherTypes(t: byte, s: seq<byte>)
    requires t !in {0, 1, 2, 4, 5, 15, 19, 21}
    ensures t in {3, 10, 11, 12, 13, 14, 16, 17, 18, 20} ==> ValueAt(s, t) == Err(Unmodelled)
    ensures t in {6, 7, 9, 22, 23, 24, 25} ==> ValueAt(s, t) == Err(Unsupported)
    ensures t == 8 || 26 <= t ==> ValueAt(s, t) == Err(Corrupt)
  {}
}
