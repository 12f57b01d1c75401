/** What saving and loading promise together. */
module RdbTheorems {
  import opened Bytes
  import opened Values
  import opened Cursor
  import opened RdbFormat
  import opened RdbLoad
  import opened RdbSave
  import Decimal
  import Crc64

  // ------------------------------- the opcode loop is a fold over the records

  /** How a record sequence ends: at the end marker, or at something that cannot be read. */
  datatype Ending = Ended | Broken(error: Error)

  /** The records a reader takes from any bytes, in whatever encodings they stand, before it meets the end
      marker or gets stuck. */
  function Records(s: seq<byte>): (seq<Op<Value>>, Ending)
    decreases |s|
  {
    if s == [] then ([], Broken(Corrupt))
    else if s[0] == OP_EOF then ([], Ended)
    else match OpAt(s)
      case Err(e) => ([], Broken(e))
      case Ok((op, used)) =>
        if 0 < used <= |s| then ([op] + Records(s[used..]).0, Records(s[used..]).1)
        else ([op], Broken(Corrupt))
  }

  function Concluded(r: Result<LoadState>, ending: Ending): Result<LoadState> {
    match r
    case Err(e) => Err(e)
    case Ok(st) => if ending.Ended? then Ok(st) else Err(ending.error)
  }

  /** On any bytes at all, the loop runs the meaning of the records they hold, one after another. */
  lemma {:induction false} LoopIsFold(st: LoadState, s: seq<byte>, clock: Clock)
    requires st.Valid()
    ensures Loop(st, s, clock) == Concluded(Run(st, Records(s).0, clock), Records(s).1)
    decreases |s|
  {
    hide OpAt, Step;
    if s != [] && s[0] != OP_EOF && OpAt(s).Ok? {
      var (op, used) := OpAt(s).value;
      if Step(st, op, clock).Ok? {
        var next := Step(st, op, clock).value;
        if 0 < used <= |s| {
          LoopIsFold(next, s[used..], clock);
          assert ([op] + Records(s[used..]).0)[1..] == Records(s[used..]).0;
        } else {
          assert [op][1..] == [];
        }
      }
    }
  }

  function GatheredOps(ops: seq<Op<Flat>>): seq<Op<Value>> {
    seq(|ops|, i requires 0 <= i < |ops| => GatheredOp(ops[i]))
  }

  /** The records of an image are those it was written from, whatever follows the end marker. */
  lemma {:induction false} RecordsOfImage(ops: seq<Op<Flat>>, rest: seq<byte>)
    requires AllWritable(ops)
    ensures Records(OpsCode(ops) + [OP_EOF] + rest) == (GatheredOps(ops), Ended)
    decreases ops
  {
    hide OpCode, OpAt;
    if ops == [] {
      assert GatheredOps(ops) == [];
    } else {
      var mine, others := OpCode(ops[0]), OpsCode(ops[1..]) + [OP_EOF] + rest;
      var s := OpsCode(ops) + [OP_EOF] + rest;
      assert s == mine + others;
      OpRoundTrip(ops[0], others);
      assert s[|mine|..] == others;
      assert GatheredOps(ops) == [GatheredOp(ops[0])] + GatheredOps(ops[1..]);
      RecordsOfImage(ops[1..], rest);
    }
  }

  lemma LoopIsRun(st: LoadState, ops: seq<Op<Flat>>, rest: seq<byte>, clock: Clock)
    requires st.Valid() && AllWritable(ops)
    ensures Loop(st, OpsCode(ops) + [OP_EOF] + rest, clock) == Run(st, GatheredOps(ops), clock)
  {
    hide Records, Loop, Run, OpsCode;
    RecordsOfImage(ops, rest);
    LoopIsFold(st, OpsCode(ops) + [OP_EOF] + rest, clock);
  }

  lemma {:induction false} RunConcat(st: LoadState, a: seq<Op<Value>>, b: seq<Op<Value>>, clock: Clock)
    requires st.Valid()
    ensures Run(st, a + b, clock) == match Run(st, a, clock)
                                     case Err(e) => Err(e)
                                     case Ok(mid) => Run(mid, b, clock)
    decreases a
  {
    hide Step;
    if a == [] {
      assert a + b == b;
    } else {
      assert (a + b)[1..] == a[1..] + b;
      match Step(st, a[0], clock) {
        case Err(_) =>
        case Ok(next) => RunConcat(next, a[1..], b, clock);
      }
    }
  }

  /** The expiry a record at the end of `ops` would get: looking back past everything but an earlier
      record or database switch, the nearest expiry. */
  function Binding(ops: seq<Op<Value>>): Option<u64> {
    if ops == [] then None
    else
      var last := ops[|ops| - 1];
      match last
      case ExpireMs(at) => Some(at)
      case ExpireSec(secs) => Some((secs * 1000) % 0x1_0000_0000_0000_0000)
      case Record(_, _) => None
      case SelectDb(_) => None
      case _ => Binding(ops[..|ops| - 1])
  }

  /** The database a record at the end of `ops` goes to: the latest one selected. */
  function Selected(ops: seq<Op<Value>>): nat {
    if ops == [] then 0
    else if ops[|ops| - 1].SelectDb? then ops[|ops| - 1].n
    else Selected(ops[..|ops| - 1])
  }

  /** After any records, the loop's pending expiry and selected database are exactly those. */
  lemma {:induction false} BindingOfRun(dbs: seq<Database>, ops: seq<Op<Value>>, clock: Clock)
    requires |dbs| > 0 && Run(Start(dbs), ops, clock).Ok?
    ensures var st := Run(Start(dbs), ops, clock).value;
            st.pending == Binding(ops) && st.db == Selected(ops)
    decreases ops
  {
    if ops != [] {
      var front, last := ops[..|ops| - 1], ops[|ops| - 1];
      assert ops == front + [last];
      RunConcat(Start(dbs), front, [last], clock);
      BindingOfRun(dbs, front, clock);
      OneStep(Run(Start(dbs), front, clock).value, last, clock);
    }
  }

  lemma OneStep(st: LoadState, op: Op<Value>, clock: Clock)
    requires st.Valid()
    ensures Run(st, [op], clock) == Step(st, op, clock)
  {
    hide Step;
    if Step(st, op, clock).Ok? {
      assert [op][1..] == [];
    }
  }

  /** Any record in any image is stored under the expiry bound to it in the database selected for it and
      counted as a key, or dropped and counted as expired when that expiry has passed; no expiry is pending
      after it, and nothing else changes. */
  lemma RecordPlacement(dbs: seq<Database>, before: seq<Op<Value>>, key: seq<byte>, value: Value, clock: Clock)
    requires |dbs| > 0 && Run(Start(dbs), before, clock).Ok?
    ensures var st, r := Run(Start(dbs), before, clock).value, Run(Start(dbs), before + [Record(key, value)], clock);
            && Selected(before) < |st.dbs|
            && r.Ok?
            && r.value.pending == None && r.value.db == st.db
            && if Expired(Binding(before), clock(st.stats.keys + st.stats.expired)) then
                 r.value.dbs == st.dbs && r.value.stats == st.stats.(expired := st.stats.expired + 1)
               else
                 && r.value.dbs == st.dbs[Selected(before) :=
                                          st.dbs[Selected(before)][key := Entry(value, Binding(before))]]
                 && r.value.stats == st.stats.(keys := st.stats.keys + 1)
  {
    RunConcat(Start(dbs), before, [Record(key, value)], clock);
    BindingOfRun(dbs, before, clock);
    OneStep(Run(Start(dbs), before, clock).value, Record(key, value), clock);
  }

  /** Only a module record or a database the server does not have stops a run, as unsupported. */
  lemma {:induction false} RunFails(dbs: seq<Database>, ops: seq<Op<Value>>, clock: Clock)
    requires |dbs| > 0
    ensures Run(Start(dbs), ops, clock).Err?
            <==> exists i :: 0 <= i < |ops| && (ops[i].ModuleAux? || (ops[i].SelectDb? && ops[i].n >= |dbs|))
    ensures Run(Start(dbs), ops, clock).Err? ==> Run(Start(dbs), ops, clock) == Err(Unsupported)
    decreases ops
  {
    hide Step;
    if ops != [] {
      var front, last := ops[..|ops| - 1], ops[|ops| - 1];
      assert ops == front + [last];
      RunConcat(Start(dbs), front, [last], clock);
      RunFails(dbs, front, clock);
      if Run(Start(dbs), front, clock).Ok? {
        StepFails(Run(Start(dbs), front, clock).value, last, clock);
        OneStep(Run(Start(dbs), front, clock).value, last, clock);
      }
    }
  }

  lemma StepFails(st: LoadState, op: Op<Value>, clock: Clock)
    requires st.Valid()
    ensures Step(st, op, clock).Err? <==> op.ModuleAux? || (op.SelectDb? && op.n >= |st.dbs|)
    ensures Step(st, op, clock).Err? ==> Step(st, op, clock) == Err(Unsupported)
  {}

  /** How many function libraries stand in the records, and which auxiliary fields, in order. */
  function Libraries(ops: seq<Op<Value>>): nat {
    if ops == [] then 0 else Libraries(ops[..|ops| - 1]) + if ops[|ops| - 1].Function? then 1 else 0
  }

  function AuxFields(ops: seq<Op<Value>>): seq<(seq<byte>, seq<byte>)> {
    if ops == [] then []
    else AuxFields(ops[..|ops| - 1])
         + if ops[|ops| - 1].Aux? then [(ops[|ops| - 1].name, ops[|ops| - 1].value)] else []
  }

  lemma {:induction false} TalliesOfRun(dbs: seq<Database>, ops: seq<Op<Value>>, clock: Clock)
    requires |dbs| > 0 && Run(Start(dbs), ops, clock).Ok?
    ensures var stats := Run(Start(dbs), ops, clock).value.stats;
            stats.functions == Libraries(ops) && stats.aux == AuxFields(ops)
    decreases ops
  {
    hide Step;
    if ops != [] {
      var front, last := ops[..|ops| - 1], ops[|ops| - 1];
      assert ops == front + [last];
      RunConcat(Start(dbs), front, [last], clock);
      TalliesOfRun(dbs, front, clock);
      var st := Run(Start(dbs), front, clock).value;
      OneStep(st, last, clock);
      StepTallies(st, last, clock);
    }
  }

  lemma StepTallies(st: LoadState, op: Op<Value>, clock: Clock)
    requires st.Valid() && Step(st, op, clock).Ok?
    ensures var stats := Step(st, op, clock).value.stats;
            && stats.functions == st.stats.functions + (if op.Function? then 1 else 0)
            && stats.aux == st.stats.aux + if op.Aux? then [(op.name, op.value)] else []
  {}

  /** REDIS, then the version in four digits, at most 11; a trailer that is checked from version 5 on. */
  lemma LoadRejects(buf: seq<byte>, dbs: seq<Database>, clock: Clock)
    requires |dbs| > 0
    ensures |buf| < 9 || buf[..5] != [82, 69, 68, 73, 83] ==> FromBytes(buf, dbs, clock) == Err(Corrupt)
    ensures |buf| >= 9 && buf[..5] == [82, 69, 68, 73, 83] && AreDigits(buf[5..9]) ==>
              var version := Thousands(buf);
              && (version > 11 ==> FromBytes(buf, dbs, clock) == Err(Unsupported))
              && (version <= 11 ==>
                    var stored := FromLE(buf[|buf| - 8..]);
                    FromBytes(buf, dbs, clock)
                    == if version >= 5 && stored != 0 && stored != Crc64.Checksum(buf[..|buf| - 8]) then Err(Corrupt)
                       else Loop(Start(dbs), buf[9..], clock))
  {
    hide Loop, FromLE, Crc64.Checksum;
    if |buf| >= 9 && AreDigits(buf[5..9]) {
      FourDigits(buf);
    }
  }

  predicate AreDigits(s: seq<byte>) {
    forall i :: 0 <= i < |s| ==> 48 <= s[i] <= 57
  }

  /** Four digits, the first one counting thousands. */
  function Thousands(buf: seq<byte>): nat
    requires |buf| >= 9 && AreDigits(buf[5..9])
  {
    assert forall i :: 0 <= i < 4 ==> buf[5..9][i] == buf[5 + i];
    var a: int, b: int, c: int, d: int := buf[5], buf[6], buf[7], buf[8];
    (a - 48) * 1000 + (b - 48) * 100 + (c - 48) * 10 + (d - 48)
  }

  lemma FourDigits(buf: seq<byte>)
    requires |buf| >= 9 && AreDigits(buf[5..9])
    ensures Version(buf) == Some(Thousands(buf))
  {
    hide Decimal.Value;
    var d := buf[5..9];
    assert d[0] == buf[5] && d[1] == buf[6] && d[2] == buf[7] && d[3] == buf[8];
    assert d == [d[0], d[1], d[2], d[3]];
    ValueOfFour(d[0] - 48, d[1] - 48, d[2] - 48, d[3] - 48);
  }

  lemma ValueOfFour(a: nat, b: nat, c: nat, d: nat)
    requires a < 10 && b < 10 && c < 10 && d < 10
    ensures Decimal.AllDigits([48 + a, 48 + b, 48 + c, 48 + d])
    ensures Decimal.Value([48 + a, 48 + b, 48 + c, 48 + d]) == 1000 * a + 100 * b + 10 * c + d
  {
    hide Decimal.Value;
    Decimal.ValueOfText([], a);
    assert [] + [48 + a] == [48 + a];
    Decimal.ValueOfText([48 + a], b);
    assert [48 + a] + [48 + b] == [48 + a, 48 + b];
    Decimal.ValueOfText([48 + a, 48 + b], c);
    assert [48 + a, 48 + b] + [48 + c] == [48 + a, 48 + b, 48 + c];
    Decimal.ValueOfText([48 + a, 48 + b, 48 + c], d);
    assert [48 + a, 48 + b, 48 + c] + [48 + d] == [48 + a, 48 + b, 48 + c, 48 + d];
  }

  // ------------------------------------------------------ what a section loads

  /** The keys of `order` that a load keeps when its clock readings start at number `n`. */
  function Kept(order: seq<Stored>, clock: Clock, n: nat): seq<Stored> {
    if order == [] then []
    else (if Expired(order[0].expireAt, clock(n)) then [] else [order[0]]) + Kept(order[1..], clock, n + 1)
  }

  function PutAll(db: Database, order: seq<Stored>): Database
    decreases order
  {
    if order == [] then db
    else PutAll(db[order[0].key := Entry(Gathered(order[0].flat), order[0].expireAt)], order[1..])
  }

  /** `st` after loading `order` into its current database. */
  function AfterDb(st: LoadState, order: seq<Stored>, clock: Clock): LoadState
    requires st.Valid()
  {
    var kept := Kept(order, clock, st.Records());
    KeptSize(order, clock, st.Records());
    st.(dbs := st.dbs[st.db := PutAll(st.dbs[st.db], kept)],
        stats := st.stats.(keys := st.stats.keys + |kept|, expired := st.stats.expired + |order| - |kept|))
  }

  lemma {:induction false} KeptSize(order: seq<Stored>, clock: Clock, n: nat)
    ensures |Kept(order, clock, n)| <= |order|
  {
    if order != [] {
      KeptSize(order[1..], clock, n + 1);
    }
  }

  lemma StepStored(st: LoadState, s: Stored, clock: Clock)
    requires st.Valid() && st.pending == None
    ensures Step(st.(pending := s.expireAt), Record(s.key, Gathered(s.flat)), clock) == Ok(AfterDb(st, [s], clock))
  {
    hide Gathered, PutAll, Kept;
    KeptOne(s, clock, st.Records());
    assert st.dbs[st.db := st.dbs[st.db]] == st.dbs;
  }

  lemma RunStored(st: LoadState, s: Stored, clock: Clock)
    requires st.Valid() && st.pending == None
    ensures Run(st, GatheredOps(RecordOps(s)), clock) == Ok(AfterDb(st, [s], clock))
  {
    hide Gathered, AfterDb;
    var record: Op<Value> := Record(s.key, Gathered(s.flat));
    StepStored(st, s, clock);
    OneStep(st.(pending := s.expireAt), record, clock);
    if s.expireAt.Some? {
      var expire: Op<Value> := ExpireMs(s.expireAt.value);
      assert GatheredOps(RecordOps(s)) == [expire, record];
      assert [expire, record][1..] == [record];
      assert Run(st, [expire, record], clock) == Run(st.(pending := s.expireAt), [record], clock);
    } else {
      assert st.(pending := s.expireAt) == st;
      assert GatheredOps(RecordOps(s)) == [record];
    }
  }

  lemma KeptOne(s: Stored, clock: Clock, n: nat)
    ensures Kept([s], clock, n) == if Expired(s.expireAt, clock(n)) then [] else [s]
    ensures forall db :: PutAll(db, []) == db && PutAll(db, [s]) == db[s.key := Entry(Gathered(s.flat), s.expireAt)]
  {
    assert [s][1..] == [];
  }

  lemma {:induction false} RunDb(st: LoadState, order: seq<Stored>, clock: Clock)
    requires st.Valid() && st.pending == None
    ensures Run(st, GatheredOps(DbOps(order)), clock) == Ok(AfterDb(st, order, clock))
    decreases order
  {
    hide RecordOps, Step, Expired;
    if order == [] {
      assert st.dbs[st.db := st.dbs[st.db]] == st.dbs;
    } else {
      var first, rest := RecordOps(order[0]), DbOps(order[1..]);
      assert GatheredOps(DbOps(order)) == GatheredOps(first) + GatheredOps(rest);
      RunConcat(st, GatheredOps(first), GatheredOps(rest), clock);
      RunStored(st, order[0], clock);
      var mid := AfterDb(st, [order[0]], clock);
      RunDb(mid, order[1..], clock);
      AfterDbStep(st, order, clock);
    }
  }

  lemma AfterDbStep(st: LoadState, order: seq<Stored>, clock: Clock)
    requires st.Valid() && order != []
    ensures AfterDb(AfterDb(st, [order[0]], clock), order[1..], clock) == AfterDb(st, order, clock)
  {
    hide Expired, Gathered, Kept, PutAll;
    var n := st.Records();
    KeptOne(order[0], clock, n);
    KeptFirst(order, clock, n);
    var mid := AfterDb(st, [order[0]], clock);
    assert mid.Records() == n + 1;
    var tail := Kept(order[1..], clock, n + 1);
    PutFirst(st.dbs[st.db], order[0], tail);
    assert mid.dbs[st.db := PutAll(mid.dbs[st.db], tail)] == st.dbs[st.db := PutAll(mid.dbs[st.db], tail)];
  }

  lemma KeptFirst(order: seq<Stored>, clock: Clock, n: nat)
    requires order != []
    ensures var tail := Kept(order[1..], clock, n + 1);
            Kept(order, clock, n) == if Expired(order[0].expireAt, clock(n)) then tail else [order[0]] + tail
  {
    hide Expired;
    assert [] + Kept(order[1..], clock, n + 1) == Kept(order[1..], clock, n + 1);
  }

  lemma PutFirst(db: Database, first: Stored, tail: seq<Stored>)
    ensures PutAll(db, [first] + tail) == PutAll(db[first.key := Entry(Gathered(first.flat), first.expireAt)], tail)
  {
    hide Gathered;
    assert ([first] + tail)[1..] == tail;
  }

  // --------------------------------------------------------- the whole image

  /** Whether a section is written for a database at all. */
  predicate Written(order: seq<Stored>, index: nat, clock: SaveClock) {
    Live(order, clock(index, 0)) != []
  }

  /** Loading the sections of databases `from` onwards. */
  function AfterSections(st: LoadState, dbs: seq<seq<Stored>>, from: nat, save: SaveClock, load: Clock)
    : Result<LoadState>
    requires st.Valid() && from <= |dbs|
    decreases |dbs| - from
  {
    if from == |dbs| then Ok(st)
    else if !Written(dbs[from], from, save) then AfterSections(st, dbs, from + 1, save, load)
    else if from >= |st.dbs| then Err(Unsupported)
    else
      AfterSections(AfterDb(st.(db := from, pending := None), Live(dbs[from], save(from, 3)), load),
                    dbs, from + 1, save, load)
  }

  lemma RunSection(st: LoadState, order: seq<Stored>, index: u64, save: SaveClock, load: Clock)
    requires st.Valid() && InMemory(order) && Written(order, index, save)
    ensures Run(st, GatheredOps(SectionOps(order, index, save)), load) ==
            if index >= |st.dbs| then Err(Unsupported)
            else Ok(AfterDb(st.(db := index, pending := None), Live(order, save(index, 3)), load))
  {
    hide Live, Volatile, DbOps, Run, AfterDb;
    var live := Live(order, save(index, 3));
    var keys, volatile := |Live(order, save(index, 1))|, Volatile(order, save(index, 2));
    var tail := GatheredOps(DbOps(live));
    assert GatheredOps(SectionOps(order, index, save)) == [SelectDb(index), ResizeDb(keys, volatile)] + tail;
    RunOpening(st, index, keys, volatile, tail, load);
    if index < |st.dbs| {
      RunDb(st.(db := index, pending := None), live, load);
    }
  }

  /** The two records a section opens with: the database is selected, the sizes are only a hint. */
  lemma RunOpening(st: LoadState, index: u64, keys: u64, volatile: u64, tail: seq<Op<Value>>, load: Clock)
    requires st.Valid()
    ensures Run(st, [SelectDb(index), ResizeDb(keys, volatile)] + tail, load) ==
            if index >= |st.dbs| then Err(Unsupported)
            else Run(st.(db := index, pending := None), tail, load)
  {
    var ops := [SelectDb(index), ResizeDb(keys, volatile)] + tail;
    assert ops[1..] == [ResizeDb(keys, volatile)] + tail;
    assert ops[1..][1..] == tail;
  }

  lemma {:induction false} RunSections(st: LoadState, dbs: seq<seq<Stored>>, from: nat, save: SaveClock, load: Clock)
    requires st.Valid() && WritableKeyspace(dbs) && from <= |dbs|
    ensures Run(st, GatheredOps(SectionsOps(dbs, from, save)), load) == AfterSections(st, dbs, from, save, load)
    decreases |dbs| - from
  {
    hide Run, SectionOps, AfterDb, Live, WritableStored, GatheredOp;
    if from == |dbs| {
      RunNothing(st, load);
    } else {
      var mine, rest := SectionOps(dbs[from], from, save), SectionsOps(dbs, from + 1, save);
      assert GatheredOps(mine + rest) == GatheredOps(mine) + GatheredOps(rest);
      RunConcat(st, GatheredOps(mine), GatheredOps(rest), load);
      if !Written(dbs[from], from, save) {
        SkippedSection(dbs[from], from, save);
        RunNothing(st, load);
        RunSections(st, dbs, from + 1, save, load);
      } else {
        RunSection(st, dbs[from], from, save, load);
        if from < |st.dbs| {
          var next := st.(db := from, pending := None);
          AfterDbKeeps(next, Live(dbs[from], save(from, 3)), load);
          RunSections(AfterDb(next, Live(dbs[from], save(from, 3)), load), dbs, from + 1, save, load);
        }
      }
    }
  }

  lemma RunNothing(st: LoadState, clock: Clock)
    requires st.Valid()
    ensures Run(st, GatheredOps([]), clock) == Run(st, [], clock) == Ok(st)
  {
    assert GatheredOps([]) == [];
  }

  lemma SkippedSection(order: seq<Stored>, index: u64, save: SaveClock)
    requires InMemory(order) && !Written(order, index, save)
    ensures SectionOps(order, index, save) == []
  {}

  lemma AfterDbKeeps(st: LoadState, order: seq<Stored>, clock: Clock)
    requires st.Valid()
    ensures AfterDb(st, order, clock).Valid() && |AfterDb(st, order, clock).dbs| == |st.dbs|
  {}

  /** The auxiliary fields, then the sections. */
  function AfterImage(target: seq<Database>, dbs: seq<seq<Stored>>, save: SaveClock, load: Clock): Result<LoadState>
    requires |target| > 0
  {
    var st := Start(target);
    AfterSections(st.(stats := st.stats.(aux := AuxPairs())), dbs, 0, save, load)
  }

  function AuxPairs(): seq<(seq<byte>, seq<byte>)> {
    seq(3, i requires 0 <= i < 3 => (AUX_OPS[i].name, AUX_OPS[i].value))
  }

  lemma AuxRun(target: seq<Database>, load: Clock)
    requires |target| > 0
    ensures Run(Start(target), GatheredOps(AUX_OPS), load)
            == Ok(Start(target).(stats := Start(target).stats.(aux := AuxPairs())))
  {
    var ops := GatheredOps(AUX_OPS);
    var st := Start(target);
    assert ops == [ops[0], ops[1], ops[2]];
    assert ops[1..] == [ops[1], ops[2]] && ops[1..][1..] == [ops[2]] && ops[1..][1..][1..] == [];
    var st1 := Step(st, ops[0], load).value;
    var st2 := Step(st1, ops[1], load).value;
    var st3 := Step(st2, ops[2], load).value;
    assert Run(st2, [ops[2]], load) == Ok(st3) by { OneStep(st2, ops[2], load); }
    assert st3.stats.aux == AuxPairs();
  }

  lemma HeaderPasses(records: seq<byte>)
    ensures var image := Sealed(records);
            && |image| >= 18 && image[..5] == MAGIC && Version(image) == Some(11)
            && ChecksumPasses(image, 11)
            && image[9..] == records + [OP_EOF] + image[|image| - 8..]
  {
    hide Crc64.Fold, Crc64.Val, LE, FromLE, Pow256;
    var payload := HEADER + records + [OP_EOF];
    var image := Sealed(records);
    SplitEnd(payload, LE(Crc64.Checksum(payload), 8));
    Pow256Values();
    LERoundTrip(Crc64.Checksum(payload), 8);
    HeaderOf(records + [OP_EOF] + LE(Crc64.Checksum(payload), 8));
    assert image == HEADER + (records + [OP_EOF] + LE(Crc64.Checksum(payload), 8)) by {
      AfterHeader(HEADER, records, [OP_EOF], LE(Crc64.Checksum(payload), 8));
    }
  }

  lemma AfterHeader<T>(a: seq<T>, b: seq<T>, c: seq<T>, d: seq<T>)
    ensures a + b + c + d == a + (b + c + d)
  {}

  lemma HeaderOf(rest: seq<byte>)
    ensures var image := HEADER + rest;
            |image| >= 9 && image[..5] == MAGIC && Version(image) == Some(11) && image[9..] == rest
  {
    var image := HEADER + rest;
    assert image[5..9] == [48, 48, 49, 49];
    ElevenDigits();
  }

  lemma SplitEnd(payload: seq<byte>, trailer: seq<byte>)
    ensures var n := |payload + trailer| - |trailer|;
            (payload + trailer)[..n] == payload && (payload + trailer)[n..] == trailer
  {}

  lemma ElevenDigits()
    ensures Decimal.ParseDigits([48, 48, 49, 49]) == Some(11)
  {
    Decimal.ValueSnoc([], 48);
    Decimal.ValueSnoc([] + [48], 48);
    Decimal.ValueSnoc([] + [48] + [48], 49);
    Decimal.ValueSnoc([] + [48] + [48] + [49], 49);
    assert [] + [48] + [48] + [49] + [49] == [48, 48, 49, 49];
  }

  lemma ImageLoop(dbs: seq<seq<Stored>>, target: seq<Database>, save: SaveClock, load: Clock, trailer: seq<byte>)
    requires WritableKeyspace(dbs) && |target| > 0
    ensures AllWritable(ImageOps(dbs, save))
    ensures Loop(Start(target), OpsCode(ImageOps(dbs, save)) + [OP_EOF] + trailer, load)
            == AfterImage(target, dbs, save, load)
  {
    hide Loop, Step, OpCode, SectionsOps, AfterSections;
    ImageOpsWritable(dbs, save);
    var ops := ImageOps(dbs, save);
    LoopIsRun(Start(target), ops, trailer, load);
    SectionsOpsWritable(dbs, 0, save);
    assert GatheredOps(ops) == GatheredOps(AUX_OPS) + GatheredOps(SectionsOps(dbs, 0, save));
    RunConcat(Start(target), GatheredOps(AUX_OPS), GatheredOps(SectionsOps(dbs, 0, save)), load);
    AuxRun(target, load);
    RunSections(Start(target).(stats := Start(target).stats.(aux := AuxPairs())), dbs, 0, save, load);
  }

  /** Loading a saved image, for every keyspace, every iteration order and every pair of clocks. */
  lemma ImageLoads(dbs: seq<seq<Stored>>, target: seq<Database>, save: SaveClock, load: Clock)
    requires WritableKeyspace(dbs) && |target| > 0
    ensures AllWritable(ImageOps(dbs, save))
    ensures FromBytes(Sealed(OpsCode(ImageOps(dbs, save))), target, load) == AfterImage(target, dbs, save, load)
  {
    hide Loop, OpCode, Version, ChecksumPasses, Sealed, AfterImage;
    ImageOpsWritable(dbs, save);
    HeaderPasses(OpsCode(ImageOps(dbs, save)));
    var image := Sealed(OpsCode(ImageOps(dbs, save)));
    ImageLoop(dbs, target, save, load, image[|image| - 8..]);
  }

  // ----------------------------------------- which keys survive a save and a load

  /** A keyspace given both as maps and in one of its iteration orders. */
  ghost predicate IteratesKeyspace(orders: seq<seq<Stored>>, dbs: seq<Database>) {
    |orders| == |dbs| && forall i :: 0 <= i < |dbs| ==> IteratesDb(orders[i], dbs[i])
  }

  /** Loading from `db` on top of nothing: `got` holds only entries of `db` that were live at both `saved`
      and the load's first reading, and every entry live at both `saved` and the load's last reading. */
  ghost predicate Survives(got: Database, db: Database, saved: nat, first: nat, last: nat) {
    && (forall k :: k in got ==> k in db && got[k] == db[k]
                                 && !Expired(db[k].expireAt, saved) && !Expired(db[k].expireAt, first))
    && (forall k :: k in db && !Expired(db[k].expireAt, saved) && !Expired(db[k].expireAt, last) ==> k in got)
  }

  ghost predicate Within(clock: Clock, first: nat, last: nat) {
    forall n :: first <= clock(n) <= last
  }

  /** The part of `db` that `order` lists, as the loader rebuilds it. */
  lemma {:induction false} PutAllMeaning(base: Database, order: seq<Stored>)
    requires forall i, j :: 0 <= i < j < |order| ==> order[i].key != order[j].key
    ensures var m := PutAll(base, order);
            && (forall k :: k in m <==> k in base || exists i :: 0 <= i < |order| && order[i].key == k)
            && (forall k :: k in base && (forall i :: 0 <= i < |order| ==> order[i].key != k) ==> m[k] == base[k])
            && (forall i :: 0 <= i < |order| ==>
                  order[i].key in m && m[order[i].key] == Entry(Gathered(order[i].flat), order[i].expireAt))
    decreases order
  {
    hide Gathered;
    if order != [] {
      var head, tail := order[0], order[1..];
      var next := base[head.key := Entry(Gathered(head.flat), head.expireAt)];
      PutAllMeaning(next, tail);
      var m := PutAll(next, tail);
      assert forall i :: 0 <= i < |tail| ==> tail[i] == order[i + 1];
      assert forall i :: 1 <= i < |order| ==> order[i] == tail[i - 1];
      forall k | exists i :: 0 <= i < |order| && order[i].key == k
        ensures k in m
      {
        var i :| 0 <= i < |order| && order[i].key == k;
        if i > 0 {
          assert tail[i - 1].key == k;
        }
      }
    }
  }

  /** `Live` and `Kept` both select a subsequence. */
  ghost predicate Selects(sub: seq<Stored>, order: seq<Stored>) {
    forall x :: x in sub ==> x in order
  }

  predicate DistinctKeys(order: seq<Stored>) {
    forall i, j :: 0 <= i < j < |order| ==> order[i].key != order[j].key
  }

  lemma {:induction false} LiveMeaning(order: seq<Stored>, now: nat)
    ensures forall x :: x in Live(order, now) <==> x in order && !Expired(x.expireAt, now)
    ensures DistinctKeys(order) ==> DistinctKeys(Live(order, now))
  {
    hide Expired;
    if order != [] {
      var tail := order[1..];
      LiveMeaning(tail, now);
      assert forall x :: x in order <==> x == order[0] || x in tail;
      if DistinctKeys(order) {
        DistinctTail(order, Live(tail, now));
      }
    }
  }

  lemma {:induction false} KeptMeaning(order: seq<Stored>, clock: Clock, n: nat, first: nat, last: nat)
    requires Within(clock, first, last)
    ensures forall x :: x in Kept(order, clock, n) ==> x in order && !Expired(x.expireAt, first)
    ensures forall x :: x in order && !Expired(x.expireAt, last) ==> x in Kept(order, clock, n)
    ensures DistinctKeys(order) ==> DistinctKeys(Kept(order, clock, n))
  {
    if order != [] {
      var tail := order[1..];
      KeptMeaning(tail, clock, n + 1, first, last);
      assert first <= clock(n) <= last;
      assert forall x :: x in order <==> x == order[0] || x in tail;
      if DistinctKeys(order) {
        DistinctTail(order, Kept(tail, clock, n + 1));
      }
    }
  }

  lemma DistinctTail(order: seq<Stored>, sub: seq<Stored>)
    requires order != [] && DistinctKeys(order) && Selects(sub, order[1..])
    ensures DistinctKeys(order[1..])
    ensures DistinctKeys(sub) ==> DistinctKeys([order[0]] + sub)
  {
    forall x | x in sub
      ensures x.key != order[0].key
    {
      var i :| 0 <= i < |order[1..]| && order[1..][i] == x;
      assert order[i + 1] == x;
    }
  }

  /** One database: what its section leaves behind in an empty one. */
  lemma SectionSurvives(order: seq<Stored>, db: Database, saved: nat, clock: Clock, n: nat, first: nat, last: nat)
    requires IteratesDb(order, db) && Within(clock, first, last)
    ensures Survives(PutAll(map[], Kept(Live(order, saved), clock, n)), db, saved, first, last)
  {
    hide Iterates, Gathered, Live, Kept, PutAll;
    var live := Live(order, saved);
    var kept := Kept(live, clock, n);
    LiveMeaning(order, saved);
    KeptMeaning(live, clock, n, first, last);
    PutAllMeaning(map[], kept);
    var got := PutAll(map[], kept);
    forall k | k in got
      ensures k in db && got[k] == db[k] && !Expired(db[k].expireAt, saved) && !Expired(db[k].expireAt, first)
    {
      var i :| 0 <= i < |kept| && kept[i].key == k;
      assert kept[i] in order;
      GatheredIterated(kept[i].flat, db[k].value);
    }
    forall k | k in db && !Expired(db[k].expireAt, saved) && !Expired(db[k].expireAt, last)
      ensures k in got
    {
      var i :| 0 <= i < |order| && order[i].key == k;
      assert order[i] in kept;
      var j :| 0 <= j < |kept| && kept[j] == order[i];
      assert kept[j].key == k;
    }
  }

  /** How many keys a save writes. */
  function WrittenKeys(orders: seq<seq<Stored>>, from: nat, save: SaveClock): nat
    requires from <= |orders|
    decreases |orders| - from
  {
    if from == |orders| then 0
    else (if Written(orders[from], from, save) then |Live(orders[from], save(from, 3))| else 0)
         + WrittenKeys(orders, from + 1, save)
  }

  predicate Fits(orders: seq<seq<Stored>>, from: nat, save: SaveClock, targets: nat) {
    forall i :: from <= i < |orders| && Written(orders[i], i, save) ==> i < targets
  }

  /** The save clock never goes backwards while one database is written. */
  ghost predicate Monotone(save: SaveClock) {
    forall i :: save(i, 0) <= save(i, 3)
  }

  /** A database skipped as empty has no key that is still live when its turn to iterate would come. */
  lemma {:induction false} LiveShrinks(order: seq<Stored>, t: nat, u: nat)
    requires t <= u && Live(order, t) == []
    ensures Live(order, u) == []
  {
    if order != [] {
      LiveShrinks(order[1..], t, u);
    }
  }

  lemma {:induction false} SectionsSurvive(st: LoadState, orders: seq<seq<Stored>>, dbs: seq<Database>, from: nat,
                                           save: SaveClock, load: Clock, first: nat, last: nat)
    requires st.Valid() && IteratesKeyspace(orders, dbs) && from <= |orders|
    requires Monotone(save) && Within(load, first, last)
    requires forall i :: from <= i < |st.dbs| ==> st.dbs[i] == map[]
    ensures var r := AfterSections(st, orders, from, save, load);
            && (r.Ok? <==> Fits(orders, from, save, |st.dbs|))
            && (r.Err? ==> r.error == Unsupported)
            && (r.Ok? ==>
                  && |r.value.dbs| == |st.dbs|
                  && r.value.Records() == st.Records() + WrittenKeys(orders, from, save)
                  && (forall i :: 0 <= i < from && i < |st.dbs| ==> r.value.dbs[i] == st.dbs[i])
                  && (forall i :: from <= i < |orders| && i < |st.dbs| ==>
                        Survives(r.value.dbs[i], dbs[i], save(i, 3), first, last))
                  && (forall i :: |orders| <= i < |st.dbs| ==> r.value.dbs[i] == map[]))
    decreases |orders| - from
  {
    hide Survives, IteratesDb, Kept, PutAll, Live, AfterDb;
    if from < |orders| {
      SectionsStep(st, orders, dbs, from, save, load, first, last);
      if !Written(orders[from], from, save) {
        SectionsSurvive(st, orders, dbs, from + 1, save, load, first, last);
      } else if from < |st.dbs| {
        var next := AfterDb(st.(db := from, pending := None), Live(orders[from], save(from, 3)), load);
        SectionsSurvive(next, orders, dbs, from + 1, save, load, first, last);
      }
    }
  }

  /** What one database contributes, whether its section is written or skipped. */
  lemma SectionsStep(st: LoadState, orders: seq<seq<Stored>>, dbs: seq<Database>, from: nat,
                     save: SaveClock, load: Clock, first: nat, last: nat)
    requires st.Valid() && IteratesKeyspace(orders, dbs) && from < |orders|
    requires Monotone(save) && Within(load, first, last)
    requires from < |st.dbs| ==> st.dbs[from] == map[]
    ensures from < |st.dbs| && !Written(orders[from], from, save) ==>
              Survives(st.dbs[from], dbs[from], save(from, 3), first, last)
    ensures from < |st.dbs| ==>
              var next := AfterDb(st.(db := from, pending := None), Live(orders[from], save(from, 3)), load);
              && Survives(next.dbs[from], dbs[from], save(from, 3), first, last)
              && next.Valid() && |next.dbs| == |st.dbs|
              && next.Records() == st.Records() + |Live(orders[from], save(from, 3))|
              && (forall i :: 0 <= i < |st.dbs| && i != from ==> next.dbs[i] == st.dbs[i])
  {
    hide Survives, IteratesDb, PutAll;
    var order := orders[from];
    if from < |st.dbs| {
      SectionSurvives(order, dbs[from], save(from, 3), load, st.Records(), first, last);
      if !Written(order, from, save) {
        LiveShrinks(order, save(from, 0), save(from, 3));
        NothingKept(load, st.Records());
      }
    }
  }

  lemma NothingKept(clock: Clock, n: nat)
    ensures Kept([], clock, n) == [] && PutAll(map[], []) == map[]
  {}

  /** A load that ended in `r` kept, database by database, the keys of `dbs` that stayed live. */
  ghost predicate LoadedAll(r: Result<LoadState>, orders: seq<seq<Stored>>, dbs: seq<Database>, targets: nat,
                            save: SaveClock, first: nat, last: nat)
    requires |orders| == |dbs|
  {
    && (r.Ok? <==> Fits(orders, 0, save, targets))
    && (r.Err? ==> r.error == Unsupported)
    && (r.Ok? ==>
          && |r.value.dbs| == targets
          && r.value.stats.keys + r.value.stats.expired == WrittenKeys(orders, 0, save)
          && (forall i :: 0 <= i < |dbs| && i < targets ==>
                Survives(r.value.dbs[i], dbs[i], save(i, 3), first, last))
          && (forall i :: |dbs| <= i < targets ==> r.value.dbs[i] == map[]))
  }

  lemma AfterImageLoadsAll(orders: seq<seq<Stored>>, dbs: seq<Database>, target: seq<Database>,
                           save: SaveClock, load: Clock, first: nat, last: nat)
    requires IteratesKeyspace(orders, dbs) && Monotone(save) && Within(load, first, last)
    requires |target| > 0 && forall i :: 0 <= i < |target| ==> target[i] == map[]
    ensures LoadedAll(AfterImage(target, orders, save, load), orders, dbs, |target|, save, first, last)
  {
    hide Survives, IteratesDb, AfterSections, AuxPairs;
    var st := Start(target).(stats := Start(target).stats.(aux := AuxPairs()));
    SectionsSurvive(st, orders, dbs, 0, save, load, first, last);
  }

  /** Save, then load into empty databases: it succeeds exactly when there are enough of them, and then
      every database holds exactly its own keys that were live throughout, none of those that were not,
      with equal values and expiries; every key written is counted as loaded or as dropped. */
  lemma SaveThenLoad(orders: seq<seq<Stored>>, dbs: seq<Database>, target: seq<Database>,
                     save: SaveClock, load: Clock, first: nat, last: nat)
    requires WritableKeyspace(orders) && IteratesKeyspace(orders, dbs)
    requires |target| > 0 && forall i :: 0 <= i < |target| ==> target[i] == map[]
    requires Monotone(save) && Within(load, first, last)
    ensures AllWritable(ImageOps(orders, save))
    ensures LoadedAll(FromBytes(Sealed(OpsCode(ImageOps(orders, save))), target, load),
                      orders, dbs, |target|, save, first, last)
  {
    hide LoadedAll, FromBytes, AfterImage, Sealed, OpsCode;
    ImageLoads(orders, target, save, load);
    AfterImageLoadsAll(orders, dbs, target, save, load, first, last);
  }

  /** What is still live. */
  function LiveAt(db: Database, now: nat): Database {
    map k | k in db && !Expired(db[k].expireAt, now) :: db[k]
  }

  /** With one clock reading for the whole load, no earlier than the save, the databases loaded from a saved
      image are exactly the saved ones without what has expired by then. */
  lemma ExactlyTheLive(orders: seq<seq<Stored>>, dbs: seq<Database>, target: seq<Database>, save: SaveClock, now: nat)
    requires WritableKeyspace(orders) && IteratesKeyspace(orders, dbs)
    requires |target| > 0 && forall i :: 0 <= i < |target| ==> target[i] == map[]
    requires Monotone(save) && forall i :: save(i, 3) <= now
    ensures AllWritable(ImageOps(orders, save))
    ensures var r := FromBytes(Sealed(OpsCode(ImageOps(orders, save))), target, _ => now);
            && (r.Ok? <==> Fits(orders, 0, save, |target|))
            && (r.Ok? ==>
                  r.value.dbs == seq(|target|, i requires 0 <= i < |target| =>
                                                 if i < |dbs| then LiveAt(dbs[i], now) else map[]))
  {
    hide FromBytes, Sealed, OpsCode, ImageOps, Survives, IteratesDb;
    var load: Clock := _ => now;
    SaveThenLoad(orders, dbs, target, save, load, now, now);
    var r := FromBytes(Sealed(OpsCode(ImageOps(orders, save))), target, load);
    if r.Ok? {
      forall i | 0 <= i < |target|
        ensures r.value.dbs[i] == if i < |dbs| then LiveAt(dbs[i], now) else map[]
      {
        if i < |dbs| {
          SurvivesLive(r.value.dbs[i], dbs[i], save(i, 3), now);
        }
      }
    }
  }

  lemma SurvivesLive(got: Database, db: Database, saved: nat, now: nat)
    requires saved <= now && Survives(got, db, saved, now, now)
    ensures got == LiveAt(db, now)
  {}

  // ---------------------------------------------------------------- corruption

  lemma DifferAt(a: seq<byte>, p: nat, b: byte)
    requires p < |a| && a[p] != b
    ensures a == a[..p] + [a[p]] + a[p + 1..] && a[p := b] == a[..p] + [b] + a[p + 1..]
  {}

  /** One changed byte before the trailer fails the checksum exactly when the stored checksum is not zero. */
  lemma ChangedPayload(records: seq<byte>, p: nat, b: byte, version: nat)
    requires p < |Sealed(records)| - 8 && Sealed(records)[p] != b && version >= 5
    ensures var image := Sealed(records);
            ChecksumPasses(image[p := b], version) <==> Crc64.Checksum(image[..|image| - 8]) == 0
  {
    hide Crc64.Checksum, LE, FromLE;
    var payload := HEADER + records + [OP_EOF];
    var sum := Crc64.Checksum(payload);
    var image := Sealed(records);
    var changed := payload[p := b];
    SplitEnd(payload, LE(sum, 8));
    SplitEnd(changed, LE(sum, 8));
    assert image[p := b] == changed + LE(sum, 8);
    Pow256Values();
    LERoundTrip(sum, 8);
    DifferAt(payload, p, b);
    Crc64.BurstDetected(payload[..p], [payload[p]], [b], payload[p + 1..]);
  }

  /** If an image carries a nonzero checksum, no single changed byte can make it load as anything else:
      the load fails, or gives what the untouched image gives. */
  lemma SingleByteCorruption(ops: seq<Op<Flat>>, p: nat, b: byte, target: seq<Database>, clock: Clock)
    requires AllWritable(ops) && |target| > 0
    requires p < |Sealed(OpsCode(ops))|
    requires Crc64.Checksum(HEADER + OpsCode(ops) + [OP_EOF]) != 0
    ensures var r := FromBytes(Sealed(OpsCode(ops))[p := b], target, clock);
            r.Err? || r == FromBytes(Sealed(OpsCode(ops)), target, clock)
  {
    hide Sealed, OpsCode, FromBytes, Crc64.Checksum;
    var image := Sealed(OpsCode(ops));
    HeaderPasses(OpsCode(ops));
    if b == image[p] {
      assert image[p := b] == image;
    } else if p < |image| - 8 {
      PayloadCorruption(OpsCode(ops), p, b, target, clock);
    } else {
      TrailerCorruption(ops, p, b, target, clock);
    }
  }

  lemma PayloadCorruption(records: seq<byte>, p: nat, b: byte, target: seq<Database>, clock: Clock)
    requires |target| > 0 && p < |Sealed(records)| - 8 && Sealed(records)[p] != b
    requires Crc64.Checksum(HEADER + records + [OP_EOF]) != 0
    ensures var r := FromBytes(Sealed(records)[p := b], target, clock);
            r.Err? || r == FromBytes(Sealed(records), target, clock)
  {
    hide Sealed, Loop, Version, ChecksumPasses, Crc64.Checksum;
    var image := Sealed(records);
    var changed := image[p := b];
    HeaderPasses(records);
    if p < 5 {
      assert changed[..5][p] != MAGIC[p];
    } else {
      SealedPayload(records);
      VersionOfPrefix(image, changed);
      if Version(changed).Some? && Version(changed).value >= 5 {
        ChangedPayload(records, p, b, Version(changed).value);
      } else if p < 9 {
        assert changed[9..] == image[9..];
      }
    }
  }

  lemma TrailerCorruption(ops: seq<Op<Flat>>, p: nat, b: byte, target: seq<Database>, clock: Clock)
    requires AllWritable(ops) && |target| > 0
    requires |Sealed(OpsCode(ops))| - 8 <= p < |Sealed(OpsCode(ops))|
    ensures var r := FromBytes(Sealed(OpsCode(ops))[p := b], target, clock);
            r.Err? || r == FromBytes(Sealed(OpsCode(ops)), target, clock)
  {
    hide Sealed, OpsCode, Loop, Version, ChecksumPasses, Run;
    var image := Sealed(OpsCode(ops));
    var changed := image[p := b];
    HeaderPasses(OpsCode(ops));
    VersionOfPrefix(image, changed);
    LoopIsRun(Start(target), ops, image[|image| - 8..], clock);
    assert changed[9..] == OpsCode(ops) + [OP_EOF] + changed[|image| - 8..];
    LoopIsRun(Start(target), ops, changed[|image| - 8..], clock);
  }

  lemma SealedPayload(records: seq<byte>)
    ensures Sealed(records)[..|Sealed(records)| - 8] == HEADER + records + [OP_EOF]
  {
    hide Crc64.Checksum, LE;
    var payload := HEADER + records + [OP_EOF];
    SplitEnd(payload, LE(Crc64.Checksum(payload), 8));
  }

  lemma VersionOfPrefix(a: seq<byte>, b: seq<byte>)
    requires |a| >= 9 && |b| >= 9
    ensures a[5..9] == b[5..9] ==> Version(a) == Version(b)
  {
    if a[5..9] == b[5..9] {
      assert a[5] == a[5..9][0] == b[5];
      assert a[6..9] == a[5..9][1..] == b[6..9];
    }
  }

  // ------------------------------------ an image that the checksum leaves unchecked

  /** A keyspace of one text that never expires. */
  function OneText(key: seq<byte>, text: seq<byte>): seq<seq<Stored>> {
    [[Stored(key, FText(text), None)]]
  }

  /** Its image up to the eight bytes of the text. */
  function BeforeText(key: seq<byte>): seq<byte> {
    HEADER + (OpsCode(OpeningOps()) + ([STRING] + (StringCode(key) + [8])))
  }

  function OpeningOps(): (ops: seq<Op<Flat>>)
    ensures AllWritable(ops)
  {
    AUX_OPS + [SelectDb(0), ResizeDb(1, 0)]
  }

  lemma OneTextOps(key: seq<byte>, text: seq<byte>, save: SaveClock)
    requires InMemory(key) && InMemory(text)
    ensures WritableKeyspace(OneText(key, text))
    ensures ImageOps(OneText(key, text), save) == OpeningOps() + [Record(key, FText(text))]
  {
    var dbs := OneText(key, text);
    var order := dbs[0];
    forall now: nat
      ensures Live(order, now) == order && Volatile(order, now) == 0
    {
      assert order[1..] == [];
    }
    var record: Op<Flat> := Record(key, FText(text));
    assert DbOps(order) == [record] by {
      assert order[1..] == [];
    }
    assert SectionsOps(dbs, 1, save) == [];
    assert SectionOps(order, 0, save) == [SelectDb(0), ResizeDb(1, 0)] + [record];
  }

  lemma OneTextImage(key: seq<byte>, text: seq<byte>, save: SaveClock)
    requires InMemory(key) && |text| == 8
    ensures WritableKeyspace(OneText(key, text)) && AllWritable(ImageOps(OneText(key, text), save))
    ensures HEADER + OpsCode(ImageOps(OneText(key, text), save)) == BeforeText(key) + text
  {
    hide OpCode, OpsCode, ImageOps, OpeningOps, LengthCode;
    OneTextOps(key, text, save);
    var record: Op<Flat> := Record(key, FText(text));
    OpsCodeConcat(OpeningOps(), [record]);
    OneOp(record);
    assert OpCode(record) == [STRING] + (StringCode(key) + [8]) + text by {
      TextRecord(key, text);
    }
    var opening, head := OpsCode(OpeningOps()), [STRING] + (StringCode(key) + [8]);
    assert HEADER + (opening + (head + text)) == HEADER + (opening + head) + text;
  }

  lemma TextRecord(key: seq<byte>, text: seq<byte>)
    requires InMemory(key) && |text| == 8
    ensures OpCode(Record(key, FText(text))) == [STRING] + (StringCode(key) + [8]) + text
  {
    hide StringCode;
    assert StringCode(text) == [8] + text by {
      ShortString(text);
    }
  }

  lemma ShortString(text: seq<byte>)
    requires |text| == 8
    ensures StringCode(text) == [8] + text
  {}

  /** The image a saver writes of it. */
  function SavedText(key: seq<byte>, text: seq<byte>, save: SaveClock): seq<byte>
    requires InMemory(key) && |text| == 8
  {
    OneTextImage(key, text, save);
    Sealed(OpsCode(ImageOps(OneText(key, text), save)))
  }

  /** The text that makes the checksum of its image zero. */
  function Unlucky(key: seq<byte>): (text: seq<byte>)
    ensures |text| == 8
  {
    Crc64.Filler(BeforeText(key), [OP_EOF], 0)
  }

  function UnluckyImage(key: seq<byte>): seq<byte> {
    BeforeText(key) + Unlucky(key) + [OP_EOF] + LE(0, 8)
  }

  /** A saver writes that image, whose trailer is a true checksum and reads as none. */
  lemma UnluckyIsSaved(key: seq<byte>, save: SaveClock)
    requires InMemory(key)
    ensures UnluckyImage(key) == SavedText(key, Unlucky(key), save)
    ensures Crc64.Checksum(BeforeText(key) + Unlucky(key) + [OP_EOF]) == 0
  {
    hide OpsCode, ImageOps, BeforeText, LE, Crc64.Checksum, Crc64.Filler;
    OneTextImage(key, Unlucky(key), save);
    Crc64.EverySumReached(BeforeText(key), [OP_EOF], 0);
  }

  lemma OneTextLoads(target: seq<Database>, key: seq<byte>, text: seq<byte>, save: SaveClock, load: Clock)
    requires |target| > 0 && InMemory(key) && InMemory(text)
    ensures var r := AfterImage(target, OneText(key, text), save, load);
            r.Ok? && r.value.dbs == target[0 := target[0][key := Entry(Text(text), None)]]
  {
    hide AuxPairs;
    var dbs := OneText(key, text);
    var order := dbs[0];
    forall now: nat
      ensures Live(order, now) == order
    {
      assert order[1..] == [];
    }
    var st := Start(target).(stats := Start(target).stats.(aux := AuxPairs()));
    KeptOne(order[0], load, 0);
    var next := AfterDb(st.(db := 0, pending := None), order, load);
    assert AfterSections(st, dbs, 0, save, load) == AfterSections(next, dbs, 1, save, load) == Ok(next);
  }

  /** With a zero trailer nothing is compared: the records are loaded as they stand. */
  lemma ZeroTrailerLoads(records: seq<byte>, target: seq<Database>, load: Clock)
    requires |target| > 0
    ensures FromBytes(HEADER + records + [OP_EOF] + LE(0, 8), target, load)
            == Loop(Start(target), records + [OP_EOF] + LE(0, 8), load)
  {
    hide Loop, LE, FromLE, Crc64.Checksum, Version;
    var payload := HEADER + records + [OP_EOF];
    SplitEnd(payload, LE(0, 8));
    Pow256Values();
    LERoundTrip(0, 8);
    AfterHeader(HEADER, records, [OP_EOF], LE(0, 8));
    HeaderOf(records + [OP_EOF] + LE(0, 8));
  }

  /** Where the first byte of the text stands in that image. */
  function TextAt(key: seq<byte>): (p: nat)
    ensures p < |UnluckyImage(key)|
  {
    |BeforeText(key)|
  }

  /** The load left `target` with `text` under `key`, and succeeded. */
  ghost predicate GotText(r: Result<LoadState>, target: seq<Database>, key: seq<byte>, text: seq<byte>)
    requires |target| > 0
  {
    r.Ok? && r.value.dbs == target[0 := target[0][key := Entry(Text(text), None)]]
  }

  /** A saved image whose checksum comes out as zero: whatever the first byte of its text is changed to is
      loaded unnoticed. */
  lemma UncheckedChange(key: seq<byte>, b: byte, save: SaveClock, target: seq<Database>, load: Clock)
    requires InMemory(key) && |target| > 0
    ensures UnluckyImage(key) == SavedText(key, Unlucky(key), save)
    ensures GotText(FromBytes(UnluckyImage(key)[TextAt(key) := b], target, load), target, key, Unlucky(key)[0 := b])
  {
    hide OpsCode, ImageOps, Sealed, BeforeText, Unlucky, LE, Crc64.Checksum, FromBytes, Loop, Run, AfterImage, SavedText;
    UnluckyIsSaved(key, save);
    var pre, changed := BeforeText(key), Unlucky(key)[0 := b];
    assert UnluckyImage(key)[|pre| := b] == pre + changed + [OP_EOF] + LE(0, 8);
    OneTextImage(key, changed, save);
    ZeroTrailerLoads(OpsCode(ImageOps(OneText(key, changed), save)), target, load);
    ImageLoop(OneText(key, changed), target, save, load, LE(0, 8));
    OneTextLoads(target, key, changed, save, load);
  }
}
