/** Blocking pops and reads: writers, the wake-up they owe, and clients that check, register, retry and park. */
module Blocking {
  import opened Bytes
  import opened Values
  import ZSets
  import StreamLog

  type Key = seq<byte>
  type Pair = ZSets.Pair

  /** A sorted set is its ordered index, a stream its entries; other types only matter for being wrong. */
  datatype Kind = Sorted(items: seq<Pair>) | Entries(entries: seq<StreamLog.LogEntry>) | Other

  type Db = map<Key, Kind>

  datatype Request =
    | PopOne(keys: seq<Key>, min: bool)
    | ReadNew(wants: seq<(Key, StreamId)>, count: Option<nat>)

  datatype Reply =
    | Popped(key: Key, pair: Pair)
    | News(found: seq<(Key, seq<StreamLog.LogEntry>)>)
    | WrongType
    | TimedOut

  ghost predicate WellFormed(db: Db) {
    forall k :: k in db && db[k].Sorted? ==> ZSets.Ordered(db[k].items)
  }

  // ------------------------------------------------------------- one attempt

  function Taken(db: Db, key: Key, rest: seq<Pair>): Db {
    if rest == [] then db - {key} else db[key := Sorted(rest)]
  }

  /** The first key with data gives its least or greatest member; a key of another type is an error. */
  function PopTry(db: Db, keys: seq<Key>, min: bool): (Option<Reply>, Db) {
    if keys == [] then (None, db)
    else if keys[0] !in db then PopTry(db, keys[1..], min)
    else match db[keys[0]]
      case Sorted(items) =>
        if items == [] then PopTry(db, keys[1..], min)
        else if min then (Some(Popped(keys[0], items[0])), Taken(db, keys[0], items[1..]))
        else (Some(Popped(keys[0], items[|items| - 1])), Taken(db, keys[0], items[..|items| - 1]))
      case _ => (Some(WrongType), db)
  }

  /** What each stream holds above the id given for it; `None` when a key is of another type. */
  function Collect(db: Db, wants: seq<(Key, StreamId)>, count: Option<nat>)
    : Option<seq<(Key, seq<StreamLog.LogEntry>)>>
  {
    if wants == [] then Some([])
    else
      var last := wants[|wants| - 1];
      match Collect(db, wants[..|wants| - 1], count)
      case None => None
      case Some(found) =>
        if last.0 !in db then Some(found)
        else if !db[last.0].Entries? then None
        else
          var items := StreamLog.ReadAfter(db[last.0].entries, last.1, count);
          Some(if items == [] then found else found + [(last.0, items)])
  }

  function Try(db: Db, req: Request): (Option<Reply>, Db) {
    match req
    case PopOne(keys, min) => PopTry(db, keys, min)
    case ReadNew(wants, count) =>
      match Collect(db, wants, count)
      case None => (Some(WrongType), db)
      case Some(found) => (if found == [] then None else Some(News(found)), db)
  }

  class Keyspace {
    var db: Db

    constructor ()
      ensures db == map[]
    {
      db := map[];
    }

    method BzpopTry(keys: seq<Key>, min: bool) returns (r: Option<Reply>)
      modifies this
      ensures (r, db) == PopTry(old(db), keys, min)
      ensures AnswersFirst(old(db), keys, min, r, db)
    {
      hide AnswersFirst;
      PopsFirst(db, keys, min);
      for i := 0 to |keys|
        invariant db == old(db) && PopTry(db, keys, min) == PopTry(db, keys[i..], min)
      {
        var key := keys[i];
        assert keys[i..][0] == key && keys[i..][1..] == keys[i + 1..];
        if key in db {
          if !db[key].Sorted? {
            return Some(WrongType);
          }
          var items := db[key].items;
          if items != [] {
            var at := if min then 0 else |items| - 1;
            var rest := items[..at] + items[at + 1..];
            assert rest == if min then items[1..] else items[..|items| - 1];
            db := if rest == [] then db - {key} else db[key := Sorted(rest)];
            return Some(Popped(key, items[at]));
          }
        }
      }
      return None;
    }

    method XRead(wants: seq<(Key, StreamId)>, count: Option<nat>) returns (r: Option<Reply>)
      ensures (r, db) == Try(db, ReadNew(wants, count))
    {
      var pairs: seq<(Key, seq<StreamLog.LogEntry>)> := [];
      assert wants[..0] == [];
      for i := 0 to |wants|
        invariant Collect(db, wants[..i], count) == Some(pairs)
      {
        assert wants[..i + 1][..i] == wants[..i];
        var (key, from) := wants[i];
        if key in db {
          if !db[key].Entries? {
            CollectWrong(db, wants, count, i);
            return Some(WrongType);
          }
          var items := StreamLog.ReadAfter(db[key].entries, from, count);
          if items != [] {
            pairs := pairs + [(key, items)];
          }
        }
      }
      assert wants[..|wants|] == wants;
      return if pairs == [] then None else Some(News(pairs));
    }
  }

  lemma {:induction false} CollectWrong(db: Db, wants: seq<(Key, StreamId)>, count: Option<nat>, i: nat)
    requires i < |wants| && wants[i].0 in db && !db[wants[i].0].Entries?
    ensures Collect(db, wants, count).None?
  {
    if i < |wants| - 1 {
      CollectWrong(db, wants[..|wants| - 1], count, i);
    }
  }

  // ------------------------------------------------------------- having data

  ghost predicate Ready(db: Db, req: Request) {
    Try(db, req).0.Some?
  }

  /** A key that would end the wait: it holds something wanted, or is of the wrong type. */
  predicate PopReady(db: Db, key: Key) {
    key in db && (db[key].Sorted? ==> db[key].items != [])
  }

  predicate ReadReady(db: Db, want: (Key, StreamId), count: Option<nat>) {
    want.0 in db && (db[want.0].Entries? ==> StreamLog.ReadAfter(db[want.0].entries, want.1, count) != [])
  }

  lemma {:induction false} PopReadyExactly(db: Db, keys: seq<Key>, min: bool)
    ensures PopTry(db, keys, min).0.Some? <==> exists i :: 0 <= i < |keys| && PopReady(db, keys[i])
  {
    if keys != [] {
      PopReadyExactly(db, keys[1..], min);
      if !PopReady(db, keys[0]) {
        forall i | 0 <= i < |keys| && PopReady(db, keys[i])
          ensures PopReady(db, keys[1..][i - 1])
        {}
        if exists i :: 0 <= i < |keys[1..]| && PopReady(db, keys[1..][i]) {
          var i :| 0 <= i < |keys[1..]| && PopReady(db, keys[1..][i]);
          assert PopReady(db, keys[i + 1]);
        }
      }
    }
  }

  /** `key` is the first of the keys that has something: data, or a value of another type. */
  predicate FirstReady(db: Db, keys: seq<Key>, key: Key) {
    exists i :: 0 <= i < |keys| && keys[i] == key && PopReady(db, key) && forall j :: 0 <= j < i ==> !PopReady(db, keys[j])
  }

  /** The least member of the set with `min`, the greatest without. */
  ghost predicate AtEnd(items: seq<Pair>, pair: Pair, min: bool) {
    pair in items && forall q :: q in items && q != pair ==> if min then ZSets.Before(pair, q) else ZSets.Before(q, pair)
  }

  /** What an attempt to pop promises: the end member of the first key with data and nothing else is taken, and a
      key left empty goes; a key of another type in front is an error; with no key ready nothing happens. */
  ghost predicate AnswersFirst(db: Db, keys: seq<Key>, min: bool, r: Option<Reply>, after: Db) {
    match r
    case None => after == db && forall i :: 0 <= i < |keys| ==> !PopReady(db, keys[i])
    case Some(WrongType) => after == db && exists key :: FirstReady(db, keys, key) && !db[key].Sorted?
    case Some(Popped(key, pair)) =>
      && FirstReady(db, keys, key) && db[key].Sorted?
      && (ZSets.Ordered(db[key].items) ==> AtEnd(db[key].items, pair, min))
      && Without(db, key, pair, after)
    case _ => false
  }

  ghost predicate Without(db: Db, key: Key, pair: Pair, after: Db)
    requires key in db && db[key].Sorted?
  {
    && (forall k :: k != key ==> (k in after <==> k in db) && (k in db ==> after[k] == db[k]))
    && (key in after <==> |db[key].items| > 1)
    && (key in after ==> after[key].Sorted?
                         && multiset(after[key].items) == multiset(db[key].items) - multiset{pair})
  }

  lemma {:induction false} PopsFirst(db: Db, keys: seq<Key>, min: bool)
    ensures AnswersFirst(db, keys, min, PopTry(db, keys, min).0, PopTry(db, keys, min).1)
  {
    hide AtEnd, Without, ZSets.Ordered;
    if keys != [] {
      var key := keys[0];
      if PopReady(db, key) {
        assert FirstReady(db, keys, key);
        if db[key].Sorted? {
          EndIsTaken(db, key, min);
        }
      } else {
        hide PopReady;
        PopsFirst(db, keys[1..], min);
        FirstOfRest(db, keys);
      }
    }
  }

  /** A key that is not ready changes nothing about which is the first that is. */
  lemma FirstOfRest(db: Db, keys: seq<Key>)
    requires keys != [] && !PopReady(db, keys[0])
    ensures forall k :: FirstReady(db, keys[1..], k) ==> FirstReady(db, keys, k)
    ensures (forall i :: 0 <= i < |keys[1..]| ==> !PopReady(db, keys[1..][i])) ==>
              forall i :: 0 <= i < |keys| ==> !PopReady(db, keys[i])
  {
    hide PopReady;
    forall k | FirstReady(db, keys[1..], k)
      ensures FirstReady(db, keys, k)
    {
      var i :| 0 <= i < |keys[1..]| && keys[1..][i] == k && PopReady(db, k)
               && forall j :: 0 <= j < i ==> !PopReady(db, keys[1..][j]);
      assert keys[i + 1] == k && forall j :: 1 <= j < i + 1 ==> keys[j] == keys[1..][j - 1];
    }
    assert forall i :: 1 <= i < |keys| ==> keys[i] == keys[1..][i - 1];
  }

  lemma EndIsTaken(db: Db, key: Key, min: bool)
    requires key in db && db[key].Sorted? && db[key].items != []
    ensures var items := db[key].items;
            var pair := if min then items[0] else items[|items| - 1];
            var rest := if min then items[1..] else items[..|items| - 1];
            (ZSets.Ordered(items) ==> AtEnd(items, pair, min)) && Without(db, key, pair, Taken(db, key, rest))
  {
    hide AtEnd, ZSets.Ordered, Taken;
    var items := db[key].items;
    TakenLeaves(db, key, if min then items[1..] else items[..|items| - 1]);
    if ZSets.Ordered(items) {
      EndOfOrder(items, min);
    }
    EndCutOff(items, min);
  }

  lemma TakenLeaves(db: Db, key: Key, rest: seq<Pair>)
    ensures var after := Taken(db, key, rest);
            && (forall k :: k != key ==> (k in after <==> k in db) && (k in db ==> after[k] == db[k]))
            && (key in after <==> rest != []) && (key in after ==> after[key] == Sorted(rest))
  {}

  lemma EndCutOff<T>(items: seq<T>, first: bool)
    requires items != []
    ensures var x := if first then items[0] else items[|items| - 1];
            var rest := if first then items[1..] else items[..|items| - 1];
            multiset(rest) == multiset(items) - multiset{x}
  {
    if first {
      assert items == [items[0]] + items[1..];
    } else {
      assert items == items[..|items| - 1] + [items[|items| - 1]];
    }
  }

  lemma EndOfOrder(items: seq<Pair>, min: bool)
    requires ZSets.Ordered(items) && items != []
    ensures AtEnd(items, if min then items[0] else items[|items| - 1], min)
  {
    hide ZSets.Before;
  }

  lemma {:induction false} CollectExactly(db: Db, wants: seq<(Key, StreamId)>, count: Option<nat>)
    ensures Collect(db, wants, count) != Some([]) <==> exists i :: 0 <= i < |wants| && ReadReady(db, wants[i], count)
  {
    if wants != [] {
      var most, last := wants[..|wants| - 1], wants[|wants| - 1];
      CollectExactly(db, most, count);
      if exists i :: 0 <= i < |most| && ReadReady(db, most[i], count) {
        var i :| 0 <= i < |most| && ReadReady(db, most[i], count);
        assert ReadReady(db, wants[i], count);
      } else {
        assert forall i :: 0 <= i < |most| ==> wants[i] == most[i];
        assert forall i :: 0 <= i < |wants| && ReadReady(db, wants[i], count) ==> i == |wants| - 1;
      }
    }
  }

  /** A read answers for its streams one after another, in the order asked for. */
  lemma {:induction false} CollectInOrder(db: Db, a: seq<(Key, StreamId)>, b: seq<(Key, StreamId)>, count: Option<nat>)
    ensures var x, y := Collect(db, a, count), Collect(db, b, count);
            Collect(db, a + b, count) == if x.None? || y.None? then None else Some(x.value + y.value)
    decreases b
  {
    if b == [] {
      assert a + b == a;
      assert Collect(db, a, count).Some? ==> Collect(db, a, count).value + [] == Collect(db, a, count).value;
    } else {
      assert (a + b)[..|a + b| - 1] == a + b[..|b| - 1];
      CollectInOrder(db, a, b[..|b| - 1], count);
      var x, y, last := Collect(db, a, count), Collect(db, b[..|b| - 1], count), b[|b| - 1];
      if x.Some? && y.Some? && last.0 in db && db[last.0].Entries? {
        var more := [(last.0, StreamLog.ReadAfter(db[last.0].entries, last.1, count))];
        assert (x.value + y.value) + more == x.value + (y.value + more);
      }
    }
  }

  /** For one stream: nothing when it is not there or has no news, an error when it is no stream, else its entries
      above the id, as many as the count allows. */
  lemma CollectOne(db: Db, key: Key, from: StreamId, count: Option<nat>)
    ensures var r := Collect(db, [(key, from)], count);
            && (r.None? <==> key in db && !db[key].Entries?)
            && (r.Some? ==> |r.value| <= 1)
            && (r.Some? && r.value == [] ==>
                  key !in db || (db[key].Entries? && StreamLog.ReadAfter(db[key].entries, from, count) == []))
            && (r.Some? && r.value != [] ==>
                  key in db && db[key].Entries?
                  && r.value[0] == (key, StreamLog.ReadAfter(db[key].entries, from, count)) && r.value[0].1 != [])
  {
    assert [(key, from)][..0] == [];
  }

  /** A request is ready exactly when one of its keys is. */
  predicate SomeKeyReady(db: Db, req: Request) {
    match req
    case PopOne(keys, _) => exists i :: 0 <= i < |keys| && PopReady(db, keys[i])
    case ReadNew(wants, count) => exists i :: 0 <= i < |wants| && ReadReady(db, wants[i], count)
  }

  lemma ReadyExactly(db: Db, req: Request)
    ensures Ready(db, req) <==> SomeKeyReady(db, req)
  {
    match req {
      case PopOne(keys, min) => PopReadyExactly(db, keys, min);
      case ReadNew(wants, count) => CollectExactly(db, wants, count);
    }
  }

  /** `after` has what `before` has, or less: keys may be gone and sorted sets shorter. */
  ghost predicate Fewer(after: Db, before: Db) {
    forall k :: k in after ==>
      k in before && (after[k] == before[k] || (after[k].Sorted? && before[k].Sorted? && before[k].items != []))
  }

  /** Taking things away gives nobody data. */
  lemma FewerUnreadies(after: Db, before: Db, req: Request)
    requires Fewer(after, before) && Ready(after, req)
    ensures Ready(before, req)
  {
    hide Ready;
    ReadyExactly(after, req);
    ReadyExactly(before, req);
    match req {
      case PopOne(keys, _) =>
        var i :| 0 <= i < |keys| && PopReady(after, keys[i]);
        assert PopReady(before, keys[i]);
      case ReadNew(wants, count) =>
        var i :| 0 <= i < |wants| && ReadReady(after, wants[i], count);
        assert ReadReady(before, wants[i], count);
    }
  }

  lemma {:induction false} PopTakesAway(db: Db, keys: seq<Key>, min: bool)
    ensures Fewer(PopTry(db, keys, min).1, db)
    ensures PopTry(db, keys, min).0.None? ==> PopTry(db, keys, min).1 == db
  {
    if keys != [] {
      PopTakesAway(db, keys[1..], min);
    }
  }

  // -------------------------------------------------------------- accounting

  /** A member of a sorted set, with its key. */
  type Stored = (Key, Pair)

  predicate Holds(db: Db, x: Stored) {
    x.0 in db && db[x.0].Sorted? && x.1 in db[x.0].items
  }

  ghost function Contents(db: Db): set<Stored> {
    set k, p | k in db && db[k].Sorted? && p in db[k].items :: (k, p)
  }

  function Here(db: Db, x: Stored): nat {
    if Holds(db, x) then 1 else 0
  }

  /** How often a reply hands `x` out. */
  function Given(r: Option<Reply>, x: Stored): nat {
    if r == Some(Popped(x.0, x.1)) then 1 else 0
  }

  /** What an attempt takes out of the store is what its reply carries, once. */
  lemma {:induction false} PopAccounts(db: Db, keys: seq<Key>, min: bool, x: Stored)
    requires WellFormed(db)
    ensures var (r, after) := PopTry(db, keys, min);
            WellFormed(after) && Here(db, x) == Here(after, x) + Given(r, x)
  {
    hide ZSets.Ordered;
    if keys != [] {
      if keys[0] in db && db[keys[0]].Sorted? && db[keys[0]].items != [] {
        var items := db[keys[0]].items;
        var at := if min then 0 else |items| - 1;
        TakeAccounts(db, keys[0], at, x);
        assert items[..at] + items[at + 1..] == if min then items[1..] else items[..|items| - 1];
      } else {
        PopAccounts(db, keys[1..], min, x);
      }
    }
  }

  lemma TakeAccounts(db: Db, key: Key, at: nat, x: Stored)
    requires WellFormed(db) && key in db && db[key].Sorted? && at < |db[key].items|
    ensures var items := db[key].items;
            var after := Taken(db, key, items[..at] + items[at + 1..]);
            WellFormed(after) && Here(db, x) == Here(after, x) + if x == (key, items[at]) then 1 else 0
  {
    hide ZSets.Ordered;
    RestOf(db[key].items, at);
  }

  lemma RestOf(items: seq<Pair>, at: nat)
    requires ZSets.Ordered(items) && at < |items|
    ensures var rest := items[..at] + items[at + 1..];
            ZSets.Ordered(rest) && forall p :: p in rest <==> p in items && p != items[at]
  {
    hide ZSets.Before;
    var rest := items[..at] + items[at + 1..];
    forall p | p in items && p != items[at]
      ensures p in rest
    {
      var i :| 0 <= i < |items| && items[i] == p;
      assert rest[if i < at then i else i - 1] == p;
    }
    forall p | p in rest
      ensures p in items && p != items[at]
    {
      var i :| 0 <= i < |rest| && rest[i] == p;
      var j := if i < at then i else i + 1;
      assert items[j] == p;
      ZSets.BeforeTotal(p, p);
      assert j < at ==> ZSets.Before(items[j], items[at]);
      assert j > at ==> ZSets.Before(items[at], items[j]);
    }
  }

  lemma TryTakesAway(db: Db, req: Request)
    requires WellFormed(db)
    ensures var (r, after) := Try(db, req);
            WellFormed(after) && Fewer(after, db) && (r.None? ==> after == db)
  {
    hide ZSets.Ordered;
    if req.PopOne? {
      PopAccounts(db, req.keys, req.min, ([], (0, [])));
      PopTakesAway(db, req.keys, req.min);
    }
  }

  lemma TryAccounts(db: Db, req: Request, x: Stored)
    requires WellFormed(db)
    ensures Here(db, x) == Here(Try(db, req).1, x) + Given(Try(db, req).0, x)
  {
    hide ZSets.Ordered;
    if req.PopOne? {
      PopAccounts(db, req.keys, req.min, x);
    }
  }

  // --------------------------------------------------------- clients and steps

  /** Where a connection is. `Owes` has written and let go of the lock but not yet notified; the others
      are the stages of the wait loop, `woken` set once a notification reaches the registered future. */
  datatype Pc =
    | Free
    | Owes
    | Checking(req: Request, deadline: Option<nat>)
    | Registering(req: Request, deadline: Option<nat>)
    | Retrying(req: Request, deadline: Option<nat>, woken: bool)
    | Parked(req: Request, deadline: Option<nat>, woken: bool)

  datatype Sys = Sys(db: Db, pcs: map<nat, Pc>, replies: seq<(nat, Reply)>,
                     added: multiset<Stored>, dropped: multiset<Stored>)

  datatype Step =
    | Write(c: nat, after: Db)
    | Notify(c: nat)
    | Block(c: nat, req: Request, deadline: Option<nat>)
    | Check(c: nat, now: nat)
    | Register(c: nat)
    | Retry(c: nat)
    | Wake(c: nat)
    | TimeOut(c: nat)
    | Expire(keys: set<Key>)

  function PcOf(st: Sys, c: nat): Pc {
    if c in st.pcs then st.pcs[c] else Free
  }

  ghost predicate Enabled(st: Sys, step: Step) {
    match step
    case Write(c, after) => PcOf(st, c).Free? && WellFormed(after)
    case Notify(_) => true
    case Block(c, _, _) => PcOf(st, c).Free?
    case Check(c, _) => PcOf(st, c).Checking?
    case Register(c) => PcOf(st, c).Registering?
    case Retry(c) => PcOf(st, c).Retrying?
    case Wake(c) => PcOf(st, c).Parked? && PcOf(st, c).woken
    case TimeOut(c) => PcOf(st, c).Parked? && PcOf(st, c).deadline.Some?
    case Expire(_) => true
  }

  /** `notify_waiters` reaches every future registered before the call. */
  function Woken(pc: Pc): Pc {
    match pc
    case Retrying(req, deadline, _) => Retrying(req, deadline, true)
    case Parked(req, deadline, _) => Parked(req, deadline, true)
    case _ => pc
  }

  /** The store becomes `after`, and the books say what came in and what went. */
  ghost function Changed(st: Sys, after: Db): Sys {
    Sys(after, st.pcs, st.replies, st.added + multiset(Contents(after) - Contents(st.db)),
        st.dropped + multiset(Contents(st.db) - Contents(after)))
  }

  function Answered(st: Sys, c: nat, r: Reply): Sys {
    st.(pcs := st.pcs[c := Free], replies := st.replies + [(c, r)])
  }

  /** An attempt under the lock: answer at once, or go on as `waiting`. */
  function Attempt(st: Sys, c: nat, req: Request, waiting: Pc): Sys {
    var (r, after) := Try(st.db, req);
    match r
    case Some(reply) => Answered(st.(db := after), c, reply)
    case None => st.(db := after, pcs := st.pcs[c := waiting])
  }

  ghost function Next(st: Sys, step: Step): Sys {
    if !Enabled(st, step) then st
    else match step
      case Write(c, after) => var next := Changed(st, after); next.(pcs := st.pcs[c := Owes])
      case Notify(c) =>
        var pcs := map k | k in st.pcs :: Woken(st.pcs[k]);
        st.(pcs := if PcOf(st, c).Owes? then pcs[c := Free] else pcs)
      case Block(c, req, deadline) => Attempt(st, c, req, Checking(req, deadline))
      case Check(c, now) =>
        var pc := PcOf(st, c);
        if pc.deadline.Some? && now >= pc.deadline.value then Answered(st, c, TimedOut)
        else st.(pcs := st.pcs[c := Registering(pc.req, pc.deadline)])
      case Register(c) => st.(pcs := st.pcs[c := Retrying(PcOf(st, c).req, PcOf(st, c).deadline, false)])
      case Retry(c) =>
        var pc := PcOf(st, c);
        Attempt(st, c, pc.req, Parked(pc.req, pc.deadline, pc.woken))
      case Wake(c) => st.(pcs := st.pcs[c := Checking(PcOf(st, c).req, PcOf(st, c).deadline)])
      case TimeOut(c) => Answered(st, c, TimedOut)
      case Expire(keys) => Changed(st, st.db - keys)
  }

  ghost function NextAll(st: Sys, steps: seq<Step>): Sys {
    if steps == [] then st else Next(NextAll(st, steps[..|steps| - 1]), steps[|steps| - 1])
  }

  // --------------------------------------------------------------- invariants

  /** A parked client that nobody has woken has no data, unless a writer is still about to notify. */
  ghost predicate NoLostWake(st: Sys) {
    forall c :: PcOf(st, c).Parked? && !PcOf(st, c).woken && Ready(st.db, PcOf(st, c).req)
      ==> exists w :: PcOf(st, w).Owes?
  }

  function Delivered(replies: seq<(nat, Reply)>, x: Stored): nat {
    if replies == [] then 0
    else Delivered(replies[..|replies| - 1], x) + Given(Some(replies[|replies| - 1].1), x)
  }

  /** For every member: as often as it was there or came in, it is there, was handed out or was removed. */
  ghost predicate Conserved(start: Db, st: Sys) {
    forall x: Stored :: Balanced(start, st, x)
  }

  predicate Balanced(start: Db, st: Sys, x: Stored) {
    Here(start, x) + st.added[x] == Here(st.db, x) + Delivered(st.replies, x) + st.dropped[x]
  }

  lemma ChangedBalances(start: Db, st: Sys, after: Db, x: Stored)
    requires Balanced(start, st, x)
    ensures Balanced(start, Changed(st, after), x)
  {
    hide Delivered;
    var came, went := Contents(after) - Contents(st.db), Contents(st.db) - Contents(after);
    assert x in Contents(after) <==> Holds(after, x);
    assert x in Contents(st.db) <==> Holds(st.db, x);
    assert multiset(came)[x] == (if x in came then 1 else 0) && multiset(went)[x] == (if x in went then 1 else 0);
  }

  lemma AttemptStore(st: Sys, c: nat, req: Request, waiting: Pc)
    ensures Attempt(st, c, req, waiting).db == Try(st.db, req).1
  {}

  lemma AttemptBalances(start: Db, st: Sys, c: nat, req: Request, waiting: Pc, x: Stored)
    requires WellFormed(st.db) && Balanced(start, st, x)
    ensures Balanced(start, Attempt(st, c, req, waiting), x)
  {
    hide Try, WellFormed, Here;
    TryAccounts(st.db, req, x);
    var r, next := Try(st.db, req).0, Attempt(st, c, req, waiting);
    if r.Some? {
      assert next.replies[..|next.replies| - 1] == st.replies;
    }
  }

  lemma AttemptWakes(st: Sys, c: nat, req: Request, waiting: Pc)
    requires WellFormed(st.db) && NoLostWake(st) && !PcOf(st, c).Owes?
    requires waiting.Parked? || waiting.Checking?
    requires waiting.Parked? ==> waiting.req == req
    ensures NoLostWake(Attempt(st, c, req, waiting))
  {
    hide Fewer, Try, WellFormed;
    TryTakesAway(st.db, req);
    var next := Attempt(st, c, req, waiting);
    forall o | PcOf(next, o).Parked? && !PcOf(next, o).woken && Ready(next.db, PcOf(next, o).req)
      ensures exists w :: PcOf(next, w).Owes?
    {
      assert o != c;
      FewerUnreadies(next.db, st.db, PcOf(st, o).req);
      var w :| PcOf(st, w).Owes?;
      assert PcOf(next, w).Owes?;
    }
  }

  /** Every step keeps the books. */
  lemma StepBalances(start: Db, st: Sys, step: Step, x: Stored)
    requires WellFormed(st.db) && Balanced(start, st, x)
    ensures Balanced(start, Next(st, step), x)
  {
    hide Contents, Try, Attempt, Answered, WellFormed, Here;
    var next := Next(st, step);
    if Enabled(st, step) {
      match step {
        case Write(c, after) => ChangedBalances(start, st, after, x);
        case Block(c, req, deadline) => AttemptBalances(start, st, c, req, Checking(req, deadline), x);
        case Retry(c) =>
          var pc := PcOf(st, c);
          AttemptBalances(start, st, c, pc.req, Parked(pc.req, pc.deadline, pc.woken), x);
        case Expire(keys) => ChangedBalances(start, st, st.db - keys, x);
        case _ => TimedOutBalances(start, st, step.c, x);
      }
    }
  }

  /** Every step leaves no parked client with data that nobody will tell it of. */
  lemma StepWakes(st: Sys, step: Step)
    requires WellFormed(st.db) && NoLostWake(st)
    ensures WellFormed(Next(st, step).db) && NoLostWake(Next(st, step))
  {
    hide Contents, Ready, Try, Attempt, Answered;
    var next := Next(st, step);
    if Enabled(st, step) {
      match step {
        case Write(c, after) => assert PcOf(next, c).Owes?;
        case Notify(_) =>
        case Block(c, req, deadline) =>
          TryTakesAway(st.db, req);
          AttemptStore(st, c, req, Checking(req, deadline));
          AttemptWakes(st, c, req, Checking(req, deadline));
        case Retry(c) =>
          var pc := PcOf(st, c);
          TryTakesAway(st.db, pc.req);
          AttemptStore(st, c, pc.req, Parked(pc.req, pc.deadline, pc.woken));
          AttemptWakes(st, c, pc.req, Parked(pc.req, pc.deadline, pc.woken));
        case Expire(keys) => ExpireKeeps(st, keys);
        case _ =>
          AnsweredMoves(st, step.c, TimedOut);
          MovedKeepsWake(st, step.c, next);
      }
    }
  }

  lemma ExpireKeeps(st: Sys, keys: set<Key>)
    requires NoLostWake(st) && WellFormed(st.db)
    ensures NoLostWake(Changed(st, st.db - keys)) && WellFormed(st.db - keys)
  {
    hide Ready;
    var next := Changed(st, st.db - keys);
    forall o | PcOf(next, o).Parked? && !PcOf(next, o).woken && Ready(next.db, PcOf(next, o).req)
      ensures exists w :: PcOf(next, w).Owes?
    {
      FewerUnreadies(next.db, st.db, PcOf(st, o).req);
      var w :| PcOf(st, w).Owes?;
      assert PcOf(next, w).Owes?;
    }
  }

  lemma TimedOutBalances(start: Db, st: Sys, c: nat, x: Stored)
    requires Balanced(start, st, x)
    ensures Balanced(start, Answered(st, c, TimedOut), x)
  {
    hide Here;
    var next := Answered(st, c, TimedOut);
    assert next.replies[..|next.replies| - 1] == st.replies;
  }

  lemma AnsweredMoves(st: Sys, c: nat, r: Reply)
    ensures Answered(st, c, r).db == st.db && Answered(st, c, r).pcs == st.pcs[c := Free]
  {}

  lemma MovedKeepsWake(st: Sys, c: nat, next: Sys)
    requires NoLostWake(st) && next.db == st.db && c in next.pcs && next.pcs == st.pcs[c := next.pcs[c]]
    requires !PcOf(st, c).Owes? && !next.pcs[c].Parked?
    ensures NoLostWake(next)
  {
    hide Ready;
    forall o | PcOf(next, o).Parked? && !PcOf(next, o).woken && Ready(next.db, PcOf(next, o).req)
      ensures exists w :: PcOf(next, w).Owes?
    {
      assert PcOf(next, o) == PcOf(st, o);
      var w :| PcOf(st, w).Owes?;
      assert PcOf(next, w).Owes?;
    }
  }

  function Begin(db: Db): Sys {
    Sys(db, map[], [], multiset{}, multiset{})
  }

  /** In every interleaving of writers, expiry and blocked clients, no wake-up is lost, and every member
      ever stored is still there, was removed, or was handed out in exactly one reply: a timeout loses none. */
  lemma {:induction false} NothingLost(db: Db, steps: seq<Step>)
    requires WellFormed(db)
    ensures var end := NextAll(Begin(db), steps);
            WellFormed(end.db) && NoLostWake(end) && Conserved(db, end)
  {
    hide NoLostWake, Conserved, WellFormed, Next;
    if steps == [] {
      BeginHolds(db);
    } else {
      NothingLost(db, steps[..|steps| - 1]);
      var st := NextAll(Begin(db), steps[..|steps| - 1]);
      ConservedStep(db, st, steps[|steps| - 1]);
      StepWakes(st, steps[|steps| - 1]);
    }
  }

  lemma ConservedStep(start: Db, st: Sys, step: Step)
    requires WellFormed(st.db) && Conserved(start, st)
    ensures Conserved(start, Next(st, step))
  {
    hide Next, Balanced, WellFormed;
    forall x: Stored
      ensures Balanced(start, Next(st, step), x)
    {
      StepBalances(start, st, step, x);
    }
  }

  lemma BeginHolds(db: Db)
    ensures NoLostWake(Begin(db)) && Conserved(db, Begin(db))
  {}

  /** With no notification in flight, whoever is parked and unwoken really has nothing to read or pop. */
  lemma ParkedMeansEmpty(db: Db, steps: seq<Step>, c: nat)
    requires WellFormed(db)
    requires var end := NextAll(Begin(db), steps);
             PcOf(end, c).Parked? && !PcOf(end, c).woken && forall w :: !PcOf(end, w).Owes?
    ensures !SomeKeyReady(NextAll(Begin(db), steps).db, PcOf(NextAll(Begin(db), steps), c).req)
  {
    NothingLost(db, steps);
    var end := NextAll(Begin(db), steps);
    ReadyExactly(end.db, PcOf(end, c).req);
  }

  // ----------------------------------------------------------------- progress

  /** Steps that are not the client's own; a notification may come from anywhere. */
  predicate NotBy(c: nat, steps: seq<Step>) {
    forall k :: 0 <= k < |steps| ==> steps[k].Expire? || steps[k].Notify? || steps[k].c != c
  }

  predicate Notifies(steps: seq<Step>) {
    exists k :: 0 <= k < |steps| && steps[k].Notify?
  }

  lemma OthersStep(st: Sys, step: Step, c: nat)
    requires !PcOf(st, c).Owes? && NotBy(c, [step])
    ensures PcOf(Next(st, step), c) == if step.Notify? then Woken(PcOf(st, c)) else PcOf(st, c)
  {
    hide Try, Contents, WellFormed;
    assert [step][0] == step;
  }

  /** Whatever the others do, a waiting client stays where it is, and a notification is not forgotten. */
  lemma {:induction false} OthersSteps(st: Sys, steps: seq<Step>, c: nat)
    requires !PcOf(st, c).Owes? && NotBy(c, steps)
    ensures PcOf(NextAll(st, steps), c) == if Notifies(steps) then Woken(PcOf(st, c)) else PcOf(st, c)
  {
    hide Next;
    if steps != [] {
      var most, last := steps[..|steps| - 1], steps[|steps| - 1];
      OthersSteps(st, most, c);
      OthersStep(NextAll(st, most), last, c);
      assert Notifies(steps) <==> Notifies(most) || last.Notify? by {
        assert forall k :: 0 <= k < |most| ==> most[k] == steps[k];
        assert steps[|most|] == last;
      }
    }
  }

  /** The client's own four steps round the loop, each after any number of steps of the others. */
  datatype Round = Round(toWake: seq<Step>, toCheck: seq<Step>, now: nat, toRegister: seq<Step>, toRetry: seq<Step>)

  ghost function AtRetry(st: Sys, c: nat, r: Round): Sys {
    var woken := Next(NextAll(st, r.toWake), Wake(c));
    var checked := Next(NextAll(woken, r.toCheck), Check(c, r.now));
    var registered := Next(NextAll(checked, r.toRegister), Register(c));
    NextAll(registered, r.toRetry)
  }

  ghost predicate InTime(r: Round, deadline: Option<nat>) {
    deadline.Some? ==> r.now < deadline.value
  }

  /** A parked client that is notified and whose deadline has not passed comes round to another attempt, whatever
      the others do in between. It is answered there, and not with a timeout, exactly when there is data then. */
  lemma NotifiedIsServed(st: Sys, c: nat, r: Round)
    requires PcOf(st, c).Parked? && (PcOf(st, c).woken || Notifies(r.toWake))
    requires NotBy(c, r.toWake) && NotBy(c, r.toCheck) && NotBy(c, r.toRegister) && NotBy(c, r.toRetry)
    requires InTime(r, PcOf(st, c).deadline)
    ensures var req, before := PcOf(st, c).req, AtRetry(st, c, r);
            var after := Next(before, Retry(c));
            if SomeKeyReady(before.db, req) then
              && after.replies != []
              && PcOf(after, c).Free?
              && (Some(after.replies[|after.replies| - 1].1), after.db) == Try(before.db, req)
              && after.replies == before.replies + [(c, after.replies[|after.replies| - 1].1)]
              && !after.replies[|after.replies| - 1].1.TimedOut?
            else
              && PcOf(after, c) == Parked(req, PcOf(st, c).deadline, Notifies(r.toRetry))
              && after.replies == before.replies && after.db == before.db
  {
    hide NextAll, Next, SomeKeyReady, NotBy, Notifies, Contents, Try;
    var req, deadline := PcOf(st, c).req, PcOf(st, c).deadline;
    OthersSteps(st, r.toWake, c);
    var woken := OwnWake(NextAll(st, r.toWake), c);
    OthersSteps(woken, r.toCheck, c);
    var checked := OwnCheck(NextAll(woken, r.toCheck), c, r.now);
    OthersSteps(checked, r.toRegister, c);
    var registered := OwnRegister(NextAll(checked, r.toRegister), c);
    OthersSteps(registered, r.toRetry, c);
    OwnRetry(AtRetry(st, c, r), c);
  }

  lemma OwnWake(st: Sys, c: nat) returns (next: Sys)
    requires PcOf(st, c).Parked? && PcOf(st, c).woken
    ensures next == Next(st, Wake(c)) && PcOf(next, c) == Checking(PcOf(st, c).req, PcOf(st, c).deadline)
  {
    next := Next(st, Wake(c));
  }

  lemma OwnCheck(st: Sys, c: nat, now: nat) returns (next: Sys)
    requires PcOf(st, c).Checking? && (PcOf(st, c).deadline.Some? ==> now < PcOf(st, c).deadline.value)
    ensures next == Next(st, Check(c, now)) && PcOf(next, c) == Registering(PcOf(st, c).req, PcOf(st, c).deadline)
  {
    next := Next(st, Check(c, now));
  }

  lemma OwnRegister(st: Sys, c: nat) returns (next: Sys)
    requires PcOf(st, c).Registering?
    ensures next == Next(st, Register(c)) && PcOf(next, c) == Retrying(PcOf(st, c).req, PcOf(st, c).deadline, false)
  {
    next := Next(st, Register(c));
  }

  lemma OwnRetry(st: Sys, c: nat)
    requires PcOf(st, c).Retrying?
    ensures var pc, next := PcOf(st, c), Next(st, Retry(c));
            if SomeKeyReady(st.db, pc.req) then
              && next.replies != []
              && PcOf(next, c).Free?
              && (Some(next.replies[|next.replies| - 1].1), next.db) == Try(st.db, pc.req)
              && next.replies == st.replies + [(c, next.replies[|next.replies| - 1].1)]
              && !next.replies[|next.replies| - 1].1.TimedOut?
            else
              && PcOf(next, c) == Parked(pc.req, pc.deadline, pc.woken)
              && next.replies == st.replies && next.db == st.db
  {
    hide Try, SomeKeyReady;
    ReadyExactly(st.db, PcOf(st, c).req);
    AttemptReplies(st.db, PcOf(st, c).req);
  }

  /** At its deadline or later a client that checks is answered with a timeout, and so is a parked one when its
      timer fires; neither takes anything. */
  lemma DeadlineEndsTheWait(st: Sys, c: nat, now: nat)
    requires (PcOf(st, c).Checking? || PcOf(st, c).Parked?) && PcOf(st, c).deadline.Some?
    requires PcOf(st, c).Checking? ==> PcOf(st, c).deadline.value <= now
    ensures var next := Next(st, if PcOf(st, c).Checking? then Check(c, now) else TimeOut(c));
            PcOf(next, c).Free? && next.replies == st.replies + [(c, TimedOut)] && next.db == st.db
            && next.added == st.added && next.dropped == st.dropped
  {}

  /** An attempt never answers with a timeout, and takes nothing when it does not answer. */
  lemma AttemptReplies(db: Db, req: Request)
    ensures var (r, after) := Try(db, req);
            if r.None? then after == db else !r.value.TimedOut?
  {
    if req.PopOne? {
      PopReplies(db, req.keys, req.min);
    }
  }

  lemma {:induction false} PopReplies(db: Db, keys: seq<Key>, min: bool)
    ensures var (r, after) := PopTry(db, keys, min);
            if r.None? then after == db else !r.value.TimedOut?
  {
    if keys != [] {
      PopReplies(db, keys[1..], min);
    }
  }
}
