/** Lazy expiry of keys, and the eagerly expiring map nobody can tell it from. */
module Expiry {
  import opened Bytes
  import opened Values
  import Glob

  type Key = seq<byte>
  type Store = map<Key, Entry>

  /** One call into a database. `Mutate` is a write through the reference `get_mut` returned. */
  datatype Op =
    | Get(key: Key)
    | Mutate(key: Key, value: Value)
    | Contains(key: Key)
    | GetOrCreate(key: Key, value: Value)
    | Set(key: Key, value: Value)
    | SetKeepTtl(key: Key, value: Value)
    | Remove(key: Key)
    | RemoveIfEmpty(key: Key)
    | ExpireAt(key: Key)
    | SetExpire(key: Key, at: u64)
    | Persist(key: Key)
    | Rename(key: Key, dst: Key)
    | Take(key: Key)
    | Put(key: Key, entry: Entry)
    | Len
    | ExpiresCount
    | KeysMatching(pattern: Option<seq<byte>>)
    | IterLive
    | Clear
    | Sweep

  datatype Reply =
    | Found(value: Option<Value>)
    | Yes(yes: bool)
    | When(at: Option<u64>)
    | Taken(entry: Option<Entry>)
    | Count(n: nat)
    | Keys(keys: set<Key>)
    | Snapshot(live: Store)
    | Nothing

  predicate Stale(data: Store, key: Key, now: nat) {
    key in data && Expired(data[key].expireAt, now)
  }

  /** What an eagerly expiring map would hold at `now`. */
  function LiveAt(data: Store, now: nat): Store {
    map k | k in data && !Expired(data[k].expireAt, now) :: data[k]
  }

  /** A key is live while the clock reads less than its expiry; when it reads the expiry itself the key is gone. */
  lemma LiveMeans(data: Store, now: nat, key: Key)
    ensures key in LiveAt(data, now)
            <==> key in data && (data[key].expireAt == None || now < data[key].expireAt.value)
    ensures key in LiveAt(data, now) ==> LiveAt(data, now)[key] == data[key]
  {}

  predicate EmptyContainer(v: Value) {
    match v
    case Text(_) => false
    case List(items) => items == []
    case Set(members) => members == {}
    case Hash(fields) => fields == map[]
    case ZSet(scores) => scores == map[]
    case Log(_) => false
  }

  predicate Wanted(pattern: Option<seq<byte>>, key: Key) {
    pattern.None? || Glob.Matches(pattern.value, key)
  }

  function ValueIn(m: Store, key: Key): Option<Value> {
    if key in m then Some(m[key].value) else None
  }

  function ExpiryIn(m: Store, key: Key): Option<u64> {
    if key in m then m[key].expireAt else None
  }

  // ------------------------------------------------- a map without any clock

  /** The simple meaning of every operation: plain map updates, no clock anywhere. */
  function Plain(m: Store, op: Op): (Store, Reply) {
    match op
    case Get(k) => (m, Found(ValueIn(m, k)))
    case Mutate(k, v) => (if k in m then m[k := m[k].(value := v)] else m, Nothing)
    case Contains(k) => (m, Yes(k in m))
    case GetOrCreate(k, v) => var all := if k in m then m else m[k := Entry(v, None)]; (all, Found(Some(all[k].value)))
    case Set(k, v) => (m[k := Entry(v, None)], Nothing)
    case SetKeepTtl(k, v) => (m[k := Entry(v, ExpiryIn(m, k))], Nothing)
    case Remove(k) => (m - {k}, Yes(k in m))
    case RemoveIfEmpty(k) => (if k in m && EmptyContainer(m[k].value) then m - {k} else m, Nothing)
    case ExpireAt(k) => (m, When(ExpiryIn(m, k)))
    case SetExpire(k, at) => (if k in m then m[k := m[k].(expireAt := Some(at))] else m, Yes(k in m))
    case Persist(k) =>
      var had := k in m && m[k].expireAt.Some?;
      (if had then m[k := m[k].(expireAt := None)] else m, Yes(had))
    case Rename(k, dst) => (if k in m then (m - {k})[dst := m[k]] else m, Yes(k in m))
    case Take(k) => (m - {k}, Taken(if k in m then Some(m[k]) else None))
    case Put(k, e) => (m[k := e], Nothing)
    case Len => (m, Count(|m.Keys|))
    case ExpiresCount => (m, Count(|set k | k in m && m[k].expireAt.Some?|))
    case KeysMatching(p) => (m, Keys(set k | k in m && Wanted(p, k)))
    case IterLive => (m, Snapshot(m))
    case Clear => (map[], Nothing)
    case Sweep => (m, Nothing)
  }

  /** What each writing call makes of the entry under any key `k`. */
  lemma WritesMean(m: Store, op: Op, k: Key)
    ensures var after := Plain(m, op).0;
            var was, now := (ValueIn(m, k), ExpiryIn(m, k)), (ValueIn(after, k), ExpiryIn(after, k));
            && (op.Mutate? ==> now == if k == op.key && k in m then (Some(op.value), was.1) else was)
            && (op.GetOrCreate? ==> now == if k == op.key && k !in m then (Some(op.value), None) else was)
            && (op.Set? ==> now == if k == op.key then (Some(op.value), None) else was)
            && (op.SetKeepTtl? ==> now == if k == op.key then (Some(op.value), was.1) else was)
            && (op.Remove? || op.Take? ==> now == if k == op.key then (None, None) else was)
            && (op.RemoveIfEmpty? ==> now == if k == op.key && k in m && EmptyContainer(m[k].value) then (None, None) else was)
            && (op.SetExpire? ==> now == if k == op.key && k in m then (was.0, Some(op.at)) else was)
            && (op.Persist? ==> now == if k == op.key then (was.0, None) else was)
            && (op.Put? ==> now == if k == op.key then (Some(op.entry.value), op.entry.expireAt) else was)
            && (op.Clear? ==> now == (None, None))
            && (op.Rename? ==> now == if op.key !in m then was
                                     else if k == op.dst then (ValueIn(m, op.key), ExpiryIn(m, op.key))
                                     else if k == op.key then (None, None)
                                     else was)
            && ((op.Get? || op.Contains? || op.ExpireAt? || op.Len? || op.ExpiresCount? || op.KeysMatching? || op.IterLive?
                 || op.Sweep?) ==> now == was)
  {}

  /** What each call answers. */
  lemma AnswersMean(m: Store, op: Op)
    ensures var r := Plain(m, op).1;
            && (op.Get? ==> r == Found(ValueIn(m, op.key)))
            && (op.GetOrCreate? ==> r == Found(Some(if op.key in m then m[op.key].value else op.value)))
            && (op.Contains? || op.Remove? || op.SetExpire? || op.Rename? ==> r == Yes(op.key in m))
            && (op.ExpireAt? ==> r == When(ExpiryIn(m, op.key)))
            && (op.Persist? ==> r == Yes(ExpiryIn(m, op.key).Some?))
            && (op.Take? ==> r == Taken(if op.key in m then Some(m[op.key]) else None))
            && (op.Len? ==> r == Count(|m|))
            && (op.ExpiresCount? ==> r.Count? && exists ks: set<Key> :: |ks| == r.n && forall k :: k in ks <==> ExpiryIn(m, k).Some?)
            && (op.KeysMatching? ==> r.Keys? && forall k :: k in r.keys <==>
                                       k in m && (op.pattern.None? || Glob.Matches(op.pattern.value, k)))
            && (op.IterLive? ==> r == Snapshot(m))
  {
    if op.ExpiresCount? {
      var ks := set k | k in m && m[k].expireAt.Some?;
      assert forall k :: k in ks <==> ExpiryIn(m, k).Some?;
    }
  }

  /** A container is empty when it has no element; a text and a stream never are. */
  lemma EmptyMeans(v: Value)
    ensures EmptyContainer(v) <==> v in {List([]), Value.Set({}), Hash(map[]), ZSet(map[])}
  {}

  // ------------------------------------------------------ the lazy database

  function Purge(data: Store, key: Key, now: nat): Store {
    if Stale(data, key, now) then data - {key} else data
  }

  /** Operations that look at the clock; the others take the map as they find it. */
  predicate ReadsClock(op: Op) {
    !(op.Mutate? || op.Set? || op.SetKeepTtl? || op.RemoveIfEmpty? || op.Put? || op.Clear?)
  }

  /** The database after one call, and the reply: stale keys stay until an operation meets them. */
  function Lazy(data: Store, now: nat, op: Op): (Store, Reply) {
    match op
    case Get(k) => Plain(Purge(data, k, now), op)
    case Contains(k) => Plain(Purge(data, k, now), op)
    case GetOrCreate(k, _) => Plain(Purge(data, k, now), op)
    case Remove(k) => Plain(Purge(data, k, now), op)
    case ExpireAt(k) => Plain(Purge(data, k, now), op)
    case SetExpire(k, _) => Plain(Purge(data, k, now), op)
    case Persist(k) => Plain(Purge(data, k, now), op)
    case Rename(k, _) => Plain(Purge(data, k, now), op)
    case Take(k) => Plain(Purge(data, k, now), op)
    case Len => (data, Count(|set k | k in data && !Expired(data[k].expireAt, now)|))
    case ExpiresCount =>
      (data, Count(|set k | k in data && data[k].expireAt.Some? && data[k].expireAt.value > now|))
    case KeysMatching(p) => (data, Keys(set k | k in data && !Expired(data[k].expireAt, now) && Wanted(p, k)))
    case IterLive => (data, Snapshot(LiveAt(data, now)))
    case Sweep => (LiveAt(data, now), Nothing)
    case _ => Plain(data, op)
  }

  class Db {
    var data: Store

    constructor ()
      ensures data == map[]
    {
      data := map[];
    }

    method PurgeIfExpired(key: Key, now: nat) returns (expired: bool)
      modifies this
      ensures data == Purge(old(data), key, now) && expired == Stale(old(data), key, now)
      ensures !Stale(data, key, now) && LiveAt(data, now) == LiveAt(old(data), now)
    {
      expired := false;
      if key in data {
        match data[key].expireAt {
          case Some(at) => expired := at <= now;
          case None =>
        }
      }
      if expired {
        data := data - {key};
      }
    }

    /** `get`, and `get_mut` before anything is written through it. */
    method Get(key: Key, now: nat) returns (r: Option<Value>)
      modifies this
      ensures (data, Found(r)) == Lazy(old(data), now, Op.Get(key))
      ensures !Stale(data, key, now) && LiveAt(data, now) == LiveAt(old(data), now)
    {
      var _ := PurgeIfExpired(key, now);
      r := if key in data then Some(data[key].value) else None;
    }

    method Contains(key: Key, now: nat) returns (r: bool)
      modifies this
      ensures (data, Yes(r)) == Lazy(old(data), now, Op.Contains(key)) && r == (key in data)
      ensures !Stale(data, key, now) && LiveAt(data, now) == LiveAt(old(data), now)
    {
      var _ := PurgeIfExpired(key, now);
      r := key in data;
    }

    method GetOrCreate(key: Key, fallback: Value, now: nat) returns (r: Value)
      modifies this
      ensures (data, Found(Some(r))) == Lazy(old(data), now, Op.GetOrCreate(key, fallback))
    {
      var _ := PurgeIfExpired(key, now);
      if key !in data {
        data := data[key := Entry(fallback, None)];
      }
      r := data[key].value;
    }

    method Set(key: Key, value: Value)
      modifies this
      ensures forall now :: data == Lazy(old(data), now, Op.Set(key, value)).0
      ensures data == Plain(old(data), Op.Set(key, value)).0
    {
      data := data[key := Entry(value, None)];
    }

    method SetKeepTtl(key: Key, value: Value)
      modifies this
      ensures forall now :: data == Lazy(old(data), now, Op.SetKeepTtl(key, value)).0
      ensures data == Plain(old(data), Op.SetKeepTtl(key, value)).0
    {
      var expireAt := if key in data then data[key].expireAt else None;
      data := data[key := Entry(value, expireAt)];
    }

    method Remove(key: Key, now: nat) returns (r: bool)
      modifies this
      ensures (data, Yes(r)) == Lazy(old(data), now, Op.Remove(key))
    {
      var _ := PurgeIfExpired(key, now);
      r := key in data;
      data := data - {key};
    }

    method RemoveIfEmpty(key: Key)
      modifies this
      ensures forall now :: data == Lazy(old(data), now, Op.RemoveIfEmpty(key)).0
    {
      var empty := false;
      if key in data {
        match data[key].value {
          case List(l) => empty := l == [];
          case Set(s) => empty := s == {};
          case Hash(h) => empty := h == map[];
          case ZSet(z) => empty := z == map[];
          case _ =>
        }
      }
      if empty {
        data := data - {key};
      }
    }

    method ExpireAt(key: Key, now: nat) returns (r: Option<u64>)
      modifies this
      ensures (data, When(r)) == Lazy(old(data), now, Op.ExpireAt(key))
    {
      var _ := PurgeIfExpired(key, now);
      r := if key in data then data[key].expireAt else None;
    }

    method SetExpire(key: Key, at: u64, now: nat) returns (r: bool)
      modifies this
      ensures (data, Yes(r)) == Lazy(old(data), now, Op.SetExpire(key, at))
    {
      var _ := PurgeIfExpired(key, now);
      r := key in data;
      if r {
        data := data[key := data[key].(expireAt := Some(at))];
      }
    }

    method Persist(key: Key, now: nat) returns (r: bool)
      modifies this
      ensures (data, Yes(r)) == Lazy(old(data), now, Op.Persist(key))
    {
      var _ := PurgeIfExpired(key, now);
      r := key in data && data[key].expireAt.Some?;
      if r {
        data := data[key := data[key].(expireAt := None)];
      }
    }

    method Rename(src: Key, dst: Key, now: nat) returns (r: bool)
      modifies this
      ensures (data, Yes(r)) == Lazy(old(data), now, Op.Rename(src, dst))
    {
      var _ := PurgeIfExpired(src, now);
      r := src in data;
      if r {
        var entry := data[src];
        data := data - {src};
        data := data[dst := entry];
      }
    }

    method Take(key: Key, now: nat) returns (r: Option<Entry>)
      modifies this
      ensures (data, Taken(r)) == Lazy(old(data), now, Op.Take(key))
    {
      var _ := PurgeIfExpired(key, now);
      r := if key in data then Some(data[key]) else None;
      data := data - {key};
    }

    method Put(key: Key, entry: Entry)
      modifies this
      ensures forall now :: data == Lazy(old(data), now, Op.Put(key, entry)).0
    {
      data := data[key := entry];
    }

    method Len(now: nat) returns (n: nat)
      ensures Lazy(data, now, Op.Len) == (data, Count(n))
    {
      n := |set k | k in data && !Expired(data[k].expireAt, now)|;
    }

    method ExpiresCount(now: nat) returns (n: nat)
      ensures Lazy(data, now, Op.ExpiresCount) == (data, Count(n))
    {
      n := |set k | k in data && data[k].expireAt.Some? && data[k].expireAt.value > now|;
    }

    method KeysMatching(pattern: Option<seq<byte>>, now: nat) returns (keys: set<Key>)
      ensures Lazy(data, now, Op.KeysMatching(pattern)) == (data, Keys(keys))
    {
      keys := {};
      var left := data.Keys;
      while left != {}
        invariant left <= data.Keys
        invariant keys == set k | k in data.Keys - left && !Expired(data[k].expireAt, now) && Wanted(pattern, k)
        decreases left
      {
        var key: Key :| key in left;
        left := left - {key};
        if !Expired(data[key].expireAt, now) {
          var wanted := true;
          if pattern.Some? {
            wanted := Glob.GlobMatch(pattern.value, key);
          }
          if wanted {
            keys := keys + {key};
          }
        }
      }
      assert keys == set k | k in data && !Expired(data[k].expireAt, now) && Wanted(pattern, k);
    }

    method SweepExpired(now: nat)
      modifies this
      ensures data == Lazy(old(data), now, Op.Sweep).0
    {
      data := map k | k in data && !Expired(data[k].expireAt, now) :: data[k];
    }
  }

  // --------------------------------------------------------------- one call

  lemma LiveTwice(data: Store, before: nat, now: nat)
    requires before <= now
    ensures LiveAt(LiveAt(data, before), now) == LiveAt(data, now)
  {}

  lemma PurgeKeepsLive(data: Store, key: Key, now: nat)
    ensures LiveAt(Purge(data, key, now), now) == LiveAt(data, now)
    ensures !Stale(Purge(data, key, now), key, now)
  {}

  /** On a key that is not stale, an operation cannot tell the two stores apart. */
  lemma KeyedCommutes(data: Store, now: nat, op: Op)
    requires op.Get? || op.Contains? || op.GetOrCreate? || op.Remove? || op.ExpireAt? || op.SetExpire?
             || op.Persist? || op.Rename? || op.Take? || op.SetKeepTtl?
    requires !Stale(data, op.key, now)
    ensures Plain(data, op).1 == Plain(LiveAt(data, now), op).1
    ensures LiveAt(Plain(data, op).0, now) == LiveAt(Plain(LiveAt(data, now), op).0, now)
  {
    LiveTwice(data, now, now);
    match op {
      case Remove(_) =>
      case Take(_) =>
      case Rename(_, _) =>
      case _ =>
    }
  }

  lemma UnkeyedCommutes(data: Store, now: nat, op: Op)
    requires op.Mutate? || op.Set? || op.RemoveIfEmpty? || op.Put? || op.Clear?
    ensures Plain(data, op).1 == Plain(LiveAt(data, now), op).1
    ensures LiveAt(Plain(data, op).0, now) == LiveAt(Plain(LiveAt(data, now), op).0, now)
  {}

  lemma ScansCommute(data: Store, now: nat, op: Op)
    requires op.Len? || op.ExpiresCount? || op.KeysMatching? || op.IterLive? || op.Sweep?
    ensures Lazy(data, now, op).1 == Plain(LiveAt(data, now), op).1
    ensures LiveAt(Lazy(data, now, op).0, now) == LiveAt(data, now)
  {
    var m := LiveAt(data, now);
    assert (set k | k in data && !Expired(data[k].expireAt, now)) == m.Keys;
    assert (set k | k in data && data[k].expireAt.Some? && data[k].expireAt.value > now)
           == (set k | k in m && m[k].expireAt.Some?);
    LiveTwice(data, now, now);
  }

  /** Every call but one replies and acts as if stale keys were not there, and that one
      (`set_keep_ttl`, which does not purge) does so exactly when its key is not stale. */
  lemma LazyIsEager(data: Store, now: nat, op: Op)
    ensures Lazy(data, now, op).1 == Plain(LiveAt(data, now), op).1
    ensures LiveAt(Lazy(data, now, op).0, now) == LiveAt(Plain(LiveAt(data, now), op).0, now)
            <==> (op.SetKeepTtl? ==> !Stale(data, op.key, now))
  {
    if op.Mutate? || op.Set? || op.RemoveIfEmpty? || op.Put? || op.Clear? {
      UnkeyedCommutes(data, now, op);
    } else if op.Len? || op.ExpiresCount? || op.KeysMatching? || op.IterLive? || op.Sweep? {
      LiveTwice(data, now, now);
      ScansCommute(data, now, op);
    } else if op.SetKeepTtl? {
      if Stale(data, op.key, now) {
        assert op.key !in LiveAt(data, now);
        assert op.key in LiveAt(Plain(LiveAt(data, now), op).0, now);
      } else {
        KeyedCommutes(data, now, op);
      }
    } else {
      var purged := Purge(data, op.key, now);
      PurgeKeepsLive(data, op.key, now);
      assert Lazy(data, now, op) == Plain(purged, op);
      KeyedCommutes(purged, now, op);
    }
  }

  /** The failing case: a value written over a key that expired a moment ago is lost at once. */
  lemma KeepTtlLosesTheWrite()
    ensures var key: Key := [107];
            var data: Store := map[key := Entry(Text([97]), Some(5))];
            var op := Op.SetKeepTtl(key, Text([98]));
            LiveAt(Lazy(data, 6, op).0, 6) == map[] && Plain(LiveAt(data, 6), op).0 == map[key := Entry(Text([98]), None)]
  {
    var key: Key := [107];
    var data: Store := map[key := Entry(Text([97]), Some(5))];
    assert LiveAt(data, 6) == map[];
  }

  // --------------------------------------------------------------- whole runs

  /** Whoever calls the database: the next call may depend on every reply so far. */
  type Client = seq<Reply> -> Op

  /** After these calls `key` cannot be stale until the clock is read again. */
  predicate Settles(op: Op, key: Key) {
    op.Sweep? || op.Clear?
    || ((op.Get? || op.Contains? || op.GetOrCreate? || op.Remove? || op.ExpireAt? || op.Persist? || op.Take? || op.Set?)
        && op.key == key)
  }

  /** `set_keep_ttl` is only called on a key that the call before it has purged. */
  ghost predicate Careful(client: Client) {
    forall replies: seq<Reply> :: client(replies).SetKeepTtl? ==>
      replies != [] && Settles(client(replies[..|replies| - 1]), client(replies).key)
  }

  ghost predicate Forward(clock: nat -> nat) {
    forall i: nat, j: nat :: i <= j ==> clock(i) <= clock(j)
  }

  /** The lazy database after `n` calls: its contents and the replies given. */
  function LazyRun(client: Client, clock: nat -> nat, data: Store, n: nat): (r: (Store, seq<Reply>))
    ensures |r.1| == n
  {
    if n == 0 then (data, [])
    else
      var (before, replies) := LazyRun(client, clock, data, n - 1);
      var (after, reply) := Lazy(before, clock(n - 1), client(replies));
      (after, replies + [reply])
  }

  /** A map from which every key is gone the moment a clock reading passes its expiry. */
  datatype EagerState = EagerState(live: Store, now: nat, replies: seq<Reply>)

  function EagerStep(st: EagerState, op: Op, reading: nat): EagerState {
    var now := if ReadsClock(op) then reading else st.now;
    var (after, reply) := Plain(LiveAt(st.live, now), op);
    EagerState(LiveAt(after, now), now, st.replies + [reply])
  }

  function EagerRun(client: Client, clock: nat -> nat, data: Store, n: nat): EagerState {
    if n == 0 then EagerState(LiveAt(data, clock(0)), clock(0), [])
    else
      var before := EagerRun(client, clock, data, n - 1);
      EagerStep(before, client(before.replies), clock(n - 1))
  }

  ghost predicate Agree(lazy: (Store, seq<Reply>), eager: EagerState) {
    lazy.1 == eager.replies && eager.live == LiveAt(lazy.0, eager.now)
  }

  /** Lazy expiry cannot be observed: whatever the caller does, however the clock moves between its calls
      and wherever sweeps fall, every reply is the eagerly expiring map's, and so is what is left. */
  lemma {:induction false} Unobservable(client: Client, clock: nat -> nat, data: Store, n: nat)
    requires Careful(client) && Forward(clock)
    ensures Agree(LazyRun(client, clock, data, n), EagerRun(client, clock, data, n))
    ensures EagerRun(client, clock, data, n).now <= clock(n)
  {
    hide Lazy, Plain, LiveAt, Forward, EagerStep, Careful;
    if n > 0 {
      Unobservable(client, clock, data, n - 1);
      ForwardStep(clock, n);
      var (before, replies) := LazyRun(client, clock, data, n - 1);
      var eager := EagerRun(client, clock, data, n - 1);
      if client(replies).SetKeepTtl? {
        if n > 1 {
          Unobservable(client, clock, data, n - 2);
        }
        Settled(client, clock, data, n);
      }
      StepAgrees(before, eager, client(replies), clock(n - 1));
    } else {
      assert LazyRun(client, clock, data, 0) == (data, []);
    }
  }

  lemma StepAgrees(data: Store, eager: EagerState, op: Op, reading: nat)
    requires eager.live == LiveAt(data, eager.now) && eager.now <= reading
    requires op.SetKeepTtl? ==> !Stale(data, op.key, eager.now)
    ensures var (after, reply) := Lazy(data, reading, op);
            Agree((after, eager.replies + [reply]), EagerStep(eager, op, reading))
    ensures EagerStep(eager, op, reading).now <= reading
  {
    hide Lazy, Plain, LiveAt;
    var now := if ReadsClock(op) then reading else eager.now;
    NotReading(data, reading, now, op);
    LiveTwice(data, eager.now, now);
    LazyIsEager(data, now, op);
  }

  lemma ForwardStep(clock: nat -> nat, n: nat)
    requires Forward(clock) && n > 0
    ensures clock(n - 1) <= clock(n)
  {}

  lemma NotReading(data: Store, reading: nat, now: nat, op: Op)
    requires ReadsClock(op) ==> reading == now
    ensures Lazy(data, reading, op) == Lazy(data, now, op)
  {}

  /** What a settling call leaves behind. */
  lemma SettlesNow(data: Store, now: nat, op: Op, key: Key)
    requires Settles(op, key)
    ensures !Stale(Lazy(data, now, op).0, key, now)
  {}

  lemma Settled(client: Client, clock: nat -> nat, data: Store, n: nat)
    requires Careful(client) && n > 0
    requires Agree(LazyRun(client, clock, data, n - 1), EagerRun(client, clock, data, n - 1))
    requires client(LazyRun(client, clock, data, n - 1).1).SetKeepTtl?
    requires n > 1 ==> Agree(LazyRun(client, clock, data, n - 2), EagerRun(client, clock, data, n - 2))
    ensures !Stale(LazyRun(client, clock, data, n - 1).0, client(LazyRun(client, clock, data, n - 1).1).key,
                   EagerRun(client, clock, data, n - 1).now)
  {
    hide Lazy, Plain, LiveAt, Settles;
    var replies := LazyRun(client, clock, data, n - 1).1;
    var key := client(replies).key;
    var before := LazyRun(client, clock, data, n - 2);
    assert replies[..n - 2] == before.1;
    var op := client(before.1);
    var now := EagerRun(client, clock, data, n - 1).now;
    NotReading(before.0, clock(n - 2), now, op);
    SettlesNow(before.0, now, op, key);
  }
}
