/** MULTI, EXEC, DISCARD and WATCH on one connection, and optimistic locking across many. */
module Transactions {
  import opened Bytes
  import opened Decimal
  import opened Values

  type Key = seq<byte>
  /** Every database at once: a key lives under the number of its database. */
  type Space = map<(nat, Key), Value>

  datatype Answer = Bulk(value: Option<Value>) | Done

  /** A data command: what it does to the keyspace and to the selected database, and its reply. */
  type Data = (Space, nat) -> (Space, nat, Answer)

  datatype Command =
    | Multi
    | Exec
    | Discard
    | Watch(keys: seq<Key>)
    | Unwatch
    | Reset(data: Data)   // `data` is what the name means when EXEC runs it from the queue
    | Subscribe
    | Run(data: Data)

  datatype Reply = Fine | Queued | NilArray | ExecAbort | Failure | One(a: Answer) | Array(all: seq<Answer>)

  /** `WATCH` remembers whether the key was there and a hash of its contents. */
  type Snapshot = (bool, u64)
  type Fingerprint = Value -> u64

  function Snap(fp: Fingerprint, s: Space, at: (nat, Key)): Snapshot {
    if at in s then (true, fp(s[at])) else (false, 0)
  }

  // ----------------------------------------------- one connection, as a value

  datatype Conn = Conn(inMulti: bool, multiError: bool, queue: seq<Data>, watched: map<(nat, Key), Snapshot>, db: nat)

  const FRESH := Conn(false, false, [], map[], 0)

  function WatchAll(fp: Fingerprint, s: Space, db: nat, watched: map<(nat, Key), Snapshot>, keys: seq<Key>)
    : map<(nat, Key), Snapshot>
  {
    if keys == [] then watched
    else WatchAll(fp, s, db, watched, keys[..|keys| - 1])[(db, keys[|keys| - 1]) := Snap(fp, s, (db, keys[|keys| - 1]))]
  }

  /** The commands one after another, with nothing in between. */
  function RunAll(s: Space, db: nat, queue: seq<Data>): (Space, nat, seq<Answer>) {
    if queue == [] then (s, db, [])
    else
      var (s1, db1, answers) := RunAll(s, db, queue[..|queue| - 1]);
      var (s2, db2, answer) := queue[|queue| - 1](s1, db1);
      (s2, db2, answers + [answer])
  }

  /** Every command of `queue` takes the keyspace and the selected database from one state to the next, first to
      last, and its answer stands at its place. */
  ghost predicate InTurn(queue: seq<Data>, states: seq<(Space, nat)>, answers: seq<Answer>) {
    && |states| == |queue| + 1 && |answers| == |queue|
    && forall i :: 0 <= i < |queue| ==>
         queue[i](states[i].0, states[i].1) == (states[i + 1].0, states[i + 1].1, answers[i])
  }

  /** From `start`, the queue run in turn ends in `end` and gives `answers`. */
  ghost predicate RunsTo(queue: seq<Data>, start: (Space, nat), end: (Space, nat), answers: seq<Answer>) {
    exists states :: InTurn(queue, states, answers) && states[0] == start && states[|queue|] == end
  }

  lemma {:induction false} RunsInTurn(s: Space, db: nat, queue: seq<Data>)
    ensures var (s', db', answers) := RunAll(s, db, queue);
            RunsTo(queue, (s, db), (s', db'), answers)
  {
    if queue == [] {
      assert InTurn(queue, [(s, db)], []);
    } else {
      var most, last := queue[..|queue| - 1], queue[|queue| - 1];
      RunsInTurn(s, db, most);
      var (s1, db1, answers) := RunAll(s, db, most);
      var states :| InTurn(most, states, answers) && states[0] == (s, db) && states[|most|] == (s1, db1);
      var (s2, db2, answer) := last(s1, db1);
      assert forall i :: 0 <= i < |most| ==> queue[i] == most[i];
      assert InTurn(queue, states + [(s2, db2)], answers + [answer]);
      assert (states + [(s2, db2)])[|queue|] == (s2, db2);
    }
  }

  predicate Unchanged(fp: Fingerprint, s: Space, watched: map<(nat, Key), Snapshot>) {
    forall at :: at in watched ==> Snap(fp, s, at) == watched[at]
  }

  /** One `handle` call. */
  function Handled(fp: Fingerprint, c: Conn, s: Space, cmd: Command): (Conn, Space, Reply) {
    match cmd
    case Multi => if c.inMulti then (c, s, Failure) else (Conn(true, false, [], c.watched, c.db), s, Fine)
    case Exec =>
      var out := Conn(false, false, [], map[], c.db);
      if !c.inMulti then (c, s, Failure)
      else if c.multiError then (out, s, ExecAbort)
      else if !Unchanged(fp, s, c.watched) then (out, s, NilArray)
      else var (s', db', answers) := RunAll(s, c.db, c.queue); (out.(db := db'), s', Array(answers))
    case Discard => if c.inMulti then (Conn(false, false, [], map[], c.db), s, Fine) else (c, s, Failure)
    case Watch(keys) =>
      if keys == [] || c.inMulti then (c, s, Failure)
      else (c.(watched := WatchAll(fp, s, c.db, c.watched, keys)), s, Fine)
    case Unwatch => (c.(watched := map[]), s, Fine)
    case Subscribe => if c.inMulti then (c.(multiError := true), s, Failure) else (c, s, Fine)
    case Reset(data) =>
      if c.inMulti then (c.(queue := c.queue + [data]), s, Queued)
      else (Conn(false, false, [], map[], c.db), s, Fine)
    case Run(data) =>
      if c.inMulti then (c.(queue := c.queue + [data]), s, Queued)
      else var (s', db', answer) := data(s, c.db); (c.(db := db'), s', One(answer))
  }

  /** WATCH remembers every named key, as it is now, under the selected database, and keeps what it remembered
      of others. */
  lemma {:induction false} WatchRemembers(fp: Fingerprint, s: Space, db: nat, watched: map<(nat, Key), Snapshot>,
                                          keys: seq<Key>, at: (nat, Key))
    ensures var after := WatchAll(fp, s, db, watched, keys);
            if at.0 == db && at.1 in keys then
              at in after && after[at] == (if at in s then (true, fp(s[at])) else (false, 0))
            else (at in after <==> at in watched) && (at in watched ==> after[at] == watched[at])
  {
    if keys != [] {
      var most, last := keys[..|keys| - 1], keys[|keys| - 1];
      WatchRemembers(fp, s, db, watched, most, at);
      assert keys == most + [last];
    }
  }

  /** EXEC after no refused command answers nil, and runs nothing, exactly when some watched key is no longer there or
      newly there or has another fingerprint than was remembered. */
  lemma NilExactly(fp: Fingerprint, c: Conn, s: Space)
    requires c.inMulti && !c.multiError
    ensures Handled(fp, c, s, Exec).2 == NilArray
            <==> exists at :: at in c.watched && c.watched[at] != if at in s then (true, fp(s[at])) else (false, 0)
    ensures Handled(fp, c, s, Exec).2 == NilArray ==> Handled(fp, c, s, Exec).1 == s
    ensures Handled(fp, c, s, Exec).2 != NilArray ==> Handled(fp, c, s, Exec).2.Array?
  {
    hide RunAll;
    assert forall at :: at in c.watched ==> Snap(fp, s, at) == if at in s then (true, fp(s[at])) else (false, 0);
  }

  /** Commands that come at the wrong time are refused and change nothing. */
  lemma WrongTime(fp: Fingerprint, c: Conn, s: Space, cmd: Command)
    requires (cmd.Multi? && c.inMulti) || ((cmd.Exec? || cmd.Discard?) && !c.inMulti)
             || (cmd.Watch? && (c.inMulti || cmd.keys == []))
    ensures Handled(fp, c, s, cmd) == (c, s, Failure)
  {}

  /** Outside MULTI a data command runs at once; RESET forgets the snapshots and whatever was queued, and keeps
      the selected database; WATCH, UNWATCH and MULTI leave the keyspace alone. */
  lemma OutsideMulti(fp: Fingerprint, c: Conn, s: Space, cmd: Command)
    requires !c.inMulti
    ensures var (after, s', r) := Handled(fp, c, s, cmd);
            && (cmd.Run? ==> (s', after.db, r) == (cmd.data(s, c.db).0, cmd.data(s, c.db).1, One(cmd.data(s, c.db).2))
                             && after == c.(db := after.db))
            && (cmd.Reset? ==> after == Conn(false, false, [], map[], c.db) && s' == s && r == Fine)
            && (cmd.Multi? ==> after == Conn(true, false, [], c.watched, c.db) && s' == s && r == Fine)
            && (cmd.Unwatch? ==> after == c.(watched := map[]) && s' == s && r == Fine)
            && (cmd.Watch? && cmd.keys != [] ==>
                  after == c.(watched := WatchAll(fp, s, c.db, c.watched, cmd.keys)) && s' == s && r == Fine)
  {}

  // ------------------------------------------------------------- the program

  class Shared {
    var space: Space
    const fp: Fingerprint

    constructor (fp: Fingerprint)
      ensures space == map[] && this.fp == fp
    {
      space := map[];
      this.fp := fp;
    }
  }

  class ConnState {
    var inMulti: bool
    var multiError: bool
    var queue: seq<Data>
    var watched: map<(nat, Key), Snapshot>
    var db: nat

    constructor ()
      ensures State() == FRESH
    {
      inMulti, multiError, queue, watched, db := false, false, [], map[], 0;
    }

    ghost function State(): Conn
      reads this
    {
      Conn(inMulti, multiError, queue, watched, db)
    }

    method Watch(shared: Shared, keys: seq<Key>) returns (r: Reply)
      modifies this
      ensures (State(), shared.space, r) == Handled(shared.fp, old(State()), shared.space, Command.Watch(keys))
    {
      if keys == [] || inMulti {
        return Failure;
      }
      ghost var before := watched;
      assert keys[..0] == [];
      for i := 0 to |keys|
        invariant watched == WatchAll(shared.fp, shared.space, db, before, keys[..i])
        invariant (inMulti, multiError, queue, db) == old((inMulti, multiError, queue, db))
      {
        assert keys[..i + 1][..i] == keys[..i];
        var at := (db, keys[i]);
        var snapshot := if at in shared.space then (true, shared.fp(shared.space[at])) else (false, 0);
        watched := watched[at := snapshot];
      }
      assert keys[..|keys|] == keys;
      return Fine;
    }

    method Exec(shared: Shared) returns (r: Reply)
      modifies this, shared
      ensures (State(), shared.space, r) == Handled(shared.fp, old(State()), old(shared.space), Command.Exec)
      ensures old(inMulti) && !old(multiError) && Unchanged(shared.fp, old(shared.space), old(watched)) ==>
        r.Array? && RunsTo(old(queue), (old(shared.space), old(db)), (shared.space, db), r.all)
    {
      RunsInTurn(shared.space, db, queue);
      if !inMulti {
        return Failure;
      }
      inMulti := false;
      var todo, snapshots := queue, watched;
      queue, watched := [], map[];
      if multiError {
        multiError := false;
        return ExecAbort;
      }
      var left := snapshots.Keys;
      while left != {}
        invariant left <= snapshots.Keys
        invariant forall at :: at in snapshots && at !in left ==> Snap(shared.fp, shared.space, at) == snapshots[at]
        invariant shared.space == old(shared.space) && State() == Conn(false, false, [], map[], old(db))
        decreases left
      {
        var at :| at in left;
        left := left - {at};
        var current := if at in shared.space then (true, shared.fp(shared.space[at])) else (false, 0);
        if current != snapshots[at] {
          return NilArray;
        }
      }
      var replies: seq<Answer> := [];
      assert todo[..0] == [];
      for i := 0 to |todo|
        invariant (shared.space, db, replies) == RunAll(old(shared.space), old(db), todo[..i])
        invariant State() == Conn(false, false, [], map[], db)
      {
        assert todo[..i + 1][..i] == todo[..i];
        var (s, d, answer) := todo[i](shared.space, db);
        shared.space, db, replies := s, d, replies + [answer];
      }
      assert todo[..|todo|] == todo;
      return Array(replies);
    }

    method Handle(shared: Shared, cmd: Command) returns (r: Reply)
      modifies this, shared
      ensures (State(), shared.space, r) == Handled(shared.fp, old(State()), old(shared.space), cmd)
    {
      if cmd.Multi? {
        if inMulti {
          return Failure;
        }
        inMulti, multiError, queue := true, false, [];
        return Fine;
      }
      if cmd.Exec? {
        r := Exec(shared);
        return;
      }
      if cmd.Discard? {
        if !inMulti {
          return Failure;
        }
        inMulti, multiError, queue, watched := false, false, [], map[];
        return Fine;
      }
      if cmd.Watch? {
        r := Watch(shared, cmd.keys);
        return;
      }
      if cmd.Unwatch? {
        watched := map[];
        return Fine;
      }
      if inMulti {
        if cmd.Subscribe? {
          multiError := true;
          return Failure;
        }
        queue := queue + [cmd.data];
        return Queued;
      }
      if cmd.Run? {
        var (s, d, answer) := cmd.data(shared.space, db);
        shared.space, db := s, d;
        return One(answer);
      }
      if cmd.Reset? {
        inMulti, multiError, queue, watched := false, false, [], map[];
      }
      return Fine;
    }
  }

  // ------------------------------------------------------- all connections

  /** A server: the keyspace and the connections, and a step taken by one of them. */
  datatype Server = Server(space: Space, conns: map<nat, Conn>)

  datatype Step = Step(client: nat, cmd: Command)

  function ConnOf(sv: Server, client: nat): Conn {
    if client in sv.conns then sv.conns[client] else FRESH
  }

  function Take(fp: Fingerprint, sv: Server, step: Step): Server {
    var (c, s, _) := Handled(fp, ConnOf(sv, step.client), sv.space, step.cmd);
    Server(s, sv.conns[step.client := c])
  }

  function TakeAll(fp: Fingerprint, sv: Server, steps: seq<Step>): Server {
    if steps == [] then sv else Take(fp, TakeAll(fp, sv, steps[..|steps| - 1]), steps[|steps| - 1])
  }

  ghost predicate Tidy(sv: Server) {
    forall i :: i in sv.conns && !sv.conns[i].inMulti ==> sv.conns[i].queue == [] && !sv.conns[i].multiError
  }

  /** Outside MULTI nothing is ever queued and no error is pending, whatever has happened. */
  lemma {:induction false} AlwaysTidy(fp: Fingerprint, sv: Server, steps: seq<Step>)
    requires Tidy(sv)
    ensures Tidy(TakeAll(fp, sv, steps))
  {
    hide RunAll, Unchanged, WatchAll;
    if steps != [] {
      AlwaysTidy(fp, sv, steps[..|steps| - 1]);
    }
  }

  /** What a command puts in the queue of a connection inside MULTI. Neither EXEC nor DISCARD, it leaves the
      connection there: a nested MULTI and a WATCH are refused, and an UNWATCH drops the snapshots. */
  function Queues(cmd: Command): seq<Data> {
    if cmd.Run? || cmd.Reset? then [cmd.data] else []
  }

  /** Nothing the client does ends its transaction. */
  predicate StaysIn(client: nat, steps: seq<Step>) {
    forall k :: 0 <= k < |steps| && steps[k].client == client ==> !steps[k].cmd.Exec? && !steps[k].cmd.Discard?
  }

  /** The data commands a client sends between MULTI and EXEC, in order; refused ones are not queued. */
  function Sent(client: nat, steps: seq<Step>): seq<Data> {
    if steps == [] then []
    else
      var last := steps[|steps| - 1];
      Sent(client, steps[..|steps| - 1])
      + (if last.client == client then Queues(last.cmd) else [])
  }

  /** The client asked for something that cannot be queued, which spoils the transaction. */
  predicate Refused(client: nat, steps: seq<Step>) {
    exists k :: 0 <= k < |steps| && steps[k].client == client && steps[k].cmd.Subscribe?
  }

  /** What is left of the client's snapshots. */
  function StillWatched(client: nat, steps: seq<Step>, watched: map<(nat, Key), Snapshot>): map<(nat, Key), Snapshot> {
    if exists k :: 0 <= k < |steps| && steps[k].client == client && steps[k].cmd.Unwatch? then map[] else watched
  }

  function Others(client: nat, steps: seq<Step>): seq<Step> {
    if steps == [] then []
    else
      var last := steps[|steps| - 1];
      Others(client, steps[..|steps| - 1]) + (if last.client != client then [last] else [])
  }

  /** `with`, where the client's commands were sent, and `without`, where they were not, differ only in
      what waits in the client's queue. */
  ghost predicate OnlyQueued(sv: Server, client: nat, steps: seq<Step>, with: Server, without: Server) {
    var c, start := ConnOf(with, client), ConnOf(sv, client);
    && with.space == without.space
    && (forall i :: i != client ==> ConnOf(with, i) == ConnOf(without, i))
    && c.inMulti && c.db == start.db && c.watched == StillWatched(client, steps, start.watched)
    && c.queue == start.queue + Sent(client, steps)
    && (c.multiError <==> start.multiError || Refused(client, steps))
  }

  /** While a client's commands wait in its queue, the rest of the server runs as if they had not been sent. */
  lemma {:induction false} QueuedHasNoEffect(fp: Fingerprint, sv: Server, client: nat, steps: seq<Step>)
    requires ConnOf(sv, client).inMulti
    requires StaysIn(client, steps)
    ensures OnlyQueued(sv, client, steps, TakeAll(fp, sv, steps), TakeAll(fp, sv, Others(client, steps)))
  {
    hide OnlyQueued, Handled, Take;
    if steps == [] {
      NothingQueued(sv, client);
    } else {
      var most, last := steps[..|steps| - 1], steps[|steps| - 1];
      QueuedHasNoEffect(fp, sv, client, most);
      if last.client == client {
        OwnStep(fp, sv, client, most, last, TakeAll(fp, sv, most), TakeAll(fp, sv, Others(client, most)));
        assert Others(client, steps) == Others(client, most);
      } else {
        OtherStep(fp, sv, client, most, last, TakeAll(fp, sv, most), TakeAll(fp, sv, Others(client, most)));
        assert Others(client, steps)[..|Others(client, steps)| - 1] == Others(client, most);
      }
      assert most + [last] == steps;
    }
  }

  lemma NothingQueued(sv: Server, client: nat)
    requires ConnOf(sv, client).inMulti
    ensures OnlyQueued(sv, client, [], sv, sv)
  {
    assert ConnOf(sv, client).queue + [] == ConnOf(sv, client).queue;
  }

  lemma OwnStep(fp: Fingerprint, sv: Server, client: nat, most: seq<Step>, last: Step, with: Server, without: Server)
    requires OnlyQueued(sv, client, most, with, without) && last.client == client && !last.cmd.Exec? && !last.cmd.Discard?
    ensures OnlyQueued(sv, client, most + [last], Take(fp, with, last), without)
  {
    hide Handled, Sent, Refused, StillWatched, Queues;
    MoreSent(client, most, last, ConnOf(sv, client).watched);
    JustQueues(fp, ConnOf(with, client), with.space, last.cmd);
    var start := ConnOf(sv, client);
    assert start.queue + (Sent(client, most) + Queues(last.cmd)) == (start.queue + Sent(client, most)) + Queues(last.cmd);
  }

  lemma JustQueues(fp: Fingerprint, c: Conn, s: Space, cmd: Command)
    requires c.inMulti && !cmd.Exec? && !cmd.Discard?
    ensures Handled(fp, c, s, cmd).1 == s
    ensures Handled(fp, c, s, cmd).0 == c.(queue := c.queue + Queues(cmd), multiError := c.multiError || cmd.Subscribe?,
                                           watched := if cmd.Unwatch? then map[] else c.watched)
  {
    assert c.queue + [] == c.queue;
  }

  lemma OtherStep(fp: Fingerprint, sv: Server, client: nat, most: seq<Step>, last: Step, with: Server, without: Server)
    requires OnlyQueued(sv, client, most, with, without) && last.client != client
    ensures OnlyQueued(sv, client, most + [last], Take(fp, with, last), Take(fp, without, last))
  {
    hide Handled, Take;
    MoreSent(client, most, last, ConnOf(sv, client).watched);
    assert Sent(client, most) + [] == Sent(client, most);
    SameHandling(fp, with, without, last);
  }

  lemma MoreSent(client: nat, most: seq<Step>, last: Step, watched: map<(nat, Key), Snapshot>)
    ensures var all, mine := most + [last], last.client == client;
            && Sent(client, all) == Sent(client, most) + (if mine then Queues(last.cmd) else [])
            && (Refused(client, all) <==> Refused(client, most) || (mine && last.cmd.Subscribe?))
            && StillWatched(client, all, watched)
               == (if mine && last.cmd.Unwatch? then map[] else StillWatched(client, most, watched))
  {
    var all := most + [last];
    assert all[..|most|] == most && all[|most|] == last;
    if Refused(client, most) {
      var k :| 0 <= k < |most| && most[k].client == client && most[k].cmd.Subscribe?;
      assert all[k].client == client;
    }
    if k :| 0 <= k < |most| && most[k].client == client && most[k].cmd.Unwatch? {
      assert all[k].client == client;
    }
  }

  lemma SameHandling(fp: Fingerprint, a: Server, b: Server, step: Step)
    requires a.space == b.space && ConnOf(a, step.client) == ConnOf(b, step.client)
    ensures Take(fp, a, step).space == Take(fp, b, step).space
    ensures ConnOf(Take(fp, a, step), step.client) == ConnOf(Take(fp, b, step), step.client)
    ensures forall i :: i != step.client ==> ConnOf(Take(fp, a, step), i) == ConnOf(a, i)
                                             && ConnOf(Take(fp, b, step), i) == ConnOf(b, i)
  {}

  lemma TakeMore(fp: Fingerprint, sv: Server, a: seq<Step>, step: Step)
    ensures TakeAll(fp, sv, a + [step]) == Take(fp, TakeAll(fp, sv, a), step)
  {
    assert (a + [step])[..|a|] == a;
  }

  lemma {:induction false} TakeAfter(fp: Fingerprint, sv: Server, first: Step, rest: seq<Step>)
    ensures TakeAll(fp, sv, [first] + rest) == TakeAll(fp, Take(fp, sv, first), rest)
  {
    hide Take;
    if rest == [] {
      assert [first] + rest == [first];
      assert TakeAll(fp, sv, [first][..0]) == sv;
    } else {
      TakeAfter(fp, sv, first, rest[..|rest| - 1]);
      assert ([first] + rest)[..|rest|] == [first] + rest[..|rest| - 1];
    }
  }

  /** The reply to a step. */
  function ReplyTo(fp: Fingerprint, sv: Server, step: Step): Reply {
    Handled(fp, ConnOf(sv, step.client), sv.space, step.cmd).2
  }

  /** MULTI, then anything by anyone that does not end the transaction, then EXEC: the client's commands take
      effect together at EXEC, in the order in which they were sent and each answered, on the keyspace the others
      left, and only if none was refused and no watched key has changed by then. After an UNWATCH inside MULTI no
      key is watched. */
  lemma AtomicTransaction(fp: Fingerprint, sv: Server, client: nat, steps: seq<Step>)
    requires !ConnOf(sv, client).inMulti
    requires StaysIn(client, steps)
    ensures var begun := Take(fp, sv, Step(client, Multi));
            var before := TakeAll(fp, sv, [Step(client, Multi)] + steps);
            var after, reply := Take(fp, before, Step(client, Exec)), ReplyTo(fp, before, Step(client, Exec));
            var others := TakeAll(fp, begun, Others(client, steps)).space;
            var watched := StillWatched(client, steps, ConnOf(sv, client).watched);
            && after == TakeAll(fp, sv, [Step(client, Multi)] + steps + [Step(client, Exec)])
            && !ConnOf(after, client).inMulti && ConnOf(after, client).watched == map[]
            && (if Refused(client, steps) then reply == ExecAbort && after.space == others
                else if !Unchanged(fp, others, watched) then reply == NilArray && after.space == others
                else && reply.Array?
                     && RunsTo(Sent(client, steps), (others, ConnOf(sv, client).db),
                               (after.space, ConnOf(after, client).db), reply.all))
  {
    var begun := Take(fp, sv, Step(client, Multi));
    TakeMore(fp, sv, [Step(client, Multi)] + steps, Step(client, Exec));
    TakeAfter(fp, sv, Step(client, Multi), steps);
    QueuedHasNoEffect(fp, begun, client, steps);
    assert ConnOf(begun, client).queue + Sent(client, steps) == Sent(client, steps);
    RunsInTurn(TakeAll(fp, begun, Others(client, steps)).space, ConnOf(sv, client).db, Sent(client, steps));
    hide RunsTo, RunAll, Unchanged, TakeAll, Sent, Refused, StillWatched, Others;
  }

  /** `Sent` keeps the order of sending, and takes exactly the data commands of the client; `Others` keeps
      everybody else's steps in theirs. */
  lemma {:induction false} SentInOrder(client: nat, a: seq<Step>, b: seq<Step>)
    ensures Sent(client, a + b) == Sent(client, a) + Sent(client, b)
    ensures Others(client, a + b) == Others(client, a) + Others(client, b)
    decreases b
  {
    if b == [] {
      assert a + b == a;
    } else {
      assert (a + b)[..|a + b| - 1] == a + b[..|b| - 1];
      SentInOrder(client, a, b[..|b| - 1]);
    }
  }

  lemma SentOne(client: nat, step: Step)
    ensures Sent(client, [step])
            == match step.cmd
               case Run(data) => if step.client == client then [data] else []
               case Reset(data) => if step.client == client then [data] else []
               case _ => []
    ensures Others(client, [step]) == if step.client == client then [] else [step]
  {
    assert [step][..0] == [];
  }

  /** DISCARD instead of EXEC: the client's commands never take effect. */
  lemma DiscardedTransaction(fp: Fingerprint, sv: Server, client: nat, steps: seq<Step>)
    requires !ConnOf(sv, client).inMulti
    requires StaysIn(client, steps)
    ensures var begun := Take(fp, sv, Step(client, Multi));
            var after := TakeAll(fp, sv, [Step(client, Multi)] + steps + [Step(client, Discard)]);
            && after.space == TakeAll(fp, begun, Others(client, steps)).space
            && ConnOf(after, client) == Conn(false, false, [], map[], ConnOf(sv, client).db)
  {
    var begun := Take(fp, sv, Step(client, Multi));
    TakeMore(fp, sv, [Step(client, Multi)] + steps, Step(client, Discard));
    TakeAfter(fp, sv, Step(client, Multi), steps);
    QueuedHasNoEffect(fp, begun, client, steps);
  }

  // ------------------------------------------------- counting with WATCH and EXEC

  /** Where a client is in WATCH, GET, MULTI, SET, EXEC; `seen` is what it read, and `at` how many
      increments had succeeded when it began to watch. */
  datatype Phase = Idle | Watching(at: nat) | Read(at: nat, seen: int) | Opened(at: nat, seen: int) | Written(at: nat, seen: int)

  datatype Counting = Counting(server: Server, phases: map<nat, Phase>, wins: nat)

  function PhaseOf(st: Counting, client: nat): Phase {
    if client in st.phases then st.phases[client] else Idle
  }

  function GetCommand(key: Key): Data {
    (s: Space, d: nat) => (s, d, Bulk(if (d, key) in s then Some(s[(d, key)]) else None))
  }

  function SetCommand(key: Key, text: seq<byte>): Data {
    (s: Space, d: nat) => (s[(d, key) := Text(text)], d, Done)
  }

  /** How a client reads the reply to GET: a missing counter counts from zero. */
  function AsNumber(r: Reply): int {
    if r.One? && r.a.Bulk? && r.a.value.Some? && r.a.value.value.Text? then
      match ParseI64(r.a.value.value.s)
      case Some(n) => n
      case None => 0
    else 0
  }

  function NextCommand(key: Key, phase: Phase): Command {
    match phase
    case Idle => Watch([key])
    case Watching(_) => Run(GetCommand(key))
    case Read(_, _) => Multi
    case Opened(_, seen) => Run(SetCommand(key, Render(seen + 1)))
    case Written(_, _) => Exec
  }

  function NextPhase(st: Counting, client: nat, r: Reply): Phase {
    match PhaseOf(st, client)
    case Idle => Watching(st.wins)
    case Watching(at) => Read(at, AsNumber(r))
    case Read(at, seen) => Opened(at, seen)
    case Opened(at, seen) => Written(at, seen)
    case Written(_, _) => Idle
  }

  /** One client sends its next command; an EXEC that does not come back nil is a win. */
  function CountStep(fp: Fingerprint, key: Key, st: Counting, client: nat): Counting {
    var cmd := NextCommand(key, PhaseOf(st, client));
    var (c, s, r) := Handled(fp, ConnOf(st.server, client), st.server.space, cmd);
    Counting(Server(s, st.server.conns[client := c]), st.phases[client := NextPhase(st, client, r)],
             st.wins + if cmd.Exec? && r.Array? then 1 else 0)
  }

  function CountRun(fp: Fingerprint, key: Key, st: Counting, schedule: seq<nat>): Counting {
    if schedule == [] then st
    else CountStep(fp, key, CountRun(fp, key, st, schedule[..|schedule| - 1]), schedule[|schedule| - 1])
  }

  /** What the counter's key holds after `wins` increments of `start`; untouched, it may still be absent. */
  function Holding(start: Option<int>, wins: nat): Option<Value> {
    if wins == 0 && start.None? then None
    else Some(Text(Render((if start.None? then 0 else start.value) + wins)))
  }

  function Lookup(s: Space, key: Key): Option<Value> {
    if (0, key) in s then Some(s[(0, key)]) else None
  }

  function SnapOf(fp: Fingerprint, v: Option<Value>): Snapshot {
    match v
    case None => (false, 0)
    case Some(x) => (true, fp(x))
  }

  /** The hash tells apart the values a counter can take in `limit` increments. */
  ghost predicate Separates(fp: Fingerprint, start: Option<int>, limit: nat) {
    forall a: nat, b: nat ::
      (a <= limit && b <= limit && SnapOf(fp, Holding(start, a)) == SnapOf(fp, Holding(start, b))) ==> a == b
  }

  function Number(start: Option<int>, wins: nat): int {
    (if start.None? then 0 else start.value) + wins
  }

  /** What a client in each phase has established. */
  ghost predicate ClientOk(fp: Fingerprint, key: Key, start: Option<int>, wins: nat, c: Conn, phase: Phase) {
    && c.db == 0 && !c.multiError
    && (phase.Idle? ==> !c.inMulti && c.queue == [] && c.watched == map[])
    && (!phase.Idle? ==> phase.at <= wins && c.watched == map[(0, key) := SnapOf(fp, Holding(start, phase.at))])
    && (phase.Read? || phase.Opened? || phase.Written? ==>
          Number(start, phase.at) <= phase.seen <= Number(start, wins))
    && (phase.Watching? || phase.Read? ==> !c.inMulti && c.queue == [])
    && (phase.Opened? ==> c.inMulti && c.queue == [])
    && (phase.Written? ==> c.inMulti && c.queue == [SetCommand(key, Render(phase.seen + 1))])
  }

  ghost predicate CountOk(fp: Fingerprint, key: Key, start: Option<int>, st: Counting) {
    && Lookup(st.server.space, key) == Holding(start, st.wins)
    && (forall i :: ClientOk(fp, key, start, st.wins, ConnOf(st.server, i), PhaseOf(st, i)))
  }

  ghost predicate InRange(start: Option<int>, limit: nat) {
    -0x8000_0000_0000_0000 <= Number(start, 0) && Number(start, limit) < 0x8000_0000_0000_0000
  }

  lemma HoldingReads(start: Option<int>, wins: nat)
    requires InRange(start, wins)
    ensures AsNumber(One(Bulk(Holding(start, wins)))) == Number(start, wins)
  {
    hide Render, ParseI64;
    I64RoundTrip(Number(start, wins));
  }

  lemma WatchOne(fp: Fingerprint, s: Space, key: Key)
    ensures WatchAll(fp, s, 0, map[], [key]) == map[(0, key) := SnapOf(fp, Lookup(s, key))]
  {
    assert [key][..0] == [];
  }

  lemma RunOne(s: Space, data: Data)
    ensures var (s', d', a) := data(s, 0); RunAll(s, 0, [data]) == (s', d', [a])
  {
    assert [data][..0] == [];
    assert [] + [data(s, 0).2] == [data(s, 0).2];
  }

  /** At EXEC, a watched counter is unchanged only if nobody has incremented it since. */
  lemma UnchangedMeansNoWin(fp: Fingerprint, s: Space, key: Key, start: Option<int>, wins: nat, limit: nat, at: nat)
    requires Separates(fp, start, limit) && at <= wins <= limit
    requires Lookup(s, key) == Holding(start, wins)
    ensures Unchanged(fp, s, map[(0, key) := SnapOf(fp, Holding(start, at))]) <==> at == wins
  {
    hide Holding;
    var watched := map[(0, key) := SnapOf(fp, Holding(start, at))];
    assert Snap(fp, s, (0, key)) == SnapOf(fp, Lookup(s, key));
    assert (0, key) in watched;
  }

  /** The step's effect on the counter and on the client that takes it. */
  lemma OneStep(fp: Fingerprint, key: Key, start: Option<int>, st: Counting, client: nat, limit: nat)
    requires CountOk(fp, key, start, st) && st.wins < limit && Separates(fp, start, limit) && InRange(start, limit)
    ensures var next := CountStep(fp, key, st, client);
            && st.wins <= next.wins <= st.wins + 1
            && Lookup(next.server.space, key) == Holding(start, next.wins)
            && ClientOk(fp, key, start, next.wins, ConnOf(next.server, client), PhaseOf(next, client))
  {
    hide Separates, Render, ParseI64, AsNumber, WatchAll, RunAll, Unchanged, Holding, SnapOf;
    var c, phase := ConnOf(st.server, client), PhaseOf(st, client);
    assert ClientOk(fp, key, start, st.wins, c, phase);
    var s := st.server.space;
    match phase {
      case Idle => WatchOne(fp, s, key);
      case Watching(_) => HoldingReads(start, st.wins);
      case Read(_, _) =>
      case Opened(_, _) => assert c.queue + [SetCommand(key, Render(phase.seen + 1))] == [SetCommand(key, Render(phase.seen + 1))];
      case Written(at, seen) =>
        UnchangedMeansNoWin(fp, s, key, start, st.wins, limit, at);
        HoldingNext(start, st.wins);
        RunOne(s, SetCommand(key, Render(seen + 1)));
    }
  }

  lemma HoldingNext(start: Option<int>, wins: nat)
    ensures Holding(start, wins + 1) == Some(Text(Render(Number(start, wins) + 1)))
  {
    hide Render;
  }

  lemma OthersStay(fp: Fingerprint, key: Key, start: Option<int>, st: Counting, client: nat, i: nat)
    requires CountOk(fp, key, start, st) && i != client
    requires st.wins <= CountStep(fp, key, st, client).wins
    ensures var next := CountStep(fp, key, st, client);
            ClientOk(fp, key, start, next.wins, ConnOf(next.server, i), PhaseOf(next, i))
  {
    hide Handled;
    assert ClientOk(fp, key, start, st.wins, ConnOf(st.server, i), PhaseOf(st, i));
  }

  lemma {:induction false} CountingKeeps(fp: Fingerprint, key: Key, start: Option<int>, st: Counting, schedule: seq<nat>)
    requires CountOk(fp, key, start, st) && st.wins == 0
    requires Separates(fp, start, |schedule|) && InRange(start, |schedule|)
    ensures CountOk(fp, key, start, CountRun(fp, key, st, schedule)) && CountRun(fp, key, st, schedule).wins <= |schedule|
  {
    hide Separates, ClientOk, Holding, InRange, CountStep;
    if schedule != [] {
      Fewer(fp, start, |schedule|);
      var most, client := schedule[..|schedule| - 1], schedule[|schedule| - 1];
      CountingKeeps(fp, key, start, st, most);
      var before := CountRun(fp, key, st, most);
      OneStep(fp, key, start, before, client, |schedule|);
      var after := CountStep(fp, key, before, client);
      forall i: nat
        ensures ClientOk(fp, key, start, after.wins, ConnOf(after.server, i), PhaseOf(after, i))
      {
        if i != client {
          OthersStay(fp, key, start, before, client, i);
        }
      }
    }
  }

  lemma Fewer(fp: Fingerprint, start: Option<int>, limit: nat)
    requires limit > 0 && Separates(fp, start, limit) && InRange(start, limit)
    ensures Separates(fp, start, limit - 1) && InRange(start, limit - 1)
  {}

  /** However any number of clients interleave WATCH, GET, MULTI, SET, EXEC on one counter, no increment
      is lost or doubled: the counter is its start plus the number of EXECs that did not come back nil. */
  lemma NoLostUpdate(fp: Fingerprint, key: Key, start: Option<int>, schedule: seq<nat>)
    requires Separates(fp, start, |schedule|) && InRange(start, |schedule|)
    ensures var empty: Space := map[];
            var s := if start.None? then empty else map[(0, key) := Text(Render(start.value))];
            var end := CountRun(fp, key, Counting(Server(s, map[]), map[], 0), schedule);
            && Lookup(end.server.space, key) == Holding(start, end.wins)
            && AsNumber(One(Bulk(Lookup(end.server.space, key)))) == Number(start, end.wins)
  {
    hide Separates, CountStep;
    var empty: Space := map[];
    var s := if start.None? then empty else map[(0, key) := Text(Render(start.value))];
    var st := Counting(Server(s, map[]), map[], 0);
    CountingKeeps(fp, key, start, st, schedule);
    HoldingReads(start, CountRun(fp, key, st, schedule).wins);
  }
}
