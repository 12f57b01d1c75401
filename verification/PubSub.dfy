/** Publish and subscribe: a shared registry, and each connection's own record of what it listens to. */
module PubSub {
  import opened Bytes
  import Glob

  type Name = seq<byte>
  /** Who listens to each channel, or to each pattern: client ids in order of arrival. */
  type Table = map<Name, seq<nat>>

  predicate NoDuplicates(ids: seq<nat>) {
    forall i, j :: 0 <= i < j < |ids| ==> ids[i] != ids[j]
  }

  /** `retain(|s| s.id != id)`. */
  function Dropped(ids: seq<nat>, id: nat): (r: seq<nat>)
    ensures forall x :: x in r <==> x in ids && x != id
    ensures id !in ids ==> r == ids
  {
    if ids == [] then []
    else if ids[0] == id then Dropped(ids[1..], id)
    else [ids[0]] + Dropped(ids[1..], id)
  }

  lemma {:induction false} DroppedNoDuplicates(ids: seq<nat>, id: nat)
    requires NoDuplicates(ids)
    ensures NoDuplicates(Dropped(ids, id))
  {
    if ids != [] {
      DroppedNoDuplicates(ids[1..], id);
      forall j | 0 <= j < |Dropped(ids[1..], id)|
        ensures Dropped(ids[1..], id)[j] != ids[0]
      {
        assert Dropped(ids[1..], id)[j] in ids[1..];
      }
    }
  }

  function Listed(t: Table, name: Name): seq<nat> {
    if name in t then t[name] else []
  }

  function Added(ids: seq<nat>, id: nat): seq<nat> {
    if id in ids then ids else ids + [id]
  }

  /** `id` listed under every name of `names`; the rest as it was. */
  function AddSet(t: Table, names: set<Name>, id: nat): Table {
    map n | n in t.Keys + names :: if n in names then Added(Listed(t, n), id) else t[n]
  }

  /** `id` no longer listed under any name of `names`; a list left empty goes away. */
  function RemoveSet(t: Table, names: set<Name>, id: nat): Table {
    map n | n in t && (n in names ==> Dropped(t[n], id) != []) :: if n in names then Dropped(t[n], id) else t[n]
  }

  // ------------------------------------------------------------- the program

  class Registry {
    var channels: Table
    var patterns: Table

    constructor ()
      ensures channels == map[] && patterns == map[]
    {
      channels, patterns := map[], map[];
    }

    ghost predicate Valid()
      reads this
    {
      Tidy(channels) && Tidy(patterns)
    }

    function Of(pattern: bool): Table
      reads this
    {
      if pattern then patterns else channels
    }

    method Subscribe(pattern: bool, name: Name, id: nat)
      modifies this
      ensures Of(pattern) == AddSet(old(Of(pattern)), {name}, id) && Of(!pattern) == old(Of(!pattern))
    {
      var t := if pattern then patterns else channels;
      var subs := if name in t then t[name] else [];
      if id !in subs {
        subs := subs + [id];
      }
      assert t[name := subs] == AddSet(t, {name}, id);
      if pattern {
        patterns := patterns[name := subs];
      } else {
        channels := channels[name := subs];
      }
    }

    method Unsubscribe(pattern: bool, name: Name, id: nat)
      modifies this
      ensures Of(pattern) == RemoveSet(old(Of(pattern)), {name}, id) && Of(!pattern) == old(Of(!pattern))
    {
      var t := if pattern then patterns else channels;
      ghost var before := t;
      if name in t {
        var subs := Dropped(t[name], id);
        t := if subs == [] then t - {name} else t[name := subs];
      }
      assert t == RemoveSet(before, {name}, id);
      if pattern {
        patterns := t;
      } else {
        channels := t;
      }
    }

    method RemoveClient(id: nat)
      modifies this
      ensures channels == RemoveSet(old(channels), old(channels).Keys, id)
      ensures patterns == RemoveSet(old(patterns), old(patterns).Keys, id)
    {
      channels := map n | n in channels && Dropped(channels[n], id) != [] :: Dropped(channels[n], id);
      patterns := map n | n in patterns && Dropped(patterns[n], id) != [] :: Dropped(patterns[n], id);
    }

    /** A message goes once to every live listener of the channel and once for every matching pattern;
        the count is how many went out. */
    method Publish(channel: Name, live: set<nat>) returns (count: nat, sends: seq<Send>)
      requires Valid()
      ensures EachOnce(sends, Audience(channels, patterns, channel, live))
      ensures count == |Audience(channels, patterns, channel, live)|
    {
      hide EachOnce, Reached, Pairs, Glob.Matches, NoDuplicates;
      sends := [];
      NothingOnce<Send>();
      NothingReached(channels, patterns, channel, live);
      if channel in channels {
        sends := Deliver(channels[channel], false, channel, live);
      }
      count := |sends|;
      var left := patterns.Keys;
      ghost var all := left;
      assert all - left == {};
      while left != {}
        invariant left <= all
        invariant EachOnce(sends, Reached(channels, patterns, all - left, channel, live)) && count == |sends|
        decreases left
      {
        var pattern: Name :| pattern in left;
        OneFewer(all, left, pattern);
        var more := ForPattern(pattern, channel, live, sends, all - left);
        sends := sends + more;
        count := count + |more|;
        left := left - {pattern};
      }
      assert all - {} == all;
      SameSize(sends, Reached(channels, patterns, patterns.Keys, channel, live));
    }

    /** What one pattern adds to the messages already sent. */
    method ForPattern(pattern: Name, channel: Name, live: set<nat>, ghost sends: seq<Send>, ghost seen: set<Name>)
      returns (more: seq<Send>)
      requires Valid() && pattern in patterns && pattern !in seen
      requires EachOnce(sends, Reached(channels, patterns, seen, channel, live))
      ensures EachOnce(sends + more, Reached(channels, patterns, seen + {pattern}, channel, live))
    {
      hide EachOnce, Reached, Pairs, Glob.Matches, NoDuplicates;
      OnePattern(channels, patterns, seen, pattern, channel, live);
      var matches := Glob.GlobMatch(pattern, channel);
      if !matches {
        assert sends + [] == sends;
        return [];
      }
      more := Deliver(patterns[pattern], true, pattern, live);
      BothOnce(sends, Reached(channels, patterns, seen, channel, live), more, Pairs(patterns[pattern], true, pattern, live));
    }
  }

  /** `s` is some order of the elements of `all`. */
  ghost predicate EachOnce<T>(s: seq<T>, all: set<T>) {
    multiset(s) == multiset(all)
  }

  lemma OneFewer<T>(all: set<T>, left: set<T>, x: T)
    requires left <= all && x in left
    ensures all - (left - {x}) == (all - left) + {x} && x !in all - left
  {}

  lemma NothingOnce<T>()
    ensures EachOnce<T>([], {})
  {}

  lemma BothOnce<T>(s: seq<T>, a: set<T>, more: seq<T>, b: set<T>)
    requires EachOnce(s, a) && EachOnce(more, b) && a !! b
    ensures EachOnce(s + more, a + b)
  {
    DisjointUnion(a, b);
  }

  lemma SameSize<T>(s: seq<T>, all: set<T>)
    requires EachOnce(s, all)
    ensures |s| == |all|
  {
    assert |multiset(s)| == |s| && |multiset(all)| == |all|;
  }

  /** One copy of a message: to whom, whether through a pattern, and which name it was listed under. */
  datatype Send = Send(id: nat, pattern: bool, name: Name)

  function Pairs(ids: seq<nat>, pattern: bool, name: Name, live: set<nat>): set<Send> {
    set id | id in ids && id in live :: Send(id, pattern, name)
  }

  function ByPattern(patterns: Table, among: set<Name>, channel: Name, live: set<nat>): set<Send> {
    set p, id | p in among && p in patterns && Glob.Matches(p, channel) && id in patterns[p] && id in live :: Send(id, true, p)
  }

  /** Everyone who listens to the channel, by itself or by one of the patterns named. */
  function Reached(channels: Table, patterns: Table, among: set<Name>, channel: Name, live: set<nat>): set<Send> {
    Pairs(Listed(channels, channel), false, channel, live) + ByPattern(patterns, among, channel, live)
  }

  function Audience(channels: Table, patterns: Table, channel: Name, live: set<nat>): set<Send> {
    Reached(channels, patterns, patterns.Keys, channel, live)
  }

  lemma DisjointUnion<T>(a: set<T>, b: set<T>)
    requires a !! b
    ensures multiset(a + b) == multiset(a) + multiset(b)
  {}

  lemma PatternStep(patterns: Table, among: set<Name>, p: Name, channel: Name, live: set<nat>)
    requires p in patterns
    ensures ByPattern(patterns, among + {p}, channel, live)
            == ByPattern(patterns, among, channel, live)
               + if Glob.Matches(p, channel) then Pairs(patterns[p], true, p, live) else {}
  {
    hide Glob.Matches;
  }

  lemma OnePattern(channels: Table, patterns: Table, among: set<Name>, p: Name, channel: Name, live: set<nat>)
    requires p in patterns && p !in among
    ensures var before, listed := Reached(channels, patterns, among, channel, live), Pairs(patterns[p], true, p, live);
            && Reached(channels, patterns, among + {p}, channel, live)
               == (if Glob.Matches(p, channel) then before + listed else before)
            && before !! listed
  {
    hide Glob.Matches;
    PatternStep(patterns, among, p, channel, live);
  }

  lemma NothingReached(channels: Table, patterns: Table, channel: Name, live: set<nat>)
    ensures Reached(channels, patterns, {}, channel, live)
            == if channel in channels then Pairs(channels[channel], false, channel, live) else {}
  {}

  method Deliver(ids: seq<nat>, pattern: bool, name: Name, live: set<nat>) returns (sends: seq<Send>)
    requires NoDuplicates(ids)
    ensures EachOnce(sends, Pairs(ids, pattern, name, live))
  {
    hide EachOnce, Pairs, NoDuplicates;
    sends := [];
    NoPairs(pattern, name, live);
    NothingOnce<Send>();
    for i := 0 to |ids|
      invariant EachOnce(sends, Pairs(ids[..i], pattern, name, live))
    {
      MorePairs(ids, i, pattern, name, live);
      if ids[i] in live {
        var x := Send(ids[i], pattern, name);
        OneOnce(x);
        BothOnce(sends, Pairs(ids[..i], pattern, name, live), [x], {x});
        sends := sends + [x];
      }
    }
    assert ids[..|ids|] == ids;
  }

  lemma NoPairs(pattern: bool, name: Name, live: set<nat>)
    ensures Pairs([], pattern, name, live) == {}
  {}

  lemma OneOnce<T>(x: T)
    ensures EachOnce([x], {x})
  {}

  lemma MorePairs(ids: seq<nat>, i: nat, pattern: bool, name: Name, live: set<nat>)
    requires NoDuplicates(ids) && i < |ids|
    ensures var x := Send(ids[i], pattern, name);
            var before := Pairs(ids[..i], pattern, name, live);
            && Pairs(ids[..i + 1], pattern, name, live) == (if ids[i] in live then before + {x} else before)
            && before !! {x}
  {
    assert ids[..i + 1] == ids[..i] + [ids[i]];
    assert ids[i] !in ids[..i];
  }

  // ------------------------------------------------- a connection's commands

  ghost predicate Tidy(t: Table) {
    forall n :: n in t ==> t[n] != [] && NoDuplicates(t[n])
  }

  lemma AddTwice(t: Table, a: set<Name>, b: set<Name>, id: nat)
    ensures AddSet(AddSet(t, a, id), b, id) == AddSet(t, a + b, id)
  {}

  lemma RemoveTwice(t: Table, a: set<Name>, b: set<Name>, id: nat)
    requires Tidy(t)
    ensures RemoveSet(RemoveSet(t, a, id), b, id) == RemoveSet(t, a + b, id)
  {
    hide NoDuplicates;
    forall n | n in t
      ensures Dropped(Dropped(t[n], id), id) == Dropped(t[n], id)
    {}
    assert RemoveSet(RemoveSet(t, a, id), b, id).Keys == RemoveSet(t, a + b, id).Keys;
  }

  function NamesOf(names: seq<Name>): set<Name> {
    set n | n in names
  }

  class Listener {
    const id: nat
    var channels: set<Name>
    var patterns: set<Name>

    constructor (id: nat)
      ensures this.id == id && channels == {} && patterns == {}
    {
      this.id := id;
      channels, patterns := {}, {};
    }

    function Own(pattern: bool): set<Name>
      reads this
    {
      if pattern then patterns else channels
    }

    method Subscribe(hub: Registry, pattern: bool, names: seq<Name>)
      modifies this, hub
      ensures Own(pattern) == old(Own(pattern)) + NamesOf(names) && Own(!pattern) == old(Own(!pattern))
      ensures hub.Of(pattern) == AddSet(old(hub.Of(pattern)), NamesOf(names) - old(Own(pattern)), id)
      ensures hub.Of(!pattern) == old(hub.Of(!pattern))
    {
      ghost var own, table := Own(pattern), hub.Of(pattern);
      assert AddSet(table, {}, id) == table;
      for i := 0 to |names|
        invariant Own(pattern) == own + NamesOf(names[..i]) && Own(!pattern) == old(Own(!pattern))
        invariant hub.Of(pattern) == AddSet(table, NamesOf(names[..i]) - own, id)
        invariant hub.Of(!pattern) == old(hub.Of(!pattern))
      {
        assert names[..i + 1] == names[..i] + [names[i]];
        assert NamesOf(names[..i + 1]) == NamesOf(names[..i]) + {names[i]};
        if names[i] !in (if pattern then patterns else channels) {
          AddTwice(table, NamesOf(names[..i]) - own, {names[i]}, id);
          assert NamesOf(names[..i + 1]) - own == NamesOf(names[..i]) - own + {names[i]};
          if pattern {
            patterns := patterns + {names[i]};
          } else {
            channels := channels + {names[i]};
          }
          hub.Subscribe(pattern, names[i], id);
        } else {
          assert NamesOf(names[..i + 1]) - own == NamesOf(names[..i]) - own;
        }
      }
      assert names[..|names|] == names;
    }

    /** With no names given, everything is unsubscribed. */
    method Unsubscribe(hub: Registry, pattern: bool, names: seq<Name>)
      requires hub.Valid()
      modifies this, hub
      ensures var gone := if names == [] then old(Own(pattern)) else NamesOf(names) * old(Own(pattern));
              && Own(pattern) == old(Own(pattern)) - gone && Own(!pattern) == old(Own(!pattern))
              && hub.Of(pattern) == RemoveSet(old(hub.Of(pattern)), gone, id)
              && hub.Of(!pattern) == old(hub.Of(!pattern))
    {
      ghost var own, table := Own(pattern), hub.Of(pattern);
      ghost var gone := {};
      var mine := if pattern then patterns else channels;
      var left := if names == [] then mine else NamesOf(names) * mine;
      ghost var all := left;
      assert RemoveSet(table, {}, id) == table;
      while left != {}
        invariant left <= Own(pattern) && gone !! left && gone + left == all
        invariant Own(pattern) == own - gone && Own(!pattern) == old(Own(!pattern))
        invariant hub.Of(pattern) == RemoveSet(table, gone, id) && hub.Of(!pattern) == old(hub.Of(!pattern))
        decreases left
      {
        var name: Name :| name in left;
        RemoveTwice(table, gone, {name}, id);
        left := left - {name};
        if pattern {
          patterns := patterns - {name};
        } else {
          channels := channels - {name};
        }
        hub.Unsubscribe(pattern, name, id);
        gone := gone + {name};
      }
    }

    method Reset(hub: Registry)
      requires hub.Valid()
      modifies this, hub
      ensures channels == {} && patterns == {}
      ensures hub.channels == RemoveSet(old(hub.channels), old(channels), id)
      ensures hub.patterns == RemoveSet(old(hub.patterns), old(patterns), id)
    {
      RemoveTidy(hub.channels, channels, id);
      Unsubscribe(hub, false, []);
      assert hub.Of(true) == old(hub.patterns) && Own(true) == old(patterns);
      Unsubscribe(hub, true, []);
      assert hub.Of(!true) == RemoveSet(old(hub.channels), old(channels), id) && Own(!true) == {};
    }

    /** The connection is over. When the loop was left early, the registry is not told. */
    method End(hub: Registry, early: bool)
      modifies this, hub
      ensures channels == {} && patterns == {}
      ensures !early ==> hub.channels == RemoveSet(old(hub.channels), old(hub.channels).Keys, id)
                           && hub.patterns == RemoveSet(old(hub.patterns), old(hub.patterns).Keys, id)
      ensures early ==> hub.channels == old(hub.channels) && hub.patterns == old(hub.patterns)
    {
      channels, patterns := {}, {};
      if early {
        return;
      }
      hub.RemoveClient(id);
    }
  }

  // ------------------------------------------------------------- whole runs

  /** One half of the registry (channels or patterns) with every connection's own half. */
  datatype Side = Side(table: Table, own: map<nat, set<Name>>)

  /** `ended`: connections that are no more. Client ids are never handed out again. */
  datatype Hub = Hub(channels: Side, patterns: Side, ended: set<nat>) {
    function Of(pattern: bool): Side {
      if pattern then patterns else channels
    }
  }

  /** A connection disconnects when its loop ends (peer closed, QUIT, protocol error) and is torn down; it is
      lost when anything leaves the loop early, past the teardown: an I/O error, or a handler that panics. */
  datatype Event =
    | Subscribe(id: nat, pattern: bool, names: seq<Name>)
    | Unsubscribe(id: nat, pattern: bool, names: seq<Name>)
    | Reset(id: nat)
    | Disconnect(id: nat)
    | Lost(id: nat)

  function OwnOf(s: Side, id: nat): set<Name> {
    if id in s.own then s.own[id] else {}
  }

  function Joined(s: Side, id: nat, names: seq<Name>): Side {
    Side(AddSet(s.table, NamesOf(names) - OwnOf(s, id), id), s.own[id := OwnOf(s, id) + NamesOf(names)])
  }

  function Parted(s: Side, id: nat, names: seq<Name>): Side {
    var gone := if names == [] then OwnOf(s, id) else NamesOf(names) * OwnOf(s, id);
    Side(RemoveSet(s.table, gone, id), s.own[id := OwnOf(s, id) - gone])
  }

  function Gone(s: Side, id: nat): Side {
    Side(RemoveSet(s.table, s.table.Keys, id), s.own - {id})
  }

  function Dead(s: Side, id: nat): Side {
    Side(s.table, s.own - {id})
  }

  /** What one event makes of one half; nothing comes from a connection that has ended. */
  function SideStep(s: Side, pattern: bool, e: Event): Side {
    match e
    case Subscribe(id, p, names) => if p == pattern then Joined(s, id, names) else s
    case Unsubscribe(id, p, names) => if p == pattern then Parted(s, id, names) else s
    case Reset(id) => Parted(s, id, [])
    case Disconnect(id) => Gone(s, id)
    case Lost(id) => Dead(s, id)
  }

  function OnEvent(h: Hub, e: Event): Hub {
    if e.id in h.ended then h
    else Hub(SideStep(h.channels, false, e), SideStep(h.patterns, true, e),
             if e.Disconnect? || e.Lost? then h.ended + {e.id} else h.ended)
  }

  function OnEvents(events: seq<Event>): Hub {
    if events == [] then Hub(Side(map[], map[]), Side(map[], map[]), {})
    else OnEvent(OnEvents(events[..|events| - 1]), events[|events| - 1])
  }

  /** The connection was lost at a moment when it listened to the name. */
  ghost predicate LostHolding(events: seq<Event>, pattern: bool, id: nat, n: Name) {
    exists k :: 0 <= k < |events| && events[k] == Lost(id) && n in OwnOf(OnEvents(events[..k]).Of(pattern), id)
  }

  lemma LostHoldingStep(events: seq<Event>, e: Event, pattern: bool, id: nat, n: Name)
    ensures LostHolding(events + [e], pattern, id, n)
            <==> LostHolding(events, pattern, id, n)
                 || (e == Lost(id) && n in OwnOf(OnEvents(events).Of(pattern), id))
  {
    hide OnEvents;
    var all := events + [e];
    assert all[..|events|] == events;
    forall k | 0 <= k < |events|
      ensures all[..k] == events[..k] && all[k] == events[k]
    {}
    assert all[|events|] == e;
    if LostHolding(events, pattern, id, n) {
      var k :| 0 <= k < |events| && events[k] == Lost(id) && n in OwnOf(OnEvents(events[..k]).Of(pattern), id);
      assert all[k] == Lost(id) && n in OwnOf(OnEvents(all[..k]).Of(pattern), id);
    }
  }

  /** Each list is without repetition and none is empty; a client is listed under a name exactly when its own
      set holds the name, or it was lost while it did; and the connections that have ended hold nothing. */
  ghost predicate Reflects(events: seq<Event>, pattern: bool) {
    var h := OnEvents(events);
    var s := h.Of(pattern);
    && Tidy(s.table)
    && s.own.Keys !! h.ended
    && (forall n, id :: id in Listed(s.table, n) <==> n in OwnOf(s, id) || LostHolding(events, pattern, id, n))
    && (forall n, id :: LostHolding(events, pattern, id, n) ==> id in h.ended)
  }

  lemma StepReflects(events: seq<Event>, e: Event, pattern: bool)
    requires Reflects(events, pattern)
    ensures Reflects(events + [e], pattern)
  {
    hide LostHolding, Tidy;
    var h := OnEvents(events);
    assert (events + [e])[..|events|] == events;
    assert OnEvents(events + [e]) == OnEvent(h, e);
    hide OnEvents;
    StepTidy(h.Of(pattern), pattern, e);
    forall n, id
      ensures id in Listed(OnEvent(h, e).Of(pattern).table, n)
              <==> n in OwnOf(OnEvent(h, e).Of(pattern), id) || LostHolding(events + [e], pattern, id, n)
      ensures LostHolding(events + [e], pattern, id, n) ==> id in OnEvent(h, e).ended
    {
      StepAt(events, e, pattern, n, id);
    }
  }

  lemma StepAt(events: seq<Event>, e: Event, pattern: bool, n: Name, x: nat)
    requires Reflects(events, pattern)
    ensures var h := OnEvent(OnEvents(events), e);
            && (x in Listed(h.Of(pattern).table, n)
                <==> n in OwnOf(h.Of(pattern), x) || LostHolding(events + [e], pattern, x, n))
            && (LostHolding(events + [e], pattern, x, n) ==> x in h.ended)
  {
    hide LostHolding, Tidy, OnEvents, Listed;
    var h := OnEvents(events);
    var s := h.Of(pattern);
    LostHoldingStep(events, e, pattern, x, n);
    assert x in Listed(s.table, n) <==> n in OwnOf(s, x) || LostHolding(events, pattern, x, n);
    StepListed(s, pattern, e, n, x);
    StepOwn(s, pattern, e, n, x);
    hide SideStep, OwnOf;
  }

  /** How one event changes whether `x` holds `n`. */
  lemma StepOwn(s: Side, pattern: bool, e: Event, n: Name, x: nat)
    ensures var before, after := n in OwnOf(s, x), n in OwnOf(SideStep(s, pattern, e), x);
            match e
            case Subscribe(id, p, names) => after <==> before || (p == pattern && x == id && n in names)
            case Unsubscribe(id, p, names) =>
              after <==> before && !(p == pattern && x == id && (names == [] || n in names))
            case Reset(id) => after <==> before && x != id
            case Disconnect(id) => after <==> before && x != id
            case Lost(id) => after <==> before && x != id
  {}

  lemma StepTidy(s: Side, pattern: bool, e: Event)
    requires Tidy(s.table)
    ensures Tidy(SideStep(s, pattern, e).table)
  {
    match e {
      case Subscribe(id, p, names) =>
      case Unsubscribe(id, p, names) =>
        RemoveTidy(s.table, if names == [] then OwnOf(s, id) else NamesOf(names) * OwnOf(s, id), id);
      case Reset(id) => RemoveTidy(s.table, OwnOf(s, id), id);
      case Disconnect(id) => RemoveTidy(s.table, s.table.Keys, id);
      case Lost(id) =>
    }
  }

  /** How one event changes whether `x` is listed under `n`. */
  lemma StepListed(s: Side, pattern: bool, e: Event, n: Name, x: nat)
    ensures var before, after := x in Listed(s.table, n), x in Listed(SideStep(s, pattern, e).table, n);
            match e
            case Subscribe(id, p, names) =>
              after <==> before || (p == pattern && x == id && n in NamesOf(names) - OwnOf(s, id))
            case Unsubscribe(id, p, names) =>
              after <==> before && !(p == pattern && x == id && n in OwnOf(s, id) && (names == [] || n in names))
            case Reset(id) => after <==> before && !(x == id && n in OwnOf(s, id))
            case Disconnect(id) => after <==> before && x != id
            case Lost(id) => after <==> before
  {
    match e {
      case Subscribe(id, p, names) =>
      case Unsubscribe(id, p, names) =>
        RemoveListed(s.table, if names == [] then OwnOf(s, id) else NamesOf(names) * OwnOf(s, id), id, n);
      case Reset(id) => RemoveListed(s.table, OwnOf(s, id), id, n);
      case Disconnect(id) => RemoveListed(s.table, s.table.Keys, id, n);
      case Lost(id) =>
    }
  }

  lemma RemoveTidy(t: Table, names: set<Name>, id: nat)
    requires Tidy(t)
    ensures Tidy(RemoveSet(t, names, id))
  {
    forall n | n in t
      ensures NoDuplicates(Dropped(t[n], id))
    {
      DroppedNoDuplicates(t[n], id);
    }
  }

  lemma RemoveListed(t: Table, names: set<Name>, id: nat, n: Name)
    ensures Listed(RemoveSet(t, names, id), n) == if n in names then Dropped(Listed(t, n), id) else Listed(t, n)
  {}

  /** Over every run of subscriptions, RESETs and connections ending either way. */
  lemma {:induction false} AlwaysReflects(events: seq<Event>, pattern: bool)
    ensures Reflects(events, pattern)
  {
    if events == [] {
    } else {
      hide Reflects;
      var init, e := events[..|events| - 1], events[|events| - 1];
      AlwaysReflects(init, pattern);
      StepReflects(init, e, pattern);
      assert init + [e] == events;
    }
  }

  /** A client is listed under a name, once, exactly when its connection says so; no list is empty. */
  ghost predicate Agrees(s: Side) {
    && Tidy(s.table)
    && (forall n, id :: id in Listed(s.table, n) <==> n in OwnOf(s, id))
  }

  /** The registry says what the connections say if and only if none was lost while it listened to something. */
  lemma AgreesExactly(events: seq<Event>, pattern: bool)
    ensures Agrees(OnEvents(events).Of(pattern))
            <==> forall k :: 0 <= k < |events| && events[k].Lost?
                             ==> OwnOf(OnEvents(events[..k]).Of(pattern), events[k].id) == {}
  {
    hide OnEvents, Tidy, Reflects;
    var s := OnEvents(events).Of(pattern);
    if k :| 0 <= k < |events| && events[k].Lost? && OwnOf(OnEvents(events[..k]).Of(pattern), events[k].id) != {} {
      var n :| n in OwnOf(OnEvents(events[..k]).Of(pattern), events[k].id);
      assert events[k] == Lost(events[k].id);
      LostStaysListed(events, [], pattern, events[k].id, n);
      assert events + [] == events;
    } else {
      AlwaysReflects(events, pattern);
      ListedTold(events, pattern);
    }
  }

  lemma ListedTold(events: seq<Event>, pattern: bool)
    requires Reflects(events, pattern)
    requires forall k :: 0 <= k < |events| && events[k].Lost?
                         ==> OwnOf(OnEvents(events[..k]).Of(pattern), events[k].id) == {}
    ensures Agrees(OnEvents(events).Of(pattern))
  {
    hide OnEvents, Tidy;
    var s := OnEvents(events).Of(pattern);
    forall n, id
      ensures id in Listed(s.table, n) <==> n in OwnOf(s, id)
    {
      assert !LostHolding(events, pattern, id, n);
    }
  }

  /** A connection lost while it listened to a name is listed under it for ever, whatever happens afterwards,
      although no connection of that id is left. */
  lemma LostStaysListed(events: seq<Event>, later: seq<Event>, pattern: bool, id: nat, n: Name)
    requires LostHolding(events, pattern, id, n)
    ensures var s := OnEvents(events + later).Of(pattern);
            id in Listed(s.table, n) && n !in OwnOf(s, id) && !Agrees(s)
  {
    hide OnEvents, Tidy;
    var all := events + later;
    AlwaysReflects(all, pattern);
    var k :| 0 <= k < |events| && events[k] == Lost(id) && n in OwnOf(OnEvents(events[..k]).Of(pattern), id);
    assert all[..k] == events[..k] && all[k] == events[k];
    assert LostHolding(all, pattern, id, n);
    assert id in OnEvents(all).ended;
    assert OwnOf(OnEvents(all).Of(pattern), id) == {};
  }

  /** The shortest such run: one subscription, and the connection is lost. */
  lemma LossIsRemembered(id: nat, pattern: bool, n: Name)
    ensures var s := OnEvents([Subscribe(id, pattern, [n]), Lost(id)]).Of(pattern);
            && s.own == map[]
            && s.table == map[n := [id]]
            && !Agrees(s)
  {
    var start := OnEvents([]);
    var first, second := Subscribe(id, pattern, [n]), Lost(id);
    assert [first][..0] == [];
    assert [first, second][..1] == [first];
    var h := OnEvents([first]);
    assert h == OnEvent(start, first);
    assert OnEvents([first, second]) == OnEvent(h, second);
    hide OnEvents, Tidy;
    assert NamesOf([n]) == {n};
    var s := OnEvent(h, second).Of(pattern);
    assert s.own == map[];
    var none: Table := map[];
    assert Added(Listed(none, n), id) == [id];
    assert AddSet(none, {n} - {}, id).Keys == {n};
    assert id in Listed(s.table, n) && n !in OwnOf(s, id);
  }

  /** Whom a message reaches, told from the connections' side alone. The receivers that are alive are those of
      connections that have not ended, so the entries of lost ones cost nothing and are not counted. */
  lemma AudienceIsSubscribers(events: seq<Event>, channel: Name, live: set<nat>, x: Send)
    requires live !! OnEvents(events).ended
    ensures var h := OnEvents(events);
            x in Audience(h.channels.table, h.patterns.table, channel, live)
            <==> x.id in live
                 && if x.pattern then x.name in OwnOf(h.patterns, x.id) && Glob.Matches(x.name, channel)
                    else x.name == channel && channel in OwnOf(h.channels, x.id)
  {
    hide OnEvents, Glob.Matches, Tidy, LostHolding;
    AlwaysReflects(events, false);
    AlwaysReflects(events, true);
    var h := OnEvents(events);
    assert h.Of(false) == h.channels && h.Of(true) == h.patterns;
    assert x.id in live && LostHolding(events, x.pattern, x.id, x.name) ==> x.id in h.ended;
  }

  /** RESET and an orderly end leave a client listed nowhere and disturb nobody else. */
  lemma LeavesNothing(events: seq<Event>, id: nat, pattern: bool, other: nat, n: Name)
    requires id !in OnEvents(events).ended && other != id
    ensures var h := OnEvents(events);
            var before := h.Of(pattern);
            var reset, gone := OnEvent(h, Reset(id)).Of(pattern), OnEvent(h, Disconnect(id)).Of(pattern);
            && id !in Listed(reset.table, n) && id !in Listed(gone.table, n)
            && Dropped(Listed(reset.table, n), id) == Dropped(Listed(before.table, n), id)
            && Dropped(Listed(gone.table, n), id) == Dropped(Listed(before.table, n), id)
            && OwnOf(reset, other) == OwnOf(before, other) && OwnOf(gone, other) == OwnOf(before, other)
  {
    hide OnEvents, Tidy, LostHolding;
    AlwaysReflects(events, pattern);
    var h := OnEvents(events);
    var s := h.Of(pattern);
    assert id in Listed(s.table, n) <==> n in OwnOf(s, id);
    RemoveListed(s.table, OwnOf(s, id), id, n);
    RemoveListed(s.table, s.table.Keys, id, n);
  }
}
