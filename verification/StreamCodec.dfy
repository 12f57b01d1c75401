/** Streams in an RDB image: delta-encoded listpack nodes. */
module StreamCodec {
  import opened Bytes
  import opened Values
  import opened Listing
  import opened Cursor
  import opened Listpack
  import Decimal

  const FLAG_SAMEFIELDS: i64 := 2
  const STREAM_LISTPACKS: byte := 15
  const STREAM_LISTPACKS_2: byte := 19
  const STREAM_LISTPACKS_3: byte := 21

  /** Bit 0 and bit 1 of a two's complement flag word. */
  predicate IsDeleted(flags: i64) {
    flags % 2 == 1
  }

  predicate HasSameFields(flags: i64) {
    flags / 2 % 2 == 1
  }

  function AddWrapping(a: u64, diff: i64): u64 {
    (a + diff) % 0x1_0000_0000_0000_0000
  }

  /** An element as the text Redis would show. */
  function TextOf(e: Element): seq<byte> {
    match e
    case Int(i) => Decimal.Render(i)
    case Str(s) => s
  }

  function Texts(es: seq<Element>): (r: seq<seq<byte>>)
    ensures |r| == |es| && forall i :: 0 <= i < |es| ==> r[i] == TextOf(es[i])
  {
    seq(|es|, i requires 0 <= i < |es| => TextOf(es[i]))
  }

  function Zip(names: seq<seq<byte>>, values: seq<Element>): (r: Fields)
    requires |names| == |values|
  {
    seq(|names|, i requires 0 <= i < |names| => (names[i], TextOf(values[i])))
  }

  function Pairs(flat: seq<Element>): (r: Fields)
    requires |flat| % 2 == 0
  {
    seq(|flat| / 2, i requires 0 <= i < |flat| / 2 => (TextOf(flat[2 * i]), TextOf(flat[2 * i + 1])))
  }

  // ------------------------------------------------------ decoding one node

  function IntAt(es: seq<Element>, i: nat): Result<i64> {
    if i < |es| && es[i].Int? then Ok(es[i].i) else Err(Corrupt)
  }

  /** The master entry: its field names and how many entries follow, live and deleted. */
  function HeadAt(es: seq<Element>): (r: Result<(seq<seq<byte>>, nat)>)
    ensures r.Ok? ==> 4 + |r.value.0| <= |es|
  {
    if IntAt(es, 0).Err? || IntAt(es, 1).Err? || IntAt(es, 2).Err? then Err(Corrupt)
    else
      var count: int, deleted: int, names: int := es[0].i, es[1].i, es[2].i;
      if count < 0 || deleted < 0 || names < 0 || 3 + names > |es| then Err(Corrupt)
      else if IntAt(es, 3 + names) != Ok(0) then Err(Corrupt)
      else
        var total := count + deleted;
        Ok((Texts(es[3..3 + names]), if total < 0x8000_0000_0000_0000 then total else 0x7fff_ffff_ffff_ffff))
  }

  /** One entry: its id, its fields, whether it is live, and where the next one starts. */
  datatype Decoded = Decoded(id: StreamId, fields: Fields, live: bool, next: nat)

  function EntryAt(es: seq<Element>, i: nat, names: seq<seq<byte>>, master: StreamId): Result<Decoded> {
    if IntAt(es, i).Err? || IntAt(es, i + 1).Err? || IntAt(es, i + 2).Err? then Err(Corrupt)
    else
      var flags := es[i].i;
      var id := StreamId(AddWrapping(master.ms, es[i + 1].i), AddWrapping(master.num, es[i + 2].i));
      var at := i + 3;
      if HasSameFields(flags) then
        if at + |names| > |es| then Err(Corrupt)
        else Ok(Decoded(id, Zip(names, es[at..at + |names|]), !IsDeleted(flags), at + |names| + 1))
      else if IntAt(es, at).Err? || es[at].i < 0 then Err(Corrupt)
      else
        var n: int := es[at].i;
        if at + 1 + 2 * n > |es| then Err(Corrupt)
        else Ok(Decoded(id, Pairs(es[at + 1..at + 1 + 2 * n]), !IsDeleted(flags), at + 1 + 2 * n + 1))
  }

  function EntriesFrom(es: seq<Element>, i: nat, left: nat, names: seq<seq<byte>>, master: StreamId)
    : Result<seq<(StreamId, Fields)>>
    decreases left
  {
    if left == 0 then Ok([])
    else match EntryAt(es, i, names, master)
      case Err(e) => Err(e)
      case Ok(d) =>
        match EntriesFrom(es, d.next, left - 1, names, master)
        case Err(e) => Err(e)
        case Ok(rest) => Ok((if d.live then [(d.id, d.fields)] else []) + rest)
  }

  /** The live entries of a node, in the order stored. */
  function NodeEntries(es: seq<Element>, master: StreamId): Result<seq<(StreamId, Fields)>> {
    match HeadAt(es)
    case Err(e) => Err(e)
    case Ok((names, total)) => EntriesFrom(es, 4 + |names|, total, names, master)
  }

  /** `live` already decoded, followed by whatever is left. */
  function Prepend(live: seq<(StreamId, Fields)>, r: Result<seq<(StreamId, Fields)>>)
    : Result<seq<(StreamId, Fields)>>
  {
    match r
    case Err(e) => Err(e)
    case Ok(rest) => Ok(live + rest)
  }

  lemma PrependNothing(r: Result<seq<(StreamId, Fields)>>)
    ensures Prepend([], r) == r
  {
    if r.Ok? {
      assert [] + r.value == r.value;
    }
  }

  lemma PrependStep(live: seq<(StreamId, Fields)>, es: seq<Element>, i: nat, left: nat, names: seq<seq<byte>>,
                    master: StreamId)
    requires left > 0
    ensures Prepend(live, EntriesFrom(es, i, left, names, master)) == match EntryAt(es, i, names, master)
              case Err(e) => Err(e)
              case Ok(d) => Prepend(live + if d.live then [(d.id, d.fields)] else [],
                                    EntriesFrom(es, d.next, left - 1, names, master))
  {
    hide EntryAt;
    match EntryAt(es, i, names, master) {
      case Err(e) =>
      case Ok(d) =>
        var more := if d.live then [(d.id, d.fields)] else [];
        match EntriesFrom(es, d.next, left - 1, names, master) {
          case Err(e) =>
          case Ok(rest) => assert (live + more) + rest == live + (more + rest);
        }
    }
  }

  method ReadNode(es: seq<Element>, master: StreamId, before: map<StreamId, Fields>)
    returns (r: Result<map<StreamId, Fields>>)
    ensures NodeEntries(es, master).Err? ==> r == Err(NodeEntries(es, master).error)
    ensures NodeEntries(es, master).Ok? ==> r == Ok(InsertAll(before, NodeEntries(es, master).value))
  {
    hide EntryAt;
    ghost var live := [];
    var head := HeadAt(es);
    if head.Err? {
      return Err(Corrupt);
    }
    var (names, total) := head.value;
    var entries := before;
    var i: nat := 4 + |names|;
    var done := 0;
    PrependNothing(EntriesFrom(es, i, total, names, master));
    while done < total
      invariant done <= total
      invariant entries == InsertAll(before, live)
      invariant NodeEntries(es, master) == Prepend(live, EntriesFrom(es, i, total - done, names, master))
    {
      PrependStep(live, es, i, total - done, names, master);
      match EntryAt(es, i, names, master) {
        case Err(e) => return Err(e);
        case Ok(d) =>
          i := d.next;
          if d.live {
            entries := entries[d.id := d.fields];
            assert (live + [(d.id, d.fields)])[..|live|] == live;
            live := live + [(d.id, d.fields)];
          } else {
            assert live + [] == live;
          }
      }
      done := done + 1;
    }
    assert live + [] == live;
    r := Ok(entries);
  }

  // -------------------------------------------------- any well-formed node

  /** One stored entry: same-field entries carry values only, the others a flat list of pairs. */
  datatype NodeEntry = NodeEntry(flags: i64, msDiff: i64, seqDiff: i64, payload: seq<Element>, trailer: Element) {
    predicate Valid(names: nat) {
      if HasSameFields(flags) then |payload| == names
      else |payload| % 2 == 0 && |payload| < 0x8000_0000_0000_0000
    }

    function Elements(): seq<Element>
      requires |payload| < 0x8000_0000_0000_0000
    {
      [Int(flags), Int(msDiff), Int(seqDiff)]
      + (if HasSameFields(flags) then payload else [Int(|payload| / 2)] + payload)
      + [trailer]
    }

    function Id(master: StreamId): StreamId {
      StreamId(AddWrapping(master.ms, msDiff), AddWrapping(master.num, seqDiff))
    }

    function FieldPairs(names: seq<seq<byte>>): Fields
      requires Valid(|names|)
    {
      if HasSameFields(flags) then Zip(names, payload) else Pairs(payload)
    }
  }

  predicate ValidEntries(entries: seq<NodeEntry>, names: nat) {
    names < 0x8000_0000_0000_0000 && forall i :: 0 <= i < |entries| ==> entries[i].Valid(names)
  }

  function EntryElements(entries: seq<NodeEntry>, names: nat): seq<Element>
    requires ValidEntries(entries, names)
  {
    if entries == [] then [] else entries[0].Elements() + EntryElements(entries[1..], names)
  }

  function NodeElements(count: i64, deleted: i64, names: seq<Element>, entries: seq<NodeEntry>): seq<Element>
    requires ValidEntries(entries, |names|)
  {
    [Int(count), Int(deleted), Int(|names|)] + names + [Int(0)] + EntryElements(entries, |names|)
  }

  /** The entries a node stands for: exactly those not marked deleted, at master id plus delta. */
  function LiveEntries(entries: seq<NodeEntry>, names: seq<seq<byte>>, master: StreamId): seq<(StreamId, Fields)>
    requires ValidEntries(entries, |names|)
  {
    if entries == [] then []
    else
      var e := entries[0];
      (if IsDeleted(e.flags) then [] else [(e.Id(master), e.FieldPairs(names))])
      + LiveEntries(entries[1..], names, master)
  }

  lemma EntryDecodesAt(es: seq<Element>, i: nat, e: NodeEntry, names: seq<seq<byte>>, master: StreamId)
    requires |names| < 0x8000_0000_0000_0000 && e.Valid(|names|)
    requires i + |e.Elements()| <= |es| && es[i..i + |e.Elements()|] == e.Elements()
    ensures EntryAt(es, i, names, master)
            == Ok(Decoded(e.Id(master), e.FieldPairs(names), !IsDeleted(e.flags), i + |e.Elements()|))
  {
    hide AddWrapping, Zip, Pairs, IsDeleted, HasSameFields;
    var mine := e.Elements();
    assert forall k :: 0 <= k < |mine| ==> es[i + k] == mine[k];
    assert es[i] == mine[0] && es[i + 1] == mine[1] && es[i + 2] == mine[2];
    if HasSameFields(e.flags) {
      assert es[i + 3..i + 3 + |names|] == mine[3..3 + |names|] == e.payload;
    } else {
      assert es[i + 3] == mine[3];
      assert es[i + 4..i + 4 + |e.payload|] == mine[4..4 + |e.payload|] == e.payload;
    }
  }

  lemma {:induction false} EntriesDecode(pre: seq<Element>, entries: seq<NodeEntry>, names: seq<seq<byte>>,
                                         master: StreamId)
    requires ValidEntries(entries, |names|)
    ensures EntriesFrom(pre + EntryElements(entries, |names|), |pre|, |entries|, names, master)
            == Ok(LiveEntries(entries, names, master))
    decreases entries
  {
    hide EntryAt, IsDeleted, NodeEntry.Elements, NodeEntry.Id, NodeEntry.FieldPairs;
    if entries != [] {
      var mine, rest := entries[0].Elements(), EntryElements(entries[1..], |names|);
      var es := pre + EntryElements(entries, |names|);
      assert es == (pre + mine) + rest;
      EntryDecodesAt(es, |pre|, entries[0], names, master);
      EntriesDecode(pre + mine, entries[1..], names, master);
    }
  }

  /** Any node, with any mix of live and deleted, same-field and own-field entries, decodes to its live ones. */
  lemma NodeDecodes(count: i64, deleted: i64, names: seq<Element>, entries: seq<NodeEntry>, master: StreamId)
    requires ValidEntries(entries, |names|)
    requires count >= 0 && deleted >= 0 && count + deleted == |entries| < 0x8000_0000_0000_0000
    ensures NodeEntries(NodeElements(count, deleted, names, entries), master)
            == Ok(LiveEntries(entries, Texts(names), master))
  {
    hide EntriesFrom, LiveEntries, EntryElements;
    var es := NodeElements(count, deleted, names, entries);
    var pre := [Int(count), Int(deleted), Int(|names|)] + names + [Int(0)];
    assert es == pre + EntryElements(entries, |names|);
    assert es[3..3 + |names|] == names;
    assert es[3 + |names|] == Int(0);
    EntriesDecode(pre, entries, Texts(names), master);
  }

  // ------------------------------------------------------- the stream body

  function IdKey(id: StreamId): seq<byte> {
    BE(id.ms, 8) + BE(id.num, 8)
  }

  function IdFromKey(raw: seq<byte>): Option<StreamId> {
    if |raw| != 16 then None
    else
      FromBEFits(raw[..8]);
      FromBEFits(raw[8..]);
      Some(StreamId(FromBE(raw[..8]), FromBE(raw[8..])))
  }

  function Names(fields: Fields): (r: seq<Element>)
    ensures |r| == |fields| && forall i :: 0 <= i < |r| ==> r[i] == Str(fields[i].0)
  {
    seq(|fields|, i requires 0 <= i < |fields| => Str(fields[i].0))
  }

  function FieldValues(fields: Fields): (r: seq<Element>)
    ensures |r| == |fields| && forall i :: 0 <= i < |r| ==> r[i] == Str(fields[i].1)
  {
    seq(|fields|, i requires 0 <= i < |fields| => Str(fields[i].1))
  }

  /** Strings fit a listpack length field, and the container fits memory. */
  predicate WritableFields(fields: Fields) {
    && |fields| < 0x7fff_ffff_ffff_0000
    && (forall i :: 0 <= i < |fields| ==> Encodable(Str(fields[i].0)) && Encodable(Str(fields[i].1)))
    && InMemory(Image(WrittenNode(fields)))
  }

  /** The node written for an entry: it is its own master, at zero distance. */
  function WrittenNode(fields: Fields): seq<Element>
    requires |fields| < 0x7fff_ffff_ffff_0000
  {
    [Int(1), Int(0), Int(|fields|)] + Names(fields) + [Int(0)]
    + ([Int(FLAG_SAMEFIELDS), Int(0), Int(0)] + FieldValues(fields) + [Int(|fields| + 3)])
  }

  function NodeCode(id: StreamId, fields: Fields): seq<byte>
    requires WritableFields(fields)
  {
    StringCode(IdKey(id)) + StringCode(Image(WrittenNode(fields)))
  }

  predicate WritableOrder(order: seq<(StreamId, Fields)>) {
    InMemory(order) && forall i :: 0 <= i < |order| ==> WritableFields(order[i].1)
  }

  function NodesCode(order: seq<(StreamId, Fields)>): seq<byte>
    requires WritableOrder(order)
  {
    if order == [] then [] else NodeCode(order[0].0, order[0].1) + NodesCode(order[1..])
  }

  function CountsCode(ns: seq<u64>): seq<byte> {
    if ns == [] then [] else LengthCode(ns[0]) + CountsCode(ns[1..])
  }

  /** What follows the nodes: length, last id, first id, greatest deleted id, entries added, no groups. */
  function Trailer(order: seq<(StreamId, Fields)>, lastId: StreamId, maxDeletedId: StreamId): seq<u64>
    requires WritableOrder(order)
  {
    var first := if order == [] then MIN_ID else order[0].0;
    [|order|, lastId.ms, lastId.num, first.ms, first.num, maxDeletedId.ms, maxDeletedId.num, |order|, 0]
  }

  function StreamCode(order: seq<(StreamId, Fields)>, lastId: StreamId, maxDeletedId: StreamId): seq<byte>
    requires WritableOrder(order)
  {
    LengthCode(|order|) + NodesCode(order) + CountsCode(Trailer(order, lastId, maxDeletedId))
  }

  // ---------------------------------------------------------------- reading

  function NodeAt(s: seq<byte>): (r: Result<(seq<(StreamId, Fields)>, nat)>)
    ensures r.Ok? ==> 0 < r.value.1 <= |s|
  {
    match StringAt(s)
    case Err(e) => Err(e)
    case Ok((key, a)) =>
      if IdFromKey(key) == None then Err(Corrupt)
      else match StringAt(s[a..])
        case Err(e) => Err(e)
        case Ok((blob, b)) =>
          match Decode(blob)
          case None => Err(Corrupt)
          case Some(es) =>
            match NodeEntries(es, IdFromKey(key).value)
            case Err(e) => Err(e)
            case Ok(live) => Ok((live, a + b))
  }

  function NodesAt(s: seq<byte>, n: nat): (r: Result<(seq<(StreamId, Fields)>, nat)>)
    ensures r.Ok? ==> r.value.1 <= |s|
    decreases n
  {
    if n == 0 then Ok(([], 0))
    else match NodeAt(s)
      case Err(e) => Err(e)
      case Ok((live, a)) =>
        match NodesAt(s[a..], n - 1)
        case Err(e) => Err(e)
        case Ok((rest, b)) => Ok((live + rest, a + b))
  }

  function CountsAt(s: seq<byte>, n: nat): (r: Result<(seq<u64>, nat)>)
    ensures r.Ok? ==> |r.value.0| == n && r.value.1 <= |s|
    decreases n
  {
    if n == 0 then Ok(([], 0))
    else match CountAt(s)
      case Err(e) => Err(e)
      case Ok((c, a)) =>
        match CountsAt(s[a..], n - 1)
        case Err(e) => Err(e)
        case Ok((rest, b)) => Ok(([c] + rest, a + b))
  }

  /** A stream value. Consumer groups are outside the model: any at all ends in `Unmodelled`. */
  function StreamAt(s: seq<byte>, typeCode: byte): (r: Result<(Stream, nat)>)
    ensures r.Ok? ==> r.value.1 <= |s|
  {
    match CountAt(s)
    case Err(e) => Err(e)
    case Ok((nodes, a)) =>
      match NodesAt(s[a..], nodes)
      case Err(e) => Err(e)
      case Ok((live, b)) =>
        var extended := typeCode >= STREAM_LISTPACKS_2;
        match CountsAt(s[a + b..], if extended then 9 else 4)
        case Err(e) => Err(e)
        case Ok((ns, c)) =>
          if ns[|ns| - 1] != 0 then Err(Unmodelled)
          else
            var deleted := if extended then StreamId(ns[5], ns[6]) else MIN_ID;
            Ok((Stream(InsertAll(map[], live), StreamId(ns[1], ns[2]), deleted), a + b + c))
  }

  method PutStream(out: Buffer, order: seq<(StreamId, Fields)>, lastId: StreamId, maxDeletedId: StreamId)
    requires WritableOrder(order)
    modifies out
    ensures out.bytes == old(out.bytes) + StreamCode(order, lastId, maxDeletedId)
  {
    hide LengthCode, NodeCode, WritableFields;
    PutLength(out, |order|);
    assert order[..|order|] == order && order[..0] == [];
    for k := 0 to |order|
      invariant out.bytes == old(out.bytes) + (LengthCode(|order|) + NodesCode(order[..k]))
    {
      NodesCodeSnoc(order[..k], order[k]);
      assert order[..k + 1] == order[..k] + [order[k]];
      PutNode(out, order[k].0, order[k].1);
    }
    var first := if order == [] then MIN_ID else order[0].0;
    PutCounts(out, [|order|, lastId.ms, lastId.num, first.ms, first.num, maxDeletedId.ms, maxDeletedId.num,
                    |order|, 0]);
  }

  method PutCounts(out: Buffer, ns: seq<u64>)
    modifies out
    ensures out.bytes == old(out.bytes) + CountsCode(ns)
    decreases ns
  {
    hide LengthCode;
    if ns != [] {
      PutLength(out, ns[0]);
      PutCounts(out, ns[1..]);
    }
  }

  lemma {:induction false} NodesCodeSnoc(order: seq<(StreamId, Fields)>, last: (StreamId, Fields))
    requires WritableOrder(order) && WritableOrder(order + [last]) && WritableFields(last.1)
    ensures NodesCode(order + [last]) == NodesCode(order) + NodeCode(last.0, last.1)
  {
    hide NodeCode, WritableFields;
    var longer := order + [last];
    if order == [] {
      assert longer[1..] == [];
    } else {
      assert longer[1..] == order[1..] + [last];
      NodesCodeSnoc(order[1..], last);
    }
  }

  method PutNode(out: Buffer, id: StreamId, fields: Fields)
    requires WritableFields(fields)
    modifies out
    ensures out.bytes == old(out.bytes) + NodeCode(id, fields)
  {
    hide WrittenNode, Image, StringCode;
    PutRawString(out, IdKey(id));
    var image := BuildNode(fields);
    PutRawString(out, image);
  }

  method BuildNode(fields: Fields) returns (image: seq<byte>)
    requires WritableFields(fields)
    ensures image == Image(WrittenNode(fields))
  {
    hide Image;
    var lp := new ListpackWriter();
    PushMaster(lp, fields);
    PushEntry(lp, fields);
    image := lp.Finish();
  }

  method PushMaster(lp: ListpackWriter, fields: Fields)
    requires lp.Valid() && lp.contents == [] && WritableFields(fields)
    modifies lp
    ensures lp.Valid() && lp.contents == [Int(1), Int(0), Int(|fields|)] + Names(fields) + [Int(0)]
  {
    hide Body;
    lp.PushInt(1);
    lp.PushInt(0);
    lp.PushInt(|fields|);
    PushStrs(lp, Names(fields));
    lp.PushInt(0);
  }

  method PushEntry(lp: ListpackWriter, fields: Fields)
    requires lp.Valid() && WritableFields(fields)
    modifies lp
    ensures lp.Valid()
    ensures lp.contents == old(lp.contents)
                           + ([Int(FLAG_SAMEFIELDS), Int(0), Int(0)] + FieldValues(fields) + [Int(|fields| + 3)])
  {
    hide Body;
    lp.PushInt(FLAG_SAMEFIELDS);
    lp.PushInt(0);
    lp.PushInt(0);
    PushStrs(lp, FieldValues(fields));
    lp.PushInt(|fields| + 3);
  }

  method PushStrs(lp: ListpackWriter, es: seq<Element>)
    requires lp.Valid() && AllEncodable(es) && forall i :: 0 <= i < |es| ==> es[i].Str?
    modifies lp
    ensures lp.Valid() && lp.contents == old(lp.contents) + es
  {
    hide Body;
    for k := 0 to |es|
      invariant lp.Valid() && lp.contents == old(lp.contents) + es[..k]
    {
      lp.PushStr(es[k].s);
    }
  }

  method ReadStream(r: Reader, typeCode: byte) returns (result: Result<Stream>)
    requires r.Valid()
    modifies r
    ensures r.Valid() && Consumed(StreamAt(old(r.Rest()), typeCode), result, old(r.pos), r.pos)
  {
    hide CountAt, NodesAt, CountsAt, InsertAll;
    ghost var start, s := r.pos, r.Rest();
    var nodes := r.Count();
    if nodes.Err? {
      return Err(nodes.error);
    }
    ghost var a := r.pos - start;
    assert r.Rest() == s[a..];
    var entries, live := ReadNodes(r, nodes.value);
    if entries.Err? {
      return Err(entries.error);
    }
    ghost var b := r.pos - start - a;
    assert r.Rest() == s[a + b..];
    var extended := typeCode >= STREAM_LISTPACKS_2;
    var ns := ReadCounts(r, if extended then 9 else 4);
    if ns.Err? {
      return Err(ns.error);
    }
    var counts := ns.value;
    if counts[|counts| - 1] != 0 {
      return Err(Unmodelled);
    }
    var deleted := if extended then StreamId(counts[5], counts[6]) else MIN_ID;
    return Ok(Stream(entries.value, StreamId(counts[1], counts[2]), deleted));
  }

  method ReadCounts(r: Reader, n: nat) returns (result: Result<seq<u64>>)
    requires r.Valid()
    modifies r
    ensures r.Valid() && Consumed(CountsAt(old(r.Rest()), n), result, old(r.pos), r.pos)
    ensures result.Ok? ==> |result.value| == n
    decreases n
  {
    if n == 0 {
      return Ok([]);
    }
    ghost var start, s := r.pos, r.Rest();
    var c := r.Count();
    if c.Err? {
      return Err(c.error);
    }
    assert r.Rest() == s[r.pos - start..];
    var rest := ReadCounts(r, n - 1);
    if rest.Err? {
      return Err(rest.error);
    }
    return Ok([c.value] + rest.value);
  }

  method ReadNodes(r: Reader, n: nat)
    returns (result: Result<map<StreamId, Fields>>, ghost live: seq<(StreamId, Fields)>)
    requires r.Valid()
    modifies r
    ensures r.Valid()
    ensures match NodesAt(old(r.Rest()), n)
            case Err(e) => result == Err(e)
            case Ok((order, used)) =>
              live == order && result == Ok(InsertAll(map[], live)) && r.pos == old(r.pos) + used
  {
    hide NodeAt, NodesAt, InsertAll, NodesAfter;
    ghost var start := r.pos;
    ghost var goal := NodesAfter([], start, NodesAt(r.Rest(), n));
    NodesGoal(NodesAt(r.Rest(), n), start);
    live := [];
    var entries: map<StreamId, Fields> := map[];
    InsertNothing(entries);
    var done := 0;
    while done < n
      invariant done <= n && r.Valid()
      invariant entries == InsertAll(map[], live)
      invariant goal == NodesAfter(live, r.pos, NodesAt(r.Rest(), n - done))
    {
      NodesStep(r.buf, r.pos, n - done, live);
      var more, order := ReadOneNode(r, entries);
      if more.Err? {
        return Err(more.error), live;
      }
      InsertAllConcat(map[], live, order);
      entries := more.value;
      live := live + order;
      done := done + 1;
    }
    NodesDone(r.buf, r.pos, live);
    result := Ok(entries);
  }

  method ReadOneNode(r: Reader, before: map<StreamId, Fields>)
    returns (result: Result<map<StreamId, Fields>>, ghost live: seq<(StreamId, Fields)>)
    requires r.Valid()
    modifies r
    ensures r.Valid() && (result.Ok? ==> r.pos >= old(r.pos))
    ensures match NodeAt(old(r.Rest()))
            case Err(e) => result == Err(e)
            case Ok((order, used)) =>
              live == order && result == Ok(InsertAll(before, live)) && r.pos == old(r.pos) + used
  {
    live := [];
    ghost var start, s := r.pos, r.Rest();
    var key := r.String();
    if key.Err? {
      return Err(key.error), live;
    }
    var master := IdFromKey(key.value);
    if master.None? {
      return Err(Corrupt), live;
    }
    assert r.Rest() == s[r.pos - start..];
    var blob := r.String();
    if blob.Err? {
      return Err(blob.error), live;
    }
    var es := ReadListpack(blob.value);
    if es.None? {
      return Err(Corrupt), live;
    }
    result := ReadNode(es.value, master.value, before);
    if result.Ok? {
      live := NodeEntries(es.value, master.value).value;
    }
  }

  /** The nodes still to come, after `live` from the first `used` bytes. */
  function NodesAfter(live: seq<(StreamId, Fields)>, used: nat, r: Result<(seq<(StreamId, Fields)>, nat)>)
    : Result<(seq<(StreamId, Fields)>, nat)>
  {
    match r
    case Err(e) => Err(e)
    case Ok((rest, n)) => Ok((live + rest, used + n))
  }

  lemma NodesDone(s: seq<byte>, at: nat, live: seq<(StreamId, Fields)>)
    requires at <= |s|
    ensures NodesAfter(live, at, NodesAt(s[at..], 0)) == Ok((live, at))
  {
    assert live + [] == live;
  }

  /** Reading nodes from `start` on, told by absolute positions. */
  lemma NodesGoal(r: Result<(seq<(StreamId, Fields)>, nat)>, start: nat)
    ensures NodesAfter([], start, r) == match r
              case Err(e) => Err(e)
              case Ok((live, used)) => Ok((live, start + used))
  {
    if r.Ok? {
      assert [] + r.value.0 == r.value.0;
    }
  }

  lemma NodesStep(s: seq<byte>, at: nat, left: nat, live: seq<(StreamId, Fields)>)
    requires at <= |s| && left > 0
    ensures NodesAfter(live, at, NodesAt(s[at..], left)) == match NodeAt(s[at..])
              case Err(e) => Err(e)
              case Ok((order, used)) => NodesAfter(live + order, at + used, NodesAt(s[at + used..], left - 1))
  {
    hide NodeAt;
    match NodeAt(s[at..]) {
      case Err(e) =>
      case Ok((order, used)) =>
        assert s[at..][used..] == s[at + used..];
        match NodesAt(s[at + used..], left - 1) {
          case Err(e) =>
          case Ok((rest, n)) => assert (live + order) + rest == live + (order + rest);
        }
    }
  }

  // ------------------------------------------------------------- properties

  lemma WrittenNodeDecodes(id: StreamId, fields: Fields)
    requires WritableFields(fields)
    ensures NodeEntries(WrittenNode(fields), id) == Ok([(id, fields)])
  {
    hide NodeEntries, EntryElements, LiveEntries;
    var only := NodeEntry(FLAG_SAMEFIELDS, 0, 0, FieldValues(fields), Int(|fields| + 3));
    var names := Names(fields);
    OneEntry(only, Texts(names), id);
    assert NodeElements(1, 0, names, [only]) == WrittenNode(fields);
    NodeDecodes(1, 0, names, [only], id);
    assert only.FieldPairs(Texts(names)) == fields;
  }

  lemma OneEntry(e: NodeEntry, names: seq<seq<byte>>, master: StreamId)
    requires ValidEntries([e], |names|) && !IsDeleted(e.flags) && |e.payload| < 0x8000_0000_0000_0000
    requires e.Valid(|names|)
    ensures EntryElements([e], |names|) == e.Elements()
    ensures LiveEntries([e], names, master) == [(e.Id(master), e.FieldPairs(names))]
  {
    assert [e][1..] == [];
  }

  lemma KeyRoundTrip(id: StreamId)
    ensures IdFromKey(IdKey(id)) == Some(id)
  {
    var key := IdKey(id);
    assert key[..8] == BE(id.ms, 8) && key[8..] == BE(id.num, 8);
    Pow256Values();
    BERoundTrip(id.ms, 8);
    BERoundTrip(id.num, 8);
  }

  lemma NodeRoundTrip(id: StreamId, fields: Fields, rest: seq<byte>)
    requires WritableFields(fields)
    ensures NodeAt(NodeCode(id, fields) + rest) == Ok(([(id, fields)], |NodeCode(id, fields)|))
  {
    hide StringAt, StringCode, Decode, Image, NodeEntries;
    var image := Image(WrittenNode(fields));
    var a, b := StringCode(IdKey(id)), StringCode(image);
    var s := NodeCode(id, fields) + rest;
    assert s == a + (b + rest);
    StringRoundTrip(IdKey(id), b + rest);
    assert s[|a|..] == b + rest;
    StringRoundTrip(image, rest);
    KeyRoundTrip(id);
    RoundTrip(WrittenNode(fields), []);
    assert image + [] == image;
    WrittenNodeDecodes(id, fields);
  }

  lemma {:induction false} NodesRoundTrip(order: seq<(StreamId, Fields)>, rest: seq<byte>)
    requires WritableOrder(order)
    ensures NodesAt(NodesCode(order) + rest, |order|) == Ok((order, |NodesCode(order)|))
    decreases order
  {
    hide NodeAt, NodeCode, WritableFields;
    if order != [] {
      var mine, others := NodeCode(order[0].0, order[0].1), NodesCode(order[1..]) + rest;
      var s := NodesCode(order) + rest;
      assert s == mine + others;
      NodeRoundTrip(order[0].0, order[0].1, others);
      assert s[|mine|..] == others;
      NodesRoundTrip(order[1..], rest);
      assert [order[0]] + order[1..] == order;
    }
  }

  lemma {:induction false} CountsRoundTrip(ns: seq<u64>, rest: seq<byte>)
    ensures CountsAt(CountsCode(ns) + rest, |ns|) == Ok((ns, |CountsCode(ns)|))
    decreases ns
  {
    hide CountAt, LengthCode;
    if ns != [] {
      var mine, others := LengthCode(ns[0]), CountsCode(ns[1..]) + rest;
      var s := CountsCode(ns) + rest;
      assert s == mine + others;
      CountRoundTrip(ns[0], others);
      assert s[|mine|..] == others;
      CountsRoundTrip(ns[1..], rest);
      assert [ns[0]] + ns[1..] == ns;
    }
  }

  lemma StreamDecodes(order: seq<(StreamId, Fields)>, lastId: StreamId, maxDeletedId: StreamId, rest: seq<byte>)
    requires WritableOrder(order)
    ensures var code := StreamCode(order, lastId, maxDeletedId);
            StreamAt(code + rest, STREAM_LISTPACKS_2)
            == Ok((Stream(InsertAll(map[], order), lastId, maxDeletedId), |code|))
  {
    hide CountAt, LengthCode, NodesAt, NodesCode, CountsAt, CountsCode, InsertAll;
    var ns := Trailer(order, lastId, maxDeletedId);
    var a, b, c := LengthCode(|order|), NodesCode(order), CountsCode(ns);
    var s := StreamCode(order, lastId, maxDeletedId) + rest;
    assert s == a + (b + (c + rest));
    CountRoundTrip(|order|, b + (c + rest));
    assert s[|a|..] == b + (c + rest);
    NodesRoundTrip(order, c + rest);
    assert s[|a| + |b|..] == c + rest;
    CountsRoundTrip(ns, rest);
  }

  /** Writing any stream and reading it back restores every entry, its fields in order, and both ids. */
  lemma StreamRoundTrip(stream: Stream, order: seq<(StreamId, Fields)>, rest: seq<byte>)
    requires Lists(order, stream.entries) && WritableOrder(order)
    ensures var code := StreamCode(order, stream.lastId, stream.maxDeletedId);
            StreamAt(code + rest, STREAM_LISTPACKS_2) == Ok((stream, |code|))
  {
    StreamDecodes(order, stream.lastId, stream.maxDeletedId, rest);
    InsertingListing(order, stream.entries);
  }

  // ------------------------------------------------- the format, piece by piece

  /** The node written for an entry: one live item, none deleted, the names, a zero; then flags, zero distances, the
      values, and how many elements that was. */
  lemma WrittenLayout(fields: Fields)
    requires |fields| < 0x7fff_ffff_ffff_0000
    ensures var es, n := WrittenNode(fields), |fields|;
            && |es| == 8 + 2 * n
            && es[0] == Int(1) && es[1] == Int(0) && es[2] == Int(n) && es[3 + n] == Int(0)
            && es[4 + n] == Int(2) && es[5 + n] == Int(0) && es[6 + n] == Int(0) && es[7 + 2 * n] == Int(n + 3)
            && forall i :: 0 <= i < n ==> es[3 + i] == Str(fields[i].0) && es[7 + n + i] == Str(fields[i].1)
  {
    hide Names, FieldValues;
    var n := |fields|;
    var a, b, e := [Int(1), Int(0), Int(n)], [Int(0), Int(2), Int(0), Int(0)], [Int(n + 3)];
    var names, values := Names(fields), FieldValues(fields);
    WrittenParts(fields);
    NamesAndValues(fields);
    hide WrittenNode;
    FiveParts(a, names, b, values, e);
    assert a[0] == Int(1) && a[1] == Int(0) && a[2] == Int(n) && e[0] == Int(n + 3);
    assert b[0] == Int(0) && b[1] == Int(2) && b[2] == Int(0) && b[3] == Int(0);
  }

  lemma WrittenParts(fields: Fields)
    requires |fields| < 0x7fff_ffff_ffff_0000
    ensures WrittenNode(fields) == [Int(1), Int(0), Int(|fields|)] + Names(fields) + [Int(0), Int(2), Int(0), Int(0)]
                                   + FieldValues(fields) + [Int(|fields| + 3)]
  {
    hide Names, FieldValues;
    assert [Int(0)] + [Int(2), Int(0), Int(0)] == [Int(0), Int(2), Int(0), Int(0)];
  }

  lemma NamesAndValues(fields: Fields)
    ensures |Names(fields)| == |FieldValues(fields)| == |fields|
    ensures forall i :: 0 <= i < |fields| ==> Names(fields)[i] == Str(fields[i].0) && FieldValues(fields)[i] == Str(fields[i].1)
  {}

  lemma FiveParts<T>(a: seq<T>, b: seq<T>, c: seq<T>, d: seq<T>, e: seq<T>)
    ensures var s := a + b + c + d + e;
            && |s| == |a| + |b| + |c| + |d| + |e|
            && (forall i :: 0 <= i < |a| ==> s[i] == a[i])
            && (forall i :: 0 <= i < |b| ==> s[|a| + i] == b[i])
            && (forall i :: 0 <= i < |c| ==> s[|a| + |b| + i] == c[i])
            && (forall i :: 0 <= i < |d| ==> s[|a| + |b| + |c| + i] == d[i])
            && (forall i :: 0 <= i < |e| ==> s[|a| + |b| + |c| + |d| + i] == e[i])
  {}

  /** Its key: milliseconds, then sequence, as sixteen big-endian bytes; a key of any other length is none. */
  lemma KeyLayout(id: StreamId, raw: seq<byte>)
    ensures |IdKey(id)| == 16 && FromBE(IdKey(id)[..8]) == id.ms && FromBE(IdKey(id)[8..]) == id.num
    ensures |raw| != 16 ==> IdFromKey(raw) == None
  {
    KeyRoundTrip(id);
  }

  /** The number of nodes; each node as key and listpack, in order; then nine numbers. */
  lemma StreamLayout(order: seq<(StreamId, Fields)>, last: StreamId, deleted: StreamId)
    requires WritableOrder(order)
    ensures var first := if order == [] then StreamId(0, 0) else order[0].0;
            StreamCode(order, last, deleted)
            == LengthCode(|order|) + NodesCode(order)
               + (LengthCode(|order|) + (LengthCode(last.ms) + (LengthCode(last.num) + (LengthCode(first.ms) + (LengthCode(first.num)
                  + (LengthCode(deleted.ms) + (LengthCode(deleted.num) + (LengthCode(|order|) + LengthCode(0)))))))))
  {
    hide LengthCode, NodesCode;
    var ns := Trailer(order, last, deleted);
    NineCounts(ns);
  }

  lemma NineCounts(ns: seq<u64>)
    requires |ns| == 9
    ensures CountsCode(ns)
            == LengthCode(ns[0]) + (LengthCode(ns[1]) + (LengthCode(ns[2]) + (LengthCode(ns[3]) + (LengthCode(ns[4])
               + (LengthCode(ns[5]) + (LengthCode(ns[6]) + (LengthCode(ns[7]) + LengthCode(ns[8]))))))))
  {
    hide LengthCode;
    CountsTail(ns, 1);
    CountsTail(ns, 2);
    CountsTail(ns, 3);
    CountsTail(ns, 4);
    CountsTail(ns, 5);
    CountsTail(ns, 6);
    CountsTail(ns, 7);
    CountsTail(ns, 8);
    assert ns[9..] == [];
    assert LengthCode(ns[8]) + [] == LengthCode(ns[8]);
  }

  lemma CountsTail(ns: seq<u64>, k: nat)
    requires k < |ns|
    ensures CountsCode(ns[k..]) == LengthCode(ns[k]) + CountsCode(ns[k + 1..])
    ensures CountsCode(ns) == LengthCode(ns[0]) + CountsCode(ns[1..])
  {
    hide LengthCode;
    assert ns[k..][1..] == ns[k + 1..];
  }

  lemma NodesInOrder(order: seq<(StreamId, Fields)>, id: StreamId, fields: Fields)
    requires WritableOrder(order) && WritableFields(fields) && WritableOrder(order + [(id, fields)])
    ensures NodesCode(order + [(id, fields)])
            == NodesCode(order) + (StringCode(IdKey(id)) + StringCode(Image(WrittenNode(fields))))
  {
    NodesCodeSnoc(order, (id, fields));
  }

  /** The lowest flag bit marks a deleted entry, the next one an entry without names of its own. */
  lemma FlagBits(high: int, same: bool, deleted: bool)
    requires -0x1000_0000_0000_0000 <= high < 0x1000_0000_0000_0000
    ensures var flags := 4 * high + (if same then 2 else 0) + (if deleted then 1 else 0);
            (IsDeleted(flags) <==> deleted) && (HasSameFields(flags) <==> same)
  {}

  /** Ids are at a signed distance from the master id, wrapping at 64 bits in each half. */
  lemma Distance(a: u64, diff: i64)
    ensures 0 <= a + diff < 0x1_0000_0000_0000_0000 ==> AddWrapping(a, diff) == a + diff
    ensures a + diff < 0 ==> AddWrapping(a, diff) == a + diff + 0x1_0000_0000_0000_0000
    ensures a + diff >= 0x1_0000_0000_0000_0000 ==> AddWrapping(a, diff) == a + diff - 0x1_0000_0000_0000_0000
  {}

  /** Values take the names in order; a flat list alternates names and values; numbers become their text. */
  lemma FieldsInOrder(names: seq<seq<byte>>, values: seq<Element>, flat: seq<Element>, i: nat)
    requires |names| == |values| && |flat| % 2 == 0
    ensures |Zip(names, values)| == |names| && |Pairs(flat)| == |flat| / 2
    ensures i < |names| && values[i].Str? ==> Zip(names, values)[i] == (names[i], values[i].s)
    ensures i < |names| && values[i].Int? ==> Zip(names, values)[i] == (names[i], Decimal.Render(values[i].i))
    ensures i < |flat| / 2 && flat[2 * i].Str? ==> Pairs(flat)[i].0 == flat[2 * i].s
    ensures i < |flat| / 2 && flat[2 * i].Int? ==> Pairs(flat)[i].0 == Decimal.Render(flat[2 * i].i)
    ensures i < |flat| / 2 && flat[2 * i + 1].Str? ==> Pairs(flat)[i].1 == flat[2 * i + 1].s
    ensures i < |flat| / 2 && flat[2 * i + 1].Int? ==> Pairs(flat)[i].1 == Decimal.Render(flat[2 * i + 1].i)
  {}

  /** A node is read only when its counters and its number of names are not negative, the names are there, and a zero
      closes the master entry. */
  lemma HeadExactly(es: seq<Element>)
    ensures HeadAt(es).Ok? <==>
              && |es| >= 4 && es[0].Int? && es[1].Int? && es[2].Int?
              && es[0].i >= 0 && es[1].i >= 0 && 0 <= es[2].i && es[2].i + 4 <= |es| && es[3 + es[2].i] == Int(0)
    ensures HeadAt(es).Ok? ==>
              HeadAt(es).value.1 == if es[0].i + es[1].i > 9223372036854775807 then 9223372036854775807 else es[0].i + es[1].i
    ensures HeadAt(es).Err? ==> HeadAt(es) == Err(Corrupt)
  {}

  /** An entry is read only when its three numbers and all its values, or its count and all its pairs, are there. */
  lemma EntryExactly(es: seq<Element>, i: nat, names: seq<seq<byte>>, master: StreamId)
    ensures EntryAt(es, i, names, master).Ok? <==>
              && i + 3 <= |es| && es[i].Int? && es[i + 1].Int? && es[i + 2].Int?
              && if HasSameFields(es[i].i) then i + 3 + |names| <= |es|
                 else i + 3 < |es| && es[i + 3].Int? && 0 <= es[i + 3].i && i + 4 + 2 * es[i + 3].i <= |es|
    ensures EntryAt(es, i, names, master).Err? ==> EntryAt(es, i, names, master) == Err(Corrupt)
  {}

  /** The oldest type has no first id, greatest deleted id or counter of additions; the newest reads like the one that
      is written. Any consumer group ends in `Unmodelled`. */
  lemma OtherTypesRead(order: seq<(StreamId, Fields)>, length: u64, last: StreamId, groups: u64, s: seq<byte>, rest: seq<byte>)
    requires WritableOrder(order)
    ensures var code := LengthCode(|order|) + NodesCode(order) + CountsCode([length, last.ms, last.num, groups]);
            StreamAt(code + rest, 15) == if groups == 0 then Ok((Stream(InsertAll(map[], order), last, StreamId(0, 0)), |code|))
                                         else Err(Unmodelled)
    ensures StreamAt(s, 21) == StreamAt(s, 19)
  {
    hide CountAt, LengthCode, NodesAt, NodesCode, CountsAt, CountsCode, InsertAll;
    var ns := [length, last.ms, last.num, groups];
    var a, b, c := LengthCode(|order|), NodesCode(order), CountsCode(ns);
    var code := a + b + c + rest;
    assert code == a + (b + (c + rest));
    CountRoundTrip(|order|, b + (c + rest));
    assert code[|a|..] == b + (c + rest);
    NodesRoundTrip(order, c + rest);
    assert code[|a| + |b|..] == c + rest;
    CountsRoundTrip(ns, rest);
  }
}
