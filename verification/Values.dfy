/** What a database stores: values, stream ids, and entries with an optional expiry. */
module Values {
  import opened Bytes

  /** A stream entry id, ordered by `ms`, then `num` (`seq` in the source). */
  datatype StreamId = StreamId(ms: u64, num: u64) {
    predicate Less(other: StreamId) {
      ms < other.ms || (ms == other.ms && num < other.num)
    }

    predicate AtMost(other: StreamId) {
      this == other || Less(other)
    }
  }

  const MIN_ID := StreamId(0, 0)
  const MAX_ID := StreamId(0xffff_ffff_ffff_ffff, 0xffff_ffff_ffff_ffff)

  type Fields = seq<(seq<byte>, seq<byte>)>

  datatype Stream = Stream(entries: map<StreamId, Fields>, lastId: StreamId, maxDeletedId: StreamId)

  /** Sorted-set scores are their 64-bit patterns here; only the codec looks at them. */
  datatype Value =
    | Text(s: seq<byte>)
    | List(items: seq<seq<byte>>)
    | Set(members: set<seq<byte>>)
    | Hash(fields: map<seq<byte>, seq<byte>>)
    | ZSet(scores: map<seq<byte>, u64>)
    | Log(stream: Stream)

  datatype Entry = Entry(value: Value, expireAt: Option<u64>)

  /** An expiry has passed once the clock reads it. */
  predicate Expired(expireAt: Option<u64>, now: nat) {
    expireAt.Some? && expireAt.value <= now
  }
}
