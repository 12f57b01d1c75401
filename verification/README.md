# Verified model of meebis

meebis is an in-memory server that speaks the Redis protocol. This project models its hardest parts in
Dafny and proves what they are meant to keep. Each file is one module, named after the part it models.

| part | files |
|---|---|
| snapshots (RDB) | `Cursor`, `Listpack`, `Lzf`, `Crc64`, `StreamCodec`, `RdbFormat`, `RdbLoad`, `RdbSave`, `RdbTheorems` |
| keyspace | `Values`, `Listing`, `Glob`, `Expiry`, `Strings`, `ZSets` |
| connections | `Resp`, `RespSyntax`, `Transactions`, `Blocking`, `PubSub` |
| streams | `StreamLog` |
| small codecs and arithmetic | `ScriptValues`, `MsgPack`, `MsgPackWire`, `Json`, `JsonSyntax`, `Calendar`, `Bytes`, `Decimal` |

How to read it:

- Code that works by changing things step by step is a method, often of a class with the source's fields. Its
  `ensures` ties the result and the new state to a specification function, and the lemmas beside it say what
  that function means: a round trip, an invariant of all runs, a simpler definition it refines.
- What is read or written in bytes is also told by the bytes themselves: `RespSyntax`, `JsonSyntax` and
  `MsgPackWire` say which texts there are and what each means, and the lemmas named `...Form(s)`, `...Layout`
  and `...Reads` in the other codecs give each form byte by byte.
- Hash containers iterate in an order of their own. Writers therefore take a listing of the container
  (`Listing.Lists`), and the theorems hold for every listing.
- The clock is a parameter that never goes backwards, read again wherever the source reads it. The hash behind
  WATCH, the liveness of message receivers and the iteration order of script tables are parameters too.
- One `handle` call is one step in `Transactions`, `PubSub` and `StreamLog`: the server runs on a
  single-threaded runtime (`src/main.rs:540`). `Blocking` is finer: writing under the lock, notifying,
  checking the deadline, registering, retrying, parking and waking are separate steps, in any interleaving.
- Integers are unbounded unless a width is written out (`% 0x1_0000_0000_0000_0000`, `Wrap`, `Signed`, range
  checks before `Some`).

Where the code does not do what one would expect, the model follows the code. One lemma says exactly when it
does, for all inputs, and another shows an input where it does not:

| case | exactly when | where it fails |
|---|---|---|
| `set_keep_ttl` on a stale key | `Expiry.LazyIsEager` | `Expiry.KeepTtlLosesTheWrite` |
| SET with GET when the key expires inside the command | `Strings.SetIsOneStep` | `Strings.ReplyAndWriteDisagree` |
| XREAD from the greatest id | `StreamLog.ReadsAboveExactly` | `StreamLog.GreatestIdRepeats` |
| JSON objects with integer keys | `Json.DecodeUndoesEncode` | `Json.IntegerKeyCollides` |
| an RDB checksum that happens to be zero | `RdbTheorems.ChangedPayload` | `RdbTheorems.UncheckedChange` |
| a subscriber's connection that ends early | `PubSub.AgreesExactly` | `PubSub.LossIsRemembered` |

Further quirks kept: XREAD with COUNT 0 returns one entry, a negative LIMIT with MINID is cast to a huge count,
`<ms>-*` may give an id of the next millisecond, the check that refuses id 0-0 in XADD can never fire, and
the first digit of a `\u` escape may be a plus sign.

`dafny verify dfyconfig.toml` checks the whole project.

## Model

| member | source | states |
|---|---|---|
| `RdbTheorems.SaveThenLoad` | src/rdb/write.rs:36-158 | Saving any keyspace in any iteration order and loading the image into empty databases succeeds exactly when there are enough of them; each database then holds only keys live at save and load, with equal values and expiries, and every key that stayed live; keys loaded plus keys dropped as expired are the keys written |
| `RdbTheorems.ExactlyTheLive` | src/rdb/read.rs:146-165 | Loading a saved image with one clock reading, no earlier than the save, into empty databases leaves exactly the saved databases without what has expired by then, whenever there are enough of them |
| `RdbTheorems.ImageLoads` | src/rdb/read.rs:72-170 | The whole load of a saved image, for every target keyspace (not only empty ones) and any two clocks, including the error for a database the server does not have |
| `RdbTheorems.LoopIsFold` | src/rdb/read.rs:88-168 | On any bytes at all, the opcode loop is the fold of the meaning of the records it can take from them over the loader's state, concluded by the end marker or by the error that stopped the reading; lengths may stand in any form and strings raw, as integers or compressed, while packed containers, decimal scores and consumer groups stop it as `Unmodelled` |
| `RdbTheorems.RecordsOfImage` | src/rdb/read.rs:88-168 | The records taken from a written image are those it was written from, and nothing after the end marker is looked at |
| `RdbTheorems.BindingOfRun` | src/rdb/read.rs:92-97 | After any records the pending expiry is the nearest one back, looking past IDLE, FREQ and auxiliary fields but not past an earlier key or database switch; the selected database is the latest one named |
| `RdbTheorems.RecordPlacement` | src/rdb/read.rs:126-165 | Any key in any image is stored under the expiry bound to it in the database selected for it and counted, or dropped and counted as expired when that expiry has passed; no expiry is pending afterwards and nothing else of the loader or the keyspace changes |
| `RdbTheorems.ChangedPayload` | src/rdb/read.rs:174-190 | A changed byte before the trailer is caught exactly when the stored checksum is not the zero that means unchecked |
| `RdbTheorems.UncheckedChange` | src/rdb/read.rs:174-190 | For every key there is an image, saved as any other, whose checksum is zero: whatever its text's first byte is changed to is loaded without an error |
| `RdbTheorems.SingleByteCorruption` | src/rdb/read.rs:174-190 | An image with a nonzero checksum and any one byte changed either fails to load or loads what the untouched image loads |
| `RdbTheorems.RunFails` | src/rdb/read.rs:90-125 | Records fail to load exactly when one of them is a module's or selects a database the server does not have, and then as unsupported |
| `RdbTheorems.LoadRejects` | src/rdb/read.rs:72-87 | The five letters and four digits a dump begins with, the greatest version taken, and when the trailer is compared |
| `RdbLoad.LoadRecords` | src/rdb/read.rs:88-168 | The imperative opcode loop, with its selected database, pending expiry and counters, computes the fold |
| `RdbLoad.Load` | src/rdb/read.rs:72-87 | Magic, version, checksum and then the loop: every accept and every kind of rejection |
| `RdbLoad.VerifyChecksum` | src/rdb/read.rs:174-190 | The trailer is checked for versions 5 and up, and zero switches the check off |
| `RdbLoad.ReadValue` | src/rdb/read.rs:193-360 | The loops that fill strings, lists, sets, hashes, sorted sets and streams give the value the format defines |
| `RdbSave.Save` | src/rdb/write.rs:36-76 | The imperative writer, with its loops over databases and live keys, appends exactly the image of the records it stands for |
| `RdbSave.PutValue` | src/rdb/write.rs:85-134 | Type byte, key and body of a value, containers in their iteration order |
| `RdbSave.SealedLayout` | src/rdb/write.rs:36-76 | An image byte by byte: REDIS0011, records, end marker, checksum of all that in little-endian order |
| `RdbSave.SectionLayout` | src/rdb/write.rs:49-68 | A database without a live key is left out; any other is its number, its two sizes and its live keys in order |
| `RdbSave.VolatileCounts` | src/rdb/write.rs:49-68 | The second size is the number of keys whose expiry is still to come |
| `RdbFormat.OpRoundTrip` | src/rdb/read.rs:90-165 | Every record reads back as itself, containers gathered from any order, using exactly its own bytes |
| `RdbFormat.ValueRoundTrip` | src/rdb/write.rs:85-134 | Every kind of value reads back equal from its body, whatever follows |
| `RdbFormat.OpForms` | src/rdb/read.rs:47-58 | Every record that is not a key by its opcode and operands, byte by byte |
| `RdbFormat.RecordForms` | src/rdb/write.rs:85-134 | A key's record by its type byte, key and body |
| `RdbFormat.BodyForms` | src/rdb/write.rs:85-134 | Containers are their size and their elements in iteration order |
| `RdbFormat.OtherTypes` | src/rdb/read.rs:193-360 | Which other type bytes there are, and what each is rejected as |
| `Cursor.LengthRoundTrip` | src/rdb/write.rs:137-153 | 6, 14, 32 and 64-bit lengths read back as the number written |
| `Cursor.StringRoundTrip` | src/rdb/cursor.rs:108-136 | A raw string reads back, whatever follows |
| `Cursor.Reader.Length` | src/rdb/cursor.rs:70-90 | The accessor returns what stands at the position and moves past it, or fails |
| `Cursor.Reader.String` | src/rdb/cursor.rs:108-136 | Raw strings, integers of one, two and four bytes as their decimal text, and LZF blocks of the length announced; anything else fails |
| `Cursor.IntStringReads` | src/rdb/cursor.rs:108-136 | A signed integer of one, two or four little-endian bytes after its marker reads as its decimal text, using two, three or five bytes |
| `Cursor.CompressedTextReads` | src/rdb/cursor.rs:121-134 | A compressed string reads as the text its tokens expand to, whatever the tokens |
| `Cursor.CompressedReads` | src/rdb/cursor.rs:121-134 | Any block reads as what it decompresses to if that is as long as announced, and fails otherwise |
| `Cursor.LengthForms` | src/rdb/write.rs:137-153 | A length is written in the shortest form: six bits, fourteen bits, or a marker and four or eight big-endian bytes |
| `Cursor.LengthFormsRead` | src/rdb/cursor.rs:70-90 | A length is read in any form, the shortest or not; other first bytes are special encodings or errors |
| `StreamCodec.StreamRoundTrip` | src/rdb/stream.rs:220-271 | Writing any stream and reading it back restores every entry, field order, duplicate field names, last_id and max_deleted_id |
| `StreamCodec.NodeDecodes` | src/rdb/stream.rs:86-171 | A node with any mix of live and deleted, same-field and own-field entries decodes to exactly the live ones at master id plus delta (wrapping) |
| `StreamCodec.ReadNode` | src/rdb/stream.rs:86-171 | The index-walking decoder computes that meaning on any element list, rejecting malformed ones |
| `StreamCodec.ReadStream` | src/rdb/stream.rs:42-83 | The node loop and the counters after it |
| `StreamCodec.PutStream` | src/rdb/stream.rs:220-271 | The writer appends one node per entry, keyed by its id, and the trailer |
| `StreamCodec.WrittenLayout` | src/rdb/stream.rs:220-271 | The node of an entry, element by element: counts, names, the master's zero, flags, zero distances, values, and how many elements that was |
| `StreamCodec.StreamLayout` | src/rdb/stream.rs:220-271 | A stream is its nodes and then nine numbers: length, last id, first id, greatest deleted id, entries added, no groups |
| `StreamCodec.HeadExactly` | src/rdb/stream.rs:92-119 | A node's head is read exactly when its counts are not negative and its names and the zero after them are there |
| `StreamCodec.EntryExactly` | src/rdb/stream.rs:120-171 | An entry is read exactly when its three numbers and its values, or its count and its pairs, are there |
| `StreamCodec.OtherTypesRead` | src/rdb/stream.rs:42-83 | The oldest of the three stream types has only length and last id after its nodes; the newest reads as the one that is written |
| `Listpack.RoundTrip` | src/rdb/packed.rs:133-149 | Any sequence of appended integers and strings reads back exactly, and bytes after the terminator are ignored |
| `Listpack.ProperPrefixRejected` | src/rdb/packed.rs:133-149 | Every proper prefix of a written listpack is rejected |
| `Listpack.BackLenWidth` | src/rdb/packed.rs:67-79 | The trailer takes as many bytes as the reader skips |
| `Listpack.BackLenReadsBackwards` | src/rdb/packed.rs:281-300 | Read backwards from its end, a trailer gives the entry's length, whatever precedes it |
| `Listpack.ListpackWriter.PushInt` | src/rdb/packed.rs:302-326 | Appends the narrowest encoding and its trailer, and counts the element |
| `Listpack.ListpackWriter.PushStr` | src/rdb/packed.rs:328-344 | Appends the narrowest length form, the bytes and the trailer |
| `Listpack.ListpackWriter.Finish` | src/rdb/packed.rs:346-355 | Header with truncated total and saturated count, body, terminator |
| `Listpack.ReadListpack` | src/rdb/packed.rs:133-149 | The position loop computes the decoder |
| `Listpack.IntForms` | src/rdb/packed.rs:302-326 | A number is written in the narrowest of six forms, byte by byte |
| `Listpack.StrForms` | src/rdb/packed.rs:328-344 | A string is written with six, twelve or thirty-two bits of length, byte by byte |
| `Listpack.AnyIntReads` | src/rdb/packed.rs:84-131 | A number is read in any form that holds it, the narrowest or not |
| `Listpack.AnyStrReads` | src/rdb/packed.rs:84-131 | So is a string with any form of length |
| `Listpack.ImageForm` | src/rdb/packed.rs:346-355 | A listpack byte by byte: total size, count, entries, terminator |
| `Lzf.ResumeIsExpansion` | src/rdb/lzf.rs:15-62 | Decompression accepts exactly the encodings of token sequences and returns their expansion, overlapping references extending periodically |
| `Lzf.OutputBound` | src/rdb/lzf.rs:15-62 | No input expands to more than 88 times its size |
| `Lzf.Decompress` | src/rdb/lzf.rs:15-62 | The loop returns that expansion only when it has the expected length, and never indexes out of range |
| `Lzf.CopyBack` | src/rdb/lzf.rs:47-53 | Copying byte by byte from `dist` back extends the output with period `dist` |
| `Lzf.TokenForms` | src/rdb/lzf.rs:15-62 | Where a literal's length and a reference's length and distance stand in their bytes |
| `Lzf.ExpandOne` | src/rdb/lzf.rs:15-62 | A literal adds its bytes; a reference repeats what stands its distance back, and fails exactly when nothing does |
| `Crc64.FoldIsSerial` | src/rdb/crc64.rs:45-55 | The byte-at-a-time fold is the unreflected bit-serial division over the message bits, reflected |
| `Crc64.LoneBit` | src/rdb/crc64.rs:8-42 | The polynomial, bit by bit, and the message that leaves it, reflected, as its checksum |
| `Crc64.TableStep` | src/rdb/crc64.rs:23-42 | A table lookup is eight single-bit steps |
| `Crc64.FoldAppend` | src/rdb/crc64.rs:45-50 | The checksum is incremental over concatenation |
| `Crc64.BurstDetected` | src/rdb/crc64.rs:45-55 | Two equal-length buffers that differ only inside eight consecutive bytes have different checksums; one changed byte is a case of it |
| `Crc64.EverySumReached` | src/rdb/crc64.rs:45-55 | Whatever stands before and after, exactly one choice of eight bytes gives a wanted checksum, zero included |
| `Crc64.BuildTable` | src/rdb/crc64.rs:23-42 | The table loops fill entry n with eight steps from n |
| `Crc64.Update` | src/rdb/crc64.rs:45-50 | The table-driven loop computes the fold |
| `Crc64.Reverse` | src/rdb/crc64.rs:12-21 | The shift loop reverses the bits |
| `Glob.GlobMatch` | src/db.rs:674-740 | The matcher that remembers only the last star returns true exactly when the definition that tries every split does, for every pattern and text, and terminates |
| `Glob.MatchClass` | src/db.rs:867-910 | The loop over a class gives what the class says of the character and the pattern after it, or nothing when it never closes |
| `Glob.ClassMatches` | src/db.rs:867-910 | By pattern text: a class, written from any bare or escaped bytes and spans with their ends in either order, a bracket in first place and a dash in last included, matches exactly one byte that some member covers or, after a caret, one that none does |
| `Glob.OpenClassMatches` | src/db.rs:674-740 | A pattern that begins with a bracket and is not a class so written begins with an ordinary byte, so those are all the classes there are |
| `Glob.QueryMatches` | src/db.rs:674-740 | A question mark matches any one byte and no fewer |
| `Glob.EscapeMatches` | src/db.rs:674-740 | A byte after a backslash matches itself alone, whatever it is |
| `Glob.PlainMatches` | src/db.rs:674-740 | Any other byte matches itself alone, a backslash at the very end included |
| `Glob.StarMatches` | src/db.rs:674-740 | A star matches exactly when the rest of the pattern matches some suffix |
| `Expiry.Unobservable` | src/db.rs:200-434 | For any adaptive caller, any clock that never goes backwards and sweeps anywhere, every reply and the remaining live keys are those of a map that expires keys at once, provided set_keep_ttl directly follows a purge of its key |
| `Expiry.LazyIsEager` | src/db.rs:200-434 | Each operation replies and acts as on the eager map; set_keep_ttl leaves the eager map's state if and only if its key is not stale |
| `Expiry.LiveMeans` | src/db.rs:202-211 | A key is live while the clock reads less than its expiry; at the expiry itself it is gone |
| `Expiry.WritesMean` | src/db.rs:213-434 | What each writing call makes of the value and the expiry under any key, its own or another |
| `Expiry.AnswersMean` | src/db.rs:213-434 | What each call answers |
| `Expiry.KeepTtlLosesTheWrite` | src/db.rs:240-243 | A concrete stale key for which set_keep_ttl loses the new value |
| `Expiry.Db.PurgeIfExpired` | src/db.rs:202-211 | Removes the key exactly when its expiry has passed and says so; no live key changes |
| `Expiry.Db.SetKeepTtl` | src/db.rs:240-243 | Replaces the value under whatever expiry stands there, without purging |
| `Expiry.Db.Rename` | src/db.rs:296-305 | Moves value and expiry; only the source is purged first |
| `Expiry.Db.KeysMatching` | src/db.rs:345-353 | Exactly the live keys that match the pattern |
| `Expiry.Db.SweepExpired` | src/db.rs:429-433 | Keeps exactly the live keys |
| `Strings.Set` | src/commands/string.rs:83-115 | SET with NX, XX, KEEPTTL, GET and an expiry has the stated effect on the eager map, the clock being read afresh by each call it makes: the key is purged before set_keep_ttl |
| `Strings.SetMeans` | src/commands/string.rs:83-115 | At one moment: NX writes only a missing key and XX only a present one, GET of another type writes nothing, the text goes under the given expiry or, with KEEPTTL, the old one, and the answer is the old text, OK or nil |
| `Strings.SetIsOneStep` | src/commands/string.rs:83-115 | There is a moment between SET's two clock readings at which it could have happened as one step, for its reply and all that is live afterwards, if and only if it was not torn: GET told of a text that expired before the write, and the write, taking the key for missing, came out otherwise for that |
| `Strings.ReplyAndWriteDisagree` | src/commands/string.rs:83-115 | SET XX GET on a key that expires between its readings answers with the old text and writes nothing, which no single step at any moment does |
| `Strings.Append` | src/commands/string.rs:217-230 | The text grows under its old expiry, on the eager map |
| `Strings.AppendGrows` | src/commands/string.rs:217-230 | The old text stays in front, the new one follows, the expiry stays, and the answer is the length; another type is an error and changes nothing |
| `Strings.DoIncr` | src/commands/string.rs:269-288 | INCR and its errors, on the eager map |
| `Strings.IncrementAdds` | src/commands/string.rs:269-288 | A successful increment leaves the sum as text, keeps the expiry and touches no other key; a failed one changes nothing |
| `Strings.IncrementFails` | src/commands/string.rs:269-288 | INCR fails exactly on another type, on a text that is no 64-bit integer and on a sum that is none; a missing key counts from zero |
| `Strings.SetRange` | src/commands/string.rs:397-422 | The patch lands at its offset with zero bytes in any gap, under the old expiry; an empty patch creates nothing |
| `Strings.CommandsAreCareful` | src/commands/bitops.rs:35-51 | Whoever sends commands that look a text up and store another (APPEND, INCR, INCRBYFLOAT, SETRANGE, SETBIT), SETs with any options and single other calls, in any adaptive sequence, every `set_keep_ttl` directly follows a call that purged its key |
| `Strings.CommandsCannotTell` | src/db.rs:200-434 | Over any such run of whole commands lazy expiry cannot be observed, with nothing assumed of the caller |
| `ZSets.AlwaysIndexed` | src/db.rs:632-653 | After any run of inserts and removes the ordered index is exactly the score map's pairs, ascending |
| `ZSets.OrderOfEditsInvisible` | src/db.rs:609-612 | Two runs that leave the same scores leave the same iteration order |
| `ZSets.RankIsPlace` | src/db.rs:661-665 | A member's place in the index is the number of smaller pairs |
| `ZSets.LessMeaning` | src/db.rs:609-612 | Members of one score compare by their first differing byte, a proper prefix first |
| `ZSets.ZSet.Insert` | src/db.rs:632-642 | Both structures are updated together, and the result says whether the member is new |
| `ZSets.ZSet.Remove` | src/db.rs:645-653 | Both structures lose the member together |
| `ZSets.ZSet.Rank` | src/db.rs:661-665 | The walk returns the number of smaller pairs, or nothing for a stranger |
| `ZSets.RangeByScoreMeaning` | src/commands/zset.rs:722-748 | A score range, in either direction, is the index of exactly the members whose score lies strictly between the two values, or equals one whose bound is not exclusive (both, when the values are equal) |
| `ZSets.RangeByIndexMeaning` | src/commands/zset.rs:694-720 | An index range, in either direction, is the index of exactly the members whose rank from the end it starts at lies between the bounds, either counted from the far end when negative |
| `ZSets.ZSet.ZCount` | src/commands/zset.rs:242-265 | ZCOUNT is the number of members whose score lies strictly between the two values or equals one whose bound is not exclusive, written out with the comparisons |
| `ZSets.ZSet.ZRemRangeByScore` | src/commands/zset.rs:530-560 | Removes exactly the members whose score lies strictly between the two values or equals one whose bound is not exclusive, and says how many |
| `ZSets.ZSet.ZRemRangeByRank` | src/commands/zset.rs:498-528 | Removes exactly what the same index range returns and never slices out of bounds |
| `ZSets.ZSet.ZPop` | src/commands/zset.rs:421-463 | Hands out and removes exactly the members of the index range 0 to count-1 in that direction |
| `ZSets.PopLeavesRest` | src/commands/zset.rs:421-463 | After popping from either end the order is what stood behind |
| `ZSets.ClampRange` | src/commands/zset.rs:682-692 | The two clamped bounds, in range at either end |
| `Resp.CutsDoNotMatter` | src/main.rs:866-929 | However the byte stream is cut into reads, a connection runs the same commands, stops at the same QUIT or the same first protocol error, and while it is open has the same bytes left over |
| `Resp.CommandStable` | src/resp.rs:217-235 | A command or a protocol error, once recognised, is unchanged by bytes that arrive after it |
| `Resp.PrefixIncomplete` | src/resp.rs:217-235 | Cut anywhere before its end, a command reads as incomplete |
| `Resp.ArrayRoundTrip` | src/resp.rs:95-100 | An encoded array of one or more bulk strings parses back to the arguments and leaves what follows |
| `Resp.InlineRoundTrip` | src/resp.rs:405-481 | Any arguments typed as one line of double-quoted words are split back into themselves |
| `RespSyntax.LineMeaning` | src/resp.rs:405-481 | A line splits into given arguments exactly when it is written as words for them: bare ones up to a blank, single-quoted ones with the escaped quote, double-quoted ones with every escape letter, blanks of all five kinds between; the only other lines leave a quote open |
| `RespSyntax.InlineMeaning` | src/resp.rs:305-310 | A line that does not begin with `*`, ended by LF or by CR and LF, is the command its words make, or unbalanced quotes |
| `RespSyntax.LengthMeaning` | src/resp.rs:253-258 | Around a count or length any Unicode white space may stand, and what is left must be a 64-bit number |
| `RespSyntax.BulkMeaning` | src/resp.rs:272-300 | A bulk string is `$`, a length line, that many bytes, CR and LF; a negative length is an empty argument; too few bytes wait, other endings and other lengths are errors |
| `RespSyntax.ArrayMeaning` | src/resp.rs:261-303 | An array is `*`, a count line and that many bulk strings; a count of zero or less takes none, and the first bulk string that cannot be read decides |
| `RespSyntax.RunsInOrder` | src/main.rs:866-929 | A connection runs its commands in the order they stand in its input, stops after the first that closes it, and otherwise keeps what is not yet a command or fails on what cannot become one |
| `RespSyntax.ArrayForm` | src/resp.rs:173-187 | The encoded bytes: lengths in decimal, each line ended by CR and LF, bulk strings in order |
| `Resp.ParseCommand` | src/resp.rs:217-235 | Success drops exactly the bytes of the command from the buffer; anything else leaves it alone |
| `Resp.ParseArray` | src/resp.rs:261-303 | The position loop computes the array grammar, with its errors |
| `Resp.SplitInline` | src/resp.rs:405-481 | The loop splits a line as the grammar does: blanks, both quotes, escapes, an open quote |
| `Resp.Connection.Read` | src/main.rs:866-929 | One read: parse and run until more bytes are needed, or until a protocol error or a command that closes ends the connection in mid-buffer |
| `Resp.EncodeArray` | src/resp.rs:95-100 | The encoder appends header and bulks in order |
| `Transactions.NoLostUpdate` | src/commands/mod.rs:496-548 | However many clients interleave WATCH, GET, MULTI, SET, EXEC on one counter, it ends at its start plus the number of EXECs that were not nil, if the hash separates the values it can take |
| `Transactions.AtomicTransaction` | src/commands/mod.rs:463-548 | Between MULTI and EXEC, whatever the client itself sends short of another EXEC or DISCARD, the keyspace is what the other clients make of it. EXEC is refused if a command was; replies nil and runs nothing if a key still watched has changed (an UNWATCH leaves none); and otherwise there are states, the first the keyspace as the others left it and the last the one after EXEC, such that the i-th command queued leads from the i-th to the next and gives the i-th answer of the reply |
| `Transactions.RunsInTurn` | src/commands/mod.rs:540-545 | The loop over the queue as a run of states: the first is where it began, command i leads from state i to state i + 1 and gives answer i, and the last is where it ends |
| `Transactions.NilExactly` | src/commands/mod.rs:529-538 | EXEC answers nil and runs nothing exactly when some watched key appeared, went away or has another fingerprint than WATCH remembered |
| `Transactions.SentInOrder` | src/commands/mod.rs:484-494 | What a client queues over two stretches is what it queues over the first, then over the second; the other clients' steps keep their order too |
| `Transactions.WatchRemembers` | src/commands/mod.rs:496-515 | WATCH remembers every named key of the selected database as it is now, and of the others what it remembered before |
| `Transactions.OutsideMulti` | src/commands/mod.rs:86-118 | Outside MULTI a data command runs at once and changes only the selected database of the connection; MULTI starts empty, RESET and UNWATCH forget the snapshots, and WATCH adds to them |
| `Transactions.DiscardedTransaction` | src/commands/mod.rs:473-482 | After DISCARD instead, none of them ever takes effect |
| `Transactions.QueuedHasNoEffect` | src/commands/mod.rs:88-101 | While a client is inside MULTI, the keyspace and every other connection run as if what it sends had not been sent: commands queue in order, a nested MULTI and a WATCH change nothing, a refused command spoils the transaction, an UNWATCH drops the snapshots |
| `Transactions.AlwaysTidy` | src/commands/mod.rs:463-548 | In every run of any clients' commands, outside MULTI the queue is empty and no error is pending |
| `Transactions.ConnState.Handle` | src/commands/mod.rs:86-118 | Dispatch of the control commands, queueing inside MULTI, execution outside |
| `Transactions.ConnState.Exec` | src/commands/mod.rs:517-548 | Leaves MULTI; EXECABORT after a refused command; nil when a watched fingerprint has changed; else the queue is run from its first command to its last, each on what the one before left, with one answer each, in order |
| `Transactions.ConnState.Watch` | src/commands/mod.rs:496-515 | A snapshot per key, a later one replacing an earlier one; refused inside MULTI |
| `Blocking.NothingLost` | src/main.rs:953-992 | In every interleaving of writers, expiry and blocked clients: a parked, unwoken client with data available has a notification still in flight, and what was stored or added is what is stored, was removed, or was handed out in exactly one reply |
| `Blocking.ParkedMeansEmpty` | src/commands/mod.rs:728-739 | With no notification in flight, a parked and unwoken client has no data on any of its keys |
| `Blocking.NotifiedIsServed` | src/main.rs:953-992 | A parked client that is notified before its deadline comes round to another attempt, whatever the others do between its own steps; it is answered there with what the attempt found, exactly when there is data then, and otherwise parks again without forgetting a notification |
| `Blocking.ReadyExactly` | src/commands/mod.rs:196-224 | An attempt answers exactly when some key holds something wanted or is of the wrong type |
| `Blocking.FewerUnreadies` | src/commands/mod.rs:722-726 | Popping and expiring give nobody data, which is why blocking pops need not notify |
| `Blocking.PopAccounts` | src/commands/zset.rs:469-496 | What an attempt takes out of the store is what its reply carries, once |
| `Blocking.Keyspace.BzpopTry` | src/commands/zset.rs:469-496 | The reply names the first of the keys that is ready; the pair was in its items and every other item there comes after it in the order for BZPOPMIN and before it for BZPOPMAX; that pair alone is taken, a key left empty goes, and a first ready key of another type is an error |
| `Blocking.PopsFirst` | src/commands/zset.rs:469-496 | An attempt takes the least member with min, the greatest without, of the first key with data, and nothing else; a key left empty goes, and with no key ready nothing happens |
| `Blocking.Keyspace.XRead` | src/commands/stream.rs:207-242 | Every stream with news, in order; nothing when there is none; a wrong type is an error |
| `Blocking.CollectInOrder` | src/commands/stream.rs:223-242 | A reply over several streams is the replies over each, one after another, and an error if any is one |
| `Blocking.CollectOne` | src/commands/stream.rs:223-242 | For one stream the reply names it and holds what a read of it gives; it is left out when it is not there or has nothing new |
| `Blocking.DeadlineEndsTheWait` | src/main.rs:953-992 | A client whose deadline has come is answered with a timeout and takes nothing |
| `StreamLog.TailIsFaithful` | src/commands/stream.rs:207-242 | However XADD, XDEL, XTRIM and reads of any counts interleave, a reader that feeds back its last id is given entries in id order, none twice, and misses only entries deleted before it came by |
| `StreamLog.ReadsAboveExactly` | src/commands/stream.rs:223-233 | A read from an id gives exactly the entries above it if and only if that id is not the greatest one or no entry has it |
| `StreamLog.GreatestIdRepeats` | src/commands/stream.rs:223-233 | In any stream, once XADD has taken the greatest id, reading from it gives its entry again, whatever the count |
| `StreamLog.ReadProgresses` | src/commands/stream.rs:223-233 | A read returns something whenever an entry lies above the id, even with COUNT 0 |
| `StreamLog.ReadMeans` | src/commands/stream.rs:223-233 | A read gives the entries above the id from the first one on, without a gap and at most as many as the count, one at COUNT 0 |
| `StreamLog.IdsIncrease` | src/commands/stream.rs:91-118 | Over every run returned ids strictly increase and every entry id and max_deleted_id stay at or below last_id, whatever the clock does |
| `StreamLog.DeletedRemembered` | src/commands/stream.rs:386-395 | Whatever is removed is at or below max_deleted_id from then on |
| `StreamLog.AutoIdIsLeast` | src/commands/stream.rs:494-505 | `*` gives the least id above last_id that is not before the clock, and fails only at the greatest id |
| `StreamLog.AutoSequenceIsLeast` | src/commands/stream.rs:506-540 | `<ms>-*` gives the least id above last_id from that millisecond on (the next millisecond when the sequence is used up), or the stated error |
| `StreamLog.ExplicitId` | src/commands/stream.rs:506-540 | An explicit id is taken exactly when it is above last_id |
| `StreamLog.OtherAddIds` | src/commands/stream.rs:506-540 | A bare number asks for the first id of its millisecond; whatever is neither number nor star is refused |
| `StreamLog.WhichIdsParse` | src/commands/stream.rs:557-584 | `-` is the least id and `+` the greatest, a bare number the first or last of its millisecond, two numbers with a dash an id; nothing else parses |
| `StreamLog.ResolvedIsAbove` | src/commands/stream.rs:101-104 | Every id given out is above last_id, so the 0-0 check after it cannot fire |
| `StreamLog.NextIsLeastAbove` | src/db.rs:67-83 | `next` is the least id above, and only the greatest id has none |
| `StreamLog.TrimLeavesSuffix` | src/commands/stream.rs:454-489 | Trimming leaves a suffix: the last MAXLEN entries, or exactly the ids from MINID up |
| `StreamLog.TrimTakes` | src/commands/stream.rs:454-489 | How many entries a trim takes: those beyond MAXLEN or below MINID, at most the limit, with what zero and negative limits mean |
| `StreamLog.AddMeans` | src/commands/stream.rs:91-118 | An accepted XADD puts its entry last and makes its id last_id; a refused one changes nothing |
| `StreamLog.AddThenTrim` | src/commands/stream.rs:111-118 | An XADD that trims adds its entry first and counts it, then takes from the front what the trim may take |
| `StreamLog.DeleteMeans` | src/commands/stream.rs:370-396 | XDEL removes exactly the entries listed, and max_deleted_id is the old one or one of theirs |
| `StreamLog.DollarSeesOnlyNew` | src/commands/stream.rs:331-367 | A client that blocks on `$` is later given exactly the entries added since and still there |
| `StreamLog.IdRoundTrip` | src/commands/stream.rs:557-584 | A printed id parses back to itself |
| `StreamLog.StreamKey.XAdd` | src/commands/stream.rs:91-118 | Resolves the id, appends, trims; the stream stays ordered |
| `StreamLog.StreamKey.XDel` | src/commands/stream.rs:370-396 | Removes the listed ids that are there, counts them and raises max_deleted_id |
| `StreamLog.StreamKey.ApplyTrim` | src/commands/stream.rs:454-489 | The two trimming loops with their limits: none for a MAXLEN limit of zero or less, no limit for a negative MINID one |
| `StreamLog.StreamKey.XRead` | src/commands/stream.rs:223-233 | The range loop with its count, which lets one entry through at COUNT 0 |
| `PubSub.AlwaysReflects` | src/main.rs:866-948 | Over every run of subscriptions, RESETs and connections ending either way, the registry lists a client under a name exactly once if and only if its own set holds the name or it was lost while it did, any early end counting (an I/O error or a handler that panics); no list is empty |
| `PubSub.StepOwn` | src/commands/mod.rs:550-635 | How one event changes what a connection holds, its own event or another's |
| `PubSub.StepListed` | src/commands/mod.rs:550-635 | How one event changes whom the registry lists under a name |
| `PubSub.AgreesExactly` | src/main.rs:866-948 | The registry says what the connections say if and only if no connection ended early while it listened to something |
| `PubSub.LostStaysListed` | src/main.rs:869-870 | A client lost while it listened to a name is listed under it after every later run, though no connection of that id is left |
| `PubSub.LossIsRemembered` | src/main.rs:869-870 | One subscription and a lost connection leave a registry that lists a client nobody is |
| `PubSub.AudienceIsSubscribers` | src/pubsub.rs:79-110 | Whom a message reaches, told from the own sets of connections that have not ended: channel subscribers and matching patterns; entries of lost clients are passed over and not counted |
| `PubSub.LeavesNothing` | src/pubsub.rs:65-75 | After any run, RESET and an orderly end leave a client listed nowhere and disturb nobody else |
| `PubSub.Registry.Publish` | src/pubsub.rs:79-110 | Each matching (client, channel) and (client, pattern) pair with a live receiver gets one message, and the count is how many |
| `PubSub.Registry.Subscribe` | src/pubsub.rs:28-34 | Adds the client to one list unless it is there |
| `PubSub.Registry.Unsubscribe` | src/pubsub.rs:36-44 | Takes the client off one list and drops a list left empty |
| `PubSub.Registry.RemoveClient` | src/pubsub.rs:65-75 | Takes the client off every list |
| `PubSub.Listener.Subscribe` | src/commands/mod.rs:571-593 | The loop over names updates the own set and the registry together |
| `PubSub.Listener.Unsubscribe` | src/commands/mod.rs:595-635 | With names, those subscribed; without, all of them |
| `PubSub.Listener.Reset` | src/commands/mod.rs:550-562 | Both own sets are drained and the registry follows |
| `PubSub.Listener.End` | src/main.rs:944-948 | An orderly end takes the client off every list; after an early one the registry is not told |
| `MsgPack.PackUnpack` | src/commands/scripting/cmsgpack.rs:25-38 | Unpacking what was packed gives the values back one for one, nested to any depth, whatever order tables iterate in and whichever border they report |
| `MsgPack.RoundTrip` | src/commands/scripting/cmsgpack.rs:187-259 | One value decodes to its meaning and nothing after it is touched |
| `MsgPackWire.ReadsExactly` | src/commands/scripting/cmsgpack.rs:187-259 | A value is read exactly when one of its forms stands there: every tag, the unsigned and binary ones the encoder never writes included, with sizes and numbers of any width that holds them |
| `MsgPackWire.CutForm` | src/commands/scripting/cmsgpack.rs:161-185 | Cut anywhere before its end, any form of any value fails as truncated |
| `MsgPackWire.UnpacksInOrder` | src/commands/scripting/cmsgpack.rs:25-38 | Unpacking takes values until the bytes end, in whatever forms they stand, or fails with the first that does |
| `MsgPackWire.OtherForms` | src/commands/scripting/cmsgpack.rs:187-259 | Tags of no use here are bad tags, and floats cut short are truncated |
| `MsgPackWire.IntsWritten` | src/commands/scripting/cmsgpack.rs:67-85 | An integer is written in the narrowest signed form |
| `MsgPackWire.SizesWritten` | src/commands/scripting/cmsgpack.rs:87-158 | Sizes are written in the narrowest form, byte by byte |
| `MsgPackWire.ArrayWritten` | src/commands/scripting/cmsgpack.rs:104-132 | An array is its size and its values in key order |
| `MsgPackWire.MapWritten` | src/commands/scripting/cmsgpack.rs:104-132 | A map is its size and its pairs in iteration order, each key before its value |
| `MsgPack.PrefixFree` | src/commands/scripting/cmsgpack.rs:46-132 | No code is a proper prefix of another, and equal codes mean equal values |
| `MsgPack.IntRoundTrip` | src/commands/scripting/cmsgpack.rs:67-85 | All 64-bit integers, at every width boundary |
| `MsgPack.EncodeValue` | src/commands/scripting/cmsgpack.rs:46-65 | The encoder appends exactly the code of the value |
| `MsgPack.EncodeTable` | src/commands/scripting/cmsgpack.rs:104-132 | The counting loop decides between array and map, and the loops write the items or pairs |
| `MsgPack.Decoder.Decode` | src/commands/scripting/cmsgpack.rs:187-259 | Every tag, with its truncation and other errors |
| `MsgPack.Decoder.DecodeArray` | src/commands/scripting/cmsgpack.rs:268-275 | The loop sets items 1 to n and skips nil |
| `MsgPack.Decoder.DecodeMap` | src/commands/scripting/cmsgpack.rs:277-287 | The loop sets pairs in order and skips nil values |
| `ScriptValues.BorderIrrelevant` | src/commands/scripting/cmsgpack.rs:104-118 | A table that goes out as an array has only one border, so the choice between array and map does not depend on the one reported |
| `ScriptValues.ArrayHasAll` | src/commands/scripting/cmsgpack.rs:120-125 | n distinct keys between 1 and n are all of them, so every array item read by index exists |
| `ScriptValues.ArraysAre` | src/commands/scripting/cmsgpack.rs:104-118 | A table goes out as an array exactly when its keys are the integers from 1 to its border |
| `Json.DecodeUndoesEncode` | src/commands/scripting/cjson.rs:49-121 | Decoding an encoding gives the value with objects' integer keys as text; it is the value itself if and only if no table that prints as an object has an integer key |
| `Json.IntegerKeyCollides` | src/commands/scripting/cjson.rs:96-121 | A table with the integer key 2 and the string key "2" comes back with one entry instead of two |
| `Json.RoundTrip` | src/commands/scripting/cjson.rs:167-193 | Parsing what was printed gives the value back and consumes exactly what was printed |
| `JsonSyntax.DecodesExactly` | src/commands/scripting/cjson.rs:24-46 | A text decodes to a value exactly when it is a document for it: literals, integers, strings with every escape, arrays and objects, with white space of all four kinds wherever tokens meet; nulls leave no entry and the last of repeated keys counts |
| `JsonSyntax.StringReads` | src/commands/scripting/cjson.rs:228-256 | Strings by their characters as written: raw bytes, short escapes, code units in either case, surrogate pairs |
| `JsonSyntax.EscapesPrinted` | src/commands/scripting/cjson.rs:123-139 | How each byte is printed: the seven short escapes, `\u00XX` in lower case for other control characters, all else as it is |
| `JsonSyntax.ArrayPrinted` | src/commands/scripting/cjson.rs:72-121 | An array prints as its values in key order, between brackets, with commas and no space |
| `JsonSyntax.ObjectPrinted` | src/commands/scripting/cjson.rs:72-121 | Any other table prints as its pairs in iteration order; an empty one as an empty object |
| `Json.StringRoundTrip` | src/commands/scripting/cjson.rs:123-139 | Escaping then unescaping is the identity on every byte string |
| `Json.EncodeValue` | src/commands/scripting/cjson.rs:49-70 | Prints the value, failing exactly on tables with a key that is neither string nor number |
| `Json.EncodeTable` | src/commands/scripting/cjson.rs:72-121 | Empty table, array or object, decided by the counting loop |
| `Json.EncodeString` | src/commands/scripting/cjson.rs:123-139 | The loop appends each byte's escape |
| `Json.Parser.ParseValue` | src/commands/scripting/cjson.rs:167-193 | The recursive parser computes the grammar, with its errors and its position |
| `Json.Parser.ParseString` | src/commands/scripting/cjson.rs:228-256 | Characters, escapes and the closing quote |
| `Json.Parser.ParseUnicodeEscape` | src/commands/scripting/cjson.rs:269-292 | Code units, surrogate pairs and the replacement character |
| `Json.SurrogatePairReads` | src/commands/scripting/cjson.rs:269-292 | A character beyond the first plane, escaped as its two surrogates, reads as its UTF-8 |
| `Json.Utf8RoundTrip` | src/commands/scripting/cjson.rs:284-290 | Every character is told from the bytes written for it, and whatever is none from U+FFFD |
| `JsonSyntax.Utf8Forms` | src/commands/scripting/cjson.rs:284-290 | Every character takes the fewest bytes UTF-8 has for it, lead and following bytes in their ranges; surrogates and numbers past the last character become U+FFFD |
| `Json.Parser.ParseArray` | src/commands/scripting/cjson.rs:294-320 | The element loop |
| `Json.Parser.ParseObject` | src/commands/scripting/cjson.rs:322-361 | The member loop; a null member is left out, a repeated key keeps its last value |
| `Decimal.WhatParses` | src/resp.rs:253-258 | Which texts are 64-bit numbers, signed or not: digits with at most one sign in front, within the range |
| `Calendar.CivilIsRight` | src/log.rs:342-353 | Every day number, negative ones included, gives a valid date whose count of years, leap days, months and days is that number |
| `Calendar.CivilInverts` | src/log.rs:342-353 | Every valid date comes back from its day number: dates and day numbers correspond one to one |
| `Calendar.CivilAdvances` | src/log.rs:342-353 | Consecutive days are consecutive dates |
| `Calendar.EraRoundsDown` | src/log.rs:344-345 | The adjusted numerator makes truncating division round down before the era too |
| `Calendar.MomentIsExact` | src/log.rs:324-338 | Date, hour, minute, second and millisecond are in range and name the instant exactly |

## Left out

- The texts of error messages are not modelled, only their kinds.
- Resp.ParseArray: the capacity reserved for the announced number of arguments, which a huge number makes fail.
- RdbLoad.ReadValue: ziplist, intset, quicklist, listpack and zipmap containers and sorted sets with decimal scores read as `Unmodelled`, because nothing in the repository writes them and their shapes repeat the listpack.
- StreamCodec.ReadStream: streams with consumer groups read as `Unmodelled`; the source parses the groups only to drop them.
- RdbLoad.Load: allocation limits and the statistics on streams and aux fields that only feed the log.
- StreamCodec.StreamRoundTrip: requires field names and values below 2^32 bytes and lists a 64-bit machine can hold, as the format's fields do.
- StreamCodec.ReadNode: machine words are unbounded. A short listpack can announce up to 2^63-1 fields for an entry, and `i + n * 2` (`src/rdb/stream.rs:155`) then overflows: a release build wraps to an end before the start and rejects the node, as the model does; a build with overflow checks panics.
- MsgPack.RoundTrip: requires strings and tables below 2^32 elements, as the format's length fields do; tables as keys and the nil key of an empty slot are not part of this model.
- MsgPack.EncodeValue: floats are outside the value type, because what matters about them is rounding.
- MsgPack.Decoder.Decode: float tags, and unsigned values above the signed 64-bit range, which the source turns into floats, give `Unmodelled`.
- Json.EncodeValue: floats are outside the value type.
- Json.Parser.ParseValue: a number that is not a 64-bit integer parses as `Unmodelled`, whether the source makes it a float or an error.
- Json.Parser.ParseUnicodeEscape: a low half below 0xDC00 after a high surrogate is computed as a release build does, without an overflow check.
- Expiry.Unobservable: one database; MOVE, COPY and SWAPDB are `Take`, `Put` and a swap of two such databases.
- Strings.Set: parsing of the options. What INCRBYFLOAT and SETBIT compute is left out; as callers of the database they are `Strings.Command.Rewrite`.
- ZSets.ZSet.ZPop: the key that a pop or removal leaves empty is removed by a separate call, `Expiry.Db.RemoveIfEmpty`; for blocking pops `Blocking.Keyspace.BzpopTry` does both.
- ZSets.ZSet.Insert: scores are a total order without NaN and with one zero (snapshots carry them as 64-bit patterns); LIMIT and lexicographic ranges are easier members.
- Transactions.NoLostUpdate: the fingerprint is an abstract hash, assumed to separate the values one counter can take in the run; keys without expiry; authentication and subscribe-mode gates come before this and are left out.
- Transactions.ConnState.Handle: blocking commands inside MULTI run as ordinary data commands; QUIT ends the connection and is part of `Resp.Connection.Read`.
- Resp.Connection.Read: which commands close is a parameter, any function of the commands so far (in the source QUIT outside MULTI); reads that fail end the connection without a trace here and are part of `PubSub`.
- Blocking.NothingLost: a sorted set is its ordered index and a stream its entries; the timer may fire at any time after parking, so no claim is made about how long a client waits or which of two waiting clients is served first.
- RdbTheorems.LoopIsFold: containers and groups that read as `Unmodelled` end the records there, as the lines on RdbLoad.ReadValue and StreamCodec.ReadStream say.
- PubSub.Listener.Subscribe: the confirmation messages and their running count.
- StreamLog.TailIsFaithful: one stream whose key is not deleted meanwhile; the reader stops at the greatest id.
- StreamLog.StreamKey.XAdd: a failed XADD may still have created the key; only the stream is modelled. Option parsing, NOMKSTREAM and XRANGE, whose start above its end panics, are left out.
- Calendar.CivilIsRight: day numbers are unbounded, so the overflow near the ends of the 64-bit range is not modelled; the digits of the printed timestamp are left out.
- Sockets, tasks, signals, files and command-line parsing are left out, and so are list, plain-set, hash and bitmap commands, SHA-1, INFO, CLIENT and OBJECT: plumbing, or easier than what is here.
- Lua itself is foreign code: script values are a datatype, and tables are finite maps without nil.
