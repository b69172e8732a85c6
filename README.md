# shiny_redis core, modelled in Dafny

shiny_redis is a small Redis-compatible server written in Go. This project
models its core:

- **The keyspace of one database (`RedisDB`).**
  - It holds a type tag per key, one store per type, TTLs and a per-key version counter.
  - Every change to a key raises that counter, and transactions compare counters to detect changes.
  - It provides the list primitives `listLpush`, `listLpop` and `listPop`, plus `del`, `exists` and `t`.
  - The server holds its databases by id and creates them on first use (`db`).
- **The per-connection context (`connCtx`).**
  - A connection is in a transaction exactly when its queue exists, even an empty one.
  - `addTxCmd` appends to the queue, `stopTx` and `unwatch` clear it, and DISCARD uses them.
  - `getCtx` allocates the context on first use.
- **The list commands.**
  - BLPOP, BRPOP and BRPOPLPUSH: their argument checks and their try predicates.
  - LINDEX, LINSERT and LLEN.
  - `withTx`, which runs a command now or queues it in a transaction.
  - The queueing branch and first try of `blocking`.
- **A byte ring buffer** (`New`, `Write`).
- **The command server.** This is the registry (`Register`), the dispatcher (`Dispatch`, `TotalCommands`) and the writers for the simple-string, error and bulk-string frames of the Redis serialization protocol (RESP2).

Files:

- `common.dfy`: values shared by the whole model.
  - `Option`.
  - `Reply`, the replies a handler writes to its connection.
  - ASCII case mapping.
  - Decimal integers, as `strconv.Atoi` reads them and `%d` writes them.
- `keyspace.dfy`: the keyspace.
  - `Keyspace`, a database as a value.
  - The functions that say what each primitive makes of it (`Deleted`, `LeftPushed`, `LeftPopped`, `RightPopped`) and the lemmas about them.
  - The class `RedisDB`, whose methods change the maps in place and are proved against those functions.
  - The class `ShinyRedis`, with the lazily filled database map.
- `connection.dfy`: the connection context.
  - The context as a value (`CtxState`) and as an object (`ConnCtx`).
  - The transaction queue.
  - `Peer`, a client connection with its context slot and the log of replies written to it.
  - DISCARD.
- `list_spec.dfy`: the list commands as functions of the database and connection state.
  - The argument checks and the try predicates.
  - The steps of LINDEX, LINSERT and LLEN.
  - `withTx` and `blocking` as state transitions.
  - The timeout conversion.
- `list_commands.dfy`: the command handlers and their machinery as methods on the objects, each proved against the functions of `list_spec.dfy`.
- `ring_buffer.dfy`: the ring buffer as a class over an `array<bv8>`.
- `server.dfy`: the registry and dispatcher as a class, and the frame writers as string functions, with parsers that read each frame back.

Two slips in the Go are resolved as follows:

- `inTx` is declared twice in the same package, in `datastructure/redisDB.go` and `datastructure/transaction.go`. The two bodies are identical, and the model defines it once.
- The Go refers to `m.signal` and `m.srv`, where the `ShinyRedis` struct declares `Signal` and `Srv`. The model takes these as the declared fields.

Replies are logged as values (`Inline`, `Error`, `Bulk`, `Int`), with the literal text the Go passes to the writers (`"errWrongNumber(cmd)"`, `"msgWrongType"`, …). How each value is framed on the wire is given separately, by `Server.WriteInline`, `Server.WriteError` and `Server.WriteBulk`.

## Model

| member | source | states |
|---|---|---|
| Common.Upper | server/server.go:141 | strings.ToUpper on ASCII: the length is kept, and every character is upper-cased if it is a lower-case letter and kept otherwise |
| Common.UpperIdempotent | server/server.go:186 | upper-casing a name that is already upper-cased changes nothing |
| Common.UpperHasNoLowerCase | server/server.go:186 | a registered name holds no lower-case ASCII letter |
| Common.Lower | datastructure/list.go:221 | strings.ToLower on ASCII, character by character, with the length kept |
| Common.Atoi | datastructure/list.go:59 | strconv.Atoi succeeds only with a value in the signed 64-bit range |
| Common.AtoiDecimal | datastructure/list.go:59-60 | every natural number up to 2^63-1, written in decimal, is read back as itself |
| Common.AtoiNegativeDecimal | datastructure/list.go:176 | every negative number down to -2^63, written as "-" and its decimal magnitude, is read back as itself |
| Common.AtoiRejectsEmpty | datastructure/list.go:123-128 | the empty string, a lone `+` and a lone `-` are not integers |
| Common.AtoiNegativeZero | datastructure/list.go:176 | `-0`, `+0` and `0` all read as the integer 0 |
| Common.DecimalDigits | server/server.go:245 | `%d` of a natural number is a non-empty run of digits whose value is that number |
| RingBuffers.RingBuffer.New | collection/ring_buffer.go:18-23 | a new buffer has `size` zero bytes, `r = w = 0`, is not full, and holds no readable bytes |
| RingBuffers.RingBuffer.Write | collection/ring_buffer.go:25-73 | an empty write returns (0, nil) and changes nothing; on a full buffer it returns (0, ErrIsFull) and changes nothing; otherwise `n = min(len(p), avail)`, with ErrTooManyDataToWrite exactly when `len(p) > avail`; the first `n` bytes land at `w0, w0+1, …` mod size and no other byte changes; `w` becomes `(w0 + n) mod size`; `r` is kept; `isFull` holds exactly when `w == r`, that is when `n == avail`; the readable bytes become the old ones followed by the first `n` bytes of `p` |
| RingBuffers.RingBuffer.Place | collection/ring_buffer.go:48-69 | the copy-and-advance part of Write: a straight copy or a copy split at the end of the array, then `w` advances with wrap-around and the full flag is set when it meets `r` |
| RingBuffers.FreeSpace | collection/ring_buffer.go:35-40 | the free space of a buffer that is not full is positive when the size is, at most the size, and equals the size exactly when `w == r` |
| RingBuffers.Used | collection/ring_buffer.go:35-40 | the readable byte count lies between 0 and the size, and with the free space makes up the whole size when the buffer is not full |
| RingBuffers.CopyInto | collection/ring_buffer.go:51 | Go's `copy(buf[at:], src)` when `src` fits: exactly the positions `at … at+len(src)-1` take `src` |
| RingBuffers.StraightWrite | collection/ring_buffer.go:50-52 | a copy that does not reach the end puts byte `j` at position `w0 + j` and keeps every other byte |
| RingBuffers.WrappedWrite | collection/ring_buffer.go:53-58 | the split copy (the first `c1` bytes at `w0`, the rest at 0) puts byte `j` at `(w0 + j) mod size` and keeps every other byte |
| RingBuffers.CopiedAroundAt | collection/ring_buffer.go:48-62 | after a write, byte `p[j]` for `j < n` is at `buf[(w0 + j) mod size]` |
| RingBuffers.WriteAppends | collection/ring_buffer.go:48-66 | writing at the position just past the readable bytes appends to them |
| RingBuffers.WrapIsMod | collection/ring_buffer.go:64-66 | folding an index back at `size` is reduction modulo `size` |
| RingBuffers.Offset | collection/ring_buffer.go:48-62 | the forward distance from the write index to a position, wrapping at the end, lies in `[0, size)` and leads back to that position |
| Server.Server.constructor | server/server.go:57-61 | a new server has an empty registry, no pre-hook and a zero command count |
| Server.Server.Register | server/server.go:183-192 | the name is upper-cased; an upper-cased name already bound gives the error "command already registered: NAME" and leaves the table unchanged; otherwise exactly that one binding is added |
| Server.SameEntryIgnoringCase | server/server.go:186-187 | names that differ only in ASCII case reach the same registry entry |
| Server.Server.Dispatch | server/server.go:139-163 | the name is upper-cased; a pre-hook that reports the request handled stops dispatch with no lookup and no count; an unregistered name is dropped with the count unchanged; a registered one raises the count by exactly one and is handed to its handler with the upper-cased name and the remaining arguments |
| Server.Server.TotalCommands | server/server.go:177-181 | returns the command count and changes nothing |
| Server.IsSpaceIsWhiteSpace | server/server.go:218 | unicode.IsSpace holds exactly for the Unicode White_Space code points: `\t \n \v \f \r`, space, U+0085, U+00A0, U+1680, U+2000 to U+200A, U+2028, U+2029, U+202F, U+205F and U+3000; CR and LF among them |
| Server.ToInline | server/server.go:216-223 | every white-space rune becomes a space, every other rune is kept, and the rune count is unchanged |
| Server.ToInlineIsOneLine | server/server.go:216-223 | the inline form holds no CR and no LF |
| Server.ToInlineFixedPoints | server/server.go:216-223 | a string whose only white space is spaces is its own inline form, and toInline is idempotent |
| Server.WriteInline | server/server.go:211-213 | the frame starts with `+` and is three characters longer than the string |
| Server.InlineRoundTrip | server/server.go:211-213 | the frame is `+`, a single line, CRLF, and reads back as the inline form of the string |
| Server.WriteError | server/server.go:232-234 | the frame starts with `-` and is three characters longer than the message |
| Server.ErrorRoundTrip | server/server.go:232-234 | the frame is `-`, a single line, CRLF, and reads back as the inline form of the message |
| Server.Utf8Width | server/server.go:245 | a character takes one to four bytes in UTF-8, and exactly one when it is ASCII |
| Server.Utf8Len | server/server.go:245 | Go's `len(s)` lies between the character count and four times it |
| Server.Utf8LenAscii | server/server.go:245 | for ASCII text `len(s)` is the character count |
| Server.WriteBulk | server/server.go:244-246 | the frame starts with `$`, ends with CRLF and is at least five characters longer than the string |
| Server.BulkRoundTrip | server/server.go:244-246 | the frame `$`, decimal byte length, CRLF, string, CRLF reads back as exactly the string written |
| Server.ParseBulkFrame | server/server.go:245 | any frame whose digits spell the byte length of its payload reads back as that payload |
| Server.ParseLine | server/server.go:212 | a parsed one-line frame is the marker, the body, CRLF |
| Server.DigitRun | server/server.go:245 | the decimal length prefix is the maximal run of digits after `$` |
| Server.DigitRunOfDigits | server/server.go:245 | the length prefix of a bulk frame is read up to the CRLF |
| Server.FrameTail | server/server.go:245 | the part after the length is CRLF, the payload, CRLF |
| Keyspace.NewKeyspace | datastructure/redisDB.go:53-65 | a new database has the given id, no keys, no TTLs, all versions 0, and is well formed |
| Keyspace.Bump | datastructure/redisDB.go:208 | `keyVersion[k]++` raises the version of `k` by exactly one and leaves every other version alone |
| Keyspace.DeleteAbsentIsNoOp | datastructure/redisDB.go:225-228 | del of an absent key changes nothing, its version included |
| Keyspace.DeletePresent | datastructure/redisDB.go:229-243 | del of a present key removes it from the tag map and from the typed store its tag names; it raises its version by exactly one; it drops its TTL exactly when `delTTL`; every other key's list, version and TTL (present or absent, and its value) is unchanged |
| Keyspace.DeleteLeavesOtherEntries | datastructure/redisDB.go:229-243 | after del of a present key each typed store is the old one without `k`, the TTL map is the old one without `k` when `delTTL` and unchanged otherwise, so no other key's string, hash, list, set or TTL entry is added, removed or changed |
| Keyspace.DeletedWellFormed | datastructure/redisDB.go:225-251 | del keeps the keyspace invariant (every tag known, each typed store holding exactly the keys with its tag) |
| Keyspace.TypedDeleted | datastructure/redisDB.go:230-243 | removing the tag and the store entry named by the tag keeps tags and stores in step |
| Keyspace.DeletedGrows | datastructure/redisDB.go:229-231 | del lowers no key's version |
| Keyspace.LeftPushedSpec | datastructure/redisDB.go:201-210 | listLpush makes the list `[v] ++ old` and returns `|old| + 1`; it raises the version by one and tags the key as a list; other keys' lists and versions, and which keys exist, are unchanged |
| Keyspace.LeftPushedKeepsOthers | datastructure/redisDB.go:201-210 | listLpush leaves every other key's tag, stored value, TTL and version as they were, and keeps the TTL of the pushed key |
| Keyspace.LeftPushedWellFormed | datastructure/redisDB.go:201-210 | listLpush on an absent key or a list keeps the keyspace invariant |
| Keyspace.AddedList | datastructure/redisDB.go:203-208 | tagging an absent key as a list and storing a list under it keeps the invariant |
| Keyspace.TypedAddedList | datastructure/redisDB.go:203-207 | the same, on the tag map and the stores alone |
| Keyspace.LeftPoppedSpec | datastructure/redisDB.go:187-198 | listLpop returns the first element and leaves the tail; when elements remain the key stays a list and its version rises by one; when the list empties the key is deleted and its version rises by two (once in del, once at line 196); other keys' lists and versions are unchanged and the invariant holds |
| Keyspace.LeftPoppedKeepsOthers | datastructure/redisDB.go:187-198 | listLpop leaves every other key's tag, stored value, TTL and version as they were; the popped key loses its TTL exactly when the list empties and `del(key, true)` runs |
| Keyspace.RightPoppedSpec | datastructure/redisDB.go:212-223 | listPop returns the last element and leaves the prefix; the version rises by exactly one on both paths; the key stays a list when elements remain and is deleted otherwise; other keys' lists and versions are unchanged and the invariant holds |
| Keyspace.RightPoppedKeepsOthers | datastructure/redisDB.go:212-223 | listPop leaves every other key's tag, stored value, TTL and version as they were; the popped key loses its TTL exactly when the list empties and `del(key, true)` runs |
| Keyspace.StoredList | datastructure/redisDB.go:219-220 | writing a list back under a list key and raising its version keeps the invariant |
| Keyspace.TypedStoredList | datastructure/redisDB.go:219 | the same, on the tag map and the stores alone |
| Keyspace.StoredListShape | datastructure/redisDB.go:219-220 | after that write the key holds exactly the new list and is still a list, its version has risen by one, and no other key's list or version changes |
| Keyspace.VersionsNeverDecrease | datastructure/redisDB.go:187-251 | none of del, listLpush, listLpop and listPop lowers any key's version |
| Keyspace.RedisDB.constructor | datastructure/redisDB.go:53-65 | newRedisDB: the object holds the new empty keyspace with its id, and is well formed |
| Keyspace.RedisDB.Exists | datastructure/redisDB.go:67-70 | exists is membership in the tag map |
| Keyspace.RedisDB.T | datastructure/redisDB.go:73-75 | t is the key's tag, a known type for a present key, and the empty string for an absent one |
| Keyspace.RedisDB.Del | datastructure/redisDB.go:225-251 | del changes the database exactly as `Deleted` says and keeps the invariant |
| Keyspace.RedisDB.DropFromStore | datastructure/redisDB.go:235-250 | the type switch removes the key from the store its tag names (none for zset and stream) and touches nothing else; the panic branch is unreachable under the invariant |
| Keyspace.RedisDB.StoreList | datastructure/redisDB.go:219-220 | stores the list and raises the version, keeping the invariant |
| Keyspace.RedisDB.ListLpush | datastructure/redisDB.go:201-210 | listLpush changes the database and returns the length exactly as `LeftPushed` says, and keeps the invariant |
| Keyspace.RedisDB.CreateList | datastructure/redisDB.go:203-208 | the missing-key path of listLpush: tag, store and version raise, keeping the invariant |
| Keyspace.RedisDB.ListLpop | datastructure/redisDB.go:187-198 | listLpop changes the database and returns the element exactly as `LeftPopped` says, and keeps the invariant |
| Keyspace.RedisDB.ListPop | datastructure/redisDB.go:212-223 | listPop changes the database and returns the element exactly as `RightPopped` says, and keeps the invariant |
| Keyspace.ShinyRedis.Db | datastructure/redisDB.go:44-51 | db(i) returns the database already filed under `i`; otherwise it files a fresh one with id `i`; no other entry changes and every database's contents are unchanged |
| Connection.EmptyQueueIsInTx | datastructure/transaction.go:32-34 | an empty queue that exists still counts as a transaction |
| Connection.AppendedSpec | datastructure/redisDB.go:171-173 | addTxCmd puts the entry last, keeps earlier entries in place, leaves the connection in a transaction, and changes no other field |
| Connection.StoppedSpec | datastructure/transaction.go:36-43 | stopTx ends the transaction and clears the watched keys; the selected database, authentication, dirty flag, subscriber and nesting flag keep their values |
| Connection.UnwatchIdempotent | datastructure/transaction.go:41-43 | unwatch twice is unwatch once |
| Connection.DiscardSpec | datastructure/transaction.go:15-31 | DISCARD with arguments replies the wrong-number error, and outside a transaction replies "ERR DISCARD without MULTI", both with the context unchanged; with no arguments inside a transaction it leaves exactly the context of stopTx: the transaction ended and the watched keys cleared, and replies nothing; it replies nothing exactly in that last case |
| Connection.ConnCtx.constructor | datastructure/redisDB.go:181 | `&connCtx{}` is the zero context: no queue, nothing watched, every flag false |
| Connection.ConnCtx.InTransaction | datastructure/redisDB.go:175-177 | inTx holds exactly when the queue exists |
| Connection.ConnCtx.AddTxCmd | datastructure/redisDB.go:171-173 | appends to the queue, creating it when nil, as `Appended` says |
| Connection.ConnCtx.Unwatch | datastructure/transaction.go:41-43 | sets the watched keys to nil and nothing else |
| Connection.ConnCtx.StopTx | datastructure/transaction.go:36-39 | drops the queue, then unwatches |
| Connection.Peer.WriteInline | server/server.go:200-204 | the peer's reply log gains one simple-string reply |
| Connection.Peer.WriteError | server/server.go:226-230 | the peer's reply log gains one error reply |
| Connection.Peer.WriteBulk | server/server.go:237-241 | the peer's reply log gains one bulk reply |
| Connection.Peer.WriteInt | datastructure/list.go:297 | the peer's reply log gains one integer reply |
| Connection.GetCtx | datastructure/redisDB.go:179-184 | returns the stored context, or stores and returns a fresh zero context; either way the connection state, as a value, is unchanged and no reply is written |
| Connection.CmdDiscard | datastructure/transaction.go:15-31 | DISCARD changes the context and writes the replies exactly as `Discard` says |
| ListSpec.CheckBXpop | datastructure/list.go:46-69 | fewer than two arguments gives exactly the wrong-number error; a last argument that is not an integer, or is negative, stops the command with no reply; otherwise the keys are all but the last argument and the timeout is its non-negative value |
| ListSpec.CheckBrpoplpush | datastructure/list.go:110-133 | not exactly three arguments gives the wrong-number error; the same timeout rule applies; otherwise the source, destination and timeout are the three arguments |
| ListSpec.CheckLindex | datastructure/list.go:165-181 | not exactly two arguments gives "errWrongNumber"; an index that is not an integer, or is written `-0`, gives "msgInvalidInt"; otherwise the step carries the key and the index |
| ListSpec.LindexRefusesNegativeZero | datastructure/list.go:176-181 | `-0` is refused although it reads as 0, while `0` and `+0` are accepted |
| ListSpec.CheckLinsert | datastructure/list.go:210-232 | not exactly four arguments gives the wrong-number error; a position word other than before/after in any case gives "msgSyntaxError"; before is -1 and after is +1, and the key, pivot and value are the arguments |
| ListSpec.LinsertWordIgnoresCase | datastructure/list.go:221-230 | position words that differ only in case give the same outcome |
| ListSpec.CheckLlen | datastructure/list.go:273-281 | not exactly one argument gives the wrong-number error; otherwise the step carries the key |
| ListSpec.FirstStop | datastructure/list.go:77-88 | the scan passes over absent keys and empty lists in argument order and stops at the first other key |
| ListSpec.PopTryNotDone | datastructure/list.go:77-101 | the BLPOP/BRPOP try reports not-done exactly when every key is absent or an empty list, and then changes nothing and replies nothing |
| ListSpec.PopTryWrongType | datastructure/list.go:81-84 | a non-list key reached in the scan ends the try with a wrong-type error and no change, whatever later keys hold |
| ListSpec.PopTryPops | datastructure/list.go:86-99 | the first non-empty list reached is popped from the left (BLPOP) or right (BRPOP); its element is replied, it keeps the rest, the try is done, no other key's list or version changes, and the invariant holds |
| ListSpec.MovePushAllowed | datastructure/list.go:145-153 | after popping the source, the destination is still absent or a list, so the push is allowed |
| ListSpec.MoveTryMoves | datastructure/list.go:149-155 | BRPOPLPUSH moves the source's last element to the front of the destination and replies it; with source equal to destination the list rotates by one; no other key's list or version changes and the invariant holds |
| ListSpec.MoveTryKeepsOthers | datastructure/list.go:149-155 | a BRPOPLPUSH move leaves every key other than the source and the destination with its tag, stored value, TTL and version |
| ListSpec.MoveTryNotDone | datastructure/list.go:142-151 | the BRPOPLPUSH try is not done exactly when the source is absent, or is an empty list with the destination absent or a list, and then nothing changes and nothing is replied |
| ListSpec.MoveTryVersions | datastructure/list.go:152-153 | a move raises the versions of source and destination by one each, and by two when they are the same key |
| ListSpec.MoveTryWrongType | datastructure/list.go:145-148 | a source that is not a list, or an existing destination that is not one, gives a wrong-type error with no change |
| ListSpec.LindexOffsets | datastructure/list.go:197-205 | on a list `l`, an index in `[0, len)` replies that element, one in `[-len, 0)` replies element `len + index`, and nothing is replied exactly when the index is outside `[-len, len)` |
| ListSpec.IndexOf | datastructure/list.go:249-252 | the position of the first occurrence of the pivot, or the length when there is none |
| ListSpec.InsertAt | datastructure/list.go:254-262 | the value is inserted at the given position, with the elements before it and after it kept |
| ListSpec.LinsertInserts | datastructure/list.go:249-266 | LINSERT puts the value at `i` (before) or `i + 1` (after), where `i` is the first occurrence of the pivot; the list grows by one, removing the value gives back the old list, the version rises by one, and nothing is replied |
| ListSpec.LinsertKeepsOthers | datastructure/list.go:248-266 | a successful LINSERT changes no other key's list or version and keeps the invariant |
| ListSpec.LinsertFoundResult | datastructure/list.go:254-264 | a proof step: with the pivot found, LINSERT stores the list with the value inserted and raises the version |
| ListSpec.LinsertFound | datastructure/list.go:249-252 | a pivot that occurs is found, at its first occurrence |
| ListSpec.InsertAtKeepsOrder | datastructure/list.go:254-262 | taking the inserted value out again gives back the old list |
| ListSpec.LinsertNoPivot | datastructure/list.go:237-268 | with the key absent or the pivot missing from the list, LINSERT changes nothing, the version included, and replies nothing |
| ListSpec.LlenResult | datastructure/list.go:283-298 | LLEN replies nothing exactly for an absent key, the length exactly for a list, and a wrong-type error exactly for another type |
| ListSpec.StepsKeepWellFormed | datastructure/list.go:75-269 | every try predicate and every LINDEX, LINSERT or LLEN step keeps the keyspace invariant |
| ListSpec.WithTxQueuesOrRuns | datastructure/redisDB.go:84-103 | in a transaction and not nested, the command does not run: the database is untouched, the step becomes the new last queue entry after the old ones, and "QUEUED" is the only reply; nested or outside a transaction it runs at once with the context unchanged |
| ListSpec.BlockingInTxAlsoRuns | datastructure/redisDB.go:116-138 | in a transaction, blocking queues its try and then also runs it once straight away, because the queueing branch does not return |
| ListSpec.WrapInt64 | datastructure/list.go:74 | an int64 result is the exact product reduced into the signed 64-bit range |
| ListSpec.TimeoutAsWritten | datastructure/list.go:74 | `time.Duration(timeout)*time.Second` as written is an int64 |
| ListSpec.TimeoutAsWrittenWraps | datastructure/list.go:74 | the product as written turns a timeout of 9223372037 s into a negative duration and one of 2^55 s into 0 (no timer) |
| ListSpec.Timeout | datastructure/list.go:74 | the intended duration: non-negative, within int64, and equal to the product as written whenever that fits |
| ListSpec.TimeoutMonotone | datastructure/redisDB.go:130-134 | a zero timeout, and only that, means no timer, and a longer timeout never gives a shorter duration |
| ListCommands.ScanKeys | datastructure/list.go:77-88 | the loop stops at the first key that is present and either not a list or a non-empty list, and at the end when there is none |
| ListCommands.PopOn | datastructure/list.go:75-102 | the BLPOP/BRPOP predicate changes the database, writes the replies and returns done exactly as `PopTryResult` says, keeping the invariant |
| ListCommands.MoveOn | datastructure/list.go:139-156 | the BRPOPLPUSH predicate changes the database, writes the replies and returns done exactly as `MoveTryResult` says, keeping the invariant |
| ListCommands.LindexOn | datastructure/list.go:183-206 | the LINDEX step writes exactly the replies of `LindexResult` and changes no database |
| ListCommands.LinsertOn | datastructure/list.go:234-269 | the LINSERT step changes the database and writes the replies exactly as `LinsertResult` says, keeping the invariant |
| ListCommands.FindPivot | datastructure/list.go:249-253 | the loop stops at the first occurrence of the pivot, or at the end |
| ListCommands.SpliceIn | datastructure/list.go:254-262 | the three slice expressions all insert the value at `i` (before) or `i + 1` (after) |
| ListCommands.LlenOn | datastructure/list.go:283-298 | the LLEN step writes exactly the replies of `LlenResult` and changes no database |
| ListCommands.RunStep | datastructure/redisDB.go:98-99 | a step runs against the selected database as `StepResult` says; other databases are unchanged |
| ListCommands.RunTry | datastructure/redisDB.go:138 | one try runs against the selected database as `TryResult` says; other databases are unchanged |
| ListCommands.RunTxCmd | datastructure/redisDB.go:122-128 | a queued entry, when run, does what it captured: a step, or a try followed by "timeout" when not done and then "QUEUED" |
| ListCommands.RunQueuedTry | datastructure/redisDB.go:122-128 | the entry blocking queues tries once, replies "timeout" when not done, then "QUEUED" |
| ListCommands.AfterQueuedTry | datastructure/redisDB.go:123-126 | the replies that follow the queued try |
| ListCommands.WithTx | datastructure/redisDB.go:79-103 | withTx changes the context, the selected database and the replies exactly as `WithTxResult` says; other databases are unchanged |
| ListCommands.Blocking | datastructure/redisDB.go:108-138 | blocking, up to the wait, changes the context, the selected database and the replies as `BlockingResult` says, and reports whether it would wait |
| ListCommands.QueueTry | datastructure/redisDB.go:116-129 | in a transaction the try is appended to the queue; otherwise the context is unchanged; nothing is replied |
| ListCommands.CmdBXpop | datastructure/list.go:46-108 | rejected arguments give exactly the check's replies and change nothing; accepted ones run blocking on the pop try, and the timer duration handed to it is the wrapping int64 product of the timeout and a second, as written (equal to the intended duration whenever the product fits) |
| ListCommands.CmdBrpoplpush | datastructure/list.go:110-162 | the same, for the move try: the check's replies and no change on rejected arguments; otherwise blocking on the move try with the wrapping int64 timer duration, as written |
| ListCommands.CmdLindex | datastructure/list.go:165-207 | rejected arguments give the check's error and change nothing; accepted ones go through withTx with the LINDEX step |
| ListCommands.CmdLinsert | datastructure/list.go:210-270 | the same, with the LINSERT step |
| ListCommands.CmdLlen | datastructure/list.go:273-299 | the same, with the LLEN step |

## Left out

- Locks, `Broadcast` and the condition variable are not modelled. This covers `m.Lock`/`m.Unlock` in `withTx` and `blocking`, the `Broadcast` after a step, and the mutexes of the ring buffer and the server. Each operation is taken to be atomic.
- The wait of `blocking` (datastructure/redisDB.go:130-168) is not modelled: the helper goroutine, the WaitGroup, the timer, `onTimeout` on expiry and `Ctx.Done()` cancellation.
  - `ListCommands.Blocking` covers the queueing branch and the first run of the try. It reports whether the command would go on to wait.
  - The BLPOP, BRPOP and BRPOPLPUSH handlers also return the timer duration they would start.
- The `onTimeout` callbacks of BLPOP, BRPOP and BRPOPLPUSH are not passed around. All of them write the bulk string "timeout", and the queued entry writes that string directly.
- Two behaviours of `blocking` are modelled as written, not corrected:
  - In a transaction, `blocking` queues the try and does not return. The try then also runs at once and may wait (`ListSpec.BlockingInTxAlsoRuns`).
  - The queued entry itself writes "QUEUED" when it runs.
- EXEC, MULTI, WATCH and UNWATCH are not part of this model. EXEC's handler is not among the files modelled, and the others are commented out, so queued entries are run one at a time (`ListCommands.RunTxCmd`), not by an EXEC.
- Networking and parsing are not modelled: `NewServer`, `NewServerTLS`, `serve`, `ServeConn`, `servePeer`, `close`, `Peer.Flush`, `Peer.Close`, the bufio writer and the RESP parser.
  - `Peer` keeps a log of reply values in place of its writer.
  - The bytes of each frame are given by `Server.WriteInline`, `Server.WriteError` and `Server.WriteBulk`, as pure functions.
- `Peer.Block` and the RESP3 flag are not modelled; they only pass the writer through.
- Dispatch does not hand the peer to the pre-hook or to the handler. Handlers are opaque values, and `Dispatch` returns which handler to call, with what arguments, instead of calling it.
- `Server.Server.Dispatch` requires at least one argument, as the Go indexes `args[0]` unconditionally.
- `Server.Server.Dispatch`: the command count is unbounded. The Go `int` counter would wrap after 2^63 dispatches.
- WriteInt is not part of this model: the files modelled call `c.WriteInt` but do not define it, so the integer reply stays an abstract `Int` value with no framing.
- Commented-out replies (`WriteNull`, the commented `WriteInt` calls, `WriteOK`) and `setDirty` are not modelled, as they are not behaviour.
- The worker pool (collection/func.go), the once-primitives (collection/once_pointer.go, collection/sync_once.go) and the struct-only files (datastructure/sub.go, datastructure/redis.go) are not modelled. They are concurrency or declarations with no logic.
- Strings are sequences of Unicode scalar values, while Go strings are arbitrary bytes. Keys and values that are not valid UTF-8, binary data among them, cannot be represented. Two consequences follow.
- Server.ToInline: does not model the rewrite of each invalid UTF-8 byte to U+FFFD that `strings.Map` performs, because such bytes cannot occur in the model's strings.
- Server.Utf8Len: is the UTF-8 byte length of a sequence of scalars, which equals Go's `len(s)` only for valid UTF-8.
- Server.WriteBulk: its length prefix is therefore exact only for valid UTF-8 payloads.
- RingBuffers.RingBuffer.New: takes a natural size, so the panic of `make([]byte, size)` on a negative size is not modelled.
- TTL values (`time.Duration`) are kept but never interpreted, and nothing here expires a key.
- The hash, set, sorted-set and stream values are not modelled beyond their presence. Only the string, hash, list and set stores exist, as in the Go, and sorted sets and streams carry a tag with no store.
- The `master` back pointer of `RedisDB` is not modelled. The password, script, subscriber, random and clock fields of `ShinyRedis` are not modelled either.
- The subscriber of a connection is a flag, with nothing behind it.
- The `nested` flag (a call made through Lua) is kept. Nothing in the model sets it, because scripting is not part of this model.
- Case mapping covers ASCII letters only. `strings.ToUpper` and `strings.ToLower` also map other Unicode letters. This is exact for the position words of LINSERT and for ASCII command names. Where it differs: Go upper-cases ſ (U+017F) to S and ı (U+0131) to I, so "ſet" or "lındex" reach SET or LINDEX in `Server.Server.Register` and `Server.Server.Dispatch` in Go but not in the model. `ListSpec.CheckLinsert` is exact: `strings.ToLower` maps no non-ASCII rune into a letter of "before" or "after" (only İ and the Kelvin sign lower to ASCII, to i and k).
- `Keyspace.Bump`: versions are unbounded naturals. The Go `uint` counter would wrap after 2^64 increments.
- `Keyspace.RedisDB.Del`: the version it raises is likewise unbounded, for the same reason.
- `Keyspace.RedisDB.ListLpush` requires the key to be absent or already a list. Otherwise the Go would retag a key of another type as a list and leave its old store entry behind. Its only caller, BRPOPLPUSH, checks this first.
- `Keyspace.RedisDB.ListLpop` requires a non-empty list under the key. The Go indexes `l[0]` and would panic on an empty list, which its callers never pass.
- `Keyspace.RedisDB.ListPop` requires a non-empty list under the key, for the same reason.
- The Go closures capture their variables by reference. The model's steps and tries carry the captured values instead. The LINDEX closure, which reassigns its captured `offset`, runs at most once per queued entry, so the difference is not visible.
- Some helper members in the model have no Go function of their own. They split one Go function into parts so that each can be proved on its own:
  - `RingBuffers.RingBuffer.Place`, `RingBuffers.CopyInto`;
  - `Keyspace.RedisDB.DropFromStore`, `Keyspace.RedisDB.StoreList`, `Keyspace.RedisDB.CreateList`;
  - `ListCommands.ScanKeys`, `ListCommands.FindPivot`, `ListCommands.SpliceIn`, `ListCommands.StepOn`, `ListCommands.TryOn`;
  - `ListCommands.QueueTry`, `ListCommands.RunQueuedTry`, `ListCommands.AfterQueuedTry`.

## Findings

| source | as written | input that shows it | evidently intended | confidence | as-written member | corrected member |
|---|---|---|---|---|---|---|
| datastructure/list.go:74 | the timeout in seconds becomes `time.Duration(timeout)*time.Second`, an int64 product that wraps (the same at line 138 for BRPOPLPUSH) | a timeout of 9223372037 gives a negative duration, a timer that fires at once; a timeout of 2^55 gives 0, which means no timer at all | a longer timeout never gives a shorter wait, and a positive timeout always sets a timer | medium, not executed | ListSpec.TimeoutAsWrittenWraps | ListSpec.TimeoutMonotone |
