# Models of a load generator and its CPU pinning

The repository runs key-value load against Redis and Memcached inside pinned virtual machines. Its logic sits in the
`memtier_benchmark` client (protocol parsers and writers, the cluster client, the reconnecting client, statistics,
reports, the dump file) and in two small Python allocators for CPU cores. This project models that logic in Dafny and
proves what it is relied on for. `dafny verify dfyconfig.toml` checks everything.

Pure step functions and independent reference definitions carry the specifications. Classes and methods follow the
objects and loops of the program and are proved equal to the specifications, so each theorem holds of the loops too.

| file | subject |
|---|---|
| `ByteStrings`, `Scanf`, `Arithmetic`, `Bits` | bytes, lines, decimal conversions, `%u`, division, bit operations |
| `RespParser`, `RespResume`, `RespValue`, `RespNested`, `RespCounter`, `RespHeap` | the RESP reply parser: one turn, resuming, values, nesting, the bare counter, the linked tree |
| `RespWriter`, `RespCommands`, `ArbitraryCommand`, `CommandText` | the command writers, what commands mean, user-defined commands and how they are written |
| `MemcacheText`, `MemcacheReplies`, `MemcacheStreams` | the memcache text parser |
| `Crc16`, `ClusterState`, `ClusterSlots`, `ClusterReply`, `ClusterRun`, `ClusterKeys`, `ClusterHistory`, `ClusterSetup`, `ClusterProgress`, `ClusterClient` | hash slots and the cluster client as a step system and as an object: books, routing, order of requests, setup and progress |
| `Reconnect`, `ReconnectProgress` | the plain client with a reconnect interval |
| `DumpFile`, `DumpStreams`, `DumpFormat` | the dump file |
| `RunStats`, `StatsMerge`, `StatsMeaning`, `StatsClient` | per-second statistics, their merge and summary |
| `JsonText`, `JsonWriter` | the JSON report writer |
| `KeyRange`, `Scheduler` | key ranges per client, weighted schedules, the WAIT ratio |
| `CpuSet`, `CpuSplit`, `CpuPool` | core sets, their split by priority, hyperthread pairing and VM pinning |

Seven promises turned out to hold only under a condition. Each has its exact condition, both ways, and a lemma at a
failing input.

| promise | condition | failing input |
|---|---|---|
| a complete RESP reply leaves no array open | `RespCounter.ParseAgrees` | `RespCounter.WrappedCounterCompletesEarly` |
| the memcache parser can be resumed | `MemcacheText.ResumesExactly`, `MemcacheText.ChunkingExactly` | `MemcacheReplies.HugeValueSwallows` |
| a dump line reads back | `DumpFile.LineReadsBack` | `DumpFile.EmptyKeyRefused` |
| the JSON report is the call tree | `JsonWriter.FileIsTree` | `JsonWriter.QuoteInOption`, `JsonWriter.QuotedCommand` |
| the priority split is a partition | `CpuSplit.SplitExactly` | `CpuSplit.RatioZero` |
| pinned VMs share no physical core | `CpuPool.NoSharedCore` | `CpuPool.ZeroSizeShares` |
| the parallel key ranges split the keys | `KeyRange.SplitsExactly` | `KeyRange.TooFewKeys` |

## Model

| member | source | states |
|---|---|---|
| `RespParser.StepProgress` | memc_redis/memtier_benchmark/protocol.cpp:411-606 | every turn of the loop leaves a suffix of the buffer, takes bytes or moves on to a later state, and waits (0) without changing anything |
| `RespParser.Parse` | memc_redis/memtier_benchmark/protocol.cpp:406-607 | a call terminates with 1, 0 or -1 in a state in which a call may start, and keeps the keep-value flag |
| `RespResume.StepExtend` | memc_redis/memtier_benchmark/protocol.cpp:411-606 | a turn that does not wait is unchanged by bytes arriving behind it |
| `RespResume.ParseExtend` | memc_redis/memtier_benchmark/protocol.cpp:406-607 | a call that returned 0, taken up with more bytes, is the call on all the bytes; a 1 or -1 is unchanged by bytes appended later |
| `RespResume.PollExtend` | memc_redis/memtier_benchmark/protocol.cpp:406-607 | polling twice with more bytes in between gives the same replies, state and leftover as polling once |
| `RespResume.ChunkingIsInvisible` | memc_redis/memtier_benchmark/protocol.cpp:406-607 | for every parser state and every cut of a stream into chunks: same replies, same rejections, same state, same bytes left over as the stream at once |
| `RespResume.ParseAccounts` | memc_redis/memtier_benchmark/protocol.cpp:420-545 | what is left is a suffix of the buffer, the length counter grows by exactly what was taken, and a complete reply reports the length of all its bytes over all calls |
| `RespNested.ReceiveValue` | memc_redis/memtier_benchmark/protocol.cpp:421-600 | one value at any depth inside any open arrays is taken up exactly: its bytes, its hits, its errors and its place in the kept tree |
| `RespNested.ReceiveAll` | memc_redis/memtier_benchmark/protocol.cpp:421-600 | the remaining elements of an open array are taken up one after the other and close it |
| `RespValue.ShortReceivable` | memc_redis/memtier_benchmark/protocol.cpp:434-470 | every value whose encoding is shorter than 2^32 bytes has headers within their types and never wraps the element counter |
| `RespNested.ParseInvertsEncode` | memc_redis/memtier_benchmark/protocol.cpp:406-607 | for every nested RESP value whose headers fit their types and which has fewer than 2^32 elements outstanding at any time, followed by any bytes: exactly its encoding is consumed, total_len is its length modulo 2^32, the status its last header line, hits its non-empty bulks, and keep-value builds its tree |
| `RespNested.PollInvertsEncodeAll` | memc_redis/memtier_benchmark/protocol.cpp:406-607 | a stream of values yields one matching reply per value, in order, and nothing is left |
| `RespNested.ChunkedStreamInvertsEncodeAll` | memc_redis/memtier_benchmark/protocol.cpp:406-607 | the same for the stream cut into chunks in any way |
| `RespNested.RefusedExactly` | memc_redis/memtier_benchmark/protocol.cpp:432-522 | a line is refused if and only if its first character is none of the five types |
| `RespNested.ForeignLineRefused` | memc_redis/memtier_benchmark/protocol.cpp:518-522 | a foreign line ends the call with -1 wherever it stands; it is taken, and what follows is left |
| `Scanf.StrtolReads` | memc_redis/memtier_benchmark/protocol.cpp:433-475 | the number of a header line: blanks, a sign and digits, up to the first other character, saturating |
| `RespCounter.EraseParse` | memc_redis/memtier_benchmark/protocol.cpp:406-607 | the machine with keep-value off is the tree machine without its tree: same verdict, lengths, hits and bytes on every input |
| `RespCounter.SettleKeepsSum` | memc_redis/memtier_benchmark/protocol.h:71-83 | get_next_mbulk leaves only finished arrays: the sum of bulks_count along the chain stays, and nothing is open exactly when it is 0 |
| `RespCounter.StepAgrees` | memc_redis/memtier_benchmark/protocol.cpp:432-600 | the counter m_total_bulks_count stays the sum of bulks_count along the upper_level chain if and only if no array header overflows its 32 bits |
| `RespCounter.ParseFollows` | memc_redis/memtier_benchmark/protocol.cpp:406-607 | over a whole call the chain gets ahead of the counter by 2^32 for every overflowing header and never falls back |
| `RespCounter.ParseAgrees` | memc_redis/memtier_benchmark/protocol.cpp:406-607 | over a whole call the counter still agrees with the chain, and a completed reply leaves no array open, if and only if no array header of the call overflows |
| `RespCounter.WrappedCounterCompletesEarly` | memc_redis/memtier_benchmark/protocol.cpp:432-468 | on overflow it fails: headers announcing 2^31-1, 2^31-1 and 4 elements wrap the counter to 0 and complete the reply with three arrays open |
| `RespHeap.Mbulk.AddNewElement` | memc_redis/memtier_benchmark/protocol.h:66-69 | the element is appended and the outstanding count goes down by one |
| `RespHeap.Leave` | memc_redis/memtier_benchmark/protocol.h:72-83 | one step up the parent link does what one step of the tree specification does, and keeps the shape of the linked structure |
| `RespHeap.NextMbulk` | memc_redis/memtier_benchmark/protocol.h:72-83 | the loop up the parent links ends at the innermost unfinished element, or at null with the whole tree finished |
| `RespHeap.AddBulk` | memc_redis/memtier_benchmark/protocol.cpp:502-504 | a bulk becomes the last element of the current array, and finished arrays are left |
| `RespHeap.OpenRoot` | memc_redis/memtier_benchmark/protocol.cpp:445-459 | an array header outside any array becomes the response value |
| `RespHeap.OpenChild` | memc_redis/memtier_benchmark/protocol.cpp:445-459 | an array header inside an array becomes its last element and the current one |
| `RespHeap.RedisProtocol.Clear` | memc_redis/memtier_benchmark/protocol.cpp:413-419 | a new reply starts with an empty response and zero counters |
| `RespHeap.RedisProtocol.KeepArray` | memc_redis/memtier_benchmark/protocol.cpp:445-459 | with keep-value the linked structure denotes the tree specification after an array header |
| `RespHeap.RedisProtocol.KeepBulk` | memc_redis/memtier_benchmark/protocol.cpp:494-505 | with keep-value the linked structure denotes the tree specification after an element |
| `RespHeap.RedisProtocol.Turn` | memc_redis/memtier_benchmark/protocol.cpp:411-606 | one turn of the while/switch loop on mutable state, overflowing headers included, is one step of the parser specification |
| `RespHeap.RedisProtocol.ParseResponse` | memc_redis/memtier_benchmark/protocol.cpp:406-607 | the imperative call equals the specification on any bytes; a completed kept reply leaves no array open exactly when no header overflows, and is then a heap tree that denotes the value received |
| `RespWriter.NumberLengthIsWidth` | memc_redis/memtier_benchmark/protocol.cpp:376-388 | the ladder of comparisons is the decimal width of every 32-bit number |
| `RespWriter.RedisWriter.WriteSet` | memc_redis/memtier_benchmark/protocol.cpp:271-328 | appends the RESP array of SET, SETEX or SETRANGE with its arguments and returns its length |
| `RespWriter.RedisWriter.WriteGet` | memc_redis/memtier_benchmark/protocol.cpp:336-374 | appends the RESP array of GET or GETRANGE and returns its length |
| `RespWriter.RedisWriter.WriteWait` | memc_redis/memtier_benchmark/protocol.cpp:390-404 | appends the RESP array of WAIT with correct length headers and returns its length |
| `RespWriter.RedisWriter.WriteSelect` | memc_redis/memtier_benchmark/protocol.cpp:185-199 | appends the RESP array of SELECT for any int and returns its length |
| `RespWriter.RedisWriter.WriteAuth` | memc_redis/memtier_benchmark/protocol.cpp:201-254 | appends AUTH with a password, or with user and password split at the first colon, a leading colon quoting the password |
| `RespWriter.RedisWriter.Write` | memc_redis/memtier_benchmark/protocol.cpp:185-404 | every request is appended as the array of its argument list |
| `RespWriter.WriteAll` | memc_redis/memtier_benchmark/protocol.cpp:185-404 | a run of requests leaves the concatenation of their encodings and the recorded sizes are their lengths |
| `RespWriter.LoopBack` | memc_redis/memtier_benchmark/protocol.cpp:185-607 | any sequence of requests fed to parse_response with keep-value, in chunks of any size, comes back as exactly those argument lists with the lengths the writers reported |
| `RespCommands.SetMeans` | memc_redis/memtier_benchmark/protocol.cpp:271-333 | to a server, SET with an offset writes there, without one but with an expiry it stores for that many seconds, and else it stores |
| `RespCommands.GetMeans` | memc_redis/memtier_benchmark/protocol.cpp:336-372 | GET with an offset fetches from there to the end |
| `RespCommands.WaitMeans` | memc_redis/memtier_benchmark/protocol.cpp:390-404 | WAIT asks for so many replicas within so many milliseconds |
| `RespCommands.SelectMeans` | memc_redis/memtier_benchmark/protocol.cpp:185-198 | SELECT names the database |
| `RespCommands.AuthMeans` | memc_redis/memtier_benchmark/protocol.cpp:201-260 | for every user without a colon and every password: password, :password and user:password log in as the default user and as that user |
| `RespCommands.RequestsAreUnderstood` | memc_redis/memtier_benchmark/protocol.cpp:185-404 | any sequence of requests, received in chunks of any size, is understood as it was meant, request by request |
| `ArbitraryCommand.ScanToken` | memc_redis/memtier_benchmark/config_types.cpp:366-480 | the token loop writes only inside its scratch buffer of command_len bytes and yields the specified token or a malformed verdict |
| `ArbitraryCommand.SplitCommand` | memc_redis/memtier_benchmark/config_types.cpp:349-490 | the command splits into the specified argument list, or fails on exactly the malformed quotes the specification names |
| `CommandText.SplitReadsWritten` | memc_redis/memtier_benchmark/config_types.cpp:357-490 | arguments written bare, in double quotes with raw bytes, hexadecimal escapes in either case, named and other escapes, in single quotes, or with a bare beginning and a quoted rest, with any blanks around them, are split into themselves |
| `CommandText.EveryListCanBeWritten` | memc_redis/memtier_benchmark/config_types.cpp:357-490 | every list of byte strings can be written so that it is read back |
| `CommandText.LexLoneX` | memc_redis/memtier_benchmark/config_types.cpp:384-412 | a backslash and an x without two hexadecimal digits are an x |
| `CommandText.OpenDoubleRefused` | memc_redis/memtier_benchmark/config_types.cpp:371-429 | a double quote left open or closed in the middle of a word is an error wherever it stands |
| `CommandText.OpenSingleRefused` | memc_redis/memtier_benchmark/config_types.cpp:430-449 | the same for single quotes |
| `ArbitraryCommand.KindMeaning` | memc_redis/memtier_benchmark/protocol.cpp:627-669 | exactly the two placeholders are replaced, and only arguments that mix one with other text are refused |
| `ArbitraryCommand.FormatCommand` | memc_redis/memtier_benchmark/protocol.cpp:627-669 | ends with the first fault of any argument: a refused mixture, a failed assertion on the command name, a header longer than its buffer; without one, constants carry their own wire form |
| `ArbitraryCommand.FineMeans` | memc_redis/memtier_benchmark/protocol.cpp:627-669 | formatting succeeds if and only if every argument has a kind, the first one is constant and every header of a constant fits 20 bytes |
| `ArbitraryCommand.ShortHeadersFit` | memc_redis/memtier_benchmark/protocol.cpp:651-660 | headers fit for fewer than a million arguments of fewer than ten million bytes each |
| `ArbitraryCommand.SendArg` | memc_redis/memtier_benchmark/protocol.cpp:609-625 | one argument adds its bytes, or the length header, generated value and CRLF, and returns that many |
| `ArbitraryCommand.SendCommand` | memc_redis/memtier_benchmark/client.cpp:242-275 | the bytes sent are the RESP array of the arguments with placeholders filled in, and the recorded size is their number |
| `ArbitraryCommand.CommandParsesBack` | memc_redis/memtier_benchmark/client.cpp:242-275 | the bytes sent parse back into exactly the filled-in argument list |
| `ArbitraryCommand.SendText` | memc_redis/memtier_benchmark/client.cpp:242-275 | splitting, formatting and sending a command line in turn sends the filled-in argument list, or nothing on a fault |
| `CommandText.WrittenCommandArrives` | memc_redis/memtier_benchmark/config_types.cpp:349-490 | any arguments that format, however they are written on the command line, are split into themselves, and what is sent for them parses back into the list with its placeholders filled in |
| `Crc16.TableIsContribution` | memc_redis/memtier_benchmark/cluster_client.cpp:60-93 | each of the 256 table entries is what its index byte contributes to the register eight bits later |
| `Crc16.TableStepIsByteStep` | memc_redis/memtier_benchmark/cluster_client.cpp:95-101 | one table step is eight bit steps with polynomial 0x1021 |
| `Crc16.Crc` | memc_redis/memtier_benchmark/cluster_client.cpp:95-101 | the table-driven loop computes the bit-by-bit CRC with initial value 0 of every byte string |
| `Crc16.SlotOf` | memc_redis/memtier_benchmark/cluster_client.cpp:103-107 | masking with 16383 is reduction modulo 16384 |
| `ClusterSlots.Find` | memc_redis/memtier_benchmark/cluster_client.cpp:252-268 | the first connection to a server, or none |
| `ClusterSlots.CreateKeeps` | memc_redis/memtier_benchmark/cluster_client.cpp:161-177 | a new connection takes the next index and a pool of its own; everything else stays |
| `ClusterSlots.ConnectKeeps` | memc_redis/memtier_benchmark/cluster_client.cpp:179-218 | connecting empties the pool into the discarded count and keeps every queued request |
| `ClusterSlots.HandleSlotsKeeps` | memc_redis/memtier_benchmark/cluster_client.cpp:220-293 | id equals index, servers stay pairwise distinct, pools match connections, connections keep their place and requests, nothing is lost uncounted |
| `ClusterSlots.HandleSlotsMaps` | memc_redis/memtier_benchmark/cluster_client.cpp:229-283 | every slot of the reply leads to the connection of the last entry covering it, every other slot is as before |
| `ClusterSlots.HandleSlotsCloses` | memc_redis/memtier_benchmark/cluster_client.cpp:220-293 | for every connection afterwards: one not named by the reply is closed, a live named one is left alone, and any other one, created by the reply or closed before, is named by it and live exactly if an attempt to reach its server got under way |
| `ClusterSlots.ReplayChangesNothing` | memc_redis/memtier_benchmark/cluster_client.cpp:220-293 | replaying a reply leaves the slot map and the connection list unchanged |
| `ClusterSlots.FullReplyInstalls` | memc_redis/memtier_benchmark/cluster_client.cpp:220-293 | a reply covering all slots makes every slot lead to the server the reply names |
| `ClusterSlots.SameOwnerKeepsSlot` | memc_redis/memtier_benchmark/cluster_client.cpp:220-293 | a later reply leaves a slot with its connection if and only if it gives the slot to the same server or does not cover it, in whatever order and cuts it lists the shards |
| `ClusterReply.SlotsReplyReadsBack` | memc_redis/memtier_benchmark/cluster_client.cpp:229-246 | any CLUSTER SLOTS reply, parsed from the wire with keep-value and read by the handler, is the list of shards the server meant |
| `ClusterRun.SearchConserves` | memc_redis/memtier_benchmark/cluster_client.cpp:321-358 | every key the retry loop counts ends up in a pool or is the one returned; pools stay at their bound |
| `ClusterRun.GetKeyConserves` | memc_redis/memtier_benchmark/cluster_client.cpp:311-359 | a pooled key is taken without counting, a generated one is counted, and the budget is kept |
| `ClusterRun.NextKeepsInvariant` | memc_redis/memtier_benchmark/shard_connection.cpp:325-538 | every event the source can take keeps the client well formed, conserved and within budget |
| `ClusterRun.RunKeepsInvariant` | memc_redis/memtier_benchmark/shard_connection.cpp:325-538 | the same along every run |
| `ClusterRun.ClusterRunConserves` | memc_redis/memtier_benchmark/cluster_client.cpp:295-441 | in every run generated = processed + in flight + pooled + discarded, within the budget; when the budget is processed nothing is in flight or pooled and nothing was ever discarded |
| `ClusterHistory.QueueStepHolds` | memc_redis/memtier_benchmark/shard_connection.cpp:325-338 | a reply takes the oldest request of its connection, setup and creation put requests behind, and no step touches another queue |
| `ClusterHistory.RepliesAnswerInOrder` | memc_redis/memtier_benchmark/shard_connection.cpp:325-420 | over every run each reply is taken as the answer to the oldest request still unanswered on its connection |
| `ClusterHistory.CreateQueues` | memc_redis/memtier_benchmark/cluster_client.cpp:362-414 | create_request queues one WAIT, SET or GET behind the others and counts it, or starts a new round, or finds no key |
| `ClusterHistory.ClusterRunRounds` | memc_redis/memtier_benchmark/cluster_client.cpp:362-414 | over every run the SETs and GETs created, in order, are whole rounds of ratio SETs and then ratio GETs and a beginning of one more, of which the counters say how far it has come; SETs and WAITs counted are those queued |
| `ClusterHistory.ClusterWaitRatio` | memc_redis/memtier_benchmark/cluster_client.cpp:365-371 | with WAIT on and q = a/b, over every run nothing is queued before the first WAIT, and (q+1)(waits-1) <= sets <= (q+1)*waits from then on |
| `ClusterHistory.SearchDeals` | memc_redis/memtier_benchmark/cluster_client.cpp:321-358 | a key search deals out the keys it passes to their own connections, in order and as far as there is room, and ends with the first key of the asking connection, at a closed connection, or when the budget is used up |
| `ClusterHistory.KeysComeInOrder` | memc_redis/memtier_benchmark/cluster_client.cpp:311-359 | the key of a request is the oldest one pooled for its connection or, if there is none, the first key generated for it |
| `ClusterSetup.ConnectStartsOver` | memc_redis/memtier_benchmark/cluster_client.cpp:179-200 | connecting throws the pool away, counting what was in it, starts the setup over and changes nothing else |
| `ClusterSetup.ReachStartsOver` | memc_redis/memtier_benchmark/cluster_client.cpp:249-275 | a shard without a live connection gets one with an empty pool and its setup to do; a live one is left alone |
| `ClusterSetup.SetupLaw` | memc_redis/memtier_benchmark/shard_connection.cpp:346-420 | over every run a live connection is through with authentication, or with its database, if and only if it need not or has been accepted since it was opened |
| `ClusterSetup.DataAfterSetup` | memc_redis/memtier_benchmark/shard_connection.cpp:475-490 | no request is created on a connection before the setup the options ask for has been accepted on it |
| `ClusterSetup.MovedAsksAgain` | memc_redis/memtier_benchmark/cluster_client.cpp:416-450 | a MOVED reply empties the pool of its connection, makes it ask for the slots and changes nothing else but the count of replies |
| `ClusterSetup.OtherRepliesKeepPools` | memc_redis/memtier_benchmark/shard_connection.cpp:372-420 | every other reply leaves pools and slots states alone, unless it brings slots |
| `ClusterSetup.SetupAsksForSlots` | memc_redis/memtier_benchmark/shard_connection.cpp:346-370 | setup commands are sent once each, AUTH first and CLUSTER SLOTS last |
| `ClusterSetup.PoolsKnowSlots` | memc_redis/memtier_benchmark/cluster_client.cpp:311-450 | over every run keys are pooled only for connections that know the slots |
| `ClusterSetup.NoDataUntilSlots` | memc_redis/memtier_benchmark/shard_connection.cpp:475-490 | after a MOVED reply nothing more is created on the connection, and its pool stays empty, until it has been told the slots again or is closed |
| `ClusterProgress.MayGoOn` | memc_redis/memtier_benchmark/cluster_client.cpp:295-309 | an open connection that is set up and has room may create a request: with a pooled key always, else while the budget lasts and the generator yields its keys |
| `ClusterProgress.SomeRunCompletes` | memc_redis/memtier_benchmark/shard_connection.cpp:372-492 | for all options and key slots some run from the start has every request of the budget answered |
| `ClusterRun.SearchRoutes` | memc_redis/memtier_benchmark/cluster_client.cpp:321-358 | keys are pooled with the connection their slot maps to, and the key returned belongs to the asking connection |
| `ClusterRun.NextRoutes` | memc_redis/memtier_benchmark/shard_connection.cpp:325-538 | for each slot: a step keeps every pooled and sent key of it in place if and only if the slot stays with its connection or no key of it is waiting |
| `ClusterRun.NextKeepsOwner` | memc_redis/memtier_benchmark/shard_connection.cpp:325-538 | a step whose topology, if it brings one, does not give the slot to another server keeps its keys in place and its server |
| `ClusterRun.ClusterRunRoutesExactly` | memc_redis/memtier_benchmark/cluster_client.cpp:220-359 | over every run, the keys of a slot are with the connection it maps to at every point if and only if no key of it is waiting whenever the slot moves |
| `ClusterRun.SlotStaysRouted` | memc_redis/memtier_benchmark/cluster_client.cpp:220-359 | slot by slot over every run: once a reply covers the slot and while no later one gives it to another server, it leads to that server and all its pooled and sent keys are there, whatever happens to other slots |
| `ClusterRun.ClusterRunRoutes` | memc_redis/memtier_benchmark/cluster_client.cpp:220-359 | while replies give one topology covering all slots, in any order, cut in any way, in part or in full: the slot map is that topology, every pooled key and every SET or GET in flight is with the connection its slot maps to, pools hold at most 1000000 keys |
| `ClusterKeys.KeysFollowCrc` | memc_redis/memtier_benchmark/cluster_client.cpp:311-359 | the same with the slots the program computes: every pooled or sent key is with the connection that the bit-by-bit CRC16 of prefix and key index, modulo 16384, maps to |
| `ClusterClient.Client.ConnectShardConnection` | memc_redis/memtier_benchmark/cluster_client.cpp:179-218 | in place: the pool is emptied, address and port are saved, the connection attempt sets the state |
| `ClusterClient.Client.FindConnection` | memc_redis/memtier_benchmark/cluster_client.cpp:252-268 | the search loop returns the first match or the number of connections |
| `ClusterClient.Client.UpdateRange` | memc_redis/memtier_benchmark/cluster_client.cpp:276-279 | exactly the slots of the range lead to the given connection afterwards |
| `ClusterClient.Client.CloseMarked` | memc_redis/memtier_benchmark/cluster_client.cpp:285-292 | the final loop closes exactly the marked connections |
| `ClusterClient.Client.HandleClusterSlots` | memc_redis/memtier_benchmark/cluster_client.cpp:220-293 | the loops on the object compute the specified slot map, connections and pools |
| `ClusterClient.Client.SearchKey` | memc_redis/memtier_benchmark/cluster_client.cpp:321-358 | the retry loop on the object is the specified search over the generated keys |
| `ClusterClient.Client.GetKeyForConn` | memc_redis/memtier_benchmark/cluster_client.cpp:311-359 | a pooled key first, else the search |
| `ClusterClient.Client.CreateRequest` | memc_redis/memtier_benchmark/cluster_client.cpp:362-413 | WAIT, SET, GET or counter reset as the ratios say, with the key of get_key_for_conn |
| `ClusterClient.Client.FillPipeline` | memc_redis/memtier_benchmark/shard_connection.cpp:475-492 | the loop is a run of the step system and stops because the client is finished, the pipeline is full, setup is under way or the connection must hold |
| `Reconnect.RepliesKeepBooks` | memc_redis/memtier_benchmark/shard_connection.cpp:380-434 | the reply loop keeps the account of requests in flight |
| `Reconnect.NoMultipleSkipped` | memc_redis/memtier_benchmark/shard_connection.cpp:380-452 | inside a batch of replies no multiple of the interval is passed over, and at one nothing is in flight |
| `Reconnect.DueMeansIdle` | memc_redis/memtier_benchmark/shard_connection.cpp:440-442 | when a reconnection is due the pipeline is empty, setup commands included |
| `Reconnect.ReconnectRunIsSafe` | memc_redis/memtier_benchmark/client.cpp:226-240 | in every run (processed mod R) + (generated - processed) <= R, and a full run of n requests reconnects exactly floor((n-1)/R) times |
| `Reconnect.ReconnectRunNeverAsserts` | memc_redis/memtier_benchmark/shard_connection.cpp:436-452 | in every reachable state and for every batch of replies the assertion before reconnecting holds |
| `ReconnectProgress.HoldsExactly` | memc_redis/memtier_benchmark/client.cpp:226-240 | the client holds back if and only if the budget is used up or the requests up to the next multiple of the interval are all generated and some unanswered |
| `ReconnectProgress.RunMayGoOn` | memc_redis/memtier_benchmark/client.cpp:226-240 | in every reachable state that is connected, set up and idle, with budget left, a request may be created |
| `ReconnectProgress.EveryRunCanComplete` | memc_redis/memtier_benchmark/shard_connection.cpp:372-492 | no run without a broken connection or a refused setup command gets stuck: it can be continued until the whole budget is answered, with one reconnection at every multiple of the interval but the last |
| `ReconnectProgress.SetupLaw` | memc_redis/memtier_benchmark/shard_connection.cpp:346-420 | while connected, authentication or the database is settled if and only if it is not asked for or has been accepted since the last connect |
| `ReconnectProgress.DataAfterSetup` | memc_redis/memtier_benchmark/shard_connection.cpp:475-490 | no data request is created before the setup asked for has been accepted on the connection at hand |
| `ReconnectProgress.SetupInOrder` | memc_redis/memtier_benchmark/shard_connection.cpp:346-370 | AUTH goes out before SELECT, each only if it has not been sent |
| `Reconnect.Client.HandleBatch` | memc_redis/memtier_benchmark/shard_connection.cpp:380-434 | the imperative reply loop equals its specification |
| `Reconnect.Client.ProcessResponse` | memc_redis/memtier_benchmark/shard_connection.cpp:372-454 | the imperative callback equals its specification, and the source assertion on the empty pipeline is proved in place |
| `DumpFile.SkimQuoted` | memc_redis/memtier_benchmark/file_io.cpp:117-163 | inside quotes any quoted text is read through whole while more than it is wanted |
| `DumpFile.FieldReadsBack` | memc_redis/memtier_benchmark/file_io.cpp:106-192 | a non-empty quoted field of any bytes reads back exactly and leaves the rest untouched |
| `DumpFile.NumbersReadBack` | memc_redis/memtier_benchmark/file_io.cpp:219-236 | the eight header numbers written by the writer are read back by fscanf, stopping at the key |
| `DumpFile.KeyReadsBack` | memc_redis/memtier_benchmark/file_io.cpp:238-255 | the key column reads back if and only if the key is non-empty and has no NUL |
| `DumpFile.LineReadsBack` | memc_redis/memtier_benchmark/file_io.cpp:206-287 | a written line reads back as its item and stops exactly at the line end if the key is non-empty and NUL-free, and is refused otherwise |
| `DumpFile.EmptyKeyRefused` | memc_redis/memtier_benchmark/file_io.cpp:117-117 | an item with an empty key is written and then refused by the reader |
| `DumpFile.LinesReadBack` | memc_redis/memtier_benchmark/file_io.cpp:206-287 | every list of such items is read back item for item to the end of the file |
| `DumpStreams.DumpRoundTrip` | memc_redis/memtier_benchmark/file_io.cpp:59-86 | a file with the header and any such items opens and reads back the same list |
| `DumpFormat.LineFormat` | memc_redis/memtier_benchmark/file_io.cpp:380-410 | a line is the eight header fields in their order, the quoted key and the quoted data, separated by comma and blank, and a line feed |
| `DumpFormat.CrlfLineEnds` | memc_redis/memtier_benchmark/file_io.cpp:268-277 | a line ended by CRLF reads back as well |
| `DumpFormat.UnquotedReadsBack` | memc_redis/memtier_benchmark/file_io.cpp:106-195 | a field without quotes, commas or line ends need not be quoted |
| `DumpFormat.ShortHeaderRefused` | memc_redis/memtier_benchmark/file_io.cpp:219-236 | a line whose header lacks a number is refused |
| `DumpFormat.BadDataRefused` | memc_redis/memtier_benchmark/file_io.cpp:246-266 | so is one without the comma after the key, with data shorter than announced, or cut off inside the data |
| `DumpStreams.FileWriter.GetQuotedStr` | memc_redis/memtier_benchmark/file_io.cpp:343-374 | doubles every quote and stays inside a buffer of twice the length |
| `DumpStreams.FileWriter.WriteItem` | memc_redis/memtier_benchmark/file_io.cpp:380-417 | appends exactly the line of the item; fails exactly on an empty data column |
| `DumpStreams.FileReader.OpenFile` | memc_redis/memtier_benchmark/file_io.cpp:59-86 | reads at most 78 characters of the first line and accepts exactly the expected prefix |
| `DumpStreams.FileReader.ReadField` | memc_redis/memtier_benchmark/file_io.cpp:106-192 | the character loop with its three flags computes the specified field and rest |
| `DumpStreams.FileReader.ReadItem` | memc_redis/memtier_benchmark/file_io.cpp:206-287 | header, key, delimiter, data and end of line in turn, with every refusal |
| `RunStats.BumpAdds` | memc_redis/memtier_benchmark/run_stats_types.cpp:62-84 | an update adds exactly its own contribution to the counters of its command and nothing to the others |
| `RunStats.RunAccounts` | memc_redis/memtier_benchmark/run_stats.cpp:154-235 | after any updates the seconds add up to the independent tally of the updates, and the totals to their count, bytes and latency |
| `RunStats.RunConserves` | memc_redis/memtier_benchmark/run_stats.cpp:143-235 | after set_end_time the seconds strictly increase, and their operations, bytes and latency add up to m_totals and to the updates, whatever the order of timestamps |
| `RunStats.RunIsTimely` | memc_redis/memtier_benchmark/run_stats.cpp:154-161 | with timestamps in order every second holds exactly the updates that fell in it |
| `StatsMerge.MergeIsPointwise` | memc_redis/memtier_benchmark/run_stats.cpp:705-736 | merge is pointwise addition keyed by second and keeps seconds strictly increasing |
| `StatsMerge.SumMerge` | memc_redis/memtier_benchmark/run_stats.cpp:705-736 | merge loses and invents nothing in any counter |
| `StatsMerge.SortKeeps` | memc_redis/memtier_benchmark/run_stats.cpp:734-736 | sorting by second orders distinct seconds and keeps every entry |
| `StatsMerge.MergeAnyOrder` | memc_redis/memtier_benchmark/client.cpp:632-639 | the merged statistics are the same for every order of the clients |
| `StatsMerge.MergedTally` | memc_redis/memtier_benchmark/client.cpp:632-639 | the merged seconds add up to the updates of all clients |
| `StatsMerge.SummaryCountsEveryReply` | memc_redis/memtier_benchmark/run_stats.cpp:752-791 | summarize counts every reply of every client once, with its bytes and latency |
| `StatsMeaning.RunMeans` | memc_redis/memtier_benchmark/run_stats.cpp:154-240 | every counter of every command, summed over the seconds of a run, is the total of what it measures over the replies it is about: operations, bytes, latency, MOVED, ASK, hits, misses |
| `StatsMeaning.MergedMeans` | memc_redis/memtier_benchmark/run_stats.cpp:154-240 | the same for the merged statistics of any number of clients |
| `StatsClient.Statistics.RollCurStats` | memc_redis/memtier_benchmark/run_stats.cpp:154-161 | a later second pushes the current entry and starts an empty one |
| `StatsClient.Statistics.UpdateGetOp` | memc_redis/memtier_benchmark/run_stats.cpp:163-170 | one GET is added to the current second and the totals |
| `StatsClient.Statistics.UpdateSetOp` | memc_redis/memtier_benchmark/run_stats.cpp:172-179 | one SET is added to the current second and the totals |
| `StatsClient.Statistics.UpdateMovedOp` | memc_redis/memtier_benchmark/run_stats.cpp:181-197 | one moved GET or SET is added, counted as moved |
| `StatsClient.Statistics.UpdateAskOp` | memc_redis/memtier_benchmark/run_stats.cpp:199-215 | one ASK-redirected GET or SET is added, counted as such |
| `StatsClient.Statistics.UpdateWaitOp` | memc_redis/memtier_benchmark/run_stats.cpp:217-224 | one WAIT is added with no bytes |
| `StatsClient.Statistics.UpdateArbitraryOp` | memc_redis/memtier_benchmark/run_stats.cpp:226-235 | one arbitrary command is added at its index |
| `StatsClient.Statistics.Handle` | memc_redis/memtier_benchmark/client.cpp:373-411 | every handled reply goes to the update of its kind |
| `StatsClient.Statistics.HandleAll` | memc_redis/memtier_benchmark/client.cpp:373-411 | a client from its first reply to set_end_time leaves increasing seconds that add up to every reply, and matching totals |
| `StatsClient.Statistics.SetEndTime` | memc_redis/memtier_benchmark/run_stats.cpp:143-152 | the current second joins the list |
| `StatsClient.Statistics.MergeEntry` | memc_redis/memtier_benchmark/run_stats.cpp:717-731 | the inner loop merges into the first entry of that second or appends |
| `StatsClient.Statistics.Merge` | memc_redis/memtier_benchmark/run_stats.cpp:705-739 | the nested loops and the conditional sort compute the specified merge, and totals add up |
| `StatsClient.Statistics.Summary` | memc_redis/memtier_benchmark/run_stats.cpp:752-791 | the accumulating loop computes the specified operation, byte and latency counts |
| `StatsClient.ArTotals` | memc_redis/memtier_benchmark/run_stats_types.cpp:103-129 | the three sums over arbitrary commands |
| `JsonWriter.WriteObjTracks` | memc_redis/memtier_benchmark/JSON_handler.cpp:69-78 | a written object is one more named member of the innermost nesting, its value without the blanks outside strings |
| `JsonWriter.PaddedNumber` | memc_redis/memtier_benchmark/memtier_benchmark.cpp:225-226 | a number padded with blanks on either side is written as the number |
| `JsonWriter.OpenNestingTracks` | memc_redis/memtier_benchmark/JSON_handler.cpp:85-95 | an opened nesting is one more empty level |
| `JsonWriter.CloseInnerTracks` | memc_redis/memtier_benchmark/JSON_handler.cpp:102-120 | closing overwrites exactly the comma after the last member (or a tab) and makes the nesting a member of the one around it |
| `JsonWriter.RunTracks` | memc_redis/memtier_benchmark/JSON_handler.cpp:35-120 | after every legal sequence of calls with clean titles and balanced values the file tracks the call tree |
| `JsonWriter.OverwritesSeparator` | memc_redis/memtier_benchmark/JSON_handler.cpp:102-120 | after any calls, with any titles and values, the character the next close overwrites is a comma or a tab |
| `JsonWriter.CloseAllRenders` | memc_redis/memtier_benchmark/JSON_handler.cpp:54-62 | the destructor closes every open nesting |
| `JsonWriter.FileFollowsTree` | memc_redis/memtier_benchmark/JSON_handler.cpp:35-137 | with clean titles and balanced values the file of a run ended by the destructor is, blanks outside strings removed, the rendering of the call tree with single commas between members and none after the last |
| `JsonWriter.FileIsTree` | memc_redis/memtier_benchmark/JSON_handler.cpp:35-137 | for every legal call sequence ended by the destructor, whatever the titles and values, the file is that rendering if and only if every title and value has its quotes balanced and no title has a blank outside them |
| `JsonWriter.SmallReport` | memc_redis/memtier_benchmark/JSON_handler.cpp:35-137 | how a file looks: one line per member and closing bracket, one tab per level, commas only between members |
| `JsonWriter.QuoteInOption` | memc_redis/memtier_benchmark/memtier_benchmark.cpp:191-191 | an option with a quote in it, printed between quotes as it stands, breaks the file |
| `JsonWriter.LabelSolid` | memc_redis/memtier_benchmark/JSON_handler.cpp:85-95 | a title that is the body of a JSON string is written as it stands |
| `JsonWriter.QuoteInTitle` | memc_redis/memtier_benchmark/run_stats.cpp:1207-1209 | a nesting titled with the name of a command whose first word has an odd number of quotes and no backslash breaks the file, wherever it stands |
| `JsonWriter.QuotedCommand` | memc_redis/memtier_benchmark/config_types.cpp:311-320 | the command text 'a"b' c is one: its name is the first word as given, with one quote |
| `JsonWriter.JsonHandler.constructor` | memc_redis/memtier_benchmark/JSON_handler.cpp:35-47 | the file starts with an open object |
| `JsonWriter.JsonHandler.Print` | memc_redis/memtier_benchmark/JSON_handler.cpp:69-78 | printing at the file position overwrites and extends |
| `JsonWriter.JsonHandler.Beautify` | memc_redis/memtier_benchmark/JSON_handler.cpp:125-137 | an optional line feed and one tab per level |
| `JsonWriter.JsonHandler.WriteObject` | memc_redis/memtier_benchmark/JSON_handler.cpp:69-78 | name, value, line feed with tabs, comma |
| `JsonWriter.JsonHandler.Open` | memc_redis/memtier_benchmark/JSON_handler.cpp:85-95 | title, opener, one more level |
| `JsonWriter.JsonHandler.Close` | memc_redis/memtier_benchmark/JSON_handler.cpp:102-120 | one character back, closer, one level less, and the level left is returned |
| `JsonWriter.JsonHandler.Finish` | memc_redis/memtier_benchmark/JSON_handler.cpp:54-62 | closes until no level is left |
| `CpuSet.DescUnion` | womix/reporter/hwdrc_validation_cases.py:35-52 | two strings joined by any character but a digit and a dash denote the union of the cores of the two, whatever they contain |
| `CpuSet.NumberDesc` | womix/reporter/hwdrc_validation_cases.py:35-52 | a decimal number denotes that core |
| `CpuSet.RangeDesc` | womix/reporter/hwdrc_validation_cases.py:25-52 | a-b denotes the cores between a and b in either order, and of a longer chain of dashes only the two ends count |
| `CpuSet.JoinDesc` | womix/reporter/hwdrc_validation_cases.py:109-110 | a comma-joined non-empty list denotes the union of its pieces |
| `CpuSet.RunsCover` | womix/reporter/hwdrc_validation_cases.py:66-73 | the runs found by the printing loop are exactly the cores of the set |
| `CpuSet.RunsAreMaximal` | womix/reporter/hwdrc_validation_cases.py:66-73 | every printed run is maximal and the runs are in increasing order |
| `CpuSet.StrRoundTrip` | womix/reporter/hwdrc_validation_cases.py:54-75 | from_desc(str(c)) == c for every non-empty core set |
| `Bits.ClearLowest` | womix/reporter/hwdrc_validation_cases.py:84-90 | tmp & (tmp - 1) clears exactly one bit |
| `CpuSplit.Len` | womix/reporter/hwdrc_validation_cases.py:84-90 | the bit-clearing loop returns the number of cores |
| `CpuSplit.AllCoresRoundTrip` | womix/reporter/hwdrc_validation_cases.py:92-93 | from_desc(c.all_cores()) == c for every non-empty core set |
| `CpuSplit.SomeCore` | womix/reporter/hwdrc_validation_cases.py:19-52 | every description, the empty one included, denotes at least one core |
| `CpuSplit.SplitPartitions` | womix/reporter/hwdrc_validation_cases.py:96-112 | with both parts non-empty the split is a partition with floor(total*ratio/100) high cores, each below every low core |
| `CpuSplit.SplitExactly` | womix/reporter/hwdrc_validation_cases.py:96-112 | the split is a partition if and only if 100 <= total*ratio < 100*total; otherwise an empty part turns into core 0 |
| `CpuSplit.RatioZero` | womix/reporter/hwdrc_validation_cases.py:96-112 | with ratio 0 the split of any set is no partition |
| `CpuSplit.ParseDesc` | womix/reporter/hwdrc_validation_cases.py:19-52 | the character loop computes the specified mask |
| `CpuSplit.MakeMask` | womix/reporter/hwdrc_validation_cases.py:25-33 | the loop sets exactly the bits between the two ends |
| `CpuSplit.Print` | womix/reporter/hwdrc_validation_cases.py:54-75 | the loop prints the specified text, and reading it gives the set back |
| `CpuSplit.Iterate` | womix/reporter/hwdrc_validation_cases.py:77-82 | the generator yields the cores in increasing order |
| `CpuSplit.SplitCores` | womix/reporter/hwdrc_validation_cases.py:96-112 | the split loop computes the two specified masks |
| `CpuPool.GetCpuPool` | vm_cloud-init.py:23-35 | the popping loop returns the sibling-paired list, and raises exactly for an odd number of CPUs |
| `CpuPool.PairedAt` | vm_cloud-init.py:29-33 | siblings sit side by side in the pool |
| `CpuPool.PairedPermutes` | vm_cloud-init.py:29-33 | the pool is a permutation of the CPUs |
| `CpuPool.PinOne` | vm_cloud-init.py:954-965 | one VM gets the last CPUs of the pool, as many as asked for but at least one, or the pool runs out |
| `CpuPool.PinAll` | vm_cloud-init.py:954-965 | all VMs get their sets exactly when total demand fits the pool |
| `CpuPool.PinnedDisjoint` | vm_cloud-init.py:954-965 | every VM gets the number of CPUs asked for, or one if that is less, and no CPU is given twice |
| `CpuPool.NoSharedCore` | vm_cloud-init.py:954-965 | no two VMs share a physical core if and only if every VM before the last one gets an even number of CPUs |
| `CpuPool.ZeroSizeShares` | vm_cloud-init.py:956-956 | sizes 0, 2 and 2 put the first two VMs on one core, because a VM of size 0 still takes a CPU |
| `KeyRange.RangesAscend` | memc_redis/memtier_benchmark/client.cpp:78-88 | the range of every client but the last is non-empty and ends before any later one starts |
| `KeyRange.SplitsExactly` | memc_redis/memtier_benchmark/client.cpp:75-90 | the ranges are non-empty, pairwise disjoint and cover exactly [min, max] if and only if the last client starts inside it |
| `KeyRange.TooFewKeys` | memc_redis/memtier_benchmark/client.cpp:75-90 | five clients on the keys 0 to 10 leave nothing for the last one |
| `KeyRange.EnoughKeysSplit` | memc_redis/memtier_benchmark/client.cpp:75-90 | that holds when key_maximum - key_minimum >= N(N-1) |
| `KeyRange.KeyGenerator.GetKeyIndex` | memc_redis/memtier_benchmark/obj_gen.cpp:364-383 | the n-th call yields key n of the range, going round, and of an empty range always its lower end |
| `KeyRange.EveryKeyWritten` | memc_redis/memtier_benchmark/memtier_benchmark.cpp:272-277 | with the budget of -n allkeys and P:P, for any number of clients, every key of [min, max] is written by its owner and by no other client, exactly once unless the owner is the last client |
| `KeyRange.OnlyKeysWritten` | memc_redis/memtier_benchmark/memtier_benchmark.cpp:272-277 | no client writes a key outside [min, max] if and only if the ranges are a partition of it |
| `KeyRange.AllKeysWritten` | memc_redis/memtier_benchmark/memtier_benchmark.cpp:272-277 | with the budget of -n allkeys and P:P, every client but the last writes each of its keys exactly once and nothing else, the last one each at least once, or one key above the maximum if its range is empty |
| `Scheduler.NextCommand` | memc_redis/memtier_benchmark/config_types.h:165-180 | terminates and returns the entry at the current position of the weighted list, moving on by one; zero weights are skipped |
| `Scheduler.NextSize` | memc_redis/memtier_benchmark/config_types.cpp:195-207 | the same schedule with the test at the head of the loop |
| `Scheduler.NthResult` | memc_redis/memtier_benchmark/config_types.h:165-180 | the position after n results is n mod the total weight |
| `Scheduler.Schedule` | memc_redis/memtier_benchmark/config_types.h:165-180 | result n from the initial state is entry n mod W of the list with each item repeated weight times |
| `Scheduler.ScheduleSizes` | memc_redis/memtier_benchmark/config_types.cpp:195-207 | the same for get_next_size |
| `Scheduler.WaitRatio` | memc_redis/memtier_benchmark/client.cpp:288-293 | with WAIT on and q = a/b, (q+1)(waits-1) <= sets <= (q+1)*waits in every state after the first call |
| `Scheduler.OpsFollowRatio` | memc_redis/memtier_benchmark/client.cpp:277-330 | the operations of any number of calls, WAITs aside, are whole rounds of SETs and then GETs in the ratio given, an MGET counting as many as it has keys, and a beginning of one more; SETs and WAITs counted are those returned |
| `Scheduler.OpsFit` | memc_redis/memtier_benchmark/client.cpp:277-330 | an MGET has as many keys as allowed unless fewer complete the round, and nothing is returned only where a round ends |
| `MemcacheText.ResumesExactly` | memc_redis/memtier_benchmark/protocol.cpp:782-871 | a call can be taken up again after any split if and only if no turn drops a value before all of it has arrived, which needs a 32-bit wrap of the announced length |
| `MemcacheText.CutSwallows` | memc_redis/memtier_benchmark/protocol.cpp:842-866 | when the sum wraps, a dropped value swallows whatever byte arrives next |
| `MemcacheReplies.HugeValueSwallows` | memc_redis/memtier_benchmark/protocol.cpp:842-866 | from the initial state the line VALUE k 0 4294967294 and one byte cannot be resumed: the next byte is swallowed |
| `MemcacheText.ChunkingIsInvisible` | memc_redis/memtier_benchmark/protocol.cpp:782-871 | a cut of a stream into chunks at whose ends no value was cut short gives the same replies, state and leftover as the stream at once |
| `MemcacheText.ChunkingExactly` | memc_redis/memtier_benchmark/protocol.cpp:782-871 | cuts anywhere in a stream never show, whatever comes next, if and only if no beginning of the stream drops a value before all of it has arrived |
| `MemcacheText.ShortNeverCuts` | memc_redis/memtier_benchmark/protocol.cpp:842-866 | announced lengths below 2^32 - 2 are enough for that |
| `MemcacheReplies.AnnouncedLength` | memc_redis/memtier_benchmark/protocol.cpp:806-819 | sscanf finds the announced length in every well-formed VALUE line |
| `MemcacheReplies.ReplyParses` | memc_redis/memtier_benchmark/protocol.cpp:782-871 | a retrieval reply with any items is consumed exactly, with one hit per item and the length of all its bytes |
| `MemcacheStreams.StoredParses` | memc_redis/memtier_benchmark/protocol.cpp:822-827 | STORED is a complete reply of eight bytes without hits or error |
| `MemcacheStreams.FourFields` | memc_redis/memtier_benchmark/protocol.cpp:806-821 | a VALUE line announces its fourth field, whatever blanks and signs it has and whatever follows |
| `MemcacheStreams.MissingKey` | memc_redis/memtier_benchmark/protocol.cpp:812-818 | one without a key announces nothing |
| `MemcacheStreams.MissingFlags` | memc_redis/memtier_benchmark/protocol.cpp:812-818 | nor one without a number behind the key |
| `MemcacheStreams.MissingSize` | memc_redis/memtier_benchmark/protocol.cpp:812-818 | nor one without a second number |
| `MemcacheStreams.RefusedExactly` | memc_redis/memtier_benchmark/protocol.cpp:806-840 | a line is refused if and only if it starts with none of VALUE, END and STORED or is a VALUE line that announces nothing; only the former sets the error flag |
| `MemcacheStreams.RefusedLineParses` | memc_redis/memtier_benchmark/protocol.cpp:806-840 | such a line ends the call with -1; it is taken, and what follows is left |
| `MemcacheStreams.StreamParses` | memc_redis/memtier_benchmark/protocol.cpp:782-871 | a stream of answers to SETs and GETs in any order yields one matching reply for each, in order, and nothing is left |
| `MemcacheStreams.ChunkedStreamParses` | memc_redis/memtier_benchmark/protocol.cpp:782-871 | the same for the stream cut into chunks in any way |
| `MemcacheReplies.MemcacheProtocol.HandleLine` | memc_redis/memtier_benchmark/protocol.cpp:795-839 | the line cases on the object equal the specification |
| `MemcacheReplies.MemcacheProtocol.ParseResponse` | memc_redis/memtier_benchmark/protocol.cpp:782-871 | the imperative loop equals the specification |

## Left out

- Sockets, libevent, TLS, DNS, threads and clocks: buffers are byte sequences, connection and reply events are steps or parameters, timestamps are parameters.
- Random and Gaussian key generation, HDR histograms and all floating-point rates and percentiles: generated keys are parameters; only the integer counters are modelled.
- Memory allocation failures, freeing and the fixed buffers of `sscanf` in the memcache parser (50 and 256 bytes).
- The memcache binary protocol, the memcache keep-value path and the memcache writers.
- `verify_client`, whose accounting bumps processed without generated, so the pipeline invariants do not apply to it.
- `handle_ask` and `handle_moved` statistics inside the cluster step system: they are updates of `RunStats`.
- Option parsing, configuration printing, and table and CSV reports.
- The second copy of the benchmark under `memc_redis/core_scale`.
- MGET: refused by the Redis writer (`write_command_multi_get` asserts), so only its place in the ratio counters is modelled, in `Scheduler.CreateRequest`.
- RespNested.ParseInvertsEncode: bulks shorter than 2^63 - 2 bytes, arrays of fewer than 2^31 elements and fewer than 2^32 elements outstanding, the limits of the C types; `RespCounter` says what happens beyond the last one.
- RespParser.Parse: the sum of an announced bulk length and 2 does not overflow; for a length of 2^63 - 2 or more it is undefined in the program.
- RespHeap.RedisProtocol.ParseResponse: a reply is not started while an array of the last one is open; that state arises only from an overflow, and the program then frees the element it still refers to.
- ArbitraryCommand.FormatCommand: a header longer than its 20-byte buffer ends with the fault `Overruns`; what the program reads behind the buffer is not modelled.
- ArbitraryCommand.SplitCommand: the command holds no NUL, because it is a C string.
- ClusterSlots.HandleSlotsMaps: slot numbers of the reply are within 0 to 16383, as the program writes its array without a check.
- ClusterRun.SearchConserves: the retry loop need not end, so it is stated for every finite list of generated keys, and an unfinished search is a possible outcome.
- ClusterRun.ClusterRunRoutes: for slots that keep their server; `ClusterRun.ClusterRunRoutesExactly` says when keys are misplaced after a slot has moved.
- ClusterRun.ClusterRunConserves: `discarded` is a history variable for the keys lost when a pool is emptied; the program does not count them, so a cluster run need not finish.
- Reconnect.ReconnectRunIsSafe: every connection attempt succeeds, as the program asserts, and each request gets one reply, in order.
- DumpFile.LineReadsBack: items within the C integer ranges whose data ends in CRLF; a file that ends inside a key, where the program dereferences null, is refused like the other errors; a column shorter than announced leaves uninitialised bytes in the program and is not modelled as such.
- RunStats.RunConserves: counters do not wrap at 32 or 64 bits; updates made after `set_end_time` are outside the claim; the latency total, a double in the program, is an integer.
- StatsMerge.SortKeeps: `std::list::sort` is modelled as insertion; on distinct seconds the result is unique.
- JsonWriter.FileIsTree: only nestings opened by a call are closed by a call, the outermost one by the destructor.
- CpuSplit.SplitCores: the comparison `i <= total * ratio / 100` is exact rational arithmetic; Python divides in floating point, which agrees for any realistic number of cores.
- CpuPool.PinAll: affinity on; without affinity the program pops one CPU and ignores it.
- KeyRange.SplitsExactly: `key_minimum <= key_maximum`, and no 64-bit wrap.
- KeyRange.AllKeysWritten: a client makes as many SETs as its budget, which is what ratio 1:0 means; the request loop itself is in `Reconnect` and `Scheduler`.
- Scheduler.NextCommand: total weight is positive; with all weights zero the loop of the program does not end.
