# Verification of jedis-cpp

A Dafny model of the parts of jedis-cpp that carry an algorithm or a protocol, with proofs about them:

- **The reader/writer lock** (`RWLockSteps`, `RWLockTheorems`, `RWLock`): the hand-written lock with two
  auto-reset events and four 32-bit counters. Every critical section and every return from a wait is one
  atomic step of any of n threads; the class `CRWLock` runs the original's retry loops against any schedule,
  and the schedules produce every run.
- **The consistent-hash ring** (`Hashing`, `RingOrder`, `Ring`, `Shards`, `Labels`): hashing with an arbitrary
  MD5, building with "first insert wins", and routing. All theorems allow colliding points.
- **Ownership** (`ShardedObjects`, `DataCenterObjects`): shards, connections and the two rings as heap objects.
  `delete` needs a live object, so the verified methods delete nothing twice. Every constructor enters its
  object into a ledger; what is in the ledger is dead as soon as no ring owns it.
- **The resharding messages** (`Center`): what "0", "1" and "3" make of the two rings and the state.
- **Requests** (`Cutover`, `RedisTableObjects`): what reads and writes leave on the servers, for the
  `do_jedis_*` pair and for the `execute` overloads.
- **Clients and subscriber together** (`Guarded`, `ConcurrentCutover`): requests under the read guard and
  updates under the write guard, each in small steps, on top of the lock. Clients may use the pair or the
  overloads.
- **The counting event** (`Event`), **the splitter** (`Splitter`) and **the replacer** (`Replacer`), with
  `Strings` for find, "%d" and atoi.

Network answers, connection attempts, wake-ups and timeouts are inputs. MD5 is any function from texts to
four bytes.

What the code does not guarantee, and when it does:

- `execute` sends the second command of a write to the first connection again (`DataCenter.cpp:323` and the
  other overloads). The overloads act like the `do_jedis_*` pair exactly if no creating write is due a second
  time (`Cutover.OverloadsArePairsIff`). After the exchange of the rings a write survives exactly if both rings
  use the same server, or the second one held the value already (`Cutover.OverloadsLoseWriteIff`), and a push
  takes effect twice (`Cutover.RepeatedPushDoubles`).
- The pair skips the second command when the connection names match. A write survives the exchange exactly if
  the names differ or the server is the same, or the second one held the value already
  (`Cutover.CutoverKeepsWriteIff`). Names are cut off after 30 characters, so two servers with long host names
  can be taken for one (`Cutover.LongNamesLoseWrites`); a name belongs to one address only exactly if it has at
  most 29 characters (`Cutover.NameIsUniqueIff`).
- Deleting is not announced as a write. A deleted key stays deleted exactly if both rings use the same server
  for it, or the second server had no value and got none (`Cutover.DeletedKeyStaysDeletedIff`).
- The read guard is shared. Every run of pair clients mirrors the last SET of a key to the second ring exactly
  if both rings use one server for it, or there is no client, or there is one and the servers have different
  names (`ConcurrentCutover.LastSetMirroredIff`). Overlapping writes can leave different values on the two
  servers (`ConcurrentCutover.OverlappingWritesCanDiverge`); writes that do not overlap survive the exchange
  (`ConcurrentCutover.CutoverInOneRun`).
- The repeated command of an overload can bring back a value that another client has overwritten. In every run
  the current ring's server holds the last SET of a key, by the order of the first commands, exactly outside a
  resharding, or with at most one client, or if the key's two connections have one name
  (`ConcurrentCutover.LastSetHeldIff`).
- A start message leaves the resharding state without a second ring exactly if nothing in its table parses,
  there was no second ring, and the table is not empty or the state was syning already; or if it repeats a start
  and no server answers (`Center.SyningWithoutSecondRingIff`). The end message then leaves no ring at all
  (`Center.CurrentRingIsLostIff`); one address without a colon is enough (`Center.UnparsableStartLosesRings`).
- The name of a NULL connection is read exactly for a write during a resharding with an empty current ring and
  a second ring that serves (`Cutover.NullConnectionIff`). After conforming messages one more message brings
  this about exactly if it is a change, during a resharding, to a table that parses but whose servers all fail
  to answer (`Cutover.NullConnectionAfterIff`).
- Two rebuilds move keys between shards that both rings have, for some hash and outages, exactly if two shards
  change places between the tables, which takes an empty field name (`Center.RebuildsMoveLittleIff`).
- Labels are cut off after 126 characters. A shard of weight 1 has 160 different labels exactly if its name has
  at most 121 characters (`Labels.DefaultLabelsDistinctIffNameFits`).
- The lock wakes readers one at a time. A reader never sleeps unsignalled next to a lock that would admit it,
  with no reader on its way, exactly if there are at most two threads (`RWLockTheorems.SleepingReadersIff`).
- An event is reported at most once per set or spurious wake-up exactly if there is at most one thread
  (`Event.ReportsCoveredIff`); in general it is at most twice per set and once per spurious wake-up
  (`Event.EventTheorem`).
- `wait_event_always` reports an event that was already set as 0, and one it had to wait for as 1
  (`Event.CountingEvent.WaitEventAlways`).

## Model

| member | source | states |
|---|---|---|
| RWLockSteps.RunKeepsInv | cppredis/vos_lock.h:98-209 | every run of lock steps keeps exact counters, exclusion and no lost wake-up, also with timeouts and barging |
| RWLockTheorems.MutualExclusion | cppredis/vos_lock.h:98-209 | in every reachable state the four counters equal the numbers of threads in their roles, and a writer excludes every other holder |
| RWLockTheorems.NoLostWakeUps | cppredis/vos_lock.h:98-209 | a free lock with a waiting writer has its event signalled or a writer on its way; with only readers waiting, the same for readers |
| RWLockTheorems.SleepingReadersIff | cppredis/vos_lock.h:98-154 | a reader never sleeps, unsignalled and with no reader on its way, beside a lock without an active or waiting writer, in any run: this holds exactly for at most two threads |
| RWLockTheorems.ReleaseSignals | cppredis/vos_lock.h:144-154 | every release, also beside other readers, signals a waiting writer, or else a waiting reader, and nobody else; so no reader is left asleep beside a lock that would admit it |
| RWLockTheorems.AdmittedIff | cppredis/vos_lock.h:98-198 | who is admitted, by the roles of all threads; who is not sleeps beside a cleared event |
| RWLockTheorems.NoWakeWithoutSignal | cppredis/vos_lock.h:117-124 | no busy waiting: beside a cleared event nobody wakes before somebody releases the lock or gives up |
| RWLockTheorems.RunsWithoutArrivalsEnd | cppredis/vos_lock.h:98-209 | without newcomers the threads inside can make at most 7n+4 steps |
| RWLockTheorems.Drains | cppredis/vos_lock.h:98-209 | from every state of the invariant all threads can leave without another timeout |
| RWLockTheorems.StuckMeansEmpty | cppredis/vos_lock.h:98-209 | nobody is inside exactly when only newcomers and timeouts can move |
| RWLockTheorems.WaiterIsServed | cppredis/vos_lock.h:98-198 | a waiter that leaves and was not timed out held the lock on its way |
| RWLockTheorems.InfiniteTimeoutNeverFails | cppredis/vos_lock.h:334-365 | with infinite timeouts, as in the guards, no acquisition gives up |
| RWLockTheorems.WritersArePreferred | cppredis/vos_lock.h:104-125 | while a writer waits, no thread starts reading |
| RWLock.CRWLock.LockRead | cppredis/vos_lock.h:98-142 | the retry loop makes exactly the steps of its schedule, in which other threads may move at any point between two critical sections of the caller, and gives up only after its timeout |
| RWLock.CRWLock.LockWrite | cppredis/vos_lock.h:156-198 | the same for writers |
| RWLock.EveryRunIsScheduled | cppredis/vos_lock.h:98-198 | schedules leave out no run in which a thread inside stays inside until its return |
| RWLock.CRWLock.Perform | cppredis/vos_lock.h:98-209 | every critical section does to the fields what its step does |
| Hashing.HashIsSignWrapped | cppredis/hash.h:17-30 | shifting and or-ing four bytes as C ints gives the little-endian number, sign-wrapped at 32 bits |
| Hashing.HashBytes | cppredis/hash.h:26-29 | the hash's bytes, lowest first, are the digest's first four |
| RingOrder.LookupIsLinearScan | cppredis/sharded.cpp:82-101 | find, upper_bound, begin is the smallest point at or after the hash, else the smallest of all |
| RingOrder.LookupIsNearest | cppredis/sharded.cpp:82-101 | the point found is the only nearest one clockwise on the circle of 2^32 hashes |
| Ring.BuildOwner | cppredis/sharded.cpp:41-53 | a point belongs to the first shard in the list that has it |
| Ring.MinimalMovement | cppredis/sharded.cpp:27-59 | inserting a shard anywhere moves a hash only to that shard, collisions included |
| Shards.AddingAShardMovesKeysOnlyToIt | cppredis/sharded.cpp:27-59 | the same for keys and labelled shards; read backwards, removal moves only the keys of the removed shard |
| Shards.TwoSidedStability | cppredis/DataCenter.cpp:151-165 | for lists in which no two shards have changed places, such as name-sorted ones, a key keeps its name unless its shard leaves or it goes to a newcomer |
| Shards.RebuildsAreStableIff | cppredis/sharded.cpp:32-58 | this holds for all hashes, keys and unreachable servers on both sides exactly if no two shards change places |
| Shards.ReplacingMachinesMovesNoKey | cppredis/DataCenter.cpp:117-121 | a change of addresses only moves no key to another name |
| Shards.UnreachableActAsAbsent | cppredis/sharded.cpp:32-58 | building with failed connections is building the connected sublist |
| Shards.SignDoesNotMatter | cppredis/hash.h:26-29 | unsigned hashes route every key to the same shard |
| Shards.LessIff | cppredis/DataCenter.cpp:151-155 | the order of field names is that of a set of strings |
| Labels.LabelReadsBack | cppredis/sharded.cpp:47-52 | a label that fits is the name, the last '*', the weight and the number of the point, in this order |
| Labels.PointsAreHashes | cppredis/sharded.cpp:40-53 | a connected shard's points are the hashes of exactly 160 labels per weight unit |
| Labels.LabelsAreDistinct | cppredis/sharded.cpp:47-52 | at one weight and within the buffer, labels of different (name, n) differ |
| Labels.DefaultLabelsDistinctIffNameFits | cppredis/sharded.cpp:47-52 | a shard of weight 1 has 160 different labels exactly if its name has at most 121 characters |
| Labels.EveryShardOwnsItsPoints | cppredis/sharded.cpp:47-52 | with a hash injective on the labels every connected shard owns exactly 160 points per weight unit, none for a weight below 1 |
| Labels.RingSize | cppredis/sharded.cpp:41-53 | with any hash, names and weights the ring has at most 160 points per weight unit of the connected shards |
| ShardedObjects.Sharded.Init | cppredis/sharded.cpp:27-59 | builds the ring of the connected shards, deletes exactly the others, and returns whether any is connected |
| ShardedObjects.Sharded.Destroy | cppredis/sharded.cpp:61-71 | deletes each owned shard and connection once and empties the ring |
| ShardedObjects.Sharded.GetShard | cppredis/sharded.cpp:73-101 | NULL exactly on an empty ring, with positive weights one that owns nothing; else the live connection that the key is routed to, without adding an entry |
| Center.ConformingRunsKeepSettled | cppredis/DataCenter.cpp:98-125 | over conforming messages the current ring is never empty and the second one exists exactly while syning |
| Center.StartSettles | cppredis/DataCenter.cpp:33-69 | a start with a known state and healthy tables succeeds and is settled |
| Center.ParsedParts | cppredis/DataCenter.cpp:158-163 | for any address: host before the first colon, port behind it, weight 1, and when nothing is read |
| Center.ParsedAddress | cppredis/DataCenter.cpp:160-163 | "host:port" with anything behind it is read as that host and port and connected to there |
| Center.ParsedExactly | cppredis/DataCenter.cpp:154-165 | exactly the entries that parse become shards |
| Strings.AtoiReads | cppredis/DataCenter.cpp:162-162 | the port's text is read behind white space, with a sign, up to the first other character |
| Center.StartInstalls | cppredis/DataCenter.cpp:45-60 | in the normal state "address" becomes the current ring; during a resharding "address" becomes the second and "oldaddress" the current one; and the result |
| Center.MessagesInstall | cppredis/DataCenter.cpp:98-125 | which table or ring each of "1", "0" and "3" puts where, key by key, and that nothing else changes anything |
| Center.ReshardingInstallsTable | cppredis/DataCenter.cpp:98-125 | after start, anything between, and end, every key goes to the shard that the start's table gives it among the servers that answered |
| Center.CurrentRingIsLostIff | cppredis/DataCenter.cpp:109-121 | the exact condition under which a message empties a serving ring |
| Center.SyningWithoutSecondRingIff | cppredis/DataCenter.cpp:103-108 | in any state, the exact condition under which a start message leaves the syning state without a second ring |
| Center.UnparsableStartLosesRings | cppredis/DataCenter.cpp:103-116 | a table that does it, and no ring after the end message |
| Center.RebuildsMoveLittleIff | cppredis/DataCenter.cpp:143-176 | two rebuilds from any two tables move keys only away from a lost shard or to a new one, exactly if no two shards change places; they do not if no field name is empty |
| DataCenterObjects.DataCenter.InitSharded | cppredis/DataCenter.cpp:143-176 | rebuilds one ring as the table says and keeps the other; all that was ever made stays in the ledger and is dead unless a ring owns it |
| DataCenterObjects.DataCenter.HandleSubs | cppredis/DataCenter.cpp:98-125 | does what Handle says to rings and state, hence what MessagesInstall says; the rings stay distinct with disjoint, live resources, and the ledger only grows |
| DataCenterObjects.DataCenter.Init | cppredis/DataCenter.cpp:33-69 | does what Start says, hence builds the rings that StartInstalls names, and reports failure as the original does |
| DataCenterObjects.DataCenter.Serve | cppredis/DataCenter.cpp:98-125 | over any messages: what is alive is owned by exactly one ring, nothing leaves the ledger, and nothing dead comes back |
| DataCenterObjects.DataCenter.Destroy | cppredis/DataCenter.cpp:20-31 | leaves nothing in the ledger alive |
| DataCenterObjects.Lifetime | cppredis/DataCenter.cpp:20-176 | after construction, init, any messages and destruction every shard and connection made is dead |
| Cutover.PairRun | cppredis/DataCenter.cpp:270-297 | exactly what any sequence of requests by the pair leaves on both servers of a key |
| Cutover.PairKeepsPushes | cppredis/DataCenter.cpp:270-297 | each of two differently named servers appends all pushes once and in order |
| Cutover.CutoverKeepsWriteIff | cppredis/DataCenter.cpp:283-297 | a last SET reads back before the exchange, and after it exactly if the servers are the same or have different names (or already agreed) |
| Cutover.CutoverKeepsWrites | cppredis/DataCenter.cpp:103-116 | from START to NORMAL no last SET is lost if the connection names fit |
| Cutover.FullNamesTellServersApart | cppredis/jedis.cpp:47-49 | names that fit are equal only for one address |
| Cutover.NameIsUniqueIff | cppredis/jedis.cpp:47-49 | a connection's name belongs to its address only exactly if it has at most 29 characters |
| Cutover.LongNamesLoseWrites | cppredis/jedis.cpp:47-49 | two long-named servers for which the second write is skipped and lost |
| Cutover.OverloadRun | cppredis/DataCenter.cpp:299-331 | exactly what any sequence of requests by the overloads leaves on both servers of a key |
| Cutover.OverloadsLoseWriteIff | cppredis/DataCenter.cpp:317-328 | the current ring keeps the last SET; after the exchange it reads back exactly if the server is the same (or already agreed) |
| Cutover.NormalRun | cppredis/DataCenter.cpp:299-331 | outside a resharding overloads and pair agree and the owner runs every command once, in order |
| Cutover.OldRingStaysAuthoritative | cppredis/DataCenter.cpp:299-331 | over requests by the overloads before and after START the current ring's server of a key holds its last SET |
| Cutover.OverloadsArePairsIff | cppredis/DataCenter.cpp:270-331 | for a sequence of requests, overloads and pair leave the same on all servers, whatever they held, exactly if no creating write is due a second time |
| Cutover.RepeatedPushDoubles | cppredis/jedis_interface.cpp:372-372 | repeating a command is harmless exactly unless it is a push that takes effect |
| Cutover.DeletedKeyStaysDeletedIff | cppredis/jedis_interface.cpp:87-92 | for any requests that end with deleting a key: when it reads nothing after the exchange |
| Cutover.NullConnectionIff | cppredis/DataCenter.cpp:317-319 | the exact condition for reading the name of a NULL connection |
| Cutover.NullConnectionAfterIff | cppredis/DataCenter.cpp:117-121 | never after conforming messages, and which next message brings it about |
| RedisTableObjects.RedisTable.DoJedisNewExecute | cppredis/DataCenter.cpp:283-297 | sends the command to the second ring's server exactly when it is due |
| RedisTableObjects.RedisTable.ExecutePair | cppredis/DataCenter.cpp:270-297 | on the heap objects, changes the stores as Pair says |
| RedisTableObjects.RedisTable.Execute | cppredis/DataCenter.cpp:299-331 | changes the stores as Overload says |
| Guarded.ProgramIsHandle | cppredis/DataCenter.cpp:102-121 | the single steps of an update add up to the effect of its message |
| Guarded.GuardedSnapshot | cppredis/DataCenter.cpp:299-331 | while a client holds the read guard, neither ring nor the state changes and no ring is destroyed, whatever all others do |
| Guarded.ReadersSeeAllDestroyed | cppredis/DataCenter.cpp:109-121 | whenever somebody reads, as many rings have been destroyed as the accepted messages say |
| Guarded.ReadersSeeCompleteUpdates | cppredis/DataCenter.cpp:98-125 | whenever somebody reads, rings and state are those of the whole messages accepted so far |
| Guarded.ChosenConnectionsAreInPlace | cppredis/DataCenter.cpp:304-319 | a client in a request holds connections of the rings in place |
| Guarded.ConformingClientsNeverStick | cppredis/DataCenter.cpp:317-319 | after conforming messages no client reads the name of a NULL connection |
| ConcurrentCutover.ConcurrentRun | cppredis/DataCenter.cpp:270-331 | under every interleaving of pairs and overloads, what both servers of a key hold, by the orders in which commands were sent to them |
| ConcurrentCutover.BothServersKeepWrite | cppredis/DataCenter.cpp:270-297 | if the key's servers are told apart and writes to it never overlap, both hold its last SET, with any number of clients |
| ConcurrentCutover.CutoverInOneRun | cppredis/DataCenter.cpp:98-125 | one run with START, requests without overlap and NORMAL: the last SET reads back from the new ring's server, also after further requests |
| ConcurrentCutover.OverlappingWritesCanDiverge | cppredis/DataCenter.cpp:270-297 | two overlapping writes can leave different values on the two servers |
| ConcurrentCutover.LastSetMirroredIff | cppredis/DataCenter.cpp:270-297 | in which services every run of pair clients mirrors the last SET: one server, or no client, or one client and different names |
| ConcurrentCutover.LastSetHeldIff | cppredis/DataCenter.cpp:299-331 | in which services the current ring's server always holds the last SET by the order of first commands, with pairs and overloads |
| Event.EventTheorem | cppredis/vos_event.cpp:63-74 | no sleeper beside an unclaimed set; every set is still stored or was reported by a call of its own; at most 2 reports per set plus one per spurious wake-up |
| Event.CountChanges | cppredis/vos_event.cpp:113-170 | step by step, only sets and reports touch the count; a call that times out does not |
| Event.ReportsCoveredIff | cppredis/vos_event.cpp:113-137 | calls report no more often than sets and spurious wake-ups happen, in any run: this holds exactly for at most one thread |
| Event.CallIsItsSteps | cppredis/vos_event.cpp:89-174 | a whole call has the count and the report of its steps |
| Event.CountingEvent.WaitEvent | cppredis/vos_event.cpp:89-143 | count and return code, by entry count, wait result and count on wake-up |
| Event.CountingEvent.WaitEventAlways | cppredis/vos_event.cpp:145-174 | the same with its own return codes |
| Splitter.Split2Vec | cppredis/utility.cpp:9-37 | appends the pieces; true exactly if the count is 0 or reached |
| Splitter.SplitReconstructs | cppredis/utility.cpp:9-37 | joining the pieces gives the text back, plus one separator exactly if it ran out at a cut |
| Splitter.PiecesAreClean | cppredis/utility.cpp:9-37 | every cut piece ends at the first separator behind it |
| Splitter.SplitUndoesJoin | cppredis/utility.cpp:9-37 | splitting undoes joining |
| Splitter.CountIsReached | cppredis/utility.cpp:26-36 | a positive count bounds the pieces by count + 1 |
| Replacer.ReplaceAll | test/main.cpp:183-194 | terminates and rewrites, from left to right, exactly the occurrences met |
| Replacer.ReplaceIsSplitAndJoin | test/main.cpp:183-194 | replacing is splitting at the pattern and joining with the replacement |
| Replacer.Dress | test/main.cpp:196-209 | doubles every percent sign unless told not to |
| Replacer.DoublingIsUndone | test/main.cpp:196-209 | collapsing doubled signs gives the text back |

## Left out

- The other branch of each platform switch (pthread locks, Windows events), mutexes, semaphores and threads: system calls without an algorithm.
- Runs with 2^32 or more threads, where the lock's counters wrap.
- `Event`: `reset_event` and the `_wait_event` flag, which are changed outside the mutex, and overflow of the count.
- RWLockTheorems.InfiniteTimeoutNeverFails: the guards themselves run their body even if the lock was not acquired; with their infinite timeouts that never happens, so the body is modelled as always guarded.
- Event.EventTheorem: a waiter that is past its timeout consumes no signal, although POSIX lets `pthread_cond_timedwait` race with its timeout.
- ConcurrentCutover.CutoverInOneRun: no other message is accepted between START and NORMAL or after NORMAL; Cutover.OverloadsLoseWriteIff covers the overloads.
- Splitter.Split2Vec: an empty separator without a positive count, and Replacer.ReplaceAll with an empty pattern, loop forever in the original and are outside the contracts.
- Most commands and all replies: SET, RPUSH, DEL and reading stand for the rest. Failing commands, expiry and reconnection are not modelled, and neither is the counter traffic to the configuration server.
- Texts contain no NUL characters, and atoi is applied to numbers that fit an int.
- DataCenterObjects.DataCenter.Init: the connections to the configuration server are taken to succeed, and the subscriber thread is not started.
- Guarded: reading the address table and connecting happen in one step at the moment the message is accepted, under the write guard; only the changes to the rings and the state are separate steps.
- Copying of keys to the new servers, which is done by a program outside this repository.
- MD5, logging and the test programs.
