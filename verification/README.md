# Sensor gateway and competing consumers: a Dafny model

The repository holds two multi-threaded C programs around one idea, a shared buffer of sensor readings
that a record with id 0 brings to an end. This project models both, and proves what they promise.

**The competing consumers** (lab 4). One writer thread inserts a file of readings and then an id-0 marker
into a blocking queue; reader threads remove records and append them to a file. A reader that takes the
marker increments a counter no lock protects, puts the marker back if other readers remain, and exits.

- `Consumers` is the program as a state machine: a critical section of the queue is one event, and the
  unlocked `eos_count++` (a load and a store), its test, the reinsertion and the write are one event each.
  The number of readers is arbitrary, waiters and released waiters are explicit, and spurious wakeups may
  happen at any time.
- `ConsumersToken` follows the marker; `ConsumersDelivery` follows the readings; `ConsumersLiveness` proves
  that no wakeup is lost, nothing deadlocks and every execution ends.
- `ConsumersRuns` builds executions for any file and any number of readers, and `ConsumersLimits` uses them to
  give each promise its exact condition.
- `ConsumersQueue` carries an execution out on the heap queue of `SharedBuffer`.

**The gateway** (final project). Client handlers append to a log that is never shortened, a listener counts
connections and terminations and then appends the marker, and two threads, the database writer and the data
manager, each walk the log with an unlocked cursor read.

- `Gateway` is the program as a state machine: an insert is one event per store to shared memory, a read
  one event per load, and either store of `head = tail = dummy` may come first.
- `GatewayMemory`, `GatewayCounters`, `GatewayReaders`, `GatewaySources` and `GatewayClients` prove the parts
  of the invariant; `GatewayRuns` states what follows for whole executions; `GatewayProgress` bounds their length
  and brings each to its end; `GatewayLimits` says exactly which clients can make it lose a reading.
- `ClientHandler` is the loop of one connection.

**The data structures.** `SharedBuffer` is the singly linked buffer on the heap (both `sbuffer.c` files have
the same insert and remove), and `LinkedList` the doubly linked list with clamped indices. `SensorWindows` is
the data manager on values, and `DataManager` the same on the heap: a `LinkedList` of entries with window
arrays shifted in place. `Records` holds readings and the shared vocabulary of sequences and sums, and `Executions`
what an execution of a state machine is.

## What is assumed

- Allocation, `pthread_create`, `fopen`, `accept` and the file writes succeed. A client that the listener
  waits for arrives eventually.
- `tcp_receive` delivers a whole field, a closed connection or an error; a peer with nothing more to send
  closes the connection.
- Memory is sequentially consistent. A signal releases one waiter if there is one; a further waiter that
  wakes up does so as a spurious wakeup.
- `keep_running` stays 1: no handler for it is ever installed.
- RUN_AVG_LENGTH is positive. SET_MIN_TEMP <= SET_MAX_TEMP is needed, and required, only for cold alarms.
- Temperatures are exact reals, counters unbounded integers, sensor ids 16-bit.

## Where the code and what is said about it differ

- The header of lab 4 says that `sbuffer_remove` returns SBUFFER_NO_DATA on an empty buffer
  (`plab_1-4_solutions/startcodeplab4/startcodeplab4/sbuffer.h`, lines 30-36). It blocks, and so does the
  model.
- Both programs take a record with id 0 for the end of the stream, wherever it comes from, and nothing keeps a
  sensor file or a client from using it. Each promise is therefore given its exact condition. The token, its
  exclusion and the count hold if and only if no record of the file has id 0, or, for the latter two, there is a
  single reader (`OneMarkerExactly`, `ExclusionExactly`, `CountExactly`, `FinalCountExactly`, `CleanExactly`).
  Records with id 0 are never written, so that file and output agree only without them (`ExactlyOnce`); but readings
  are lost only if one is behind such a record in the file (`ConsumersLimits.NoReadingLostExactly`; `ReadingLost` is
  the smallest case), or, in the gateway, if such a record can overtake one
  (`GatewayLimits.NoReadingLostExactly`).
- The comparison of output and input in lab 4
  (`plab_1-4_solutions/startcodeplab4/startcodeplab4/main.c`, lines 92-163) goes line by line, and a remark there
  (lines 204-206) leaves open whether the order should be protected. It is not, as soon as there are two readers:
  `FileOrder`.
- `open_db` carries the consumers' reinsertion test with the bound 1. It can never hold (`MarkerIsLastAndUnique`).

## Model

| member | source | states |
|---|---|---|
| `ConsumersToken.ExactlyOnce` | plab_1-4_solutions/startcodeplab4/startcodeplab4/main.c:21-79 | after every join the rows of the output file are, as a multiset, the records of the input file if and only if no input record has id 0; and then the queue is empty, no marker is left and `eos_count` equals the number of readers; any number of readers, any interleaving |
| `ConsumersToken.TokenExclusion` | plab_1-4_solutions/startcodeplab4/startcodeplab4/main.c:60-68 | with one reader on any file, and with any number of readers on a file without id-0 records: never two readers holding a marker, the value `eos_count++` has read is still current when it is written back, `eos_count` is the number of readers past the increment; without id-0 records moreover no marker before the writer's last insert, and exactly one (queue or hands) from then until `eos_count` reaches the number of readers |
| `ConsumersToken.MarkerIsLast` | plab_1-4_solutions/startcodeplab4/startcodeplab4/main.c:40-68 | for input without id-0 records: a marker in the queue is its last element, and while a reader holds one the queue is empty, through every reinsertion |
| `ConsumersToken.StepKeepsProtocol` | plab_1-4_solutions/startcodeplab4/startcodeplab4/main.c:33-79 | for input without id-0 records, every event of every thread keeps the four phases of the marker and the count |
| `ConsumersToken.CleanFinish` | plab_1-4_solutions/startcodeplab4/startcodeplab4/main.c:60-68 | for input without id-0 records every finished execution has an empty queue, no marker left and every reader counted |
| `ConsumersToken.HeldTest` | plab_1-4_solutions/startcodeplab4/startcodeplab4/main.c:63-64 | the test drops the token exactly when `eos_count` has reached the number of readers and all of them are counted |
| `ConsumersDelivery.InFlight` | plab_1-4_solutions/startcodeplab4/startcodeplab4/main.c:59-75 | at every moment, for every input: rows plus records in readers' hands are the removed readings as a multiset, these are a prefix of the input's readings, at most one per reader is in flight, and each reader's own rows are a subsequence of the input |
| `ConsumersDelivery.StepConserves` | plab_1-4_solutions/startcodeplab4/startcodeplab4/main.c:33-79 | every event keeps the order of removed, queued and unread readings, each reader's share, and the balance of file and hands |
| `ConsumersLiveness.NoLostWakeup` | plab_1-4_solutions/startcodeplab4/startcodeplab4/sbuffer.c:66-119 | while some reader sleeps in `pthread_cond_wait` the queue is no longer than the number of readers released and not yet run |
| `ConsumersLiveness.ThreadsAreFree` | plab_1-4_solutions/startcodeplab4/startcodeplab4/sbuffer.c:66-119 | in every state each reader can go on as its own code says whatever the others do: a sleeping one may be the one an insert releases or wake up without a signal, one at the queue takes the head or goes to sleep, one holding a record handles it |
| `ConsumersLiveness.DeadlockFree` | plab_1-4_solutions/startcodeplab4/startcodeplab4/main.c:21-79 | a reachable state has no event but spurious wakeups if and only if every thread has finished, and then no event at all; for every input and every number of readers |
| `ConsumersLiveness.Terminates` | plab_1-4_solutions/startcodeplab4/startcodeplab4/main.c:21-79 | an execution with k spurious wakeups has at most 4(records + 1) + 6·readers + 2k events |
| `ConsumersLiveness.StepUsesPotential` | plab_1-4_solutions/startcodeplab4/startcodeplab4/sbuffer.c:66-119 | each event but a spurious wakeup uses up at least one unit of the work left, a spurious wakeup restores at most one |
| `ConsumersLimits.FileOrder` | plab_1-4_solutions/startcodeplab4/startcodeplab4/main.c:59-75 | the output file is always a prefix of the readings in input order if and only if there is at most one reader |
| `ConsumersLimits.NoEarlyToken` | plab_1-4_solutions/startcodeplab4/startcodeplab4/main.c:33-42 | no state before the writer's last insert holds a marker if and only if the input has no record with id 0 |
| `ConsumersLimits.NoReadingLostExactly` | plab_1-4_solutions/startcodeplab4/startcodeplab4/main.c:59-75 | every finished execution has written, as a multiset, exactly the readings of the file if and only if no reading in the file is behind a record with id 0 |
| `ConsumersLimits.ReadingLost` | plab_1-4_solutions/startcodeplab4/startcodeplab4/main.c:59-68 | with any number of readers, a finished execution on the file [id 0, id 7] that writes no row and leaves the id-7 reading in the queue |
| `ConsumersLimits.ExclusionExactly` | plab_1-4_solutions/startcodeplab4/startcodeplab4/main.c:60-68 | two readers never hold a marker at once, in any execution, if and only if there is one reader or no record of the file has id 0 |
| `ConsumersLimits.CountExactly` | plab_1-4_solutions/startcodeplab4/startcodeplab4/main.c:62-63 | `eos_count` equals the number of readers past their increment in every reachable state if and only if there is one reader or no record of the file has id 0 |
| `ConsumersLimits.FinalCountExactly` | plab_1-4_solutions/startcodeplab4/startcodeplab4/main.c:62-67 | `eos_count` equals the number of readers in every finished state if and only if there is one reader or no record of the file has id 0 |
| `ConsumersLimits.IncrementLost` | plab_1-4_solutions/startcodeplab4/startcodeplab4/main.c:61-67 | on every file with an id-0 record and with any number of readers from two on, an execution that loses an increment and finishes with `eos_count` below the number of readers |
| `ConsumersLimits.OneMarkerExactly` | plab_1-4_solutions/startcodeplab4/startcodeplab4/main.c:40-68 | there is never more than one marker, and never a record behind one, if and only if no record of the file has id 0 |
| `ConsumersLimits.CleanExactly` | plab_1-4_solutions/startcodeplab4/startcodeplab4/main.c:60-68 | every finished execution has an empty queue, no marker left and every reader counted if and only if no record of the file has id 0 |
| `ConsumersRuns.CanFinish` | plab_1-4_solutions/startcodeplab4/startcodeplab4/main.c:21-79 | from every reachable state the program can be brought to its end, keeping whatever every event keeps |
| `ConsumersRuns.RestIsStranded` | plab_1-4_solutions/startcodeplab4/startcodeplab4/main.c:59-68 | on any file with an id-0 record and with any number of readers, an execution that finishes with all that follows the first such record still in the queue |
| `ConsumersQueue.Act` | plab_1-4_solutions/startcodeplab4/startcodeplab4/sbuffer.c:66-119 | the heap queue called by the thread of an event ends with the machine's queue, and its answer is the record the machine's reader then holds, or sleep where the machine's reader waits |
| `ConsumersQueue.Drive` | plab_1-4_solutions/startcodeplab4/startcodeplab4/sbuffer.c:66-119 | any execution carried out on the heap queue ends with the machine's queue, with one signal per insert |
| `SharedBuffer.Buffer.Insert` | plab_1-4_solutions/startcodeplab4/startcodeplab4/sbuffer.c:97-118 | on an existing buffer: appends one record to the contents and keeps the chain (head null iff tail null, tail last), with one fresh node and one signal |
| `SharedBuffer.Buffer.Remove` | plab_1-4_solutions/startcodeplab4/startcodeplab4/sbuffer.c:70-89 | on an existing buffer: returns and unlinks the first record and frees exactly the old head, or reports that the caller goes to sleep and changes nothing |
| `SharedBuffer.Buffer.Release` | plab_1-4_solutions/startcodeplab4/startcodeplab4/sbuffer.c:50-60 | on an existing buffer: frees every node of the chain, none twice, and then the buffer |
| `SharedBuffer.Buffer.Read` | TCP_SensorMonitoringSystem/project/sbuffer.c:76-90 | returns the first record the cursor has not seen and advances the cursor by one, or SBUFFER_EMPTY with the cursor unmoved exactly when everything was seen |
| `SharedBuffer.InsertInto` | plab_1-4_solutions/startcodeplab4/startcodeplab4/sbuffer.c:93-119 | SBUFFER_FAILURE iff the buffer is NULL; otherwise success and one record appended |
| `SharedBuffer.RemoveFrom` | plab_1-4_solutions/startcodeplab4/startcodeplab4/sbuffer.c:66-90 | SBUFFER_FAILURE iff the buffer is NULL, asleep iff it is empty, otherwise success and its first record removed |
| `SharedBuffer.FreeBuffer` | plab_1-4_solutions/startcodeplab4/startcodeplab4/sbuffer.c:45-63 | SBUFFER_FAILURE iff the buffer is NULL; otherwise all nodes and the buffer freed; the caller's pointer is NULL afterwards |
| `SharedBuffer.EndsTellSize` | plab_1-4_solutions/startcodeplab4/startcodeplab4/sbuffer.c:60-63 | head is null iff tail is null iff the queue is empty; head and tail meet at a node iff it holds one record; the tail has no successor |
| `SharedBuffer.FifoOrder` | plab_1-4_solutions/startcodeplab4/startcodeplab4/sbuffer.c:66-119 | over any mix of inserts and removes, the removed records followed by what is left are the initial contents followed by the inserted records |
| `SharedBuffer.Replay` | plab_1-4_solutions/startcodeplab4/startcodeplab4/sbuffer.c:66-119 | the heap queue driven by any list of operations ends with the contents and gives the answers of the sequence queue |
| `SharedBuffer.WriterThread` | plab_1-4_solutions/startcodeplab4/startcodeplab4/main.c:21-46 | alone, the writer appends the whole file in order and then the last record it read with its id set to 0 |
| `SharedBuffer.ReaderThread` | plab_1-4_solutions/startcodeplab4/startcodeplab4/main.c:49-79 | alone, a reader writes exactly the records before the first marker and falls asleep iff there is none; otherwise it counts the marker once and puts it back, behind the rest, iff `eos_count` is below the number of readers |
| `SharedBuffer.DatabaseThread` | TCP_SensorMonitoringSystem/project/sensor_db.c:182-200 | alone, `open_db` writes exactly the records before the first marker, polls for ever iff there is none, and puts the marker back only from a negative `eos_count` |
| `SharedBuffer.ConsumedUpTo` | TCP_SensorMonitoringSystem/project/sensor_db.c:182-200 | rows read in sequence up to a marker are the longest marker-free prefix of the buffer |
| `ClientHandler.Handle` | TCP_SensorMonitoringSystem/project/connmgr.c:39-113 | for every sequence of receive results and clock values the handler appends exactly the records Sent describes and leaves exactly the log ExpectedLog describes |
| `ClientHandler.ServeRound` | TCP_SensorMonitoringSystem/project/connmgr.c:50-103 | one iteration inserts and logs iff all three fields arrive within the timeout; otherwise it inserts nothing and leaves result and flag such that the ending is the right one |
| `ClientHandler.SentIsLongestPrefix` | TCP_SensorMonitoringSystem/project/connmgr.c:50-103 | the records sent are those of the rounds before the first round that fails or is slower than TIMEOUT, in order |
| `ClientHandler.SentInTime` | TCP_SensorMonitoringSystem/project/connmgr.c:50-101 | each record sent is the three received fields of a round that took at most TIMEOUT by the clock; if all fields of the next round arrive, that round took longer |
| `ClientHandler.EndingIsDeserved` | TCP_SensorMonitoringSystem/project/connmgr.c:54-113 | terminated iff the client's first missing field is a closed connection, error iff it is a socket error, timed out iff no field is missing; every entry names the sensor of the first reading, or 0 if not even its id arrived |
| `ClientHandler.ServedFromScratch` | TCP_SensorMonitoringSystem/project/connmgr.c:44-113 | serving round by round with the handler's locals yields the reference records and log |
| `ClientHandler.LogShape` | TCP_SensorMonitoringSystem/project/connmgr.c:62-113 | the opening is logged at most once and before any insert, one insert is logged per record, exactly one of terminated, timed out or error comes last, all under the id of the first reading |
| `LinkedList.InsertAtIndex` | TCP_SensorMonitoringSystem/project/lib/dplist.c:68-109 | for every integer index and null or non-null list: clamped sequence insertion of the element, copied iff asked for; exactly one fresh node, at the clamped index, all old nodes kept in their order, doubly linked chain kept |
| `LinkedList.LinkAtReference` | TCP_SensorMonitoringSystem/project/lib/dplist.c:89-106 | both assertions hold and the chain with the new node before the referenced node, or behind the last, is well formed in both directions |
| `LinkedList.RemoveAtIndex` | TCP_SensorMonitoringSystem/project/lib/dplist.c:111-150 | for every integer index: clamped sequence removal; exactly the node at the clamped index is freed, the others stay in their order, the element is freed iff asked for, empty and null list untouched |
| `LinkedList.Bypass` | TCP_SensorMonitoringSystem/project/lib/dplist.c:133-147 | unlinking node k leaves a well-formed chain without it, and the head right also when k is the first |
| `LinkedList.IndexMeaning` | TCP_SensorMonitoringSystem/project/lib/dplist.c:68-215 | an index at or below 0 means the front, at or beyond the size the end (for get and remove the last element), and in between itself, for insert, get and remove |
| `LinkedList.InsertThenRemove` | TCP_SensorMonitoringSystem/project/lib/dplist.c:68-150 | for every integer i, removing at i after inserting at i restores the sequence, and getting at i yields the inserted element |
| `LinkedList.RemoveThenInsert` | TCP_SensorMonitoringSystem/project/lib/dplist.c:111-150 | for every integer i, inserting at i what was removed at i restores a nonempty sequence |
| `LinkedList.Size` | TCP_SensorMonitoringSystem/project/lib/dplist.c:153-170 | the number of elements, -1 for a null list |
| `LinkedList.GetReferenceAtIndex` | TCP_SensorMonitoringSystem/project/lib/dplist.c:197-215 | the node at the clamped index; null iff the list is null or empty |
| `LinkedList.GetElementAtIndex` | TCP_SensorMonitoringSystem/project/lib/dplist.c:172-177 | the element at the clamped index, if any |
| `LinkedList.GetIndexOfElement` | TCP_SensorMonitoringSystem/project/lib/dplist.c:179-195 | the first position that compares equal, or -1 iff there is none |
| `LinkedList.GetElementAtReference` | TCP_SensorMonitoringSystem/project/lib/dplist.c:217-227 | an element iff the reference is a node of the list, and then that node's |
| `LinkedList.FreeList` | TCP_SensorMonitoringSystem/project/lib/dplist.c:44-66 | every node is freed, none twice, then the list; the elements that are not NULL are handed to the callback in order iff asked for; the caller's pointer is NULL afterwards |
| `SensorWindows.WindowsHoldLatest` | TCP_SensorMonitoringSystem/project/datamgr.c:161-214 | after any stream the entry of a sensor's last map line holds, position by position, that sensor's last RUN_AVG_LENGTH values, newest first, and beyond them values halfway between the limits; its timestamp is the last one (0 if none), its average that of the window; every shadowed entry is as it was loaded |
| `SensorWindows.LookupFindsLastLine` | TCP_SensorMonitoringSystem/project/datamgr.c:133-179 | the search by index over the front-inserted list finds the entry of the last line for a sensor, and nothing iff no line names it |
| `SensorWindows.LogAsExpected` | TCP_SensorMonitoringSystem/project/datamgr.c:171-211 | the log of any stream is the one determined record by record from the stream itself: alarms by the average of the latest values, invalid-sensor reports for unmapped ids |
| `SensorWindows.NoFalseAlarm` | TCP_SensorMonitoringSystem/project/datamgr.c:198-206 | a sensor whose readings all lie within the limits never appears in an alarm |
| `SensorWindows.NoMissedAlarm` | TCP_SensorMonitoringSystem/project/datamgr.c:181-206 | the reading that makes the last RUN_AVG_LENGTH readings all lie above the upper (below the lower) limit, and each further such reading, adds exactly one hot (cold) report; the cold half for SET_MIN_TEMP <= SET_MAX_TEMP |
| `SensorWindows.AverageMoves` | TCP_SensorMonitoringSystem/project/datamgr.c:182-190 | a reading moves the average by exactly (new - dropped) / RUN_AVG_LENGTH |
| `SensorWindows.ShiftKeepsLatest` | TCP_SensorMonitoringSystem/project/datamgr.c:182-186 | shifting in a value turns the latest values of a history into those of the longer history |
| `SensorWindows.LoadReverses` | TCP_SensorMonitoringSystem/project/datamgr.c:133-151 | the loaded list is the room map in reverse, every window at the midpoint |
| `SensorWindows.LoadedEntries` | TCP_SensorMonitoringSystem/project/datamgr.c:133-151 | each loaded entry has its line's sensor and room, timestamp 0, no average, and a full window of values as far from SET_MIN_TEMP as from SET_MAX_TEMP |
| `SensorWindows.InvalidExactly` | TCP_SensorMonitoringSystem/project/datamgr.c:171-211 | a reading of a sensor no map line names is reported as invalid and changes nothing; a reading of a mapped sensor never is |
| `DataManager.GetRunningAvg` | TCP_SensorMonitoringSystem/project/datamgr.c:32-38 | the accumulating loop computes the mean of the window |
| `DataManager.ElementCompare` | TCP_SensorMonitoringSystem/project/datamgr.c:82-91 | 0 iff the sensor ids are equal, negative iff the first is smaller |
| `DataManager.ShiftInPlace` | TCP_SensorMonitoringSystem/project/datamgr.c:182-186 | the downward loop shifts the array in place without losing a value before it is copied |
| `DataManager.LoadMap` | TCP_SensorMonitoringSystem/project/datamgr.c:129-151 | the heap list built by front insertion shows the entries of Load, with no storage shared |
| `DataManager.Lookup` | TCP_SensorMonitoringSystem/project/datamgr.c:171-179 | the loop over list indices stops at the entry Find names, or finds none |
| `DataManager.UpdateEntry` | TCP_SensorMonitoringSystem/project/datamgr.c:181-206 | the entry's window, timestamp and average become those of Updated, and the alarm is logged by the new average |
| `DataManager.AbsorbRecord` | TCP_SensorMonitoringSystem/project/datamgr.c:171-211 | one record changes the heap as Absorb says: the first matching entry and no other storage |
| `DataManager.Consume` | TCP_SensorMonitoringSystem/project/datamgr.c:161-214 | the loop absorbs exactly the records before the first end marker, and polls on iff there is none |
| `DataManager.Run` | TCP_SensorMonitoringSystem/project/datamgr.c:129-214 | from the room map and the delivered records, the heap is AbsorbAll over the loaded map, with the same log, where the loop ends or polls for more |
| `GatewayRuns.GatewayAgreement` | TCP_SensorMonitoringSystem/project/sensor_db.c:182-200 | after every completed execution the database rows and the data manager's records are the same sequence; the buffer is all connections' records, where the i-th connection's are exactly what the i-th accepted client sent, in order, then one end marker; both readers saw all of it if and only if no client sent id 0, and every reading in it if and only if none is behind a record with id 0 |
| `GatewayRuns.UnlockedReads` | TCP_SensorMonitoringSystem/project/sbuffer.c:76-119 | at every point between the stores of an insert: each reader's history is a prefix of the log, a returned record is the next one, SBUFFER_EMPTY means everything reachable was seen, and no load or store follows a null or dangling pointer |
| `GatewayRuns.MarkerIsLastAndUnique` | TCP_SensorMonitoringSystem/project/connmgr.c:228-246 | at most one record is the listener's, it is the all-zero end marker and last; it is allocated only after all MAX_CONN handlers have made their last insert; `open_db` counts it once, as it exits, and never reinserts it |
| `GatewayRuns.SoleMarkerExactly` | TCP_SensorMonitoringSystem/project/connmgr.c:244-246 | in every reachable state: the only id-0 record of the buffer, if any, is the listener's and last, if and only if no connection has inserted one; and what the i-th connection has inserted is a prefix of what the i-th client sends |
| `GatewayRuns.CounterProtocol` | TCP_SensorMonitoringSystem/project/connmgr.c:118-125 | 0 <= conn_terminations <= conn_counter <= MAX_CONN; the difference is the number of accepted connections not past their increment; the else branch is unreachable; the listener never sleeps once all have terminated |
| `GatewayRuns.TerminationWakes` | TCP_SensorMonitoringSystem/project/connmgr.c:118-125 | a termination wakes the sleeping listener if and only if every other connection is gone |
| `GatewayRuns.ListenerDecides` | TCP_SensorMonitoringSystem/project/connmgr.c:188-231 | the listener goes on accepting exactly while it has fewer than MAX_CONN connections, and then sleeps exactly while one of them is alive |
| `GatewayRuns.ThreadsAreFree` | TCP_SensorMonitoringSystem/project/connmgr.c:188-231 | in every reachable state a live connection outside the critical section can go on while the mutex is free, any client can be the next to connect, and a sleeping listener can wake up without a signal |
| `GatewayClients.ExecutionServes` | TCP_SensorMonitoringSystem/project/connmgr.c:193-214 | in every execution the i-th connection inserts what the i-th accepted client sends, by TIMEOUT, and there is one connection per client |
| `GatewayRuns.ReachableInvariant` | TCP_SensorMonitoringSystem/project/connmgr.c:175-249 | the joint invariant of memory, counters, readers and sources holds in every reachable state |
| `GatewayRuns.GatewayDeadlockFree` | TCP_SensorMonitoringSystem/project/connmgr.c:188-249 | nothing but idle polls and spurious wakeups is left if and only if every thread has come to its end, and then nothing is |
| `GatewayRuns.MarkerIdTruncates` | TCP_SensorMonitoringSystem/project/sensor_db.c:188-195 | if any client sent id 0, both readers end with the same strict prefix of the connections' records, cut at an id-0 record |
| `GatewayRuns.WindowsMatchDatabase` | TCP_SensorMonitoringSystem/project/datamgr.c:161-214 | after every completed execution a described sensor's window holds the latest values that sensor has among the rows of the database |
| `GatewayLimits.ReadingNeverStored` | TCP_SensorMonitoringSystem/project/sensor_db.c:188-195 | a completed execution in which one client sends id 0 and then id 7, both are in the buffer, and neither reader sees a record |
| `GatewayLimits.NoReadingLostExactly` | TCP_SensorMonitoringSystem/project/sensor_db.c:182-200 | given what each client sends, both readers end with every reading in every completed execution if and only if no id-0 record can overtake a reading: no reading of another connection, and none behind it on its own |
| `GatewayLimits.ReadingOvertaken` | TCP_SensorMonitoringSystem/project/sensor_db.c:188-195 | for any connections of which one sends an id-0 record that can overtake a reading, a completed execution in which a reading is lost |
| `GatewayProgress.CanComplete` | TCP_SensorMonitoringSystem/project/connmgr.c:175-249 | once all connections are accepted, every reachable state can be brought to the end of the program, with the buffer so far a prefix of the final one |
| `GatewayProgress.GatewayTerminates` | TCP_SensorMonitoringSystem/project/connmgr.c:175-249 | an execution has at most 15 events per record, 6 per connection and 31 more, not counting idle polls and spurious wakeups, each of which can undo one event |
| `GatewayProgress.StepWorks` | TCP_SensorMonitoringSystem/project/sbuffer.c:76-119 | every event but an idle one does at least one unit of work, an idle one undoes at most one |
| `GatewayReaders.LogGrows` | TCP_SensorMonitoringSystem/project/sbuffer.c:97-111 | every event leaves the published records unchanged, with at most one appended |
| `GatewayReaders.EmptyMeansAllSeen` | TCP_SensorMonitoringSystem/project/sbuffer.c:78-89 | a read that returns SBUFFER_EMPTY does so only if its caller has used every reachable record |
| `GatewayReaders.ReadStepKeepsTrack` | TCP_SensorMonitoringSystem/project/sbuffer.c:76-90 | every load of an unlocked read keeps the reader on the log, at any stage of a concurrent insert |
| `GatewayMemory.StepKeepsMemory` | TCP_SensorMonitoringSystem/project/sbuffer.c:93-119 | every store of an insert, in either order of `head = tail = dummy`, keeps head, links, tail and the thread's stage consistent |
| `GatewaySources.StepKeepsSources` | TCP_SensorMonitoringSystem/project/connmgr.c:98-100 | every event keeps, for each thread, the log's share of its records equal to what it has inserted, in order |
| `GatewaySources.StepKeepsMarkerLast` | TCP_SensorMonitoringSystem/project/connmgr.c:244-246 | no event publishes anything behind the listener's record |
| `GatewayCounters.StepKeepsCounts` | TCP_SensorMonitoringSystem/project/connmgr.c:118-231 | every event keeps the counters equal to the threads they count |
| `GatewayCounters.AllGone` | TCP_SensorMonitoringSystem/project/connmgr.c:229-231 | past the wait every one of MAX_CONN handlers is gone with all its inserts done |

## Left out

- Sockets, `tcpsock.c` and byte-level short reads: foreign calls, here one receive result per field.
- The failure paths of the accept loop (`connmgr.c` lines 194-198 and 208-213), which go round the loop without the mutex: excluded by the assumption that both calls succeed.
- `excess_client_handler` and the teardown of the server socket (`connmgr.c` lines 136-170 and 234-240): they touch neither the counters nor the buffer.
- The logger process, its pipe, message formatting and the racing `sequence_number`: a log is a sequence of events.
- `insert_sensor`, `close_db`, the CSV text of a row and `file_write_mutex`: a row is the record itself, written in one step.
- Rounding in `get_running_avg` and in printed values: the mean is over exact reals.
- `datamgr_print_sensors` (which exits on an empty list) and `datamgr_free` at the end of the data manager: output and release only; the release is `LinkedList.FreeList`.
- `keep_running` and the signal handlers: never installed.
- `sbuffer_remove` beside cursor reads in the gateway: it is marked unused there, and would leave cursors dangling.
- Data races in the sense of C11: the unlocked accesses are interleaved under sequential consistency.
- Overflow of the counters and of list indices beyond the range of C's `int`.
- LinkedList.InsertAtIndex: `element_copy` is a function on elements, so the storage a copy allocates is not modelled; the data manager never asks for a copy, and its model registers no copy function.
- LinkedList.RemoveAtIndex: freeing the element is recorded in a ghost list; the element's own storage is not modelled.
- SharedBuffer.WriterThread: the thread bodies on the heap run without interference; their interleaving is `Consumers` and `Gateway`.
- SharedBuffer.ReaderThread: as for WriterThread; an endless sleep is reported by a flag.
- SharedBuffer.DatabaseThread: as for WriterThread; endless polling is reported by a flag.
- GatewayProgress.GatewayTerminates: polls that find nothing are unbounded in the code and are counted separately.
- The early labs 1 to 3, `buffermain.c`, `sensor_node`, `file_creator`, the comparison of files and argument parsing: duplicates of modelled code or plain input and output.
