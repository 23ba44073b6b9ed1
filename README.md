# mnemosyne-python: logger DAG bookkeeping and draft consumers, in Dafny

Mnemosyne is a distributed ledger for log events over NDN State Vector Sync.
Producers publish log events. Logger nodes (`consumer.py`) fetch the events they
are missing, wrap each one in a record that points at earlier records, and
publish it. Loggers also fetch each other's records and verify that their
ancestors are present. This project models that core:

- **`consumer.py`**, as the classes `Consumer.Logger` and `Consumer.RecordStorage`:
  - genesis seeding;
  - the ring of recently received record names (`last_names` with its round-robin
    index `last_name_tops`);
  - `create_record`, which takes the node's own previous record as the first link and
    fills the rest from a shuffled copy of the ring;
  - `receive_log_event` and `receive_records`;
  - the pending-verification bookkeeping of `verify_previous_record`;
  - the two missing-data loops.
- **`record.py`**, as `RecordModel`:
  - the pointer list and its validators `add_pointer` and `check_pointer_count`;
  - `get_event_name`;
  - the getters.
- **The draft tail-list consumers `template-consumer.py` and `even-consumer.py`**, as
  `TemplateConsumer.Program` and `EvenConsumer.Program`. Each log event becomes a
  `{log, r1, r2}` record linking the logs of the (at most two) newest tails. The
  even consumer keeps only payloads that parse as even integers.

The imperative code stays imperative. Each class keeps the source's fields, and
its methods are proved against value-level specification functions:

- `TailLists.Stored` / `StoreAll`: what a sequence of `store_record` calls
  leaves behind.
- `TailLists.RangeLogs` / `EvenConsumer.EvenLogs`: the logs one missing range
  yields, in sequence-number order.
- `Pending.Pended` / `Kept` / `Released`: what the scan and the partition of
  `verify_previous_record` produce.
- `Consumer.Logger.RangeBuilt` / `RangeLast`: the names the event loop of the logger
  builds, and its last record. `RangeEvents` / `AllEvents` map each built name
  to the payload of the last fetch that built it, and `Carries` says the store
  holds those payloads.
- `Pending.Reverified` and `Consumer.Cascaded`: the pending list and set that
  a cascade of `verify_previous_record` leaves, with bounds in both directions.
- `Consumer.AcceptedRecords`, `StoreEach`, `RingEach` and `ReceivedEach`: the
  records the record loop of the logger accepts, in fetch order, and the store
  and tip ring that receiving them one after another leaves behind.

Lemmas then state the properties of those functions.

Modelling decisions:

- **Names.** NDN names are sequences of string components (`Ndn.Name`).
  `Name.to_str` is the identity, so the store, the pending set and the
  waiting pairs all hold names directly.
- **Records.** `consumer.py` uses a record API that `record.py` does not define:
  `Record(producer_name=…)`, `Record(data=…)`, `GenesisRecord`,
  `get_record_hash` and `add_pointer(name, hash)`. The logger's records are
  therefore the value `Consumer.DagRecord`: a name, a genesis flag, the log
  event, the pointers and one hash per pointer. A built record is named
  `producer + ["RECORD"] + event name`, the layout documented at
  record.py:45.
- **Caller-supplied functions.** The following are parameters:
  - the record hash and the genesis record names;
  - the decoding of payload bytes (to text, to an integer, to a record);
  - `fetchData` (from a node name and a sequence number to an optional payload).
- **Fetch results.** A payload counts as delivered under Python truthiness: present
  and non-empty.
- **Shuffle.** `random.shuffle` is any function that keeps the multiset of its
  argument (`Consumer.IsShuffle`).
- **`is_record_valid`** always returns `True` (consumer.py:94-95), so every
  candidate link is added.
- **Exceptions.** A `RuntimeError` from `check_pointer_count` propagates out of
  `receive_records` and ends the `on_missing_records` task. An `int()` failure in
  the even consumer likewise ends `on_missing_data`. Both loops therefore return
  `Fail` with the position where the task died, and process nothing after it.
- **Pointer cycles.** The model carries a ghost `rank` that every pointer
  increases, so the records the recursion of `verify_previous_record` visits
  form no cycle. The source does not loop quietly on a cycle. Suppose the cycle
  runs through the received record. Its cascade then releases that record
  while it is still unstored (consumer.py:213-221). `get_record` returns `None`
  for it (consumer.py:52-58), and the recursive call raises `AttributeError` on
  `None` (consumer.py:207, 223-224).
- **Re-pending.** `receive_records` verifies a record before storing it. A waiter
  released by an arriving record is therefore re-verified while that record
  is still absent from the store, and is pended on it again. This behaviour is
  kept. `Consumer.Logger.AcceptRecord` and `ReceiveRecords` state it for the
  received record. `VerifyPreviousRecord` states it at every depth of the
  cascade.

## Model

| member | source | states |
|---|---|---|
| RecordModel.EventName | record.py:51-56 | the result is empty exactly when no marker (`RECORD` or `GENESIS_RECORD`) sits at positions 0..len-2; otherwise it is the single component after the first such marker |
| RecordModel.EventNameOfRecordName | record.py:44-56 | for a name built as `/<producer>/RECORD/<event-name>` with a marker-free producer, the event name is the first component after `RECORD` |
| RecordModel.CheckPointers | record.py:91-100 | passes iff the list has exactly `numPointers` entries, all distinct; a wrong count raises the count error even when there are duplicates, otherwise a repeat raises the duplicate error |
| RecordModel.Record.constructor | record.py:25-33 | a new record has the given name, type and data, no pointers and no content item; the getters return exactly these |
| RecordModel.Record.GetRecordFullName | record.py:39-42 | `[]` while the record has no data; otherwise the full name of its data |
| RecordModel.Record.GetRecordName | record.py:46-47 | the name the record was built with |
| RecordModel.Record.GetEventName | record.py:51-56 | empty exactly when no marker sits at positions 0..len-2 of the record's name; otherwise the single component after the first marker |
| RecordModel.Record.SetContentItem | record.py:61-62 | the content item becomes the given item, `GetContentItem` returns it, and nothing else changes |
| RecordModel.Record.GetContentItem | record.py:66-67 | the item last set, `None` before any |
| RecordModel.Record.GetType | record.py:70-71 | the type the record was built with |
| RecordModel.Record.GetPointersFromHeader | record.py:81-82 | the pointer list, in the order `AddPointer` appended it |
| RecordModel.Record.AddPointer | record.py:85-88 | without data, exactly one pointer is appended after the old ones, and `GetPointersFromHeader` shows it last; with data it raises and the pointer list is unchanged |
| RecordModel.Record.CheckPointerCount | record.py:91-100 | the same verdicts as `CheckPointers` on the record's own pointers; the record is not modified |
| Pending.PendedMembers | consumer.py:207-211 | every pair the scan appends has the scanned record as waiter and one of its pointers as ancestor, and every pointer that is pending or not stored gets such a pair |
| Pending.MissingMembers | consumer.py:207-209 | `Missing` holds exactly the pointers that are pending or not stored |
| Pending.PendedIsMissing | consumer.py:207-211 | for a record that does not point at itself, the scan appends one pair per missing pointer, in pointer order; the set growing during the scan makes no difference |
| Pending.PendedExactly | consumer.py:207-211 | for a record that does not point at itself, the scan appends exactly the pairs of that record on its missing pointers, and appends nothing exactly when no pointer is missing |
| Pending.KeptMembers | consumer.py:213-221 | after the partition, exactly the pairs waiting on some other ancestor stay |
| Pending.ReleasedMembers | consumer.py:213-221 | a record is released exactly when it was waiting on the verified name |
| Pending.KeptAppend | consumer.py:216-221 | the pairs that stay keep their relative order: filtering distributes over concatenation |
| Pending.ReleasedAppend | consumer.py:216-219 | released waiters come out in list order: releasing distributes over concatenation |
| Pending.PartitionComplete | consumer.py:216-221 | every pair is either kept or released, never both and never dropped |
| Pending.KeptAll | consumer.py:216-221 | a list with no pair on the verified name is kept whole |
| Pending.ReleasedNone | consumer.py:216-219 | a list with no pair on the verified name releases nothing |
| Pending.PendThenRelease | consumer.py:207-221 | scanning a record and then partitioning on its own name keeps all the new pairs, at the end, and releases only waiters that were already there |
| Pending.ReverifiedThen | consumer.py:223-224 | two cascades of re-verification in a row are one cascade over both verified sets: a pair on a verified ancestor still has a verified waiter; every pair or pending name that disappeared belongs to a verified record; every pair that appeared has a verified waiter, and every name that became pending is verified |
| TailLists.CreateRecord | template-consumer.py:54-55 | the record carries the given log and the two linked logs unchanged |
| TailLists.StoredRecords | template-consumer.py:58-62 | `store_record` appends exactly one record and leaves the earlier ones unchanged; the new record's `r1` and `r2` are the logs of the newest and second-newest tails, or `None` when the tails list is too short |
| TailLists.StoredTails | template-consumer.py:59-63 | the tails list loses its (at most two) newest entries and ends with the new record, so its length becomes `max(n - 2, 0) + 1` |
| TailLists.StoreAllRecords | template-consumer.py:58-63 | storing a sequence of logs appends one record per log, in order, and never touches earlier records |
| TailLists.StoreAllSnoc | template-consumer.py:58-63 | storing one more log is one more `store_record` |
| TailLists.StoreAllAppend | template-consumer.py:73-79 | storing `a` and then `b` is storing `a + b` |
| TailLists.StoreAllOneTail | template-consumer.py:59-63 | starting from empty lists, once anything is stored the tails list holds exactly the newest record |
| TailLists.ChainExtend | template-consumer.py:59-63 | a chain of records extended by a record that links the previous log is still a chain |
| TailLists.StoreAllChain | template-consumer.py:59-63 | from empty lists, record `i` carries log `i`, links log `i - 1` as `r1` (`None` for the first) and never has an `r2` |
| TailLists.RangeLogsSplit | template-consumer.py:75-79 | the sequence numbers of a range are visited in increasing order: the logs of `low..mid` come before those of `mid + 1..high` |
| TailLists.RangeLogsMembers | template-consumer.py:75-79 | a text is logged for a range exactly when some sequence number in it delivers a non-empty payload with that text |
| TemplateConsumer.Program.constructor | template-consumer.py:40-41 | both lists start empty |
| TemplateConsumer.Program.StoreRecord | template-consumer.py:58-63 | the lists become `Stored(old lists, log)` |
| TemplateConsumer.Program.LogEventOnMissing | template-consumer.py:76-79 | one fetch extends the stored logs by that sequence number's payload, if non-empty |
| TemplateConsumer.Program.LogEventsOnMissingRange | template-consumer.py:75-79 | the lists become the old lists with the non-empty payloads of `low..high` stored in increasing order |
| TemplateConsumer.Program.LogEventsOnMissingData | template-consumer.py:73-79 | the lists become the old lists with the logs of every missing range stored, range after range |
| TemplateConsumer.Program.RecordsOnMissingData | template-consumer.py:84-85 | the stub changes nothing |
| EvenConsumer.AllParseMeans | even-consumer.py:69-70 | `AllParse` holds exactly when no sequence number of the range delivers a payload `int()` rejects |
| EvenConsumer.AllRangesParseMeans | even-consumer.py:66-70 | `AllRangesParse` holds exactly when every range of the missing list parses in full |
| EvenConsumer.EvenLogsAreEven | even-consumer.py:69-71 | every log kept from a range is the text of an even integer |
| EvenConsumer.EvenOnlyAppend | even-consumer.py:66-72 | the even filter distributes over concatenation |
| EvenConsumer.EvenLogsFilter | even-consumer.py:67-72 | the even consumer keeps, in order, exactly the logs the template consumer would store for the range, filtered to even integers |
| EvenConsumer.AllEvenLogsFilter | even-consumer.py:65-72 | the same holds over all missing ranges |
| EvenConsumer.AllEvenLogsAreEven | even-consumer.py:65-72 | every log kept from the missing ranges is the text of an even integer |
| EvenConsumer.StoredLogsAreEven | even-consumer.py:50-55 | storing only even logs adds only records whose log is even |
| EvenConsumer.Program.constructor | even-consumer.py:37-38 | both lists start empty |
| EvenConsumer.Program.Run | even-consumer.py:41-42 | `run` stores nothing |
| EvenConsumer.Program.StoreRecord | even-consumer.py:50-55 | the lists become `Stored(old lists, log)` |
| EvenConsumer.Program.OnMissingSeqno | even-consumer.py:68-72 | the fetch succeeds exactly when the payload is empty or parses; on success an even payload is stored and an odd one leaves both lists as they were; on failure nothing is stored |
| EvenConsumer.Program.OnMissingRange | even-consumer.py:67-72 | without a parse failure, the lists gain the even logs of `low..high` in order; otherwise the range stops at the first unparsable sequence number, with the even logs before it stored |
| EvenConsumer.Program.OnMissingData | even-consumer.py:65-72 | the ranges one after another. On success every range parsed in full and the lists gain the even logs of all ranges. On failure the outcome names the range and sequence number whose payload `int()` rejected; the earlier ranges and that range up to the failure parsed, and exactly their even logs are stored |
| Consumer.Seeded | consumer.py:85-92 | the seeded store holds the old names plus genesis names `0..count-1` |
| Consumer.WithoutMembers | consumer.py:125-127 | the candidate list holds exactly the ring names that are not pending, and is no longer than the ring |
| Consumer.TakeMembers | consumer.py:129-135 | the links taken from the shuffled list are elements of it, at most the number still wanted |
| Consumer.TakeIsPrefix | consumer.py:129-135 | the links taken are a prefix of the shuffled list, as long as the list allows and no longer than wanted |
| Consumer.ShuffleKeepsElements | consumer.py:128 | shuffling neither adds nor removes names |
| Consumer.DrawnLinks | consumer.py:125-132 | whatever order the shuffle chose, every ring link drawn is a ring name not waiting for verification |
| Consumer.NoneRejectedMeans | consumer.py:180-184 | `NoneRejected` holds exactly when no sequence number of the range delivers a record the pointer check rejects |
| Consumer.AcceptedNamesMembers | consumer.py:180-200 | a name is accepted from a range exactly when some sequence number delivers a record of that name that passes the pointer check |
| Consumer.AcceptedNamesOfRecords | consumer.py:180-200 | the names accepted from a range are exactly the names of its accepted records |
| Consumer.AllAcceptedNamesOfRecords | consumer.py:178-200 | the same over all missing ranges |
| Consumer.AcceptedRecordsSplit | consumer.py:180-184 | sequence numbers are handled in increasing order: a range's accepted records are those of its first part, then the record of its last sequence number when that one is delivered and passes the check |
| Consumer.StoreEachAppend | consumer.py:193-194 | storing `a` and then `b` is storing `a + b` |
| Consumer.StoreEachKeys | consumer.py:193-194 | storing records adds exactly their names to the store's keys |
| Consumer.StoreEachLastWins | consumer.py:193-194 | a name ends up with the last record stored under it |
| Consumer.StoreEachOthers | consumer.py:193-194 | a name no stored record carries keeps its old record |
| Consumer.RingEachAppend | consumer.py:196-197 | writing the names of `a` and then of `b` into the ring is writing those of `a + b` |
| Consumer.RingEachTop | consumer.py:196-197 | after `k` writes the next slot is the old one plus `k`, modulo the ring length |
| Consumer.RingEachNames | consumer.py:196-197 | the ring holds only names it held before or names of the records written |
| Consumer.RingEachLatest | consumer.py:196-197 | each of the last `len(last_names)` records written sits in the slot it was written to, so the ring holds the newest names |
| Consumer.ReceivedEmpty | consumer.py:182-184 | receiving no record leaves the store, the ring and its index as they were |
| Consumer.ReceivedOne | consumer.py:193-197 | receiving one record is one store write and one ring write |
| Consumer.ReceivedThen | consumer.py:180-184 | receiving `a` and then `b` is receiving `a + b` |
| Consumer.ReceivedNext | consumer.py:180-184 | receiving the accepted records of sequence numbers `low..s-1` and then those of `s` is receiving those of `low..s` |
| Consumer.PendingStays | consumer.py:213-224 | a verified record pending on its unstored ancestors stays so through a later cascade that does not verify it again |
| Consumer.CascadedIntro | consumer.py:206-224 | the facts `verify_previous_record` leaves about the received record, together with a ranked waiting list, make up `Cascaded`, including the re-pending of its released waiters |
| Consumer.CarriesThen | consumer.py:141-154 | records built carrying the payloads of one range, after records that carry the earlier ranges' payloads and are not rebuilt, carry the payloads of all of them, later ranges winning |
| Consumer.RecordStorage.constructor | consumer.py:60 | the store starts empty |
| Consumer.RecordStorage.StoreRecord | consumer.py:47-50 | writing maps the name to the record, overwriting any earlier one; `GetRecord` then returns it, and returns the same as before for every other name |
| Consumer.RecordStorage.GetRecord | consumer.py:52-58 | a record exactly when one is stored under the name, and then that record; `None` otherwise |
| Consumer.Logger.constructor | consumer.py:63-92 | the ring holds exactly the `NumRecordLinks` genesis names, each stored as a genesis record, the index is 0, and nothing is pending |
| Consumer.Logger.CandidatesStored | consumer.py:125-132 | every candidate link, in any shuffled order, names a stored record |
| Consumer.Logger.CreateRecord | consumer.py:117-136 | the record is named after the node and the event; its pointers are the node's previous record (if any), first, followed by the shuffled candidates in order until there are `NumRecordLinks`; there are never more; each pointer names a stored record and carries that record's hash |
| Consumer.Logger.AddLinks | consumer.py:129-135 | the loop appends the shuffled candidates in order, each with its record's hash, stopping at `NumRecordLinks` pointers or when the list runs out |
| Consumer.Logger.ReceiveLogEvent | consumer.py:157-173 | the new record is stored under its name (nothing else in the store changes) and becomes the node's last record; its first pointer is the previous last record |
| Consumer.Logger.PendMissingAncestors | consumer.py:207-211 | the waiting list gains `Pended(...)` and the record becomes pending iff any pair was added |
| Consumer.Logger.ReleaseWaiters | consumer.py:213-221 | the released list and the remaining pairs are `Released` and `Kept` of the old list; exactly the released waiters leave the pending set |
| Consumer.Logger.PendAndRelease | consumer.py:207-221 | the two loops. The only pairs added are the record's own, one on each pointer that is pending or not stored, and each such pointer gets one. The record becomes pending exactly when it was pending or has such a pointer, and no other name joins the pending set. Exactly the records that waited on it are released, all stored and ranked below it. Every other pair stays, and only released records leave the pending set |
| Consumer.Logger.VerifyPreviousRecord | consumer.py:206-224 | the whole cascade, at any depth. The verified set holds the record and stored records ranked below it. The record's pairs afterwards are exactly its old pairs plus one on each pointer that is pending or not stored. It is pending afterwards exactly when it was or has such a pointer. Every other verified record ends up pending on each of its unstored ancestors. Every pair on a verified ancestor has a verified waiter. Only verified records leave or join the list or the pending set. A waiter released while the record is unstored or pending is pending on it again |
| Consumer.Logger.VerifyReleased | consumer.py:223-224 | every released waiter is verified again, in order. Everything verified on the way is stored and ranked below the releasing record, and ends up pending on each of its unstored ancestors. Only verified records leave or join the list or the pending set |
| Consumer.Logger.VerifyWaiter | consumer.py:223-224 | one re-verification. The waiter joins the verified set, and the facts of `VerifyReleased` carry over to the larger set, including that only verified records leave or join the list or the pending set. Pairs on the releasing record are kept |
| Consumer.Logger.ReceiveRecords | consumer.py:186-200 | passes iff the record has exactly `NumRecordLinks` distinct pointers. On failure the store, the ring, the index and the pending state are unchanged. On success the record is stored, and only the ring slot at the old index is overwritten with its name. The index advances modulo the ring length. The pending state is `Cascaded`: the record's pairs are exactly its old pairs plus one on each pointer that is pending or not stored, and it is pending exactly when it was or has such a pointer. The other facts of `VerifyPreviousRecord` hold, and a record that waited on the new arrival is pending on it again |
| Consumer.Logger.AcceptRecord | consumer.py:193-200 | verification, the store write and the ring update of `receive_records`. The pending state is `Cascaded`, as in `ReceiveRecords` |
| Consumer.Logger.VerifyReceived | consumer.py:193 | `verify_previous_record` on a record not stored yet leaves the pending state `Cascaded`, and the waiting list stays ranked |
| Consumer.Logger.StoreReceived | consumer.py:193-197 | the record is stored under its name and overwrites the oldest ring slot; the index advances modulo the ring length |
| Consumer.Logger.RangeBuiltMembers | consumer.py:143-154 | a record is built for a range exactly when some sequence number delivers a non-empty payload |
| Consumer.Logger.RangeLastUnchanged | consumer.py:143-154 | a range in which nothing delivers leaves the last record as it was |
| Consumer.Logger.RangeLastNewest | consumer.py:143-168 | after a range the last record is the one built for the highest sequence number that delivered |
| Consumer.Logger.OnMissingEvent | consumer.py:144-154 | an empty payload changes nothing. A non-empty one stores one record, under that sequence number's built name, carrying the payload; no other entry of the store changes, and the record becomes the last record |
| Consumer.Logger.RangeEventsKeys | consumer.py:143-154 | the payload map of a range has exactly the names built for it |
| Consumer.Logger.RangeEventsLastWins | consumer.py:143-154 | a sequence number whose payload is delivered and whose built name no later sequence number builds leaves that payload in the map |
| Consumer.Logger.AllEventsKeys | consumer.py:141-154 | the payload map of all missing ranges has exactly the names built for them |
| Consumer.Logger.OnMissingEventRange | consumer.py:143-154 | the store gains exactly the names built for `low..high`, and every other entry keeps its record. Each built record carries the payload of the last sequence number that built its name (`Carries` of `RangeEvents`). The last record is `RangeLast` of the range |
| Consumer.Logger.OnMissingEvents | consumer.py:141-154 | the same over all missing ranges, range after range; each built record carries the payload of the last fetch that built its name (`Carries` of `AllEvents`) |
| Consumer.Logger.OnMissingRecord | consumer.py:181-184 | one fetch fails exactly when the delivered record fails the pointer check. The store and the ring receive exactly that sequence number's accepted records: one when the payload is delivered and passes, none otherwise. An empty payload or a failure leaves the pending state unchanged. An accepted record leaves it `Cascaded`, as in `ReceiveRecords` |
| Consumer.Logger.OnMissingRecordNext | consumer.py:180-184 | sequence number `s` after `low..s-1`: on success the store and ring have received the accepted records of `low..s`; on failure `s` is the first rejected sequence number and exactly those of `low..s-1` were received |
| Consumer.Logger.OnMissingRecordRange | consumer.py:180-184 | with no rejection, the store and the ring received exactly the accepted records of `low..high`, in order. Otherwise the range stops at the first rejected sequence number, and exactly the accepted records before it were received |
| Consumer.Logger.OnMissingRecordsAt | consumer.py:179-184 | range `j` after ranges `0..j-1` completed, with the same outcome cases |
| Consumer.Logger.OnMissingRecords | consumer.py:178-184 | the ranges one after another. On success the store and ring received exactly the accepted records of every range, in order. On failure the outcome names the range and sequence number whose record failed the pointer check. That record is the first rejected one, and exactly the accepted records before it were received |

## Left out

- `RecordStorage` persistence in `dbm` and its busy-retry open loop (consumer.py:37-58). The store is an in-memory map with overwrite on write and `None` for absent names.
- SVSync, NDNApp, `aio.ensure_future`, `fetchData` and `publishData`: network and concurrency. Fetching is a function parameter. Publishing is the record `ReceiveLogEvent` returns.
- NDN name encoding (`Name.from_str`, `to_str`, `normalize`, `Component.to_str`): names are sequences of strings.
- Wire encoding, hashing and signing (record.py:103-111, `GenesisRecord`, `get_record_hash`). The store holds decoded records, and the hash and genesis names are parameters.
- `is_record_valid`: a stub returning `True` (consumer.py:94-95). The commented-out recursive validity check is not code.
- `random.shuffle`: any multiset-preserving function, not real randomness.
- `Record.is_empty` (record.py:75-78): it calls `is_valid` on a content item of unknown type.
- `Program.run` of template-consumer.py: an endless loop with `time.sleep`.
- app.py, producer.py, security.py, cert_manager.py, svs.py and prelim.py: not part of this model.
- Command-line parsing, `main`, `start` and all printing.
- The missing-data loops increment `MissingData.lowSeqno` in place. The model counts in a local variable and leaves the caller's `MissingData` values untouched.
- Consumer.Logger.ReceiveLogEvent: states the first pointer and the pointer bound; the full choice of links is stated by `CreateRecord`.
- Consumer.Logger.OnMissingEvents: states which names are added, the payload each built record carries, that every other entry of the store keeps its record, and which record is last. It does not state each built record's pointers, which depend on the shuffle at every step. The same holds for `OnMissingEventRange`.
- Consumer.Logger.OnMissingRecords: states the store, the ring and its index exactly, and where the task stops. The pending list and set are stated per received record, by `OnMissingRecord` and `ReceiveRecords` (`Cascaded`), not as one final state after a range or the whole task. The same holds for `OnMissingRecordNext`, `OnMissingRecordRange` and `OnMissingRecordsAt`, which require a rank for every delivered record, not only the accepted ones.
- Consumer.Logger.ReceiveLogEvent: `content_str.decode()` can raise `UnicodeDecodeError` on bytes that are not UTF-8 (consumer.py:160). The model's event fetch delivers text already decoded, so that exception is not modelled. The same holds for `content_str.decode()` in template-consumer.py:61 and even-consumer.py:53 and 70, where `text` is total.
- Consumer.Logger.ReceiveRecords: is modelled only for acyclic pointers, witnessed by `rank`. With a pointer cycle through the received record, the cascade releases the record before it is verified, `get_record` returns `None` for it, and the recursive call raises `AttributeError` (consumer.py:207, 213-224). With a cycle among stored records the cascade can release the same records again and again. Neither behaviour is modelled.
- Consumer.Logger.VerifyPreviousRecord: states the pending facts listed above, not the whole final waiting list. That list depends on the order of the recursive re-verifications. The pairs and the pending membership are exact for the record itself; for records verified deeper in the cascade the model gives the lower bound (pending on each unstored ancestor) and the upper bound (only verified records join), not an exact set.
- Consumer.Logger.VerifyReleased: gives, for the records it verifies, the bounds of `VerifyPreviousRecord` for deeper records, not their exact pairs. The same holds for `VerifyWaiter` and `ReverifiedThen`.
