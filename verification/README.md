# Verified models of the order-book log and its neighbours

A Dafny project that models the stateful parts of this repository and proves what they are for.
`dafny verify dfyconfig.toml` checks everything.

* **The order-book log** (`apps/pricing`). A writer merges pages of orders into its book, gives every live order a slot
  and appends records to a byte log; a reader replays the log knowing only slots; the writer compares the two after
  every snapshot. The main result is that, for any run of snapshots in which ids keep their static fields, this
  comparison cannot fail.
  `Codec` is the byte format, `PageMerge` the merge, `SlotAllocator` the slots, `Replay` the reader's records,
  `OrderLog` and `Snapshots` pages, frames and runs, `BookCheck` the comparison, `Mirror` the writer's own array of
  slots, `SlotNumbers` the slot numbers as coded, `SlotReuse` which slots are reused, `SmallRuns` small inputs on which
  the code fails. `JsonReader` and `JsonWriter` hold the two classes, with the loops and fields of the program;
  `CheckCalls` counts the calls of `check`.
* **Its input.** `OrderMembers` reads an order from JSON members, `PageFiles` collects pages from an archive.
* **Its use.** `ViewDiff`, `PrintedDiff`, `DiffMeaning` and `TritaniumAnalysis` compare consecutive views of the market.
* **Market history** (`apps/history_reader.cpp` with its semaphore, database worker and HTTP workers) as a state machine
  over all interleavings: `HistoryProtocol`, `HistorySafety`, `HistoryProperties`, `HistoryProgress`.
* **Hauling** (`emdr_db/main2.cpp`): `HaulProblem` says what a haul is and what the linear program is, `HaulMeaning` that
  the two agree, `HaulEncoder` fills the arrays.
* **Control flow from a disassembly** (`objdump_to_cfg.py`): `FlowStates`, `FlowEdges`, `FlowInvariant`,
  `FlowOrder`, `FlowExplorer`.
* **Blueprints** (`libs/industry_resources/types`): `BlueprintRegistry`, `BlueprintProperties`, `BlueprintTypes`, with
  the general `Folds`.

## Where the code differs from what is intended

* *The check between records.* The merge calls `check` as it goes (json_writer.cpp:353, 384, 405), which ends
  in `OrderReader::finalize`. That throws unconditionally, as its throw is not part of the unbraced `if`
  (json_reader.cpp:224-228). By `CheckCalls.AnyPageCalls` a run from the empty book reaches such a call exactly if it
  has a page with orders, so the code as committed throws on the first one. The other models leave these calls out.
* *Slot numbers.* On a push to the mirror array the code hands out `size()` after the push (json_writer.cpp:290, 368) but
  uses the number as a position in that array. The log is proved right for every numbering (`base` is the number handed
  out on an empty mirror). `SlotNumbers.RunInRangeExactly` says which runs stay inside the array with the numbering as
  coded: exactly those in which the order that arrived when the number of live orders last reached a new maximum is
  neither changed nor deleted before the next maximum. `SmallRuns.OneBasedLeavesArray` gives a run that does not. The
  classes use positions, `base` 0.
* *Static fields.* A change record carries only price and volume. The comparison therefore fails exactly if, after the
  snapshot, some order of the book has other static fields than the order its slot was filled with
  (`BookCheck.ReplayMatchesBook`, `BookCheck.CheckExactly`); no page changes them exactly if every page keeps those of
  the ids it shares with the book (`BookCheck.PageHoldsExactly`). `SmallRuns.ChangedStaticsFail` and
  `SmallRuns.MinVolumeChanged` give failing runs; by `SmallRuns.RestoredStaticsPass` a later page may undo the change.
* *Unsigned volumes.* `volume(a) - volume(b)` wraps (main.cpp:168); `ViewDiff.SortedBalances` says for which
  views the books balance, `ViewDiff.OneOrderBalances` gives two for which they do not.
* *Counting variables.* The number of columns is counted in 32 bits (main2.cpp:754-758); `HaulEncoder.ColumnsSuffice`
  says that the arrays have room exactly if it is below 2^32.
* *Order of registration.* Blueprints are registered in the order of their file, and later ones overwrite earlier ones
  (types.cpp:201-202, 214, 229). `BlueprintProperties.OrderIrrelevant` says exactly when the order does not matter,
  `BlueprintProperties.RelicsDisagree` gives an input for which it does.
* *Archives read in part.* The exception handler of `readOrders` is outside its loop (json_writer_util.cpp:178-197), so
  one order that cannot be converted ends the reading (`PageFiles.EndsAtFirstBad`); `PageFiles.AnyArchiveOrder` says
  exactly when the order of the archive then does not matter.
* *Whole prices.* `convert` takes only doubles as a price, so the `3000` of its own comment is rejected
  (`OrderMembers.WholePriceRejected`).
* *Exceptions of the scan.* `iterate_bb` prints an operand that may not have been read yet (objdump_to_cfg.py:182),
  reads the instruction behind the last one, and takes the symbol column of a call for granted (260).
  `FlowStates.RaisesExactly` says which reachable states raise, `FlowExplorer.Explorer.Explore` when the whole
  exploration does; `FlowStates.BareReturnRaises` and `FlowStates.CallWithoutSymbolRaises` are small functions that do,
  `FlowStates.CompleteNeverRaises` a condition on the program alone under which none does.

## Assumptions

* A page handed to the writer is not empty, strictly ascending by id, with positive volumes and `buy` other than 2; a
  snapshot has at most 127 pages and the records of a page fit a signed 32-bit size (`OrderLog.PageOk`,
  `OrderLog.PagesOk`, `Snapshots.SnapshotOk`). `PageFiles.PagesInOrder` and `OrderMembers.BuyIsZeroOrOne` show where
  volumes, non-emptiness and `buy` come from; that a page is sorted by id is assumed.
* The reader has 600000 slots; `BookCheck.ReplayMatchesBook` says exactly when they suffice.
* The machine is little-endian, as the log holds words as memory does.
* Every disassembled instruction has a mnemonic, behind `repz` a second one, and the operand of a jump or call is
  hexadecimal or has a star.
* The date parser, the meaning of a price word as a number, the decoding of instructions, item groups, the outcome of an
  HTTP request and of a query, and the largest page number memory allows are parameters.

## Model

| member | source | states |
|---|---|---|
| BookCheck.ReplayMatchesBook | apps/pricing/json_writer.cpp:410-440 | Main result, for every finite run of snapshots from the empty book and every blank slot array: apart from the calls of `check`, writing never throws; the reader succeeds exactly if the slots suffice for the largest number of orders ever live at once; it stops exactly at the end of the bytes written; and then the final comparison never throws if ids keep their static fields, and passes exactly if the latest orders still have the static fields of the orders their slots were filled with |
| BookCheck.EverySnapshotMatches | apps/pricing/json_writer.cpp:410-440 | The same after each snapshot of a run: a reader of the whole log that has read n frames shows the book as it was after n snapshots, and the comparison passes under the same condition |
| BookCheck.CheckExactly | apps/pricing/json_writer.cpp:415-440 | The comparison of the sorted non-zero slots with the book, ignoring `issued`, passes if and only if the book has kept the static fields of what the reader was given; the sizes always agree |
| BookCheck.VisibleIsView | apps/pricing/json_writer.cpp:417-423 | Dropping zero volumes and sorting the slot array by id gives exactly the orders a reader can know, in the order of the book |
| BookCheck.SortedUnique | apps/pricing/json_writer.cpp:421 | A list strictly sorted by id is determined by its members, so the sort used does not matter |
| BookCheck.PageHoldsExactly | apps/pricing/order.h:50-60 | A page leaves the static fields intact if and only if every id it shares with the book keeps them |
| BookCheck.RunHoldsStatics | apps/pricing/order.h:50-60 | If every page of a run keeps the static fields of ids it shares with the book, they agree after the whole run |
| PageMerge.ActionsExactlyOnce | apps/pricing/json_writer.cpp:276-406 | For sorted inputs the merge emits, in strictly ascending id order, new for page-only ids, delete for old-only ids, a change for common ids exactly if price or volume differ, and nothing else |
| PageMerge.ActionsMeaning | apps/pricing/json_writer.cpp:276-406 | Performed on any view holding the old orders, every emitted action is possible where it is performed (so no inconsistency throw) and the outcome is the old view with the interval replaced by the page |
| PageMerge.PageReplacesInterval | apps/pricing/json_writer.cpp:261-274 | The new book is strictly sorted and its members are exactly the page and the old orders outside [first id, last id] |
| PageMerge.IntervalCut | apps/pricing/json_writer.cpp:262-267 | lower_bound and upper_bound on a sorted book split it exactly at the id interval of the page |
| PageMerge.LowerBoundCuts | apps/pricing/json_writer.cpp:262-265 | On a sorted book the binary search result separates ids below from ids not below the key |
| PageMerge.UpperBoundCuts | apps/pricing/json_writer.cpp:266-267 | Likewise for ids not above and ids above the key |
| PageMerge.PageIds | apps/pricing/json_writer.cpp:269-274 | How the ids of the book change: the replaced ids lie in the interval and contain every id the page shares with the book |
| SlotAllocator.PerformKeeps | apps/pricing/json_writer.cpp:284-300 | Each action either meets an inconsistency throw, exactly if its id is live (new) or not live (change, delete), or keeps slots pairwise distinct, disjoint from the duplicate-free free list and together covering all slots |
| SlotAllocator.PerformAllKeeps | apps/pricing/json_writer.cpp:284-398 | In every state of a merge the allocator is well-formed; no throw is reached exactly if every action is possible where it is performed |
| SlotAllocator.MoveKeeps | apps/pricing/json_writer.cpp:287-299 | Taking, keeping or freeing a slot keeps the partition and never hands out a slot outside the array |
| SlotAllocator.SlotsArePeak | apps/pricing/json_writer.cpp:288-298 | Freed slots are reused before new ones are taken: the number of slots is the largest number of orders live at once |
| SlotReuse.FirstInFirstOut | apps/pricing/json_writer.cpp:292-396 | Slots are reused in the order in which they were freed, read off the records alone: the slots free before any actions and those of the delete records are, in this order, the slots reused by the records of new orders and those free in the end |
| SlotReuse.RunReusesFirstFreed | apps/pricing/json_writer.cpp:230-441 | The same for the bytes of the log of every run of snapshots from the empty book: the slots of its delete records are those its new orders reuse, and behind them the free list |
| SlotReuse.LogDecodes | apps/pricing/json_writer.cpp:230-441 | The log of a run is made up of one frame for each snapshot, with its view time and its pages, which can be told apart whatever follows |
| SlotReuse.PagesCarryIds | apps/pricing/json_writer.cpp:253-258 | Each page written carries the first and the last id of its document |
| Replay.ApplyShows | apps/pricing/json_reader.cpp:155-183 | A slot array that shows the view of the writer shows it after the next record, where freed slots hold volume 0; it fails exactly if the slot lies outside the array |
| Replay.ApplyAllShows | apps/pricing/json_reader.cpp:194-202 | The same for all records of a page, from any reachable state |
| OrderLog.PageKeeps | apps/pricing/json_writer.cpp:250-408 | From a consistent state a page in order is written without a throw and leaves a consistent state: index, book and view have the same ids |
| OrderLog.PageMeaning | apps/pricing/json_writer.cpp:261-406 | The actions of a page turn the view into the view with the interval of the page replaced |
| OrderLog.PageReplays | apps/pricing/json_reader.cpp:210-215 | Replaying the records of one page gives slots showing the new view |
| OrderLog.PageSize | apps/pricing/json_writer.cpp:288-298 | The slots after a page are the larger of those before and the peak of live orders during the page |
| OrderLog.PageRecords | apps/pricing/json_writer_util.cpp:53-54 | The records of a page can be told apart by their tag and take 54 bytes for a new order and 17 for any other, slot prefix included |
| Snapshots.PagesReplay | apps/pricing/json_reader.cpp:209-216 | Replaying any number of pages follows the writer page by page, or fails exactly when the writer has run out of the slots the reader has |
| Snapshots.ReadEncodedSnapshot | apps/pricing/json_reader.cpp:204-216 | Reading a frame of up to 127 pages applies its records in order and leaves exactly the bytes behind it |
| Snapshots.PagesFrame | apps/pricing/json_writer.cpp:246-252 | As many pages are written as the frame announces, each of a size that fits its field |
| Snapshots.SnapshotKeeps | apps/pricing/json_writer.cpp:230-409 | Every snapshot in order is written without a throw and keeps the invariant; the book is the old one with each interval replaced in turn |
| Snapshots.SnapshotReplays | apps/pricing/json_reader.cpp:204-221 | One step of the reader consumes exactly the bytes of one snapshot and shows the new view |
| Snapshots.RunKeeps | apps/pricing/json_writer.cpp:230-441 | The invariant holds after every run of snapshots |
| Snapshots.RunReplays | apps/pricing/json_reader.cpp:204-221 | Reader and writer positions agree after every run of snapshots, as do slots and view |
| Snapshots.RunPrefix | apps/pricing/json_writer.cpp:230-441 | The first snapshots of a run in order are in order, and need no more slots than the run |
| Snapshots.LogPrefix | apps/pricing/json_writer.cpp:230-441 | The bytes of the first snapshots of a run are the first bytes of its log |
| Snapshots.StepShrinks | apps/pricing/json_reader.cpp:204-221 | Whatever the text is, a step that succeeds leaves less of it, by 5 bytes and at least 20 for each page announced |
| Snapshots.NegativeCountSkips | apps/pricing/json_reader.cpp:204-216 | A frame whose page count is negative as a signed byte is read as one without pages |
| Codec.WordRoundTrip | apps/pricing/json_reader.cpp:36-45 | Little-endian words of any width read back |
| Codec.ReadingsExact | apps/pricing/json_reader.cpp:36-45 | Conversely, reading 1, 4 or 8 bytes as any field type loses nothing: the bytes are the encoding of what was read |
| Codec.FourBytes | apps/pricing/json_writer_util.cpp:40-46 | Words of four bytes are written with the least significant byte first |
| Codec.EightBytes | apps/pricing/json_writer_util.cpp:40-46 | Words of eight bytes are the low four bytes and then the high four |
| Codec.TwosComplement | apps/pricing/json_writer_util.cpp:40-46 | Negative numbers are written as their two's complement |
| Codec.TupleRoundTrip | apps/pricing/json_reader.cpp:47-50 | A tuple of words in front of any bytes reads back field by field |
| Codec.RecordWidths | apps/pricing/order.h:48-103 | An order takes 50 bytes, a change record 13 |
| Codec.OrderLayout | apps/pricing/order.h:73-74 | Where each of the eleven fields lies in the 50 bytes of an order |
| Codec.DiffLayout | apps/pricing/order.h:101-103 | Where tag 2, price and volume lie in the 13 bytes of a change record |
| Codec.EventLayout | apps/pricing/json_writer.cpp:302-305 | A record is its slot in four bytes and then the order or the change record |
| Codec.HeaderLayout | apps/pricing/json_writer.cpp:243-260 | Where the fields of frame header and page header lie |
| Codec.OrderRoundTrip | apps/pricing/json_writer_util.cpp:53 | Every order, signed fields and 64-bit words included, reads back from its bytes |
| Codec.DiffRoundTrip | apps/pricing/json_writer_util.cpp:54 | Every change record reads back from its bytes |
| Codec.EventRoundTrip | apps/pricing/json_reader.cpp:155-183 | A slot-prefixed record reads back, leaving what follows, if and only if it is a change or its order has a `buy` other than 2 |
| Codec.EventsRoundTrip | apps/pricing/json_reader.cpp:194-202 | For every list of distinguishable records, decoding the concatenation of their encodings returns the list |
| Codec.RecordShrinks | apps/pricing/json_reader.cpp:155-183 | Whatever the text is, a record that is read takes 54 bytes off it if it is an order and 17 if it is a change |
| Codec.PageShrinks | apps/pricing/json_reader.cpp:210-215 | Whatever the text is, a page that is read takes at least its header of 20 bytes off it |
| Codec.PageRoundTrip | apps/pricing/json_writer.cpp:253-260 | A page with its header and back-patched size reads back and leaves what follows |
| Codec.PageHeaderRoundTrip | apps/pricing/json_reader.cpp:210-213 | The page header gives back first id, last id and size |
| Codec.FrameHeaderRoundTrip | apps/pricing/json_reader.cpp:205-206 | The frame header gives back view time and page count |
| Mirror.ZeroBasedInRange | apps/pricing/json_writer.cpp:317-319 | With slots numbered from 0 no access to the mirror array leaves it |
| SlotNumbers.RunInRangeExactly | apps/pricing/json_writer.cpp:288-319 | For every run of snapshots: numbered by position, no access leaves the mirror array; numbered by `size()` after the push, as coded, none does if and only if the order whose arrival last raised the number of live orders to a new maximum is neither changed nor deleted before the maximum is raised again |
| SlotNumbers.RunPerforms | apps/pricing/json_writer.cpp:276-406 | What writing a run does to index, free list and slot count is exactly what performing the listed actions of its pages one after the other does |
| SmallRuns.OneBasedLeavesArray | apps/pricing/json_writer.cpp:290-319 | Two snapshots the writer accepts and on which the numbering as coded writes behind the mirror array: one order, then another offer under its id |
| SmallRuns.ChangedStaticsFail | apps/pricing/json_writer.cpp:410-440 | One order, then an order with the same id: the reader succeeds, and the comparison passes if and only if the static fields are the same |
| SmallRuns.MinVolumeChanged | apps/pricing/json_writer.cpp:415-440 | A concrete run on which the comparison fails: a price goes from 5 to 6 and the minimum volume with it from 1 to 2 |
| SmallRuns.RestoredStaticsPass | apps/pricing/json_writer.cpp:415-440 | A later page of the same snapshot may restore the static fields, and then they agree |
| Mirror.ActionsAgree | apps/pricing/json_writer.cpp:289-347 | Performing the same actions on mirror and reader slots keeps them equal slot by slot except for `issued`, freed slots included |
| Mirror.PageAgrees | apps/pricing/json_writer.cpp:289-347 | The same for a whole page |
| Mirror.SnapshotAgrees | apps/pricing/json_writer.cpp:250-409 | The same for all pages of a snapshot, from any state in which they agree |
| Mirror.BytesAgree | apps/pricing/json_writer.cpp:410-440 | The same when the reader gets the pages from the bytes of the snapshot, whatever follows them |
| Mirror.RunAgrees | apps/pricing/json_writer.cpp:230-441 | Over every run that keeps static fields the reader succeeds on the written bytes with the slots of the largest number of live orders, stops at their end, and mirror, index, view and slots are in step again |
| Mirror.MirrorMatchesReader | apps/pricing/json_writer.cpp:347-441 | From the start, after every such run: mirror and reader slots are equal slot by slot but for `issued`, the mirror has one entry per slot, and in both every slot no live order holds has volume 0 |
| Mirror.MirrorHoldsLatest | apps/pricing/json_writer.cpp:289-347 | The mirror array holds each live order in full as the page gave it when it was new or last changed, static fields included |
| JsonWriter.JsonWriter.Extract2 | apps/pricing/json_writer.cpp:230-441 | The method with its loops: appends exactly the bytes of the snapshot, replaces the book, updates index, free list and mirror, lets the reader catch up to the write position, and reports a mismatch exactly if static fields changed; with static fields kept there is none, and mirror and reader slots go on agreeing |
| JsonWriter.JsonWriter.MergePage | apps/pricing/json_writer.cpp:253-408 | One page: cut, merge and back-patch leave book, slots and log as specified |
| JsonWriter.JsonWriter.MergeBoth | apps/pricing/json_writer.cpp:276-355 | The loop over both sequences stops with one of them finished and everything before it recorded |
| JsonWriter.JsonWriter.MergeNew | apps/pricing/json_writer.cpp:357-385 | The rest of the page is recorded as new |
| JsonWriter.JsonWriter.MergeDelete | apps/pricing/json_writer.cpp:387-406 | The rest of the old orders is recorded as deleted |
| JsonWriter.JsonWriter.CutBook | apps/pricing/json_writer.cpp:261-274 | The book is replaced and the bounds delimit the old orders of the interval |
| JsonWriter.JsonWriter.TakeSlot | apps/pricing/json_writer.cpp:287-300 | Takes the oldest free slot or a new one and notes it in the index |
| JsonWriter.JsonWriter.AddOrder | apps/pricing/json_writer.cpp:284-305 | Appends the slot-prefixed order and updates index, free list and mirror |
| JsonWriter.JsonWriter.ChangeOrder | apps/pricing/json_writer.cpp:315-325 | Appends the slot-prefixed change record and updates the mirror |
| JsonWriter.JsonWriter.DeleteOrder | apps/pricing/json_writer.cpp:336-347 | Appends a change record with volume 0, frees the slot at the end of the free list and zeroes the mirror |
| JsonWriter.JsonWriter.ClosePage | apps/pricing/json_writer.cpp:407-408 | Patches the size into the gap left in the header, touching no other byte |
| JsonWriter.JsonWriter.WriteTuple | apps/pricing/json_writer_util.cpp:48-51 | Appends exactly the bytes of the tuple |
| JsonWriter.JsonWriter.Replay | apps/pricing/json_writer.cpp:410-414 | The reader catches up to the write position |
| JsonWriter.JsonWriter.Compare | apps/pricing/json_writer.cpp:425-440 | Finds a mismatch exactly if some common position differs in anything but `issued` |
| CheckCalls.CallsCounted | apps/pricing/json_writer.cpp:276-406 | The merge of a page calls `check` once for each id of the page or of its interval, changed or not, but for one if both have orders |
| CheckCalls.NoCallExactly | apps/pricing/json_writer.cpp:276-406 | It calls `check` not at all if and only if there is nothing to do or one order meets one with its id |
| CheckCalls.AnyPageCalls | apps/pricing/json_writer.cpp:250-409 | From the empty book, a run of snapshots reaches a call of `check` if and only if one of them has a page with orders |
| JsonReader.OrderReader.constructor | apps/pricing/json_reader.cpp:80-82 | 600000 empty slots, text at its beginning |
| JsonReader.OrderReader.ReadStep | apps/pricing/json_reader.cpp:155-183 | Applies the next record to the slot array in place and returns what follows |
| JsonReader.OrderReader.ReadDoc | apps/pricing/json_reader.cpp:194-202 | Applies all records of a page; terminates, as each record shortens the text (`Codec.RecordShrinks`) |
| JsonReader.OrderReader.Step | apps/pricing/json_reader.cpp:204-221 | Reads one frame in place: slots, view time and position become those of the specified reader |
| JsonReader.ReadTuple | apps/pricing/json_reader.cpp:47-50 | Reads the words of a tuple one after the other |
| OrderMembers.ConvertsByName | apps/pricing/read_json_order.cpp:66-144 | For members named by the eleven keys, in any order and with repeats, the dispatch agrees with looking each key up by its full name, the last occurrence winning, and all keys are seen exactly if all eleven names occur |
| OrderMembers.Convert | apps/pricing/read_json_order.cpp:45-146 | Succeeds if and only if every value has the type its key asks for and every key was seen; then each field holds what the last member taken for its key says |
| OrderMembers.ReadMember | apps/pricing/read_json_order.cpp:68-140 | The switch over length and first letter sets the field of the key and rejects values of the wrong type |
| OrderMembers.DispatchIsByName | apps/pricing/read_json_order.cpp:69-135 | Among the eleven names, length and first letter determine the key |
| OrderMembers.MarksAll | apps/pricing/read_json_order.cpp:142 | The bit mask equals 2^11 - 1 exactly if every key was seen |
| OrderMembers.RangeTable | apps/pricing/read_json_order.cpp:8-43 | All twelve documented ranges convert as the table in the comment says |
| OrderMembers.BuyIsZeroOrOne | apps/pricing/read_json_order.cpp:79 | A converted order has `buy` 0 or 1, so its record is never taken for a change |
| OrderMembers.WholePriceRejected | apps/pricing/read_json_order.cpp:55-92 | A price written without a fraction makes the conversion fail, although the comment gives one as an example |
| OrderMembers.TypeTable | apps/pricing/read_json_order.cpp:66-140 | Which type each of the eleven members has to have, 32 bits where the field has, and what names that are none of them are taken for |
| OrderMembers.ObjectConverted | apps/pricing/read_json_order.cpp:66-140 | The last member of each name ends up in the field of its name |
| OrderMembers.RangeOfDigits | apps/pricing/read_json_order.cpp:24-43 | One digit counts as it is, of two characters only the first counts, in tens; other lengths are keywords |
| PageFiles.ReadOrders | apps/pricing/json_writer_util.cpp:177-201 | Returns the non-empty filtered pages of the entries before the first exception |
| PageFiles.CollectPages | apps/pricing/json_writer_util.cpp:179-195 | Every page number maps to the filtered orders of its last entry before the first exception |
| PageFiles.FilterOrders | apps/pricing/json_writer_util.cpp:159-163 | Keeps exactly the orders with volume, in order |
| PageFiles.PagesReturned | apps/pricing/json_writer_util.cpp:177-201 | What is returned are exactly the pages with at least one order of positive volume, in strictly ascending page number; each is non-empty with positive volumes only, as the writer requires |
| PageFiles.PagesInOrder | apps/pricing/json_writer_util.cpp:159-201 | If the pages in the archive are sorted by id and their orders were converted from JSON, what is returned meets every precondition the writer has on a page |
| PageFiles.ContentsOfEntry | apps/pricing/json_writer_util.cpp:194 | With distinct page numbers a page holds the filtered orders of its only entry |
| PageFiles.EndsAtFirstBad | apps/pricing/json_writer_util.cpp:177-197 | An entry with a page number that cannot be read, one with contents that cannot be converted and a page there is no room for end the reading, whatever comes behind: what is returned is what the entries before it give |
| PageFiles.AllRead | apps/pricing/json_writer_util.cpp:177-197 | Nothing else ends it: other files and pages there is room for are all read |
| PageFiles.SkippedIgnored | apps/pricing/json_writer_util.cpp:184-187 | A file that is no page changes nothing in what is returned |
| PageFiles.LastPageWins | apps/pricing/json_writer_util.cpp:194 | Of several entries with one page number the last one counts |
| PageFiles.FilteredInOrder | apps/pricing/json_writer_util.cpp:159-163 | Orders without volume are dropped one by one, all others keep their order |
| PageFiles.ArchiveOrderIrrelevant | apps/pricing/json_writer_util.cpp:177-201 | With distinct page numbers and nothing that ends the reading, any archive order gives the same pages |
| PageFiles.AnyArchiveOrder | apps/pricing/json_writer_util.cpp:177-201 | With distinct page numbers, all archive orders give the same pages if and only if nothing ends the reading or no page that can be read has an order with volume |
| ViewDiff.Lossless | apps/pricing/main.cpp:165-216 | For any two views, OLD and UNCHANGED entries in emission order are the old view, NEW and UNCHANGED entries give ids, prices and volumes of the new one |
| ViewDiff.Conserves | apps/pricing/main.cpp:168-215 | New total = old total - sold + new sum + 2^32 per matched order whose volume grew; so the books balance if and only if none grew |
| ViewDiff.SortedBalances | apps/pricing/main.cpp:168-215 | For views sorted by id the books balance if and only if no order that is in both views has grown |
| ViewDiff.OneOrderBalances | apps/pricing/main.cpp:168-215 | On two views of one order the books balance exactly if its volume did not grow; from volume 1 to 2 counts as 4294967295 sold |
| ViewDiff.RunConserves | apps/pricing/main.cpp:54-59 | Over any run of views the logged sold and new volumes account for the whole change of the total, up to the same wrap-around |
| ViewDiff.WalkSides | apps/pricing/main.cpp:165-216 | The two iterators pass every order of both views exactly once, in order |
| ViewDiff.WalkOfSorted | apps/pricing/main.cpp:166-203 | For views sorted by id, orders are matched exactly if their ids agree; cleared ones are gone and new ones were not there |
| TritaniumAnalysis.TritaniumBuyAnalysis.StepAndUpdate | apps/pricing/main.cpp:54-59 | Compares with the last view unless there is none, or the new one is less than 1680 or more than 1920 seconds later, and remembers the view |
| PrintedDiff.StableSorted | apps/pricing/main.cpp:228-235 | The printed entries ascend by price, none is added or lost, and those with one price stand in the order of their emission |
| PrintedDiff.StableSortUnique | apps/pricing/main.cpp:228-235 | That determines what is printed |
| PrintedDiff.PrintedLossless | apps/pricing/main.cpp:165-235 | Up to the order, the old view can be read off the printed entries, and ids, prices and volumes of the new one |
| PrintedDiff.NewsCounted | apps/pricing/main.cpp:195-216 | The lines for new orders are as many as the count and their volumes add up to the sum that are logged |
| PrintedDiff.LowestAndHighest | apps/pricing/main.cpp:156-161 | The two logged prices are those of orders of the last view, and none of its orders has a lower or a higher one |
| DiffMeaning.NotesAreTrue | apps/pricing/main.cpp:165-216 | For sorted views an entry with a note is printed if and only if it is true: an old and a new order have its id and their prices and volumes compare as the note says, or the id is only in the view the note says |
| DiffMeaning.ChangesExactly | apps/pricing/main.cpp:165-216 | For sorted views there is a change for each id of either view, and no other |
| DiffMeaning.EmittedInOrder | apps/pricing/main.cpp:165-216 | For sorted views the entries ascend by id; of two with one id the old order comes first |
| DiffMeaning.PrintedOldFirst | apps/pricing/main.cpp:228-235 | If only the volume of an order changed, its old state is printed before the new one |
| DiffMeaning.ListsAreRight | apps/pricing/main.cpp:169-246 | The logged price changes are old price, new price and old range of the common ids in the order of the ids; the logged new orders are those whose id the last view does not have |
| TritaniumAnalysis.TritaniumBuyAnalysis.LineMeans | apps/pricing/main.cpp:156-246 | The reference price is the highest of the last view for buy orders and the lowest for sell orders, both are attained, and a line accounts for the new total |
| TritaniumAnalysis.TritaniumBuyAnalysis.Step | apps/pricing/main.cpp:114-246 | Prints the entries of the walk in their stable order by price and appends one line with total, sold, new volume and new count, lowest and highest price, and the price changes and new orders behind the reference price |
| TritaniumAnalysis.TritaniumBuyAnalysis.Compare | apps/pricing/main.cpp:165-216 | The three loops compute entries, price changes, new orders, sold volume, new sum and new count of the walk |
| TritaniumAnalysis.TritaniumBuyAnalysis.MinMax | apps/pricing/main.cpp:156-161 | Finds the lowest and the highest price of the last view |
| HistoryProperties.StampRunsLast | apps/history_reader.cpp:144-156 | In every reachable state, when the database worker runs the timestamp query of a type, a row query for each well-formed item has run or reported its error, and no other query of that type was or will be posted |
| HistoryProperties.SemaphoresCount | apps/history_reader.cpp:112-157 | In every reachable state the main count equals the number of finalised requests and is at most the total; without SIGINT the wait is passed only when all are finalised; the count of a request never overshoots what its waits test for equality |
| HistoryProperties.ReleasesOnce | apps/history_reader.cpp:171-181 | In every run a request releases the main semaphore at most once: exactly once if it ends finished |
| HistoryProperties.DoneMeansStored | apps/history_reader.cpp:144-157 | A finished request whose reply arrived has had all its row queries and its timestamp query run; a failed one posted none |
| HistoryProperties.TeardownIsClean | apps/history_reader.cpp:128-131 | After interrupt and joins every request is untouched or complete, no query is pending, and no destructor blocks |
| HistoryProperties.TeardownIsOrderly | apps/history_reader.cpp:128-131 | In every reachable state workers are stopped one after the other, and a destroyed request with row queries has acquired all its semaphore was released |
| HistoryProperties.InterruptEndsWait | apps/history_reader.cpp:102-127 | SIGINT ends the wait of the main thread whatever the requests are at, and the first worker is stopped next |
| HistoryProperties.SpreadsRoundRobin | libs/HTTPSRequestHandler/HTTPSRequestHandler.cpp:195-200 | The r-th request goes to worker r modulo the number of workers |
| HistoryProperties.HandledInOrder | libs/HTTPSRequestHandler/HTTPSRequestHandler.cpp:158-172 | A worker handles its requests one after the other, in the order in which they were posted: when it takes one, all before it are finished |
| HistorySafety.StepKeeps | libs/Semaphore/Semaphore.cpp:21-45 | Every step of every thread, releases, acquires and waits included, keeps the protocol invariant |
| HistorySafety.RunKeeps | apps/history_reader.cpp:102-181 | Every state of every run, under every interleaving, satisfies the invariant |
| HistorySafety.InitialInv | libs/HTTPSRequestHandler/HTTPSRequestHandler.cpp:195-197 | The start satisfies the invariant; only a group without handlers makes posting throw |
| HistorySafety.PostRequestKeeps | libs/HTTPSRequestHandler/HTTPSRequestHandler.cpp:195-200 | Posting a request to the next worker keeps the invariant: it waits in exactly one queue |
| HistorySafety.TakeKeeps | libs/HTTPSRequestHandler/HTTPSRequestHandler.cpp:158-172 | A worker taking its first queued request keeps it: the worker is busy with exactly that one |
| HistorySafety.PostRowKeeps | apps/history_reader.cpp:145-152 | Building and posting a row query keeps it: no query is posted twice, rows are numbered by the query vector |
| HistorySafety.PassRowsKeeps | apps/history_reader.cpp:153-155 | Passing the first wait and posting the timestamp query keeps it: the timestamp comes behind all rows of its request |
| HistorySafety.FinishJobKeeps | libs/QueryRunner/QueryRunner.cpp:72-80 | A query that has run or failed keeps it: counts rise in step with the finished queries, in the order they were posted |
| HistorySafety.FinalizeKeeps | apps/history_reader.cpp:118-121 | Releasing the main semaphore keeps it: the count stays the number of finished requests |
| HistorySafety.DestroyKeeps | apps/history_reader.cpp:128-131 | Destroying a request keeps it |
| HistoryProgress.NeverStuck | apps/history_reader.cpp:102-157 | No reachable unfinished state is stuck, even if SIGINT neither arrives nor wakes anybody |
| HistoryProgress.DatabaseGoesOn | libs/QueryRunner/QueryRunner.cpp:72-80 | While queries are pending the database worker can go on, before and during teardown |
| HistoryProgress.StepDrops | apps/history_reader.cpp:102-181 | A natural-number measure drops at every step of every thread |
| HistoryProgress.RunsAreShort | apps/history_reader.cpp:102-181 | No run is longer than the measure of its first state |
| HistoryProgress.RunsEndWell | apps/history_reader.cpp:102-157 | Every run is bounded, and where it cannot go on the program has ended with each request untouched or complete and all queries run; without SIGINT all are complete and counted |
| HaulMeaning.SystemMeansTrade | emdr_db/main2.cpp:761-827 | For every vector, A x <= b holds if and only if each order variable lies in [0, quantity], each item is sold at most as much as bought, bought volume is at most 3900 and spending at most 75 million; c x is sales minus purchases |
| HaulMeaning.OnlyUsedMatters | emdr_db/main2.cpp:754-758 | The unused half of the columns influences neither feasibility nor objective |
| HaulMeaning.EveryHaul | emdr_db/main2.cpp:780-826 | Every choice of quantities is what some vector stands for |
| HaulProblem.VariablesOf | emdr_db/main2.cpp:780-826 | Which variables are the quantities of an item: first one for each sell order, then one for each buy order |
| HaulMeaning.TypeRow | emdr_db/main2.cpp:800-821 | The row of an item computes sold minus bought |
| HaulMeaning.CapacityRow | emdr_db/main2.cpp:768-801 | The capacity row computes the bought volume over all items |
| HaulMeaning.WealthRow | emdr_db/main2.cpp:770-802 | The wealth row computes the spending over all items |
| HaulMeaning.CostRow | emdr_db/main2.cpp:803-822 | The objective computes income minus spending |
| HaulMeaning.BoundRows | emdr_db/main2.cpp:790-798 | The two bound rows of a variable compute it and its negation |
| HaulEncoder.Encode | emdr_db/main2.cpp:753-827 | There is a column for every variable if and only if there are fewer than 2^32 columns; then all writes are in range, and the filled arrays satisfy for every vector: A x <= b if and only if the haul is feasible, c x is its profit |
| HaulEncoder.Count | emdr_db/main2.cpp:753-759 | The running counts end at the number of rows and at the number of columns modulo 2^32 |
| HaulEncoder.ColumnsSuffice | emdr_db/main2.cpp:753-759 | The columns counted in 32 bits have room for every variable if and only if the true number of columns is below 2^32 |
| HaulEncoder.FillItem | emdr_db/main2.cpp:782-826 | The loops over the orders of an item fill exactly its columns and bounds |
| HaulEncoder.BuyFrom | emdr_db/main2.cpp:789-804 | One sell order fills its column in six rows and two bounds |
| HaulEncoder.SellTo | emdr_db/main2.cpp:810-823 | One buy order fills its column and two bounds |
| FlowExplorer.Explorer.Explore | objdump_to_cfg.py:97-100 | Terminates whenever the reachable states are finite; raises if and only if some reachable state has a bad block: an unknown address, no operand in its first instruction, or a first jump or call that needs an instruction behind it or a symbol column that is not there; otherwise the visited states are exactly the reachable ones with an address other than 0 and -1, visited depth first; CFG is exactly their edge projection without duplicates, in the order of first visits; and the indirects are those of the visited states |
| FlowEdges.CondJumpLeads | objdump_to_cfg.py:189-210 | A conditional jump leads, behind the stack protector, only to the next instruction; if it is indirect, nowhere; else to the next instruction and to its target |
| FlowEdges.JumpLeads | objdump_to_cfg.py:213-232 | An unconditional jump leads, behind the stack protector, only to the next instruction; if it is indirect, nowhere; else only to its target |
| FlowEdges.CallLeads | objdump_to_cfg.py:235-269 | A call leads nowhere if a function begins before the path ends; an indirect one or one into the PLT to the next instruction from an unknown source; any other to its target, with the next instruction put on the stack |
| FlowEdges.RetLeads | objdump_to_cfg.py:271-276 | A return leads to the address on top of the stack and takes it off |
| FlowEdges.EndLeads | objdump_to_cfg.py:163-276 | A block that runs to the end of the program leads nowhere |
| FlowEdges.RootAndUnknownStop | objdump_to_cfg.py:147-150 | Addresses 0 and -1 are not processed and lead nowhere |
| FlowEdges.ReturnsExactly | objdump_to_cfg.py:241-256 | A call is taken for one that never returns if and only if a function begins before any unconditional jump or return without repz |
| FlowEdges.BothSidesReached | objdump_to_cfg.py:206-211 | The smallest program with a branch: both sides are reached and drawn |
| FlowOrder.TakenInOrder | objdump_to_cfg.py:98-100 | Taking states off the end of the worklist visits them depth first: each is the last successor not yet settled of the state visited last that has one |
| FlowInvariant.IndirectsAppend | objdump_to_cfg.py:135-136 | The indirects of a visited state are appended to those met before |
| FlowExplorer.Explorer.IterateBB | objdump_to_cfg.py:138-276 | One block: if it stops or was visited, nothing changes; otherwise it is visited, its edge is drawn, and it raises if its scan does, or exactly the successors and indirects of its scan are appended |
| FlowExplorer.Explorer.ScanBlock | objdump_to_cfg.py:163-276 | The scan finds the successors and indirects of the block, stack-protector skip, lookahead and the missing symbol column of a call included |
| FlowExplorer.Explorer.LookAhead | objdump_to_cfg.py:241-256 | Finds whether a function begins before a path ends |
| FlowExplorer.GetIndex | objdump_to_cfg.py:113-129 | The binary search finds the instruction with the address, or that there is none |
| FlowInvariant.EmptyWorklist | objdump_to_cfg.py:98-100 | With an empty worklist, visited means reachable and not stopping |
| FlowInvariant.FinalGraph | objdump_to_cfg.py:152-156 | CFG has an edge if and only if some reachable state that does not stop has it |
| FlowInvariant.EdgeAdded | objdump_to_cfg.py:152-156 | Adding an edge draws it once and no other |
| FlowInvariant.RecursionIsInfinite | objdump_to_cfg.py:258-269 | For a recursive function no finite set holds all reachable states, so finiteness must be asked for |
| FlowStates.NoUnderflow | objdump_to_cfg.py:271-276 | In every reachable state that does not stop, the call stack has the 0 at its bottom, so a return never finds it empty |
| FlowStates.RaisesExactly | objdump_to_cfg.py:163-276 | Processing a reachable state raises if and only if its block is bad, whatever its call stack |
| FlowStates.CompleteNeverRaises | objdump_to_cfg.py:163-276 | If every instruction that ends a scan leads to good blocks only, and the root is good, no reachable state raises |
| FlowStates.BareReturnRaises | objdump_to_cfg.py:181-183 | A function that only returns makes the trace output raise: no operand was read before it |
| FlowStates.CallWithoutSymbolRaises | objdump_to_cfg.py:258-261 | A direct call without a symbol column, if its function returns, raises |
| BlueprintProperties.AcceptedExactly | libs/industry_resources/types/types.cpp:85-119 | For any blueprints `checkItem` accepts a type id if and only if, as a blueprint, it is at most one of T2, T3 and inventing relic, and the last blueprint that makes it is the relic or non-relic it has to be |
| BlueprintProperties.CleanAccepted | libs/industry_resources/types/types.cpp:85-119 | If nothing made is a blueprint, inventing relics make nothing and are not invented, and nothing is invented both by a relic and by another blueprint, `checkItem` accepts every type id |
| BlueprintProperties.MapsAreInverse | libs/industry_resources/types/types.cpp:198-202 | For any blueprints, bpToProduct and productToBP are inverses if and only if a blueprint is the last one with its id exactly when it is the last one with its product |
| BlueprintProperties.DistinctIsInverse | libs/industry_resources/types/types.cpp:198-202 | Distinct ids and one blueprint per product suffice, whatever is invented |
| BlueprintProperties.AllSourced | libs/industry_resources/types/types.cpp:193-238 | For any blueprints: the sets hold exactly the ids, inventors and inventions; in the product maps and in t2BPToT1BP and t3BPToRelic the last blueprint registered wins; and the multimaps hold a pair (inventor, invention) once for each place that names it |
| BlueprintRegistry.RelicTable | libs/industry_resources/types/types.cpp:256-259 | The six groups whose blueprints are ancient relics |
| BlueprintProperties.OrderIrrelevant | libs/industry_resources/types/types.cpp:193-238 | All orders of registration give the same sets, maps and multimaps if and only if any two blueprints agree: one id has one product, one product one blueprint, and two of the same kind with different ids invent different types |
| BlueprintProperties.RelicsDisagree | libs/industry_resources/types/types.cpp:222-231 | Two relics that invent the same type: the order decides which one is its origin, although ids are distinct and `checkItem` accepts everything |
| BlueprintRegistry.CheckExactly | libs/industry_resources/types/types.cpp:85-104 | `checkItem` accepts a type id if and only if an explicit condition on its own and its maker's special roles holds; base items always pass |
| BlueprintRegistry.RegisterAllKeeps | libs/industry_resources/types/types.cpp:193-238 | After any registrations manufacturingOutputs is the domain of productToBP, whose values are registered blueprints |
| BlueprintTypes.Types.RegisterBlueprint | libs/industry_resources/types/types.cpp:193-238 | Updates the sets, maps and multimaps as specified and keeps the invariant |
| BlueprintTypes.Types.CheckItem | libs/industry_resources/types/types.cpp:85-119 | Computes exactly that condition |
| BlueprintTypes.Types.RegisterT2 | libs/industry_resources/types/types.cpp:207-221 | The loop over the invention products updates exactly the T2 line |
| BlueprintTypes.Types.RegisterT3 | libs/industry_resources/types/types.cpp:222-237 | The loop over the invention products updates exactly the T3 line |

## Left out

* `JsonWriter::check` and `OrderReader::finalize`, which check the layout of an older format. With them go the `deleted` and `inserted` vectors and the commented-out `extract`.
- JsonWriter.JsonWriter.Extract2: leaves out the calls of `check`, which always throw, and numbers slots by position, not by size after the push, because the mirror array would be left otherwise; the log for the other numbering is covered by BookCheck.ReplayMatchesBook, which holds for every base, and the runs that stay in the array by SlotNumbers.RunInRangeExactly.
- JsonWriter.JsonWriter.TakeSlot: hands out the position pushed, where the source returns size after the push, for the same reason.
- JsonWriter.JsonWriter.Compare: reports the mismatch instead of throwing; the messages on standard error are not modelled.
* `BookCheck.SortById`, `PageMerge.LowerBound` and `PageMerge.UpperBound` stand for the library algorithms; their results are determined by their contracts.
* The range-for over `OrderReader`: `operator!=` is a marked hack that ends before the last view; replay is stated for `step`.
* Page numbers of 2^63 and above, for which the signed comparison in `readOrders` makes no room.
* Memory mapping, file resizing, archives and JSON parsing: a byte array, a list of entries, already parsed members.
* Reading a slot outside the reader's array is undefined in C++; the model gives no result there.
* The price is a 64-bit word compared for equality, so NaN and the two zeros are not treated specially; in `ViewDiff` a valuation of words orders them.
* `TritaniumBuyAnalysis`: the filter and sort in front of `stepAndUpdate`, and the formatting of what it prints. Its differences of view times and the sums are unbounded integers.
* The history protocol is a state machine rather than classes, since its objects are shared by threads; `Semaphore`, `DatabaseConnection` and the handler group appear as its counts and queues. Building a query and posting it are one step.
* HTTP, redirects, cookies, TLS, SQLite and asio: a request fails or replies, a query succeeds or reports an error. `handleResponse` is assumed not to throw once it has posted queries.
* `maxIskHaul::helper`: the search for common and profitable items in front, the optimizer and the printing behind; hash map order is the order of the given sequences; coefficients are reals.
* `objdump_to_cfg.py`: parsing the disassembly, the search for the root symbol and the output. Instructions come decoded and sorted by address.
* `Types`: reading YAML, an exception from a blueprint without its own type id, and the query functions that call `checkItem` first.
* `Planner`, job generation, skills, settings, names, assets, SSO, web pages and plotting: wrappers or table lookups.
