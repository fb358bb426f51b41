# Models of libinktomi++ and libev

A Dafny model of the algorithmic core of two libraries that Traffic Server is built on, with proofs.

* **Regular expressions** (`RegexTree`, `Glushkov`, `PositionAutomaton`, `NodeLists`, `SubsetConstruction`,
  `PatternVerdict`, `TransitionTables`, `RegexDfa`, `Repetition`, `Bitops`): the compiler from expression trees over
  nullable, first, last and follow sets and a subset construction to compressed tables, and the three matchers. The
  tables decide the language of the tree.
* **The event loop** (`FourHeap`, `TimerHeap`, `TimerExpiry`, `PendingHistory`, `ArraySize`, `EventLoop`): the 4-ary
  timer heap with back-pointers, timer expiry, and the pending stacks against a history of feeds, clears and
  invocations.
* **File descriptors** (`FdInterest`, `PollTable`, `SelectTable`, `FdReify`): the queue of fd changes, and the
  interest tables of the poll and select backends against the active watchers.
* **Wake-ups** (`WakeUp`): senders, signal handlers and the loop as a state machine of single steps.
* **Host lookup** (`KeyOrder`, `CharIndex`, `HostNames`, `HostTable`, `HostLookup`, `HostMatch`, `HostSearch`): the
  label tree with its character trie, arrays and hash tables against a linear scan of the rules.
* **MMH** (`MmhWords`, `MmhMix`, `Mmh`): the running hash against its definition on the whole message.
* **Lists** (`StableOrder`, `LinkedQueue`): the intrusive queue and its in-place sort.
* **Arena** (`Alignment`, `Arena`, `ArenaStrings`): the block allocator and the length headers of its strings.
* `Options`, `Sequences` and `Powers` hold what several of these share.

Objects whose fields the program updates are classes, and their methods are proved against functions on values. What
comes from outside is a parameter: the time, the addresses of new blocks, the memory that is hashed, the random table
of MMH, and whether a backend finds an fd unusable. Time is `real`, integers are unbounded except where the width is
written out.

Four promises do not hold as stated, and each has its exact condition below: `{0,e}` does not match the empty text
unless the item is nullable (`Repetition.RepeatBetween`), an async watcher that is started with a stale mark can stay
asleep unless the mark will be looked at again (`WakeUp.StartIff`), a new arena block need not have room at an alignment
above 256 (`Arena.AlignmentIff`), and a pushed element needs a null `prev` (`LinkedQueue.Queue.Push`). In the children
search of the timer heap the test for a fourth child on the short path can never succeed and has no counterpart here.

`dafny verify dfyconfig.toml` checks all files.

## Model

| member | source | states |
|---|---|---|
| `RegexDfa.Dfa.Match` | libinktomi++/Regex.cc:1879-1904 | On the compiled tables a NUL-terminated text gets the accept number of the first pattern whose language holds it, and -1 exactly when no pattern does |
| `RegexDfa.Dfa.Compile` | libinktomi++/Regex.cc:1703-1753 | From the tree of all patterns to tables that implement it: the automaton is correct, the tables encode it, and it has at most 2 to the number of positions states |
| `RegexDfa.Dfa.MatchCounted` | libinktomi++/Regex.cc:1906-1935 | On a counted text: -2 only if no extension of the text can match any pattern (if and only if, when every class holds a byte), otherwise the verdict on the text |
| `RegexDfa.Dfa.Resume` | libinktomi++/Regex.cc:1937-1971 | The resumable matcher reports the result and the length given by a scan of the text seen so far for its shortest accepted prefix, and leaves the state of what it consumed |
| `RegexDfa.Dfa.ResumeChunks` | libinktomi++/Regex.cc:1937-1971 | Called chunk after chunk until it decides, the resumable matcher reports the result and the length and leaves the state of one call on all chunks joined, however the text is cut |
| `RegexDfa.Dfa.ResumedIsUnique` | libinktomi++/Regex.cc:1937-1971 | What is reported and which state is left is determined by the text before and the text given, so two ways to the same text cannot differ |
| `RegexDfa.Dfa.OneState` | libinktomi++/Regex.cc:1405-1495 | A text leads to one state only |
| `RegexDfa.ChunksCompose` | libinktomi++/Regex.cc:1937-1971 | Scanning two chunks one after the other gives the result and the consumption of scanning their concatenation |
| `RegexDfa.ScanIsShortest` | libinktomi++/Regex.cc:1937-1971 | What the scan reports is the shortest prefix that any pattern accepts, with the verdict on that prefix; -1 and -2 mean that no prefix is accepted, and -2 that no extension of the text can be |
| `RegexDfa.Dfa.LookupAt` | libinktomi++/Regex.cc:1895-1901 | At every reachable state and for every byte the lookup stays inside the tables, and `check` holds exactly when the automaton goes on, `next` then being the successor |
| `RegexDfa.Dfa.AcceptAt` | libinktomi++/Regex.cc:1903-1903 | The accept entry of a reachable state is the verdict on the text read so far |
| `RegexDfa.Dfa.Build` | libinktomi++/Regex.cc:1587-1689 | All states are encoded in the four tables, none damaging another |
| `RegexDfa.PlaceAll` | libinktomi++/Regex.cc:1634-1684 | Placing the states one after the other keeps every row placed before |
| `RegexDfa.AutomatonStep` | libinktomi++/Regex.cc:1405-1495 | A state of the automaton has an edge for a byte exactly when some position of it reads that byte, and the edge leads to the state of the positions that follow |
| `RegexDfa.DeadMeaning` | libinktomi++/Regex.cc:1918-1925 | A dead end means that no extension of the text matches; the converse holds when every class holds a byte |
| `Glushkov.NullableMatchesEmpty` | libinktomi++/Regex.cc:999-1022 | A tree is nullable if and only if its language holds the empty text |
| `Glushkov.Complete` | libinktomi++/Regex.cc:951-1138 | Every non-empty text of the language is spelled by a path of positions from the first set along the follow sets to the last set |
| `Glushkov.Sound` | libinktomi++/Regex.cc:951-1138 | Every such path spells a text of the language |
| `PositionAutomaton.ProgramReach` | libinktomi++/Regex.cc:1405-1495 | The end position of a pattern is reached by a text if and only if the text is in the language of that pattern |
| `NodeLists.FollowTable.Compute` | libinktomi++/Regex.cc:951-997 | Each follow list grows by exactly the follow set of the tree, whatever was there before |
| `NodeLists.FirstLastLists` | libinktomi++/Regex.cc:1024-1138 | The sorted lists computed for a tree hold exactly its first and its last set |
| `NodeLists.UnionNodes` | libinktomi++/Regex.cc:1140-1179 | The merge of two sorted lists in which an id names one position is the sorted list of the union |
| `NodeLists.MergeIsUnion` | libinktomi++/Regex.cc:1140-1179 | Merging sorted lists over one set of positions is union of the sets they stand for |
| `NodeLists.EqualNodes` | libinktomi++/Regex.cc:1181-1196 | Two lists compare equal if and only if they hold the same positions |
| `NodeLists.ListsAreCanonical` | libinktomi++/Regex.cc:1181-1196 | A set of positions has one sorted list |
| `SubsetConstruction.Construct` | libinktomi++/Regex.cc:1405-1495 | The construction ends with at most 2 to the number of positions states, pairwise different as sets, each with exactly one edge for each byte it can read |
| `SubsetConstruction.Successor` | libinktomi++/Regex.cc:1446-1455 | For a state and a byte it yields the state of all positions that follow a position reading the byte, independent of which position asked |
| `SubsetConstruction.AdvanceState` | libinktomi++/Regex.cc:1438-1490 | Processing a state gives it its edges and keeps those of the states before it |
| `SubsetConstruction.FindState` | libinktomi++/Regex.cc:1457-1463 | A state with the same positions is found if there is one |
| `SubsetConstruction.NewState` | libinktomi++/Regex.cc:1497-1531 | A new state has an empty class and no edges, and for a sorted list the accept number of its end position with the least id, -1 if it has no end position |
| `SubsetConstruction.DistinctSubsets` | libinktomi++/Regex.cc:1405-1495 | A family of different sets of positions has at most 2 to the number of positions members |
| `PatternVerdict.AcceptIsVerdict` | libinktomi++/Regex.cc:1519-1524 | The accept number of the positions reached by a text is that of the first pattern that holds the text |
| `PatternVerdict.EarliestMarker` | libinktomi++/Regex.cc:1519-1524 | Of several end positions in a list that of the earliest pattern gives the accept number |
| `PatternVerdict.DeadIsFinal` | libinktomi++/Regex.cc:1918-1925 | When no position is reached no extension of the text matches any pattern |
| `PatternVerdict.LiveIsViable` | libinktomi++/Regex.cc:1918-1925 | When every class holds a byte, some position is reached if and only if some extension of the text matches |
| `TransitionTables.FindBase` | libinktomi++/Regex.cc:1638-1655 | The search ends at the least offset at which the row of a class finds every slot free |
| `TransitionTables.FillRow` | libinktomi++/Regex.cc:1661-1683 | A row is written so that `check` and `next` encode the state, and nothing else changes |
| `TransitionTables.SortByCount` | libinktomi++/Regex.cc:1608-1622 | The states are permuted, each with its count, so that the counts do not increase |
| `Bitops.NextSet` | libinktomi++/Bitops.h:122-160 | The next set bit after an offset, -1 if there is none |
| `Bitops.Count` | libinktomi++/Bitops.h:204-217 | The number of set bits of a byte string |
| `SubsetConstruction.UnionClass` | libinktomi++/Bitops.h:219-231 | A byte is in the union of two classes exactly when it is in one of them |
| `Repetition.DupMeaning` | libinktomi++/Regex.cc:912-949 | A copy of a tree has the same language |
| `Repetition.DupUnshared` | libinktomi++/Regex.cc:912-949 | A copy shares no position with what was there before |
| `Repetition.Plus` | libinktomi++/Regex.cc:428-432 | `+` stands for one or more |
| `Repetition.RepeatFrom` | libinktomi++/Regex.cc:505-510 | `{s,}` stands for `s` or more, for every `s` |
| `Repetition.RepeatBetween` | libinktomi++/Regex.cc:511-528 | `{s,e}` is built as the languages of max(s, 1) to e repetitions, and nothing at all when e is 0 or less than s; that is `s` to `e` repetitions if and only if `s` is positive or the item is nullable |
| `Repetition.RepeatBetweenExact` | libinktomi++/Regex.cc:511-528 | For any language: repeating from max(s, 1) is repeating from `s` if and only if `s` is positive or the language holds the empty text |
| `Repetition.ZeroTimesLost` | libinktomi++/Regex.cc:511-528 | For every item that is not nullable the tree built for `{0,e}` does not match the empty text, which zero repetitions would |
| `Repetition.OptionalClass` | libinktomi++/Regex.cc:511-528 | So for a character class with `{0,1}` |
| `FourHeap.SiftUpOrders` | libev/ev.c:1121-1139 | Moving an entry up repairs a 4-heap that is broken only above it |
| `FourHeap.SiftDownOrders` | libev/ev.c:1041-1081 | Moving an entry down repairs a 4-heap that is broken only below it |
| `FourHeap.AdjustOrders` | libev/ev.c:1143-1149 | After a key was replaced, one move up or down restores the heap, with the same entries |
| `FourHeap.RebuildOrders` | libev/ev.c:1153-1161 | From any array the rebuilding makes a heap of the same entries |
| `FourHeap.RootIsLeast` | libev/ev.c:1813-1826 | No entry of a 4-heap is smaller than the first |
| `TimerHeap.UpHeap` | libev/ev.c:1121-1139 | The array ends as the upward move on its contents, every watcher knowing its slot |
| `TimerHeap.FindMinChild` | libev/ev.c:1048-1068 | Of up to four children the first least one is found, on the unrolled and on the short path |
| `TimerHeap.DownHeap` | libev/ev.c:1041-1081 | The array ends as the downward move on its contents, every watcher knowing its slot |
| `TimerHeap.AdjustHeap` | libev/ev.c:1143-1149 | The array ends as the adjustment of its contents, every watcher knowing its slot |
| `TimerHeap.ReHeap` | libev/ev.c:1153-1161 | From arbitrary contents to a heap of the same entries with every watcher knowing its slot |
| `ArraySize.NextSize` | libev/ev.c:758-781 | The new size is larger than the old one and large enough, rounding included |
| `EventLoop.Loop.TimerStart` | libev/ev.c:2541-2562 | What `verify_heap` asserts holds again, the timer is in the heap, only an inactive timer has its time moved to absolute and its priority brought into range, and a watcher new to the loop may come with any priority |
| `EventLoop.Loop.PriAdjust` | libev/ev.c:2474-2480 | The priority becomes the nearest one in range |
| `EventLoop.Loop.TimerStop` | libev/ev.c:2565-2593 | What `verify_heap` asserts holds again, the timer is out of the heap and cleared, its time relative again |
| `EventLoop.Loop.TimerAgain` | libev/ev.c:2595-2618 | In all four cases of active and repeating: the heap, the time, the priority, and whether the timer was cleared |
| `EventLoop.Loop.ExpireRoot` | libev/ev.c:2036-2058 | The timer at the root is the earliest; it is moved on by its interval but not into the past, or stopped |
| `EventLoop.Loop.TimersReify` | libev/ev.c:2030-2065 | It ends; exactly the timers that were due expire, each once and in order of time; no remaining timer is due; the others are untouched; of equal priority and not pending before, the earlier is nearer the top; and each is cleared and fed as the history says |
| `TimerExpiry.ReifyResult` | libev/ev.c:2030-2065 | Expiring in order and then feeding in reverse gives that result on the snapshots |
| `TimerExpiry.ExpireAllSpec` | libev/ev.c:2036-2058 | After expiring a list of timers each of them is where one expiry puts it and no other timer has changed |
| `TimerExpiry.AllDueListed` | libev/ev.c:2033-2060 | When the loop stops, every timer that was due is in the list |
| `EventLoop.Loop.FeedReverseDone` | libev/ev.c:844-850 | Feeding a list from its end makes every watcher pending, those queued earlier nearer the top of their stack |
| `EventLoop.Loop.FeedEvent` | libev/ev.c:820-835 | The back-pointers stay exact, and the watcher is owed the events fed since it was last settled, combined |
| `EventLoop.Loop.ClearPending` | libev/ev.c:2455-2471 | The watcher is owed nothing any more, its slot being left to the dummy, and the events it was owed are returned |
| `EventLoop.Loop.InvokeTop` | libev/ev.c:1990-2001 | The top watcher of a stack is invoked with exactly what was due to it, and is owed nothing after that |
| `EventLoop.Loop.Run` | libev/ev.c:820-835 | Any run of feeds, clears and invocations, as callbacks may interleave them, keeps the back-pointers exact and every invocation lawful |
| `EventLoop.Loop.InvokePending` | libev/ev.c:1985-2002 | With callbacks that feed, clear and invoke as they like: every watcher that was pending is invoked or cleared in the round; a watcher that is pending at its end was fed after one of lower priority had been invoked; without callbacks the stacks are delivered highest priority first and from the top down |
| `EventLoop.Loop.InvokeAll` | libev/ev.c:1985-2002 | Without callbacks every pending watcher is invoked, and of two with one priority the one nearer the top first |
| `EventLoop.Loop.ExpireAndInvoke` | libev/ev.c:2030-2065 | `timers_reify` and such a round: every timer that was due is invoked, and of two with one priority, neither pending before, the earlier first |
| `PendingHistory.RoundGoesOn` | libev/ev.c:1985-2002 | An invocation and whatever its callback does keep the state of a round: what had its turn is settled or fed late, what had not is still due or settled |
| `PendingHistory.StaysDue` | libev/ev.c:820-835 | What is due to a watcher stays due until it is invoked or cleared |
| `PendingHistory.DueSince` | libev/ev.c:820-835 | What has become due has been fed |
| `EventLoop.Loop.Adopt` | libev/ev.h:574-580 | A watcher that is in no stack and not in the heap, as after its initialiser, can be handed to the loop without disturbing anything |
| `PendingHistory.InvokedOncePerFeed` | libev/ev.c:820-835 | Between being invoked or cleared and the next invocation a watcher is fed again: nothing is delivered twice and a cleared watcher is not invoked |
| `PendingHistory.DueHasEvent` | libev/ev.c:820-835 | What is due contains every event fed since the watcher was last settled |
| `PendingHistory.DueWasFed` | libev/ev.c:820-835 | What is due contains no other event |
| `PendingHistory.NeverFed` | libev/ev.c:820-835 | A watcher that was never fed is owed nothing |
| `FdReify.FdLoop.Start` | libev/ev.c:2498-2520 | The watcher joins the active ones and its fd the queue of changes; every fd not queued still waits for what its watchers want; the mark of a new file moves from the mask of the watcher to the flag of the fd |
| `FdReify.FdLoop.Stop` | libev/ev.c:2522-2539 | The watcher leaves the active ones, its fd is queued, and the same invariant holds, also for an inactive watcher |
| `FdReify.FdLoop.Kill` | libev/ev.c:954-965 | Every watcher of the fd is stopped and then fed the error events, in the order of the list, and no other |
| `FdReify.FdLoop.Change` | libev/ev.c:939-951 | An fd is queued once, however often it is flagged |
| `FdReify.FdLoop.Modify` | libev/ev.c:930-931 | The backend ends up with the table, or it has killed the fd: then fewer watchers are active |
| `FdReify.FdLoop.Reify` | libev/ev.c:898-935 | It ends although killed fds join the queue it serves; then nothing is queued or flagged and every fd has exactly the combined mask of its active watchers; poll and select kill nothing; and the backend was told of every fd whose mask changed or whose file may be a new one |
| `FdReify.FdLoop.TableMeetsWatchers` | libev/ev.c:898-935 | With nothing queued the table has an event for an fd if and only if an active watcher of that fd has it |
| `FdReify.FdLoop.PollMeetsWatchers` | libev/ev_poll.c:51-86 | With nothing queued poll watches an fd if and only if an active watcher waits for something on it |
| `FdReify.FdLoop.SelectMeetsWatchers` | libev/ev_select.c:103-132 | With nothing queued the bits of select are set if and only if an active watcher waits for that event |
| `FdReify.WlistDel` | libev/ev.c:2430-2443 | The list without its first occurrence of the element, in the same order |
| `FdReify.InterestHas` | libev/ev.c:908-911 | The combined mask has an event if and only if some watcher in the list has it |
| `PollTable.Poll.Modify` | libev/ev_poll.c:51-86 | From tables that represent the masks to tables that represent the changed masks, slots and indexes staying inverse through the swap |
| `PollTable.Poll.DropSlot` | libev/ev_poll.c:76-84 | The fd loses its slot, every other fd keeps its flags |
| `PollTable.TableIsInterest` | libev/ev_poll.c:51-86 | Such tables hold one pollfd for each fd with a mask, none twice, each with the flags of that mask |
| `SelectTable.Select.Modify` | libev/ev_select.c:103-132 | From vectors that represent the masks to vectors that represent the changed masks, growing where needed |
| `SelectTable.Put` | libev/ev_select.c:126-132 | One bit gets the wanted value and no other bit changes |
| `WakeUp.WakeUpsArrive` | libev/ev.c:1225-1290 | In every interleaving of any number of senders, signal handlers, the callback, and starts and stops without an unsafe start: once all is quiet, an item that is marked or owed an event has left the fd readable. A run can lose no wake-up from any of its states if and only if it has no unsafe start |
| `WakeUp.StepKeeps` | libev/ev.c:1225-1290 | A single memory access or system call keeps the invariant (a raised flag will be seen, a marked item will be looked at, an item owed an event is marked or being fed) if and only if it is not an unsafe start |
| `WakeUp.CallbackDelivers` | libev/ev.c:1250-1290 | One undisturbed callback pays every debt to every signal and started watcher |
| `WakeUp.CallbackEnds` | libev/ev.c:1250-1290 | From any point the callback, left alone, ends, having cleared exactly the flags it had yet to test |
| `WakeUp.StartIff` | libev/ev.c:3465-3482 | At any moment, with senders anywhere, starting a watcher leaves all wake-ups safe for good if and only if the watcher is not marked, or the flag is raised, or some sender is about to raise it |
| `WakeUp.UnsafeStartLoses` | libev/ev.c:3465-3482 | After any other start the senders need only finish and the loop go on until nothing is readable for the watcher to be left marked |
| `WakeUp.RestartLoses` | libev/ev.c:3465-3507 | A run of start, send, stop, callback and start again that leaves a started watcher marked with nothing readable |
| `HostSearch.MatchAll` | libinktomi++/HostLookup.cc:1180-1282 | `MatchFirst` and then `MatchNext` until it says no yield each rule that a linear scan accepts exactly once, and no other, for every table and every well-formed host |
| `HostSearch.MatchNext` | libinktomi++/HostLookup.cc:1216-1282 | The rule returned accepts the host and is met for the first time; no accepting rule is skipped; no result means that all have been met |
| `HostSearch.Begin` | libinktomi++/HostLookup.cc:1180-1208 | The state before any rule, at the root with the top-level label |
| `HostSearch.MatchArray` | libinktomi++/HostLookup.cc:1128-1173 | The next leaf in the list that matches, none between being one that does |
| `HostSearch.PreviousLabel` | libinktomi++/HostLookup.cc:1248-1277 | The walk back through the host cuts off exactly the label just used and stands at the one before |
| `HostMatch.LeafIff` | libinktomi++/HostLookup.cc:1133-1168 | On the way of a host down the tree, what is asked of a leaf is whether its rule accepts the host, for all four kinds of leaf |
| `HostMatch.AcceptedOnPath` | libinktomi++/HostLookup.cc:1043-1113 | A rule that accepts a host is filed on the way of that host |
| `HostLookup.Table.NewEntry` | libinktomi++/HostLookup.cc:1306-1329 | One more rule, filed under its last three labels, all other rules where they were |
| `HostLookup.Table.Descend` | libinktomi++/HostLookup.cc:1052-1076 | The walk down the tokens, last first, makes the missing branches and keeps every rule where it is |
| `HostLookup.Table.StepDown` | libinktomi++/HostLookup.cc:1066-1075 | The branch one label down, a new one only if there was none |
| `HostTable.InsertBranch` | libinktomi++/HostLookup.cc:929-987 | The label gets the new branch and every other label keeps its own, in trie, array and hash table, also when a full array becomes a hash table |
| `HostTable.MoveToHash` | libinktomi++/HostLookup.cc:962-982 | The new table holds the new label and all entries of the array |
| `HostTable.HashedFinds` | libinktomi++/HostLookup.cc:962-982 | A lookup in that table finds what the array had |
| `HostTable.FindNextLevel` | libinktomi++/HostLookup.cc:998-1033 | What the container binds the label to, whichever container it is |
| `HostTable.NewLevel` | libinktomi++/HostLookup.cc:897-917 | The first level is a trie, the others arrays; the label is bound to the new branch and no other label is |
| `CharIndex.Index.Insert` | libinktomi++/HostLookup.cc:376-424 | The name is bound and every other lower-case name keeps its binding, legal or not |
| `CharIndex.Index.Lookup` | libinktomi++/HostLookup.cc:434-476 | What the name is bound to, through the trie or the side table |
| `CharIndex.CodesInjective` | libinktomi++/HostLookup.cc:174-207 | Different lower-case legal names have different ways through the trie |
| `CharIndex.Index.IterNext` | libinktomi++/HostLookup.cc:503-570 | The iterator moves to the next bound key in preorder, or says that there is none |
| `CharIndex.Index.Walk` | libinktomi++/HostLookup.cc:486-570 | A walk with the iterator ends and meets every legal binding exactly once, in preorder |
| `HostNames.HostCmp` | libinktomi++/HostLookup.cc:133-158 | Zero exactly for names that are equal but for case and one dot at the end, otherwise the sign of their order, on all names |
| `HostNames.DomainCmp` | libinktomi++/HostLookup.cc:41-119 | True exactly when the domain ends the host at a dot, with its rules for dots at either end, on all names |
| `HostNames.DomainLabels` | libinktomi++/HostLookup.cc:41-119 | On well-formed names it is true if and only if the labels of the domain end those of the host |
| `HostNames.HostLabels` | libinktomi++/HostLookup.cc:133-158 | On well-formed names it is zero if and only if the labels are the same |
| `HostNames.Tokenize` | libinktomi++/Tokenizer.cc:114-233 | The tokens are the non-empty pieces between dots, for any string |
| `Mmh.OneShot` | libinktomi++/MMH.cc:206-213 | The hash of a message depends on its bytes only, wherever it lies in memory |
| `Mmh.InPieces` | libinktomi++/MMH.cc:206-401 | Fed in any pieces from any addresses, the result is the hash of the whole message |
| `Mmh.Ctx.Update` | libinktomi++/MMH.cc:323-401 | After any bytes at any address the context holds the message so far with those bytes appended |
| `Mmh.Ctx.Final` | libinktomi++/MMH.cc:421-462 | The result is the hash of the message: padded, its length appended, lane by lane an inner product with the table |
| `Mmh.Ctx.Fetch` | libinktomi++/MMH.cc:216-320 | The seven loops load the same four words, in either byte order |
| `MmhWords.CombineIsLoad` | libinktomi++/MMH.cc:227-320 | Two shifted loads give the word at an unaligned address, whatever the bytes beside it |
| `Mmh.LaneFour` | libinktomi++/MMH.cc:216-224 | Adding one product to each running lane is adding them to the inner product, modulo 2 to the 64 |
| `MmhMix.ScrambleIsBijective` | libinktomi++/MMH.cc:441-460 | The scrambling is undone by an explicit inverse, on both sides |
| `MmhMix.ScrambleInjective` | libinktomi++/MMH.cc:441-460 | Different residues give different results |
| `LinkedQueue.Queue.Sort` | libinktomi++/List.h:555-595 | It ends with the list sorted, elements of equal key in their old order, all links and both ends consistent |
| `LinkedQueue.Queue.Pass` | libinktomi++/List.h:568-593 | A pass either finds the list sorted or takes away inversions, keeping the order of equal keys |
| `LinkedQueue.Queue.Exchange` | libinktomi++/List.h:574-588 | The pointer surgery exchanges two neighbours and leaves a consistent list |
| `LinkedQueue.Queue.Push` | libinktomi++/List.h:196-205 | The element comes first; links and both ends are consistent if and only if its `prev` was null, which is not written |
| `LinkedQueue.Queue.Pop` | libinktomi++/List.h:246-263 | The first element leaves, unlinked, or there was none |
| `LinkedQueue.Queue.Remove` | libinktomi++/List.h:406-414 | The element leaves from wherever it stands, unlinked |
| `LinkedQueue.Queue.InsertAfter` | libinktomi++/List.h:386-397 | The element stands just after the given one |
| `LinkedQueue.Queue.Enqueue` | libinktomi++/List.h:502-511 | The element comes last; consistent if and only if the queue was not empty or its `prev` was null |
| `LinkedQueue.Queue.Append` | libinktomi++/List.h:472-486 | The other list follows, empty or not on either side |
| `StableOrder.SwapLowers` | libinktomi++/List.h:574-588 | Exchanging neighbours in the wrong order takes away exactly one inversion |
| `StableOrder.StableSortIsUnique` | libinktomi++/List.h:555-595 | There is only one sorted list with the same elements in which equal keys keep their order |
| `StableOrder.StablePermutes` | libinktomi++/List.h:555-595 | Keeping the order of equal keys makes it a permutation |
| `Arena.Heap.Alloc` | libinktomi++/Arena.cc:96-124 | The memory handed out is aligned and shares no byte with any other live memory; it fails if and only if no block and not even the new one has room at the alignment, never with one up to 256, and a failure leaves the new block |
| `Arena.Heap.Free` | libinktomi++/Arena.cc:130-144 | Giving back live memory leaves all other live memory covered, only the oldest block ever being touched |
| `Arena.BlockAlloc` | libinktomi++/Arena.cc:78-93 | The first aligned address above the water level if the size fits there, otherwise nothing |
| `Arena.NewBlockSuffices` | libinktomi++/Arena.cc:112-123 | A new block has room for the size it was made for at every alignment up to 256 and every address |
| `Arena.LargerAlignmentFails` | libinktomi++/Arena.cc:112-123 | For every larger power of two there is a size and a 16-byte aligned address for which it has not |
| `Arena.AlignmentIff` | libinktomi++/Arena.cc:112-123 | A new block has room for every size at every such address if and only if the alignment is at most 256 |
| `Arena.Given` | libinktomi++/Arena.cc:130-144 | Lowering the oldest level to the start of the memory that ends there uncovers no other live memory |
| `Alignment.PaddingAligns` | libinktomi++/Arena.cc:82-85 | The masks move an address to the next multiple of the power of two, by less than it |
| `Alignment.MaskIsLow` | libinktomi++/Arena.cc:83-84 | Masking with a power of two less one leaves the low bits |
| `ArenaStrings.DecodeEncode` | libinktomi++/Arena.h:73-138 | Decoding the length header gives back the length, for every length |
| `ArenaStrings.Strings.StrAlloc` | libinktomi++/Arena.h:111-138 | One more string, with memory for header, text and terminator; the headers of all strings handed out stay intact, and no byte outside the new header changes |
| `ArenaStrings.Strings.StrStore` | libinktomi++/Arena.h:171-180 | The text and its terminator stand behind the new header, and every other string is as it was |
| `ArenaStrings.Strings.Length` | libinktomi++/Arena.h:73-91 | For every string handed out, at any later time, the length it was allocated with |
| `ArenaStrings.Strings.StrFree` | libinktomi++/Arena.h:144-165 | Exactly the address and the size that were allocated are given back, and every other string is as it was |
| `Mmh.Ctx.constructor` | libinktomi++/MMH.cc:194-203 | The context of the empty message |
| `CharIndex.Index.IterFirst` | libinktomi++/HostLookup.cc:486-493 | The iterator stands at the first bound key, or says that there is none |
| `HostTable.ArrayLookup` | libinktomi++/HostLookup.cc:638-665 | The first entry with the key, otherwise the last one whose negated key is another, nothing exactly when there is neither |
| `FdReify.Collect` | libev/ev.c:908-911 | The combined mask of all watchers in the list |
| `TransitionTables.TryBase` | libinktomi++/Regex.cc:1643-1654 | An offset is accepted exactly when the row finds every slot free there |
| `PollTable.Poll.NeedSlot` | libev/ev_poll.c:63-70 | The fd has a slot, a new one at the end if it had none, and every other fd keeps its flags |
| `ArenaStrings.WriteHeader` | libinktomi++/Arena.h:127-135 | The digits written downwards form the header, and nothing else is written |
| `ArenaStrings.HeaderStart` | libinktomi++/Arena.h:76-84 | The search back stops at the first byte of the header |

## Left out

- Regular expressions: parsing of pattern text, string nodes, printing, free lists and the table cache on disk; the model starts from trees in which no node is shared and every pattern ends in its own end node.
- RegexDfa.Dfa.Match: the accept numbers are not negative and the ids of the end nodes grow in the order of the patterns, as the compiler assigns them.
- Repetition.RepeatBetween: the count limits are natural numbers; the reading of their digits is not modelled.
- Event loop: periodic, idle, prepare, check, stat, child, fork and embed watchers, the clock, and floating-point rounding of times; rebuilding the heap is modelled as `TimerHeap.ReHeap`, without the periodic timers that call it.
- EventLoop.Loop.InvokePending: callbacks act on watchers the loop knows when the round begins, and their actions are given beforehand, so that a round in which they go on forever is not one of them.
- EventLoop.Loop.TimerStart: the reference count of the loop is not modelled, because nothing here depends on it.
- FdReify.FdLoop.Kill: what it asks of the pending stacks is recorded as a list of calls; what those calls do is in `EventLoop`.
- FdReify.WlistDel: the linked list of watchers of an fd is a sequence, so the pointer update itself is not captured.
- File descriptors: epoll, kqueue, port and Windows backends are one backend that may kill the fd; re-arming after a fork and the reading of poll and select results are not modelled.
- WakeUp.WakeUpsArrive: one loop, sequentially consistent memory; signals delivered to another loop and the reset after a fork are not modelled.
- Host lookup: names with empty labels, dots at the ends or labels that start with `!`, printing and destruction; the hash tables are maps.
- HostSearch.MatchNext: writing a terminator into the copied name is modelled as cutting the copy there.
- HostNames.Tokenize: delimiters other than the dot, empty tokens, the token limit and the chunked storage of tokens; host lookup uses none of these options.
- Mmh.Ctx.Update: the number of words is unbounded, so the overflow of the 32-bit counter after 8 gigabytes is not modelled; the length that is hashed is taken modulo 2 to the 32.
- Mmh.Ctx.Final: the length is absorbed as a word; its store into the buffer and the load from it are one step.
- LinkedQueue.Queue.Sort: keys are integers; any order that is total on keys is treated alike. Singly linked lists and the atomic lists are left out.
- Arena.Heap.Alloc: one and a half times the size fits in an `int`, new blocks lie apart from the old ones and in the lower half of the address space; `reset` is left out.
- Base64, calendar time, diagnostics, configuration and the wrappers of system libraries: none of the components above depends on them.
