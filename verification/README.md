# CCC runtime: a verified model

CCC compiles Clipper programs to C++. This project models the parts of its runtime library and of its
scanner generator (a flex descendant) whose correctness is hardest to see from the code, and proves what those
parts are for. Verify with `dafny verify dfyconfig.toml`.

## What is modelled

**The garbage collector** (`ccclib/src/variable.cpp`, with `array.cpp` and `push.cpp` as its mutators).
`FreeList` is the list of unused cells, taken from at its head by the mutators and extended at its tail by the
collector, one memory access at a time. `Objects` is the heap as the collector sees it, with reachability as the
existence of a path. `Collector` is a state machine: pushes, pops, stores, array operations, allocations, marking
(in one piece, or cell by cell with the mutators in between), and the sweep, index by index. `Safety` proves its
invariant over all runs; `Steps` says what each mutator action does, and `Scenarios` holds concrete runs. `RawLoad` deals with the one kind of load that does not
shade. `PushOnce` bounds the mark
stack over a whole mark phase. `Vartab` is the code itself: the tables as arrays, and the functions that change
them in place, each tied to the machine. `Arrays` is the array runtime on its cell buffers, with the writes in
their order; `ArrayActions` connects it to the machine. `Clone` is the deep copy.

**The scanner generator** (`setup/setup-flex`). `Chains` and `Ecs` are the partition of the characters, kept as
doubly linked lists in two int arrays, and its refinement in place. `EcNumbers` numbers the classes and rewrites the
character classes. `Nfa` says what an NFA means; `EpsClosure`, `DfaStates`, `SymSets` and `Subset` are the steps of
the subset construction, and the proof that the tables mean what the NFA means. `Meaning`
states that meaning once more without them: state by state, and for strings of characters by the classes as they were
read.

**Edit distance** (`levenshtein.cpp`): `Levenshtein`. **Exceptions** (`break.cpp`, and the code that
`ccctools/ppo2cpp/codegen.cpp` generates for begin sequence, its lines 1985 to 2126): `Unwind`. **Codecs**: `Utf8conv` and `Utf8`
(`utf8conv.cpp`, `utf8.cpp`), `Base32`, and `Base64` for both the C++ and the Java side. **Ordering**
(`stdcmp.cpp`, `equalto.cpp`, `asort.cpp`): `Ordering`.

## What turned out not to hold

- A white value that is pushed from the heap without shading while marking is interleaved (what `push_blkenv` does) can
  be freed while a thread holds it. `RawLoad.RawPushLoses` is a run from the initial tables, with one such push, that
  ends with a live array freed. Raw pushes of values that are not white, in any number, are safe in every run
  (`RawLoad.DarkPushesSafe`). That the value is not white is necessary for the invariant of the proof
  (`RawLoad.RawPushIff`); it is not necessary for safety, since the marking that goes on may still get to the value, as
  it does in the run of `RawLoad.RawPushHarmless`.
  Outside the mark phase raw pushes are ordinary actions of the machine.
- `>`, `<=` and `!=` on strings agree with the order exactly if the left side does not extend the right side, as the
  comment in `asort.cpp` warns: `Ordering.OperatorsAgree`, `Ordering.SortingBlocks`. `<=` is transitive on a set of
  strings exactly if no string in it has two extensions in it that part ways: `Ordering.LteqTransitiveIff`; three
  strings that do not meet this are in `Ordering.LteqNotTransitive`. The same condition decides whether comparators made
  of `<=` and `>` blocks are fit for sorting (`Ordering.LteqSortsIff`); those of `<` and `>=` blocks always are.
- `mkeccl` reads one flag behind its array exactly if the class has as many members as the array has flags (256):
  `Ecs.MkEccl`. What is read there does not change the result.
- The `encode` of the terminal makes what the encoder of the server makes exactly for arrays below 2^28 bytes:
  `Base64.JavaEncode`. The server stops at 2^26 bytes.
- The `decode` of the terminal makes what the decoder of the server makes exactly on strings of nothing but padding, and
  on strings of letters and padding in which the last whole quadruple holds at least two letters and nothing but padding
  stands behind the quadruples: `Base64.JavaDecode`. A blank in front is enough to part them
  (`Base64.ForeignDisagrees`); padding on top is not (`Base64.SurplusPaddingAgrees`).
- `aclone` comes to an end exactly on arrays that do not contain themselves: on others no number of cells is enough
  (`Clone.FiniteIffBounded`, `Clone.SelfContained`), so that the orefs are used up and sweep aborts with "OREF overflow".
- `base32_decode` takes a zero byte for the first letter and makes the digit in front of it odd: `Base32.ZeroAfterDigit`.
- The functions of `utf8.cpp` do not decode, and agree with decoding only under conditions that are weaker than being
  well coded. Where every continuing byte belongs to a sequence (complete or not) all of them agree. `utf8len`
  agrees exactly then (`Utf8.CountIsLength`), `utf8substr` also on any single byte (`Utf8.SubstrExact`), `utf8left` also
  with one stray byte at the end, alone or behind ASCII (`Utf8.LeftExact`), and `utf8right` also with one stray byte in
  front (`Utf8.RightExact`).

Where code and comments differ, the model follows the code. `base32_decode` finds its letters with `strchr`, which
also finds the zero byte that ends the alphabet: `Base32.Find` gives it the index 32. The comment in `base64.java`
about throwing away foreign characters describes nothing that `decode` does; only the C++ decoder ignores them.

## Model

| member | source | states |
|---|---|---|
| FreeList.MoveKeeps | ccclib/src/variable.cpp:757-770 | every single step of a release or an allocation keeps the list: the collector only extends the path at its tail, the mutator only takes its head |
| FreeList.AlwaysSound | ccclib/src/variable.cpp:281-302 | from the initial table on, whatever the interleaving, there is a path from head to tail |
| FreeList.HeadReachesTail | ccclib/src/variable.cpp:808-831 | following the links from the head always reaches the tail, after as many steps as the free count says when both sides rest |
| FreeList.AllocatedIffOffList | ccclib/src/variable.cpp:747-757 | what sweep tests about a cell holds exactly if the cell is neither on the list nor in the collector's hand |
| FreeList.UnlinkTakesOne | ccclib/src/variable.cpp:827-831 | taking a cell turns exactly that cell allocated and does not touch the tail, even while the tail is being linked on |
| FreeList.OthersAllocate | ccclib/src/variable.cpp:757-770 | no other step makes a cell allocated, and only the claimed cell stops being so |
| FreeList.Conservation | ccclib/src/variable.cpp:281-302 | at rest the allocated cells, the free count and the tail cell add up to the table size |
| FreeList.GiveOne | ccclib/src/variable.cpp:763-767 | a whole release: the four steps are possible one after the other, and exactly the given cell is free afterwards |
| FreeList.TakeOne | ccclib/src/variable.cpp:808-840 | a whole allocation: the steps are possible one after the other, and exactly the old head is allocated afterwards |
| Objects.LiveCount | ccclib/src/variable.cpp:473-476 | the scan of a buffer stops in front of its first TYPE_END |
| Objects.ReachableContained | ccclib/src/variable.cpp:423-427 | the reachable nodes are the least set that holds the roots and is closed under stored values |
| Collector.ShadeFlatDarkens | ccclib/src/variable.cpp:539-577 | shading a value makes its target non-white, whitens nothing, leaves black black, and keeps gray the same as being on the mark stack |
| Collector.ShadeDarkens | ccclib/src/variable.cpp:578-583 | the same for a reference and the value behind it; what turned black has no white successor |
| Safety.PushKeeps | ccclib/src/push.cpp:30-61 | a copy of a stack slot, or of the value behind a reference in one, to a thread stack or the static stack, keeps the invariant although it is not shaded, and makes nothing new reachable |
| Safety.AssignKeeps | ccclib/src/variable.cpp:955-976 | a store through operator= or valuecopy keeps the invariant in every phase |
| Safety.ResizeKeeps | ccclib/src/array.cpp:358-484 | an array operation that keeps old cells and adds at most one shaded value keeps the invariant |
| Safety.NewTextKeeps | ccclib/src/variable.cpp:800-850 | a new string is reachable, allocated and black, and nothing else becomes reachable |
| Safety.NewContainerKeeps | ccclib/src/array.cpp:277-317 | a new array or block whose cells are copied from the stack without shading keeps the invariant |
| Safety.NewVrefKeeps | ccclib/src/variable.cpp:854-903 | turning the top of the stack into a reference keeps the invariant |
| Safety.MarkAllKeeps | ccclib/src/variable.cpp:365-482 | an uninterrupted mark leaves everything reachable black |
| Safety.BeginMarkKeeps | ccclib/src/variable.cpp:403-438 | after the roots are shaded no stack slot is white and everything gray is reachable |
| Safety.PopGrayKeeps | ccclib/src/variable.cpp:488-491 | blackening the popped container keeps the tri-colour invariant with the scan at its first cell |
| Safety.ScanCellKeeps | ccclib/src/variable.cpp:522-532 | shading one cell, or meeting the end, keeps the tri-colour invariant: cells behind the cursor are non-white |
| Safety.EmptyStackAllBlack | ccclib/src/variable.cpp:429-449 | when the mark stack runs empty and nothing is being scanned, everything reachable is black |
| Safety.FreeOrefKeeps | ccclib/src/variable.cpp:745-772 | an oref that sweep frees is not reachable, and freeing it keeps the invariant |
| Safety.FreeVrefKeeps | ccclib/src/variable.cpp:718-743 | the same for vrefs |
| Safety.ActionKeeps | ccclib/src/variable.cpp:365-482 | every action of mutators and collector, in every phase, keeps the invariant and makes nothing reachable but a node just allocated |
| Safety.InitialInv | ccclib/src/variable.cpp:281-308 | the invariant holds of the initial tables |
| Safety.LiveStaysAllocated | ccclib/src/variable.cpp:708-773 | in every run, in both modes, whatever a thread stack or the static stack reaches is allocated and of the right kind, and whatever the collector does next leaves it allocated, live and unchanged |
| Safety.CollectorLeavesLive | ccclib/src/variable.cpp:708-773 | no step of the collector takes away, frees the buffer of, or changes the content of anything a stack reaches |
| Steps.PushDoes | ccclib/src/push.cpp:30-61 | the value lies on top of that stack, and nothing else has changed |
| Steps.PopDoes | ccclib/src/push.cpp:30-61 | the lower values stay, and nothing else has changed |
| Steps.AssignSlotDoes | ccclib/src/variable.cpp:955-976 | the slot holds the value, and no other slot and no object has changed |
| Steps.AssignCellDoes | ccclib/src/variable.cpp:955-976 | the cell holds the value, and no other cell, object or stack has changed |
| Steps.AssignBehindDoes | ccclib/src/variable.cpp:955-976 | the vref holds the value, and no other object and no stack has changed |
| Steps.ResizeDoes | ccclib/src/array.cpp:358-557 | a scan of the array sees what is in the new buffer, and every other object and every stack is as before |
| Steps.ResizeReaches | ccclib/src/array.cpp:358-557 | the array is still reached from the stacks, and so is everything in its new buffer |
| Steps.NewTextDoes | ccclib/src/variable.cpp:800-850 | the new string is black and on top of the stack, and nothing else has changed |
| Steps.NewContainerDoes | ccclib/src/variable.cpp:800-850 | the new container holds the given buffer, is black and on top of the stack, and nothing else has changed |
| Steps.NewVrefDoes | ccclib/src/variable.cpp:854-903 | the top of the stack refers to a black vref that holds the old top, and nothing else has changed |
| Scenarios.StaticSlotReached | ccclib/src/variable.cpp:403-406 | a run from the initial tables after which a static variable holds an array |
| Scenarios.MarkBegunReached | ccclib/src/variable.cpp:403-438 | a run from the initial tables to a mark phase in which the only array on a stack is gray and holds a white one |
| RawLoad.RawPushIff | ccclib/src/push.cpp:64-67 | during interleaved marking an unshaded push of a stored value keeps the invariant of the proof exactly if the value is not white, and then makes nothing new reachable |
| RawLoad.DarkPushesSafe | ccclib/src/push.cpp:64-67 | in every run in which stored values are pushed raw, white ones only outside the mark phase, whatever a stack reaches is allocated, and the collector leaves it so |
| RawLoad.MachineRuns | ccclib/src/variable.cpp:365-482 | the runs with raw pushes include all runs of the machine |
| RawLoad.RawPushLoses | ccclib/src/push.cpp:64-67 | a run from the initial tables with one raw push of a white array, at the end of which a thread holds the array and the collector has freed it |
| RawLoad.RawPushHarmless | ccclib/src/push.cpp:64-67 | a run with the same push in which the mark still gets to the array; the invariant holds at its end, and in everything that follows without another such push |
| RawLoad.RawPushBreaks | ccclib/src/push.cpp:64-67 | in a state that the machine reaches such a push leaves a white slot |
| PushOnce.PushedOnce | ccclib/src/variable.cpp:571-576 | in a mark phase with any mutator steps in between, no container is pushed twice on the mark stack, nor one that was marked before |
| Vartab.StackBound | ccclib/src/variable.cpp:307 | the mark stack never holds more entries than there are orefs, and has room whenever something is still to be pushed |
| Vartab.Tables.constructor | ccclib/src/variable.cpp:281-308 | the tables are built in the initial state of the machine |
| Vartab.Tables.Blacken | ccclib/src/variable.cpp:554-562 | one oref turns black, and is counted |
| Vartab.Tables.Gray | ccclib/src/variable.cpp:571-576 | one oref turns gray and is pushed |
| Vartab.Tables.ShadeFlatValue | ccclib/src/variable.cpp:539-577 | colours and mark stack become those of the machine's shading, and the count of black orefs stays right |
| Vartab.Tables.ShadeValue | ccclib/src/variable.cpp:539-591 | the same, through a reference |
| Vartab.Tables.PopBlack | ccclib/src/variable.cpp:658-681 | the last container pushed is returned and black |
| Vartab.Tables.ScanContainer | ccclib/src/variable.cpp:467-481 | one turn of the mark loop keeps the invariant, colours only live nodes, and adds a black oref |
| Vartab.Tables.ShadeRoots | ccclib/src/variable.cpp:403-420 | every stack is shaded, in order |
| Vartab.Tables.Mark | ccclib/src/variable.cpp:365-482 | mark terminates; black are exactly the orefs and vrefs the stacks reach, and oresv is their number |
| Vartab.Tables.SweepOref | ccclib/src/variable.cpp:745-772 | an oref is freed exactly if it is allocated and white |
| Vartab.Tables.SweepVref | ccclib/src/variable.cpp:718-743 | a vref is freed exactly if it is allocated and white |
| Vartab.Tables.Sweep | ccclib/src/variable.cpp:708-794 | exactly the allocated cells that are not white stay, the buffers of the others are gone, and the overflow conditions are exactly those of an empty list |
| Vartab.Tables.Collect | ccclib/src/variable.cpp:365-482 | after a whole collection exactly the live orefs and vrefs are allocated |
| Vartab.Tables.OrefNew | ccclib/src/variable.cpp:800-850 | in every phase of the collector a cell is handed out exactly if the list has more than its tail; it was not allocated before and not live, and no other cell changes |
| Vartab.Tables.VrefNew | ccclib/src/variable.cpp:854-903 | the same for vrefs, and the top of the stack is now a reference to its old value |
| Arrays.AaddAtomic | ccclib/src/array.cpp:380-386 | after each of the two writes of aadd in place a scan sees the old elements or the new ones, and the end result is the appended buffer with its size kept |
| Arrays.AsizeAtomic | ccclib/src/array.cpp:437-449 | after each write of asize in place a scan sees the old elements or the resized ones |
| Arrays.ReplaceOwned | ccclib/src/array.cpp:389-402 | a new buffer in place of the old one: one owner each, the old one released once, the other arrays unchanged |
| Arrays.RewriteOwned | ccclib/src/array.cpp:437-449 | writing in place keeps ownership and the other arrays |
| Arrays.DropOwned | ccclib/src/variable.cpp:759-764 | sweep releases the buffer exactly once and leaves the other arrays alone |
| Arrays.Runtime.MakeArray | ccclib/src/array.cpp:277-296 | the top values become the elements of a new array; every buffer has one owner, and its end cell records its size |
| Arrays.Runtime.MakeArray0 | ccclib/src/array.cpp:300-317 | a new array of NILs; ownership kept |
| Arrays.Runtime.MakeBlock | ccclib/src/push.cpp:170-193 | the environment of a new block; ownership kept; without one there is no oref |
| Arrays.Runtime.Append | ccclib/src/array.cpp:375-402 | the elements are the old ones and the new value, in place or in a new buffer; no other array changes |
| Arrays.Runtime.Resize | ccclib/src/array.cpp:430-478 | the elements are the first ones of the old array, filled up with NIL; no other array changes |
| Arrays.Runtime.Aadd | ccclib/src/array.cpp:358-409 | the arguments are the stack slots from the base on; argument checks, result on the stack, and the append; on an error the arguments stay on the stack, cut to two or padded with NILs |
| Arrays.Runtime.Asize | ccclib/src/array.cpp:413-484 | the arguments are the stack slots from the base on; argument checks, result on the stack, and the resize; on an error the arguments stay on the stack, cut to two or padded with NILs |
| Arrays.Runtime.AinsAdel | ccclib/src/array.cpp:487-557 | the arguments are the stack slots from the base on; argument and index checks; a NIL is inserted and the last element lost, or an element deleted and a NIL added; on an error the arguments stay on the stack, cut to two or padded with NILs |
| Arrays.Runtime.Idxr | ccclib/src/array.cpp:99-118 | the index check, and the element takes the place of array and index |
| Arrays.Runtime.Idxxl | ccclib/src/array.cpp:35-56 | the index check, and an assignment through the address changes that element of that array only |
| Arrays.Runtime.Free | ccclib/src/variable.cpp:759-764 | the array is gone, its buffer released once |
| Clone.Aclone | ccclib/src/array.cpp:560-599 | the copy unfolds to the same tree as the array; its arrays are new, one for each occurrence in the tree and in that order; every other array, and the stack below, is as it was |
| Clone.SameBelow | ccclib/src/array.cpp:576-593 | what an array unfolds to depends on the arrays in it only, so later copies do not disturb finished ones |
| Clone.ChildReady | ccclib/src/array.cpp:583-588 | an inner array is still as it was at the start when its turn comes, and there are cells enough for it |
| Clone.Whole | ccclib/src/array.cpp:583-588 | an array that does not contain itself is followed to the end, so that the equal trees are the whole arrays |
| Clone.FiniteIffBounded | ccclib/src/array.cpp:581-594 | there is a number of cells that is enough for the copy exactly if the array does not contain itself |
| Clone.SelfContained | ccclib/src/array.cpp:581-594 | an array that is its own element needs one more cell for every level |
| ArrayActions.ScanSeesElements | ccclib/src/variable.cpp:473-476 | what the collector scans of a buffer is exactly the elements of the array, also without a buffer |
| ArrayActions.OwnedBuffer | ccclib/src/array.cpp:284-290 | every array that owns a buffer owns such a one, and an empty array none |
| ArrayActions.ChangedFrom | ccclib/src/array.cpp:358-557 | aadd, asize, ains and adel leave nothing but old elements, NILs and the value added |
| ArrayActions.OperationIsResize | ccclib/src/array.cpp:358-557 | what the array operations leave, asize to 0 included, is what the machine's array action allows |
| ArrayActions.ScanIsArray | ccclib/src/variable.cpp:473-476 | for every array of the runtime, and so after every operation on it: what the collector scans are its elements |
| ArrayActions.OperationStep | ccclib/src/array.cpp:358-557 | an operation of the runtime is a step of the machine, after which the machine's heap holds the arrays as the operation left them, and the array and all that is in it are reached |
| Chains.HeldLinked | setup/setup-flex/ecs.c:68-74 | labelled chains are ascending lists whose two link arrays are inverse |
| Ecs.MkEChar | setup/setup-flex/ecs.c:210-225 | one character is split off its class and nothing else changes |
| Ecs.FindMember | setup/setup-flex/ecs.c:143-173 | the merge search through the class finds a character exactly if it is a member |
| Ecs.SortOne | setup/setup-flex/ecs.c:141-187 | one companion goes to the part of its chain inside or outside the class |
| Ecs.SplitChain | setup/setup-flex/ecs.c:131-195 | the chain of one member is split into the part inside and the part outside, other chains are untouched, and the flags mark the members done |
| Ecs.SkipFlagged | setup/setup-flex/ecs.c:197-204 | the next member not done is found, the flags passed over were set and are cleared, and the flag behind the array is read exactly if the members are through and as many as the flags |
| Ecs.MkEccl | setup/setup-flex/ecs.c:115-205 | two characters stay together exactly if they were together and agree on membership; the links stay ascending and inverse; every flag is zero again; a flag behind the array is read exactly if there are as many members as flags |
| EcNumbers.SingleChain | setup/setup-flex/main.c:249-264 | at first all characters are together |
| EcNumbers.TogetherIffSameSets | setup/setup-flex/ecs.c:100-113 | after any sequence of registrations two characters are together exactly if they belong to the same registered sets |
| EcNumbers.NumbersSeparate | setup/setup-flex/ecs.c:83-87 | absolute numbers are equal exactly for characters that are together; the positive ones belong to the representatives and ascend |
| EcNumbers.Cre8Ecs | setup/setup-flex/ecs.c:76-97 | the links are overwritten with these numbers, and the number of classes is returned |
| EcNumbers.NumbersFollowSets | setup/setup-flex/main.c:1043-1053 | two characters get the same number exactly if they belong to the same registered sets |
| EcNumbers.RewriteClass | setup/setup-flex/ecs.c:48-63 | a class is rewritten in place to the numbers of its representatives, and nothing outside it changes |
| EcNumbers.Ccl2Ecl | setup/setup-flex/ecs.c:35-65 | every class is rewritten, each from its old contents |
| EcNumbers.StoredMapsBack | setup/setup-flex/dfa.c:951-954 | a class number stored in a byte, with 256 stored as 0, reads back as itself |
| EcNumbers.MembershipKept | setup/setup-flex/ecs.c:35-65 | a character is in an uncut class exactly if its number is in the rewritten one, which is ascending again |
| EcNumbers.RegisteredUncut | setup/setup-flex/ecs.c:115-205 | a class once registered is not cut by the partition |
| Nfa.FollowMoves | setup/setup-flex/dfa.c:925-1003 | following a list that stands for a set gives the states the whole set moves to |
| Nfa.DenotesAccept | setup/setup-flex/dfa.c:263-268 | leaving out non-accepting epsilon states does not change the least accepting number |
| EpsClosure.SumSame | setup/setup-flex/dfa.c:286-292 | the hash depends only on which states a list has |
| EpsClosure.Closer.Visit | setup/setup-flex/dfa.c:278-300 | a state is marked, stacked once, and listed if it is accepting or has a symbol |
| EpsClosure.Closer.Unmark | setup/setup-flex/dfa.c:350-357 | the marks in trans1 are removed exactly; the consistency check cannot fail |
| EpsClosure.Closer.Close | setup/setup-flex/dfa.c:247-364 | the closure terminates, visits each reachable state once, restores trans1, and returns the initial states and exactly the reachable important ones, their accepting numbers, and the sum of the distinct states |
| DfaStates.Bubble | setup/setup-flex/misc.c:144-157 | the list comes out sorted, with the same elements |
| DfaStates.SortedUnique | setup/setup-flex/dfa.c:818-820 | sorted lists with the same elements are equal |
| DfaStates.NeverMissed | setup/setup-flex/dfa.c:800-803 | a list with the same elements passes the comparison of hash and length |
| DfaStates.Dfa.LeastAccepting | setup/setup-flex/dfa.c:858-906 | the least accepting number, or 0 if there is none |
| DfaStates.Dfa.Snstods | setup/setup-flex/dfa.c:793-915 | a new state is made exactly if none has the same elements; otherwise that one is returned |
| SymSets.InClass | setup/setup-flex/dfa.c:971-985 | the search that stops early finds a symbol exactly if it is in the class |
| SymSets.SymFollowSet | setup/setup-flex/dfa.c:925-1003 | the list of targets, in order and with repetitions |
| SymSets.AlikeFollow | setup/setup-flex/dfa.c:1019-1022 | symbols that every state treats alike have the same list of targets |
| SymSets.NoteClass | setup/setup-flex/dfa.c:1063-1091 | exactly the symbols in a class, or outside a negated one, are noted |
| SymSets.SymPartition | setup/setup-flex/dfa.c:1013-1095 | symbols left on one chain are treated alike by every state of the list; the symbols noted are exactly those with a transition; duplist leads to an earlier symbol of the chain |
| Subset.SharedStep | setup/setup-flex/dfa.c:650-657 | the entry of the earlier symbol is there already, and is right for the later one |
| Subset.FollowLean | setup/setup-flex/dfa.c:925-1003 | following a list without repeated symbol states gives such a list |
| Subset.StateBound | setup/setup-flex/dfa.c:836-841 | there are no more DFA states than lists of bounded length |
| Subset.Builder.StateFor | setup/setup-flex/dfa.c:621-629 | the DFA state returned stands for the closure of the list |
| Subset.Builder.FillRow | setup/setup-flex/dfa.c:597-678 | the row of a DFA state holds, for each symbol, the state that stands for the closure of the targets, or 0 if there are none |
| Subset.Builder.EndOfBuffer | setup/setup-flex/dfa.c:581-590 | the empty list always makes a new state |
| Subset.Builder.Ntod | setup/setup-flex/dfa.c:592-678 | the construction terminates with a row for every DFA state, and from every start condition the finished tables lead on every word to the state that stands for what the NFA reaches, with its least accepting number |
| Subset.EndOfBufferUnentered | setup/setup-flex/dfa.c:732-736 | no transition enters the end-of-buffer state |
| Subset.MeaningPreserved | setup/setup-flex/dfa.c:592-678 | for every word, the state the tables reach stands for exactly the NFA states the word reaches, and its accepting number is the least among theirs, or 0 |
| Subset.AllWords | setup/setup-flex/dfa.c:592-678 | the same for all start conditions and all words at once |
| Meaning.EpsilonReaches | setup/setup-flex/dfa.c:247-364 | an epsilon state reaches on every word what its one or two targets reach, and on the empty word itself |
| Meaning.SymbolReaches | setup/setup-flex/dfa.c:925-1003 | any other state reaches itself on the empty word, and leads on to its target on the symbols it matches |
| Meaning.ClassCharacter | setup/setup-flex/dfa.c:940-986 | the number of a character leads on from a state with a class exactly if the character is in the class as it was registered, or outside of it if it is negated |
| Meaning.OwnCharacter | setup/setup-flex/dfa.c:992-997 | from a state with a character of its own it leads on exactly for that character, NUL being stored as 0 |
| Meaning.CharsReachNumbers | setup/setup-flex/dfa.c:925-1003 | a string of characters reaches, by the classes as they were read, what its numbers reach by the rewritten ones |
| Meaning.CharactersMeaning | setup/setup-flex/dfa.c:592-678 | for every string of characters, the tables followed on its numbers lead to the DFA state that stands for what the string reaches by the classes as they were read |
| Meaning.NegatedClassMoves | setup/setup-flex/dfa.c:944-966 | [^a] over two characters: no move on a, a move on the other |
| Levenshtein.LevenshteinDistance | ccclib/src/levenshtein.cpp:55-108 | the two-row table ends with the edit distance |
| Levenshtein.DistIsLeastCost | ccclib/src/levenshtein.cpp:75-100 | the distance is the least cost of all scripts of insertions, deletions and replacements |
| Levenshtein.Symmetric | ccclib/src/levenshtein.cpp:75-100 | the distance is symmetric |
| Levenshtein.ZeroIffEqual | ccclib/src/levenshtein.cpp:75-100 | it is zero for equal strings only |
| Levenshtein.Triangle | ccclib/src/levenshtein.cpp:75-100 | it satisfies the triangle inequality |
| Levenshtein.OneEdit | ccclib/src/levenshtein.cpp:75-100 | inserting, deleting or replacing one element anywhere is a distance of 1 |
| Levenshtein.LevenshteinSubstring | ccclib/src/levenshtein.cpp:112-165 | the result is the least distance to any substring of the second string |
| Levenshtein.SubstringDistIsNearest | ccclib/src/levenshtein.cpp:132-157 | the recurrence with the free column and the free step is that minimum |
| Unwind.Thread.Search | ccclib/src/break.cpp:107-157 | the topmost compatible entry, or none if there is none |
| Unwind.CatchesWhat | ccclib/src/break.cpp:117-152 | NIL takes everything, an object what is derived from it, other entries their type |
| Unwind.Thread.PopFrames | ccclib/src/break.cpp:168-186 | no frame with a finally block is passed over |
| Unwind.Thread.Break | ccclib/src/break.cpp:94-218 | nothing is unwound if nothing catches; otherwise control goes to a finally block in between or to the recover found, with the exception where the frame's stack began |
| Unwind.Thread.BeginSequence | ccclib/src/break.cpp:96-98 | the generated code pushes the End of a finally block and the recovers, one that takes everything if there is neither, and the frame |
| Unwind.Thread.EndSequence | ccclib/src/break.cpp:196-199 | the generated code ends a statement or a recover by popping the frame and its entries, and no others |
| Unwind.Thread.Rethrow | ccclib/src/break.cpp:168-186 | what the generated code does after a finally block, _clp_break0, picks the same entry again |
| Unwind.Thread.Throw | ccclib/src/break.cpp:159-217 | a whole throw ends in the entry first found, at its position among its frame's recovers, after the finally blocks of exactly the inner frames; the value stack below the frame is untouched |
| Unwind.Thread.BreakInSequence | ccclib/src/break.cpp:159-199 | a break in a statement without recover and finally lands there at level 1; otherwise the statement takes the exception exactly if one of its recovers does, at the last such one, counted from 1 |
| Unwind.BlocksOnceInnermostFirst | ccclib/src/break.cpp:164-186 | those finally blocks are run once each, inner ones first |
| Unwind.StillPicked | ccclib/src/break.cpp:107-109 | cutting off entries above the picked one does not change the choice |
| Unwind.Thread.PopReturning | ccclib/src/break.cpp:221-229 | one frame is left with the return value |
| Unwind.Thread.PopLooping | ccclib/src/break.cpp:232-249 | one frame is left without a value |
| Unwind.Thread.LeaveLoop | ccclib/src/break.cpp:232-249 | a loop or exit through several sequences, one begseqpop_loop or begseqpop_exit after the other, runs their finally blocks once each, inner ones first, and leaves the value stack alone |
| Unwind.Thread.Return | ccclib/src/break.cpp:221-229 | a return through several sequences, one begseqpop_ret after the other, runs their finally blocks once each, inner ones first, and keeps the value |
| Utf8conv.Utf8ToUcs | ccclib/src/utf8conv.cpp:59-104 | code and length of the first sequence, 0 if it is malformed; nothing behind the terminating zero is read |
| Utf8conv.UcsToUtf8 | ccclib/src/utf8conv.cpp:107-139 | the bytes of the table in section 2 of RFC 2279, continued to 32 bits |
| Utf8conv.RoundTrip | ccclib/src/utf8conv.cpp:59-139 | for every 32-bit code, decoding the encoding gives the code and its length back |
| Utf8conv.ShortestForm | ccclib/src/utf8conv.cpp:107-139 | no shorter sequence is read as the same code |
| Utf8conv.Examples | ccclib/src/utf8conv.cpp:107-139 | the examples of section 4 of RFC 2279, and codes of every length |
| Utf8conv.WcharToUtf8 | ccclib/src/utf8conv.cpp:143-185 | the encodings one after the other, never beyond what is allocated |
| Utf8conv.Utf8ToWchar | ccclib/src/utf8conv.cpp:189-239 | the decoded characters, with question marks for malformed sequences, within the first allocation |
| Utf8conv.WideRoundTrip | ccclib/src/utf8conv.cpp:143-239 | decoding undoes encoding on every sequence of codes |
| Utf8.Utf8Len | ccclib/src/utf8.cpp:34-50 | never more than the characters, and their number exactly if every continuing byte belongs to a sequence |
| Utf8.CountIsLength | ccclib/src/utf8.cpp:41-47 | for every string: counting bytes that do not continue a sequence is counting decoded characters exactly if every continuing byte belongs to a sequence |
| Utf8.MalformedMiscounted | ccclib/src/utf8.cpp:41-47 | a string on which the two differ |
| Utf8.WellAttached | ccclib/src/utf8.cpp:292-312 | in a string that utf8valid accepts every continuing byte belongs to a sequence |
| Utf8.SkipCuts | ccclib/src/utf8.cpp:60-81 | any string can be cut behind any number of characters, and well coded strings stay so |
| Utf8.PastSkips | ccclib/src/utf8.cpp:60-80 | where every continuing byte belongs to a sequence, stepping by bytes is skipping decoded characters |
| Utf8.BackSkips | ccclib/src/utf8.cpp:94-101 | and stepping back from the end leaves the others in front |
| Utf8.Forward | ccclib/src/utf8.cpp:60-80 | where the two loops stop, on every string |
| Utf8.Backward | ccclib/src/utf8.cpp:94-101 | where the loop from the end stops, on every string |
| Utf8.Utf8Left | ccclib/src/utf8.cpp:53-83 | the first characters, if every continuing byte belongs to a sequence; well coded if the string is |
| Utf8.LeftExact | ccclib/src/utf8.cpp:60-81 | for every string: the first characters for all counts, exactly if nothing but a last byte, alone or behind ASCII, continues nothing |
| Utf8.Utf8Right | ccclib/src/utf8.cpp:87-104 | the last characters, likewise |
| Utf8.RightExact | ccclib/src/utf8.cpp:94-102 | for every string: the last characters for all counts, exactly if nothing but the first byte continues nothing |
| Utf8.Utf8Substr | ccclib/src/utf8.cpp:108-190 | the slice of characters, also for negative, zero and too large arguments, likewise |
| Utf8.SubstrMeans | ccclib/src/utf8.cpp:108-190 | character by character, which ones the slice has |
| Utf8.SubstrExact | ccclib/src/utf8.cpp:108-190 | for every string: the slices are right for all arguments, exactly if every continuing byte belongs to a sequence or there is only one byte |
| Utf8.Utf8Valid | ccclib/src/utf8.cpp:292-312 | true exactly for well coded strings |
| Utf8.EncodedWell | ccclib/src/utf8conv.cpp:107-139 | whatever is encoded is well coded |
| Base32.Encode | ccclib/src/base32.cpp:39-78 | the digits of the five-bit groups (section 6 of RFC 4648) and the padding, within the length computed first |
| Base32.Decode | ccclib/src/base32.cpp:81-150 | the bytes the letters hold, or the first foreign character; never more bytes than allocated |
| Base32.RunLength | ccclib/src/base32.cpp:88-89 | five bits a letter bound the bytes decoded |
| Base32.AlphabetLetter | ccclib/src/base32.cpp:94-100 | digits are written by the alphabet of section 6 of RFC 4648, and read back by their index in it |
| Base32.TestVectors | ccclib/src/base32.cpp:39-78 | two vectors of section 10 of RFC 4648 |
| Base32.RejectsForeign | ccclib/src/base32.cpp:95-126 | exactly the strings with a foreign character are rejected, at the first one |
| Base32.ZeroByte | ccclib/src/base32.cpp:97-100 | a zero byte, found at the end of the alphabet, feeds a zero digit and sets the last bit before it in the byte being put together |
| Base32.ZeroAfterDigit | ccclib/src/base32.cpp:128-142 | behind a digit that is to make the digit odd, unless its byte is complete |
| Base32.RoundTrip | ccclib/src/base32.cpp:39-150 | decoding the encoding gives every byte string back |
| Base64.Encode | ccclib/src/base64.cpp:27-78 | groups of four digits for three bytes (section 4 of RFC 4648), padded, or an error above MAXBINLEN |
| Base64.Decode | ccclib/src/base64.cpp:81-154 | the bytes the letters hold, in a buffer of exactly that length, or an error above MAXBINLEN |
| Base64.RunFills | ccclib/src/base64.cpp:121-151 | for every input the decoder writes exactly as many bytes as it computed first |
| Base64.AlphabetLetter | ccclib/src/base64.cpp:29-29 | digits are written by the alphabet of section 4 of RFC 4648, and read back by their index in it |
| Base64.TestVectors | ccclib/src/base64.cpp:27-78 | two vectors of section 10 of RFC 4648 |
| Base64.ForeignIgnored | ccclib/src/base64.cpp:113-140 | foreign characters anywhere change nothing |
| Base64.RoundTrip | ccclib/src/base64.cpp:27-154 | decoding the encoding gives every byte string back, whatever is left in the accumulator |
| Base64.Unsigned | jt/jterminal/base64.java:143-145 | the xor undoes the sign extension of the shift |
| Base64.JavaEncode | jt/jterminal/base64.java:105-192 | for every array: the same characters as the encoder of the server exactly below 2^28 bytes; beyond, where the number of bits wraps around, an exception or the encoding of a part |
| Base64.JavaDecode | jt/jterminal/base64.java:200-264 | for every input: the same bytes as the decoder of the server exactly under the condition `Agrees`; otherwise other bytes or an exception |
| Base64.ForeignDisagrees | jt/jterminal/base64.java:239-240 | a blank in front of "QUJD", which the server skips, does not meet the condition |
| Base64.SurplusPaddingAgrees | jt/jterminal/base64.java:215-225 | strings that no encoder makes and that meet the condition |
| Base64.CanonicalAgrees | jt/jterminal/base64.java:200-264 | whatever an encoder makes meets it |
| Base64.EncodedCanonical | jt/jterminal/base64.java:105-192 | what the encoders make is canonical input |
| Ordering.ScanSeqs | ccclib/src/stdcmp.cpp:53-87 | the scanning loop decides the dictionary order, cut off in mode 1 |
| Ordering.Stdcmp | ccclib/src/stdcmp.cpp:26-261 | type by type: -1 exactly if the left side is the smaller number, date, pointer or array, false before true, NIL before everything, blocks and objects by two numbers, strings by the first difference; an error exactly for types that cannot be compared |
| Ordering.ModeOneCuts | ccclib/src/stdcmp.cpp:76-81 | mode 1 is mode 0 with the left side cut to the length of the right side |
| Ordering.CompareAntisymmetric | ccclib/src/stdcmp.cpp:26-261 | exchanging the sides changes the sign in mode 0 |
| Ordering.CompareZero | ccclib/src/stdcmp.cpp:26-261 | 0 means equal |
| Ordering.CompareTransitive | ccclib/src/stdcmp.cpp:26-261 | mode 0 is transitive |
| Ordering.OperatorsAgree | ccclib/src/equalto.cpp:41-141 | < and >= agree with mode 0; the other operators exactly if the left side does not extend the right one |
| Ordering.OperatorsMean | ccclib/src/equalto.cpp:31-59 | what each operator says of two numbers and of two strings |
| Ordering.FixedLength | ccclib/src/asort.cpp:188-192 | on strings of one length, and on what is no string, mode 1 is mode 0, so <, > and != agree with the order |
| Ordering.LteqTransitiveIff | ccclib/src/asort.cpp:197-201 | on any set of strings: <= is transitive exactly if no string in it has two extensions in it that part ways |
| Ordering.LteqFails | ccclib/src/equalto.cpp:51-54 | for any three strings: <= fails to be transitive on them exactly if both outer ones extend the middle one and part ways, the last before the first |
| Ordering.GreaterTransitive | ccclib/src/equalto.cpp:46-49 | > is transitive on all strings |
| Ordering.LteqNotTransitive | ccclib/src/asort.cpp:197-201 | the three strings of the comment |
| Ordering.SortingBlocks | ccclib/src/asort.cpp:96-134 | sorting by < or >= is sorting by mode 0; with <= or > exactly for pairs of which neither extends the other |
| Ordering.LteqSortsIff | ccclib/src/asort.cpp:188-204 | on any set of strings: the comparator of a <= block, or of a > block, is a consistent weak order exactly if no string has two extensions that part ways |
| Ordering.LtSorts | ccclib/src/asort.cpp:188-204 | those of < and >= blocks are on every set of strings |
| Ordering.Evaluator.Operator | ccclib/src/equalto.cpp:31-141 | each operator replaces its operands by the flag it stands for, or raises an error |
| Ordering.Evaluator.ValueCompare | ccclib/src/asort.cpp:94-150 | the comparator's result for each kind of key; the stack is as before |
| Ordering.ComparatorMeans | ccclib/src/asort.cpp:94-150 | no key and true give the order, false the reverse; a number returned by the block is the result, two flags give -1, 0 or 1 |
| Ordering.Clamp | ccclib/src/asort.cpp:60-67 | the range sorted lies in the array and is exactly the part asked for |

## Left out

- Safety.ActionKeeps: a shading, an assignment and a stack copy are single steps, as the VALUE locks make them; the locks themselves, condition waits, GC triggers, thread exit and statistics are not modelled.
- Safety.ActionKeeps: sweep may visit the indices in any order, which allows more runs than the code has; `gc_count` is unbounded.
- RawLoad.RawPushIff: other unshaded copies from the heap during interleaved marking are the same push and are not listed one by one; `oref_gray` has no caller in the repository.
- Vartab.Tables.Mark: the tables of structs are parallel arrays, and `ormax` and `mark_stack_depth` are omitted.
- Vartab.Tables.OrefNew: when the list is empty the code waits for the collector; the method returns instead.
- Arrays.Runtime.Aadd: numbers are integers, so the truncation of a double argument is not modelled. The call trace that `push_call` keeps is not modelled.
- Arrays.Runtime.MakeArray: buffers of strings are not part of the ownership model, which is about cell buffers; multidimensional `array` is left out.
- Arrays.Runtime.Idxr: only the branch for arrays and objects with a number; indexing strings and calling the methods of a hash are left out.
- Clone.Aclone: for arrays that do not contain themselves, and with enough free cells that `oref_new` does not wait for the collector; other threads do not write to the array meanwhile.
- Subset.Builder.Ntod: terminates under the assumption that a state entered by two symbol transitions is an epsilon state, which the NFA builder has to guarantee; growing int arrays are sequences.
- Subset.MeaningPreserved: case folding, the separate table for NUL, REJECT, trailing context, table output and frequency counts are left out, and what nfa.c builds is an assumption (`Nfa.WellFormed`).
- Levenshtein.LevenshteinDistance: ints do not overflow in the model.
- Unwind.Thread.Break: break blocks and the error block, which run arbitrary code, are left out; finally blocks may do anything that leaves the stacks as they found them.
- Base32.Decode: the exception for a foreign character ends the decoding; a handler that lets it go on is not modelled.
- Ordering.Stdcmp: numbers are reals; NaN is left out.
- Ordering.Evaluator.ValueCompare: compare blocks are functions of the two values; what qsort does with the comparator is left out.
- The terminal (but for base64.java), sockets, files, dates, formatting, padding, searching and CRC functions: user interface, foreign calls, or easy.
