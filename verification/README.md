# Dyninst: models and proofs

Dafny models of the algorithmic core of Dyninst, with proofs of what that core promises. Eight components
are modelled.

* **Interval index** (`IBSTypes`, `IBSMarks`, `IBSColors`, `IBSHeight`, `IBSInsert`, `IBSQuery`, `IBSTree`):
  the interval binary search tree, a red-black tree of endpoints whose nodes carry `less`, `equal` and
  `greater` marks. The class `IBSTree` works on a heap of `Node` objects as the C++ does. Its specification is
  a *view*, a map from nodes to their fields, and every lemma is about views. The invariant of the tree is
  local: each node knows the open range of keys its subtree may hold, so a stabbing query at `x` depends only
  on the nodes whose range contains `x`. An interval is *half marked* between `addLeft` and `addRight`: all of
  it is covered except the gap that the fork node's right side will fill. That predicate survives the
  rebalancing between the two walks, which is the heart of the proof of `Insert`.
* **Two-part interval index** (`IBSTreeFast`): intervals that met no other stay in a sorted set, the others in
  the tree.
* **Decoder table** (`Words`, `DecodeMasks`, `DecodeTable`): the generator that compiles instruction masks
  and encodings into a decision tree, and the decoder's walk through it.
* **Reader/writer spin lock** (`RwLock`): one 32-bit word, as atomic steps of any number of threads;
  `RwLockCalls` for what each call comes to and why readers cannot starve a writer.
* **Concurrent hash map** (`HashMapProtocol` for the steps; `HashMapSafety`, `HashMapLinear`, `HashMapCalls`,
  `HashMapProgress` for node lifetime, linearizability, what a call leaves in its accessor and who waits for
  whom, under all interleavings; `HashShard`, `HashMap` for the bucket arrays and chains as one thread sees
  them).
* **Concurrent vector** (`SegVector` for the segment table, `SegVectorReaders` for appends running beside
  lock-free reads).
* **CRC-32** (`Crc`): the register loop, against polynomial division over the field of two elements, for the
  generator of section 8.1.1.6.2 of ITU-T V.42.
* **Barrier and bit set** (`Barrier`, `Bitset`).

Concurrent code is modelled as a state machine: a state holds the shared memory and a program counter for
each thread, a step is one access to shared memory, and a run is any sequence of steps chosen by a scheduler.
Sequential code that updates objects is modelled by classes and loops, with the contents of each object as a
ghost value.

Where the code and its documentation differ, the code is followed. Four promises of the interval indexes are
false of the code; for each there is a failing run and the exact condition under which the promise holds.

* `rightUp` returns the largest key where its comment asks for infinity, so a proper interval that ends at that
  key may be found there although it does not contain it (`IBSTrees.FailsAtTop`). Below the largest key every
  stab is exact; at it, every run over a set of intervals is exact if and only if none of them is proper and
  ends there (`IBSTrees.Run`, `IBSTrees.WorstOrder`).
* An interval whose high end lies below its low end is indexed as a point but never removed
  (`IBSTrees.BackwardStays`); all others are.
* `IBSTree_fast::find` returns as soon as the tree part has something new and looks for no empty interval in the
  sorted part, so it may leave intervals out (`IBSTreesFast.LeavesOneOut`, `IBSTreesFast.EmptyIsLost`);
  `IBSTreesFast.StabIsComplete` and `IBSTreesFast.QueryIsComplete` say exactly when it does not, for any set the
  caller passes in.
* `IBSTree_fast::successor` returns an interval that contains the point if the sorted part has one
  (`IBSTreesFast.SuccessorContains`), and the successor if and only if it has none
  (`IBSTreesFast.IBSTreeFast.Successor`).

One more consequence of the code is worth knowing: a thread that erases a key while its own accessor holds the
element never returns (`HashMapProgress.SelfErase`); short of waiting for accessors the map does not deadlock
(`HashMapProgress.NoDeadlock`).

## Model

| member | source | states |
|---|---|---|
| `IBSTrees.Run` | common/h/IBSTree.h:781-895 | After any run of insertions and removals of intervals with any endpoints: a stab at x returns exactly the live intervals that contain x if x is below the largest key or no live interval is proper and ends there; at the largest key it returns all that contain it and beyond those only live ones that end there, among them any that was the first with an end there; an interval query returns exactly the live intervals sharing a point with it; successor exactly those with the least low end above x. |
| `IBSTrees.WorstOrder` | common/h/IBSTree.h:513-606 | For every list of intervals there is an order in which to insert them that gives the right answer at the largest key if and only if none of them is proper and ends there; `Run` says that then every order does. |
| `IBSTrees.FailsAtTop` | common/h/IBSTree.h:592-606 | The failing call: insert [5, MAX) into an empty tree, look up MAX, and the interval comes back though it does not contain MAX. |
| `IBSTrees.BackwardStays` | common/h/IBSTree.h:742-768 | An interval that runs backwards is still found at its low end after its removal. |
| `IBSTrees.IBSTree.constructor` | common/h/IBSTree.h:258-265 | A new tree is valid and indexes nothing. |
| `IBSTrees.IBSTree.Insert` | common/h/IBSTree.h:781-800 | The live set gains the interval, whatever its endpoints; order, marks, red-black rules and completeness of the marks hold again, whatever rebalancing happened between the two walks; no stabbing result is lost. A proper interval that ends at the largest key is found there if no node held that key. |
| `IBSTrees.IBSTree.AddLeft` | common/h/IBSTree.h:442-511 | The walk to the low end loses no stabbing result and leaves the interval half marked; it disturbs the red-black rules at most at the node it created. |
| `IBSTrees.IBSTree.AddRight` | common/h/IBSTree.h:513-590 | From a half-marked interval the walk to the high end leaves every point of the interval covered and loses no other result. |
| `IBSTrees.IBSTree.LeftUp` | common/h/IBSTree.h:608-621 | Climbing parents gives the nearest smaller key, or the lower sentinel: the lower bound of the node's range. |
| `IBSTrees.IBSTree.RightUp` | common/h/IBSTree.h:592-606 | Climbing parents gives the nearest larger key, or the upper sentinel. |
| `IBSTrees.IBSTree.MoveGreater` | common/h/IBSTree.h:357-381 | The marking loop of the right rotation, as set algebra: what each of the four mark sets holds afterwards. |
| `IBSTrees.IBSTree.MoveLess` | common/h/IBSTree.h:415-439 | The marking loop of the left rotation, as set algebra. |
| `IBSTrees.IBSTree.RightRotate` | common/h/IBSTree.h:317-382 | In place, the tree becomes the rotated view, marks included; without a left child nothing changes. |
| `IBSTrees.IBSTree.LeftRotate` | common/h/IBSTree.h:384-440 | The mirror image. |
| `IBSRotate.RightKeepsShape` | common/h/IBSTree.h:317-344 | Search order, parent links and absence of sharing survive a right rotation. |
| `IBSRotate.LeftKeepsShape` | common/h/IBSTree.h:384-408 | And a left one. |
| `IBSRotate.RightKeepsTruth` | common/h/IBSTree.h:345-382 | Every mark is still true of its node's new key range. |
| `IBSRotate.LeftKeepsTruth` | common/h/IBSTree.h:409-440 | The mirror image, unless the node that rises holds the largest key, which rebalancing never does. |
| `IBSRotate.RightStabs` | common/h/IBSTree.h:317-382 | No stabbing result is lost at any point, and one can be gained only at the pivot's own key. |
| `IBSRotate.LeftStabs` | common/h/IBSTree.h:384-440 | The mirror image. |
| `IBSRotate.RotationsKeepExact` | common/h/IBSTree.h:317-440 | Any rotation of a tree whose marks answer every stab exactly, up to the exception at the largest key, leaves one that does. |
| `IBSRotate.RightKeepsHalf` | common/h/IBSTree.h:317-382 | A half-marked interval stays half marked when a pivot above its low end rotates right. |
| `IBSRotate.LeftKeepsHalf` | common/h/IBSTree.h:384-440 | And when a pivot below its low end rotates left. |
| `IBSMarks.ExactFromMarks` | common/h/IBSTree.h:688-704 | True marks that come from live intervals and cover them make every stab exact, up to the exception at the largest key. |
| `IBSColors.RecolorMovesConflict` | common/h/IBSTree.h:631-636 | A red uncle: recoloring keeps black heights and moves the only red-red conflict to the grandparent. |
| `IBSColors.TurnLeft` | common/h/IBSTree.h:638-641 | Turning an inner conflict outwards moves it to the old parent and breaks nothing else. |
| `IBSColors.TurnRight` | common/h/IBSTree.h:656-659 | The mirror image. |
| `IBSColors.LiftRight` | common/h/IBSTree.h:642-644 | Lifting the parent over the grandparent restores all red-black rules. |
| `IBSColors.LiftLeft` | common/h/IBSTree.h:660-662 | The mirror image. |
| `IBSColors.BlackenRoot` | common/h/IBSTree.h:666-667 | Blackening the root ends a conflict that has reached it. |
| `IBSTrees.IBSTree.FixRound` | common/h/IBSTree.h:627-665 | One round of rebalancing either settles the tree or moves the conflict strictly closer to the root, and keeps shape, marks and half-marked intervals. |
| `IBSTrees.IBSTree.InsertFixup` | common/h/IBSTree.h:623-667 | Ends; all red-black rules hold; no stabbing result and no half-marked interval is lost. |
| `IBSHeight.HeightBound` | common/h/IBSTree.h:623-667 | No node is deeper than 2 log2(n + 1). |
| `IBSInsert.ForkExists` | common/h/IBSTree.h:442-511 | An interval whose low end has a node has a fork node, the top node inside it. |
| `IBSInsert.ForkUnique` | common/h/IBSTree.h:442-511 | It has only one. |
| `IBSInsert.TopPass` | common/h/IBSTree.h:592-606 | The first node a walk to the low end marks is on the right edge of the tree, so its `greater` mark is picked up at the largest key. |
| `IBSInsert.LinkRB` | common/h/IBSTree.h:442-511 | A new red leaf can break only the color rule at itself. |
| `IBSInsert.LeftEnd` | common/h/IBSTree.h:442-511 | At the node of the low end the walk has left the interval half marked. |
| `IBSInsert.RightEnd` | common/h/IBSTree.h:513-590 | At the node of the high end nothing of a half-marked interval is left uncovered. |
| `IBSTrees.IBSTree.Find` | common/h/IBSTree.h:828-837 | Adds all live intervals containing the point and, below the largest key or if no live interval is proper and ends there, nothing else; otherwise only live intervals ending at the largest key besides. Returns how many were new. |
| `IBSTrees.IBSTree.FindOverlapping` | common/h/IBSTree.h:839-848 | Adds exactly the live intervals that share a point with the query, with the same exception for a query that starts at the largest key; for a query that runs backwards, nothing that does not contain its low end. |
| `IBSTrees.IBSTree.Gather` | common/h/IBSTree.h:706-740 | The recursive collection from one subtree: sound for every interval it adds, complete for that subtree. |
| `IBSQuery.TakenOverlap` | common/h/IBSTree.h:723-739 | Whichever test makes the query take a mark set, each interval in it overlaps the query. |
| `IBSQuery.OverlapExact` | common/h/IBSTree.h:706-740 | A gathered result is the union of the stabbing results over the points of the query. |
| `IBSQuery.OverlapsByEndpoints` | common/h/IBSTree.h:706-718 | For proper intervals, sharing a point is the usual comparison of endpoints. |
| `IBSTrees.IBSTree.Successor` | common/h/IBSTree.h:850-895 | Terminates; into an empty set it collects exactly the live intervals with the least low end above x, passing over endpoints that removals left behind; into a non-empty set exactly those that start at the first endpoint node above x, even if that is none. |
| `IBSQuery.NextFound` | common/h/IBSTree.h:850-895 | The intervals starting at the next endpoint node where any start are exactly the successors. |
| `IBSQuery.SuccessorFound` | common/h/IBSTree.h:850-895 | What the node where the traversal stops yields is the answer, for an empty and for a non-empty set. |
| `IBSQuery.NoneFound` | common/h/IBSTree.h:850-895 | When the traversal runs out there is no successor. |
| `IBSTrees.IBSTree.RemoveInterval` | common/h/IBSTree.h:742-768 | Erases marks of this interval only, and leaves in the subtree none that a query consults: the `less` mark of a node at the smallest key and the `greater` mark of one at the largest may stay, and the `equal` mark of an interval that runs backwards does. |
| `IBSTrees.IBSTree.Remove` | common/h/IBSTree.h:802-826 | The live set loses the interval unless it runs backwards, in which case nothing changes at all; no node carries a mark of a removed interval that a query consults, and no other mark changes. |
| `IBSQuery.RemovalKeeps` | common/h/IBSTree.h:742-768 | After the removal of an interval that does not run backwards every other interval is found as before. |
| `IBSQuery.RemovalOfBackward` | common/h/IBSTree.h:742-768 | The removal of an interval that runs backwards leaves every node as it was. |
| `IBSTreesFast.IBSTreeFast.Insert` | common/h/IBSTree-fast.h:104-134 | Where the entry goes, exactly: to the tree if it meets an interval there; nowhere if the first sorted interval ending above its low end counts as equal; to the tree with all its neighbours if it has any in the sorted part; else to the sorted part, which stays sorted and apart. So the stored set gains exactly the entry, or has an equal one. (An empty entry at the largest key may go to the tree because of an interval ending there.) |
| `IBSTreesFast.IBSTreeFast.Remove` | common/h/IBSTree-fast.h:136-150 | The stored set loses exactly this entry, from whichever part held it, and neither part loses anything else; nothing if it runs backwards. |
| `IBSTreesFast.IBSTreeFast.Find` | common/h/IBSTree-fast.h:151-167 | For every set passed in: adds what the tree finds and, if all of that was in the set already, what the sorted part holds with low <= x < high. So into an empty set some interval comes back if and only if some interval of the tree contains x or some interval of the sorted part does with low <= x < high; an empty interval in the sorted part does not count. The exception at the largest key is that of the tree, with bounds for every set. |
| `IBSTreesFast.IBSTreeFast.Sweep` | dyninstAPI/src/function.C:473-475 | Stabbing every address of a range into one set yields exactly the tree's intervals with a point in the range and those of the sorted part with a point in it at which the tree has no interval that contains no earlier address of the range. |
| `IBSTreesFast.IBSTreeFast.FindOverlapping` | common/h/IBSTree-fast.h:169-185 | For every set passed in: adds the tree's intervals that share a point with the query and, if all of those were in the set already, the sorted intervals between the ends of the query. |
| `IBSTreesFast.QueryIsComplete` | common/h/IBSTree-fast.h:169-185 | For all contents and sets: the query misses nothing if and only if the tree, when it holds a missing one, holds all the missing ones, and otherwise no empty interval at the query's start, and no interval starting at an empty query, is missing. |
| `IBSTreesFast.BetweenOrAtStart` | common/h/IBSTree-fast.h:176-182 | Which intervals the sorted part passes over although they share a point with the query. |
| `IBSTreesFast.IBSTreeFast.Successor` | common/h/IBSTree-fast.h:186-205 | Adds one interval: the one of the sorted part that contains x if there is one, otherwise the stored interval with the least low end above x, and nothing if there is none. |
| `IBSTreesFast.TreeNext` | common/h/IBSTree.h:897-911 | The tree's successor: none if no live interval starts above x, else one with the least low end, of several the first by address. |
| `IBSTreesFast.SuccessorContains` | common/h/IBSTree-fast.h:186-205 | With [0, 10) alone in the index, the successor of 5 is [0, 10). |
| `IBSTreesFast.ApartMeansDisjoint` | common/h/IBSTree-fast.h:104-134 | No point lies in two intervals of the sorted part. |
| `IBSTreesFast.ApartInsert` | common/h/IBSTree-fast.h:130-133 | An entry that meets no stored interval keeps them pairwise apart wherever the set order puts it. |
| `IBSTreesFast.WithinIs` | common/h/IBSTree-fast.h:160-166 | In the sorted part only the interval at the upper bound of x can contain x. |
| `IBSTreesFast.NeighboursAre` | common/h/IBSTree-fast.h:117-127 | The stretch of the sorted part that an insertion moves is exactly the entry's neighbours. |
| `IBSTreesFast.StabIsComplete` | common/h/IBSTree-fast.h:156-166 | For all contents of the two parts and every set passed in: a stab completes the set to every stored interval containing x if and only if the tree, when it holds a missing one, holds all the missing ones, and otherwise no empty interval of the sorted part at x is missing. |
| `IBSTreesFast.LeavesOneOut` | common/h/IBSTree-fast.h:111-113 | A run of four insertions after which find(7) returns an interval and leaves out another one that contains 7. |
| `IBSTreesFast.EmptyIsLost` | common/h/IBSTree-fast.h:160-166 | After inserting [5, 5) alone, find(5) returns nothing. |
| `DecodeMasks.ClapseMask` | instructionAPI/aarch64_manual_parser.py:421-428 | The loop packs the encoding bits under the mask into a number, least significant first. |
| `DecodeMasks.Num1sInMask` | instructionAPI/aarch64_manual_parser.py:458-465 | The loop counts the bits of the mask. |
| `DecodeMasks.BranchKey` | instructionAPI/src/InstructionDecoder-aarch64.C:3004-3032 | The decoder, scanning the mask from the other end, computes the same number as the generator. |
| `DecodeMasks.KeyAgree` | instructionAPI/aarch64_manual_parser.py:421-428 | Two words get the same number if and only if they agree under the mask. |
| `DecodeMasks.KeyBound` | instructionAPI/aarch64_manual_parser.py:421-428 | The number is below two to the number of mask bits. |
| `DecodeTable.CommonMask` | instructionAPI/aarch64_manual_parser.py:555-563 | The loop finds the bits that every mask of the list has. |
| `DecodeTable.ScanMask` | instructionAPI/aarch64_manual_parser.py:603-618 | The bit-by-bit scan rebuilds the mask it scans and counts it. |
| `DecodeTable.Partition` | instructionAPI/aarch64_manual_parser.py:636-658 | The branches are the distinct numbers of the list's encodings, and each instruction goes to the sublist of its own number, in order. |
| `DecodeTable.FewestOnes` | instructionAPI/aarch64_manual_parser.py:496-503 | The first instruction of the list with the fewest mask bits is chosen. |
| `DecodeTable.Builder.Build` | instructionAPI/aarch64_manual_parser.py:527-686 | Terminates; writes the given entry and each entry it reserves exactly once and nothing else; places each instruction of the list; a word matching one of them is walked to the leaf that stands for it, and no leaf is reached by a word that disagrees on tested bits. |
| `DecodeTable.Generate` | instructionAPI/aarch64_manual_parser.py:776-793 | The whole table: entries numbered without gaps from 0, all instructions placed. |
| `DecodeTable.FindInsnTableIndex` | instructionAPI/src/InstructionDecoder-aarch64.C:3004-3032 | The decoder's walk returns the index at the leaf the table leads to, or 0 where no branch fits. |
| `DecodeTable.WalkKept` | instructionAPI/aarch64_manual_parser.py:527-686 | Entries written later change no walk inside a finished subtree. |
| `DecodeTable.NodeBuilt` | instructionAPI/aarch64_manual_parser.py:660-686 | Branches that each serve their sublist make a node that serves the list. |
| `DecodeTable.Decodes` | instructionAPI/aarch64_manual_parser.py:776-793 | A word matching instruction i is walked from entry 0 to a leaf whose group contains i; a group of one yields i; a group with a member whose mask is fully tested yields an instruction that matches the word. |
| `DecodeTable.OneLeafEach` | instructionAPI/aarch64_manual_parser.py:527-686 | Every instruction is at exactly one leaf. |
| `DecodeTable.FullyTested` | instructionAPI/aarch64_manual_parser.py:496-503 | If some member's mask is fully tested, so is that of the chosen one, and it is exactly the tested bits. |
| `DecodeTable.AliasExact` | instructionAPI/aarch64_manual_parser.py:496-503 | The instruction the weak solution names is right for every word of an alias if and only if it subsumes the alias. |
| `RwLock.StepKeepsInv` | common/h/concurrent.h:153-233 | Every step of every thread keeps the meaning of the lock word. |
| `RwLock.Exclusion` | common/h/concurrent.h:153-233 | In every reachable state of fewer than 2^30 threads the word is writer bit, pending bit and the count of holding and backing-out readers, without wrap; a writer excludes all others. |
| `RwLock.PendingHasOwner` | common/h/concurrent.h:170-186 | The pending bit is set only while some thread is inside lock(); `RwLockCalls.Announced` says when it must be set. |
| `RwLock.PendingDrains` | common/h/concurrent.h:196-228 | While the bit stays set no reader joins those holding, backing out or about to count themselves in; `RwLockCalls.WriterComesNext` says how long it stays. |
| `RwLock.DrainedIsIdle` | common/h/concurrent.h:170-186 | Once they are gone a waiting writer finds the word idle. |
| `RwLockCalls.Announced` | common/h/concurrent.h:170-186 | A thread that has taken three steps inside lock() while the word stayed busy and no writer entered has the pending bit set, whatever the other threads did. |
| `RwLockCalls.LoadThenAnnounce` | common/h/concurrent.h:181-183 | The step after a load of a busy word without the bit ends with the bit set. |
| `RwLockCalls.PendingStays` | common/h/concurrent.h:173-201 | No step clears the bit but the one that lets a writer in. |
| `RwLockCalls.WriterComesNext` | common/h/concurrent.h:144-146 | Once the bit is set it stays set and no reader joins until a writer enters: a stream of readers cannot starve a writer. |
| `RwLockCalls.CallReturns` | common/h/concurrent.h:170-228 | lock() and lock_shared() return only with the lock. A try returns with it or for a reason: try_lock_shared saw, at some moment of the call, a writer or the bit; try_lock a busy word or one that changed during the call. |
| `RwLockCalls.AloneGranted` | common/h/concurrent.h:170-228 | In every reachable state a call made alone holds the lock after two steps if and only if the word allows it; otherwise a try returns and leaves the state as it was, lock_shared leaves the word alone and lock has set the bit. |
| `RwLockCalls.WaiterEnters` | common/h/concurrent.h:170-216 | A thread already waiting holds the lock within three steps once the word allows it and nobody interferes. |
| `RwLockCalls.Unlocks` | common/h/concurrent.h:196-232 | Unlocking takes this holder out of the word and nothing else; the pending bit stays. |
| `RwLockCalls.ThereAndBack` | common/h/concurrent.h:170-232 | Locking and unlocking alone restores the state, except that an exclusive turn uses up the pending bit. |
| `HashMapSafety.StepKeepsInv` | common/h/concurrent.h:601-776 | Every step of find, insert, release and both erases keeps the invariant of locks, links and pointers. |
| `HashMapSafety.NoUseAfterFree` | common/h/concurrent.h:258-273 | No step of any run touches a freed node, so none is freed twice. |
| `HashMapSafety.FreedIsGone` | common/h/concurrent.h:725-776 | A freed node is unlinked, unlocked and in no thread's hands. |
| `HashMapSafety.FreedByUnlinker` | common/h/concurrent.h:725-776 | A node is freed by the thread that unlinked it, when nobody holds it; that it is freed is in `HashMapCalls.NoneLost` and `HashMapCalls.EraseFrees`. |
| `HashMapSafety.ElementExclusion` | common/h/concurrent.h:239-244 | Whoever holds an element exclusively holds it alone, and a held element is not freed. |
| `HashMapSafety.KeysUnique` | common/h/concurrent.h:632-659 | At no time are two nodes with one key reachable. |
| `HashMapSafety.ShardSectionIsShort` | common/h/concurrent.h:601-659 | A thread holding a shard lock is never blocked: every step it takes brings it closer to letting go. |
| `HashMapLinear.StepLinear` | common/h/concurrent.h:601-776 | A step that settles no answer leaves the map as it is; a step that settles one is a legal call on a plain map, with that answer and that effect. |
| `HashMapLinear.Linearizable` | common/h/concurrent.h:601-776 | In every state of every run the map is what the calls settled so far, one after the other, make of a plain map, with the answers they gave. |
| `HashMapLinear.SettledOnce` | common/h/concurrent.h:601-776 | Between its start and its return every find, insert and erase is settled exactly once, and returns the answer settled then; what it leaves in the accessor is in `HashMapCalls.CallLeaves`. |
| `HashMapCalls.Begins` | common/h/concurrent.h:549-555 | What a thread between calls starts with each request, exactly; release() empties the accessor and does nothing else. |
| `HashMapCalls.CallLeaves` | common/h/concurrent.h:632-776 | A call that returns is the one asked for. find and insert that return an element leave it locked in the accessor in the mode asked for; a find without success and erase(accessor) leave the accessor empty; an erase(accessor) that returns true has freed the node. |
| `HashMapCalls.HoldLasts` | common/h/concurrent.h:520-589 | An accessor keeps what it holds, whatever anyone does, until a call is made on it. |
| `HashMapCalls.NoneLost` | common/h/concurrent.h:258-265 | In every reachable state each node ever made is linked, freed, or in the hands of a thread about to free it; with no erase underway the nodes not freed are the linked ones. |
| `HashMapCalls.EraseFrees` | common/h/concurrent.h:725-776 | An erase that returns true has unlinked exactly one node, the one asked for, and freed it. |
| `HashMapProgress.MovesUnlessWaits` | common/h/concurrent.h:601-776 | A thread inside a call is held up if and only if another holds the shard lock it needs or somebody the element it has unlinked. |
| `HashMapProgress.NoDeadlock` | common/h/concurrent.h:267-273 | If every thread inside a call is held up, each of them is in erase(key) waiting for an accessor; with no accessor in use some thread can move. |
| `HashMapProgress.SelfErase` | common/h/concurrent.h:768-772 | erase(key) by a thread whose own accessor holds the element never returns. |
| `HashMapProgress.CallsEnd` | common/h/concurrent.h:601-776 | A thread whose steps meet no taken lock returns after at most seven of them, whatever others do in between. |
| `HashShards.Search` | common/h/concurrent.h:381-389 | Finds the node of a key, and null only if the shard has none. |
| `HashShards.BucketIs` | common/h/concurrent.h:370-379 | With a power of two of buckets, the bucket of a hash is the hash divided by 64, modulo their number. |
| `HashShards.NoFolding` | common/h/concurrent.h:330-335 | At the cap, different 32-bit hashes of one shard never share a bucket. |
| `HashShards.GrowLocked` | common/h/concurrent.h:391-416 | The array doubles up to 2^26 buckets, or becomes 4; the shard holds the same nodes, each once, in the chain its hash selects. |
| `HashShards.Relink` | common/h/concurrent.h:400-411 | The double loop moves every node once, although it overwrites the links it walks along. |
| `HashShards.LinkLocked` | common/h/concurrent.h:436-444 | Adds one node; the array grows if and only if there were as many elements as buckets; afterwards there are no more elements than buckets, unless the array is at its cap. |
| `HashShards.EraseKey` | common/h/concurrent.h:755-768 | Unlinks the node with the key, or nothing. |
| `HashShards.EraseNode` | common/h/concurrent.h:730-742 | Unlinks this very node if the shard holds it, and reports whether it did. |
| `HashShards.RehashShard` | common/h/concurrent.h:795-803 | The array reaches the requested number of buckets, is not grown beyond need and never shrinks; the nodes stay the same. |
| `HashMaps.HashMap.Find` | common/h/concurrent.h:662-680 | Finds the element of a key if and only if the key is present. |
| `HashMaps.HashMap.Insert` | common/h/concurrent.h:632-659 | Creates an element if and only if the key was absent; other elements are untouched. |
| `HashMaps.HashMap.Erase` | common/h/concurrent.h:751-776 | Removes the element of the key if and only if it is present. |
| `HashMaps.HashMap.EraseElement` | common/h/concurrent.h:725-749 | Removes this element by identity. |
| `HashMaps.HashMap.Rehash` | common/h/concurrent.h:787-804 | A capacity hint: contents unchanged, every shard grown as far as asked and not beyond need; nothing for a hint that is not positive. |
| `HashMaps.HashMap.Size` | common/h/concurrent.h:778-785 | The sum of the shard counts, narrowed to 32 bits: the number of keys if and only if that is below 2^31. |
| `HashMaps.Iterator.Begin` | common/h/concurrent.h:854-857 | Starts with every element still to visit. |
| `HashMaps.Iterator.Seek` | common/h/concurrent.h:839-852 | Finds the next occupied bucket across shards, skipping nothing. |
| `HashMaps.Iterator.Next` | common/h/concurrent.h:865-874 | What is left to visit loses its first element. |
| `HashMaps.VisitsEachOnce` | common/h/concurrent.h:839-874 | From begin to end every element is visited, and only once. |
| `HashMaps.Run` | common/h/concurrent.h:632-804 | After any run of insertions, erasures by key and through an accessor, and rehashes, a lookup and a full traversal give what a plain map gives. |
| `SegVectors.SegmentIs` | common/h/concurrent.h:955-965 | An index is in a segment if and only if it lies between that segment's base and the next. |
| `SegVectors.SlotsAreIndices` | common/h/concurrent.h:955-965 | Indices correspond one to one to slots within the segments. |
| `SegVectors.Capacity` | common/h/concurrent.h:987-990 | The capacity check fires exactly from 2^42 elements on. |
| `SegVectors.SegVector.ReserveSlot` | common/h/concurrent.h:987-1012 | The segments allocated stay a prefix; nothing moves and no contents change. |
| `SegVectors.SegVector.Append` | common/h/concurrent.h:1016-1025 | The contents gain one element at the end, in bare memory, and every segment stays where it is; at capacity nothing changes. |
| `SegVectors.SegVector.Reset` | common/h/concurrent.h:1028-1048 | Every element is destroyed, and only then every segment given back, once. |
| `SegVectors.SegVector.FreeSegments` | common/h/concurrent.h:1034-1043 | Stopping at the first null pointer misses no segment. |
| `SegVectors.SegVector.Adopt` | common/h/concurrent.h:1053-1066 | Contents and addresses move over; the source is left bare. |
| `SegVectors.SegVector.Swap` | common/h/concurrent.h:1194-1202 | Contents and addresses are exchanged. |
| `SegVectors.SegVector.Resize` | common/h/concurrent.h:1183-1192 | Truncates or pads; fails exactly above capacity, leaving a full vector. |
| `SegVectors.SegVector.PopBack` | common/h/concurrent.h:1174-1181 | Drops the last element and no storage. |
| `SegVectors.SegVector.At` | common/h/concurrent.h:1146-1155 | The element, or an error for an index not below the size. |
| `SegVectors.SegVector.Get` | common/h/concurrent.h:979-983 | Locates and reads an element that exists. |
| `SegVectorReaders.StepKeepsInv` | common/h/concurrent.h:979-1025 | Every step of appenders and readers keeps the invariant, and elements once published never change. |
| `SegVectorReaders.NeverFaults` | common/h/concurrent.h:979-1025 | No reader using an index below a size it saw meets a null pointer or an unconstructed element, and no append builds over an element. |
| `SegVectorReaders.ReadsAreFinal` | common/h/concurrent.h:1138-1144 | What a reader got is at that index in every later state. |
| `SegVectorReaders.SizeCountsElements` | common/h/concurrent.h:1016-1025 | The indices below the size hold elements; at most one element more exists, the one being appended; which values they are is in `SegVectorReaders.HoldsWhatWasAppended`. |
| `SegVectorReaders.HoldsWhatWasAppended` | common/h/concurrent.h:1016-1025 | In every state of every run the elements below the size are the values given to append, in the order in which the calls got the lock: all of them up to the capacity, but the one still on its way. |
| `SegVectorReaders.ReadsWhatWasAppended` | common/h/concurrent.h:979-983 | What a reader got from index i is the value of the append with that number. |
| `SegVectorReaders.ReadCompletes` | common/h/concurrent.h:904-917 | A reader that looks at the size and then asks for an index below it has that append's value with its next three steps, whatever appenders do meanwhile. |
| `SegVectorReaders.AppendCompletes` | common/h/concurrent.h:987-1025 | An append that has the lock returns with its sixth step, whatever others do meanwhile. |
| `Crc.Crc32.constructor` | dyncompat/crc.hpp:11-13 | The register starts as the remainder of the empty message. |
| `Crc.Crc32.Reset` | dyncompat/crc.hpp:13-13 | So it does after a reset. |
| `Crc.Crc32.ProcessBytes` | dyncompat/crc.hpp:15-24 | The register holds the remainder of everything processed so far, old and new bytes joined. |
| `Crc.Crc32.Checksum` | dyncompat/crc.hpp:26-26 | The checksum is the complement of the one and only remainder of the message polynomial. |
| `Crc.GeneratorTerms` | dyncompat/crc.hpp:20-21 | The constant stands for the standard's generator polynomial. |
| `Crc.ShiftCancels` | dyncompat/crc.hpp:20-21 | A shift of the register is one step of long division. |
| `Crc.ByteStep` | dyncompat/crc.hpp:18-18 | Adding a byte to the register extends the dividend by that byte. |
| `Polynomials.CancelKeepsRemainder` | dyncompat/crc.hpp:19-22 | A long-division step changes no remainder. |
| `Polynomials.RemainderOfPrefix` | dyncompat/crc.hpp:15-24 | What is divided already may be replaced by its remainder. |
| `Polynomials.BurstChangesRemainder` | dyncompat/crc.hpp:15-24 | Dividends that differ only in a window shorter than the generator have different remainders. |
| `Crc.ChecksumUnique` | dyncompat/crc.hpp:15-26 | A message has one checksum. |
| `Crc.ChecksumOfParts` | dyncompat/crc.hpp:15-26 | Any cutting of a message into calls gives the checksum of the whole. |
| `Crc.BurstDetected` | dyncompat/crc.hpp:15-26 | Messages of equal length that differ only within four consecutive bytes have different checksums. |
| `Barrier.StepKeepsInv` | dyncompat/dyninst_thread_compat.hpp:66-79 | Every step keeps the tally of arrivals and completed rounds. |
| `Barrier.FalseAfterFullRound` | dyncompat/dyninst_thread_compat.hpp:77-78 | wait() returns false only after all arrivals of the caller's own round: `threshold` of them, or 2^32 if the threshold is 0. |
| `Barrier.SomeTrue` | dyncompat/dyninst_thread_compat.hpp:70-75 | Every completed round gives true to some thread. |
| `Barrier.AtMostOneTrue` | dyncompat/dyninst_thread_compat.hpp:70-75 | And only once. |
| `Barrier.WakesUnlessWrapped` | dyncompat/dyninst_thread_compat.hpp:77-77 | A waiter that is woken leaves if and only if the rounds completed since it arrived are not a multiple of 2^32. |
| `Bitsets.Bitset.constructor` | dyncompat/dynamic_bitset.hpp:41-48 | The set of the bits of the value that are below the size. |
| `Bitsets.Bitset.Set` | dyncompat/dynamic_bitset.hpp:62-71 | Adds or removes one member. |
| `Bitsets.Bitset.SetAll` | dyncompat/dynamic_bitset.hpp:56-60 | All numbers below the size. |
| `Bitsets.Bitset.ResetAll` | dyncompat/dynamic_bitset.hpp:73-76 | The empty set. |
| `Bitsets.Bitset.Test` | dyncompat/dynamic_bitset.hpp:82-85 | Membership. |
| `Bitsets.Bitset.Count` | dyncompat/dynamic_bitset.hpp:87-96 | The number of members. |
| `Bitsets.Bitset.OrWith` | dyncompat/dynamic_bitset.hpp:98-105 | Union, in place, also with itself. |
| `Bitsets.Bitset.AndWith` | dyncompat/dynamic_bitset.hpp:107-113 | Intersection; needs no trimming. |
| `Bitsets.Bitset.XorWith` | dyncompat/dynamic_bitset.hpp:115-122 | Symmetric difference. |
| `Bitsets.Bitset.MinusWith` | dyncompat/dynamic_bitset.hpp:139-142 | Difference. |
| `Bitsets.Bitset.Complement` | dyncompat/dynamic_bitset.hpp:144-150 | Complement within the numbers below the size. |
| `Bitsets.Bitset.Equals` | dyncompat/dynamic_bitset.hpp:152-154 | Equal sizes and blocks are equal sets. |
| `Bitsets.Bitset.TrimUnusedBits` | dyncompat/dynamic_bitset.hpp:193-201 | Clears the bits from the size on and no other. |

## Left out

- IBSTrees.IBSTree.FindOverlapping: for a query that runs backwards only soundness is stated; what it leaves out depends on which endpoints have nodes.
- IBSTreesFast.IBSTreeFast.Insert: entries that run backwards are excluded; the sorted part could not keep its order with them.
- IBSTrees.IBSTree.AddLeft: the new endpoint node is hung after the walk instead of inside it, which is where the walk ends anyway.
- IBSTrees.IBSTree.AddRight: likewise.
- DecodeTable.FewestOnes: the sort of the alias list is modelled by its only use, the first of the instructions with the fewest mask bits.
- DecodeMasks.BranchKey: the decoder shifts by a running index; the model shifts once per iteration.
- DecodeTable.FindInsnTableIndex: the index 0 returned for a word no instruction matches is stated, not judged.
- HashMaps.HashMap.EraseElement: an accessor holds a node the map made, so its cached hash is assumed to be the hash of its key.
- HashShards.Search: chains are followed through `next` pointers in the heap; the bucket array is a sequence of heads that is replaced, not an array updated in place.
- SegVectors.SegVector.Append: the append lock is not part of the sequential model; appends racing with reads are in `SegVectorReaders`.
- HashMapLinear.Linearizable: calls are settled in the order of their deciding steps; values stored in elements are not part of it, since callers write them under the element lock.
- The tree's `dyn_rwlock`, and with it concurrent use of the interval indexes: operations are taken one at a time.
- C++ memory orders, backoff, spin hints, yields and Valgrind annotations: steps interleave atomically.
- Allocation failure and exceptions other than the vector's capacity and range errors.
- `clear`, copying, assignment and destruction of the tree and the hash map; `CountMarks` and printing.
- The 32-bit `treeSize` of the tree beyond counting nodes.
- The strict solution to aliases and the guard against more than 2^32 entries in the table generator.
- The XML front end of the generator and the C++ text it prints.
- IBSTreesFast.TreeNext: the debug assertion that no two intervals share the successor's low end is not modelled; the first by address is taken, as without it.
- IBSTreesFast.IBSTreeFast.FindOverlapping: for a query that runs backwards, and an empty one at the largest key beside intervals ending there, only soundness is stated, as for the tree.
- The quality of the hash: any function from keys to 32-bit values is allowed.
- `const_accessor` and `accessor` as C++ types: in the protocol they are holds in shared or exclusive mode.
- `operator|`, `operator&`, `operator^` on bit sets, which copy and then call the in-place forms, and blocks of widths other than 64.
- Thread-local storage, address translation, file mapping, system-call tables and instruction field accessors: tables and plumbing without a law of their own.
