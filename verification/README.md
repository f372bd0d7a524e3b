# Verified models of a portable system library

The library is a C toolkit of containers, synchronisation, shared memory, hashes and
threads. This project models its most intricate parts in Dafny and proves what they
promise, for every input, every run and every interleaving:

- **Search trees** (`Trees`, `SortedList`, `TreeStore`, `Rotations`, `RbTree`, `AvlTree`,
  `BstTree`, `Heights`, `Traversal`, `PTree`). Nodes are cells of a heap reached through
  pointers; freeing removes the cell, so touching freed memory is a proof failure. A
  ghost tree taken apart at a node (a path and a subtree) says what the heap holds in
  the middle of rotations, fix-ups and the threaded traversal. All three tree types
  refine one sorted list, and that list a finite map.
- **Read-write lock** (`RwLock`). A step machine over any fewer than 2^15 threads: one
  step is one critical section, waiting threads may wake without being notified, a
  signal releases at least one sleeper if there is one.
- **Shared ring buffer** (`ShmBuffer`, `ShmProtocol`). The code over the segment, and a
  step machine of any processes with one memory access per step that refines an atomic
  bounded queue.
- **Hashes** (`Absorb`, `Words`, `CountedHash`, `Sponge`, `Keccak`, `Lanes`, `Sha1`, `Sha2`,
  `Sigma`, `Roots`, `Fips180`, `GostSum`, `GostHash`, `GostChunks`, `GostMix`, `CryptoHash`,
  `HashTypes`). Chunked hashing against one-shot hashing of the padded message with the
  compression function as a parameter, for chunks of any length; the optimised inner forms
  against the standards; what the words, constants and bytes that both sides share are, by
  bits, roots and positions; and the open/closed wrapper with these contexts behind it,
  over any run of calls.
- **Thread protocols** (`UThread`, `TlsKey`). The create handshake with reference counts
  over a compare-and-exchange spinlock, and the lock-free publication of a thread-local
  key, as step machines over any number of threads.

Some things that one might expect do not hold of the code. For each the project gives an
input that fails and says exactly when the code is right:

- The 256-bit sum of the GOST hash is addition only while no limb below the top has both
  operands all ones with a carry coming in (`GostSum.SumIsExactIff`; it fails for
  `GostHash.OnesMessageHasWrongSum`). So the hash is the standard's exactly when these
  losses cancel, which below 2^36 - 32 bytes means that there are none
  (`GostHash.HashIsStandardIff`).
- The length of a chunk is cast to 32 bits in MD5, SHA-1, SHA-224/256 and GOST. Within the
  standard's limit on the number of bits the counting hashes are right exactly when every
  chunk is below 2^32 bytes (`CountedHash.ChunksHashIff`; it fails for
  `CountedHash.LongChunkHashesWrong`), and below 2^61 bytes GOST is right exactly when the
  test whether the buffered block fills up answers right (`GostChunks.ChunksHashIff`; it
  fails for `GostChunks.LongChunkLosesByte`). Both lemmas also say what holds beyond.
- The destroy callbacks of a tree's remove get the removed pair exactly when its node has
  fewer than two children (`TreeStore.VictimIsRemoved`; it fails for
  `TreeStore.RemoveDestroysLivePair`, and in the runs of `PTree.DestroyLivePair`). The
  number of calls is right all the same (`PTree.Run`).

`dafny verify dfyconfig.toml` checks everything.

How the model reads the source:

- Pointers are natural numbers with 0 for NULL; a node's colour or balance factor is its
  mark; keys carry an integer rank that the comparator looks at (`SortedList.RanksRepresent`
  says why that loses nothing).
- Steps of the protocols are sequentially consistent.
- Words are bounded naturals or bit-vectors; shifts and masks of the length counters are
  written as multiplication, division and remainder by powers of two.
- Byte-order swapping before a block is processed is the order in which words are read
  from bytes. The swapped block that the source leaves in its buffer is kept, for either
  byte order of the host: an update whose fill test errs reads it again. SHA-3 never
  does, so its swapped block is not kept.
- The repeated round macros of SHA-1 are written once for each five rounds, those of
  SHA-2 once for each eight, with the same argument order.

## Model

| member | source | states |
|---|---|---|
| `PTree.Run` | src/lib/ptree.c:124-290 | Any sequence of insert, remove, lookup, traverse and clear on a fresh tree of any of the three types, with or without either destroy callback, gives exactly the answers of one reference list, ends balanced for its type, counts as many nodes as the finite map has keys, and squares its ledger: pairs handed in less pairs kept are the calls of each callback given, nodes created less nodes kept are the frees |
| `PTree.Do` | src/lib/ptree.c:124-290 | One operation: the reference list's new contents and answer, and a ledger that still squares |
| `PTree.EffectIsMap` | src/lib/ptree.c:124-191 | The reference list stays sorted and each operation on it is the finite-map update, removal or lookup; its length is the map's size |
| `PTree.RunSorted` | src/lib/ptree.c:124-165 | The reference list is sorted after every sequence of operations |
| `PTree.SearchTree.constructor` | src/lib/ptree.c:77-122 | A new tree is empty, valid for its type, with its own memory |
| `PTree.SearchTree.Insert` | src/lib/ptree.c:124-144 | Insert puts or replaces the pair in the sorted contents, keeps order, balance, exact memory and the node count, for all three types; the destroy callbacks see exactly the replaced pair, if there is one |
| `PTree.SearchTree.Remove` | src/lib/ptree.c:146-165 | Remove deletes the key's pair, answers whether it was there, keeps everything valid, frees exactly one node of the old tree and no other cell, and logs which pair the destroy callbacks saw |
| `PTree.DestroyLivePair` | src/lib/ptree.c:124-165 | A run of either balanced type on any three pairs: after the middle key is removed the callbacks have got the first pair, which the tree still holds |
| `PTree.MiddleIsTop` | src/lib/ptree-rb.c:146-230 | A balanced tree of three pairs has the middle one on top |
| `PTree.SearchTree.Lookup` | src/lib/ptree.c:167-191 | Lookup returns the stored value or NULL and compares once for each node on the key's search path; these comparisons k satisfy 2^k <= (n+1)^2 in a red-black and Fib(k+2) <= n+1 in an AVL tree of n nodes |
| `PTree.SearchTree.Search` | src/lib/ptree.c:177-190 | The search loop finds the key's value and compares exactly as often as the key's search path has nodes, at most as often as the tree is high |
| `PTree.SearchTree.HeightBounds` | src/lib/ptree.c:179-188 | In every valid tree a path of k nodes obeys the type's logarithmic bound in the node count |
| `PTree.SearchTree.Foreach` | src/lib/ptree.c:193-248 | Traversal through the public tree: the calls are the contents up to the first stop, and no cell changes |
| `PTree.SearchTree.Clear` | src/lib/ptree.c:250-290 | Clear through the public tree: no cell left, node count 0, every node destroyed and freed once in key order |
| `SortedList.PutIsUpdate` | src/lib/ptree-rb.c:370-391 | Putting into a sorted list is updating the finite map at the key |
| `SortedList.DelIsRemoval` | src/lib/ptree-rb.c:415-478 | Deleting from a sorted list is removing the key from the finite map |
| `SortedList.GetIsLookup` | src/lib/ptree.c:179-190 | Reading a sorted list is looking up the finite map |
| `SortedList.LengthIsSize` | src/lib/ptree.c:142-143 | A sorted list is as long as its finite map has keys |
| `SortedList.MapDeterminesList` | src/lib/ptree.c:124-165 | Two sorted lists with the same finite map are equal, so the in-order sequence does not depend on the tree type |
| `SortedList.RanksRepresent` | src/lib/ptree.c:180-185 | On any finite set of keys a comparator that is a total preorder answers with the sign of a difference of integer ranks, which justifies keys that carry a rank |
| `TreeStore.Store.Find` | src/lib/ptree-rb.c:353-368 | The descent stops at the node with the key, or at the empty link where it belongs, with smaller keys before and larger ones after, and returns that link |
| `TreeStore.Store.Graft` | src/lib/ptree-rb.c:384-391 | A new node with this key, value and mark is linked at the empty link and to its parent; nothing else changes |
| `TreeStore.Store.Overwrite` | src/lib/ptree-rb.c:370-382 | The found node's pair is destroyed by the callbacks and replaced in place |
| `TreeStore.Store.Predecessor` | src/lib/ptree-rb.c:430-433 | The loop ends at the last node of the left subtree |
| `TreeStore.Store.Select` | src/lib/ptree-rb.c:429-440 | With two children the predecessor's pair is copied up and the predecessor becomes the node to unlink; shape and the other pairs stay; the chosen node has at most one child |
| `TreeStore.Store.HandOver` | src/lib/ptree-rb.c:429-440 | A node with two children takes its predecessor's pair; the predecessor, which has no right child, is the node to unlink; without it the contents are those without the node |
| `TreeStore.Store.Unlink` | src/lib/ptree-rb.c:447-462 | The node is replaced by its only child, through the parent or the root, with the child's parent link set |
| `TreeStore.Store.UnlinkAt` | src/lib/ptree-bst.c:123-123 | The node is replaced by its only child through the link that was followed to it |
| `TreeStore.Store.Discard` | src/lib/ptree-rb.c:468-475 | The callbacks see the unlinked node's pair and its memory is freed once |
| `TreeStore.VictimIsRemoved` | src/lib/ptree-rb.c:429-473 | The destroy callbacks of remove get the removed pair if and only if its node has fewer than two children; otherwise they get a pair that is still in the tree |
| `TreeStore.RemoveDestroysLivePair` | src/lib/ptree-rb.c:429-473 | An input where it fails: removing the middle of three keys gives the callbacks the smallest key's pair, which stays in the tree |
| `TreeStore.GraftIsPut` | src/lib/ptree-rb.c:384-391 | Linking a new node where the search stopped inserts its pair in the sorted contents, which did not have the key |
| `TreeStore.FoundIs` | src/lib/ptree-rb.c:371-379 | At the node where the search found the key: its pair is what the contents hold, replacing it is putting, dropping it is deleting |
| `RbTree.RbThroughZipper` | src/lib/ptree-rb.c:146-338 | A tree taken apart at any node is a red-black tree if and only if the subtree is one and the path around it takes a subtree of that black height and colour |
| `RbTree.RotateLeft` | src/lib/ptree-rb.c:92-117 | Left rotation in place: the heap then holds the rotated tree, all child, parent and root links right |
| `RbTree.RewireLeft` | src/lib/ptree-rb.c:97-116 | The pointer writes of the left rotation, cell by cell |
| `RbTree.HangInstead` | src/lib/ptree-rb.c:99-104 | The link from above goes to the rotated child |
| `RbTree.LowerLeft` | src/lib/ptree-rb.c:106-116 | The node goes under its right child, whose left subtree it takes over; the root follows |
| `RbTree.RotateRight` | src/lib/ptree-rb.c:119-144 | Right rotation in place: the heap then holds the rotated tree, all child, parent and root links right |
| `RbTree.RewireRight` | src/lib/ptree-rb.c:124-143 | The pointer writes of the right rotation, cell by cell |
| `RbTree.LowerRight` | src/lib/ptree-rb.c:133-143 | The node goes under its left child, whose right subtree it takes over; the root follows |
| `RbTree.Grandparent` | src/lib/ptree-rb.c:66-81 | Under a red parent the grandparent exists and is black, so every dereference in the insert fix-up is safe |
| `RbTree.Uncle` | src/lib/ptree-rb.c:72-81 | The uncle that the source computes is the other child of the grandparent |
| `RbTree.FlipColors` | src/lib/ptree-rb.c:166-182 | Case 3: after the colour flip the grandparent is the only pending red node |
| `RbTree.RotateOutLeft` | src/lib/ptree-rb.c:184-212 | Cases 4a and 5a end with a red-black tree that reads the same |
| `RbTree.RotateOutRight` | src/lib/ptree-rb.c:213-228 | Cases 4b and 5b end with a red-black tree that reads the same |
| `RbTree.BalanceInsert` | src/lib/ptree-rb.c:146-230 | The insert fix-up terminates and turns a tree with one pending red node into a red-black tree with the same contents |
| `RbTree.SiblingExists` | src/lib/ptree-rb.c:242-275 | Next to a subtree that is one black node short the sibling exists, and its children are as high as the fix-up needs |
| `RbTree.RaiseRedSibling` | src/lib/ptree-rb.c:244-263 | Case 2: after rotating at the parent the shortage is the same and the sibling is black |
| `RbTree.FlipSibling` | src/lib/ptree-rb.c:274-285 | Case 3: the shortage moves to the parent, or a red parent absorbs it |
| `RbTree.TurnSibling` | src/lib/ptree-rb.c:298-314 | Case 4: after rotating at the sibling the far nephew is red and the shortage is the same |
| `RbTree.PayShortage` | src/lib/ptree-rb.c:325-334 | Case 5: recolouring and rotating at the parent removes the shortage |
| `RbTree.BalanceRemoveRound` | src/lib/ptree-rb.c:237-337 | One pass of the remove loop ends the shortage or moves it one level up |
| `RbTree.BalanceRemove` | src/lib/ptree-rb.c:232-338 | The remove fix-up, run before the leaf is unlinked, terminates and leaves a tree that is red-black once that leaf is gone, with the same contents |
| `RbTree.Insert` | src/lib/ptree-rb.c:340-397 | Insert yields a red-black tree whose contents are the old ones with the pair put; the result says whether the key was new; only a replaced pair is destroyed |
| `RbTree.Bypass` | src/lib/ptree-rb.c:447-466 | Unlinking a node with one child and repainting the child keeps the black height |
| `RbTree.RemoveSelected` | src/lib/ptree-rb.c:442-466 | From the chosen node on: fix-up, unlink and repaint yield a red-black tree without that node |
| `RbTree.Remove` | src/lib/ptree-rb.c:399-478 | Remove yields a red-black tree whose contents lack the key; the result says whether it was there; exactly one node of the old tree is freed and all other cells stay |
| `AvlTree.AvlThroughZipper` | src/lib/ptree-avl.c:186-336 | A tree taken apart at any node is an AVL tree with true balance factors if and only if the subtree is one and the path around it takes its height |
| `AvlTree.RotateLeft` | src/lib/ptree-avl.c:42-65 | Left rotation in place with the source's balance-factor arithmetic |
| `AvlTree.RotateRight` | src/lib/ptree-avl.c:67-90 | Right rotation in place with the source's balance-factor arithmetic |
| `AvlTree.RotateLeftRight` | src/lib/ptree-avl.c:92-137 | Left-right rotation in place; the three balance factors are those of the rotated tree |
| `AvlTree.RotateRightLeft` | src/lib/ptree-avl.c:139-184 | Right-left rotation in place; the three balance factors are those of the rotated tree |
| `AvlTree.RotateIn` | src/lib/ptree-avl.c:197-259 | The rotation that the insert fix-up picks |
| `AvlTree.RebalancedFits` | src/lib/ptree-avl.c:198-259 | After that rotation the subtree is AVL and as high as before the insertion |
| `AvlTree.BalanceInsert` | src/lib/ptree-avl.c:186-271 | The insert fix-up terminates; every stored balance factor is again height(left) - height(right) in {-1, 0, 1}, and the contents are the same |
| `AvlTree.NephewExists` | src/lib/ptree-avl.c:286-321 | When the remove fix-up rotates, the sibling and the nephew it dereferences exist |
| `AvlTree.SingleLevelFits` | src/lib/ptree-avl.c:300-324 | A rotation over an even sibling ends the shortage, so the break is right |
| `AvlTree.SingleShrinks` | src/lib/ptree-avl.c:294-298 | A rotation over a sibling that leans away leaves the subtree one lower |
| `AvlTree.DoubleShrinks` | src/lib/ptree-avl.c:291-293 | A double rotation leaves the subtree one lower |
| `AvlTree.BalanceRemoveRound` | src/lib/ptree-avl.c:281-334 | One pass of the remove loop ends the shortage or moves it up one or two levels |
| `AvlTree.BalanceRemove` | src/lib/ptree-avl.c:273-336 | The remove fix-up terminates and repairs all balance factors, whether it runs before a leaf is unlinked or after a single child has been relinked |
| `AvlTree.Insert` | src/lib/ptree-avl.c:338-395 | Insert yields an AVL tree whose contents are the old ones with the pair put |
| `AvlTree.RemoveSelected` | src/lib/ptree-avl.c:440-463 | From the chosen node on: the fix-up before or after the unlinking yields an AVL tree without that node |
| `AvlTree.Remove` | src/lib/ptree-avl.c:397-475 | Remove yields an AVL tree whose contents lack the key; exactly one node of the old tree is freed and all other cells stay |
| `BstTree.Insert` | src/lib/ptree-bst.c:29-74 | Insert puts the pair into the sorted contents |
| `BstTree.RemoveSelected` | src/lib/ptree-bst.c:108-123 | The chosen node is unlinked through the link that leads to it |
| `BstTree.Remove` | src/lib/ptree-bst.c:76-134 | Remove deletes the key from the sorted contents; exactly one node of the old tree is freed and all other cells stay |
| `Heights.RbHeight` | src/lib/ptree-rb.c:146-338 | A red-black tree with n nodes and height h has 2^h <= (n+1)^2, that is h <= 2 log2(n+1) |
| `Heights.AvlHeight` | src/lib/ptree-avl.c:186-336 | An AVL tree of height h has at least Fib(h+2) - 1 nodes |
| `Traversal.Foreach` | src/lib/ptree.c:193-248 | Morris traversal terminates, calls the callback on the in-order sequence up to and including the first stop, and on every exit each pointer is exactly as before |
| `Traversal.CallsArePrefix` | src/lib/ptree.c:215-236 | The calls are a prefix of the in-order sequence: every call but the last asked to go on, and if the sequence was not exhausted the last one asked to stop |
| `Traversal.StepRight` | src/lib/ptree.c:214-220 | A node without a left child is visited and the walk goes right, along a real link or a thread |
| `Traversal.StepDown` | src/lib/ptree.c:227-231 | The first arrival threads the predecessor back to the node and goes left |
| `Traversal.StepBack` | src/lib/ptree.c:232-241 | The second arrival removes the thread, visits and goes right |
| `Traversal.FreeFirst` | src/lib/ptree.c:263-275 | The first node in key order is destroyed, freed and never read again |
| `Traversal.PushRight` | src/lib/ptree.c:276-286 | The node is hung under the last node of its left subtree, which keeps the order of the nodes that are left |
| `Traversal.Clear` | src/lib/ptree.c:250-290 | Clear terminates by nodes left and nodes off the right spine; each node is destroyed and freed exactly once in key order, no freed node is touched, the count drops by the size |
| `RwLock.FieldsAreApart` | src/tmp/prwlock-general.c:33-36 | Writing one packed 15-bit count reads back and leaves the other count and the spare bits alone |
| `RwLock.Inc` | src/tmp/prwlock-general.c:93-94 | Adding one to a packed field adds one to the number it stands for, below 2^15 - 1 |
| `RwLock.CriticalFaithful` | src/tmp/prwlock-general.c:77-297 | Every critical section changes the packed words as it changes the four true counts |
| `RwLock.CountsStep` | src/tmp/prwlock-general.c:77-297 | The packed fields stay equal to the true numbers of threads of each kind over a step |
| `RwLock.StaysExclusive` | src/tmp/prwlock-general.c:77-297 | A step keeps at most one writer and never a writer with a reader |
| `RwLock.WriterToWaitFor` | src/tmp/prwlock-general.c:92-103 | After a step every un-notified sleeping reader has an active or a waiting writer |
| `RwLock.UnlockNotifies` | src/tmp/prwlock-general.c:173-289 | The unlock that leaves the lock free and wanted has notified a waiter |
| `RwLock.OthersLeaveItHeld` | src/tmp/prwlock-general.c:77-260 | Every step but an unlock leaves the lock held by someone |
| `RwLock.ReachableIsSafe` | src/tmp/prwlock-general.c:77-297 | In every state that fewer than 2^15 threads can reach, in any interleaving and with spurious wake-ups: exact packed counts, exclusion, no lost wake-up, and a reason for every un-notified reader |
| `RwLock.TrylockIsExact` | src/tmp/prwlock-general.c:121-260 | In every reachable state a reader's trylock succeeds if and only if no writer is active, a writer's if and only if nobody is |
| `RwLock.StepsAreExact` | src/tmp/prwlock-general.c:77-297 | Every step in every reachable state does exactly this: a reader's lock, wake-up or trylock gets in if and only if no writer is inside, a writer's if and only if nobody is, waiting writers hold nobody up; the last reader's unlock and a writer's unlock notify a sleeping writer if one waits, a writer's unlock else all sleeping readers, and nothing else notifies anybody |
| `RwLock.HolderCanUnlock` | src/tmp/prwlock-general.c:158-289 | A holder can always unlock |
| `RwLock.NotifiedWaiterEnters` | src/tmp/prwlock-general.c:96-224 | In every reachable state where the lock is free and wanted, some notified waiter exists and gets in when it runs |
| `Ring.UsedPlusFree` | src/lib/pshmbuffer.c:46-82 | Used and free space add up to size - 1, and used space is below the size |
| `Ring.TakeFirst` | src/lib/pshmbuffer.c:189-198 | Advancing the read position takes the oldest bytes off the queue that the segment holds |
| `Ring.WriteBehind` | src/lib/pshmbuffer.c:245-248 | A byte copied behind the queue leaves the queue alone |
| `Ring.AppendLast` | src/lib/pshmbuffer.c:245-251 | Once the bytes lie behind the queue, advancing the write position appends them |
| `ShmBuffer.Buffer.Read` | src/lib/pshmbuffer.c:149-204 | Read in place on the ring: the oldest bytes, as many as asked for or all there are, taken off the queue; the error for length 0 |
| `ShmBuffer.Buffer.Write` | src/lib/pshmbuffer.c:206-257 | Write in place on the ring: all bytes behind the queue if they fit in size - 1, otherwise none and 0; the error for length 0 |
| `ShmBuffer.Buffer.Clear` | src/lib/pshmbuffer.c:309-334 | Clear zeroes the segment, which then holds the empty queue |
| `ShmProtocol.AccessRefines` | src/lib/pshmbuffer.c:46-334 | Every single memory access of a lock holder, one load or one store, leaves the atomic queue alone or performs the whole operation on it |
| `ShmProtocol.InvStep` | src/lib/pshmbuffer.c:149-334 | Every step of every process keeps the segment, the lock, the log and the returned results in agreement |
| `ShmProtocol.RunsRefineQueue` | src/lib/pshmbuffer.c:149-334 | Every interleaving of any processes linearises to an atomic bounded queue: the log replays with the returned results, every result is the one that the calls before it make right, bytes delivered since the last clear are a prefix of those accepted and the segment holds the rest |
| `ShmProtocol.AnswersFromHistory` | src/lib/pshmbuffer.c:149-307 | Told from the calls before it: a write is accepted whole if and only if the bytes accepted and not yet delivered leave room for it in size - 1, a read delivers exactly the oldest of them, and the space queries answer their number and the rest |
| `ShmProtocol.AccessesRunOut` | src/lib/pshmbuffer.c:149-334 | Every access of a lock holder brings its call nearer to its end, so no call keeps the lock for ever |
| `ShmProtocol.LogKeepsRealTimeOrder` | src/lib/pshmbuffer.c:149-334 | The log only grows and holds each process's calls as they returned, so calls that do not overlap are logged in real-time order |
| `ShmProtocol.OneAtATime` | src/lib/pshmbuffer.c:177-201 | Never two processes between lock and unlock |
| `ShmProtocol.Conserved` | src/lib/pshmbuffer.c:186-251 | In the atomic queue accepted bytes are delivered bytes followed by the contents, and the contents never exceed the capacity |
| `Absorb.WholeBlocks` | src/lib/pcryptohash-md5.c:225-232 | The block loop processes the whole blocks of the data and stops at the rest |
| `Absorb.ProcessBlock` | src/lib/pcryptohash-md5.c:216-218 | The buffered block is completed, processed once, and left in the buffer with its words swapped if the host has to |
| `Absorb.Update` | src/lib/pcryptohash-md5.c:205-236 | For a chunk of any length the update code keeps the buffer the rest, and the chaining value the result of the whole blocks, of what it takes in (`Take`): the message with the chunk behind it, or, where the fill test on the cast length errs, a message of the same length whose buffered bytes were overwritten by the last whole block as the host's byte order left it |
| `Absorb.TakesAllIff` | src/lib/pcryptohash-md5.c:215-236 | Every message and chunk of given lengths is taken in as it is if and only if the fill test on the cast length is right |
| `Absorb.ShortChunksAreTaken` | src/lib/pcryptohash-md5.c:215-236 | Chunks below the cast's range are taken in as they are, whatever their number |
| `Absorb.BlocksSplit` | src/lib/pcryptohash-md5.c:215-232 | Processing a message in two goes is processing it at once |
| `Words.BytesRoundTrip` | src/lib/pcryptohash-sha1.c:97-110 | Storing a word as bytes in either order and reading it back gives its low bytes |
| `Words.TwoWords` | src/lib/pcryptohash-sha1.c:302-303 | A two-word number stored in the hash's byte order reads back as its two words |
| `Words.OrdersMirror` | src/lib/pcryptohash-md5.c:76-86 | Little-endian bytes are big-endian ones the other way round |
| `CountedHash.AddLengthCounts` | src/lib/pcryptohash-md5.c:210-213 | The two-word count with its carry test adds the cast length modulo 2^64 (2^128) |
| `CountedHash.CountIsExactIff` | src/lib/pcryptohash-md5.c:210-213 | The count stays the true byte count over a chunk if and only if the chunk is shorter than 2^32 bytes (2^64 for 64-bit words) |
| `CountedHash.LongChunkIsNotCounted` | src/lib/pcryptohash-md5.c:210-213 | An input where it fails: a chunk of exactly 2^32 bytes leaves a 32-bit hash's count at zero |
| `CountedHash.AllCountedIff` | src/lib/pcryptohash-md5.c:210-213 | All bytes of a list of chunks are counted if and only if every chunk's length fits in a word |
| `CountedHash.BitCountIsEightfold` | src/lib/pcryptohash-md5.c:247-249 | The shifted high and low words are eight times the byte count |
| `CountedHash.LastFills` | src/lib/pcryptohash-md5.c:244-245 | The number of padding bytes taken from the table is the standard's, and ends where the length goes |
| `CountedHash.PaddedIsWhole` | src/lib/pcryptohash-md5.c:244-258 | The padded message is whole blocks and begins with the message |
| `CountedHash.LengthWords` | src/lib/pcryptohash-sha1.c:292-303 | The two words stored last are the standard's length field, for either byte order |
| `CountedHash.Context.constructor` | src/lib/pcryptohash-md5.c:187-198 | A new context has absorbed the empty message |
| `CountedHash.Context.Reset` | src/lib/pcryptohash-sha2-256.c:170-199 | Reset makes the context absorb the empty message again |
| `CountedHash.Context.Update` | src/lib/pcryptohash-sha1.c:248-284 | For a chunk of any length: what is taken in and what is counted; below 2^32 bytes (2^64 for 64-bit words) that is the chunk and its length |
| `CountedHash.Context.Finish` | src/lib/pcryptohash-sha2-512.c:265-288 | Finish gives the hash of the bytes taken in, padded with the number counted, for any compression function; the hash of the padded message when both are right |
| `CountedHash.HashChunks` | src/lib/pcryptohash-sha2-256.c:213-274 | Chunks of any length hash to what was taken in, padded with what was counted; chunks that fit in a word hash to what one-shot hashing of the padded message gives: MD5 by section 3 of RFC 1321, SHA-1 and SHA-2 by section 5.1 of FIPS 180-4 |
| `CountedHash.ChunksHashIff` | src/lib/pcryptohash-sha2-256.c:213-274 | For chunks of any lengths: the source's hash is that of the whole message for every compression function if and only if the bytes are taken in as they are and the number of bits is right modulo 2^64 (2^128); within the standard's limit on bits, if and only if every chunk's length fits in a word |
| `CountedHash.LongChunkHashesWrong` | src/lib/pcryptohash-sha2-256.c:218-226 | An input that fails: a single chunk of 2^32 bytes, for 32-bit words and hosts of either byte order |
| `CountedHash.ShortChunksHash` | src/lib/pcryptohash-sha1.c:248-306 | Chunks that fit in a word give the one-shot hash of their concatenation |
| `Sponge.PaddingIsStandard` | src/lib/pcryptohash-sha3.c:277-279 | The bytes set in the last block are, bit for bit, the SHA-3 suffix and pad10*1 of sections 6.1 and 5.1 of FIPS 202 |
| `Sponge.Context.constructor` | src/lib/pcryptohash-sha3.c:194-205 | A new context has absorbed the empty message |
| `Sponge.Context.Reset` | src/lib/pcryptohash-sha3.c:207-214 | Reset makes the context absorb the empty message again |
| `Sponge.Context.Update` | src/lib/pcryptohash-sha3.c:240-272 | Update absorbs a chunk, with the position in the block as the only count |
| `Sponge.Context.Finish` | src/lib/pcryptohash-sha3.c:274-282 | Finish gives the sponge of the padded message, for any permutation |
| `Sponge.HashChunks` | src/lib/pcryptohash-sha3.c:240-285 | Any split into chunks gives the sponge of the whole padded message |
| `Sponge.RatesAreStandard` | src/lib/pcryptohash-sha3.c:202-202 | The rates are those of table 3 of FIPS 202 |
| `Keccak.Parities` | src/lib/pcryptohash-sha3.c:91-93 | The column parities |
| `Keccak.Effects` | src/lib/pcryptohash-sha3.c:95-100 | The five theta effects, with the column indices wrapped around |
| `Keccak.ThetaInPlace` | src/lib/pcryptohash-sha3.c:84-110 | In-place theta is the simultaneous definition of section 3.2.1 of FIPS 202 for every state |
| `Keccak.OffsetOnWalk` | src/lib/pcryptohash-sha3.c:118-143 | The rotation of the lane that the walk of section 3.2.2 reaches at step t is (t+1)(t+2)/2 mod 64, and the walk visits every lane but one once |
| `Keccak.RhoPiInPlace` | src/lib/pcryptohash-sha3.c:112-144 | The 24-move cycle with one saved lane is rho followed by pi of sections 3.2.2 and 3.2.3 for every state |
| `Keccak.ChiInPlace` | src/lib/pcryptohash-sha3.c:146-163 | In-place chi with two saved lanes is the simultaneous definition of section 3.2.4 for every state |
| `Lanes.RotlMovesUp` | src/lib/pcryptohash-sha3.c:66-67 | For every rotation amount in use, all bits move up and the top ones to the bottom |
| `Lanes.XorBit` | src/lib/pcryptohash-sha3.c:91-93 | Addition of lanes, bit by bit |
| `Lanes.NotAndBit` | src/lib/pcryptohash-sha3.c:155-160 | The chi term, bit by bit |
| `Keccak.ThetaBits` | src/lib/pcryptohash-sha3.c:84-110 | Theta flips a bit exactly when the parities of its neighbour columns, the right one turned by a place, differ |
| `Keccak.RhoBits` | src/lib/pcryptohash-sha3.c:112-144 | Rho turns the lane at step t of the walk by the t-th triangular number modulo 64 |
| `Keccak.PiSends` | src/lib/pcryptohash-sha3.c:112-144 | Pi brings the lane of column x and row y to column y and row 2x + 3y |
| `Keccak.ChiBits` | src/lib/pcryptohash-sha3.c:146-163 | Chi flips a bit exactly when the next in its row is clear and the one after that is set |
| `Keccak.ConstantsAreStandard` | src/lib/pcryptohash-sha3.c:43-56 | The table of round constants is what the shift register of section 3.2.5 of FIPS 202 puts out |
| `Keccak.PermuteInPlace` | src/lib/pcryptohash-sha3.c:165-178 | The 24 in-place rounds are the composition of the step mappings |
| `Keccak.ProcessInPlace` | src/lib/pcryptohash-sha3.c:180-192 | Processing a block in place is the sponge's step with that permutation |
| `Sha1.RenamedIsRound` | src/lib/pcryptohash-sha1.c:69-95 | A round macro that changes two registers, read in shifted order, is the standard's five-variable shift |
| `Sha1.SameF` | src/lib/pcryptohash-sha1.c:55-57 | The source's choice and majority functions are the standard's |
| `Sha1.Turns1` | src/lib/pcryptohash-sha1.c:53-67 | The schedule's rotation moves all bits up one place and the top bit to the bottom |
| `Sha1.Turns5` | src/lib/pcryptohash-sha1.c:53-95 | The rounds' first rotation, by five places |
| `Sha1.Turns30` | src/lib/pcryptohash-sha1.c:53-95 | The rounds' second rotation, by thirty places |
| `Sha1.RoundFunctions` | src/lib/pcryptohash-sha1.c:55-95 | Choice in rounds 0 to 19, majority in 40 to 59, parity in the others, by what each does to a bit |
| `Sha1.ScheduleTurnsUp` | src/lib/pcryptohash-sha1.c:59-67 | A schedule word is the sum of the words 3, 8, 14 and 16 back, turned up by one place |
| `Sha1.RoundUndone` | src/lib/pcryptohash-sha1.c:69-95 | A round is a permutation of the registers: its inverse gives them back |
| `Sha1.NextWord` | src/lib/pcryptohash-sha1.c:59-67 | The sixteen-word circular buffer yields word t of the eighty-word schedule and keeps the last sixteen |
| `Sha1.FiveRounds` | src/lib/pcryptohash-sha1.c:129-133 | Five rounds with renamed registers are five rounds of the standard |
| `Sha1.Process` | src/lib/pcryptohash-sha1.c:112-218 | The compression function is that of section 6.1.2 of FIPS 180-4 for every block and state |
| `Sha2.RotatedRound` | src/lib/pcryptohash-sha2-256.c:92-98 | A round that writes two array cells, read one place on, is the eight-variable shift |
| `Sha2.NextWord` | src/lib/pcryptohash-sha2-256.c:86-90 | The schedule word is computed once, when its round needs it, and is the standard's |
| `Sha2.EightRounds` | src/lib/pcryptohash-sha2-256.c:140-149 | Eight rounds with rotated arguments are eight rounds of the standard, and every cell plays its own part again |
| `Sha2.Process` | src/lib/pcryptohash-sha2-256.c:115-153 | The compression function is that of section 6.2.2 of FIPS 180-4, for any word operations, block and state |
| `Sha2.FillSchedule` | src/lib/pcryptohash-sha2-512.c:149-152 | The schedule filled in first is the standard's |
| `Sha2.ProcessWide` | src/lib/pcryptohash-sha2-512.c:137-167 | The compression function with the schedule filled in first is that of section 6.4.2 of FIPS 180-4 |
| `Sha256.F0IsMaj` | src/lib/pcryptohash-sha2-256.c:83-83 | The shortened majority is the standard's, for 32-bit words |
| `Sha256.F1IsCh` | src/lib/pcryptohash-sha2-256.c:84-84 | The shortened choice is the standard's, for 32-bit words |
| `Sha256.Process` | src/lib/pcryptohash-sha2-256.c:52-153 | SHA-256's rotated rounds with its own sigma, choice, majority and constants are the standard's compression function |
| `Sigma256.StandardOperations` | src/lib/pcryptohash-sha2-256.c:75-98 | The word operations of the compression function, by bits: rotations by 7, 18; 17, 19; 2, 13, 22; 6, 11, 25 places, shifts by 3 and 10, choice, majority, addition modulo 2^32, 64 rounds |
| `Sigma256.RoundUndone` | src/lib/pcryptohash-sha2-256.c:92-98 | A round is a permutation of the registers: its inverse gives them back |
| `Sigma256.ScheduleUndone` | src/lib/pcryptohash-sha2-256.c:86-90 | The schedule runs backwards: the word sixteen back is recovered from the others |
| `Sha512.F0IsMaj` | src/lib/pcryptohash-sha2-512.c:111-111 | The shortened majority is the standard's, for 64-bit words |
| `Sha512.F1IsCh` | src/lib/pcryptohash-sha2-512.c:112-112 | The shortened choice is the standard's, for 64-bit words |
| `Sha512.Process` | src/lib/pcryptohash-sha2-512.c:56-167 | SHA-512's rotated rounds with its own sigma, choice, majority and constants are the standard's compression function |
| `Sigma512.StandardOperations` | src/lib/pcryptohash-sha2-512.c:103-120 | The word operations of the compression function, by bits: rotations by 1, 8; 19, 61; 28, 34, 39; 14, 18, 41 places, shifts by 7 and 6, choice, majority, addition modulo 2^64, 80 rounds |
| `Sigma512.RoundUndone` | src/lib/pcryptohash-sha2-512.c:114-120 | A round is a permutation of the registers: its inverse gives them back |
| `Sigma512.ScheduleUndone` | src/lib/pcryptohash-sha2-512.c:149-152 | The schedule runs backwards: the word sixteen back is recovered from the others |
| `Roots.Sha512Constants` | src/lib/pcryptohash-sha2-512.c:56-100 | SHA-512's round constants are the first 64 bits of the fractions of the cube roots of the first eighty primes |
| `Roots.Sha256Constants` | src/lib/pcryptohash-sha2-256.c:52-73 | SHA-256's are the first 32 bits of the first sixty-four of these |
| `Roots.Sha512Starts` | src/lib/pcryptohash-sha2-512.c:192-212 | The start of SHA-512 and SHA-384: the first 64 bits of the fractions of the square roots of the first and second eight primes |
| `Roots.Sha256Starts` | src/lib/pcryptohash-sha2-256.c:177-198 | SHA-256 starts from the first 32 bits of the former, SHA-224 from the second 32 bits of the latter |
| `Roots.Sha1Constants` | src/lib/pcryptohash-sha1.c:69-95 | SHA-1's round constants are the square roots of 2, 3, 5 and 10 to 30 bits |
| `Roots.Sha1Starts` | src/lib/pcryptohash-sha1.c:228-232 | SHA-1's start is made of bytes that count up, down and in step |
| `Roots.PrimesArePrime` | src/lib/pcryptohash-sha2-512.c:56-100 | The list that these refer to rises and has no entry with a divisor up to its root |
| `GostSum.ExactAdds` | src/lib/pcryptohash-gost3411.c:209-213 | With an exact carry the limb-wise sum is addition |
| `GostSum.SumIsExactIff` | src/lib/pcryptohash-gost3411.c:200-214 | The source's sum is addition modulo the range if and only if no limb below the top has both operands all ones with a carry coming in |
| `GostSum.CodeAdds` | src/lib/pcryptohash-gost3411.c:209-213 | With the source's carry test the sum, its carry and what was lost add up to the true sum |
| `GostSum.SumUpToLoss` | src/lib/pcryptohash-gost3411.c:200-214 | The source's sum and what it lost are the true sum modulo the range |
| `GostSum.NothingLostIff` | src/lib/pcryptohash-gost3411.c:209-213 | Nothing is lost if and only if no limb below the top meets the losing case |
| `GostSum.SumOfOnesIsWrong` | src/lib/pcryptohash-gost3411.c:212-212 | A sum that comes out wrong: all ones plus all ones |
| `GostSum.Sum256` | src/lib/pcryptohash-gost3411.c:200-214 | The in-place loop computes that sum |
| `GostHash.CountStaysTrue` | src/lib/pcryptohash-gost3411.c:413-417 | For a chunk below 2^61 - 2^29 bytes the bit count never meets the losing case and stays exact modulo 2^256 |
| `GostHash.CountStaysTrueIff` | src/lib/pcryptohash-gost3411.c:413-417 | For every length of the size type: the bit count stays exact if and only if the length has fewer than 2^64 bits and the second limb does not lose a carry |
| `GostHash.Context.constructor` | src/lib/pcryptohash-gost3411.c:390-401 | A new context has absorbed the empty message |
| `GostHash.Context.Reset` | src/lib/pcryptohash-gost3411.c:471-478 | Reset makes the context absorb the empty message again |
| `GostHash.CountIsLimbs` | src/lib/pcryptohash-gost3411.c:410-417 | The eight count limbs are those of the number of bits modulo 2^256 |
| `GostHash.Context.Update` | src/lib/pcryptohash-gost3411.c:403-442 | For a chunk of any length: what is taken in, with its control sum, and the new count; below 2^32 bytes the chunk is absorbed |
| `GostHash.Context.Finish` | src/lib/pcryptohash-gost3411.c:444-463 | Finish zero-fills the last block if there is one and mixes in the count and the control sum; with a true count that is the one-shot hash |
| `GostHash.HashChunks` | src/lib/pcryptohash-gost3411.c:403-463 | Chunks of any length hash to what was taken in and counted; below 2^32 bytes to the hash of the whole message, which is the standard's when no addition of a block loses a carry |
| `GostHash.HashIsStandardIff` | src/lib/pcryptohash-gost3411.c:403-463 | The source's hash of a message is the standard's for every step function if and only if what the control sum lost is a multiple of 2^256; below 2^36 - 32 bytes, if and only if no addition of a block loses a carry |
| `GostHash.LosslessHash` | src/lib/pcryptohash-gost3411.c:403-463 | Without a loss the source's hash is the standard's, however long the message |
| `GostChunks.ChunksHashIff` | src/lib/pcryptohash-gost3411.c:403-463 | For chunks of given lengths: the hash is that of the whole message for all bytes and every step function if and only if the fill test on the cast length is right for every chunk and the count comes out right; below 2^61 bytes in all, if and only if the fill tests are right |
| `GostChunks.RightChunksHash` | src/lib/pcryptohash-gost3411.c:410-442 | With right fill tests and a right count the chunks hash to their concatenation's hash, though single chunks may exceed 2^32 bytes |
| `GostChunks.LongChunkLosesByte` | src/lib/pcryptohash-gost3411.c:419-441 | An input that fails: one byte and then 2^32 bytes; some such message hashes wrongly |
| `GostChunks.LongFirstChunkIsRight` | src/lib/pcryptohash-gost3411.c:419-441 | The long chunk in front hashes right, because the test is not made on an empty buffer |
| `GostChunks.ShortTotalCounts` | src/lib/pcryptohash-gost3411.c:413-417 | Below 2^61 bytes in all the count comes out right |
| `GostHash.ControlSum` | src/lib/pcryptohash-gost3411.c:423-434 | The control sum is the source's running sum of the message's blocks |
| `GostHash.BlockIsNumber` | src/lib/pcryptohash-gost3411.c:184-197 | The limbs of a block make up the number that its bytes are, the least significant first |
| `GostHash.LosslessSumIsTrue` | src/lib/pcryptohash-gost3411.c:423-434 | While no addition loses a carry the control sum is the standard's sum modulo 2^256, for any number of blocks |
| `GostHash.SumLessLost` | src/lib/pcryptohash-gost3411.c:423-434 | The control sum and everything lost on the way are the standard's sum modulo 2^256 |
| `GostHash.ControlSumIsTrueIff` | src/lib/pcryptohash-gost3411.c:423-434 | The control sum is the standard's if and only if the total loss is a multiple of 2^256; below 2^31 blocks, if and only if no addition lost a carry |
| `GostHash.OnesMessageHasWrongSum` | src/lib/pcryptohash-gost3411.c:423-434 | Sixty-four bytes of all ones already have a wrong control sum |
| `GostMix.StepIsTimes` | src/lib/pcryptohash-gost3411.c:332-343 | A register step is multiplication of linear masks by x modulo the feedback polynomial |
| `GostMix.AfterSteps` | src/lib/pcryptohash-gost3411.c:289-387 | Every halfword after n steps is the linear form given by a power of x |
| `GostMix.Stir12Mixes` | src/lib/pcryptohash-gost3411.c:291-330 | The first eight formulas are twelve steps of the sixteen-halfword register, added to the message |
| `GostMix.Stir1Mixes` | src/lib/pcryptohash-gost3411.c:332-343 | The second eight formulas are one step, added to the previous hash |
| `GostMix.Stir61Mixes` | src/lib/pcryptohash-gost3411.c:345-387 | The last eight formulas are sixty-one steps |
| `GostMix.Mix` | src/lib/pcryptohash-gost3411.c:289-387 | For all 256-bit inputs the unrolled formulas are the mixing transformation of RFC 5831, in place |
| `CryptoHash.DigestToHex` | src/lib/pcryptohash.c:63-72 | The loop writes two hex digits a byte |
| `CryptoHash.HexIsInjective` | src/lib/pcryptohash.c:63-72 | Different digests have different strings |
| `CryptoHash.HexReadsBack` | src/lib/pcryptohash.c:58-72 | The two characters of a byte, read as hexadecimal digits, are the byte |
| `CryptoHash.LaneBytesRoundTrip` | src/lib/pcryptohash-sha3.c:280-297 | The digest bytes of SHA-3 give the lanes back, least significant byte first |
| `CryptoHash.LanesGoIn` | src/lib/pcryptohash-sha3.c:180-192 | A block that holds the bytes of some lanes puts these lanes into the zero state |
| `CryptoHash.LimbBytesRoundTrip` | src/lib/pcryptohash-gost3411.c:462-469 | The digest bytes of GOST give the limbs back, least significant byte first |
| `CryptoHash.Create` | src/lib/pcryptohash.c:74-143 | A context of the kind asked for, which holds no chunks |
| `CryptoHash.Feed` | src/lib/pcryptohash.c:145-155 | The context then holds the chunks with this one behind them |
| `CryptoHash.Finish` | src/lib/pcryptohash.c:176-179 | The digest bytes are the hash of the chunks held |
| `CryptoHash.Restart` | src/lib/pcryptohash.c:157-165 | The context holds no chunks again |
| `CryptoHash.FittingChunks` | src/lib/pcryptohash.c:145-155 | For every hash, chunks that its casts leave alone give the one-shot hash of their concatenation |
| `CryptoHash.OneMore` | src/lib/pcryptohash.c:145-222 | How each call changes what the result covers and whether the object is closed |
| `CryptoHash.Hash.constructor` | src/lib/pcryptohash.c:74-143 | A new object is open and covers nothing |
| `CryptoHash.Hash.Update` | src/lib/pcryptohash.c:145-155 | Update hands a non-empty chunk to the context while open and is ignored otherwise; the context holds exactly the covered chunks |
| `CryptoHash.Hash.Reset` | src/lib/pcryptohash.c:157-165 | Reset starts over and opens |
| `CryptoHash.Hash.Close` | src/lib/pcryptohash.c:176-179 | The first query finishes the context and closes; a later one does not finish again; the digest is the hash of the covered chunks |
| `CryptoHash.Hash.GetString` | src/lib/pcryptohash.c:167-190 | The string is the hex of the hash of the covered chunks, two characters a byte |
| `CryptoHash.Hash.GetDigest` | src/lib/pcryptohash.c:192-222 | The bytes are the hash of the covered chunks, of the hash's length if there is room for it; with less room the answer is nothing and the object stays open |
| `CryptoHash.Run` | src/lib/pcryptohash.c:145-222 | Over any run, with the real contexts of every hash behind it, every query answers with the hash of exactly the non-empty updates since the last reset made while open; where these chunks fit, with the one-shot hash of their concatenation |
| `CryptoHash.CoveredBelow` | src/lib/pcryptohash.c:145-155 | Covered chunks are no longer than the longest update |
| `HashTypes.Sha1Block` | src/lib/pcryptohash-sha1.c:112-218 | SHA-1's in-place compression of a block of bytes is the block step of the context |
| `HashTypes.Sha256Block` | src/lib/pcryptohash-sha2-256.c:115-153 | SHA-256's, likewise |
| `HashTypes.Sha512Block` | src/lib/pcryptohash-sha2-512.c:137-167 | SHA-512's, likewise |
| `HashTypes.Sha1IsStandard` | src/lib/pcryptohash-sha1.c:225-321 | SHA-1 from message bytes to digest bytes as FIPS 180-4 has it, with padding, block words and digest bytes by their positions (`Fips180`) |
| `HashTypes.Sha256IsStandard` | src/lib/pcryptohash-sha2-256.c:170-286 | SHA-256 and SHA-224, likewise |
| `HashTypes.Sha512IsStandard` | src/lib/pcryptohash-sha2-512.c:184-300 | SHA-512 and SHA-384, likewise |
| `HashTypes.PaddingIsStandard` | src/lib/pcryptohash-sha1.c:286-306 | The context's padding is that of section 5.1, byte by byte |
| `HashTypes.OneShotIsChained` | src/lib/pcryptohash-sha2-256.c:213-274 | The block loop over the padded message is the standard's chain over words at their positions |
| `HashTypes.WordBytesRoundTrip` | src/lib/pcryptohash-sha1.c:308-308 | The digest bytes give the hash words back, most significant byte first |
| `HashTypes.WordBytesAre` | src/lib/pcryptohash-sha2-512.c:287-287 | Digest byte i is byte i mod size of word i / size |
| `Fips180.BlocksAreChained` | src/lib/pcryptohash-sha2-256.c:236-247 | Processing the blocks in a loop is chaining them by their positions |
| `HashTypes.RunSha1` | src/lib/pcryptohash-sha1.c:225-306 | SHA-1 over any run, with the block step that `HashTypes.Sha1Block` computes in place: queries that cover chunks below 2^32 bytes answer with the standard's digest of their concatenation (`Sha1Digest`) |
| `HashTypes.RunSha256` | src/lib/pcryptohash-sha2-256.c:170-286 | SHA-256 and SHA-224 over any run, likewise |
| `HashTypes.RunSha512` | src/lib/pcryptohash-sha2-512.c:184-288 | SHA-512 and SHA-384 over any run: all queries answer with the standard's hash of the covered message |
| `HashTypes.RunSha3` | src/lib/pcryptohash-sha3.c:207-285 | The SHA-3 variants over any run, with the permutation that `Keccak.PermuteInPlace` computes: all queries answer with the standard's hash of the covered message |
| `UThread.SoundStep` | src/lib/puthread.c:184-216 | Every step keeps the reference count equal to the holders once it is written, and a structure alive while it has holders |
| `UThread.ExclusiveStep` | src/lib/pspinlock-c11.c:52-97 | The compare-and-exchange lock's word says who is between lock and unlock, over every step |
| `UThread.OwnedStep` | src/lib/puthread.c:197-213 | A structure whose fields are not complete belongs to the creator that holds the lock |
| `UThread.FieldsAreWrittenBeforeUse` | src/lib/puthread.c:129-145 | In every interleaving a new thread past the lock, and every holder of a returned handle, sees all fields written, a live structure, and a reference count equal to the holders |
| `UThread.NothingTouchesTheFreed` | src/lib/puthread.c:447-474 | No step but the freeing touches a structure after its last holder has left |
| `UThread.LastHolderFrees` | src/lib/puthread.c:456-474 | Freeing begins if and only if the last holder has left, with the count at zero and the thread gone |
| `UThread.FreedOnceFromStart` | src/lib/puthread.c:456-474 | No run frees a structure twice, and it is freed exactly when the run contains that step |
| `UThread.NobodyIsStuck` | src/lib/puthread.c:129-145 | In every reachable state a thread that has not gone, and a structure whose last holder has left, can take a step that brings it nearer to its end, unless another holds the spinlock it needs; then that one can go on |
| `UThread.HolderGoesOn` | src/lib/pspinlock-c11.c:52-97 | Whoever holds the spinlock can go on towards its unlock |
| `TlsKey.EveryoneGetsTheKey` | src/os/atheos/puthread-atheos.c:88-115 | With any number of racing callers a published key never changes and every caller returns it |
| `TlsKey.OneSlotStays` | src/os/atheos/puthread-atheos.c:88-115 | When all callers have returned exactly one allocated slot is live, the published one |
| `TlsKey.SlotsAreAccountedFor` | src/os/atheos/puthread-atheos.c:98-111 | Every other live slot is held by exactly one caller that is still under way |
| `TlsKey.CallersFinishAlone` | src/os/atheos/puthread-atheos.c:88-115 | A caller needs nobody else: at most five steps of its own bring it to its return, wherever the others are |

## Left out

- NULL handles and NULL arguments: the guards return at once and change nothing.
- Allocation failures and failures of mutexes, condition variables, semaphores and system calls; the error paths of the lock's constructor.
- Weak memory ordering: the protocols are proved under sequential consistency.
- Tree nodes beyond the range of the signed node counter, and callbacks that modify the tree while it is being traversed.
- A comparator that is not a total preorder.
- The read-write lock with 2^15 or more threads, and unlocks by threads that do not hold the lock.
- Handles that see different sizes of one shared segment, and capacities of 2^31 bytes or more, where the loop index and the returned lengths are narrower than the size.
- Clearing the shared segment zeroes a whole position, or one data byte, in a step, positions first; the source zeroes the segment in one call under the same lock.
- Sponge.Context.Update: does not cover a chunk whose length plus the buffered length exceeds the 64-bit size type, because no such chunk fits in memory; CryptoHash.Run asks the same of its chunks.
- MD5's round function, and GOST's key generation and block cipher, stay parameters of the streaming results.
- The digest bytes of MD5, whose round function is a parameter, are a parameter too.
- Threads that the library did not create (`zuthread_current` on a foreign thread), joining, priorities, and the failing attempts of the spinlock's loop.
- Slot allocation and release failures in the thread-local key.
- Lists, hash tables, strings, errors, INI files, sockets, directories, library loading, time and memory mapping: input and output or only easy members.
- Cryptographic strength.
