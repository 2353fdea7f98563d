# pgcpp: trees, heaps and the hash join, verified

This project models the parts of pgcpp whose correctness is hardest to see by
reading them, and proves what they promise:

- the **red-black tree** of `include/lib/rbtree.hpp`: rotations, `Transplant`,
  the two fix-up loops, insertion, deletion, search, walks, destruction;
- the **pairing heap** of `include/lib/pairingheap.hpp`: pointer melding, the
  two-pass pairing behind `Pop`, and its amortised cost;
- the **binary heap** of `include/lib/binaryheap.hpp`, with its linear build;
- the **hybrid hash join** of `src/executor/node_hash.cpp` and
  `src/executor/node_hashjoin.cpp`: hashing of keys, the choice of a number of
  batches, spilling, probing, reloading and scanning, row by row.

Trees and heaps are Dafny classes over nodes with the source's pointer fields.
Each object carries a ghost tree `shape` and a ghost map `cells` from its nodes
to their pointer fields; `Linked()` says that the heap spells out exactly that
tree.  The fix-up loops are proved with a zipper (a context and the subtree in
its hole): insertion carries "a red node may have a red parent here", deletion
carries "this subtree is one black node short".  Comparators are arbitrary
strict weak orders.  Ghost counters count rotations, links and exchanges, and
logarithmic bounds are stated as powers of two.  Each tree and pairing heap
keeps the list `destroyed` of the nodes its code deletes, in that order; only
`Free` extends it.

The hash join is a class whose steps are proved equal to the steps of a state
machine (`JoinMachine`); every step hands out exactly what it takes off the
multiset of rows still to come, and that multiset is tied to a join defined
plainly, without tables or batches (`JoinSpec`).

Run `dafny verify dfyconfig.toml` to check the whole project.

| files | about |
|---|---|
| `Seqs`, `Powers`, `Orders` | regrouping of sequences, powers of two, comparators |
| `RBShape`, `RBLinks`, `RBEdit`, `RBSearch`, `RBTree`, `RBRuns` | red-black tree: laws on shapes, pointers, edits, order, the class, whole runs |
| `PairShape`, `PairLinks`, `PairPotential`, `PairingHeap`, `PairRuns`, `PairCredit`, `PairPool` | pairing heap: shapes, pointers, potential, the class, runs on shapes, their cost, runs on pointers |
| `HeapShape`, `BinaryHeap`, `Draining` | binary heap; both heaps emptied |
| `HashKeys`, `HashMix`, `Batches`, `JoinSpec`, `JoinSteps`, `JoinWhole`, `JoinBuild`, `JoinMachine`, `HashJoins`, `JoinTruth`, `JoinExact`, `JoinOneKey`, `JoinTwoKeys` | hash join: hashes, what mixing keeps, batch counts, the plain join, what is to come, batch by batch, building, the machine, the class, when spilling is harmless, when the join is the one meant, joins on one key and on two |

## Model

| member | source | states |
|---|---|---|
| RBTree.RBTree.RotateLeft | include/lib/rbtree.hpp:253-270 | The pointers still spell out a tree without sharing or cycles, with agreeing parent pointers: the one with this subtree turned left. The nodes and their in-order sequence are unchanged. |
| RBTree.RBTree.RotateRight | include/lib/rbtree.hpp:272-289 | The mirror image of the left rotation, with the same guarantees. |
| RBLinks.ShapedRotateLeft | include/lib/rbtree.hpp:253-270 | The pointer writes of a left rotation, as one map of cells, turn a well-formed tree into the well-formed turned one, at the root and below it, and keep the order. |
| RBTree.RBTree.SetColor | include/lib/rbtree.hpp:112-120 | Painting a node, or nothing when there is none, changes one colour and no order. |
| RBShape.GrandparentExists | include/lib/rbtree.hpp:291-329 | While the parent is red it is not the root, so the grandparent the loop dereferences exists and is black. |
| RBShape.UncleRed | include/lib/rbtree.hpp:296-300 | Recolouring under a red uncle moves the single possible red-red fault up two levels and spoils nothing else. |
| RBShape.OuterRotated | include/lib/rbtree.hpp:306-308 | Rotating the outer grandchild case removes the fault. |
| RBTree.RBTree.InsertFixup | include/lib/rbtree.hpp:291-329 | From a tree with at most one red-red fault at the new node: all red-black laws hold afterwards, order and nodes are kept, at most two rotations were made, and the loop ends. |
| RBShape.SiblingExists | include/lib/rbtree.hpp:417-483 | Next to a subtree that is one black node short there is always a sibling, so every null guard on it succeeds; its children balance and a red parent has a black sibling. |
| RBShape.RedSibling | include/lib/rbtree.hpp:422-427 | Lifting a red sibling leaves the same deficit with a black, existing new sibling, so the case cannot repeat at once. |
| RBShape.BlackSibling | include/lib/rbtree.hpp:428-431 | A black sibling without red children, painted red, moves the deficit up one level. |
| RBShape.NearRed | include/lib/rbtree.hpp:433-439 | A red near child is brought to the far side with the deficit unchanged. |
| RBShape.FarRed | include/lib/rbtree.hpp:440-448 | With a red far child one rotation repays the deficit: the whole tree is red-black again. |
| RBShape.DeletionDone | include/lib/rbtree.hpp:417-483 | Painting a red or topmost short subtree black repays the deficit. |
| RBTree.RBTree.RepayOnce | include/lib/rbtree.hpp:417-483 | One round with a possibly null `x`: `xp` and the sibling exist, the test against the left child picks the right side, and the round ends the loop with at most three rotations or moves up one level with none. |
| RBTree.RBTree.DeleteFixup | include/lib/rbtree.hpp:417-483 | From a tree whose subtree at `x` is one black node short: all red-black laws hold afterwards, order and nodes are kept, at most three rotations were made, and the loop ends. |
| RBTree.RBTree.Transplant | include/lib/rbtree.hpp:331-343 | The parent's link to `u`, or the root, now leads to `v`, and `v` leads back to that parent; every other field is as before. |
| RBTree.RBTree.Splice | include/lib/rbtree.hpp:331-343 | A node with at most one child is replaced by that child and the pointers spell out the tree without it. |
| RBEdit.SplicedLaws | include/lib/rbtree.hpp:361-415 | Taking out a red node with at most one child keeps all laws; taking out a black one leaves exactly a deficit of one there. |
| RBTree.RBTree.Min | include/lib/rbtree.hpp:345-351 | Null for null; otherwise the node found has no left child and nothing precedes it in its subtree. |
| RBTree.RBTree.Remove2 | include/lib/rbtree.hpp:390-404 | Deleting a node with two children through its successor, adjacent or not: the rest of the order is kept, the pointers spell out a tree, and the laws hold or the returned place is one black node short, by the colour returned. |
| RBTree.RBTree.Find | include/lib/rbtree.hpp:223-236 | Returns a stored node equivalent to the value, or null exactly when no stored value is; the descents counted in its loop are the nodes on the search path, and two to their number is at most the square of the size plus one. |
| RBTree.RBTree.Insert | include/lib/rbtree.hpp:153-186 | Succeeds exactly when no stored value is equivalent; then the set grows by the value, the tree stays a valid red-black search tree and nothing is deleted; otherwise the tree and the stored value stay as they were and the node just allocated is deleted. At most two rotations. |
| RBTree.RBTree.Delete | include/lib/rbtree.hpp:361-415 | The tree stays a valid red-black search tree, exactly the equivalent value is gone, its node and no other is deleted, the result tells whether there was one, size follows, at most three rotations. |
| RBTree.RBTree.DeleteAt | include/lib/rbtree.hpp:361-415 | Unlinking a found node removes it and nothing else from the order, frees it and restores all laws. |
| RBTree.RBTree.constructor | include/lib/rbtree.hpp:32 | A new tree is valid and empty. |
| RBTree.RBTree.ForeachLeft | include/lib/rbtree.hpp:70-75 | The walk gives the strictly ascending listing of exactly the stored values, as long as the size. |
| RBTree.RBTree.ForeachRight | include/lib/rbtree.hpp:76-81 | The walk gives exactly the reverse of the ascending listing. |
| RBTree.RBTree.Foreach | include/lib/rbtree.hpp:130-144 | The recursive walk appends the in-order values of a subtree, or their reverse. |
| RBTree.RBTree.OnlyListing | include/lib/rbtree.hpp:70-84 | No other strictly ascending sequence lists the stored values, so the walks are determined by the set alone. |
| RBTree.RBTree.ToSortedVector | include/lib/rbtree.hpp:485-491 | The snapshot is that listing. |
| RBTree.RBTree.DestroySubtree | include/lib/rbtree.hpp:493-501 | The walk deletes exactly the nodes of the subtree, in post-order: children before parents, the left subtree first; none was deleted before. |
| RBLinks.PostOrderOnce | include/lib/rbtree.hpp:493-501 | That order lists every node of a tree without sharing, each once. |
| RBTree.RBTree.Clear | include/lib/rbtree.hpp:503-508 | The tree is empty and valid; the nodes of the tree were deleted in post-order, and every node ever allocated has been deleted once. |
| RBTree.RBTree.MoveFrom | include/lib/rbtree.hpp:37-52 | Move assignment deletes the old nodes in post-order, takes over the other tree whole and leaves it empty; onto itself it changes nothing. Allocated nodes stay accounted for. |
| RBShape.LogarithmicHeight | include/lib/rbtree.hpp:9-18 | Two to the height of any red-black tree is at most the square of its size plus one, that is, height at most 2 log2(n + 1). |
| RBShape.SizeBound | include/lib/rbtree.hpp:9-18 | Two to the black height is at most the size plus one. |
| RBShape.HeightBound | include/lib/rbtree.hpp:9-18 | The height is at most twice the black height, one more under a red root. |
| RBSearch.ListingUnique | include/lib/rbtree.hpp:485-491 | A set of values has at most one strictly ascending listing. |
| RBRuns.Apply | include/lib/rbtree.hpp:55-87 | One operation on the pointer tree is the operation on the set of first-inserted class representatives, with the same reply. |
| RBRuns.Run | include/lib/rbtree.hpp:55-87 | Any run of insertions, look-ups, deletions and clears on a new tree is a run of that set; the tree ends valid, of logarithmic height, after at most three rotations an operation. |
| PairingHeap.MeldTrees | include/lib/pairingheap.hpp:110-131 | The pointers after melding spell out the two trees joined, the root that must come first on top, prev pointers included; nothing else is touched; one link exactly when both trees exist. |
| PairingHeap.Detach | include/lib/pairingheap.hpp:140-148 | The first loop cuts a sibling list into its single trees, in order. |
| PairingHeap.PairPass | include/lib/pairingheap.hpp:150-159 | The first pass melds neighbours in pairs, for odd and even counts, with half as many links as trees. |
| PairingHeap.MeldPass | include/lib/pairingheap.hpp:161-166 | The second pass melds right to left into one tree, with one link fewer than trees. |
| PairingHeap.TwoPassMeld | include/lib/pairingheap.hpp:133-167 | Turns a sibling list of k trees into one well-formed tree over the same nodes with exactly k - 1 links; null for an empty list. |
| PairShape.TwoPassValues | include/lib/pairingheap.hpp:133-167 | Both passes keep the multiset of values and give a single tree. |
| PairShape.TwoPassOrdered | include/lib/pairingheap.hpp:133-167 | Both passes give a heap-ordered tree from heap-ordered ones. |
| PairShape.RootFirst | include/lib/pairingheap.hpp:183-186 | No value of a heap-ordered tree precedes its root. |
| PairingHeap.PairingHeap.Add | include/lib/pairingheap.hpp:169-174 | The heap stays valid with one more copy of the value and one new node; the top stays as it was unless the new value precedes it; one link, none into an empty heap. |
| PairingHeap.PairingHeap.Count | include/lib/pairingheap.hpp:66 | The size kept is the number of values stored. |
| PairingHeap.PairingHeap.IsEmpty | include/lib/pairingheap.hpp:67 | True exactly when nothing is stored. |
| PairingHeap.PairingHeap.Top | include/lib/pairingheap.hpp:183-186 | A stored value that no stored value precedes. |
| PairingHeap.PairingHeap.Pop | include/lib/pairingheap.hpp:188-202 | Nothing on an empty heap; otherwise removes exactly one copy of a value that none precedes, deletes the old root and no other node, and performs one link fewer than the root had children. |
| PairingHeap.PairingHeap.Meld | include/lib/pairingheap.hpp:204-213 | Multiset sum, the other heap empty afterwards, ownership of its nodes moved; the top stays as it was unless the other top precedes it; melding a heap with itself changes nothing. |
| PairingHeap.PairingHeap.DestroySubtree | include/lib/pairingheap.hpp:215-223 | The walk deletes exactly the nodes of the list of trees, in post-order: children and later siblings before a node; none was deleted before. |
| PairShape.PostOrderOnce | include/lib/pairingheap.hpp:215-223 | That order lists every node of a tree without sharing, each once. |
| PairingHeap.PairingHeap.Clear | include/lib/pairingheap.hpp:225-230 | Empty and valid; the nodes of the heap were deleted in post-order, and every node ever owned has been deleted once. |
| PairingHeap.PairingHeap.MoveFrom | include/lib/pairingheap.hpp:38-53 | Move assignment deletes the old nodes in post-order, takes over the other heap and leaves it empty; onto itself it changes nothing. |
| PairingHeap.PairingHeap.constructor | include/lib/pairingheap.hpp:29-30 | A new heap is valid and empty. |
| PairPotential.PairUpPotential | include/lib/pairingheap.hpp:150-159 | The first pass: four to the number of pairs before the last, times the potential after, is at most the squared size times the potential before. |
| PairPotential.MeldAllPotential | include/lib/pairingheap.hpp:161-166 | The second pass does not raise the potential below the new root. |
| PairPotential.PopPotential | include/lib/pairingheap.hpp:10-14 | With the product of all subtree sizes as potential P and n values: two to the links of a pop times P after is at most 2 n^2 times P before. |
| PairPotential.AddCredit | include/lib/pairingheap.hpp:169-174 | Adding a value multiplies the potential by exactly the new size. |
| PairPotential.MeldCredit | include/lib/pairingheap.hpp:204-213 | Melding multiplies the potentials' product by at most the squared size. |
| PairRuns.ShapeRefines | include/lib/pairingheap.hpp:169-230 | Each operation on the shapes of several heaps is the multiset operation on their contents and keeps all of them heap-ordered. |
| PairCredit.StepCosts | include/lib/pairingheap.hpp:10-14 | For every operation: two to its links times the credit of all heaps after is at most the credit before times twice the size for an add, twice the squared size for a pop or a meld, and one for the others. |
| PairCredit.RunRefines | include/lib/pairingheap.hpp:169-230 | In any run every heap is ordered at every point and every step is the multiset step. |
| PairCredit.AmortisedLinks | include/lib/pairingheap.hpp:10-14 | From empty heaps, two to the links of any run is at most the product of those factors, with the sizes at each step. |
| PairCredit.FactorsAtMost | include/lib/pairingheap.hpp:10-14 | While no heap exceeds n values that product is at most (2 n^2)^m for m operations, that is, at most 1 + 2 log2 n links an operation. |
| PairPool.Apply | include/lib/pairingheap.hpp:38-53 | One operation on several pointer heaps, aliasing included, keeps all of them valid with disjoint nodes and does what the shapes do. |
| PairPool.Run | include/lib/pairingheap.hpp:169-230 | Any run of adds, pops, melds, clears and moves over k new pointer heaps: every step is the multiset priority queue step with its result, all heaps end valid, and the links obey both amortised bounds. |
| HeapShape.StepUp | include/lib/binaryheap.hpp:83-93 | One exchange moves the only possible fault to the parent. |
| HeapShape.StepDown | include/lib/binaryheap.hpp:95-114 | One exchange with a first child moves the only possible fault to that child. |
| HeapShape.SumOfHeights | include/lib/binaryheap.hpp:181-190 | The heights of all inner positions add up to n less the number of ones in n. |
| BinaryHeap.BinaryHeap.SiftUp | include/lib/binaryheap.hpp:83-93 | Repairs a heap whose only fault is one position too far down by exactly the exchanges listed, each of a value with a parent it precedes, at most log2 of the position plus one of them; keeps the values. |
| BinaryHeap.BinaryHeap.SiftDown | include/lib/binaryheap.hpp:95-114 | Repairs a heap whose only fault is one position too far up by exactly the exchanges listed, each of a value with a parent it precedes, at most as many as the position is high; keeps the values. |
| BinaryHeap.BinaryHeap.Add | include/lib/binaryheap.hpp:116-120 | Heap order at every index, one more copy of the value, at most log2 n exchanges. |
| BinaryHeap.BinaryHeap.Top | include/lib/binaryheap.hpp:128-131 | A stored value that none precedes. |
| BinaryHeap.BinaryHeap.Pop | include/lib/binaryheap.hpp:133-149 | Nothing on an empty heap; otherwise removes exactly one copy of a value that none precedes and restores heap order in at most log2 n exchanges. |
| BinaryHeap.BinaryHeap.ReplaceTop | include/lib/binaryheap.hpp:151-159 | Refuses on an empty heap; otherwise exchanges a first value for the new one and restores heap order. |
| BinaryHeap.BinaryHeap.Heapify | include/lib/binaryheap.hpp:181-190 | Any sequence becomes a heap of the same values by such exchanges, fewer than there are values. |
| BinaryHeap.BinaryHeap.Build | include/lib/binaryheap.hpp:171-179 | The contents become exactly the given values in heap order, by such exchanges from the order given, fewer than there are values. |
| Draining.DrainPairing | include/lib/pairingheap.hpp:188-202 | Popping until empty gives a sorted permutation of the contents and frees every node. |
| Draining.SortedAgree | include/lib/binaryheap.hpp:133-149 | Two sorted listings of the same values agree position by position up to equivalence. |
| Draining.DrainBoth | include/lib/binaryheap.hpp:116-149 | A binary and a pairing heap fed the same values in any orders are emptied in the same order up to equivalence. |
| HashKeys.HashesAgree | src/executor/node_hashjoin.cpp:186-250 | The build hash and the probe hash of the same keys agree unless a key is NULL, which is exactly when the probe hash is refused. |
| HashMix.XorBits | src/executor/node_hashjoin.cpp:193 | Each bit of the exclusive or is set when just one of the two bits is. |
| HashMix.UnmixMix | src/executor/node_hashjoin.cpp:193 | The last key hash can be taken out of a mixed hash, given the hash before it. |
| HashMix.MixUnmix | src/executor/node_hashjoin.cpp:193 | Whatever the hash before, the key hash taken out of any 64-bit hash mixes back into it. |
| HashMix.BuildMixes | src/executor/node_hashjoin.cpp:186-195 | The build hash is the hashes of the keys that are not NULL mixed one after the other, in order, from 0. |
| HashMix.NullsPassedOver | src/executor/node_hashjoin.cpp:189-195 | NULL keys leave no trace in the build hash, wherever they stand among the keys. |
| HashMix.LastKeyDecides | src/executor/node_hashjoin.cpp:229-250 | Beside any number of other keys there is exactly one last key hash with which a row is looked up under a given hash. |
| HashKeys.BatchIsRemainder | include/executor/node_hash.hpp:73-78 | With a power of two of batches the masked hash is the remainder and in range. |
| HashKeys.BatchDoubling | include/executor/node_hash.hpp:73-82 | Doubling N batches keeps a hash in its batch b or moves it to b + N. |
| HashKeys.BatchesOnlyAdvance | include/executor/node_hash.hpp:73-82 | Over any series of doublings no hash belongs to an earlier batch than before. |
| Batches.ChooseBatches | src/executor/node_hashjoin.cpp:211-219 | A power of two from 2 to 1024; unless the 32-bit conversion of the quotient wraps, it is the least n with fewer than n + 1 times the memory allowed in use, or 1024, and the same through the conversion when it wraps. |
| Batches.DoubledMeaning | src/executor/node_hashjoin.cpp:211-219 | That number is the least power of two from 2 to 1024 that reaches the ratio, or 1024. |
| Batches.PlannedMeaning | src/executor/node_hashjoin.cpp:198-221 | One batch exactly when the bytes of all inner rows add up to no more than the memory allowed; otherwise the number chosen for the first rows whose sum exceeds it. |
| JoinBuild.SpreadConserves | src/executor/node_hash.cpp:97-122 | Spreading rows over batches loses none and doubles none. |
| HashJoins.HashJoin.ExpandBatches | src/executor/node_hash.cpp:79-122 | Afterwards the table holds exactly the rows of batch 0 and each spilled batch exactly its rows, in order. |
| HashJoins.HashJoin.BuildHashTable | src/executor/node_hashjoin.cpp:167-227 | After the build every inner row is in the table or in its batch; there is one batch exactly when the bytes of all inner rows fit into the memory allowed, otherwise the number chosen for the first rows that do not. |
| HashJoins.HashJoin.VisitEntry | src/executor/node_hashjoin.cpp:385-428 | One visited entry does the machine's step: marked before the condition is tested, then by join kind. |
| JoinMachine.VisitConserves | src/executor/node_hashjoin.cpp:385-428 | Visiting an entry hands out exactly what it takes off the rows still to come. |
| HashJoins.HashJoin.PlaceOuter | src/executor/node_hashjoin.cpp:484-526 | An outer row opens its bucket, is set aside for its batch, or is dealt with as having a NULL key. |
| JoinMachine.FetchConserves | src/executor/node_hashjoin.cpp:448-526 | Reading an outer row, whatever becomes of it, conserves the rows still to come. |
| HashJoins.HashJoin.LoadNextBatch | src/executor/node_hashjoin.cpp:322-372 | Moves to the next batch and reads back its inner rows, those with a NULL key skipped; tells whether there is one. |
| JoinMachine.LoadConserves | src/executor/node_hashjoin.cpp:322-372 | Moving to the next batch conserves the rows still to come. |
| HashJoins.HashJoin.ScanUnmatched | src/executor/node_hashjoin.cpp:305-320 | Finds the next entry never marked, or the end of the table. |
| HashJoins.HashJoin.Next | src/executor/node_hashjoin.cpp:374-546 | Each call hands out one of the rows still to come and leaves the others, or hands out nothing exactly when none is left; every call ends. |
| HashJoins.HashJoin.Rescan | src/executor/node_hashjoin.cpp:562-576 | Wherever the join stands, all rows of the join are to come again. |
| JoinWhole.WholeJoin | include/executor/node_hash.hpp:51-57 | Routing both inputs by masked hash and joining batch by batch yields the same multiset of pairs and unmatched rows as one join of the surviving inner rows. |
| HashJoins.Join | src/executor/node_hashjoin.cpp:374-546 | Run to its end, a join on keys hands out exactly the plain join of the outer rows with the inner rows that survive spilling, for every kind, input and memory size; and for every relation between rows, it is the join on that relation exactly when the condition of HashJoinExact holds. |
| JoinTruth.PairJoined | src/executor/node_hashjoin.cpp:420-427 | A pair is joined exactly when both rows are there, their hashes agree and the condition holds. |
| JoinTruth.SingleJoined | src/executor/node_hashjoin.cpp:430-446 | An outer row stands alone, or shows in a semi join, exactly when it matches no one, or some one. |
| JoinTruth.SpillTransparent | src/executor/node_hashjoin.cpp:350-355 | Splitting into batches changes nothing exactly when no inner row skipped on reloading would have shown. |
| JoinTruth.OneKeySurvives | src/executor/node_hashjoin.cpp:186-195 | With at most one key nothing is ever lost by spilling: a NULL key hashes to 0 and stays in batch 0. |
| JoinTruth.TwoKeysLose | src/executor/node_hashjoin.cpp:350-355 | A right join with two keys that loses an inner row when it spills, though not otherwise. |
| JoinExact.HashJoinExact | src/executor/node_hashjoin.cpp:374-546 | For every kind and any relation whatever between rows: the join is the one on that relation exactly when outer rows meet just the rows they are related to (semi and anti: find a match just when related to some row) and, in right and full joins, an inner row is unskipped and unhit just when it is related to nothing. |
| JoinExact.KeyJoinExact | src/executor/node_hashjoin.cpp:374-546 | The same for equality of keys, in any sense of equal, together with the extra condition. |
| JoinExact.RespectingJoinExact | src/executor/node_hashjoin.cpp:67-93 | Where equal keys hash alike no match is lost, and a join on keys is exact when nothing is matched by mistake and, in right and full joins, no inner row related to nothing is hit or skipped, and only then. |
| JoinExact.PlainJoinExact | src/optimizer/plan/create_plan.cpp:275-289 | Without an extra condition and with nothing skipped, wrong matches are the only way to go wrong. |
| JoinOneKey.OneKeyJoinExact | src/executor/node_hashjoin.cpp:186-195 | With one key, for every kind and memory size: exact just when, among rows that pass the condition, keys hash alike where they are equal and nowhere else, a NULL inner key hashing like the outer key whose hash is 0. |
| JoinOneKey.IntJoinExact | src/executor/node_hashjoin.cpp:67-72 | With one 64-bit integer key: exact just when no outer key is -2654435769 beside a NULL inner key that passes the condition, with the matching clauses for semi, anti, right and full joins. |
| JoinTwoKeys.RivalHash | src/executor/node_hashjoin.cpp:229-250 | With two 64-bit integer keys, a row is looked up where another is filed exactly when its second key is one number, computed from its first key and the other row. |
| JoinTwoKeys.TwoKeyJoinExact | src/executor/node_hashjoin.cpp:186-250 | With two 64-bit integer keys, for every kind and memory size: exact just when no row that such a number makes collide with another, kept, row of different keys passes the condition with it, with the matching clauses for semi, anti, right and full joins. |
| JoinTwoKeys.FirstKeyCounts | src/executor/node_hashjoin.cpp:193 | An inner join on two keys does not join (1, 5) with (2, 5). |
| JoinTwoKeys.RivalJoined | src/executor/node_hashjoin.cpp:398 | For every inner row with two keys and every other first key there is a second key with which an inner join pairs the two rows by mistake. |
| JoinOneKey.RightLosesUnmatched | src/executor/node_hashjoin.cpp:386-427 | A right join that does not hand out an inner row that matches nothing. |
| JoinOneKey.NullKeyMatches | src/executor/node_hashjoin.cpp:186-195 | An inner join on one 64-bit key that pairs a NULL key with a key that is not NULL, at any number of batches. |
| JoinOneKey.FloatZeroLost | src/executor/node_hashjoin.cpp:73-78 | An inner join on a floating-point key that loses the pair of 0.0 and -0.0, at any number of batches. |
| JoinOneKey.NotANumberJoined | src/executor/node_hashjoin.cpp:73-78 | An inner join on a floating-point key that pairs any NaN with itself, though it equals nothing. |
| JoinOneKey.ReferencedKeysLost | src/executor/node_hashjoin.cpp:90-91 | An inner join on a key hashed by its address that loses any two equal values kept in different places. |

## Findings

Where the code does other than it should, each with a concrete input and the
exact condition:

- `src/executor/node_hashjoin.cpp:351-354`: an inner row with a NULL key is
  skipped when its batch is read back, so a right or full join with two or more
  keys loses it once it spills (`TwoKeysLose`); `SpillTransparent` gives the
  exact condition, and one key is always safe (`OneKeySurvives`).
- `src/executor/node_hashjoin.cpp:388`: an entry is marked as matched before the
  extra condition is tested at line 422, although `include/executor/node_hash.hpp:28`
  says it is marked when an outer tuple matches.  A right or full join loses an
  inner row whose hash is hit and whose condition never holds
  (`RightLosesUnmatched`); `HashJoinExact` gives the exact condition.
- `src/executor/node_hashjoin.cpp:398,411,422`: matches are by hash only; keys
  are never compared, and `src/optimizer/plan/create_plan.cpp:275-289` leaves
  the condition empty, so keys that share a hash are joined
  (`KeyJoinExact`).  Since the build hash leaves NULL keys out
  (`src/executor/node_hashjoin.cpp:192-194`) this happens already with one
  integer key: a NULL key joins with -2654435769 (`NullKeyMatches`), and with
  nothing else (`IntJoinExact`).  With two integer keys every row has a rival
  beside every other first key, with which it is joined (`RivalJoined`);
  `TwoKeyJoinExact` gives the exact condition.
- `src/executor/node_hashjoin.cpp:73-78`: a float8 key is hashed by its bits but
  compared by value (`src/types/builtins.cpp:516-519`), so 0.0 and -0.0 are not
  joined (`FloatZeroLost`) and NaN is joined with itself (`NotANumberJoined`);
  `OneKeyJoinExact` gives the exact condition.
- `src/executor/node_hashjoin.cpp:90-91`: a key of any other type is hashed by its
  datum, which for types passed by reference is an address, so equal values in
  two places are not joined (`ReferencedKeysLost`); `OneKeyJoinExact` again.

Where the model had to choose or comments differ from the code:

- `src/executor/node_hashjoin.cpp:212` divides by the memory limit: a limit of 0
  is undefined there, and the model requires a positive one.
- `include/lib/rbtree.hpp:9-12` speaks of a left-leaning tree with a single
  sentinel; the code is the ordinary red-black tree with null leaves and lets
  red nodes lean right.  The model follows the code.
- `include/lib/binaryheap.hpp:14` lists `RemoveAt`, which the class does not have.

## Left out

- PairCredit.AmortisedLinks: charges Add and Meld a logarithm, although include/lib/pairingheap.hpp:11-14 claims constant amortised cost for them; with the product potential only the logarithmic charge holds, while each of them makes at most one link.
- HashJoins.HashJoin.constructor: requires a positive memory limit, because the source divides by it.
- The order in which `unordered_multimap` enumerates entries: the model uses insertion order; the results are multisets.
- Tuplestores: a sequence of rows with a read position; their files, memory limits and I/O errors, and the new addresses that values passed by reference get when they are spilled.
- HashDatum: any function of a key datum, be it a value, a bit pattern or an address, and of how the type of its column has it hashed.
- Memory sizes: unbounded numbers; each row's size is a parameter, and the 64-bit counter does not overflow.
- Projection of joined rows, slots, expression contexts and memory contexts: a joined row is named by the rows it is made of.
- Join types other than inner, left, right, full, semi and anti.
- The overloads for moved values, the null `out` argument of `Pop`, writing through the pointer `Find` returns, `Max`, `Peek`, `Reset` and `Reserve`.
- `dshash`, `ilist`, `bloomfilter`, `hyperloglog`, `integerset` and the rest of the database: parser, planner, storage, indexes, replication, protocol and tools.
