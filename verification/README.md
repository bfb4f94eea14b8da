# Kelvin, verified

A Dafny model of Kelvin's trees, and proofs of what they promise. Kelvin keeps ordered and hashed trees whose nodes are
loaded lazily, copied on write, annotated, and stored under their own hash. The model covers the 2-3 tree, both widths of
the hash array mapped trie (HAMT), the radix trie, the cursor that searches and rewrites trees, the annotations, the
handle layer with its hash caches, the store, and Merkle proofs.

## How the model is laid out

- `Trees.dfy`, `Content.dfy`: a *tree* (`Tree`) is what a handle stands for: an empty slot, a leaf, or a node with its
  annotation and children. `Content.dfy` gives the bytes of every node and its digest, and shows that equal bytes mean
  equal nodes up to the digests of their children.
- `Store.dfy`, `Handles.dfy`, `Snapshots.dfy`: the disk as an append-only byte string with an index of offsets; the
  three kinds of sink; handles (`Handle`) that are loaded, hashed, or only known by digest. `Represents` and `Holds` say
  which tree a handle or node stands for; they contain the cache law, that a cached hash is the hash of that node.
- `Search.dfy`, `Frames.dfy`, `Branch.dfy`, `Iter.dfy`: search methods, the cursor as a stack machine over trees
  (`Frames`) and as the class that runs it over handles (`Branch`), and iteration.
- `Cardinality.dfy`: annotations as folds over leaves, `count`, `nth`.
- `KeyValues.dfy`, `Two3.dfy`, `Two3Lookup.dfy`: sorted key-value leaves and the 2-3 tree.
- `Hamt.dfy`, `HamtLookup.dfy`: the tries, wide and narrow.
- `MapTrees.dfy`, `Maps.dfy`, `Runs.dfy`: the map interface over all three, and runs of operations against a plain map,
  with snapshots. `Runs.After` gives the map and the tree that operations lead to, as functions (`Two3.InsertT`,
  `Two3.RemoveT`, `Hamt.TrieOf`, `MapTrees.Refilled`), and `Runs.Run` is proved to go through exactly those.
- `Proof.dfy`, `Membership.dfy`: Merkle proofs, and proofs that a map holds a key.
- `Nibbles.dfy`, `Radix.dfy`, `RadixMap.dfy`: half-byte buffers, the radix trie, and the map it makes over byte keys.
- `RadixShape.dfy`, `RadixRemains.dfy`, `RadixUnique.dfy`, `RadixCodec.dfy`: which of its nodes are needed, keys after
  which one is left that is not, what makes a trie the only one with its contents, and its nodes as bytes.

Formats and places are also said by number, apart from the functions that compute them: slots (`Hamt.SlotIs`,
`MapTrees.LeafPlace`, `Radix.FindBySlot`), mask bits and headers (`Content.MaskPlace`, `Content.HeaderIs`), tags
(`Handles.HandleRead`), offsets (`Nibbles.EncodingIs`), half-bytes (`Nibbles.Halves`). And what a run answers is also said
of its script alone, read backwards (`Runs.Recall`, `RadixMap.Latest`).

Everything that changes in place in the source and outlives a call is a class here (`Store`, `Source`, `Sink`,
`RawBranch`, `LeafIter`, `Proof`, `Map`, `Session`, `NibbleBuf`, `RadixMap`). Tree nodes are values: a Rust node is
owned by one handle and borrowed by one caller at a time, so `&mut self` is written as a node handed in and its successor
handed out, next to a ghost tree for each. That a method verifies also means that none of the `unreachable!`, `expect`,
`into_leaf`, `into_node` and index operations in the code it models can fail, unless its result has a `Panic` or
`Overflow` case.

## What is assumed

- The leaf and annotation codecs are prefix-exact (`PrefixExact`): decoding an encoding followed by anything gives the
  value back and its length. Digests have one fixed length (`Env.Lawful`).
- A hash with digests of fixed length collides somewhere, so injectivity is never assumed outright. Where it matters, the
  blobs at hand are named and required not to collide among themselves (`CollisionFree`, `Room`): for storing a tree, its
  own nodes and what the store holds; for a run, the nodes of the trees it takes snapshots of and no others; for comparing
  two root hashes, the nodes of the two trees. Which trees a run takes snapshots of is a function of its operations
  (`Runs.After`), so this asks nothing of trees that never occur.
- Keys of the 2-3 tree and of the tries are integers: only their order, their equality and their digests are used.

## Where the code departs from what is written about it

- The narrow trie's `select_slot` writes `hash[ofs] & 0xC0 >> 6`, which is `hash[ofs] & (0xC0 >> 6)`: all four arms take
  the two lowest bits of the byte. The wide trie takes the high half of every even byte and the low half of every odd one,
  each at two depths. So distinct digests need not separate, and an insertion that has to separate two that do not runs
  past the end of the digest and panics. `Hamt.Inseparable` and `Hamt.MeetMasked` say exactly which keys those are,
  `Hamt.Unseparated` and `Hamt.ClashingKeys` give examples, for digests of any length; `Hamt.SubInsert` panics exactly on
  those, and `Hamt.TrieExists` shows that a map without such keys always has its trie.
- `MaxKey`'s `op` is commented as taking the minimal key; it takes the greater one, and the model does.
- The radix trie accepts keys of any lengths, and its tests use some. A lookup can hit a leaf whose key only starts with
  the one searched for, and both insertion and removal can panic. `Radix.LookupRight`, `Radix.InsertIn` and
  `Radix.RemoveIn` say exactly when, in terms of the trie and the key as they are before the call (`Misled`, `Blocked`,
  `RemovePanics`); `RadixMap.FalseHit`, `RadixMap.PastLeafPanics`, `RadixMap.AtNodePanics` and `RadixMap.StrandingPanics`
  are byte keys of one and two bytes, in tries that insertions build, for which it happens. Over keys of one length none
  of it does (`RadixMap.Run`).
- The map tests, and one of the radix trie, expect (`assert_correct_empty_state`) that the root of an emptied map has no
  occupied child. For the 2-3 tree and the tries that is so (`Maps.Map.EmptyState`). For the radix trie it is not, even
  over keys of one length: a node that collapsed is replaced by its last leaf, and if that was all the node above held, it
  is not hoisted further (a comment at that place asks whether it should be). `RadixRemains.LeftBehind` inserts and
  removes three keys of two bytes and ends with a node at the root and no key. `RadixShape.RemovedFull` says exactly which
  removals leave a node that is not needed (`Withers`), and `RadixMap.RadixMap.EmptyState` that a trie without a key is in
  its empty state exactly if every node in it is needed. An emptied node has no annotation to combine, so its handle keeps
  the one it had (`Handles.DropMut`).
- A `NibbleBuf` with more than 65535 nibbles to its end is written with truncated offsets; `Nibbles.RoundTrip` holds
  exactly below that, `Nibbles.TooLong` is a buffer that is not read back, and `Nibbles.KeysFit` shows that keys within
  `MAX_KEY_LEN` stay below it. Equal buffers are written as the same bytes exactly if they start on the same half
  of a byte and their stray half-bytes agree (`Nibbles.EqualBuffersWritten`).

## Model

| member | source | states |
|---|---|---|
| Content.MaskBit | structures/hamt/src/lib.rs:472-479 | bit `j` of the mask built slot by slot is set exactly when slot `j` is occupied |
| Content.BitTest | structures/hamt/src/lib.rs:483-487 | what `persist` and `restore` test a mask for is its bit of weight two to the power `i` |
| Content.MaskPlace | structures/hamt/src/lib.rs:472-479 | so slot `j` is occupied exactly if the bit of weight two to the power `j` of the mask is a one |
| Content.MaskValue | src/content.rs:157-169 | the two bytes of a mask are its value in base 256, high byte first |
| Content.MaskRead | src/content.rs:157-169 | and so they are read |
| Content.HeaderIs | structures/hamt/src/lib.rs:471-481 | the header by its bits: the number of children of a 2-3 node; bit `j` of the one byte of a narrow node for slot `j`; for a wide one bit `j` of the second byte for slot `j`, and of the first for slot `j + 8` |
| Content.BodyConcat | structures/hamt/src/lib.rs:483-487 | children are written in order, one behind the other, empty slots of a trie not at all |
| Content.MaskRoundTrip | structures/hamt/src/lib.rs:481 | the mask survives being written as two bytes, high one first |
| Content.SmallMask | structures/hamt/src/lib.rs:511-520 | the mask of a narrow node fits in the one byte written for it |
| Content.HandleBytesCancel | src/handle.rs:148-220 | handle encodings are prefix-free: from equal byte strings that start with a handle's encoding follow the same leaf, or digest and annotation, and the same remainder |
| Content.NodeBytesInjective | structures/hamt/src/lib.rs:471-489 | two nodes of one kind with equal bytes have equally many children, which agree on leaves, annotations and digests |
| Content.StoredExtends | src/store.rs:113-124 | a tree that a store resolves stays resolvable as the store grows |
| Content.PutStores | src/store.rs:135-141 | once its children are stored, putting a node's bytes makes the whole node resolvable, and adds only blobs of that tree, unless blobs collide |
| Store.Store.Put | src/backend/disk.rs:71-84 | a new blob becomes resolvable and every earlier one keeps its bytes; one already there is left alone |
| Store.Store.Get | src/backend/disk.rs:58-69 | a stored digest gives a reader whose front is exactly the blob put under it, whatever has been appended behind it; others give nothing |
| Store.Sink.Fin | src/sink.rs:45-60 | a dry run touches no store; the writing modes store the bytes under the digest they return |
| Handles.HoldsExtends | src/handle.rs:38-48 | what a node in memory stands for does not change as the store grows |
| Handles.Combined | src/annotations/mod.rs:62-78 | the annotation computed over the handles is that of the trees they stand for, loaded or not |
| Handles.NewNode | src/handle.rs:394-398 | a new node handle stands for its children under their combined annotation, with no cached hash |
| Handles.DropMut | src/handle.rs:96-112 | after a write to the node behind a handle the handle stands for the new node, exactly annotated, and carries no stale hash |
| Handles.HandleParses | src/handle.rs:148-241 | every handle written is read back, nodes unloaded, and exactly what follows it is left, whatever that is |
| Handles.HandleRead | src/handle.rs:222-241 | the first byte decides: 0 is an empty slot, 1 a leaf, 2 a digest and an annotation, and nothing else is read at all; by position, for any bytes |
| Handles.HeaderRead | structures/hamt/src/lib.rs:491-493 | the header as numbers: width and mask, from any bytes |
| Handles.SlotRead | structures/hamt/src/lib.rs:494-498 | slot `i` is read from the bytes exactly if the bit of weight two to the power `i` of the mask is a one, and left empty otherwise |
| Handles.NodeParses | structures/hamt/src/lib.rs:471-501 | every node written is read back with all its children, and nothing behind it is read, for all three kinds of node |
| Handles.RestoreHandle | src/handle.rs:222-241 | from any bytes, reads the handle at their front, or fails: on an unknown tag, on bytes that run out, on a leaf or an annotation that does not decode |
| Handles.RestoreHeader | structures/hamt/src/lib.rs:491-493 | from any bytes, the number of slots and the mask at their front, or a failure if there are too few |
| Handles.RestoreSlot | structures/hamt/src/lib.rs:494-498 | a slot is read exactly if the mask has its bit, and is empty otherwise |
| Handles.RestoreNode | structures/two3/src/lib.rs:488-495 | from any bytes, reads the node at their front, or fails where a handle does; a fourth child of a 2-3 node overflows its array |
| Handles.Load | src/store.rs:151-162 | a digest that is not stored gives an error; one under which a tree is stored gives, from a reader that runs to the end of the log, a node that stands for that tree |
| Handles.InnerMut | src/handle.rs:500-524 | loading a persisted child in place does not change what the handle stands for |
| Handles.PersistHandle | src/handle.rs:148-220 | both modes write the handle's own bytes and keep its meaning; writing leaves no loaded node, and makes everything below resolvable |
| Handles.HashNode | src/handle.rs:160-190 | a node's digest, the same whether it was cached or has to be worked out |
| Handles.StoreNode | src/handle.rs:160-190 | a node, hashed before or not, is stored under its true digest |
| Handles.PersistNode | structures/two3/src/lib.rs:480-486 | a node's bytes are written and its meaning kept; a writing run adds only blobs of its tree |
| Handles.PersistHeader | structures/hamt/src/lib.rs:471-481 | the mask or length written is that of the tree the node stands for |
| Handles.PersistBody | structures/hamt/src/lib.rs:483-487 | the occupied slots are written in order; while some are persisted and others not, the node keeps its meaning and so do all stored trees |
| Snapshots.RootHash | src/compound.rs:63-67 | a dry run gives the hash of the node's header followed by its children, changes no store, and keeps the tree |
| Snapshots.Persist | src/store.rs:113-124 | persisting returns the digest a dry run would, keeps the tree, makes it and all below it resolvable, and removes or changes no earlier blob |
| Snapshots.HashCommits | src/compound.rs:63-67 | trees with one root hash are one tree, if no two of their nodes collide |
| KeyValues.PutIsUpdate | structures/two3/src/lib.rs:148-154 | putting a leaf in key order is updating the map the leaves stand for |
| KeyValues.DelIsRemoval | structures/two3/src/lib.rs:312-322 | deleting a leaf is removing its key from that map |
| KeyValues.ListsAlike | src/tests/quickcheck_map.rs:116-125 | two listings of a map differ in their order only |
| Search.SameViews | src/search.rs:29 | a search method sees the same thing whether nodes are loaded, hashed or neither |
| Search.ViewsAgree | src/search.rs:29 | so a method that looks at direct children answers of handles as it does of the trees they stand for |
| Frames.LevelSearch | src/raw_branch.rs:255-273 | the offset of a level never moves back, and stays when nothing is found; past the last child the method is not asked |
| Frames.PopShrinks | src/raw_branch.rs:333-340 | leaving a level and stepping past it brings the cursor closer to the end of the tree |
| Frames.EnterShrinks | src/raw_branch.rs:324-332 | so does entering a node, whatever the method skipped to get there |
| Frames.RunKeeps | src/raw_branch.rs:312-347 | a search ends, and relinking afterwards gives the tree it would have given before, with any method at all: it is handed the children of the node as whole trees |
| Frames.PopLinked | src/raw_branch.rs:382-394 | a popped level is put back so that the leaves around it, the shape and the exact annotations of the level below are kept |
| Frames.RelinkShape | src/raw_branch.rs:397-399 | the relinked root has the original shape and exact annotations |
| Frames.Visited | src/raw_branch.rs:397-399 | its leaves are those the cursor has passed followed by those it has yet to visit |
| Frames.FirstRun | src/search.rs:40-53 | searching with `First` stops on the next leaf not yet visited, and fails exactly when there is none |
| Frames.FirstSettles | src/iter.rs:33-66 | and neither skips nor repeats a leaf on the way |
| Frames.RelinkLeaves | src/raw_branch.rs:382-399 | relinking puts the leaves of the topmost level back between those around it |
| Frames.SetLeafWrites | src/raw_branch.rs:363-372 | a leaf written through the cursor changes no leaf before or after it, and no shape |
| Branch.RawBranch.PopLevel | src/raw_branch.rs:382-394 | the class's levels stay those of the stack machine, owned nodes going back into their parents |
| Branch.RawBranch.Descend | src/raw_branch.rs:324-344 | the level pushed is the node pointed at, loaded if need be |
| Branch.RawBranch.Turn | src/raw_branch.rs:317-345 | one turn of the loop takes the stack machine's step, and comes closer to the end of the tree if it goes on; the method is handed the handles themselves, and may look into them as far as it likes |
| Branch.RawBranch.Search | src/raw_branch.rs:312-347 | the loop ends where the stack machine does, for every state and every method whose answers do not depend on what is loaded or hashed |
| Branch.RawBranch.PutLeaf | src/raw_branch.rs:166-189 | writing through a borrowed node clones it first; one leaf changes |
| Branch.RawBranch.Relink | src/raw_branch.rs:397-399 | the root handed back stands for the relinked tree, every cached hash in it being right |
| Branch.InsertNode | src/raw_branch.rs:214-228 | a child put back is annotated anew, and makes its parent an owned node |
| Iter.LeafIter.Next | src/iter.rs:33-66 | each step yields the first leaf not yet yielded, and after the last one it only ever ends |
| Iter.LeafIter.Settle | src/iter.rs:36-65 | where a search with `First` left the branch, its leaf is the one to yield; without one the branch is dropped and all leaves have been yielded |
| Iter.LeafIter.NextMut | src/iter.rs:87-120 | so does the mutable one, which takes its node over as it hands a leaf out |
| Iter.LeafIter.Put | src/iter.rs:87-120 | assigning through the reference handed out changes that leaf only |
| Iter.LeafIter.Drop | src/branch.rs:141-149 | dropped before, during or after iteration, the tree keeps its shape and exact annotations, and its leaves are those written so far and the rest untouched |
| Iter.Collect | src/iter.rs:140-142 | `iter` gives every leaf once, left to right |
| Iter.AssignAll | src/iter.rs:87-120 | a loop over `iter_mut`, stopped by running out of values or of leaves, has rewritten as many leaves as it had values for |
| Iter.Update | src/iter.rs:144-146 | a loop over `iter_mut` that stops after any number of leaves rewrites exactly those |
| Iter.AssignEach | src/iter.rs:87-120 | a loop over `iter_mut` run to its end rewrites every leaf from what it was, each once |
| Iter.UpdateEach | src/iter.rs:144-146 | so the tree that comes out has every leaf rewritten, its shape and exact annotations |
| Cardinality.FoldConcat | src/annotations/mod.rs:44-47 | for an associative operation the fold over joined leaf sequences is the two folds combined |
| Cardinality.FoldIs | src/annotations/mod.rs:44-47 | of two stretches of leaves the left one is the left operand, and a single leaf has its own annotation |
| Cardinality.CombineIsFold | src/annotations/mod.rs:62-78 | an exactly annotated tree carries the fold over its leaves, however its nodes are arranged |
| Cardinality.KidsTotal | src/annotations/cardinality.rs:35-51 | the cardinality is the number of leaves |
| Cardinality.Count | src/annotations/cardinality.rs:80-84 | `count` is the number of leaves, zero for an empty root |
| Cardinality.NthSelect | src/annotations/cardinality.rs:104-129 | the loop over the children, with its counter, is the search method the cursor is run with |
| Cardinality.NthSelects | src/annotations/cardinality.rs:104-129 | it picks the child the n-th leaf lies in, and is left with the leaf's place in it |
| Cardinality.NthRun | src/raw_branch.rs:312-347 | that search ends on the leaf with n leaves before it, and enters nodes only, never backing out of one |
| Cardinality.NthPastEnd | src/raw_branch.rs:333-340 | past the last leaf it finds nothing |
| Cardinality.GetNth | src/annotations/cardinality.rs:145-147 | `nth(i)` is the i-th leaf of the iteration order, and nothing exactly when there are no more than i leaves |
| Two3.NodeMaxKey | src/annotations/max_key.rs:28-38 | the annotation of a sorted subtree is its last key |
| Two3.SelectFinds | structures/two3/src/lib.rs:85-112 | the child selected is the only one that can hold the key, or the last one for keys past them all |
| Two3.SplitAt | structures/two3/src/lib.rs:272-292 | cases A and B both give two nodes of two which together are the full node with the new child in its place |
| Two3.SplicedGives | structures/two3/src/lib.rs:244-308 | how a sequence of children is spread over one node, two, or two below a new root leaves no choice |
| Two3.InsertAt | structures/two3/src/lib.rs:244-308 | a handle put into a node with room, into a split node, or under a new root, always leaves the children in order and exactly annotated |
| Two3.InsertLeaf | structures/two3/src/lib.rs:204-211 | a new leaf goes in before the first greater key, or last |
| Two3.InsertBack | structures/two3/src/lib.rs:220-229 | whatever the recursive call made of the child, putting it back inserts the leaf into the whole node |
| Two3.InsertIn | structures/two3/src/lib.rs:177-309 | insertion puts the leaf in key order and keeps order, uniform depth, occupancy and exact annotations, returns the leaf displaced, and asks for a split only below the root; the tree it leaves is a function of the tree and the leaf (`InsertT`), whatever is loaded or cached |
| Two3.InsertSibling | structures/two3/src/lib.rs:225-228 | a split child's second half next to the first keeps all that through any cascade |
| Two3.MergePrev | structures/two3/src/lib.rs:404-423 | cases A and B keep the children of both nodes in order, and leave neither node with one child |
| Two3.MergeNext | structures/two3/src/lib.rs:424-444 | cases C and D do too |
| Two3.MergeIs | structures/two3/src/lib.rs:384-468 | what the four cases come to: the short node's children are put together with those of the node on its left, or, if it is the first, on its right, in one node or in two of two; no other child is touched; then a node with one child asks to be merged, and a root with one child gives way to it |
| Two3.MergeKid | structures/two3/src/lib.rs:384-468 | merging a node that lost its second child restores the invariant with the same leaves, or leaves one child below the root |
| Two3.Settle | structures/two3/src/lib.rs:446-468 | the merged node goes back if it kept a child and is removed if not; the leaves are the same and every node but perhaps this one is occupied |
| Two3.DropEmptied | structures/two3/src/lib.rs:451-467 | losing a child leaves a node occupied, asks for a merge, or collapses the root |
| Two3.CollapseRoot | structures/two3/src/lib.rs:457-463 | a root left with one child gives way to it, at one level less |
| Two3.RemoveIn | structures/two3/src/lib.rs:324-470 | removal deletes exactly the key's leaf and returns it, keeps the same invariant through every merge, and asks to be merged only below the root; the tree it leaves is a function of the tree and the key (`RemoveT`) |
| Two3.RemoveBelow | structures/two3/src/lib.rs:349-367 | whatever the recursive call left of the child, the whole node has lost exactly the key |
| Two3Lookup.Backtracks | src/raw_branch.rs:333-340 | from past the last child on every level a search comes back out to the root and gives up |
| Two3Lookup.LookupRun | structures/two3/src/lib.rs:157-164 | a lookup ends on the key's leaf exactly when it is there, also for keys past the maximum |
| Two3Lookup.HeightBound | structures/two3/src/lib.rs:270-305 | with n >= 2 levels of nodes there are between 2^n and 3^n leaves |
| Hamt.SelectSlot | structures/hamt/src/lib.rs:330-357 | a slot within the node's width, at every depth below the limit and at none beyond it |
| Hamt.SlotIs | structures/hamt/src/lib.rs:330-357 | the slot as a number, at every depth of every digest: for the wide trie the high half of byte `d / 2` or, for every other byte, its low half; for the narrow one byte `d / 4` modulo four |
| Hamt.Inseparable | structures/hamt/src/lib.rs:330-357 | two digests share all slots exactly when they agree on half of every byte, or on two bits of every byte |
| Hamt.Unseparated | structures/hamt/src/lib.rs:330-357 | distinct digests that no depth tells apart, for both widths |
| Hamt.ClashingKeys | structures/hamt/src/lib.rs:330-357 | for digests of any length and either width, two keys with different digests of which the second cannot be inserted next to the first |
| Hamt.MeetMasked | structures/hamt/src/lib.rs:330-357 | the same of two keys and their hashes |
| Hamt.CanonicalUnique | structures/hamt/src/lib.rs:84-217 | a map has one canonical trie: every slot is empty, a leaf or a node exactly as no key, one key or more share its path |
| Hamt.TrieIs | structures/hamt/src/lib.rs:84-217 | a canonical trie is the one built from its map alone, slot by slot |
| Hamt.TrieExists | structures/hamt/src/lib.rs:84-217 | that trie is canonical exactly when no two keys of the map pick the same slots at every depth |
| Hamt.HistoryIndependent | structures/hamt/src/lib.rs:84-217 | tries of one map have one root hash, whatever their histories |
| Hamt.CanonicalExact | structures/hamt/src/lib.rs:84-217 | a canonical trie is exactly annotated |
| Hamt.SubInsert | structures/hamt/src/lib.rs:84-147 | insertion leads from the canonical trie of a map to that of the map updated and returns the old value; it panics exactly if another key present picks the same slots all the way down |
| Hamt.SplitLeaf | structures/hamt/src/lib.rs:130-145 | so does the recursive split of two leaves in one slot, as deep as they share slots |
| Hamt.InsertBelow | structures/hamt/src/lib.rs:110-112 | inserting into the node in a slot inserts into the whole trie, and clashes exactly when the whole does |
| Hamt.RemoveSingleton | structures/hamt/src/lib.rs:198-217 | the one leaf of a node with nothing else in it, and nothing in every other case |
| Hamt.SingleLeaf | structures/hamt/src/lib.rs:198-217 | the trie of a map is one leaf exactly when the map has one key |
| Hamt.SubRemove | structures/hamt/src/lib.rs:149-196 | removal leads to the canonical trie of the map without the key and returns its value; below the root a node left with one leaf hands it up |
| Hamt.Hoist | structures/hamt/src/lib.rs:187-196 | a node that is not handed up still has more than one key |
| Hamt.RemoveBelow | structures/hamt/src/lib.rs:174-184 | a node that collapsed is replaced by its last leaf, and the trie is canonical again |
| HamtLookup.LookupRun | structures/hamt/src/lib.rs:257-271 | a lookup ends on the key's leaf exactly when it is there, and never runs past the digest |
| HamtLookup.CanonicalLists | structures/hamt/src/lib.rs:30-35 | the leaves of a trie list its map, each pair once |
| HamtLookup.LeafOnPath | structures/hamt/src/lib.rs:91 | every leaf lies on the slot path of its own key's hash, within the digest |
| MapTrees.LeafPlace | structures/hamt/src/lib.rs:84-147 | the path from the root to the leaf of a key is spelt by the numbers in the hash of that key: its half-bytes, or its bytes modulo four |
| HamtLookup.NodeHoldsTwo | structures/hamt/src/lib.rs:187-217 | no node below the root is empty or holds a single leaf |
| MapTrees.TreeRewritten | src/map.rs:258-275 | rewriting values, in place and in any number, keeps a tree the tree of its map |
| MapTrees.RefilledIs | src/iter.rs:87-120 | a tree is given by its shape and its leaves, so rewriting leaves in place leaves no choice about the tree |
| MapTrees.TreeLists | structures/two3/src/lib.rs:30-32 | the leaves of a map's tree list the map, each pair once, and its annotations are exact |
| MapTrees.EmptyTree | src/tests/mod.rs:25-38 | the tree of a map has no occupied child exactly if the map has no key |
| Maps.InsertTree | structures/hamt/src/lib.rs:373-375 | inserting updates the map and returns the old value, for all three structures |
| Maps.RemoveTwo3 | structures/two3/src/lib.rs:312-322 | removing updates the map, and the root never comes back asking to be merged |
| Maps.RemoveHamt | structures/hamt/src/lib.rs:399-409 | removing updates the map, and the root never collapses |
| Maps.Seek | src/map.rs:124-135 | a branch searching for a key ends on it exactly when the map has it, and nothing is modified |
| Maps.LeafWritten | src/map.rs:182-191 | a value written through `get_mut` updates the map at that key and nowhere else, and its tree at that leaf |
| Maps.RewriteValues | src/map.rs:258-275 | a loop over `values_mut` that stops anywhere rewrites exactly the values it visited, in order, each from what it was and what the loop brings |
| Maps.RewriteAll | src/map.rs:258-275 | one that runs to its end rewrites them all |
| Maps.Map.Insert | structures/two3/src/lib.rs:148-154 | `insert` is map update, or the panic of clashing keys |
| Maps.Map.Remove | structures/two3/src/lib.rs:312-322 | `remove` is map removal, returning the value |
| Maps.Map.Get | src/map.rs:349-351 | `get` is map lookup |
| Maps.Map.Assign | src/map.rs:354-359 | `get_mut` followed by a write of any function of the old value updates the map if the key is there, and does nothing otherwise |
| Maps.Map.EmptyState | src/tests/quickcheck_map.rs:109-115 | whatever was done before, the root's children are all unoccupied exactly when no key is left |
| Maps.Map.Values | src/map.rs:230-232 | `values` lists the map, each key once, in key order for the 2-3 tree |
| Maps.Map.WriteValues | src/map.rs:234-236 | writing through `values_mut` changes no key, and gives the `i`-th value visited, and no other, any function of its old value and the `i`-th of what the loop brings |
| Maps.Map.MapValues | src/tests/quickcheck_map.rs:126-138 | a full pass over `values_mut` gives every key the function's value of what it held, in whatever order the pass goes |
| Maps.Map.Count | src/annotations/cardinality.rs:80-84 | `count` is the size of the map |
| Maps.Map.RootHash | src/compound.rs:63-67 | hashing is pure but for hash caches |
| Maps.Map.Persist | src/store.rs:113-124 | persisting gives the root hash, and changes neither the map nor any earlier snapshot |
| Maps.Map.Restore | src/store.rs:144-149 | restoring a snapshot's hash gives back the map and the very tree it was taken of |
| Runs.HashOfTrie | structures/hamt/src/lib.rs:84-217 | two sessions whose tries hold one map hold one tree, with one root hash, whatever was done in each |
| Runs.HashesOfRuns | src/compound.rs:63-67 | two scripts run on a trie, that lead to one map, give the same root hash |
| Runs.RunBoth | src/tests/quickcheck_map.rs:66-173 | one script run on two of the structures gets the same answer at every step, listings up to their order, unless it breaks off a pass over the values |
| Runs.SameHashSameMap | src/compound.rs:63-67 | equal root hashes mean equal trees and equal maps, for all three structures, if no two nodes of the two trees collide |
| Runs.KeptOn | src/store.rs:144-149 | earlier snapshots resolve to their trees after the store has grown |
| Runs.SavedMore | src/store.rs:113-124 | a run only ever adds to the nodes its snapshots need |
| Runs.RoomInRun | src/store.rs:135-141 | at every snapshot of a run the tree at hand can be stored, if no two nodes of the trees it takes snapshots of collide |
| Runs.Session.Do | src/tests/quickcheck_map.rs:72-171 | one operation, from any valid state, gives the plain map's answer, leads to the state the operation is specified to lead to, tree included, and keeps every snapshot; only storing asks anything of the hash, and only of the nodes then at hand |
| Runs.Session.Write | src/tests/quickcheck_map.rs:74-153 | so do the operations that change the map, which ask nothing of the hash |
| Runs.Session.Back | src/tests/quickcheck_map.rs:165-168 | restoring any earlier snapshot makes map and tree what they were when the snapshot was taken |
| Runs.RestoreBack | src/tests/quickcheck_map.rs:165-168 | for every script and every snapshot it takes: restoring that snapshot at the end leads to the map and tree the script had led to when it was taken; one that was not taken changes nothing |
| Runs.Session.HashAndPersist | src/tests/quickcheck_map.rs:160-164 | the dry-run hash equals the hash stored, under which the tree then resolves |
| Runs.Session.Save | src/tests/quickcheck_map.rs:160-164 | taking a snapshot adds the map at hand to those that can be restored, and changes nothing else |
| Runs.Run | src/tests/quickcheck_map.rs:66-173 | every run of map operations, hashes, snapshots and restores gives, at every step, the answer of the run over a plain map, which is also what the script, read backwards, says of the keys asked for, and passes through trees of those maps only; it asks of the hash that the trees it takes snapshots of do not collide, and of a trie that no key inserted clashes with one then present |
| Runs.Recalls | src/tests/quickcheck_map.rs:66-173 | what a run holds under a key is what its script, read backwards without any map, says of it (`Recall`): the last write to the key decides, and a restored snapshot is looked up where it was taken |
| Runs.Tells | src/tests/quickcheck_map.rs:66-173 | so are the answers: a value, whether there was one, the pairs listed, and how many there are |
| Proof.Sound | src/proof.rs:84-112 | a chain of nodes that starts at a tree's root hash and ends on a leaf shows that the tree holds that leaf at the chain's path, unless nodes involved collide |
| Proof.Proof.NodeHash | src/handle.rs:461-470 | the hash of the child a level points at, if it is a node |
| Proof.Proof.Step | src/proof.rs:90-100 | one turn of the loop gives the node's hash exactly if the node points at the hash of the one below |
| Proof.Proof.Climb | src/proof.rs:87-101 | the loop accepts exactly the proofs in which every node hashes to what the one above says |
| Proof.Proof.ProveMember | src/proof.rs:84-112 | a leaf is returned exactly if the proof chains up to the root hash checked against and ends on a leaf; then the tree holds that leaf at the proof's path, unless nodes collide |
| Proof.New | src/proof.rs:65-72 | a proof copies the branch's levels, root first, and leaves the branch standing for the same tree; its hashes chain up exactly if nothing was modified through the branch, unless nodes of it collide |
| Proof.CopyLevel | src/proof.rs:44-52 | hashing and copying a level changes no tree |
| Proof.PristineChained | src/proof.rs:65-72 | a proof taken of an unmodified branch always chains up to the tree the branch stands in |
| Proof.RunPristine | src/raw_branch.rs:312-347 | no search, with any method, modifies a branch |
| Proof.RelinkPristine | src/branch.rs:141-149 | dropping an unmodified branch leaves the tree as it was |
| Proof.ChainedPristine | src/proof.rs:65-101 | the hashes chain up a branch exactly if nothing was modified through it, unless nodes of it collide |
| Proof.ChangedUnchained | src/proof.rs:89-99 | so a branch through which the tree was changed gives no chain until the change has reached its root |
| Proof.SearchedUnchained | src/branch.rs:117-129 | a leaf written through a branch that is then stepped and searched on, with any method, can only be proved of a root other than the one the tree had |
| Proof.WrittenUnchained | src/proof.rs:89-99 | for a leaf just written below the root it is enough that its own node, before and after, does not collide |
| Membership.ReachHeld | src/proof.rs:74-80 | a leaf at some path is one of the tree's leaves |
| Membership.TakeProof | src/proof.rs:65-72 | a proof from a branch that found a leaf is a proof of that leaf in its tree, which dropping the branch leaves alone |
| Membership.Prove | tests/proof.rs:27-33 | a proof of a key can be taken exactly when the map has it, and taking it does not change the map |
| Membership.Check | tests/proof.rs:35-38 | a proof that checks out against a map shows a pair the map holds |
| Membership.ProveAndCheck | tests/proof.rs:23-43 | a proof taken of one map checks out against another exactly when both have one root hash, so, without collisions, exactly when they are one tree |
| Nibbles.HalvesApart | structures/radix/src/nibbles.rs:216-232 | writing one half of a byte sets that half and keeps the other |
| Nibbles.Halves | structures/radix/src/nibbles.rs:58-69 | a byte is sixteen times its first nibble and its second |
| Nibbles.BytesShown | structures/radix/src/nibbles.rs:58-69 | and a whole buffer shows the nibbles of its bytes in that order |
| Nibbles.WindowShift | structures/radix/src/nibbles.rs:290-301 | cutting a buffer to whole bytes around its window, and shifting the offsets, keeps the nibbles |
| Nibbles.RoundTrip | structures/radix/src/nibbles.rs:277-321 | a buffer followed by anything is read back as it was, and only it is read, exactly if its offsets fit in 16 bits; for all parities of both offsets |
| Nibbles.U16Value | src/content.rs:157-169 | offsets are written modulo 65536 and read in base 256, high byte first |
| Nibbles.EncodingIs | structures/radix/src/nibbles.rs:277-303 | the encoding byte by byte: start offset, then end offset, both counted from the first byte written, then the bytes the window touches |
| Nibbles.DecodingIs | structures/radix/src/nibbles.rs:305-321 | and what is read off any bytes, likewise |
| Nibbles.TooLong | structures/radix/src/nibbles.rs:277-321 | a buffer of 65536 nibbles is read back empty |
| Nibbles.EncodingDecodes | structures/radix/src/nibbles.rs:305-321 | what was written is always enough to read from |
| Nibbles.KeysFit | structures/radix/src/lib.rs:25 | within the maximum key length offsets fit |
| Nibbles.EncodingsEqual | structures/radix/src/nibbles.rs:277-303 | buffers of one length are written as the same bytes exactly if they start on the same half of a byte and touch the same bytes |
| Nibbles.EqualBuffersWritten | structures/radix/src/nibbles.rs:156-168 | equal buffers are, exactly if they start on the same half and agree on the half-bytes outside the window that their outermost bytes hold |
| Nibbles.EqualNotIdentical | structures/radix/src/nibbles.rs:156-168 | two equal buffers that are not |
| Nibbles.NibbleBuf.Get | structures/radix/src/nibbles.rs:58-69 | the nibble at an index of the window |
| Nibbles.NibbleBuf.PopNibble | structures/radix/src/nibbles.rs:209-214 | takes the first nibble off |
| Nibbles.NibbleBuf.TrimFront | structures/radix/src/nibbles.rs:204-207 | drops a prefix |
| Nibbles.NibbleBuf.TrimBack | structures/radix/src/nibbles.rs:83-86 | drops a suffix |
| Nibbles.NibbleBuf.Set | structures/radix/src/nibbles.rs:216-232 | one nibble of the buffer becomes the low half of the value given, all others keep their values; at most one byte is added, with its other half zero |
| Nibbles.NibbleBuf.Push | structures/radix/src/nibbles.rs:234-238 | appends a nibble, whatever lay behind the window and whatever the value, and changes no other half-byte |
| Nibbles.NibbleBuf.Append | structures/radix/src/nibbles.rs:240-245 | appends another buffer's nibbles, and changes no other half-byte |
| Nibbles.NibbleBuf.CommonPrefixLen | structures/radix/src/nibbles.rs:99-107 | the length of the longest common prefix |
| Nibbles.NibbleBuf.Common | structures/radix/src/nibbles.rs:92-97 | the longest common prefix, as a window on the same bytes |
| Nibbles.NibbleBuf.Persist | structures/radix/src/nibbles.rs:277-303 | writes the offsets and the bytes the window touches |
| Nibbles.Restore | structures/radix/src/nibbles.rs:305-321 | reads offsets and as many bytes as the end offset needs, or fails if there are too few |
| Radix.InsertIn | structures/radix/src/lib.rs:159-230 | insertion changes what is held under its key and under no other; it panics exactly if the key goes on past a stored leaf's or stops at an inner node; keys of one length stay so; the trie it leaves is a function of trie, key and value (`Inserted`) |
| Radix.InsertBelow | structures/radix/src/lib.rs:219-229 | inserting below the node in a slot inserts into the whole trie, and panics exactly if that does |
| Radix.FindBySlot | structures/radix/src/lib.rs:176-195 | the slots by number: slot 0 for the key that ends at the node, slot `i + 1` for those that start with nibble `i`; a leaf's key is that nibble and the prefix, and a child node's keys come behind them |
| Radix.SplitSlot | structures/radix/src/lib.rs:196-218 | splitting a path never panics and loses nothing below it |
| Radix.CutSame | structures/radix/src/lib.rs:197-209 | a path cut in two with a node in between holds what it held |
| Radix.Select | structures/radix/src/lib.rs:77-112 | the search method never answers that there is nothing, so the cursor only ever descends |
| Radix.WalkFinds | structures/radix/src/lib.rs:77-112 | a search, trimming by the common length even where the path differs, finds its key if it is there, and otherwise nothing or a leaf with a longer key |
| Radix.WalkStored | structures/radix/src/lib.rs:77-112 | what it ends on is a stored pair |
| Radix.WalkMisled | structures/radix/src/lib.rs:77-112 | a guard on trie and key, read off the path the key takes, says before the search whether it will end on a longer key |
| Radix.LookupRight | structures/radix/src/lib.rs:134-139 | a lookup is right exactly when that guard does not hold; so whenever no stored key is longer than the one looked up |
| Radix.GetIn | structures/radix/src/lib.rs:134-139 | the loop of the cursor follows that search |
| Radix.RemoveIn | structures/radix/src/lib.rs:246-332 | removal forgets its key and no other, returns its value, and puts the path of a collapsed node together; it panics exactly where insertion would or where the key ending at a node would be left alone in it; the trie it leaves is a function of trie and key (`Removed`) |
| Radix.TakeLeaf | structures/radix/src/lib.rs:278-291 | taking a leaf out of a node below the root collapses it if one other leaf is left, and panics exactly if that leaf has no slot of its own |
| Radix.RemoveBelow | structures/radix/src/lib.rs:296-331 | a collapsed node's leaf, under the path put together, holds what the node held |
| Radix.FindSingleton | structures/radix/src/lib.rs:334-354 | where the only leaf of a node with nothing else in it is |
| Radix.UniformFree | structures/radix/src/lib.rs:159-230 | with keys of one length nothing is ever in the way of a key |
| Radix.UniformKeys | structures/radix/src/lib.rs:159-230 | such a trie holds keys of that length only |
| Radix.UniformUnstranded | structures/radix/src/lib.rs:334-354 | nor is a key ever left alone at a node |
| RadixMap.NibblesInjective | structures/radix/src/nibbles.rs:50-56 | different byte strings have different nibbles |
| RadixMap.NibblesAre | structures/radix/src/nibbles.rs:50-56 | byte `i` of a key is sixteen times nibble `2 * i` and nibble `2 * i + 1` |
| RadixMap.EvenIsKey | structures/radix/src/nibbles.rs:50-56 | and every even number of nibbles is some byte string's |
| RadixMap.RadixMap.Insert | structures/radix/src/lib.rs:153-157 | over keys of one length `insert` is map update; in general it is, or panics exactly as stated; it leaves no node that is not needed, nor a prefix on a vacant slot |
| RadixMap.RadixMap.SameTrie | structures/radix/src/lib.rs:159-230 | insertions alone lead to one trie: two that were never removed from and hold the same are the same |
| RadixMap.RadixMap.Remove | structures/radix/src/lib.rs:233-244 | likewise `remove`; it leaves a node that is not needed exactly if one withers on the way to the key, and no prefix on a vacant slot |
| RadixMap.RadixMap.Get | structures/radix/src/lib.rs:134-139 | `get` never panics, and is map lookup exactly when the guard on trie and key does not hold; over keys of one length always |
| RadixMap.RadixMap.EmptyState | structures/radix/src/lib.rs:519-531 | once no key is left, the root's children are all unoccupied exactly if every node of the trie is needed |
| RadixMap.FalseHit | structures/radix/src/lib.rs:77-112 | with `00 01` inserted, a lookup of `00` hits |
| RadixMap.PastLeafPanics | structures/radix/src/lib.rs:219-229 | with `00` inserted, inserting `00 01` panics |
| RadixMap.AtNodePanics | structures/radix/src/lib.rs:190-195 | with `00 10` and `00 20` inserted, inserting `00` panics |
| RadixMap.StrandingPanics | structures/radix/src/lib.rs:345-350 | with `00 10` and `00` inserted, removing `00 10` panics |
| RadixMap.Run | structures/radix/src/lib.rs:121-355 | over keys of one length every run agrees with a plain map and none panics |
| RadixMap.AnswersLatest | structures/radix/src/lib.rs:121-355 | and the plain map's answer is the value last inserted under the key and not removed since (`Latest`) |
| RadixShape.CrowdedHolds | structures/radix/src/lib.rs:519-531 | a trie of needed nodes that is not empty holds a key |
| RadixShape.InsertedFull | structures/radix/src/lib.rs:159-230 | insertion into a trie of needed nodes leaves one |
| RadixShape.RemovedFull | structures/radix/src/lib.rs:296-354 | removal does, exactly unless a node below the root has for its only child one that collapses as the key goes |
| RadixUnique.InsertedTight | structures/radix/src/lib.rs:196-218 | insertion makes a node only where two keys part |
| RadixUnique.TightUnique | structures/radix/src/lib.rs:159-230 | tries with nodes only where keys part, and no prefix on a vacant slot, are the same if they hold the same |
| RadixUnique.RemovedClean | structures/radix/src/lib.rs:278-331 | removal leaves no prefix on a vacant slot, at whatever depth, nor does a collapse |
| RadixRemains.LeftBehind | structures/radix/src/lib.rs:318-331 | with `00 00`, `00 10` and `01 00` inserted and `01 00`, `00 00` and `00 10` removed no key is left, and the root has a node |
| RadixCodec.StubParses | src/handle.rs:148-241 | a handle written, nodes by their digest, is read back and exactly what follows it is left |
| RadixCodec.NodeOrder | structures/radix/src/lib.rs:364-374 | handle `i` is written behind the handles before it, and prefix `j` behind all handles and the prefixes before it |
| RadixCodec.NodeParses | structures/radix/src/lib.rs:364-386 | a node is read back with all seventeen handles and the nibbles of all sixteen prefixes, whatever follows it, if the prefixes' offsets fit in 16 bits |
| RadixCodec.NodeBytesInjective | structures/radix/src/lib.rs:364-374 | nodes with the same bytes have the same handles and prefixes |
| RadixCodec.Persist | structures/radix/src/lib.rs:364-374 | writes handles, then prefixes |
| RadixCodec.Restore | structures/radix/src/lib.rs:376-386 | from any bytes, reads a node off their front, or fails where a handle or a prefix does |

## Left out

- Two3.InsertIn: tree nodes are values handed in and out, not objects changed in place; sharing of a node between clones through `Rc` and the clone on write of `Rc::make_mut` are not modelled.
- Hamt.SubInsert: on a panic nothing is said about what is left of the trie.
- Hamt.SubRemove: `remove_singleton` loads each child to tell its type; the model looks at the handle, which tells as much.
- Two3.RemoveIn: the replaced slot is never seen empty between `mem::replace` and the handle put back, as the node is out of reach meanwhile.
- Snapshots.Persist: one store with one generation; trees spread over several stores, generations, flushing and sizes are not modelled.
- Store.Store.Get: errors of the operating system are not modelled; a digest that was never stored gives `None`, and `Handles.Load` an error.
- Maps.Map.Restore: only snapshots that were taken are restored; what comes of other digests is said by `Handles.Load`.
- Handles.PersistHandle: the debug assertions that recompute a cached hash are not modelled; that they hold is part of `Represents`.
- Iter.LeafIter.Put: keys of leaves do not change through `iter_mut` in the map results; for maps only values are written.
- Cardinality.Count: counters are unbounded; a tree of 2^64 leaves is not modelled.
- Radix.InsertIn: the radix trie has no annotations and no lazily loaded nodes here; its nodes as bytes are in `RadixCodec`; prefixes are nibble sequences, which `NibbleBuf` is proved to keep.
- RadixMap.RadixMap.SameTrie: prefixes are nibble sequences there; buffers that show the same nibbles can be written as different bytes (`Nibbles.EqualBuffersWritten`), so equal tries need not have equal root hashes.
- Runs.Run: a panic ends a run, so runs in which a key clashes are not followed past that insertion; `Hamt.SubInsert` says exactly when it happens.
- Radix.RemoveIn: nothing is claimed of cardinalities kept beside the trie.
- RadixCodec.Persist: of a node in memory, what is written is the digest it already has; hashing and storing the nodes below is modelled for the other structures (`Handles.PersistHandle`).
- Radix.GetIn: the cursor is written as a loop of its own, as the search method also reads prefixes; it descends only, so no level is ever popped.
- The in-memory and browser backends, locks, files and directories, `root.rs`, erased types, drawing, and the `annotation!` macro are left out: plumbing, or further instances of what is here.
- Codecs of primitive types are assumed prefix-exact, not proved so one by one.
- The stack that `quickcheck_stack.rs` tests is not in the repository, so it is not part of this model.
