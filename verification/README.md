# Xemeiah, modelled in Dafny

Xemeiah is an XML database with its own storage: a copy-on-write page store that keeps many revisions of a
document, a segment allocator inside each document, skip lists and what is built on them, and a tree of linked
element segments. This project models these layers as they are coded and proves what they are for.
`dafny verify dfyconfig.toml` checks everything.

## How the model is laid out

**Copy-on-write revisions.** `Radix` is the digit arithmetic of the indirection tree (the coverage loop, the
repeated division, the mask step). `PageTree` defines pages, revisions, the invariant `Inv` and what a revision
reads (`Lookup`). Every page has a ghost record of the revision that allocated it; a pointer is marked stolen
exactly when it leads to a page of an ancestor revision. `TreeSteps`, `RevisionSteps`, `TreeWalk`, `EntrySteps`,
`Writing`, `PathCopies` and `DropWalk` are the single steps; `PersistentStore` is the class that performs them in place;
`Branches` is about revision chains and branch dependence; `BranchManager` is the class with `createRevision`,
`forkRevision`, `dropRevisions` and `deleteBranch`. `Snapshots` runs any sequence of operations, says what each one
does and proves what holds over whole runs; `Histories` proves that every revision reads what a plain map, told by the
operations alone, would hold. A read or write of a segment page is one atomic step.

**Skip lists.** `SkipOrder` and `SkipSteps` describe a skip list by the order of its items and prove each relinking;
`SkipList` holds the map and its iterator. `MultiMap` builds chunked value lists on it, `BlobPieces` and `Blob` a
byte string in pieces. Random levels are any level below the maximum.

**Allocator.** `Units` and `Tiles` are aligned blocks that tile a set of pages; `FreeLists` the doubly linked lists
per size level, `PageLists` the sorted lists per page; `Arena` ties them together; `HoleSteps` says what each step makes
of the free segments and where new pages come; `Allocator` is the class.

**Document tree.** `DomTree` is the links of element segments; `Outlines` the child lists, the edits on them and the
journal these leave; `Dom` the class that performs the edits on the links, finds elements by id in an index and keeps
the journal as a linked list; `DomViews`, `Applying` and `Recording` connect the two, and `Removal` is the order of a
deletion and the journal of a replay. `Replay` says what replaying a
journal on the state a document was forked from does, elements that share an id included; `Simulation`,
`JournalTheorem`, `Moves`, `Fathers` and `ReplayApplies` are about when it rebuilds the source; `JournalExamples` are
concrete runs, and `Replication` forks, replays and concludes. `DocumentWalk` defines document order as a preorder;
`DocumentOrder`, `NodeSets` and `TextContent` are the comparison, the ordered node sets and `toString`.

**Escaping.** `Utf8`, `Escaping` (the writer), `Reader` (input that comes in windows), `Parsing` (the parser's text,
value and entity states), `EscapeRoundTrip`, and `References` for what no writer here emits.

## Findings

Some promises hold only under a condition; each is proved in both directions, but for what a move leaves at the end of a
run in which something that the replica has is removed after the move.

- Allocator: a first request of `size` bytes for which `size + 32` fills the pages obtained exactly leaves nothing to
  mark as free, and the code marks it all the same. `Allocator.DocumentAllocator.GetFreeSegmentPtr` states exactly when;
  `Allocator.FirstRequestFillsPage` is such a request. The first request of a volatile document does not fill its page.
- Journal replay, moves: unlinking an element writes no journal item, the insert after it does. Replay leaves the element
  at its old place and makes another one with its id, as `JournalExamples.MovedInFork` shows for the move of
  src/xemprocessor/xem-metaindexer.cpp:212-221. For any run, replay rebuilds the source at every moment if and only if at
  no moment anything that the replica has was moved, its elements are the attached ones, and texts and kinds are told
  (`Moves.RebuiltThroughout`). `JournalTheorem.ReplayRebuilds` is the same at one moment, as long as nothing was moved.
  `Fathers.AssembledExactly` covers runs that move and then remove nothing that the replica has: the source is rebuilt but
  for the order of siblings if and only if no element comes twice, the attached elements are there, texts and kinds are
  told, and every father is the one that the inserts tell without a replay.
  "No surviving element is unlinked after it was linked" is not the condition at the end of a run: `JournalExamples.MoveHealed`
  moves one and comes right, because the element it had left is removed and takes the old place with it.
- Journal replay, without moves: creating and removing nothing twice is not enough. `JournalExamples.ChildOfDetached`
  removes nothing and loses an element, `JournalExamples.SiblingOfRemoved` loses an element inserted next to one that is
  removed later. Texts of elements without a father are not journaled.
- Journal replay, comments and processing instructions: `createElement`, which replay calls with the key of the source's
  element, makes textual nodes of text nodes only. A comment inserted after the fork becomes an element with the key of a
  comment that can have children and has no text, and setting its text afterwards stops the replay with an exception
  (`JournalExamples.CommentIsHollow`). The exact conditions are part of `JournalTheorem.ReplayRebuilds` and
  `ReplayApplies.ReplayGoes`.
- Journal replay, the target's journal: the edit that replays an item journals itself, and then the item is copied as
  well, so that it comes twice (`Removal.ToldTwice`); the text of an element without a father is only copied.
- Text round trip: the parser drops carriage returns of texts (section 2.11 of XML 1.0 would turn them into line feeds)
  and, unless all text is kept, space at the start of a text. Attribute values keep both. No writer protects a single
  quote, so a value between single quotes that holds one comes back cut (`EscapeRoundTrip.QuoteInside`).
- Windows: the reader looks for a character inside its window only. Input that comes in windows is read like the same bytes
  in one window if and only if the end of no window cuts a character (`Reader.WindowsReadAlike`), and both round trips need
  this of the text or value (`EscapeRoundTrip.TextRoundTrip`, `EscapeRoundTrip.ValueRoundTrip`). A file is read in windows of
  256 MB, a blob in its pieces. `EscapeRoundTrip.CutText` is a text that comes back as two characters; output for US-ASCII
  is never cut.
- `readPiece` adds offset and count as 64-bit numbers; it fails exactly when the sum wraps.
- The comment above skip-list `erase` in the header promises that the iterator moves to the next item; the code leaves
  it unpositioned, and so does the model.

## Model

| member | source | states |
|---|---|---|
| `Radix.CoveredArea` | src/persistence/persistentdocumentallocator-indir.cpp:125-154 | the coverage loop gives the number of relative pages below the root; up to six levels its products fit in 64 bits |
| `Radix.LocalOffset` | src/persistence/persistentdocumentallocator-indir.cpp:193-225 | repeated division picks the slot that repeated subtraction of the covered area would pick |
| `Radix.MaskStep` | src/persistence/persistentdocumentallocator-indir.cpp:225-278 | masking with the covered area minus one leaves the rest of the offset below its slot, because the area is a power of two |
| `Radix.Split` | src/persistence/persistentdocumentallocator-indir.cpp:193-278 | an offset below the covered area falls into one of the slots, and slot and rest rebuild it |
| `Radix.Join` | src/persistence/persistentdocumentallocator-indir.cpp:193-278 | slot and rest are the only way to split an offset |
| `PageTree.LeafFrame` | src/persistence/persistentdocumentallocator-indir.cpp:115-278 | what a revision reads depends only on pages owned by it and its ancestors |
| `PersistentStore.PersistentStore.AllocatePage` | src/persistence/persistentdocumentallocator-indir.cpp:14-58 | a fresh page is counted as owned by the revision, under the type of its level |
| `PersistentStore.PersistentStore.StealPageInfoPage` | src/persistence/persistentdocumentallocator-indir.cpp:303-324 | the copy is a fresh page of the writing revision, the stolen page stays |
| `PersistentStore.PersistentStore.StealIndirectionPage` | src/persistence/persistentdocumentallocator-indir.cpp:326-356 | the copy has the same pointers, every non-null one marked stolen |
| `PersistentStore.PersistentStore.OwnChild` | src/persistence/persistentdocumentallocator-indir.cpp:193-278 | after the write branches the slot holds an own page, the only one that may be new; no revision reads anything different, and pages above the level stay |
| `PersistentStore.PersistentStore.FetchFromIndirection` | src/persistence/persistentdocumentallocator-indir.cpp:193-278 | the recursion ends on the level and returns the page info page on the path of the offset; a read changes nothing, a write changes no mapping, allocates nothing off that path and ends at an own page |
| `PersistentStore.PersistentStore.IncreaseIndirectionCoveredArea` | src/persistence/persistentdocumentallocator-indir.cpp:96-113 | one more level, and every existing lookup of every revision is kept |
| `PersistentStore.PersistentStore.OwnRoot` | src/persistence/persistentdocumentallocator-indir.cpp:125-191 | a stolen root is replaced by an own copy without changing any mapping |
| `PersistentStore.PersistentStore.FetchPageInfoPagePtr` | src/persistence/persistentdocumentallocator-indir.cpp:115-191 | when a fetch is out of bounds, needs more than one new level, finds no page or finds one; a write fetch ends writable, no mapping changes, only pages on the path are new, and there is a new level exactly if the offset was not covered |
| `PersistentStore.PersistentStore.DoGetPageInfoPage` | src/persistence/persistentdocumentallocator.hpp:89-125 | the index is the remainder by 128 and the page is that of the relative page |
| `PersistentStore.PersistentStore.AuthorizePageWrite` | src/persistence/persistentdocumentallocator.cpp:130-190 | afterwards the segment page belongs to the revision, with the bytes that were read before: the same page if the revision had allocated it, else a new one; no mapping of another revision changes, and only the path to it is copied |
| `PersistentStore.PersistentStore.WriteSegmentPage` | src/persistence/persistentdocumentallocator.cpp:130-190 | a write at a page index is read back there and nowhere else, in no other revision; only the path and the page are copied |
| `PersistentStore.PersistentStore.NewSegmentPage` | src/persistence/persistentdocumentallocator.cpp:355-470 | a new segment page appears at its page index and nowhere else; only the path is copied; it fails exactly when more than one level would be needed |
| `PersistentStore.PersistentStore.SetTag` | src/persistence/persistentdocumentallocator.cpp:274-292 | the free-segment field of one entry changes, in one revision |
| `Writing.FetchThenWrite` | src/persistence/persistentdocumentallocator-indir.cpp:115-278 | a fetch for writing followed by a slot write is one write to a plain map |
| `Writing.SegmentWrites` | src/persistence/persistentdocumentallocator.cpp:355-470 | hanging a segment page into an entry changes one entry of one revision |
| `EntrySteps.Isolation` | src/persistence/persistentdocumentallocator-indir.cpp:193-278 | changing only pages owned by a writable revision leaves the mapping of every other revision |
| `TreeWalk.ReplaceChild` | src/persistence/persistentdocumentallocator-indir.cpp:193-278 | replacing a stolen or empty slot by a copy or blank page keeps the ownership invariant and every lookup |
| `TreeWalk.Grow` | src/persistence/persistentdocumentallocator-indir.cpp:96-113 | the taller tree keeps the invariant and every lookup |
| `TreeWalk.ReplaceRoot` | src/persistence/persistentdocumentallocator-indir.cpp:125-191 | copying a stolen root keeps the invariant and every lookup |
| `RevisionSteps.InheritKeeps` | src/persistence/persistentbranchmanager-revision.cpp:21-62 | copying only the root pointer and marking it stolen keeps the invariant; the new revision reads what its source reads |
| `RevisionSteps.ForgetKeeps` | src/persistence/persistentbranchmanager-revision.cpp:284-376 | revisions that no remaining one follows can be left out of the invariant |
| `DropWalk.OwnedIsUnderRoot` | src/persistence/persistentdocumentallocator-pages.cpp:46-144 | the pages on unstolen paths are exactly the pages the revision allocated |
| `DropWalk.UnderRange` | src/persistence/persistentdocumentallocator-pages.cpp:46-96 | pages below different slots cover different relative pages, so none is met twice |
| `DropWalk.OwnedTally` | src/persistence/persistentdocumentallocator-drop.cpp:76-143 | counting each collected page once gives the owned-page counters |
| `DropWalk.DropKeeps` | src/persistence/persistentdocumentallocator-drop.cpp:145-224 | freeing what a revision owns keeps every lookup, if no revision follows it |
| `PersistentStore.PersistentStore.ForPageInfoPage` | src/persistence/persistentdocumentallocator-pages.cpp:11-44 | of the entries of one page exactly the own segment pages are collected, each new |
| `PersistentStore.PersistentStore.ForIndirectionPages` | src/persistence/persistentdocumentallocator-pages.cpp:46-96 | the recursion collects exactly the own pages below, and nothing on a stolen path |
| `PersistentStore.PersistentStore.ForAllIndirectionPages` | src/persistence/persistentdocumentallocator-pages.cpp:98-144 | the walk collects exactly the owned pages, and their numbers by type are the counters of the revision page |
| `PersistentStore.PersistentStore.DropAllPages` | src/persistence/persistentdocumentallocator-drop.cpp:145-224 | frees exactly the owned pages, and no surviving revision reads anything different |
| `BranchManager.BranchManager.InheritRevisionPage` | src/persistence/persistentbranchmanager-revision.cpp:21-62 | the new revision page shares the tree of its source through a stolen root and owns nothing |
| `BranchManager.BranchManager.FormatHeadRevisionPage` | src/persistence/persistentbranchmanager-revision.cpp:64-90 | a tree of one blank page |
| `BranchManager.BranchManager.CreateRevision` | src/persistence/persistentbranchmanager-revision.cpp:141-221 | fails exactly when the newest revision is writable and inheriting is asked for; else the new revision has the next id and reads what the newest read or nothing, the newest is closed, and every other revision page and every page stays as it is |
| `BranchManager.BranchManager.CreateBranch` | src/persistence/persistentbranchmanager.cpp:102-189 | a new branch gets the next id and no revisions |
| `BranchManager.BranchManager.ForkRevision` | src/persistence/persistentbranchmanager-revision.cpp:223-282 | a new branch whose one revision reads what the source reads; every revision page, open or not, and every page stays as it is |
| `BranchManager.BranchManager.Commit` | src/persistence/persistentdocumentallocator-commit.cpp:179-193 | only the writable flag of one revision changes |
| `BranchManager.BranchManager.LookupRevision` | src/persistence/persistentbranchmanager.cpp:340-366 | finds the newest revision or the one with the id, and fails only if there is none |
| `BranchManager.BranchManager.DropRange` | src/persistence/persistentbranchmanager-revision.cpp:322-376 | exactly the revisions outside the range stay, in order; only links between their revision pages change |
| `Branches.ScanResult` | src/persistence/persistentbranchmanager-revision.cpp:331-357 | the two places the scan finds delimit exactly the revisions in the range |
| `Branches.CutKeeps` | src/persistence/persistentbranchmanager-revision.cpp:357-376 | relinking around the range keeps ids decreasing and only the newest revision writable |
| `Branches.NewestIsFree` | src/persistence/persistentbranchmanager.cpp:215-268 | when nothing is forked from a branch, no surviving revision inherits from its newest one |
| `BranchManager.BranchManager.DropRevision` | src/persistence/persistentbranchmanager-revision.cpp:299-316 | one round frees exactly the pages of the newest revision |
| `BranchManager.BranchManager.DropAllRevisions` | src/persistence/persistentbranchmanager-revision.cpp:284-321 | newest first, frees exactly the pages owned by the revisions of the chain |
| `BranchManager.BranchManager.DeleteBranch` | src/persistence/persistentbranchmanager.cpp:215-268 | the branch and all its dependants go, exactly the pages owned by their linked revisions are freed, and what is left reads the same |
| `Snapshots.Session.Perform` | src/persistence/persistentbranchmanager-revision.cpp:141-282 | what each operation does to the revision that it names, and that the step is one of a run: the bytes written are those given, commits close one revision, a new revision reads what its source read |
| `Snapshots.Session.Write` | src/persistence/persistentdocumentallocator.cpp:130-190 | succeeds exactly if the revision is there and open and the page is present; then that revision reads the bytes there, and nothing else is different |
| `Snapshots.Session.NewSegment` | src/persistence/persistentdocumentallocator.cpp:355-470 | succeeds exactly if the revision is there and open and the page is absent and within one more level; then that revision reads the bytes and the tag there, and nothing else is different |
| `Snapshots.Session.SetTag` | src/persistence/persistentdocumentallocator.cpp:274-292 | succeeds exactly if the revision is there and open and the page is present; then that revision has the tag there, and nothing else is different |
| `Snapshots.Session.Run` | src/persistence/persistentbranchmanager-revision.cpp:141-376 | any sequence of operations is a run in the sense of the lemmas below |
| `Snapshots.CommittedNeverChanges` | src/persistence/persistentdocumentallocator-indir.cpp:115-278 | in every run a committed revision reads the same until it is deleted |
| `Snapshots.SnapshotIsolation` | src/persistence/persistentdocumentallocator-indir.cpp:115-278 | in every run without branch deletion a committed revision stays, and its whole mapping never changes |
| `Snapshots.LinkedIsolation` | src/persistence/persistentbranchmanager.cpp:215-268 | with deletions, a committed revision that stays linked in its branch reads the same |
| `Snapshots.NothingIsLost` | src/persistence/persistentbranchmanager-revision.cpp:322-376 | without branch deletion no revision disappears |
| `Snapshots.OnlyNewestWritable` | src/persistence/persistentbranchmanager-revision.cpp:141-221 | at every moment of every run ids strictly decrease along a branch and only its newest revision can be writable |
| `Histories.ReadsHistory` | src/persistence/persistentbranchmanager-revision.cpp:141-282 | at every moment of every run each revision reads what one plain map per revision would hold, told by the operations alone: the shared pages refine copied maps |
| `Histories.LastWrittenIsRead` | src/persistence/persistentdocumentallocator.cpp:130-190 | in every run, what was last written to a page of a revision is what that revision reads there |
| `SkipSteps.LevelsFromHead` | src/dom/skmapref-iterator.cpp:67-195 | following the links of a level from the head visits exactly the items that reach it, in order |
| `SkipSteps.LevelsNest` | src/dom/skmapref-iterator.cpp:197-309 | each level is a sublist of the one below |
| `SkipSteps.SpliceKeeps` | src/dom/skmapref-iterator.cpp:270-309 | linking an item behind the traced items keeps the skip list, whatever its level |
| `SkipSteps.RecycleKeeps` | src/dom/skmapref-iterator.cpp:218-268 | recycling the head for a smaller hash keeps the skip list |
| `SkipSteps.UnspliceKeeps` | src/dom/skmapref-iterator.cpp:400-445 | linking past an item keeps the skip list |
| `SkipSteps.TakeOverKeeps` | src/dom/skmapref-iterator.cpp:338-400 | moving the successor into the head keeps the skip list |
| `SkipOrder.MapInsert` | src/dom/skmapref-iterator.cpp:197-309 | inserting an entry in sorted place changes the map at one key |
| `SkipOrder.MapRemove` | src/dom/skmapref-iterator.cpp:321-445 | removing an entry changes the map at one key |
| `SkipList.SkipMap.GetNewItemPtr` | src/dom/skmapref.hpp:77-103 | a new item has null links on all its levels |
| `SkipList.SkipIterator.FindClosest` | src/dom/skmapref-iterator.cpp:67-195 | finds the item with the greatest hash not above, or none, and leaves on every level the last item strictly below |
| `SkipList.SkipIterator.Found` | src/dom/skmapref-iterator.cpp:67-195 | the found item carries the hash exactly when the map has it |
| `SkipList.SkipIterator.Closest` | src/dom/skmapref-iterator.cpp:67-195 | the found entry has the greatest hash not above the one looked for |
| `SkipList.SkipIterator.Insert` | src/dom/skmapref-iterator.cpp:197-309 | for every random level: one key is added to the map, in its sorted place |
| `SkipList.SkipIterator.InsertBeforeHead` | src/dom/skmapref-iterator.cpp:218-268 | the recycled head carries the new entry, the old one is kept |
| `SkipList.SkipIterator.Erase` | src/dom/skmapref-iterator.cpp:321-445 | exactly one key goes, the order of the others stays |
| `SkipList.SkipIterator.EraseHead` | src/dom/skmapref-iterator.cpp:338-400 | head with successor, or last item: the first entry goes |
| `SkipList.SkipIterator.SetValue` | src/dom/skmapref-iterator.cpp:35-41 | the value of one key changes |
| `SkipList.SkipIterator.GetNextHash` | src/dom/skmapref-iterator.cpp:43-55 | the hash of the following entry, if there is one |
| `SkipList.SkipIterator.Next` | src/dom/skmapref-iterator.cpp:311-319 | moves to the following entry in hash order |
| `MultiMap.MultiIterator.FindHash` | src/dom/skmultimapref.hpp:9-49 | positioned on the first chunk of the hash, or nowhere if the hash is absent |
| `MultiMap.MultiIterator.Insert` | src/dom/skmultimapref.cpp:10-76 | the value goes to the end of the sequence of its hash, other hashes stay; it goes to the last chunk, and only if that is full to a new one; the iterator can insert again unless it inserted before the head |
| `MultiMap.MultiIterator.Erase` | src/dom/skmultimapref.cpp:96-179 | the first occurrence goes, the others keep their order and their chunks, an empty chunk goes, and the hash disappears exactly with its last value |
| `MultiMap.MultiIterator.Next` | src/dom/skmultimapref.cpp:78-94 | one place on in the sequence, across chunks |
| `MultiMap.MultiIterator.GetValue` | src/dom/skmultimapref.hpp:56-65 | the value at the present place of the sequence |
| `MultiMap.MultiIterator.Enumerate` | src/dom/skmultimapref.cpp:78-94 | iterating visits the whole sequence of a hash in order |
| `MultiMap.NeverEmpty` | src/dom/skmultimapref.cpp:96-179 | no hash has an empty sequence |
| `MultiMap.FlatParts` | src/dom/skmultimapref.cpp:78-94 | the sequence of a hash is what its chunks hold, one after the other |
| `Blob.BlobRef.GetPiece` | src/dom/blobref.cpp:107-163 | the bytes from the offset to the end of its piece, which is the start of the next; nothing beyond the size, never a hole |
| `Blob.BlobRef.PieceEndsOnce` | src/dom/blobref.cpp:107-163 | an offset lies in one piece |
| `Blob.BlobRef.ReadPiece` | src/dom/blobref.cpp:192-247 | the exact slice across pieces, clipped to the size; fails exactly when offset plus count wraps at 64 bits |
| `Blob.BlobRef.AppendPiece` | src/dom/blobref.cpp:249-319 | the end marker becomes a piece in a fresh segment, and a new marker follows; all bytes before stay |
| `Blob.BlobRef.AllowWritePiece` | src/dom/blobref.cpp:321-474 | a window at the offset, refused exactly beyond the size: to the end of the piece that the offset lies in, or, behind all pieces, a new piece of what is asked for, up to the largest segment; the size grows to what is asked for within the window; the hole and alignment failures cannot occur |
| `Blob.BlobRef.WritePiece` | src/dom/blobref.cpp:481-507 | the byte string is overwritten or extended by exactly the buffer at the offset; pieces are added only behind those that are there, whole segments and one for the rest |
| `BlobPieces.MergedReadsBack` | src/dom/blobref.cpp:192-247 | what was written is read back, and every other byte is as before |
| `Blob.BlobRef.CopyFrom` | src/dom/blobref.cpp:615-647 | the target becomes the bytes of the source, in whole segments and one for the rest behind the pieces that it had; refused exactly when it is larger |
| `Units.AlignSize` | src/kern/documentallocator.hpp:25-33 | the least multiple of 32 not below the size |
| `Allocator.DocumentAllocator.constructor` | src/kern/documentallocator.cpp:33-43 | an empty document: no pages, nothing handed out |
| `Allocator.DocumentAllocator.WithDocumentHead` | src/kern/volatiledocument.cpp:37-65 | after the first allocation exactly the DocumentHead is handed out, behind the reserved 32 bytes, the rest of the first pages is one free segment, and the invariant holds |
| `Allocator.DocumentAllocator.GetFreeSegmentPtr` | src/kern/documentallocator.cpp:111-157 | a first fit, or new pages if no hole fits, and where; which segments are free afterwards and in which order; the segment is added to those handed out, and reserved bytes, live and free segments tile the pages; states exactly when the call fails or breaks this |
| `Allocator.FirstRequestFillsPage` | src/kern/documentallocator.cpp:333-399 | a request after which the invariant does not hold |
| `Allocator.DocumentAllocator.FreeSegment` | src/kern/documentallocator.hpp:45-61 | exactly that segment is no longer handed out; it is free, as one with both free neighbours in its page, at the front of the list of its level; no two adjacent free segments start in its page if none did before |
| `Allocator.DocumentAllocator.MarkSegmentAsFree` | src/kern/documentallocator.cpp:170-241 | the segment becomes free, merged in its page if asked to; both list structures stay sound |
| `Allocator.DocumentAllocator.UnmarkSegmentAsFree` | src/kern/documentallocator.cpp:243-331 | exactly that segment leaves its level list and its page list; the others keep their order |
| `Allocator.DocumentAllocator.CoalesceFreeSegment` | src/kern/documentallocator.cpp:401-461 | the result starts at the left neighbour that is free in the page, if there is one, and ends behind the right one; exactly these two leave the lists; none is adjacent afterwards if none were adjacent to each other |
| `Allocator.DocumentAllocator.InsertFreeSegmentInPageList` | src/kern/documentallocator.cpp:463-518 | the page list stays sorted by offset and complete |
| `Allocator.DocumentAllocator.FromLevel` | src/kern/documentallocator.cpp:520-579 | takes the first hole of a level exactly if it is large enough; the spare part is free again |
| `Allocator.DocumentAllocator.FromHoles` | src/kern/documentallocator.cpp:581-600 | first fit: a hole of the level of the size, else one of the level of all larger sizes, else none and nothing changes; the hole is used from its start, and the rest is free again |
| `Allocator.DocumentAllocator.FromNewPages` | src/kern/documentallocator.cpp:333-399 | where the new segment is and how many pages come; they are tiled by the segment and one free rest; the first 32 bytes are never handed out |
| `Allocator.DocumentAllocator.VolatilePages` | src/kern/volatiledocumentallocator.cpp:86-130 | the run starts at the next page, unless it would reach the end of the area: then at the next area; exactly these pages are new |
| `Allocator.DocumentAllocator.PersistentPages` | src/persistence/persistentdocumentallocator.cpp:355-470 | exactly how many fresh pages; they start at the next page, unless they would leave the area: then at the next area, the pages of the gap come too and are one free segment, and no other changes |
| `HoleSteps.RunPlace` | src/kern/volatiledocumentallocator.cpp:94-113 | comparing the areas of both ends, as the code does, moves a run exactly if it does not fit into its area, and then to the next one |
| `Arena.SameFreeSegments` | src/kern/documentallocator.cpp:170-331 | a segment is in the level lists exactly when it is in the page lists |
| `Arena.FirstFits` | src/kern/documentallocator.cpp:520-600 | a request is served from a hole if and only if the first hole of its level or of the level of all larger sizes is large enough |
| `Arena.NoOverlap` | src/kern/documentallocator.cpp:111-157 | two different segments, live or free, never overlap |
| `Arena.SettledAdd` | src/kern/documentallocator.cpp:401-461 | adding a free segment that touches no other keeps free segments of a page apart |
| `Tiles.SplitTiles` | src/kern/documentallocator.cpp:520-579 | cutting a segment in two keeps the tiling |
| `Tiles.MergeTiles` | src/kern/documentallocator.cpp:401-461 | merging two adjacent segments keeps the tiling |
| `FreeLists.UnlinkLevels` | src/kern/documentallocator.cpp:243-315 | unlinking keeps last and next inverse on every level |
| `FreeLists.PushLevels` | src/kern/documentallocator.cpp:170-241 | pushing keeps last and next inverse on every level |
| `PageLists.InsertPages` | src/kern/documentallocator.cpp:463-518 | inserting keeps the offsets of every page list strictly increasing |
| `DomTree.LinkKeeps` | src/dom/elementref.cpp:98-251 | linking a detached element in keeps siblings inverse, ends right, one father and no cycle |
| `DomTree.UnlinkKeeps` | src/dom/elementref.cpp:262-310 | unlinking keeps the tree and leaves the element detached |
| `DomTree.CreateKeeps` | src/kern/document.cpp:277-334 | a new element is a tree of its own |
| `DomTree.DestroyKeeps` | src/dom/elementref.cpp:326-396 | a detached element without children can be freed |
| `Dom.Document.CreateElement` | src/kern/document.cpp:277-334 | createElement and createTextualNode: a new detached element of the kind, without children or text, behind all others in the index; whether its id is in use is not asked |
| `Dom.Document.GetElementById` | src/kern/document.cpp:418-452 | the first element of the index that carries the id, or none exactly if no element carries it |
| `Dom.Document.LinkFirst` | src/dom/elementref.cpp:208-251 | the assignments of insertChild put the element before all children |
| `Dom.Document.LinkBehind` | src/dom/elementref.cpp:144-206 | the assignments of insertAfter put the element right behind |
| `Dom.Document.LinkLast` | src/dom/elementref.cpp:98-142 | the assignments of appendLastChild put the element behind all children |
| `Dom.Document.InsertChild` | src/dom/elementref.cpp:208-251 | the edit and its one journal item |
| `Dom.Document.AppendLastChild` | src/dom/elementref.cpp:98-142 | the edit and its one journal item |
| `Dom.Document.InsertAfter` | src/dom/elementref.cpp:144-206 | the edit and its one journal item |
| `Dom.Document.InsertBefore` | src/dom/elementref.cpp:87-96 | through the father or the elder, the element comes right before; one journal item, its own |
| `Dom.Document.SetText` | src/dom/elementref.hpp:389-430 | one text changes; journaled exactly if the element has a father |
| `Dom.Document.UnlinkElementFromFather` | src/dom/elementref.cpp:262-310 | the element leaves its father's child list, everything else stays |
| `Dom.Document.Unlink` | src/dom/elementref.cpp:262-310 | a move begins: the element is detached, and the journal stays as it is |
| `Dom.Document.DeleteChildren` | src/dom/elementref.cpp:312-324 | exactly the subtrees of the children go, each element as one journaled removal, from the first child on, children before fathers |
| `Dom.Document.DeleteElement` | src/dom/elementref.cpp:326-396 | exactly the subtree goes, from the tree and from the index; the journal has one removal for each element, children before fathers and from the first child on; the recursion terminates |
| `Dom.Document.AppendJournal` | src/kern/journaleddocument.cpp:27-100 | the linked journal grows by one item at its end, also right after a fork |
| `Dom.Document.Fork` | src/persistence/persistentbranchmanager-revision.cpp:223-282 | a fork starts with the parent's tree and index and an empty journal |
| `Dom.Document.ApplyCreate` | src/kern/journaleddocument.cpp:102-135 | one more element with the id of the item and of the kind that createElement makes of the key (a comment becomes hollow), next to or into the base, with the text of a text node; an element that carries the id already stays; it fails exactly when there is no room at the base |
| `Dom.Document.ApplyItem` | src/kern/journaleddocument.cpp:138-320 | which items are skipped, which raise an exception, and what the others do to the document and to its own journal |
| `Dom.Document.ApplyJournal` | src/kern/journaleddocument.cpp:138-337 | the loop is the replay of all items in order, ends without exception exactly when every item applies, and journals what each edit tells and then the item itself |
| `Removal.ToldTwice` | src/kern/journaleddocument.cpp:198-334 | an item that is replayed comes twice in the journal of the target |
| `DomViews.BeneathIsSubtree` | src/dom/elementref.cpp:312-396 | deleting children before fathers removes exactly what can be reached from the element |
| `JournalTheorem.ReplayRebuilds` | src/kern/journaleddocument.cpp:102-217 | if nothing that the replica has is moved, replay on the forked state rebuilds the source's ids, child lists, kinds and texts if and only if the attached elements are there, the texts are told, and no comment or processing instruction came |
| `JournalTheorem.TidyRunIsRebuilt` | src/kern/journaleddocument.cpp:102-217 | a run that unlinks nothing and inserts new elements next to or into linked ones that stay moves nothing, and is rebuilt if and only if the texts are told and no comment or processing instruction came |
| `Moves.RebuiltThroughout` | src/kern/journaleddocument.cpp:102-217 | for any run: the source is rebuilt at every moment if and only if at every moment nothing that the replica has was moved, the attached elements are there, the texts are told, and no comment or processing instruction came |
| `Fathers.AssembledExactly` | src/kern/journaleddocument.cpp:102-217 | if nothing is moved up to some step, and nothing that the replica has is removed from there on: every element, kind, text and father of the source is rebuilt if and only if no element comes twice, the attached ones are there, texts and kinds are told, and the fathers are those that the inserts tell; the source is rebuilt if and only if the siblings are in order too |
| `JournalExamples.SiblingOfRemoved` | src/kern/journaleddocument.cpp:158-171 | a journal whose replay loses an element: its base was created and removed |
| `JournalExamples.ChildOfDetached` | src/kern/journaleddocument.cpp:158-171 | a journal without removals whose replay loses an element: it was put into a detached one |
| `JournalExamples.MovedInFork` | src/dom/elementref.cpp:262-310 | a journal of one insert whose replay does not rebuild a move: the element stays at its old place, and another one gets its id |
| `JournalExamples.MoveHealed` | src/kern/journaleddocument.cpp:138-217 | a move that is rebuilt, because the element that was left is removed later |
| `JournalExamples.CommentIsHollow` | src/kern/document.cpp:277-313 | a comment, inserted after the fork: the replay goes through and leaves no comment; when the comment gets another text, the replay raises an exception |
| `ReplayApplies.ReplayGoes` | src/kern/journaleddocument.cpp:138-217 | while nothing is moved, the journal goes through without an exception if and only if every element that comes or goes hangs under one that is there, and no text is set of a comment or processing instruction that came |
| `ReplayApplies.FaithfulReplay` | src/kern/journaleddocument.cpp:138-217 | the journal of such a tidy run rebuilds the source if and only if the texts are told and no comment or processing instruction came, and goes through without an exception if none came |
| `Replication.Replicate` | src/kern/journaleddocument.cpp:138-337 | a second fork of the state that a recorded source was forked from, after applying the source's journal: when it goes through, and when the two are alike |
| `DocumentWalk.PreorderDistinct` | src/dom/elementref-documentorder.cpp:17-112 | no node comes twice in a preorder |
| `DocumentWalk.Members` | src/dom/elementref-documentorder.cpp:17-112 | the preorder below an element holds exactly the nodes at and below it |
| `DocumentWalk.TotalOrder` | src/dom/elementref-documentorder.cpp:17-112 | of two different nodes exactly one comes first, and none before itself |
| `DocumentWalk.OrderTrans` | src/dom/elementref-documentorder.cpp:17-112 | document order is transitive |
| `DocumentOrder.ClimbTo` | src/dom/elementref-documentorder.cpp:74-90 | the inner loop meets the other element, or the ancestor with the sibling below it, or shows that neither is above |
| `DocumentOrder.FindSiblings` | src/dom/elementref-documentorder.cpp:64-101 | the ancestor search always ends with one element above the other, or two different siblings under a common father |
| `DocumentOrder.FirstOf` | src/dom/elementref-documentorder.cpp:103-111 | the sibling scan finds which comes first; its end is never reached |
| `DocumentOrder.ElementIsBefore` | src/dom/elementref-documentorder.cpp:17-112 | true exactly when the element comes earlier in preorder than the other node |
| `DocumentOrder.AttributeIsBefore` | src/dom/attributeref.cpp:189-220 | true exactly when the attribute comes earlier in preorder; namespace attributes precede the others |
| `NodeSets.NodeSet.InsertNodeInDocumentOrder` | src/dom/nodeset.hpp:235-276 | the node is inserted at its place or is already there, or belongs at the end; the end of the loop is never reached |
| `NodeSets.NodeSet.PushBack` | src/dom/nodeset.hpp:278-339 | a sorted set stays sorted and holds the pushed node, once |
| `NodeSets.PushedAllSorted` | src/dom/nodeset.hpp:278-339 | pushing any nodes in any order gives a sorted set of exactly these nodes |
| `NodeSets.AnyOrder` | src/dom/nodeset.hpp:278-339 | the order of the pushes does not matter |
| `TextContent.ToString` | src/dom/elementref.cpp:471-512 | the walk terminates with the texts of all text nodes below, in document order; textual nodes give their own text, and an exception comes exactly for an element with the key of a comment or processing instruction and no text |
| `Utf8.ReadBack` | src/kern/utf8.hpp:7-114 | a written code is read back, whatever follows, exactly for codes of up to four bytes |
| `Utf8.WriteBack` | src/kern/utf8.hpp:7-114 | a shortest form that is read is what would be written |
| `Utf8.OrderKept` | src/kern/utf8.hpp:76-114 | the bytes of two codes are in the order of the codes |
| `Utf8.CodeToChar` | src/kern/utf8.hpp:76-114 | writes the bytes and a NUL, or nothing if the room is too small; other bytes of the buffer stay |
| `Escaping.BufferedWriter.SerializeText` | src/io/bufferedwriter.cpp:105-198 | appends the escaped text, also for bytes that are no UTF-8 |
| `Escaping.SerializedCodes` | src/io/bufferedwriter.cpp:105-198 | well-formed text is escaped character by character |
| `Escaping.SerializedSame` | src/io/bufferedwriter.cpp:105-198 | text comes out as it is if and only if it holds no byte that is to be protected |
| `Reader.WindowsReadAlike` | src/io/bufferedreader.hpp:47-103 | input in windows is read like the same bytes in one window if and only if the end of no window cuts a character |
| `Reader.ReadCut` | src/io/bufferedreader.hpp:79-83 | a character cut by the end of a window is read as its bytes |
| `Reader.WhatIsRead` | src/io/bufferedreader.hpp:47-103 | a character is read from exactly the bytes that its first byte announces, if they are there and continue it; any other byte comes as it is |
| `Parsing.Parser.IsFinished` | src/io/bufferedreader.hpp:12-16 | finished exactly if nothing is left to read, in this window and the next ones |
| `Parsing.Parser.NextChar` | src/parser/parser.cpp:155-161 | the next character of the input, going on to the next window at the end of one, or the end |
| `Parsing.Parser.InternalParse` | src/parser/parser.cpp:319-450 | the state machine, on input in any windows, refines a function that is fed one character at a time; what that function makes of texts, values and references is what the rows below state |
| `Parsing.Parser.StepEntity` | src/parser/parser.cpp:1107-1226 | character references and predefined entities go to the text or the value they were met in |
| `Parsing.Parser.StepAttrValue` | src/parser/parser.cpp:550-570 | up to the delimiter, raising one attribute event |
| `EscapeRoundTrip.AtoiDecimal` | src/parser/parser.cpp:1107-1136 | a decimal reference is read as the number it was written for |
| `References.CharacterReferenceRead` | src/parser/parser.cpp:1107-1149 | a reference with any decimal digits, or with hexadecimal digits in either case, gives the character with that number; the number 0 fails, and so does one too large |
| `References.NamedEntityRead` | src/parser/parser.cpp:1150-1162 | each of the five names of XML gives its character, in a text or a value; any other name is looked up elsewhere |
| `EscapeRoundTrip.TextReadBack` | src/parser/parser.cpp:369-401 | what one text event delivers of an escaped text that comes in any windows |
| `EscapeRoundTrip.TextBeforeMarkup` | src/parser/parser.cpp:369-428 | an escaped text is delivered once, before a name, an end tag or a processing instruction, if it is not empty; a comment or declaration keeps it; anything else fails |
| `EscapeRoundTrip.TextAtEnd` | src/parser/parser.cpp:1231-1232 | an escaped text at the end of the input is delivered too |
| `EscapeRoundTrip.TextRoundTrip` | src/parser/parser.cpp:369-401 | escape and parse is the identity on a text if and only if no window cuts one of its characters, it has no carriage return and, unless all text is kept, no space at its start |
| `EscapeRoundTrip.ValueRoundTrip` | src/parser/parser.cpp:550-570 | escape and parse is the identity on an attribute value if and only if no window cuts one of its characters and, between single quotes, it holds none |
| `EscapeRoundTrip.QuoteInside` | src/parser/parser.cpp:550-570 | between single quotes, a value ends at the first one that it holds |
| `EscapeRoundTrip.AsciiRoundTrips` | src/io/bufferedwriter.cpp:105-198 | output for US-ASCII is never cut, wherever the windows end |
| `EscapeRoundTrip.CutText` | src/io/bufferedreader.hpp:79-83 | a text of one character in two windows that comes back as two characters |

## Left out

- Memory mapping and protection, locks, threads, I/O errors, writable checks: each store operation is one atomic step.
- The page info cache: the tree is walked every time.
- The supplier of absolute pages: any page that is not in use. The free page list and the on-disk list of branches.
- The total counters `ownedPages` and the revision's page count; the counters by page type are modelled.
- The offsets that the page walks pass along: the set of pages visited is modelled.
- The branch of the fetch that warns about an indirection level of zero.
- Branch names and flags.
- Allocation profiles: one header of free-segment lists is modelled.
- Requests of zero bytes.
- The random generator of skip-list insertion: the level is arbitrary below the maximum.
- SkipList.SkipIterator.Erase: after `operator++` the trace is stale, so the iterator must come from `findClosest`.
- MultiMap.MultiIterator.Erase: an absent value, and where the iterator stands afterwards (the code reads freed memory).
- Blob.BlobRef.WritePiece: offsets are not bounded by 64 bits; delayed sizes, truncation and file transfer.
- Dom.Document.CreateElement: the address of a new element is the first free number from its id on, not a segment pointer of the allocator.
- Dom.Document.AppendJournal: documents whose journal is switched off.
- Dom.Document.ApplyItem: the assertions of builds with `PARANOID` are on.
- Dom.Document.ApplyJournal: attribute, blob and meta items; the state after an exception.
- JournalTheorem.ReplayRebuilds: the source has no two elements with one id, as long as it was not itself the target of a replay that moved something.
- Fathers.AssembledExactly: the order of siblings is read off the replica, since it depends on every insert in between; and runs in which something that the replica has is removed after a move.
- DocumentOrder.ElementIsBefore: nodes of different documents, and an element compared with itself, which the code refuses.
- NodeSets.NodeSet.PushBack: singletons and scalar items.
- Parsing.Parser.StepEntity: user-defined, system and HTML entities end in a state of their own; spaces and signs inside a reference, and numbers beyond 32 bits.
- Escaping.BufferedWriter.SerializeText: HTML entities, CDATA sections and ISO-8859-1.
- Parsing.Parser.NextChar: the readers of user-defined entities that are stacked on the first one, and input that is not UTF-8 by its declared encoding.
- The markup, comment, CDATA and DOCTYPE states of the parser, and the growth of its text buffers.
- String comparison, XPath, XSL, the network and command-line layers.
