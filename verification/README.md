# Verified models of the programs in this repository

Dafny models of four C programs, and proofs about them. `dafny verify dfyconfig.toml` verifies
everything.

**The allocator** (`custom_memory_manager`): rows of memory as words, the physical tiling with
headers, footers and prev-alloc bits, ten circular free lists and twenty quick lists, in a class that
does what `sf_malloc`, `sf_free` and the functions below them do. Memory is an array of rows; the heads
of the free lists are rows in front of the heap. The memory system hands out zero-filled pages, and
there is at least one (its own code is not part of this model). Files: `Rows`, `Rings`, `Tiling`,
`HeapOps`, `ListOps`, `Adjacency`, `Coalescing`, `Moves`, `Allocator`, `HeapClient`, `HeapTheorems`,
`Unlinking`, `AsWritten`.

**Larry Wall's patch** (`Larry_Wall_updated_diff`): the two ways to keep the input file, comparison of
lines, the search for a place, the walk over a hunk with and without `-D`, reversal, rejects, and the
main loop. The three parallel arrays of a hunk are one array of entries. `Merging.Patchwork` says in one
recursive function what `apply_hunk` writes; the loop is proved to do that, and what it means is proved
about the function. Files: `Text`, `LooseMatch`, `InputStore`, `Edits`, `Hunk`, `Merging`, `Walking`,
`Defines`, `Conditionals`, `Preprocess`, `Locating`, `Engine`, `Effects`, `Rejects`, `PatchFile`, `ContextDiff`, `Reversal`,
`UndoDiff`, `Patching`, `NormalRun`.

**fliki** (`diff_parser`): the streaming reader as functions of its static variables, the methods that
compute them, and `patch`. `NormalDiff` holds the format of both programs, the "Diff Default Output
Format" in the STDOUT section of `diff`, POSIX.1-2017, Shell & Utilities; `Programs` puts both programs
side by side. Files: `Decimal`, `NormalDiff`, `FlikiReader`, `BodyScan`, `DiffScan`, `FlikiOutput`, `Fliki`,
`WholeDiff`, `Programs`.

**Rating updates** (`tic_tac_toe_multiplayer`): `player_post_result` for any number of threads as steps
of locking, reading, writing and unlocking. File: `Players`.

`Sealing` holds a device for keeping large predicates folded.

## Assumptions

- Text lines end in a newline and hold no NUL; fliki's theorems are about ASCII.
- Hunks are well formed: the marks of each half, an optional blank entry, fewer than 500 entries. The
  entry of the buffer behind the hunk is no mark left over from an earlier, longer hunk
  (`HunkBuffer.ClearBehind`).
- Lines of the patch file fit its buffer, and numbers fit their C types.
- Player names are pairwise distinct.

## Where the model departs from the code

- `sf_malloc` does not count a quick list down when it takes a block (lines 424-429), though its header
  defines the length as the current count. The model counts down. `AsWritten.RecordExact` says what
  holds of the text.
- `coalesce` unlinks its argument whether or not it is in a list (line 205); on its way from `sf_free`
  or a flush it never is, and its link words hold payload, or the link of the quick list it has left. The
  model unlinks members only. `Unlinking.UnlinkPayloadExact` says exactly when the heap survives what the
  text does, and `Unlinking.UnlinkPayloadHarm` shows how a live header is lost.
- `splitBlock` relinks the first part before the header of the rest exists (lines 302-314), and so takes
  old payload for a header. The model writes that header first. `AsWritten.SplitRelinkExact` says when
  the text harms no other block, `AsWritten.SplitOrder` that it then agrees with the model, and
  `AsWritten.SplitRelinkPage` shows a heap where a live header is lost.
- `pch_swap` twice restores header texts only if they hold no foreign mark; `Hunk.SwapTwice` has the
  exact condition.
- `locate_hunk` computes a bound for the backward search and does not use it; the model does what the
  code does, and `Locating.MissesExactly` says what is missed.
- `apply_hunk` swallows context inside an open `-D` conditional when another change follows it; the model
  does what the code does. `Conditionals.RightExactly` says exactly when the output reads right both ways,
  and `Defines.ContextSwallowed` is an example where it does not.
- fliki's `patch` returns 0 when `hunk_next` answers ERR, where its comment promises -1; the model does
  what the code does. `DiffScan.NextExact` says on which text `hunk_next` answers ERR,
  `Fliki.Applier.Patch` when the result is 0, and `Fliki.PromiseBroken` is an example.
- fliki's `patch` promises to copy the input unchanged when the diff is empty; the loop that copies ends at a
  byte that is NUL or not ASCII, as if the input ended there. The model does what the code does, and
  `Fliki.Applier.Patch` says how far the copy goes.
- fliki's `patch` also returns 0 when an append goes behind the end of the file, where the same comment
  promises complete and correct output: what it writes holds end-of-file values and a mark. The model does
  what the code does; `Fliki.Applier.Patch` says exactly when, and `Fliki.AppendPastEnd` is an example.
- A hunk whose first change is placed among lines already written makes patch warn and go on with garbled
  output; the model stops there with `Misplaced`. The same result stands for a change placed behind the
  end of the file. `Patching.Session.OneHunk` says exactly when, and `Patching.RemovedTwice` is an example.
- `player_post_result` stores each new rating in an int and so cuts off its fraction, where its comment
  gives a formula that keeps the sum of the ratings; the model does what the code does.
  `Players.PointsKeptExactly` says when no point is lost, and `Players.PointLost` is an example.
- Counts that the hunk buffer has no room for make the original run over its arrays; the model stops
  there with `TooBig`.

## Model

| member | source | states |
|---|---|---|
| `Rows.DecodeEncode` | custom_memory_manager/src/sfmm.c:62-87 | a length and its three flag bits survive being stored in one 64-bit word and read back through the masks |
| `Rows.EncodeDecode` | custom_memory_manager/src/sfmm.c:62-87 | every 64-bit word is the stored form of some length and flags, so working on rows loses nothing |
| `Rows.DecodeBits` | custom_memory_manager/src/sfmm.c:62-87 | the flags are the bits of value 1, allocated, 2, previous allocated, and 4, in quick list; the rest is the length in bytes |
| `Rows.FitsIsClass` | custom_memory_manager/src/sfmm.c:144-158 | `fitsInFreeList` accepts a size with 2 in exactly one list; the lists it accepts at all are that one and those above; everything below is too small |
| `Rows.ClassBytes` | custom_memory_manager/src/sfmm.c:144-158 | the classes in bytes: up to 32, 64, 128, 256, 512, 1024, 2048, 4096 and 8192, and all the rest |
| `Rows.SmallerClass` | custom_memory_manager/src/sfmm.c:144-158 | a block filed below the first list searched is too small for the request |
| `Rows.QuickIndexBijection` | custom_memory_manager/src/sfmm.c:229-235 | a length in bytes has a quick list if and only if it is one of 32, 40, ..., 184; the numbers of the lists are 0..19, one for each |
| `Rows.BlockBytesRoom` | custom_memory_manager/src/sfmm.c:320-327 | the block length chosen for a request, with 64-bit wrap-around, is a multiple of 8 and at least 32; it leaves room for header and payload if and only if the request is below 2^63, and then wastes less than a row above 32; from there on it is 32 |
| `Rings.LinkFrontRing` | custom_memory_manager/src/sfmm.c:163-177 | the four link assignments turn a circular list into the list with the block behind its head |
| `Rings.UnlinkRing` | custom_memory_manager/src/sfmm.c:181-189 | unlinking a member turns the circle into the circle without it |
| `Coalescing.ForwardRound` | custom_memory_manager/src/sfmm.c:198-211 | one round of the forward loop keeps every heap invariant with the grown block in hand |
| `Coalescing.BackwardRound` | custom_memory_manager/src/sfmm.c:212-220 | one round of the backward loop, though the header is written before the links are followed, keeps every heap invariant |
| `Coalescing.CoalesceDone` | custom_memory_manager/src/sfmm.c:198-224 | when both loops have stopped, the block in hand is the maximal free run around the one they started from |
| `Moves.FirstFitComplete` | custom_memory_manager/src/sfmm.c:434-448 | when no block in the lists has the rows asked for, no free block of the heap has |
| `Moves.TailGrown` | custom_memory_manager/src/sfmm.c:332-353 | growth by a page yields one free block at the end, longer by a page than the free tail before it; all other free blocks stay |
| `Moves.GatheredFacts` | custom_memory_manager/src/sfmm.c:198-224 | coalescing keeps the heap length, the quick lists, the live blocks and their payload, and every row that was covered by a block stays covered |
| `Moves.SplitFinish` | custom_memory_manager/src/sfmm.c:291-318 | with both headers written before either part is filed, both parts end as filed free blocks and nothing else has changed; `AsWritten.SplitOrder` says when the order of the text comes to the same |
| `Moves.LiveLooks` | custom_memory_manager/src/sfmm.c:471-490 | of all blocks, and the epilogue, the checks on a pointer recognise exactly the live ones; addresses inside a block are not spoken of |
| `Moves.ClientWrite` | custom_memory_manager/include/sfmm.h:16-163 | a store into the payload of a live block keeps every invariant, and the payload of all other live blocks |
| `Allocator.Heap.CreateHeaderAndFooter` | custom_memory_manager/src/sfmm.c:37-60 | header and footer word of a block are the same row, and no other row changes |
| `Allocator.Heap.UpdateHeader` | custom_memory_manager/src/sfmm.c:109-121 | the prev-alloc bit of a header, and of its footer if it has one, is set |
| `Allocator.Heap.UpdateBlock` | custom_memory_manager/src/sfmm.c:124-133 | a block is rewritten and its successor is told |
| `Allocator.Heap.UpdateBlockFlags` | custom_memory_manager/src/sfmm.c:135-143 | length and prev-alloc bit are kept, the other flags set, the successor told |
| `Allocator.Heap.AddToFreeList` | custom_memory_manager/src/sfmm.c:163-177 | a block in hand becomes free and first of the list of its class |
| `Allocator.Heap.RemoveFromFreeList` | custom_memory_manager/src/sfmm.c:181-189 | a member leaves its circle |
| `Allocator.Heap.PeerBack` | custom_memory_manager/src/sfmm.c:88-105 | the footer in front of a block leads to its free predecessor, or there is none |
| `Allocator.Heap.AbsorbNext` | custom_memory_manager/src/sfmm.c:198-211 | the forward loop ends with an allocated successor |
| `Allocator.Heap.AbsorbPrev` | custom_memory_manager/src/sfmm.c:212-220 | the backward loop ends with an allocated predecessor |
| `Allocator.Heap.Coalesce` | custom_memory_manager/src/sfmm.c:198-224 | the result is the maximal free run around the block, filed in its class; no two free blocks are adjacent |
| `Allocator.Heap.Flush` | custom_memory_manager/src/sfmm.c:249-262 | all blocks of a full quick list end inside free blocks; no live payload changes |
| `Allocator.Heap.AddToQuickList` | custom_memory_manager/src/sfmm.c:242-286 | a block of a quick size becomes the first of its list; a full list of five is flushed before and then holds only it |
| `Allocator.Heap.PopQuickList` | custom_memory_manager/src/sfmm.c:422-430 | the block pushed last is handed out and the record counts one less |
| `Allocator.Heap.ValidFreePtr` | custom_memory_manager/src/sfmm.c:471-490 | of NULL, misaligned pointers, those below the heap, and those behind the header of a block (not the prologue) or the epilogue, exactly the payloads of live blocks pass the checks; pointers into the inside of a block are left out |
| `Allocator.Heap.Free` | custom_memory_manager/src/sfmm.c:493-500 | a live pointer is taken back, all other live blocks keep place, length and payload; any other pointer of the kinds `ValidFreePtr` takes changes nothing |
| `Allocator.Heap.SplitBlock` | custom_memory_manager/src/sfmm.c:291-318 | what exceeds the request is cut off as a free block, unless less than a minimal block would remain; the header of the remainder is written first |
| `Allocator.Heap.ExpandHeap` | custom_memory_manager/src/sfmm.c:332-353 | NULL exactly if the memory system has no page of 512 rows left, with nothing changed; else the heap is a page longer and its free tail one block |
| `Allocator.Heap.InitHeap` | custom_memory_manager/src/sfmm.c:356-388 | the first page holds prologue, one free block of 507 rows, and epilogue; list 7 holds that block, all other free lists are empty circles and all quick lists are empty |
| `Allocator.Heap.SearchFreeLists` | custom_memory_manager/src/sfmm.c:434-448 | the block found has the rows asked for; no block in front of it in its list has, and none in the lists before; NULL exactly if no free block has |
| `Allocator.Heap.GrowAndTake` | custom_memory_manager/src/sfmm.c:449-468 | the growth loop ends; it hands out the tail, or fails only when no page is left and no free block fits |
| `Allocator.Heap.Allocate` | custom_memory_manager/src/sfmm.c:413-468 | the heap grows if and only if neither quick list nor free lists could serve the request; where no quick list serves and it does not grow, the block is the first with room of the first list that has one, and is cut to the request unless less than 32 bytes would be left; from a quick list it is the first block; a failure means no free block fits |
| `Allocator.Heap.Malloc` | custom_memory_manager/src/sfmm.c:390-469 | NULL for size 0 and, with ENOMEM, when nothing fits; else an 8-aligned pointer to a new live block with size + 8 bytes, disjoint from every other |
| `HeapClient.Run` | custom_memory_manager/src/sfmm.c:390-500 | over any sequence of mallocs, frees and client stores the heap is an abstract store: every answer is a new block large enough and disjoint from all owned ones, NULL is answered only for size 0 or when no page is left and neither quick list nor any free block can serve, and every row written and not freed still holds its value |
| `HeapTheorems.RowOwner` | custom_memory_manager/include/sfmm.h:16-163 | every row between prologue and epilogue belongs to exactly one block |
| `HeapTheorems.TilesTotal` | custom_memory_manager/src/sfmm.c:109-143 | lengths of the blocks of a tiling add up to the heap |
| `HeapTheorems.BytesConserved` | custom_memory_manager/src/sfmm.c:198-224 | no byte of the heap is lost or counted twice |
| `HeapTheorems.FreeExactlyOnce` | custom_memory_manager/src/sfmm.c:163-189 | each unallocated block is in one free list, in one place, and that is the list `fitsInFreeList` accepts with 2 |
| `HeapTheorems.ListsHoldFreeBlocks` | custom_memory_manager/include/sfmm.h:190-210 | the lists hold nothing but free blocks and close through their heads in both directions |
| `HeapTheorems.BoundaryTags` | custom_memory_manager/include/sfmm.h:16-163 | prev-alloc bits equal the alloc bits before them, up to the epilogue; footers of free blocks equal headers; neighbours of a free block are allocated |
| `HeapTheorems.QuickList` | custom_memory_manager/include/sfmm.h:168-189 | a quick list of a started heap is a chain without repetition of blocks of its size, all marked allocated and in-quick-list; its length field counts them and is at most five |
| `AsWritten.PopTwiceCrashes` | custom_memory_manager/src/sfmm.c:424-429 | with the record as the text leaves it, a push and two pops follow NULL |
| `AsWritten.RecordExact` | custom_memory_manager/src/sfmm.c:242-286 | the record survives exactly the histories that never pop more blocks than were pushed since the last flush; its length counts pushes |
| `Unlinking.UnlinkPayloadExact` | custom_memory_manager/src/sfmm.c:181-211 | unlinking a block in hand that is in no list leaves the heap with all its invariants and all live payload, the block still in hand, if and only if each of its link words is NULL or the address of a node whose link row keeps nothing of the heap or already holds what is stored there; all words a client can store are covered, also those that are no address, and a second store that meets the first |
| `Unlinking.FlushLinkFine` | custom_memory_manager/src/sfmm.c:249-262 | in a flush the first word is the link to the next block of the quick list, and the store through it does no harm |
| `Unlinking.UnlinkPayloadHarm` | custom_memory_manager/src/sfmm.c:198-211 | on any valid heap: payload whose second word is the address of the row in front of a live block makes the header of that block a link |
| `AsWritten.SplitRelinkExact` | custom_memory_manager/src/sfmm.c:302-314 | filing the first part before the remainder has a header leaves the rows of all other blocks, and the header of the first part, alone exactly if the row there has the alloc bit, or its length, a signed number, leads to a row inside the block behind its header, or the store changes nothing; a length of zero spoils the first footer |
| `AsWritten.RelinkIsUpdate` | custom_memory_manager/src/sfmm.c:25-71 | for a length that is not negative those stores are what the operations of the model do to the rows |
| `AsWritten.SplitOrder` | custom_memory_manager/src/sfmm.c:302-314 | in exactly those cases the order of the text gives the rows of the model, but for one row of the free block |
| `AsWritten.HeapCanSplit` | custom_memory_manager/src/sfmm.c:291-318 | every free block of a valid heap, once unlinked, meets what `SplitOrder` asks |
| `AsWritten.SplitRelinkHarm` | custom_memory_manager/src/sfmm.c:302-314 | on any valid heap: payload whose length, positive or negative, leads to the header of a live block makes it that of a free one |
| `AsWritten.SplitRelinkPage` | custom_memory_manager/src/sfmm.c:302-314 | the page after malloc(4000), malloc(24), a store of 3984 and a free: the next malloc(24) overwrites the header of the second block |
| `AsWritten.NegativeLength` | custom_memory_manager/src/sfmm.c:47-71 | with a store of -16 instead the row written is inside the block |
| `Text.LinesOfFlat` | Larry_Wall_updated_diff/src/patch.c:338-428 | splitting the characters of a file gives back its lines |
| `Text.FlatInjective` | Larry_Wall_updated_diff/src/patch.c:338-428 | different lists of lines are different files |
| `LooseMatch.Similar` | Larry_Wall_updated_diff/src/patch.c:262-284 | the loose comparison of a text with a pattern line holds exactly if the text's first line and the pattern have the same canonical form |
| `LooseMatch.AlikeIsEquivalence` | Larry_Wall_updated_diff/src/patch.c:262-284 | loose matching is an equivalence |
| `LooseMatch.CanonShape` | Larry_Wall_updated_diff/src/patch.c:262-284 | canonical text has single spaces between other characters and none at its end |
| `LooseMatch.CanonFixed` | Larry_Wall_updated_diff/src/patch.c:262-284 | canonical text is its own canonical form |
| `LooseMatch.CanonExactly` | Larry_Wall_updated_diff/src/patch.c:262-284 | a run of characters with the codes 32 and 9 to 13 is one blank in canonical form, or nothing at the end; anything else stays |
| `InputStore.CountLines` | Larry_Wall_updated_diff/src/patch.c:385-400 | the first scan of plan a counts the lines of a file without NUL |
| `InputStore.BuildTable` | Larry_Wall_updated_diff/src/patch.c:390-412 | the pointer table points to the start of every line |
| `InputStore.ChunksAreLines` | Larry_Wall_updated_diff/src/patch.c:460-479 | `fgets` reads exactly the lines if and only if none is longer than its buffer |
| `InputStore.SameChunks` | Larry_Wall_updated_diff/src/patch.c:460-479 | the second pass of plan b, with the shorter buffer, reads the same records |
| `InputStore.StoresAgree` | Larry_Wall_updated_diff/src/patch.c:338-486 | for a file without NUL, plan a and plan b hold the same lines if and only if the file ends in a newline and no line is longer than `fgets` reads at once |
| `InputStore.WriteRecords` | Larry_Wall_updated_diff/src/patch.c:460-479 | record i is in slot i mod l of block i / l, also for one record a block and a last block that is just full |
| `InputStore.Input.PlanA` | Larry_Wall_updated_diff/src/patch.c:338-428 | the store holds the lines of a file without NUL, a missing last newline supplied |
| `InputStore.Input.PlanB` | Larry_Wall_updated_diff/src/patch.c:432-486 | the temporary file holds the lines of the file |
| `InputStore.Input.Ifetch` | Larry_Wall_updated_diff/src/patch.c:489-513 | whatever the two buffers hold and whichever is asked for, the text returned starts with the line; empty outside the file |
| `Edits.UndoRestores` | Larry_Wall_updated_diff/src/patch.c:887-952 | the reverse edits, applied to the edited file, give back the original |
| `Hunk.SwapTwice` | Larry_Wall_updated_diff/src/patch.c:887-952 | swapping twice restores a well-formed hunk if and only if its header texts hold no foreign marks, and everything but the header texts always |
| `Hunk.HunkBuffer.PchSwap` | Larry_Wall_updated_diff/src/patch.c:887-952 | the buffer then holds the swapped hunk, entry by entry, and nothing behind it changes |
| `Reversal.SwapReverts` | Larry_Wall_updated_diff/src/patch.c:887-952 | the swapped hunk fits where the hunk was applied, and leaves the old lines again |
| `Reversal.SwapRestores` | Larry_Wall_updated_diff/src/patch.c:1429-1535 | in a whole file: the swapped hunk matches the patched file at the same place, and applied there gives back the original |
| `Merging.InStep` | Larry_Wall_updated_diff/src/patch.c:1429-1528 | the walk over old and new lines gets to the end of both exactly if their context and changed runs agree in order; else it exits out of sync or drops lines |
| `Merging.PatchedText` | Larry_Wall_updated_diff/src/patch.c:1429-1535 | what is written and what is still to be copied is the new side of the hunk, with the file's own lines as context |
| `Merging.ExactText` | Larry_Wall_updated_diff/src/patch.c:1429-1535 | after a word-for-word match that is exactly the new lines |
| `Merging.LooseText` | Larry_Wall_updated_diff/src/patch.c:1145-1163 | after a loose match it is the new lines up to whitespace, and every added or changed line exactly |
| `Merging.ShapeForgets` | Larry_Wall_updated_diff/src/patch.c:1472-1512 | halves that agree on the text of their context are in step |
| `Defines.DirectivesDiffer` | Larry_Wall_updated_diff/src/patch.c:1624-1628 | the four directive lines of -D are different lines |
| `Defines.ReadGroup` | Larry_Wall_updated_diff/src/patch.c:1439-1470 | a group of removed and added lines, read with the symbol undefined, is the removed ones, and with it defined the added ones, and its conditional is closed |
| `Defines.BothWays` | Larry_Wall_updated_diff/src/patch.c:1439-1534 | the output of a hunk, read both ways, is its old and its new side with every conditional closed, for context and changed runs anywhere and one last group of removed and added lines with context behind it |
| `Conditionals.RightExactly` | Larry_Wall_updated_diff/src/patch.c:1439-1534 | for halves in step and texts that are no directives: both readings of the -D output are right, with every conditional closed, if and only if the hunk is of that form; otherwise a line is lost or a second conditional is opened inside the first |
| `Defines.CleanInStep` | Larry_Wall_updated_diff/src/patch.c:1439-1534 | such hunks never get out of sync |
| `Defines.ContextSwallowed` | Larry_Wall_updated_diff/src/patch.c:1508-1512 | for example a context line between two removed ones is swallowed by the open conditional |
| `Locating.StrnIsLine` | Larry_Wall_updated_diff/src/patch.c:1145-1163 | comparing a whole pattern line with the start of a text compares it with the text's first line |
| `Locating.MatchFits` | Larry_Wall_updated_diff/src/patch.c:1353-1392 | a match lies inside the file, and one at or behind the guess is within reach |
| `Locating.MissesExactly` | Larry_Wall_updated_diff/src/patch.c:1353-1392 | the search returns 0 if and only if every match lies in front of the guess by more than the lines behind the guess less those of the pattern, and one |
| `Locating.FindsNearest` | Larry_Wall_updated_diff/src/patch.c:1353-1392 | what is found matches; in front of the guess it is no farther away than that bound; nothing nearer matches, and nothing as near behind the guess when it lies in front |
| `Locating.LocatedExactly` | Larry_Wall_updated_diff/src/patch.c:1353-1392 | and whatever has these properties is the result |
| `Locating.LocateEdge` | Larry_Wall_updated_diff/src/patch.c:1370-1371 | in the file b, a, c a match for a is missed from line 3 on; with one line more it is found |
| `Locating.LocateMisses` | Larry_Wall_updated_diff/src/patch.c:1370-1371 | a file of three lines whose only match is missed, since both directions use the forward bound |
| `Locating.LocatedUnique` | Larry_Wall_updated_diff/src/patch.c:1353-1392 | the promise of the search determines its result |
| `Engine.Patcher.PatchMatch` | Larry_Wall_updated_diff/src/patch.c:1145-1163 | true exactly if every pattern line matches the file from that line on |
| `Engine.Patcher.LocateHunk` | Larry_Wall_updated_diff/src/patch.c:1353-1392 | 0 exactly if every match lies in front of the guess and farther away than the bound, which is written out; else a match such that none is nearer, forward before backward; `last_offset` becomes the distance; an empty pattern goes where it is guessed |
| `Engine.Patcher.CopyTill` | Larry_Wall_updated_diff/src/patch.c:1271-1285 | the file's lines up to the given one are written, unless they have been passed |
| `Engine.Patcher.SpewOutput` | Larry_Wall_updated_diff/src/patch.c:1287-1291 | the rest of the file is written |
| `Engine.Patcher.ApplyHunk` | Larry_Wall_updated_diff/src/patch.c:1429-1535 | the loop does exactly the walk: same lines written, same lines still to be copied, same exit, for any place with the first change in front of the lines already written, though the context before it may lie among them; a hunk without a change writes nothing wherever it is placed |
| `Engine.Patcher.FirstChange` | Larry_Wall_updated_diff/src/patch.c:1439-1513 | how far the leading context goes and whether something is removed, added or changed behind it |
| `Effects.KeptInFront` | Larry_Wall_updated_diff/src/patch.c:1277-1285 | lines kept in front of a hunk go out before its first change and otherwise make no difference |
| `Effects.PendSuffix` | Larry_Wall_updated_diff/src/patch.c:1429-1535 | the lines not copied yet are the last lines of the hunk's place |
| `Effects.SameKept` | Larry_Wall_updated_diff/src/patch.c:1429-1535 | -D changes what is written, not what is copied, kept or lost |
| `Effects.StrippedMeans` | Larry_Wall_updated_diff/src/patch.c:1429-1535 | the edit of a hunk, between the context in front of its first change and that behind its last, puts the hunk's new side in place |
| `Effects.HunkDone` | Larry_Wall_updated_diff/src/patch.c:1277-1291 | output so far is the edited file so far, for one more hunk behind the lines frozen; under -D what the output reads as, both ways |
| `Effects.AllDone` | Larry_Wall_updated_diff/src/patch.c:1287-1291 | with the rest copied the output is the edited file; under -D it reads as the original and as the edited file |
| `Patching.Session.FindPlace` | Larry_Wall_updated_diff/src/patch.c:1851-1866 | the hunk is looked for; the first one, if not found, also the other way round, and it stays turned only if that is found |
| `Patching.Session.OneHunk` | Larry_Wall_updated_diff/src/patch.c:1849-1885 | a hunk is applied at its place, or rejected with nothing written; edits and counts follow. The run stops exactly where `copy_till` is first called with a line already passed, where the original warns, or behind the end of the file |
| `Patching.Session.RunHunks` | Larry_Wall_updated_diff/src/patch.c:1846-1888 | whole run: its turns are fixed by the hunks, the file, -R and the first offset, and end as stated for `OneHunk`; the output is the file with the edits of the applied hunks, the failed count is the number of rejected ones, and the reject file holds what `abort_hunk` prints for them, in order; if every hunk fits where it says and the first change of each is behind the last one of those before, though their context may overlap, all are applied there and none fails |
| `Patching.TurnExactly` | Larry_Wall_updated_diff/src/patch.c:1846-1888 | of any run: only the first hunk is ever tried the other way round, when it is not found as it is, and stays turned exactly if that is found; a hunk is rejected exactly if it is not found, and misplaced exactly if its first change would go among lines written or its place is not in the file |
| `Patching.OffsetsLinked` | Larry_Wall_updated_diff/src/patch.c:1353-1392 | of two turns in a row, the second starts with the offset of the first, unless that one found its hunk elsewhere than guessed; then with the distance |
| `Patching.RemovedTwice` | Larry_Wall_updated_diff/src/patch.c:1271-1285 | for example two hunks that each remove line 1: the first is applied, the second misplaced |
| `Patching.FitChosen` | Larry_Wall_updated_diff/src/patch.c:1353-1392 | a hunk that matches where it says is found there and applied there |
| `Patching.ContextMayOverlap` | Larry_Wall_updated_diff/src/patch.c:1271-1285 | for example a hunk whose leading context begins with the line the hunk before it removes |
| `Decimal.ValueOfNum` | diff_parser/src/fliki.c:170-200 | a printed number is read back |
| `Decimal.NumShort` | Larry_Wall_updated_diff/src/patch.c:1409-1412 | a printed number has no zeros in front |
| `NormalDiff.OrderedInOrder` | diff_parser/src/fliki.c:826-830 | hunks that start behind the end of the one before make edits that do not overlap |
| `PatchFile.ReadHeader` | Larry_Wall_updated_diff/src/patch.c:1060-1081 | the header line of a normal diff gives first line, counts and new range; append moves behind its line, delete has an empty new range |
| `PatchFile.PrintedParses` | Larry_Wall_updated_diff/src/patch.c:1048-1121 | reading a printed hunk gives the hunk it stands for |
| `PatchFile.HunkReader.NormalHunkNext` | Larry_Wall_updated_diff/src/patch.c:1048-1121 | no hunk without a digit, a fatal exit exactly if the body does not follow the header, else the hunk the lines spell out |
| `PatchFile.HeadExactly` | Larry_Wall_updated_diff/src/patch.c:1060-1081 | any header line told by its parts: one or two old line numbers, a letter, one or two new ones, and whatever comes behind; an append starts a line later, a delete names the new line behind |
| `PatchFile.ParsedExactly` | Larry_Wall_updated_diff/src/patch.c:1055-1121 | line by line: no hunk where no digit stands, too big from 500 entries on, a hunk exactly if as many lines as the header counts stand there behind < and >, with a line that starts with - between them in a change, and a fatal exit if one has another mark or the file ends |
| `PatchFile.HunkExactly` | Larry_Wall_updated_diff/src/patch.c:1084-1121 | the hunk read has the numbers of its header, and the lines behind it without their first two characters |
| `Rejects.RejectFile.AbortHunk` | Larry_Wall_updated_diff/src/patch.c:1396-1425 | the reject file gets the hunk as a context diff, with the last offset added to both first lines |
| `Rejects.RejectText` | Larry_Wall_updated_diff/src/patch.c:1396-1425 | what is printed of a hunk, written out: fifteen stars, the old line numbers between *** and the newline, the old lines with their marks, the new line numbers between --- and dashes, the new lines |
| `ContextDiff.HeaderNumbers` | Larry_Wall_updated_diff/src/patch.c:996-1020 | the numbers of a printed context header are read back |
| `ContextDiff.ContextReader.ContextHunkNext` | Larry_Wall_updated_diff/src/patch.c:965-1046 | a rejected hunk is read back entry by entry |
| `ContextDiff.RejectRoundTrip` | Larry_Wall_updated_diff/src/patch.c:1396-1425 | writing a hunk to a reject file and reading the file gives the same marks, texts and counts, with both first lines moved by the offset |
| `UndoDiff.RevFits` | Larry_Wall_updated_diff/src/patch.c:887-952 | the reverse of a numbered diff fits the edited file and takes it back |
| `NormalRun.NextOfDiff` | Larry_Wall_updated_diff/src/patch.c:1048-1121 | the next hunk of a printed diff, turned or not, is read whole and fits behind the ones before |
| `NormalRun.SwapStands` | Larry_Wall_updated_diff/src/patch.c:1123-1124 | swapping the hunk of a diff gives the hunk of its reverse |
| `NormalRun.PatchNormal` | Larry_Wall_updated_diff/src/patch.c:1846-1888 | on the print of a diff that applies, or under -R whose reverse applies, the run rejects nothing and makes exactly its edits; under -D its output reads both ways |
| `Programs.RunPatch` | Larry_Wall_updated_diff/src/patch.c:1795-1888 | the program from file to output, with either store and either comparison |
| `Programs.PatchThenReverse` | Larry_Wall_updated_diff/src/patch.c:887-952 | applying a diff and then the same diff with -R gives back the file |
| `Programs.BothFilesInOne` | Larry_Wall_updated_diff/src/patch.c:1439-1534 | the -D output of a normal diff holds both files; and if no line of either starts like one of the four directives, a preprocessor that reads the output by its characters makes the file of it when the symbol is not defined, and the edited file when it is |
| `Preprocess.PassedFiles` | Larry_Wall_updated_diff/src/patch.c:1439-1534 | output that reads as two files of ordinary lines gives those files to a preprocessor that knows #ifdef, #ifndef, #else, #endif and the symbol by their characters |
| `Preprocess.GroupPassed` | Larry_Wall_updated_diff/src/patch.c:1439-1534 | one conditional as -D writes it gives such a preprocessor the old lines when the symbol is not defined, the new ones when it is, and is closed behind it |
| `Programs.SameOutput` | README.md:12-17 | both programs succeed on a strictly ordered ASCII diff that fits the file and write the same output, the edited file |
| `FlikiReader.NextRevives` | diff_parser/src/fliki.c:327-378 | `hunk_next` revives the reader exactly when it succeeds |
| `FlikiReader.ErrorSticks` | diff_parser/src/fliki.c:408-436 | over any calls: after an error, and until a `hunk_next` succeeds, every `hunk_getc` answers ERR and consumes nothing |
| `FlikiReader.HeaderRead` | diff_parser/src/fliki.c:205-265 | on a printed hunk `hunk_next` yields its numbers and stands at its body |
| `FlikiReader.SectionRead` | diff_parser/src/fliki.c:414-536 | on a printed section `hunk_getc` yields exactly its text, character by character, and then EOS |
| `FlikiReader.GetcExact` | diff_parser/src/fliki.c:414-536 | on any ASCII text, at the start of a line behind a successful call: EOS in front of a digit and at the end; the first character of a line whose mark the kind allows and a blank follows; EOS at the line of three dashes in a change; ERR at anything else |
| `FlikiReader.GetcInside` | diff_parser/src/fliki.c:414-536 | inside a line the next character, and ERR where the text ends without a newline |
| `BodyScan.CourseExact` | diff_parser/src/fliki.c:414-536 | read on from the start of a line of any ASCII text, a section ends as its lines say: in ERR at the first that cannot be in it or is not finished, else in EOS where it ends, after as many newlines as it has lines |
| `BodyScan.BrokenErrs` | diff_parser/src/fliki.c:414-536 | in a body with a wrong or unfinished line, or with more lines or fewer than its header says, or in a change without additions, one of the sections that `patch` reads ends in ERR or with the wrong count |
| `WholeDiff.DiffReadWhole` | diff_parser/src/fliki.c:327-536 | on a whole printed diff `hunk_next` and `hunk_getc` give, hunk by hunk, the numbers of the header, the deletions and EOS, the additions and EOS, and at the end EOF |
| `DiffScan.NextExact` | diff_parser/src/fliki.c:327-401 | on any ASCII text, at the start of a line and whatever was called before, `hunk_next` answers what the lines decide: lines that are no header are passed over, the first may be foreign, a line that ends inside its numbers takes the next one with it; the first header gives the hunk, unless its range is forbidden |
| `DiffScan.BrokenExactly` | diff_parser/src/fliki.c:332-340 | that answer is ERR if and only if behind lines passed over comes a foreign line (not the first), a header with a forbidden range, or the end of the text |
| `DiffScan.GarbageIsError` | diff_parser/src/fliki.c:332-340 | for example on a diff whose second line is no diff line |
| `Fliki.PrefixLines` | diff_parser/src/fliki.c:687-720 | one file starts with another exactly if its lines do |
| `Fliki.Applier.ParseInteger` | diff_parser/src/fliki.c:181-195 | the loop reads the digits of one number and one character more |
| `Fliki.Applier.ReadHeader` | diff_parser/src/fliki.c:205-265 | the method is the header function: same result, same bytes consumed |
| `Fliki.Applier.NextHunk` | diff_parser/src/fliki.c:327-378 | the method is the reader function: same status, same hunk, same state |
| `Fliki.Applier.GetcHunk` | diff_parser/src/fliki.c:414-536 | the method is the reader function, about which `FlikiReader.GetcExact` and `FlikiReader.GetcInside` speak: same answer, same state |
| `Fliki.Applier.OutUntilFound` | diff_parser/src/fliki.c:659-675 | one line of the input is passed to the output; where no newline comes any more, what is left and the end-of-file value as a character |
| `Fliki.Applier.DeleteLines` | diff_parser/src/fliki.c:687-720 | on any diff an error code or exactly the count of the header, and an error unless hunk_getc ends the section without one after as many lines; -2 leaves the reader dead; on a printed section -1 if the input does not go on with the deletions that count, else -3 or -4 for too many or too few of them, else the count, and they are consumed; behind an overrun of the input an error |
| `Fliki.Applier.AppendLines` | diff_parser/src/fliki.c:727-754 | on any diff an error code or exactly the count of the header, and an error unless hunk_getc ends the section without one after as many lines; -1 leaves the reader dead; on a printed section the additions that count are written, and the answer is -2 or -3 for too many or too few of them, else the count; behind an overrun of the input the first mark is written with them |
| `Fliki.Applier.CopyBefore` | diff_parser/src/fliki.c:849-855 | the lines in front of a deletion or change are passed on, and for each that the input does not have the end-of-file value as a character |
| `Fliki.Applier.CopyThrough` | diff_parser/src/fliki.c:877-887 | the lines up to the one an append goes behind are passed on, none for line 0, and the end-of-file value for each that the input does not have |
| `Fliki.Applier.OrderTest` | diff_parser/src/fliki.c:826-838 | the overlap test fails exactly the diffs that are not ordered |
| `Fliki.Applier.Patch` | diff_parser/src/fliki.c:805-968 | on the print of proper hunks with any ASCII text behind it: -1 if that text cannot follow the last hunk; else, unless it holds a further hunk, 0 if and only if the hunks are in order and their deletions are the lines of the file; then the output is the edited file if all fit, that is if no append goes behind the end of the file, and is no ASCII text otherwise; so the result is 0 also there, and where `hunk_next` answers ERR to the text behind, contrary to the comment; where `hunk_next` finds a further hunk there, -1 if its body has a line that cannot be in it, or more lines or fewer than its header says; without any hunk 0, and the output is the input up to its first byte that is no ASCII character |
| `FlikiOutput.PassExactly` | diff_parser/src/fliki.c:826-838 | the hunks that pass: each starts behind the end of the one before, and the lines it deletes are those of the file with the numbers in its header |
| `FlikiOutput.OutputEdited` | diff_parser/src/fliki.c:797-800 | what is written for hunks that fit is the edited file |
| `FlikiOutput.OutputForeign` | diff_parser/src/fliki.c:797-800 | what is written for hunks of which an append lies behind the end of the file is not |
| `Fliki.AppendPastEnd` | diff_parser/src/fliki.c:877-894 | a run on such a diff, an append behind line 5 of a file of one line: `patch` answers 0 and has written four bytes 0xFF and the mark of the line |
| `Fliki.PromiseBroken` | diff_parser/src/fliki.c:957-968 | a run on such a diff, a deletion that fits and two lines behind it: `hunk_next` answers ERR and `patch` answers 0 |
| `Fliki.TabForBlank` | diff_parser/src/fliki.c:484-500 | a run on a deletion with a tab where the blank behind the mark belongs: `patch` answers -1 |
| `Players.CmpEqual` | tic_tac_toe_multiplayer/src/player.c:180-196 | comparison of names is 0 exactly for equal names, and changes sign with its arguments |
| `Players.CmpDecides` | tic_tac_toe_multiplayer/src/player.c:180-196 | the first characters that differ decide a comparison, and a proper prefix is less |
| `Players.CmpTransitive` | tic_tac_toe_multiplayer/src/player.c:180-196 | comparison of names is transitive |
| `Players.NameOrder` | tic_tac_toe_multiplayer/src/player.c:188-202 | the lock taken second belongs to the greater name |
| `Players.RunLocks` | tic_tac_toe_multiplayer/src/player.c:131-141 | in every reachable state each lock is held by exactly the thread whose place in the code holds it |
| `Players.DeadlockFree` | tic_tac_toe_multiplayer/src/player.c:180-213 | for any number of threads and any schedule, as long as some call has not returned some thread can step, provided nobody plays himself |
| `Players.StepCounts` | tic_tac_toe_multiplayer/src/player.c:180-213 | every step brings the system one step closer to its end |
| `Players.CanFinish` | tic_tac_toe_multiplayer/src/player.c:180-213 | from any reachable state the system can be run to its end |
| `Players.FinishesExactly` | tic_tac_toe_multiplayer/src/player.c:180-213 | all calls can return if and only if nobody plays himself |
| `Players.UpdatesAreAtomic` | tic_tac_toe_multiplayer/src/player.c:204-212 | once all calls have returned, whatever the interleaving, the (int) ratings are those of the games applied one at a time, each once |
| `Players.PointsGained` | tic_tac_toe_multiplayer/src/player.c:204-209 | ratings are ints, so a new rating loses its fraction when it is stored: whatever the schedule, the sum of the ratings changes by the gains of the games played one at a time, each -1, 0 or 1 as the two computed ratings tell |
| `Players.PointsKeptExactly` | tic_tac_toe_multiplayer/src/player.c:158-173 | as long as no rating falls below zero points are never made, and all are kept if and only if every game moves a whole number of them |
| `Players.PointLost` | tic_tac_toe_multiplayer/src/player.c:204-209 | two wins of one player over another, from the initial 1500 each, end with 1530 and 1469 under every schedule: a point is lost |
| `Players.PostResult` | tic_tac_toe_multiplayer/src/player.c:180-213 | each player moves by 32 times his score, half a point for a draw and one for a win, less the one expected from both old ratings, truncated to an int, whichever is locked first |
| `Players.UpdateEitherSide` | tic_tac_toe_multiplayer/src/player.c:188-212 | the same of the atomic update, with the scores written out |
| `Players.DrawOfEquals` | tic_tac_toe_multiplayer/src/player.c:188-212 | a draw of equals, with an expected score of one half, changes nothing |
| `Players.SidesExchange` | tic_tac_toe_multiplayer/src/player.c:188-212 | exchanging the two players and the results 1 and 2 makes no difference |

## Left out

- `sf_realloc` and `sf_memalign`: what they do does not support what their documentation promises.
- The branch of `splitBlock` for an allocated block, which only `sf_realloc` and `sf_memalign` take.
- The pages of the memory system after the last one: the model has as many as its array holds.
- Deciding the kind of diff, indentation, RCS and SCCS, switches, signals, ed scripts, backup names and prompts of patch.
- An empty input file under patch's plan a.
- The truncated copies of deletions and additions that fliki keeps for its error reports, `hunk_show`, serial numbers and options.
- Rounding in `double`: the expected score is any real-valued function of both ratings, and the sum before truncation is exact. Ratings beyond the range of `int`.
- Reference counts of players; servers, protocol, registry and invitations of tic_tac_toe_multiplayer.
- crypto_exchange_watcher and hw0.
- ContextDiff.ContextReader.ContextHunkNext: is exact for what `abort_hunk` prints; for other context diffs it says only when there is no hunk, because what other text leaves in the buffer need not be a hunk.
- Allocator.Heap.SplitBlock: writes the header of the remainder before it files the first part, where the text does so behind it; `AsWritten.SplitRelinkExact` and `AsWritten.SplitOrder` are about the text.
- Moves.SplitFinish: the same.
- Moves.LiveLooks: says nothing of addresses inside a block, where payload that imitates a header can pass the checks.
- Allocator.Heap.ValidFreePtr: leaves out pointers into the inside of a block, where payload that imitates a header can pass the checks, the payload of the prologue, and addresses behind the heap.
- Allocator.Heap.Free: the same.
- Fliki.Applier.DeleteLines: on a section that is no print says when the answer must be an error, and not which lines of the input make it none.
- Fliki.Applier.AppendLines: on a section that is no print says when the answer must be an error, and not what else is written.
- Fliki.Applier.Patch: when `hunk_next` finds a hunk in the text behind the printed ones, says that a body which is not what its header says gives -1, and nothing of the result when the body is.
- ContextDiff.ContextReader.ContextLine: says nothing of the context count, which only enters the bound that `locate_hunk` does not use.
- Engine.Patcher.ApplyHunk: requires that the first change, if there is one, is behind the lines written and the place inside the file; others end in Misplaced before it is called.
- Programs.PatchThenReverse: needs a patched file that is not empty, as plan a does.
