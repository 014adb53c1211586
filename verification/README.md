# Object store of an incremental-update PDF library

This project models in Dafny the object store at the centre of a Go PDF
library. The library opens a PDF file, answers lookups of indirect objects by
reference, records objects added and numbers freed in memory, and saves them
as an appended revision. A revision carries a new cross-reference index,
either as a classic `xref` table or as a cross-reference stream (ISO 32000-1
sections 7.5.4, 7.5.6 and 7.5.8). The model also covers the library's earlier,
append-only store.

Modules:

- `Objects`: the closed set of object variants (`file/objects.go`).
- `Store`: the store's slots (an entry loaded from the file, an object pending
  since it was opened, or a tombstone of a freed number) and the two mutating
  operations `Add` and `Free`.
- `Lookup`: reference resolution (`Get`). It covers the entries inside object
  streams, including the fall-back scan when the index hint is stale, and the
  resolution of indirect stream `Length` entries.
- `Save`: what both writers of the current store compute.
  - Which entries a revision gets.
  - How the free numbers are chained.
  - How the numbers are cut into subsections.
  - The trailer.
  - For the stream form, the `Index` and `W` arrays, the packed rows and the
    index stream that is committed to the store.
- `Ordering` and `Runs`: the sorting, the maxima and the grouping into maximal
  runs that both writers share. `Runs` also covers reading an `Index` array
  back.
- `Legacy`: the earlier store (`file/file.go`).
  - Its `Get` searches the added objects before the loaded entries.
  - Its `Add` only appends.
  - Its `Save` indexes exactly the added objects.
  - The module also holds its grouping loop as written.
- `Scenario`: the annotation workflow of the repository's example program
  (after ISO 32000-1 annex H.7), stated as lemmas about the model.

Where a collaborator is not modelled it is a parameter. Lookups take an `Env`
with the byte view of the opened file, the parsers and the stream decoder.
Writers take a `Writer` with the file size, the encoded length of an object,
the byte-width rule and the integer encoder. The order in which a Go map is
traversed is a parameter too: a sequence `order` that lists every key once.

In three places the code and its own comments point different ways. The
model follows the code:

- The comment on `size` calls it the maximum object number plus one
  (`file.go:33`). `Add` does not raise it for an indirect object numbered at or
  above it (`file.go:245-285`), so it can fall behind. The index stream's own
  number is instead computed afresh as one above the largest number in the
  store (`file.go:538-547`), and the model numbers it the same way.
- The comment on `Save` says that afterwards the file acts as though it had
  just been opened (`file.go:308-310`). Saving does not update the store's
  `prev`, though, so a second save would record the old `Prev` again
  (`file.go:445-448`, `file.go:586-589`). The model claims no chaining between
  revisions.
- The comment on the object map asks that a generation never drop below the
  existing one (`file.go:31`). Yet free entries loaded from the file never get
  an entry of the writing loop, so the chaining step reads the all-zero value
  for them. Each one that is followed on the free list is written with
  generation 0, and the last one is not written at all (`file.go:355-357`,
  `file.go:380-385`). See `Save.OnDiskFreeEntry`.

`Get` rewrites a stream's `Length` inside the dictionary it returns, and that
dictionary is shared with the store (`file.go:219-227`). The model returns the
rewritten stream as a new value.

Helper members that compute one part of a larger result are stated through
lemmas rather than through contracts of their own:

- `Save.LinkFreeList` through `Save.LinkFreeListLinks`.
- `Save.CommonTrailer` through `Save.CommonTrailerKeys` and
  `Save.CommonTrailerOptional`.
- `Save.Pack` through `Save.PackLength` and `Save.PackRow`.
- `Save.Widths` through `Save.StreamWidths`.
- `Legacy.LegacyTrailer` through `Legacy.LegacyTrailerKeys`.

## Model

| member | source | states |
|---|---|---|
| `Store.Add` | file.go:241-301 | An indirect object is refused exactly when its number has a slot whose minimum generation is above the object's generation. The refusal returns that minimum and leaves the store alone. Otherwise only the slot of its number changes, now holding the object pending under its own reference. Any other object gets number `size` at generation 0, and `size` grows by one. |
| `Store.FreedSlot` | file.go:703-722 | A live slot becomes a tombstone whose generation for the next use is one above the slot's minimum. An in-use entry's generation, an object-stream member's 0 and a pending object's generation are each raised by one. |
| `Store.Free` | file.go:696-726 | An absent or already free number leaves the store unchanged. Otherwise only that number's slot changes, to a tombstone one generation above its minimum. |
| `Store.FreeIdempotent` | file.go:696-726 | Freeing a number twice is the same as freeing it once. |
| `Store.FreeThenAdd` | file.go:253-285 | After a live number is freed, re-adding it is accepted exactly for generations at least one above its former minimum. |
| `Store.AddKeepsMinimums` | file.go:251-285 | An accepted add keeps every number that was present and never lowers its minimum generation, as long as the automatic number is not already in use. |
| `Store.AutoNumberCanReplaceExisting` | file.go:286-297 | The counter ignores numbers brought by indirect objects, so an automatically numbered object can take a freed number again at generation 0. |
| `Lookup.Get` | file.go:125-230 | A number the store lacks, a free entry and a tombstone each answer a null with their own diagnostic. A pending object without a `Length` reference is answered as added. No answered stream keeps a `Length` reference. |
| `Lookup.Resolve` | file.go:125-217 | A missing number answers a null. A free entry answers a null for a free entry. An in-use entry is read at its position as `Lookup.ReadAt` states. An object-stream entry with no fuel left answers that the bound is used up. A pending object is answered as added, and a tombstone answers a null for a number freed after loading. |
| `Lookup.ResolveFromContainer` | file.go:155-204 | An object-stream entry is read from its container, looked up with one unit of fuel less. A crash or exhaustion of that lookup is passed on. A value is produced exactly when the container is a stream from whose payload an object parses at the offset its header gives, and it is that object. |
| `Lookup.ReadAt` | file.go:139-154 | It crashes exactly when the entry's field is 0 or reading from one byte before it would start past the end of the byte view. Otherwise a failed parse answers a null for a parse error, a parsed object that is not indirect answers a null for that, and a parsed indirect object answers its content. |
| `Lookup.ParseIndex` | file.go:163-180 | A parsed header holds exactly the requested count of integers, and they are the numbers the numeric parser reads one after another from the offset. Every other outcome is a null or a crash. |
| `Lookup.ParseIndexComplete` | file.go:163-180 | Whenever the parser reads a sequence of integers one after another from the offset, the header parses to exactly that sequence. |
| `Lookup.FirstPair` | file.go:187-197 | Finds the first even position from `from` on holding the number, or reports that no pair from there names it. |
| `Lookup.CompressedOffset` | file.go:182-197 | Uses the hinted pair when it names the object. Otherwise uses the offset of the first pair that names it. When no pair names it, the hinted offset stays. |
| `Lookup.SelfHealingLookup` | file.go:187-197 | When the stream's index lists the object at all, the offset used is one that the index pairs with the object, however stale the hint. |
| `Lookup.ReadCompressed` | file.go:155-204 | A crash or exhaustion of the container lookup is passed on. A container that is not a stream answers a null. A value is produced exactly when the decoded payload parses at `First` plus the offset chosen from the header, and is what parses there. |
| `Lookup.ResolveLength` | file.go:219-227 | Objects without a `Length` reference come back unchanged. With no fuel left, a `Length` reference answers that the bound is used up. A value keeps every other key and replaces `Length` by an integer within the payload's length, and its payload is cut to that length. No answered stream keeps a `Length` reference. |
| `Lookup.ResolveLengthAnswer` | file.go:219-227 | The stream comes back exactly when the `Length` lookup, with one unit of fuel less, answers an integer within the payload. That integer is then the stream's `Length`. A null or a non-integer crashes the type assertion, an integer beyond the payload crashes the slice, and a crash of the lookup is passed on. |
| `Lookup.ApplyLength` | file.go:219-227 | A value is produced exactly when the `Length` lookup answers an integer within the payload. The value then keeps every other key, stores that integer under `Length` and cuts the payload to it. An integer outside the payload crashes the slice. A null or a non-integer crashes the type assertion. A crash of the lookup is passed on. |
| `Lookup.PendingIgnoresView` | file.go:208-212 | A pending object is answered from memory, whatever the byte view and the parsers are. |
| `Lookup.GetAfterAdd` | file.go:245-285 | After an accepted add, a lookup of the object's reference returns the added object. |
| `Lookup.GetAfterAutoAdd` | file.go:286-297 | An automatically numbered object is found under the reference `Add` returned. |
| `Lookup.GetAfterFree` | file.go:696-726 | Once a number is freed, every reference to it answers a null. |
| `Lookup.GetFuelMonotone` | file.go:155-158 | A lookup's answer does not depend on the bound on its recursive container lookups, once that bound suffices. |
| `Ordering.Sort` | file.go:380 | The result is in ascending order and is a permutation of the input. |
| `Ordering.MaxOf` | file.go:437-442 | The result bounds every element, is one of them, and is 0 for an empty list. |
| `Ordering.KeysBelow` | file.go:387-391 | The result is strictly ascending and holds exactly the map's keys below the bound. |
| `Runs.GroupFrom` | file.go:396-405 | Continuing from a partition of the prefix, the loop ends with a partition of the whole list into maximal runs. |
| `Runs.Runs` | file.go:393-407 | The groups concatenate to the sorted numbers. Each group is a non-empty run of consecutive numbers, and no group could be joined to the one before it. |
| `Runs.IndexArray` | file.go:612-618 | The array holds two integers per group: the group's first number, then its length, in group order. |
| `Runs.IndexRoundTrip` | file.go:612-618 | Reading back the `Index` array built from the runs gives exactly the numbers that were grouped. |
| `Save.FreeNumbers` | file.go:349-377 | The collected free numbers are exactly the traversed numbers whose slot marks them free. |
| `Save.Emit` | file.go:349-377 | The write position never moves back. The free numbers collected are those met, in traversal order. |
| `Save.EmitKeys` | file.go:349-377 | The writing loop makes an entry exactly for each added or freed number, besides the entries it started with. |
| `Save.EmitFreed` | file.go:371-373 | A freed number gets a free entry carrying its next generation. |
| `Save.EmitPending` | file.go:358-370 | An added object gets an in-use entry with its own generation, at a position inside the bytes the loop appends. |
| `Save.EmitDistinctOffsets` | file.go:358-370 | Two added objects are recorded at different positions. |
| `Save.EmitKinds` | file.go:349-377 | The writing loop makes only free and in-use entries. |
| `Save.LinkFreeListLinks` | file.go:379-385 | After chaining, the entry of each free number except the last points at the next one. Entries off the list are unchanged. Linked entries keep their type and generation. |
| `Save.BuildEntries` | file.go:344-385 | The free list is in ascending order, and the write position is at least the first position after the old bytes. |
| `Save.FreeListMembers` | file.go:507-536 | The free list holds exactly the numbers marked free, plus 0 in the stream form. |
| `Save.BuildKeys` | file.go:344-385 | Entries exist exactly for 0, for added or freed numbers, for the index stream and for every free-list member but the last. |
| `Save.BuildBounded` | file.go:538-550 | No entry lies above the largest number in use, or above the index stream's number in the stream form. |
| `Save.AddedEntry` | file.go:358-370 | Every added object ends up with an in-use entry, its own generation, and a position inside the appended bytes. The exception is an object added under 0 in the stream form: see `Save.PendingZeroOverwritten`. |
| `Save.PendingZeroOverwritten` | file.go:505-559 | In the stream form the free list is seeded with 0, so an object added under 0 is chained like a free entry. Once another number is free, entry 0 keeps the in-use type and the object's generation, but its position becomes the least free number above 0. |
| `Save.AddedPositionsDistinct` | file.go:358-370 | After chaining, no two added objects share a recorded position. |
| `Save.FreedEntry` | file.go:371-373 | A number freed in this session is written as a free entry carrying its next generation. |
| `Save.UnmodifiedOmitted` | file.go:351-357 | Loaded entries in use are not written again. |
| `Save.OnDiskFreeEntry` | file.go:351-385 | A loaded free entry is on the free list. It is written exactly when another free number follows it, and then as a free entry of generation 0. |
| `Save.SentinelEntry` | file.go:344-346 | When no object was added under 0, entry 0 is a free entry with generation 65535. With nothing to point at in the table form, it is exactly the sentinel. |
| `Save.FreeListEnds` | file.go:379-385 | The last member of the free list, when written, points at 0. |
| `Save.NoCompressedEntries` | file.go:416-427 | No entry refers into an object stream, so the table writer never reaches its panics. |
| `Save.MaxOfOrder` | file.go:437-443 | The `Size` computed from the traversal is one above the largest number in the store, and 1 for an empty store. |
| `Save.SortedNumbers` | file.go:387-391 | The numbers are strictly ascending and are exactly the entry numbers. |
| `Save.SaveWithXrefTable` | file.go:319-476 | The index numbers are ascending and exactly the entries, cut into maximal runs. `Size` is one above the largest number in the store. The recorded start lies at or after the appended bytes. |
| `Save.PackLength` | file.go:637-648 | With an encoder that emits exactly the requested number of bytes, the payload is the number of rows times the bytes of one row. |
| `Save.PackRow` | file.go:637-648 | Row `j` of the payload sits at `j` times the row size and encodes the `j`-th entry. |
| `Save.StreamTrailerKeys` | file.go:582-633 | The stream dictionary has `Type` XRef, the `Index` of the runs, `W` and `Size`. Every trailer key is kept with its value. |
| `Save.CommonTrailerKeys` | file.go:431-451 | The trailer always holds `Size` and `Root` with their values, and only the six trailer keys. |
| `Save.CommonTrailerOptional` | file.go:445-466 | `Prev`, `Encrypt`, `Info` and `ID` are present exactly when non-zero or non-empty, each with the store's value. |
| `Save.StreamNumbers` | file.go:546-565 | The stream form's numbers are ascending, exactly its entries, include 0, and lie at or below the index stream's number. |
| `Save.NumberStream` | file.go:538-580 | The numbers are ascending, exactly the entries, and in maximal runs. The index stream's number is one above every number in use. Its own in-use entry is the highest and records the start position. |
| `Save.BuildStreamIndex` | file.go:538-633 | The numbering as above, with the widths chosen for its rows. |
| `Save.StreamDictionary` | file.go:582-633 | The index stream's dictionary has `Type` XRef, `Size` one above its own number, and the three widths. Its `Index` reads back as exactly the entry numbers. Every other key is a trailer key with the trailer's value. |
| `Save.StreamPayloadRows` | file.go:637-656 | The payload is one fixed-size row per entry, in ascending number order. Each row encodes that entry with the widths of `W`. |
| `Save.StreamWidths` | file.go:620-633 | Each width is the byte width for a value that bounds its field over all entries and is reached by one of them. |
| `Save.Commit` | file.go:546-551 | Recording the in-use entry of a fresh number and then adding the index stream leaves only the index stream, pending under its number. |
| `Save.SaveWithXrefStream` | file.go:478-672 | The index is as `BuildStreamIndex` states. The index stream's number was not in use. The store after saving differs only by the index stream, pending under that number. |
| `Save.StreamEntry` | file.go:546-559 | The index stream's own entry survives chaining as an in-use entry at generation 0, at the end of the appended objects. |
| `Legacy.FirstMatch` | file/file.go:80-84 | Finds the first added object with exactly the reference, or reports that there is none. |
| `Legacy.ReadLoaded` | file/file.go:94-100 | It crashes on a slice outside the byte view exactly when the offset is 0 or past the view. It answers the content exactly when the parser returns an indirect object. |
| `Legacy.LegacyGet` | file/file.go:79-106 | An added object with the reference is returned whole. Otherwise a missing or free entry answers null, an in-use entry is read from the file, and an object-stream entry panics. |
| `Legacy.LegacyAdd` | file/file.go:111-124 | An indirect object is appended under its own reference and nothing else changes. Anything else panics. |
| `Legacy.LegacyGetAfterAdd` | file/file.go:79-124 | After an add, a lookup returns the new object exactly when its reference matches and no earlier object had it. Otherwise it answers as before. |
| `Legacy.LoadedIgnoresGeneration` | file/file.go:86-100 | Without added objects under the number, a lookup ignores the generation asked for. |
| `Legacy.LegacyEmit` | file/file.go:161-175 | The write position never moves back. Entries exist exactly for the starting ones and each added number. |
| `Legacy.LegacyEmitLastWins` | file/file.go:161-175 | A number's entry is the last object added under it: in use, its generation, a position inside the appended bytes. |
| `Legacy.LegacyEntries` | file/file.go:157-175 | The index has an entry for 0 and for each added number, and for nothing else. |
| `Legacy.LegacyEntryKinds` | file/file.go:204-224 | No entry is of the object-stream kind, so writing the table reaches no panic. Entry 0 is the sentinel unless an object was added under 0. |
| `Legacy.LegacyTrailerKeys` | file/file.go:226-245 | `Root` is present exactly when the loaded trailer has one. `Size` is always present. `Prev` is present exactly when non-zero. Nothing else is present. |
| `Legacy.LegacyNumbers` | file/file.go:177-181 | The numbers are ascending, exactly the entries, and include 0. |
| `Legacy.LegacySize` | file/file.go:234-241 | `Size` is above every new and every loaded number and is one above one of them. |
| `Legacy.LegacySave` | file/file.go:137-255 | The index lists 0 and every added number in ascending order, in maximal runs. `Size` covers new and loaded numbers. The start lies at or after the appended bytes. |
| `Legacy.GroupLoop` | file/file.go:184-202 | Every group already cut is kept, in order, ahead of at least one further group. |
| `Legacy.LegacyGroups` | file/file.go:183-202 | The grouping loop as written; an empty list gives one empty group. |
| `Legacy.LegacyGroupsConsecutive` | file/file.go:183-202 | On consecutive numbers the loop gives the single run, as intended. |
| `Legacy.LegacyGroupsSingletonHead` | file/file.go:191-194 | When the loop completes on a list with a break right after the first number, the first of its two or more groups is that number alone. |
| `Legacy.LegacyGroupsDropsNumber` | file/file.go:191-198 | For 0, 1, 2, 5 the loop gives groups 0-1 and 5, which do not partition the numbers: 2 is lost. |
| `Legacy.LegacyGroupsPanics` | file/file.go:191-198 | For 0, 1, 2, 4, 5, 6, 8 the slice end runs past the list. |
| `Legacy.DroppedNumberReachable` | file/file.go:157-181 | Objects added under 1, 2 and 5 give exactly the index numbers 0, 1, 2, 5. |
| `Scenario.DeleteThenReuse` | examples/h7/h7.go:245-271 | Stage 3 opens the numbers below 14 and deletes annotations 8 and 9, which raises their minimum generation to 1. Adding them again at generation 1 succeeds, and at generation 0 is refused with generation 1. |
| `Scenario.ReopenThenReuse` | examples/h7/h7.go:274-321 | Stage 4 opens 8 and 9 as the free entries of generation 1 that stage 3 wrote. Adding them at generation 1 succeeds, and at generation 0 is refused with generation 1. |
| `Scenario.Edited` | examples/h7/h7.go:286-352 | Stage 4's four adds (8 and 9 at generation 1, 12 at generation 0, the rewritten array 7) are all accepted on a store of the numbers below `n`, and leave exactly those numbers. |
| `Scenario.Stage4StreamSize` | examples/h7/h7.go:274-357 | Stage 4 saves the numbers below 15 in the stream form (file.go:314-317). Annotation 12 reuses stage 1's index-stream number, so the new index stream is 15 and its dictionary records `Size` 16. |
| `Scenario.Stage4TableSize` | examples/h7/h7.go:274-357 | For the same store, the table writer, which `Save` does not call, would record `Size` 15. |
| `Scenario.StreamSizeBelow` | file.go:538-565 | For any store holding exactly the numbers below `n`, the stream writer numbers its index stream `n` and records `Size` `n + 1`. |

## Left out

- Opening, creating and closing a file are not modelled: reading the index chain, memory-mapping and unmapping (`file.go:51-121`, `file.go:675-692`, `file/file.go:26-75`, `file/file.go:258-270`). The store is given as a value.
- I/O errors are not modelled. The writers are modelled as if every stat, open and write succeeds.
- The bytes written are not modelled:
  - the textual layout of the table lines and of the trailer;
  - the object bodies (only their lengths, through `Writer.encodedLength`);
  - the `startxref` footer (only its number, `startxref`).
- The object parsers, the stream decoder, `nBytesForInt` and `intToBytes` are parameters. Their behaviour is not modelled.
- `Real` values are carried but not interpreted. The model has no floating point.
- Numbers and generations are unbounded. The source's 64-bit unsigned wrap-around is not modelled, except at `offset - 1` for an offset of 0, which is modelled as the crash it causes.
- `Lookup.Get`: its contract states the answers that come from memory and the `Length` invariant. The answers for entries on disk are stated on `Lookup.Resolve`, `Lookup.ResolveFromContainer`, `Lookup.ReadAt` and `Lookup.ReadCompressed`. The `Length` resolution it applies next is stated on `Lookup.ResolveLength` and `Lookup.ResolveLengthAnswer`.
- `Lookup.Get` takes a `fuel` bound on nested container and `Length` lookups and answers `OutOfFuel` when it is used up. The source recurses without a bound. `Lookup.GetFuelMonotone` shows that the bound does not change any answer once it suffices.
- `Lookup.ResolveLength` crashes when the resolved length exceeds the payload. Go's slice expression accepts lengths up to the payload's capacity, which the model does not know.
- The rewrite of `Length` inside the returned stream is modelled as a new value. The in-place change to the dictionary shared with the store is not modelled.
- The nil checks and the diagnostic prints in `Get` (`file.go:151-153`, `file.go:209-211`) and in the legacy `Get` (`file/file.go:97-99`) are not modelled. The object datatype has no nil.
- The panics for a slot or entry kind outside the known ones (`file.go:205-206`, `file.go:215-216`, `file.go:267-268`, `file.go:274-275`, `file.go:533-534`, `file.go:715-716`, `file.go:723-724`, `file/file.go:103-104`) are not modelled. The datatypes cannot hold such values.
- `Legacy.LegacyGet`: for an added object with the requested reference, its contract says an object with that reference is returned, not which one. `Legacy.LegacyGetAfterAdd` states that it is the first one added.
- `Legacy.LegacySave`: cuts the numbers into maximal runs with `Runs.Runs`, not with the source's grouping loop. That loop is modelled as written in `Legacy.LegacyGroups` (see Findings).
- `Save.SaveWithXrefStream`: its contract names the index stream through `IndexStream`. The stream's dictionary, payload and widths are stated by `Save.StreamDictionary`, `Save.StreamPayloadRows` and `Save.StreamWidths`.
- `Save` itself is not a member of the model. It only calls the stream writer (`file.go:314-317`), which `Save.SaveWithXrefStream` models. The table writer is modelled as well, although `Save` no longer reaches it.

## Findings

| source | as written | input that shows it | evidently intended | confidence | as-written member | corrected member |
|---|---|---|---|---|---|---|
| file/file.go:191-197 | When a run ends at position `i`, it is cut as the slice from `groupStart` to `groupStart+i-1`. That end is counted from the list's start, where the run's own end `i` was meant. | Index numbers 0, 1, 2, 5 give subsections 0-1 and 5, so number 2 gets no entry (`Legacy.LegacyGroupsDropsNumber`). Objects added under 1, 2 and 5 produce exactly these numbers (`Legacy.DroppedNumberReachable`). The numbers 0, 1, 2, 4, 5, 6, 8 make the slice run past the list, a panic (`Legacy.LegacyGroupsPanics`). | Cut at `i`, as the current writer does at file.go:401-403: the subsections partition the sorted numbers into maximal runs. | not executed | `Legacy.LegacyGroups` | `Runs.Runs` |
