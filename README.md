# minidjvu-mod core, modelled in Dafny

minidjvu-mod encodes bilevel (black and white) scanned pages as DjVu
documents. It can share one JB2 dictionary of glyph shapes among several
pages. This project models the parts of the encoder that decide which
glyphs are "the same letter". It also models the command-line front end
that reads the settings file and groups pages into dictionaries. Each
part is proved against definitions of what it should compute.

One Dafny module stands for each source file, or for one part of a file:

- **ClassifyCache, ClassifySpec, ClassifyCompare, Classify, ClassifyDriver**
  model `src/alg/classify.c`, the pattern classifier.
  - ClassifyCache is the 2-bit result cache for each pair of pattern ids.
  - ClassifySpec holds the reference definitions: greedy seeding and the
    verdict of `compare_to_class`.
  - ClassifyCompare covers `compare_to_class` and the merge test.
  - Classify is the class and node arena, with the seeding pass, the
    merge pass and its resume cursors, and the tagging.
  - ClassifyDriver covers the single-page and multipage entry points and
    the dictionary flags.
  - The pattern comparator `mdjvu_match_patterns` is an uninterpreted
    parameter. Nothing is assumed about it, so every result holds for any
    comparator.
  - The main invariants:
    - every pattern ends up in exactly one class;
    - two patterns share a tag only when a real comparison said MATCH for
      a pair of their class;
    - every cache slot that reads MATCH is backed by such a comparison.
- **Proto** (`src/jb2/proto.c`): the prototype search of the JB2 encoder.
  It finds the best earlier glyph by a bit-level difference count and
  makes it a substitution when the match is perfect.
- **Frames** (`src/matcher/frames.c`): peeling a glyph layer by layer.
  - Each pixel gets a rank, the pass in which it is removed.
  - The frame is the pixels that survive every pass.
  - A pass never turns a white pixel black, and peeling terminates.
- **Bitmaps** (`src/matcher/bitmaps.c`): the byte-per-pixel helpers of
  the matcher. They normalise to 0/1, invert, copy, clear, provide white
  margins and strip stroke endpoints.
- **Smooth** (`src/alg/smooth.c`): the 3x3 smoothing filter, applied
  64 pixels at a time. It is proved equal, pixel by pixel, to the
  reference rule.
- **Adjust** (`minidjvu/alg/adjust/adjust.c`): baseline adjustment when
  a blit's bitmap is replaced by its substitute.
- **ParsingStream** (`tools/settings-reader/ParsingByteStream.cpp`): the
  tokenizer of the settings file, proved against `Pending()`, which is
  everything the stream has still to deliver. It covers the push-back
  slot, the byte-order mark, comments, and bare and quoted tokens.
- **SettingsReading** (`tools/settings-reader/SettingsReader.cpp`): the
  recursive-descent reader of the `(options ...)`, `(input-files ...)`
  and `(djbz ...)` lists.
- **Options** (`tools/settings-reader/AppOptions.cpp`): the option
  containers. They cover the file lists, the grouping of pages into
  dictionaries, the page and dictionary file names, and the chunk ids.
- **MinidjvuMod** (`tools/minidjvu-mod.c`): the command-line front end.
  It covers option matching, the checks on numeric switches, the
  pages-per-dictionary clamp, page numbering, and the order of chunks in
  the document directory.

Where the source changes state in place, the model keeps that form:
- the classification and the settings objects are classes with methods;
- the cache buffer and the bitmaps are arrays;
- each method is proved against a function of its inputs or old state.

## Model

| member | source | states |
|---|---|---|
| ClassifyCache.StoreField | src/alg/classify.c:232-247 | writing a 2-bit field with `masks[shift]` changes that field to the value and leaves the other three fields of the byte alone |
| ClassifyCache.FillByteIsUnknown | src/alg/classify.c:222-255 | every field of the fill byte 0xFF decodes to 2, the "not yet compared" value |
| ClassifyCache.FilledBufferIsUnknown | src/alg/classify.c:222-255 | a buffer filled with 0xFF reads 2 in every slot |
| ClassifyCache.ByteInsideRow | src/alg/classify.c:224-237 | for a <= b < size, byte `(size-b-1)>>2` lies within row a's `(size-a+3)>>2` bytes |
| ClassifyCache.AddrInBuffer | src/alg/classify.c:207-237 | every pair is addressed inside the mem_req bytes allocated |
| ClassifyCache.SameByteDistinctShift | src/alg/classify.c:237-238 | two columns of one row that share a byte have different shifts |
| ClassifyCache.SlotsDistinct | src/alg/classify.c:232-248 | distinct unordered pairs never share a (byte, shift) slot, so a write changes no other pair |
| ClassifyCache.RowOffsets | src/alg/classify.c:207-227 | the row pointers of new_cache start each row where the previous one ends, and mem_req is the sum of all row sizes |
| ClassifyCache.FilledBuffer | src/alg/classify.c:214-222 | the freshly allocated buffer holds 0xFF in every byte |
| ClassifyCache.Cache.constructor | src/alg/classify.c:203-230 | new_cache: size rows, every slot reads 2 (unknown) |
| ClassifyCache.Cache.SetByLine | src/alg/classify.c:242-248 | after set_cache_by_line(a, b, v) the pair {a, b} reads v, in either order, and every other pair reads as before |
| ClassifyCache.Cache.Set | src/alg/classify.c:234-240 | after set_cache(a, b, v) the pair {a, b} reads v and every other pair reads as before |
| ClassifyCache.Cache.GetAndLine | src/alg/classify.c:250-256 | get_cache_and_line returns the decoded slot, one of -1, 0, 1 or 2, and the row of min(a, b) |
| ClassifySpec.SeedClasses | src/alg/classify.c:300-328 | the seeding pass builds at most one class per pattern, none of them empty |
| ClassifySpec.SplitStep | src/alg/classify.c:308-325 | one comparison of the seeding pass moves the next pattern into the seed's class on MATCH and leaves it in the list otherwise |
| ClassifySpec.AbsorbedMatches | src/alg/classify.c:309-323 | a seed takes only patterns of the list that compare MATCH against it |
| ClassifySpec.KeptUnmatched | src/alg/classify.c:309-323 | a seed leaves in the list only patterns that do not compare MATCH against it |
| ClassifySpec.SplitIsPermutation | src/alg/classify.c:308-325 | taking and keeping split the list without losing or inventing a pattern |
| ClassifySpec.SeedingIsPartition | src/alg/classify.c:300-328 | after seeding every pattern is in exactly one class |
| ClassifySpec.SeedingMembersComeFromList | src/alg/classify.c:300-328 | every member of a seeding class is a pattern of the list |
| ClassifySpec.SeedingMembersMatchSeed | src/alg/classify.c:309-323 | every non-seed member of a class compared MATCH against its class seed |
| ClassifySpec.SeedingIsGreedy | src/alg/classify.c:302-328 | no pattern of a later class matched the seed of an earlier class |
| ClassifySpec.SeedingAllMatch | src/alg/classify.c:302-328 | with a comparator that always answers MATCH, seeding builds one class |
| ClassifySpec.KeptEmptyWhenAllMatch | src/alg/classify.c:308-325 | with a comparator that always answers MATCH, nothing is left in the list |
| ClassifySpec.KeptAllWhenNoMatch | src/alg/classify.c:308-325 | with a comparator that never answers MATCH, the seed takes nothing |
| ClassifySpec.SeedingNoMatch | src/alg/classify.c:302-328 | with a comparator that never answers MATCH, every pattern seeds its own class, in order |
| ClassifySpec.Verdict | src/alg/classify.c:286-295 | compare_to_class reports 0 or 1 |
| ClassifySpec.VerdictOfPrefix | src/alg/classify.c:286-288 | a -1 among the results read makes the verdict 0 |
| ClassifySpec.CmpValues | src/alg/classify.c:282-284 | without a cache every target is compared at its own dpi |
| ClassifySpec.Resolved | src/alg/classify.c:275-281 | with a cache each target reads its slot, or the comparator when the slot is 2 |
| ClassifySpec.CachedMatchBelongsToPair | src/alg/classify.c:277 | when ids are unique, a cached MATCH for the ids of x and y is a MATCH between x and y |
| ClassifySpec.NothingWitnessedWithoutMatch | src/alg/classify.c:277-284 | with a comparator that never answers MATCH no pair is ever read as MATCH |
| ClassifySpec.WitnessedSym | src/alg/classify.c:236-251 | a MATCH read between x and y is one between y and x, since the cache orders each pair |
| ClassifySpec.JoinedLinked | src/alg/classify.c:148-163 | two linked classes joined across a MATCH make a linked class |
| ClassifySpec.LinkedJoin | src/alg/classify.c:375-378 | merging two classes across a MATCH keeps every class linked: each member of a class of two or more was read MATCH against another member |
| ClassifySpec.LinkedReverse | src/alg/classify.c:102-104 | the order of the classes does not matter to Linked |
| ClassifySpec.SeedingLinked | src/alg/classify.c:300-328 | every seeding class is linked |
| ClassifyCompare.SoundAfterStore | src/alg/classify.c:234-240 | storing the result of comparing x and y in their slot keeps every slot that reads MATCH backed by a MATCH comparison of the two patterns it names |
| ClassifyCompare.RecordResult | src/alg/classify.c:309-312 | the seeding loop's store of a comparison result: afterwards the slot of the pair reads that result, and the cache stays sound |
| ClassifyCompare.ReadThrough | src/alg/classify.c:275-281 | one cached read: the stored answer when the slot is known, otherwise the comparator's answer (which is then stored); a MATCH read is always backed by a MATCH comparison |
| ClassifyCompare.CompareToClass | src/alg/classify.c:267-296 | the result is 0 or 1; without a cache it is 1 exactly when no comparison says DIFFERENT before the end of the chain and at least one says MATCH; the cache stays sound |
| ClassifyCompare.CompareStep | src/alg/classify.c:275-284 | one turn of the loop: the value read for o and the current target is the comparator's without a cache and the snapshot's resolved value with one; a MATCH read is backed by a MATCH comparison; the cache stays sound and, with distinct ids, the slots of later targets stay as in the snapshot |
| ClassifyCompare.Untouched | src/alg/classify.c:242-248 | storing the slot of o and one target leaves the slots of o with every later target of the chain unchanged |
| ClassifyCompare.AnyMatch | src/alg/classify.c:355-361 | the scan stops at the first pattern compare_to_class reports as 1; without a cache it finds one exactly when some pattern of the first chain hits the second; a hit is always backed by a MATCH between the two chains |
| ClassifyCompare.TestChains | src/alg/classify.c:352-373 | the merge test tries the smaller side against the larger and, at classifier level 3, the other direction too; without a cache it decides merge exactly by those hits, and a merge is always backed by a MATCH between the two classes |
| Classify.FlattenAppend | src/alg/classify.c:124-145 | appending a node to one chain adds exactly that node to the nodes of all classes |
| Classify.FlattenDelete | src/alg/classify.c:109-121 | deleting a class removes exactly its nodes from the classes |
| Classify.FlattenJoin | src/alg/classify.c:148-163 | merge() moves nodes between chains and loses none |
| Classify.PartitionDisjoint | src/alg/classify.c:57-83 | in a partition no node sits in two classes |
| Classify.PartitionNoDuplicate | src/alg/classify.c:57-83 | in a partition no chain holds a node twice |
| Classify.NodeInSomeClass | src/alg/classify.c:57-83 | in a partition every node sits in some class |
| Classify.AdvanceAsWritten | src/alg/classify.c:334-390 | the outer step as written dereferences NULL exactly when the current class has no class after it |
| Classify.Advance | src/alg/classify.c:334-390 | the corrected step never dereferences NULL and moves on only to a class that has a class after it |
| Classify.AdvanceAgrees | src/alg/classify.c:334-390 | where the step as written does not crash it agrees with the corrected step |
| Classify.CrashScenario | src/alg/classify.c:300-390 | three patterns with A unlike B and C like both: seeding builds {A, C} and {B}, C reads MATCH against B, and after the merge the step as written dereferences NULL |
| Classify.Classification.constructor | src/alg/classify.c:416-420 | init_classification: no classes and no nodes |
| Classify.Classification.NewClass | src/alg/classify.c:96-106 | new_class prepends an empty class with count 0; nodes unchanged |
| Classify.Classification.NewNode | src/alg/classify.c:124-145 | new_node appends a node for the pattern to the global chain and to the end of class ci, and increments its count |
| Classify.Classification.DeleteClass | src/alg/classify.c:109-121 | delete_class unlinks class j; its nodes stay in the node chain |
| Classify.Classification.Merge | src/alg/classify.c:148-163 | merge(c1, c2) with non-empty c1 appends c2's nodes after c1's, sets the count to the sum and unlinks c2; with empty c1 it unlinks c1 and returns c2 |
| Classify.Classification.SeedStep | src/alg/classify.c:309-324 | one comparison of seeding: the result is stored in the cache, and the pattern joins the newest class iff it compared MATCH |
| Classify.Classification.Take | src/alg/classify.c:314-322 | a matching pattern leaves the list and becomes a new node at the end of the newest class |
| Classify.Classification.SeedFrom | src/alg/classify.c:307-325 | the inner seeding loop: the new class takes every later pattern that matches its seed, in order, and the rest stay pending |
| Classify.Classification.SeedRound | src/alg/classify.c:302-327 | one seeding round puts a class in front holding the first pending pattern and every later one that matches it |
| Classify.Classification.Seed | src/alg/classify.c:300-328 | the seeding pass leaves the classes equal to the reference seeding in reverse creation order (new_class prepends) and the nodes equal to the patterns of the list |
| Classify.Classification.ResetCursors | src/alg/classify.c:337-341 | every class after c resumes its comparisons from c->first |
| Classify.Classification.SetCursor | src/alg/classify.c:379-381 | a class that failed the merge test resumes from c->last next time |
| Classify.Classification.Join | src/alg/classify.c:375-378 | merging next_c into c keeps c at its place, the next class moves up, and every class stays linked |
| Classify.Classification.MergeTest | src/alg/classify.c:352-373 | the merge test compares c's chain from next_c's cursor against next_c's chain in the order the counts select, and at level > 2 also the other way; a positive answer means a MATCH was read across the two classes |
| Classify.Classification.Pass | src/alg/classify.c:345-387 | one round tests every later class against c to the end of the list (the recheck bound is always NULL); changed iff some class was merged, and otherwise every later class resumes from c->last |
| Classify.Classification.ProcessClass | src/alg/classify.c:337-388 | the cursors are reset, then at level 1 exactly one round runs, and at higher levels rounds repeat until one merges nothing, leaving every later class resuming from the final c->last; the classification stays sound |
| Classify.Classification.MergePhase | src/alg/classify.c:330-391 | the walk from the newest class processes every class that has a class after it (one round each at level 1, a final round without a merge for each at higher levels) and keeps the classification sound: nodes unchanged, classes a partition, every class linked (built on the corrected step Advance, see Findings) |
| Classify.Classification.Classify | src/alg/classify.c:298-393 | classify(): the nodes are exactly the patterns of the list, the classes partition them, each class is linked, every cached MATCH is backed by a comparison, there are classes iff there are patterns, and the merge phase processed every class but the last as MergePhase says (built on the corrected step Advance) |
| Classify.Classification.TagClass | src/alg/classify.c:172-177 | the nodes of class k all get tag k + 1; no other node changes |
| Classify.Classification.PutTags | src/alg/classify.c:166-182 | put_tags numbers classes 1..k in list order, tags each node with its class's number and returns k |
| Classify.Classification.GetTags | src/alg/classify.c:395-414 | get_tags_from_classification drops the classes, clears r and writes each node's tag at its pattern's position, returning the number of classes |
| Classify.ZeroFill | src/alg/classify.c:402 | the result array is cleared |
| Classify.WriteTags | src/alg/classify.c:403-411 | positions no node stands for stay 0, the others get a tag, each node's own when no two nodes share a position |
| Classify.SameChains | src/alg/classify.c:339-380 | changing only resume cursors keeps the partition good |
| Classify.GoodJoin | src/alg/classify.c:148-163 | merging two classes across a MATCH leaves a good partition |
| Classify.ViewsJoin | src/alg/classify.c:157-158 | after merge the joined class's patterns are c1's followed by c2's |
| ClassifyDriver.FlatAt | src/alg/classify.c:554-575 | slot i of page k lands at global position (slots of earlier pages) + i of the concatenated pattern array |
| ClassifyDriver.PatternList | src/alg/classify.c:561-572 | the list built from the slots holds one entry per present pattern, in slot order, each with its position, its page's dpi and its rank as id |
| ClassifyDriver.PatternListCovers | src/alg/classify.c:440-450 | every present pattern is on the list |
| ClassifyDriver.PatternListAsWritten | src/alg/classify.c:432-450 | the single-page list as written: entries for present patterns only, all with the page dpi, and every id left at the 0 the memset wrote |
| ClassifyDriver.PatternListAsWrittenNotUnique | src/alg/classify.c:433-449 | with two patterns present the list as written gives both the same id |
| ClassifyDriver.SinglePageIdsCollide | src/alg/classify.c:309-312 | with all ids 0 every pair shares one cache slot: the result 0 stored for A and B is overwritten by A and C's MATCH, so the pair A, B then reads MATCH |
| ClassifyDriver.GatherPage | src/alg/classify.c:440-450 | the gathering loop of the single-page driver yields exactly the PatternList of the page (ids by rank) |
| ClassifyDriver.GatherPages | src/alg/classify.c:554-577 | the gathering loop of the multipage driver yields exactly the PatternList of the concatenated pages, with each page's dpi |
| ClassifyDriver.ClassifyList | src/alg/classify.c:590-603 | after classification (with a cache from level 2 on) absent slots read 0, every tag lies in 1..maxTag and is some pattern's, maxTag is 0 exactly for an empty list, and a pattern sharing its tag was read MATCH against another pattern of that tag |
| ClassifyDriver.Build | src/alg/classify.c:298-328 | a fresh classification is valid, partitions the list and holds only nodes standing for list entries |
| ClassifyDriver.Outcome | src/alg/classify.c:395-413 | the tags written by position: empty slots 0, tags in 1..maxTag with every one of them used, maxTag no more than the list length, shared tags witnessed |
| ClassifyDriver.ClassTagUsed | src/alg/classify.c:395-413 | tag t is written for the nodes of class t - 1, which is not empty, so some pattern of the list carries it |
| ClassifyDriver.SharedTagWitnessed | src/alg/classify.c:314-323 | a node whose tag another node shares has a different node of the same tag it was read MATCH against |
| ClassifyDriver.TaggingFromList | src/alg/classify.c:395-413 | the list-level facts of the classification, restated per slot of the input |
| ClassifyDriver.EmptySlots | src/alg/classify.c:402-407 | a slot's tag is 0 exactly when its pattern is absent, and maxTag is 0 exactly when no pattern is present |
| ClassifyDriver.SharedSlots | src/alg/classify.c:404-407 | two slots of the same non-zero tag each have a MATCH partner of that tag |
| ClassifyDriver.SharedSlot | src/alg/classify.c:404-407 | one slot sharing its non-zero tag with another slot has a MATCH partner of that tag |
| ClassifyDriver.ClassifyPatterns | src/alg/classify.c:422-469 | mdjvu_classify_patterns: 0 for no slots; otherwise r holds a tagging of the slots (0 exactly where absent, tags in 1..maxTag each held by some slot, shared tags backed by MATCH) (built on the corrected PatternList, which gives each pattern its own id, see Findings) |
| ClassifyDriver.MultipageClassifyPatterns | src/alg/classify.c:529-607 | mdjvu_multipage_classify_patterns: 0 for a total of 0; otherwise r holds a tagging of all pages' slots by global position (0 exactly where absent, tags in 1..maxTag each held by some slot, shared tags backed by MATCH), each pattern compared at its own page's dpi |
| ClassifyDriver.TwoPagesOther | src/alg/classify.c:709-724 | a slot of another tag adds no pair of pages for a tag |
| ClassifyDriver.TwoPagesOnePage | src/alg/classify.c:714-718 | a tag met on one page only is not on two pages |
| ClassifyDriver.ScanAdvanceTag | src/alg/classify.c:711-723 | one slot of the scan keeps first_page_met equal to the earliest page of the tag and the flag equal to "met on two pages" |
| ClassifyDriver.ScanAdvance | src/alg/classify.c:709-724 | one slot of the scan keeps the scan state for every tag |
| ClassifyDriver.ScanSlot | src/alg/classify.c:711-723 | a non-zero tag met for the first time records its page; one met before on another page gets flag 1; nothing else changes |
| ClassifyDriver.ScanStep | src/alg/classify.c:711-723 | one slot of the scan carries the scan state (first page met, flag set exactly for tags on two pages) from the slots before it to the slots up to it |
| ClassifyDriver.ClearScan | src/alg/classify.c:702-703 | all flags start at 0 and all first_page_met entries at -1 |
| ClassifyDriver.ScanPage | src/alg/classify.c:707-724 | the slots of one page advance the counter by the page size and keep the scan state |
| ClassifyDriver.DictionaryFlags | src/alg/classify.c:692-728 | flags[t] is 1 exactly when the non-zero tag t occurs on two different pages, 0 otherwise |
| Proto.LookupTableIsPopcount | src/jb2/proto.c:15-22 | every entry of the macro-generated table is the popcount of its index |
| Proto.SumSCountsBits | src/jb2/proto.c:24-32 | sum_s is the number of set bits of the word its bytes form, whatever their order |
| Proto.Ones | src/jb2/proto.c:51-71 | the count of set bits in a prefix is bounded by its length and is 0 iff the prefix is white |
| Proto.Diffs | src/jb2/proto.c:74-103 | the count of differing positions is bounded by the length and is 0 iff the rows agree |
| Proto.Shifted | src/jb2/proto.c:132-145 | a row shifted right by `shift` pixels has zeros entering at the left and each pixel moved by `shift` |
| Proto.DiffBitsToZero | src/jb2/proto.c:51-71 | diff_bits_to_zero is the number of black pixels of the row, 0 iff the row is white |
| Proto.DiffBitsNoShift | src/jb2/proto.c:74-103 | diff_bits_no_shift counts the pixels where the zero-padded rows differ, 0 iff they agree |
| Proto.DiffBitsShifted | src/jb2/proto.c:106-148 | diff_bits_shifted counts the differences after moving the first row `shift` pixels right, 0 iff they then agree |
| Proto.DiffsAgainstEmpty | src/jb2/proto.c:185-188 | comparing against an absent row counts the black pixels of the present one |
| Proto.ByteBitsCount | src/jb2/proto.c:22-31 | the bits of a byte laid out as a packed row hold its popcount |
| Proto.ShiftX | src/jb2/proto.c:167-174 | when the widths differ by at most 2 the horizontal shift is -1, 0 or 1, so only one operand is ever shifted, by one pixel |
| Proto.ShiftY | src/jb2/proto.c:168 | when the heights differ by at most 2 the vertical shift is -1, 0 or 1 |
| Proto.RowDiffs | src/jb2/proto.c:176-199 | one row difference per prototype row from -1 to ph |
| Proto.PrefixMonotone | src/jb2/proto.c:176-205 | the running sum never decreases |
| Proto.DiffResultBounds | src/jb2/proto.c:151-208 | diff's result never exceeds the full difference; a result within the ceiling is the full sum over rows -1..ph, and the result is over the ceiling iff the full difference is |
| Proto.SelfDiffZero | src/jb2/proto.c:164-207 | diff(X, X, c) is 0: no shift, every row pair agrees and the margin rows are absent on both sides |
| Proto.Diff | src/jb2/proto.c:151-208 | diff returns INT32_MAX when the sizes differ by more than 2, and otherwise the running sum at the first row where it exceeds the ceiling, or the full sum |
| Proto.ScanFacts | src/jb2/proto.c:233-269 | a candidate scan never raises the score; a lower score comes from a scanned glyph with that full difference; an equal one leaves the match unchanged; no scanned glyph within the mass bound beats the result |
| Proto.ScanImage | src/jb2/proto.c:233-251 | the candidate loop skips glyphs whose mass differs by more than the best score, calls diff with the best score as ceiling, and stops at a perfect match |
| Proto.DecideFacts | src/jb2/proto.c:222-275 | best_score starts at `w*h*21/100`; a match points into the dictionary or at an earlier page glyph j < i with that difference; a substitution is a perfect match, NULL exactly when the starting bound is 0; a prototype's difference lies strictly between 0 and the bound |
| Proto.DecideIsBest | src/jb2/proto.c:233-269 | the dictionary is scanned first and then, unless it gave a perfect match, the earlier page glyphs; no scanned glyph within the mass bound has a smaller difference than the result |
| Proto.FindPrototypes | src/jb2/proto.c:210-277 | find_prototypes records, for every glyph in order, a substitution when the best score is 0 and otherwise a prototype (possibly NULL) |
| Proto.MultipageFindPrototypes | src/jb2/proto.c:284-300 | every page is searched against the shared dictionary, in order |
| Frames.ConnectivityTest | src/matcher/frames.c:93-153 | donut_connectivity_test lets a pixel with exactly one black 4-neighbour go and keeps one with none, all four, or an opposite pair |
| Frames.TransformSelector | src/matcher/frames.c:196-197 | for 0/1 neighbours with one or three black, the selector x is always in 0..3, so the `assert(0)` default cannot be reached |
| Frames.TransformPixel | src/matcher/frames.c:156-250 | donut_transform_pixel returns 0 for a white centre and 1 for a black centre with none, all four, or exactly an opposite pair of black 4-neighbours |
| Frames.TransformAgreesWithConnectivity | src/matcher/frames.c:93-250 | on a black centre the two rules agree except with one black 4-neighbour, where the transform keeps the pixel unless both diagonals beside that neighbour are black |
| Frames.RulesRotationInvariant | src/matcher/frames.c:93-250 | neither rule changes when the neighbourhood is rotated a quarter turn |
| Frames.Peeled | src/matcher/frames.c:272-284 | flay's decision for a pixel keeps it only when it was black |
| Frames.NewRow | src/matcher/frames.c:270-286 | the new row flay builds has one pixel per column |
| Frames.NewRowRule | src/matcher/frames.c:270-286 | each pixel of a new row is decided from its old neighbourhood, the new row above and the new pixel to its left |
| Frames.FlayPixel | src/matcher/frames.c:272-284 | one pixel of flay: the transform of the old neighbourhood, then for a pixel it would drop the connectivity test on the new pixels above and left and the old ones right and below; reports whether it was removed |
| Frames.Record | src/matcher/frames.c:272-284 | the decision is written to buf and, for a removed pixel, `rank` to ranks; no other cell changes |
| Frames.FlayRow | src/matcher/frames.c:266-286 | one row of flay's first loop builds the new row from the old layer and the new row above and records `rank` for each removed pixel; other rows unchanged |
| Frames.BuildLayer | src/matcher/frames.c:265-287 | the first loop of flay builds the whole new layer, records the ranks of removed pixels and returns whether any was removed |
| Frames.LayerRow | src/matcher/frames.c:265-287 | one turn of the first loop extends the built layer by one row |
| Frames.LayerWithin | src/matcher/frames.c:272-284 | the new layer never turns a white pixel black |
| Frames.LayerStepped | src/matcher/frames.c:265-287 | the first loop is one pass: kept pixels were black, removed ones get `rank`, other ranks are unchanged, and the result is whether a pixel was lost |
| Frames.LayerMatches | src/matcher/frames.c:270-286 | the layer read back from buf obeys flay's rule pixel by pixel |
| Frames.CopyInterior | src/matcher/frames.c:289-292 | the copy at the end of flay puts the new layer inside the margin and leaves the margin as it was |
| Frames.Flay | src/matcher/frames.c:255-295 | flay returns 1 iff some pixel was removed, never turns white into black, records `rank` for each removed pixel and copies the new layer back |
| Frames.Shrink | src/matcher/frames.c:322 | a pass that only loses pixels does not increase the black-pixel count, and strictly decreases it when it loses one: the measure that ends the peel loop |
| Frames.WithMargin | src/matcher/frames.c:300-316 | the pattern is copied into a fresh array with a white one-pixel margin |
| Frames.PeelingStep | src/matcher/frames.c:322 | a pass with rank `passes` keeps the peeling invariant, with one more rank when it lost a pixel |
| Frames.Pass | src/matcher/frames.c:322 | one call of flay from the loop keeps the invariant and shrinks the black pixels, strictly when it reports a change |
| Frames.Peel | src/matcher/frames.c:321-323 | the `while (flay(...)) passes++` loop terminates with passes >= 1 and the margin still white |
| Frames.RanksBelow | src/matcher/frames.c:343-350 | every recorded rank is in 0..passes-1, so `colors[passes - ranks[i][j]]` stays within the passes + 1 entries |
| Frames.Colours | src/matcher/frames.c:325-336 | the colour table has passes + 1 entries, the shades for k < passes and 0 at `colors[passes]` |
| Frames.Paint | src/matcher/frames.c:338-353 | a pixel that survives every pass gets 255 and any other gets `colors[passes - rank]` |
| Frames.SoftenPattern | src/matcher/frames.c:298-360 | mdjvu_soften_pattern: frame pixels were black, a pixel has a positive rank iff it was black and peeled off, ranks lie below passes, and each output is 255 for a frame pixel and the colour of its rank otherwise (0 for a never-black pixel) |
| Bitmaps.Bit | src/matcher/bitmaps.c:238-249 | a normalised pixel is at most 1 and is 0 exactly when the byte was 0 |
| Bitmaps.Flip | src/matcher/bitmaps.c:307-326 | with the flag, non-zero becomes 0 and zero becomes 1; without it the byte is 1 - x modulo 256 |
| Bitmaps.BitIdempotent | src/matcher/bitmaps.c:238-249 | normalising twice equals normalising once, and a 0/1 pixel is unchanged |
| Bitmaps.FlipTwice | src/matcher/bitmaps.c:307-326 | inversion is an involution on 0/1 data in both modes and on every byte without the flag; twice with the flag gives the normalised pixel |
| Bitmaps.ClearFrame | src/matcher/bitmaps.c:329-343 | the top and bottom rows and the left and right margin bytes become 0 and nothing else changes |
| Bitmaps.AllocateWithWhiteMargins | src/matcher/bitmaps.c:329-343 | a fresh (h+2) x (w+2) buffer whose whole one-pixel frame is 0 and whose interior keeps the allocator's contents |
| Bitmaps.ProvideMargins | src/matcher/bitmaps.c:63-97 | a fresh bitmap with margins whose interior equals the source (normalised to 0/1 when asked) and whose margins are 0 |
| Bitmaps.CopyRows | src/matcher/bitmaps.c:109-122 | the first n bytes of each of the first h rows are copied; every other byte of the destination is unchanged |
| Bitmaps.AssignBitmap | src/matcher/bitmaps.c:109-114 | w bytes of each of the h rows are copied; other bytes unchanged |
| Bitmaps.PackedRowSize | src/matcher/bitmaps.c:118 | `(w + 7) >> 3` is the least number of bytes holding w bits |
| Bitmaps.AssignUnpackedBitmap | src/matcher/bitmaps.c:116-122 | `(w+7)>>3` bytes of each row are copied; other bytes unchanged |
| Bitmaps.ClearBitmap | src/matcher/bitmaps.c:346-352 | the first w bytes of each of the h rows become 0; other bytes unchanged |
| Bitmaps.MakeBitmap0Or1 | src/matcher/bitmaps.c:238-249 | each pixel of the w x h corner becomes 1 iff it was non-zero; other bytes unchanged |
| Bitmaps.InvertBitmapOld | src/matcher/bitmaps.c:307-326 | each pixel of the w x h corner is inverted as Flip says; other bytes unchanged |
| Bitmaps.Degree4 | src/matcher/bitmaps.c:198-199 | the 4-neighbour sum lies in 0..4*255 |
| Bitmaps.Degree8 | src/matcher/bitmaps.c:214-216 | the 8-neighbour sum is at least the 4-neighbour sum and at most 4*255 more |
| Bitmaps.Strip | src/matcher/bitmaps.c:196-203 | a result byte becomes 1 exactly at a black pixel whose neighbour count is not 1; a set result pixel is never cleared and nothing else changes |
| Bitmaps.StripEndpoints | src/matcher/bitmaps.c:190-221 | strip_endpoints_4/8 apply Strip at every pixel of the w x h bitmap, with the 4- or 8-neighbour count, and leave other result bytes unchanged |
| Smooth.SmoothBit | src/alg/smooth.c:50-63 | at one bit position the bitwise formula of get_smooth equals the reference rule: white turns black only with four black neighbours, an isolated black pixel is cleared, two or more neighbours keep it, one neighbour keeps it iff a diagonal pair across the other axis is black |
| Smooth.GetSmooth | src/alg/smooth.c:50-63 | on a whole word every bit equals the reference rule applied to its neighbourhood, with white shifted in at both ends |
| Smooth.Load | src/alg/smooth.c:116-130 | a loaded word holds the row's pixels at that offset, with white past the row's end (a missing upper or lower row reads white) |
| Smooth.PaddingStaysWhite | src/alg/smooth.c:155-158 | no pixel past the end of the row smooths to black |
| Smooth.WindowBits | src/alg/smooth.c:116-135 | the first get_smooth call of word i yields the reference values of the last pixel of word i-1 and the first of word i |
| Smooth.WindowHood | src/alg/smooth.c:116-135 | a window whose first four bits are four consecutive pixels of the three rows smooths bits 1 and 2 to the reference values of the middle two pixels |
| Smooth.InnerBits | src/alg/smooth.c:144 | bits 1..62 of the second get_smooth call are the reference values of their pixels |
| Smooth.SmoothRowAsWritten | src/alg/smooth.c:89-159 | smooth_row as written gives every pixel its reference value except the last bit of the last word, which it clears |
| Smooth.LastPixelLost | src/alg/smooth.c:140-151 | in a black 64-pixel row between black rows the reference keeps the last pixel black, while it is the bit SmoothRowAsWritten clears |
| Smooth.SmoothWord | src/alg/smooth.c:116-152 | one pass of the loop stores word i with its inner and head bits final, repairs the previous word's last bit from the tail, and carries the last two pixels of each row on |
| Smooth.SmoothWordBits | src/alg/smooth.c:128-148 | the tail bit and the stored word of one pass, with the word's last bit masked off |
| Smooth.StoreWord | src/alg/smooth.c:150-151 | the memcpy writes exactly the given bits of the word into the result row |
| Smooth.ClearPadding | src/alg/smooth.c:155-158 | the padding bits after n in the last byte become white; nothing else changes |
| Smooth.TailBit | src/alg/smooth.c:134-141 | the tail bit of word i's window is the reference value of pixel 64i - 1 |
| Smooth.SmoothRow | src/alg/smooth.c:89-159 | smooth_row with the final fix-up: every pixel of the result row has its reference value; other rows are unchanged |
| Smooth.RowOf | src/alg/smooth.c:176-182 | a row read from the bitmap holds exactly its pixels |
| Smooth.SmoothBitmap | src/alg/smooth.c:161-193 | a bitmap of fewer than 3 rows is unchanged; otherwise every pixel becomes the reference value computed from the ORIGINAL rows above, at and below it, absent rows reading white (built on the corrected SmoothRow, see Findings) |
| Smooth.CopyBack | src/alg/smooth.c:190 | the smoothed buffer is copied over the bitmap only after the loop |
| Adjust.CDiv | minidjvu/alg/adjust/adjust.c:149-150 | C's truncating `/`: the quotient's magnitude is \|a\| / d and it takes the sign of a |
| Adjust.SpanMeaning | minidjvu/alg/adjust/adjust.c:86-95 | a row's mass is 0 exactly when the row is white; otherwise it starts and ends on black pixels and no black pixel lies outside it |
| Adjust.RowSpan | minidjvu/alg/adjust/adjust.c:86-95 | the two inner loops yield the first black pixel (or the width) and the span up to the last black pixel |
| Adjust.RowMasses | minidjvu/alg/adjust/adjust.c:83-98 | the first loop stores every row's mass bottom row first (`mass[h-i-1]`) and their total |
| Adjust.FirstReachMeaning | minidjvu/alg/adjust/adjust.c:100-107 | the baseline loop stops at the first quarter-row where 6m >= 4tm, reads `mass[i/4]` only with i/4 < h, and never runs past the last row |
| Adjust.ComputeBaseline | minidjvu/alg/adjust/adjust.c:75-113 | compute_baseline returns `4*(h-1) - i` for the stopping quarter-row i, which lies in -4..4(h-1) |
| Adjust.RoundQuarter | minidjvu/alg/adjust/adjust.c:155-158 | the refined shift is the quarter-pixel difference divided by 4, rounded to nearest with halves away from zero |
| Adjust.RoundQuarterOdd | minidjvu/alg/adjust/adjust.c:155-158 | the rounding is symmetric in the sign of the difference |
| Adjust.Vertical | minidjvu/alg/adjust/adjust.c:150-161 | the vertical shift is the rounded baseline difference exactly when that lies within 1 + w/16 of the centring shift, and the centring shift otherwise |
| Adjust.BitmapXShift | minidjvu/alg/adjust/adjust.c:142-149 | the horizontal shift owed to a bitmap (corrected indexing, see Findings): 0 when it is its own substitution, otherwise half the width difference, truncated toward zero |
| Adjust.BitmapYShift | minidjvu/alg/adjust/adjust.c:142-161 | the vertical shift owed to a bitmap (corrected indexing): 0 when it is its own substitution, otherwise the Vertical rule over its own and its substitution's baselines |
| Adjust.XShift | minidjvu/alg/adjust/adjust.c:142-149 | x_adjust[k] is 0 unless blit k's bitmap is replaced; then it is half the width difference, truncated toward zero |
| Adjust.YShift | minidjvu/alg/adjust/adjust.c:142-161 | y_adjust[k] is 0 unless blit k's bitmap is replaced; then it is the rounded baseline difference exactly when that lies within 1 + w/16 of the centring shift, and the centring shift otherwise |
| Adjust.ComputeBaselines | minidjvu/alg/adjust/adjust.c:128-133 | the first loop of mdjvu_adjust writes the baseline of every bitmap without the no-substitution flag and leaves the others' entries as allocated |
| Adjust.BlitShift | minidjvu/alg/adjust/adjust.c:138-161 | one turn of the second loop computes exactly XShift and YShift for that blit |
| Adjust.ComputeShifts | minidjvu/alg/adjust/adjust.c:136-162 | the second loop as written: it reports failure exactly when some replaced blit's number is not an index of x_adjust/y_adjust (where the source writes out of bounds); otherwise it leaves x_adjust and y_adjust equal to XShift and YShift at every index, stored by blit number |
| Adjust.ComputeBitmapShifts | minidjvu/alg/adjust/adjust.c:136-162 | the second loop with corrected indexing: each entry used by some blit holds the shifts owed to that bitmap, every other entry is 0 |
| Adjust.BitmapShift | minidjvu/alg/adjust/adjust.c:138-161 | one turn of the corrected second loop computes exactly BitmapXShift and BitmapYShift |
| Adjust.Image.AdjustBlitsAsWritten | minidjvu/alg/adjust/adjust.c:116-183 | mdjvu_adjust as written: it fails, leaving the image unchanged, exactly when a replaced blit's number is past the arrays' end; otherwise every blit takes its bitmap's substitution and moves by the XShift/YShift entries at its bitmap's index; bitmaps, substitutions and flags are unchanged |
| Adjust.Image.AdjustBlits | minidjvu/alg/adjust/adjust.c:116-183 | mdjvu_adjust with corrected indexing (see Findings): every blit takes its bitmap's substitution and moves by the shifts owed to its own bitmap, so a blit whose bitmap is not replaced does not move; bitmaps, substitutions and flags are unchanged |
| Adjust.Image.MoveBlits | minidjvu/alg/adjust/adjust.c:168-179 | the third loop: each blit moves by the x_adjust/y_adjust entries at its bitmap's index and takes that bitmap's substitution |
| Adjust.OwnShifts | minidjvu/alg/adjust/adjust.c:168-179 | when blit k uses bitmap k, an unreplaced blit does not move and a replaced one moves by its own centring shift |
| Adjust.OwnLayoutAgrees | minidjvu/alg/adjust/adjust.c:136-179 | when blit k uses bitmap k, every index the source writes is in bounds and its lookup gives the same shifts as the corrected one |
| Adjust.MixedIndicesMoveUnreplacedBlit | minidjvu/alg/adjust/adjust.c:142-177 | with blit 1 on bitmap 0 (its own substitution), the final pass as written still moves blit 1, by the shift stored for blit 0, while the corrected lookup gives it 0 |
| ParsingStream.Prepend | tools/settings-reader/ParsingByteStream.cpp:191-197 | pushing back a byte puts it in front of what is left to read; EOF is not pushed |
| ParsingStream.GetS | tools/settings-reader/ParsingByteStream.cpp:179-188 | get delivers EOF exactly when nothing is left; any other character is a byte and uses up input |
| ParsingStream.BomS | tools/settings-reader/ParsingByteStream.cpp:160-177 | after a leading EF, getbom delivers EOF only with nothing left, and otherwise a byte without growing the input |
| ParsingStream.GetPlain | tools/settings-reader/ParsingByteStream.cpp:183-187 | a byte other than EF is delivered as it is |
| ParsingStream.GetSkipsBom | tools/settings-reader/ParsingByteStream.cpp:160-188 | a whole byte-order mark in front of a byte other than EF is skipped and that byte delivered |
| ParsingStream.GetPartialBom | tools/settings-reader/ParsingByteStream.cpp:171-176 | a partial mark is delivered unchanged: EF now, the rest on the next reads |
| ParsingStream.ResumeStep | tools/settings-reader/ParsingByteStream.cpp:164-170 | one step of getbom's first loop: a matching candidate makes the next byte (or EOF) the new candidate |
| ParsingStream.ResumeWrap | tools/settings-reader/ParsingByteStream.cpp:164-170 | after a whole mark the next byte is delivered, or looked at as the start of another mark |
| ParsingStream.ResumeExit | tools/settings-reader/ParsingByteStream.cpp:171-176 | the second loop pushes back the unmatching byte and re-delivers the matched part of the mark |
| ParsingStream.CommentFrom | tools/settings-reader/ParsingByteStream.cpp:206-207 | a comment is read up to CR, LF or the end, and ends on one of them |
| ParsingStream.SpacesFrom | tools/settings-reader/ParsingByteStream.cpp:203-212 | get_spaces from a character already read ends on a character that is not blank, or on a separator when separators are not skipped |
| ParsingStream.SpacesS | tools/settings-reader/ParsingByteStream.cpp:199-213 | get_spaces ends on a non-blank character, or on CR, LF or ';' when separators are not skipped; EOF only with nothing left |
| ParsingStream.UnquotedFrom | tools/settings-reader/ParsingByteStream.cpp:244-250 | a bare token takes no more bytes than it uses up |
| ParsingStream.Translate | tools/settings-reader/ParsingByteStream.cpp:280-288 | the escape letters map to control characters and bytes stay bytes |
| ParsingStream.OctalFrom | tools/settings-reader/ParsingByteStream.cpp:267-276 | the octal value is non-negative and the character after the digits is a byte or EOF |
| ParsingStream.EscapeS | tools/settings-reader/ParsingByteStream.cpp:258-290 | the character after a backslash is a byte or EOF, with at most the backslash itself kept in front |
| ParsingStream.Low | tools/settings-reader/ParsingByteStream.cpp:195 | a byte is stored as itself |
| ParsingStream.QuotedFrom | tools/settings-reader/ParsingByteStream.cpp:254-294 | a quoted token takes no more bytes than it uses up |
| ParsingStream.TokenS | tools/settings-reader/ParsingByteStream.cpp:228-297 | get_token takes no more bytes into the token than it uses up |
| ParsingStream.TokenAtEnd | tools/settings-reader/ParsingByteStream.cpp:232-236 | nothing left: the token is empty |
| ParsingStream.UnquotedShape | tools/settings-reader/ParsingByteStream.cpp:244-250 | a bare token holds no terminator, and the terminator is the next thing left to read |
| ParsingStream.UnquotedPlain | tools/settings-reader/ParsingByteStream.cpp:242-251 | over input without EF bytes a bare token is exactly the bytes up to its terminator, and the rest starts at the terminator |
| ParsingStream.TokenSeparator | tools/settings-reader/ParsingByteStream.cpp:237-241 | a separator that is not skipped gives an empty token and stays to be read |
| ParsingStream.EscapeLetters | tools/settings-reader/ParsingByteStream.cpp:278-289 | outside compat mode a backslash before t n r b f v a gives the control character; before any other non-octal character, that character |
| ParsingStream.EscapeCompat | tools/settings-reader/ParsingByteStream.cpp:261-264 | in compat mode the backslash is kept, except in front of a double quote |
| ParsingStream.EscapeOctal | tools/settings-reader/ParsingByteStream.cpp:265-277 | three octal digits give their base-8 value and the next character stays to be read |
| ParsingStream.QuotedClosing | tools/settings-reader/ParsingByteStream.cpp:256 | a quoted token stops at its closing delimiter, which is not part of it |
| ParsingStream.ParsingByteStream.constructor | tools/settings-reader/ParsingByteStream.cpp:106-109 | a new stream is valid and has all of its input pending |
| ParsingStream.ParsingByteStream.Eof | tools/settings-reader/ParsingByteStream.cpp:111-125 | eof refills the buffer without changing what is pending, and is true exactly when nothing is pending |
| ParsingStream.ParsingByteStream.Read | tools/settings-reader/ParsingByteStream.cpp:127-144 | read delivers at most size bytes, and exactly the front of what was pending |
| ParsingStream.ParsingByteStream.TakeBuffered | tools/settings-reader/ParsingByteStream.cpp:139-143 | the buffered part of read delivers at least one and at most size bytes of the current line, from the front |
| ParsingStream.ParsingByteStream.Fetch | tools/settings-reader/ParsingByteStream.cpp:168-169 | the next byte is read exactly when one is pending, and it is the first pending byte |
| ParsingStream.ParsingByteStream.Unget | tools/settings-reader/ParsingByteStream.cpp:191-197 | with room and c not EOF, c is pushed in front and returned as a byte; otherwise EOF and nothing changes |
| ParsingStream.ParsingByteStream.Getbom | tools/settings-reader/ParsingByteStream.cpp:160-177 | the corrected getbom delivers what BomS says, reading EOF at the end of the input |
| ParsingStream.ParsingByteStream.GetbomAsWritten | tools/settings-reader/ParsingByteStream.cpp:160-177 | getbom as written: a lone EF at the end comes back as EF and is pushed back; a mark cut short after BB BF delivers BF |
| ParsingStream.ParsingByteStream.Get | tools/settings-reader/ParsingByteStream.cpp:179-188 | get delivers what GetS says (built on the corrected Getbom, see Findings) |
| ParsingStream.ParsingByteStream.GetSpaces | tools/settings-reader/ParsingByteStream.cpp:199-213 | get_spaces delivers what SpacesS says (built on the corrected Getbom) |
| ParsingStream.ParsingByteStream.SkipComment | tools/settings-reader/ParsingByteStream.cpp:206-207 | the comment loop delivers what CommentFrom says |
| ParsingStream.ParsingByteStream.GetToken | tools/settings-reader/ParsingByteStream.cpp:228-297 | every token byte uses up input, and an empty input gives an empty token (built on the corrected Getbom) |
| ParsingStream.ParsingByteStream.BareToken | tools/settings-reader/ParsingByteStream.cpp:242-251 | the bare branch yields exactly UnquotedFrom |
| ParsingStream.ParsingByteStream.QuotedToken | tools/settings-reader/ParsingByteStream.cpp:252-295 | the quoted branch uses up at least its length in input, and over input without EF yields exactly QuotedFrom |
| ParsingStream.ParsingByteStream.OctalDigits | tools/settings-reader/ParsingByteStream.cpp:267-276 | the octal loop gives a non-negative value and reads no more than is pending |
| SettingsReading.Downcase | tools/settings-reader/SettingsReader.cpp:138 | downcasing keeps the length, changes only A-Z, each to its lower-case letter, and leaves no capital |
| SettingsReading.DowncaseIdempotent | tools/settings-reader/SettingsReader.cpp:144 | downcasing a downcased token changes nothing |
| SettingsReading.FirstParen | tools/settings-reader/SettingsReader.cpp:139 | the search gives the index of the first ')', or -1 exactly when there is none |
| SettingsReading.CutAt | tools/settings-reader/SettingsReader.cpp:139-145 | the cut splits the token into head and pushed-back tail that concatenate to it; a tail starts with ')' after a non-empty head; the head of a token not starting with ')' holds no ')' |
| SettingsReading.CutDowncase | tools/settings-reader/SettingsReader.cpp:336-343 | cutting the downcased token cuts the original token at the same place |
| SettingsReading.Digits | tools/settings-reader/SettingsReader.cpp:606-607 | the decimal digits of a natural number are a non-empty run of digits |
| SettingsReading.Numeral | tools/settings-reader/SettingsReader.cpp:606-607 | every integer written in decimal is an integer token |
| SettingsReading.DigitsRoundTrip | tools/settings-reader/SettingsReader.cpp:606-607 | reading back the digits of n gives n |
| SettingsReading.NumeralRoundTrip | tools/settings-reader/SettingsReader.cpp:606-607 | reading back an integer written in decimal gives the integer |
| SettingsReading.ValueOrSentinel | tools/settings-reader/SettingsReader.cpp:605-608 | an integer token gives its value, anything else the sentinel -99999 |
| SettingsReading.FileNameAsWritten | tools/settings-reader/SettingsReader.cpp:335-381 | readFile as written keeps the uncut token as the file name, so a cut token's name still holds the ')' |
| SettingsReading.FileName | tools/settings-reader/SettingsReader.cpp:335-381 | the corrected file name is a prefix of the token, with letter case kept, that downcases to the cut key token and holds no ')' |
| SettingsReading.FileNameAsWrittenKeepsParen | tools/settings-reader/SettingsReader.cpp:381 | for "(file scan.tif)" the name as written is "scan.tif)", which is no TIFF name, while the corrected one is "scan.tif" |
| SettingsReading.NotTiffParen | tools/settings-reader/AppOptions.cpp:28-40 | a name ending in ')' is never taken for a TIFF file |
| SettingsReading.FileEntries | tools/settings-reader/SettingsReader.cpp:390-408 | the entries added for a file name none of the files in a dictionary, all carry the name, and a file without page keys is never refused |
| SettingsReading.FileRefs | tools/settings-reader/SettingsReader.cpp:397-406 | the references added for a file inside "(files" are indices of files of the main list that carry that name |
| SettingsReading.Attach | tools/settings-reader/SettingsReader.cpp:584-586 | putting files into a dictionary changes exactly the files it refers to, which then point to that dictionary |
| SettingsReading.LinkedExtends | tools/settings-reader/SettingsReader.cpp:455 | files in no dictionary may join a list whose dictionaries and files refer to each other within bounds |
| SettingsReading.LinkedAttach | tools/settings-reader/SettingsReader.cpp:76 | a new dictionary whose references are within the file list may join the dictionary list once its files point to it, and the links stay within bounds |
| SettingsReading.AttachNext | tools/settings-reader/SettingsReader.cpp:584-586 | one more step of the attaching loop sets exactly one more file's dictionary |
| SettingsReading.ExtendsBy | tools/settings-reader/SettingsReader.cpp:455 | appending files in no dictionary extends the file list |
| SettingsReading.RefsGrown | tools/settings-reader/SettingsReader.cpp:453 | references that grow by indices below n stay below n |
| SettingsReading.SettingsUpdateTrans | tools/settings-reader/SettingsReader.cpp:137-216 | two rounds of option updates compose to one |
| SettingsReading.InOrderSnoc | tools/settings-reader/SettingsReader.cpp:54-70 | a list allowed at its place keeps the order of the top-level lists |
| SettingsReading.ImageApplyInRange | tools/settings-reader/SettingsReader.cpp:265-276 | an image key that takes its value stores it only in its range: smooth, clean and erosion in [0, 1], dpi in [20, 2000] with dpi marked as given |
| SettingsReading.DjbzApplyInRange | tools/settings-reader/SettingsReader.cpp:543-567 | a dictionary key that takes its value stores it only in its range and touches neither the file references nor, in the defaults, the id |
| SettingsReading.SettingApplyInRange | tools/settings-reader/SettingsReader.cpp:176-212 | a key of "(options" that takes its value stores values only in their ranges |
| SettingsReading.LossyValue | tools/settings-reader/SettingsReader.cpp:177-189 | "lossy n" for n in 0..2 is taken and sets match, the default erosion, averaging, smooth and clean to min(n, 1), sets Match exactly for n = 2, and changes nothing else |
| SettingsReading.MatchValue | tools/settings-reader/SettingsReader.cpp:190-194 | "match 2" is taken and sets match and Match to 1; "match 0" and "match 1" set match alone |
| SettingsReading.PageValue | tools/settings-reader/SettingsReader.cpp:370-373 | "page n" for n in [0, 1000000] is taken and makes the first and the last page both n |
| SettingsReading.Ordered | tools/settings-reader/SettingsReader.cpp:390-395 | the swap of reversed page bounds leaves the first page no later than the last, keeps the same two bounds, and changes nothing else |
| SettingsReading.SettingsReader.constructor | tools/settings-reader/SettingsReader.cpp:11-19 | the reader starts from an open stream and the given options |
| SettingsReading.SettingsReader.PushBack | tools/settings-reader/SettingsReader.cpp:141-143 | pushing back the tail puts a suffix of it in front of what is pending |
| SettingsReading.SettingsReader.NextKey | tools/settings-reader/SettingsReader.cpp:335-343 | the key is the cut head of the token (downcased when asked) and uses up at least its length |
| SettingsReading.SettingsReader.NestedKey | tools/settings-reader/SettingsReader.cpp:351-353 | the name of a nested list is the rest of a "(name" token, downcased, without reading more; or the next token after a bare "(" |
| SettingsReading.SettingsReader.ReadValInt | tools/settings-reader/SettingsReader.cpp:591-616 | true exactly when the cut token is an integer in [min, max], and then that value is delivered |
| SettingsReading.SettingsReader.ReadValStr | tools/settings-reader/SettingsReader.cpp:618-638 | true exactly when the cut token is non-empty |
| SettingsReading.SettingsReader.ReadImageOptions | tools/settings-reader/SettingsReader.cpp:248-286 | only smooth, clean and erosion in [0, 1] and dpi in [20, 2000], with dpi marked as given, can change |
| SettingsReading.SettingsReader.ReadImageItem | tools/settings-reader/SettingsReader.cpp:265-276 | one image key (without a 0xEF byte pending) succeeds exactly when its cut value token is accepted (ImageAccepts) and then stores ImageApply of it: smooth, clean, erosion or dpi takes that value and dpi is marked as given; an unknown key reads no value; a failure changes nothing |
| SettingsReading.SettingsReader.ReadFileSpec | tools/settings-reader/SettingsReader.cpp:334-383 | after the loop the page bounds lie in [0, 1000000] when set and 0 otherwise, the image options only change within their ranges, and success means a file name was read (the name is the corrected FileName, see Findings) |
| SettingsReading.SettingsReader.ReadFileItem | tools/settings-reader/SettingsReader.cpp:349-382 | one item keeps the file's settings within their ranges and changes nothing on failure; a page key (without a 0xEF byte pending) succeeds exactly when its cut value token is an integer in [0, 1000000], and then stores what PageApply says (page N sets both bounds to N); any other plain token becomes the file name, cut before a ")" (this uses the corrected FileName, see Findings) |
| SettingsReading.SettingsReader.ReadPageItem | tools/settings-reader/SettingsReader.cpp:370-379 | a page key succeeds exactly when its value token is an integer in [0, 1000000], stores PageApply of it, and changes nothing on failure |
| SettingsReading.SettingsReader.ReadFile | tools/settings-reader/SettingsReader.cpp:318-410 | the description used is the one read with reversed bounds swapped (Ordered), and on success the file's pages are added to the list (or referenced, inside "(files") exactly as FileEntries / FileRefs say; a missing page ends the program; a failure changes no list (the name read uses the corrected FileName, see Findings) |
| SettingsReading.SettingsReader.AddSpec | tools/settings-reader/SettingsReader.cpp:390-408 | the end of readFile adds or references the file's pages and never fails (for the name given by the corrected FileName, see Findings) |
| SettingsReading.SettingsReader.AddFiles | tools/settings-reader/AppOptions.cpp:195-221 | the pages join the file list, and the program ends exactly when the page interval is refused (for the name given by the corrected FileName, see Findings) |
| SettingsReading.SettingsReader.AddRefs | tools/settings-reader/AppOptions.cpp:246-321 | the pages found in the file list join the references, and the program ends exactly when one is missing (for the name given by the corrected FileName, see Findings) |
| SettingsReading.SettingsReader.ReadInputFiles | tools/settings-reader/SettingsReader.cpp:412-465 | the file list only grows at its end by files in no dictionary (or the references grow by indices of its files), and success means the list added at least one |
| SettingsReading.SettingsReader.ReadInputItem | tools/settings-reader/SettingsReader.cpp:420-456 | one item of the list uses up input unless it ends the list |
| SettingsReading.SettingsReader.ReadDjbzOptions | tools/settings-reader/SettingsReader.cpp:499-589 | dictionary settings change only within their ranges; the defaults take no id and no file; any other dictionary succeeds only with an id and a file, and then exactly its files point to it |
| SettingsReading.SettingsReader.ReadDjbzKeys | tools/settings-reader/SettingsReader.cpp:506-568 | the keys of a dictionary list leave the file list unchanged |
| SettingsReading.SettingsReader.ReadDjbzItem | tools/settings-reader/SettingsReader.cpp:507-567 | one item uses up input unless it ends the list, and leaves the file list unchanged |
| SettingsReading.SettingsReader.AttachAll | tools/settings-reader/SettingsReader.cpp:584-586 | every file the dictionary refers to is put into it, and nothing else changes |
| SettingsReading.SettingsReader.SetDjbzOption | tools/settings-reader/SettingsReader.cpp:543-567 | one key of a dictionary list (without a 0xEF byte pending) succeeds exactly when DjbzAccepts its cut value token (id refused in the defaults, id and xtension non-empty, the integers in their ranges) and then stores DjbzApply of it; a failure changes nothing; ranges hold whatever is pending |
| SettingsReading.SettingsReader.SetDjbzText | tools/settings-reader/SettingsReader.cpp:543-549 | id and xtension store the cut value token as text when it is non-empty; id is refused in the defaults |
| SettingsReading.SettingsReader.SetDjbzInt | tools/settings-reader/SettingsReader.cpp:550-564 | averaging, aggression, classifier, no-prototypes and erosion store their value exactly when it is an integer in range; other keys read nothing |
| SettingsReading.SettingsReader.SetAppOption | tools/settings-reader/SettingsReader.cpp:176-215 | one key of "(options" (without a 0xEF byte pending) succeeds exactly when SettingAccepts its cut value token and then leaves the settings as SettingApply says (xtension sets the default suffix); an unknown key changes nothing and reads nothing; a failure changes nothing |
| SettingsReading.SettingsReader.Store | tools/settings-reader/SettingsReader.cpp:185-189 | writing the settings back changes nothing else |
| SettingsReading.SettingsReader.ReadSetting | tools/settings-reader/SettingsReader.cpp:176-212 | the integer keys: success exactly when SettingAccepts the cut value token, and then the settings are SettingApply of it; lossy sets match and the default erosion, averaging, smooth and clean to one value in [0, 1] (2 also sets Match); match 2 sets match and Match; a failure changes nothing |
| SettingsReading.SettingsReader.ReadMatchSetting | tools/settings-reader/SettingsReader.cpp:177-194 | lossy and match store SettingApply of their value token, in [0, 2] |
| SettingsReading.SettingsReader.ReadPlainSetting | tools/settings-reader/SettingsReader.cpp:176-212 | indirect, pages-per-dict, report, threads-max (with OpenMP), verbose and warnings store SettingApply of their value token; an unknown key reads nothing and changes nothing; the default image and dictionary stay as they were |
| SettingsReading.SettingsReader.ReadFlagSetting | tools/settings-reader/SettingsReader.cpp:176-212 | indirect, report, verbose and warnings store their value exactly when it is 0 or 1, and a failure changes nothing |
| SettingsReading.SettingsReader.ReadAppOptions | tools/settings-reader/SettingsReader.cpp:131-218 | the options list changes settings only within their ranges and keeps files and dictionaries linked |
| SettingsReading.SettingsReader.ReadAppItem | tools/settings-reader/SettingsReader.cpp:147-215 | one item of the options list changes settings only within their ranges; a nested "(default-djbz" or "(default-image" list changes only that default, and stores what it read even when it fails, as the in-place read does |
| SettingsReading.SettingsReader.ReadAllOptions | tools/settings-reader/SettingsReader.cpp:28-85 | a file not starting with '(' fails at once; the lists read keep the order options, input-files, djbz; success reads the whole input; settings change within range and the dictionary list only grows by dictionaries with an id and files |
| SettingsReading.SettingsReader.ReadSection | tools/settings-reader/SettingsReader.cpp:53-80 | each list name is accepted only in its place: "options" before any "input-files", "djbz" after both; any other name fails |
| SettingsReading.SettingsReader.ReadTopInputFiles | tools/settings-reader/SettingsReader.cpp:62-65 | the files of a top-level "(input-files" list join the file list at its end |
| SettingsReading.SettingsReader.ReadTopDjbz | tools/settings-reader/SettingsReader.cpp:66-76 | a dictionary read with success is added at the end of the dictionary list; a failure changes neither list |
| Options.ImageOptionsCreate | tools/settings-reader/AppOptions.cpp:42-59 | a copy of the defaults when given; otherwise smoothing, cleaning and erosion off and 300 dpi, not specified |
| Options.NewInputFile | tools/settings-reader/AppOptions.cpp:149-158 | the new entry carries the name, the page and the options, with 300 dpi output, no chunk id and no dictionary |
| Options.Reserve | tools/settings-reader/AppOptions.cpp:113-124 | the capacity grows to size when smaller, otherwise stays; the entries stay |
| Options.AddFileRef | tools/settings-reader/AppOptions.cpp:141-147 | the entry is appended at the end, and a full list first grows its capacity by 10 |
| Options.AddAll | tools/settings-reader/AppOptions.cpp:141-147 | entries appended one at a time end up after the old ones, in order |
| Options.AddAllSnoc | tools/settings-reader/AppOptions.cpp:141-147 | appending one more entry is one more file_list_add_file_ref |
| Options.AddAllCapacity | tools/settings-reader/AppOptions.cpp:143-145 | a list grown from empty has a capacity that is a multiple of 10 and less than 10 above its size |
| Options.PageEntries | tools/settings-reader/AppOptions.cpp:168-170 | the entries for pages lo to hi-1 are one per page, in page order |
| Options.AddFilename | tools/settings-reader/AppOptions.cpp:160-176 | a multi-page TIFF adds one entry per page, anything else one entry for page 0 |
| Options.AddPages | tools/settings-reader/AppOptions.cpp:212-214 | the page loop adds exactly PageEntries of the range |
| Options.PageEntriesSnoc | tools/settings-reader/AppOptions.cpp:212-214 | one more page of the loop is one more appended entry |
| Options.AdjustPagesIntervalAsWritten | tools/settings-reader/AppOptions.cpp:179-193 | as written: aborts exactly when the first page is past the file, but clamps a last page beyond the file to the page count itself |
| Options.AdjustAsWrittenKeepsMissingPage | tools/settings-reader/AppOptions.cpp:181-182 | pages 0 to 5 of a three-page file keep the interval 0 to 3, and page 3 does not exist |
| Options.AdjustPagesInterval | tools/settings-reader/AppOptions.cpp:179-193 | corrected: aborts exactly when the first page is past the file; otherwise the first page is kept and the last one is the requested one when it exists, else the file's last page |
| Options.FilteredEntries | tools/settings-reader/AppOptions.cpp:195-220 | for a multi-page TIFF the entries are the pages of the adjusted interval in order; anything else gives one entry for page 0 (built on the corrected clamp AdjustPagesInterval, see Findings) |
| Options.AddFilenameWithFilter | tools/settings-reader/AppOptions.cpp:195-220 | the file list gains exactly FilteredEntries, and the program ends exactly when the interval is refused (built on the corrected AdjustPagesInterval) |
| Options.IndexOf | tools/settings-reader/AppOptions.cpp:234-243 | the first index holding that page of that file, or -1 exactly when there is none |
| Options.FindByFilenameAndPage | tools/settings-reader/AppOptions.cpp:234-243 | the scan finds IndexOf |
| Options.IndexOfFirst | tools/settings-reader/AppOptions.cpp:234-243 | an index holding the page with none before it is IndexOf |
| Options.Find | tools/settings-reader/AppOptions.cpp:223-232 | file_list_find gives the first entry with the same page and name |
| Options.RefsFor | tools/settings-reader/AppOptions.cpp:292-300 | the references for pages lo to hi-1 are one per page, each the index of that page of the file |
| Options.AddRef | tools/settings-reader/AppOptions.cpp:246-272 | the references for every page of the file are appended, and the program ends exactly when one page is missing |
| Options.AddRefWithFilter | tools/settings-reader/AppOptions.cpp:274-312 | as AddRef for the adjusted interval of a multi-page TIFF; a refused interval ends the program (built on the corrected AdjustPagesInterval) |
| Options.AddRefRange | tools/settings-reader/AppOptions.cpp:292-300 | the loop appends RefsFor of the range, and ends the program exactly when RefsFor has a missing page |
| Options.RefsMissing | tools/settings-reader/AppOptions.cpp:293-297 | a missing page makes every longer range fail |
| Options.RefsForMeaning | tools/settings-reader/AppOptions.cpp:292-300 | the references are missing exactly when some page of the range is not in the list |
| Options.DjbzSettingCreate | tools/settings-reader/AppOptions.cpp:323-346 | a new dictionary has no id, no files and no chunk id and is to be saved; its settings are the defaults' or averaging 0, aggression 100, classifier 3, prototypes used, erosion 0, suffix "djbz" |
| Options.DjbzListAddOption | tools/settings-reader/AppOptions.cpp:402-412 | exactly one entry more, at the end, with the others in place |
| Options.Unassigned | tools/settings-reader/AppOptions.cpp:667-670 | the files no dictionary claims, in order |
| Options.GroupSize | tools/settings-reader/AppOptions.cpp:673 | corrected: a group holds at least one file, and pages-per-dict 0 means no limit |
| Options.GroupSizeAsWritten | tools/settings-reader/AppOptions.cpp:673 | as written: the closing test takes pages-per-dict as the group size, at least one |
| Options.GroupingAsWrittenSplitsAll | tools/settings-reader/AppOptions.cpp:673 | as written, pages-per-dict 0 gives every unassigned file a dictionary of its own |
| Options.GroupingUnlimited | tools/settings-reader/AppOptions.cpp:582 | corrected, pages-per-dict 0 puts all unassigned files into one dictionary |
| Options.Members | tools/settings-reader/AppOptions.cpp:667-676 | the files of one new dictionary are among the first n |
| Options.MembersMeaning | tools/settings-reader/AppOptions.cpp:667-676 | a file is in exactly the group its rank among the unassigned files gives |
| Options.MembersCount | tools/settings-reader/AppOptions.cpp:667-683 | groups fill in order: full while enough files follow, then the rest, then none |
| Options.ClampStep | tools/settings-reader/AppOptions.cpp:670-676 | one more unassigned file adds one to its own group only |
| Options.GroupsNonEmpty | tools/settings-reader/AppOptions.cpp:679-683 | every new dictionary gets at least one file |
| Options.NewDjbz | tools/settings-reader/AppOptions.cpp:666-675 | a new dictionary has the default settings, no id and the files of its group |
| Options.Assigned | tools/settings-reader/AppOptions.cpp:669-671 | a file in a dictionary keeps it; an unassigned one gets the dictionary of its group |
| Options.ExtDelimPos | tools/settings-reader/AppOptions.cpp:515-526 | the index just after the last dot, or 0 when there is none |
| Options.ExtDelimPosUnique | tools/settings-reader/AppOptions.cpp:515-526 | a position after a dot (or the start) with no dot after it is that index |
| Options.Cspn | tools/settings-reader/AppOptions.cpp:517 | strcspn counts the characters up to the next dot or the end |
| Options.GetExtDelimPos | tools/settings-reader/AppOptions.cpp:515-526 | the hop from dot to dot ends at ExtDelimPos |
| Options.Decimal | tools/settings-reader/AppOptions.cpp:537 | the decimal digits of a number |
| Options.Pad3 | tools/settings-reader/AppOptions.cpp:537 | "%03d" gives digits only, at least three, exactly three below 1000 |
| Options.DecimalRoundTrip | tools/settings-reader/AppOptions.cpp:537 | the digits of n read back as n |
| Options.ZerosValue | tools/settings-reader/AppOptions.cpp:537 | leading zeros do not change the value |
| Options.Pad3RoundTrip | tools/settings-reader/AppOptions.cpp:537 | "%03d" reads back as the number |
| Options.BaseName | tools/settings-reader/AppOptions.cpp:533-535 | the part before the last dot, or the whole name without a dot |
| Options.PageOrDictNameAsWritten | tools/settings-reader/AppOptions.cpp:528-543 | as written: a name with a dot gives base + ".djvu" for page 0; a dotless name loses its base or is written before the buffer |
| Options.PageNameAsWrittenLosesBase | tools/settings-reader/AppOptions.cpp:537 | "scan" page 0 gives ".djvu" alone, and page 1 is written out of bounds |
| Options.PageOrDictName | tools/settings-reader/AppOptions.cpp:528-543 | corrected: base + ".djvu" for page 0, base + "#" + page+1 in three or more digits + ".djvu" for a later page; always ends in ".djvu" |
| Options.PageNamesDistinct | tools/settings-reader/AppOptions.cpp:536-540 | different pages of one file get different names |
| Options.NumberAt | tools/settings-reader/AppOptions.cpp:537 | the page number sits right after the "#" of a page name |
| Options.ReplaceSuffix | tools/settings-reader/AppOptions.cpp:545-551 | the last four characters are replaced by the suffix |
| Options.DictNameFromPage | tools/settings-reader/AppOptions.cpp:711-715 | a page name ends in ".djvu", so replacing its last four characters replaces "djvu" |
| Options.LastDirSep | tools/settings-reader/AppOptions.cpp:635-641 | the index of the last '/' or '\', or -1 |
| Options.Strip | tools/settings-reader/AppOptions.cpp:553-560 | strip gives what follows the last separator, or the whole string |
| Options.StripDirMeaning | tools/settings-reader/AppOptions.cpp:564-567 | strip_dir gives what follows the last '/' or '\', the whole path when there is none |
| Options.DjbzChunkId | tools/settings-reader/AppOptions.cpp:704-716 | a dictionary with an id is named "id.suffix"; one without is named after its first file with "djvu" replaced by the suffix |
| Options.FileChunkId | tools/settings-reader/AppOptions.cpp:695 | a file's chunk id is its page name without directory, at least ".djvu" long (built on the corrected PageOrDictName, see Findings) |
| Options.OutputFileAsWritten | tools/settings-reader/AppOptions.cpp:630-661 | as written, the output file is set exactly when the name has a directory separator |
| Options.OutputFileAsWrittenDropsPlainName | tools/settings-reader/AppOptions.cpp:643 | a plain "out.djvu" is never taken as the output file |
| Options.AppOptions.constructor | tools/settings-reader/AppOptions.cpp:579-600 | 10 pages per dictionary, every flag off, default image and dictionary settings, empty lists, no output file |
| Options.AppOptions.SetDjbzSuffix | tools/settings-reader/AppOptions.cpp:618-628 | only the default dictionary's suffix changes |
| Options.AppOptions.SetOutputFile | tools/settings-reader/AppOptions.cpp:630-661 | corrected: with a directory part, the program changes to it (ending when that fails) and keeps the file name; a plain name is kept as it is; an empty name changes nothing; the lists, the default settings and every flag and count are unchanged |
| Options.AppOptions.AutocompleteDjbzs | tools/settings-reader/AppOptions.cpp:664-684 | every unassigned file gets the dictionary of its group; GroupCount new dictionaries with the default settings follow the old ones, each holding its group; the default settings, output file and every flag and count are unchanged (built on the corrected GroupSize, see Findings) |
| Options.AppOptions.ConstructChunkIds | tools/settings-reader/AppOptions.cpp:686-720 | every file is named after its page (by the corrected PageOrDictName) and every dictionary after its id or its first file; the lists keep their lengths, and the default settings and every flag and count are unchanged |
| Options.GroupFiles | tools/settings-reader/AppOptions.cpp:667-683 | the loop assigns every file as Assigned says and makes exactly GroupCount dictionaries, the g-th holding group g (built on the corrected GroupSize) |
| Options.GroupStep | tools/settings-reader/AppOptions.cpp:668-677 | one file through the loop keeps the assignment and group state (built on the corrected GroupSize) |
| Options.GroupSkip | tools/settings-reader/AppOptions.cpp:669 | a file already in a dictionary changes nothing |
| Options.GroupJoin | tools/settings-reader/AppOptions.cpp:670-673 | an unassigned file joins the open dictionary, which closes exactly when it reaches the group size (built on the corrected GroupSize) |
| Options.GroupClose | tools/settings-reader/AppOptions.cpp:674-675 | a full dictionary is kept and a new empty one opened |
| Options.GroupEnd | tools/settings-reader/AppOptions.cpp:679-683 | the open dictionary is kept only when it has files, giving GroupCount dictionaries in all |
| Options.NamedDjbz | tools/settings-reader/AppOptions.cpp:704-716 | naming a dictionary changes only its chunk id |
| Options.NameFiles | tools/settings-reader/AppOptions.cpp:689-697 | the first loop names every file |
| Options.NameDjbzs | tools/settings-reader/AppOptions.cpp:699-719 | the second loop names every dictionary from the files as the first loop left them |
| Options.LastDirSepAt | tools/settings-reader/AppOptions.cpp:635-641 | the backward scan stops at the last separator |
| Options.AutocompleteStep | tools/settings-reader/AppOptions.cpp:669-671 | an unassigned file goes into the group that is open |
| Options.GroupCountOf | tools/settings-reader/AppOptions.cpp:679-683 | m full groups and a partial one of c files make m groups, plus one when c > 0 |
| MinidjvuMod.SameOption | tools/minidjvu-mod.c:591-603 | a switch names an option exactly when it is the option's first letter alone, the option itself, or the option after a second '-' |
| MinidjvuMod.DistinguishableUnambiguous | tools/minidjvu-mod.c:597-603 | among option names whose first letters differ and none of which is one letter long, a switch names at most one |
| MinidjvuMod.SwitchLettersDistinct | tools/minidjvu-mod.c:623-716 | the options process_options knows start with different letters |
| MinidjvuMod.SwitchesDistinguishable | tools/minidjvu-mod.c:623-716 | the option names process_options knows are distinguishable |
| MinidjvuMod.SwitchesUnambiguous | tools/minidjvu-mod.c:623-716 | every switch, in any of its three forms, selects at most one of the options |
| MinidjvuMod.PagesPerDictArgument | tools/minidjvu-mod.c:659-668 | -pages-per-dict accepts exactly the non-negative counts, keeping the value; a negative one ends the program with status 2 |
| MinidjvuMod.DpiArgument | tools/minidjvu-mod.c:670-680 | -dpi accepts exactly the resolutions in [20, 2000], keeping the value; anything else ends the program with status 2 |
| MinidjvuMod.ClampPagesPerDict | tools/minidjvu-mod.c:407-411 | with at least one file the pages per dictionary end up in [1, file count], unchanged exactly when already in that range |
| MinidjvuMod.ClampIdempotent | tools/minidjvu-mod.c:407-411 | clamping a clamped value changes nothing |
| MinidjvuMod.PagesBeforeOrdered | tools/minidjvu-mod.c:442-447 | the page numbers of two dictionaries do not overlap and follow the dictionary order |
| MinidjvuMod.CountPagesBefore | tools/minidjvu-mod.c:442-445 | the loop sums the page counts of the dictionaries before dictionary k |
| MinidjvuMod.DictChunk | tools/minidjvu-mod.c:496-497 | a page refers to its dictionary exactly when the dictionary is saved and the page has bitmaps |
| MinidjvuMod.EncodeDictionary | tools/minidjvu-mod.c:426-517 | a dictionary without bitmaps is marked not to be saved and nothing else changes; its first page number follows the pages of the earlier dictionaries; each page refers to the dictionary as DictChunk says |
| MinidjvuMod.PagesAppend | tools/minidjvu-mod.c:535-556 | the pages of a concatenation are the pages of its parts |
| MinidjvuMod.DirectoryPages | tools/minidjvu-mod.c:535-556 | every page is in the directory exactly once, in file-list order |
| MinidjvuMod.DirectoryDicts | tools/minidjvu-mod.c:538-547 | a dictionary is in the directory once when it is to be saved and some file is in it, and otherwise not at all |
| MinidjvuMod.UsedBeforeNext | tools/minidjvu-mod.c:535-538 | the files before file i+1 are those before file i and file i |
| MinidjvuMod.DirectoryDictFirst | tools/minidjvu-mod.c:538-555 | a dictionary in the directory is followed right away by the first page that uses it |
| MinidjvuMod.MarkedNext | tools/minidjvu-mod.c:538-539 | one more file marks its dictionary, and no other |
| MinidjvuMod.DirectoryNext | tools/minidjvu-mod.c:538-555 | one more file appends its dictionary when not yet marked, then its page |
| MinidjvuMod.DirectoryElements | tools/minidjvu-mod.c:523-557 | the directory loop writes exactly Directory into the first count slots of a buffer of files + dictionaries slots, marks the dictionaries it wrote, and changes nothing else |
| MinidjvuMod.DirectoryItem | tools/minidjvu-mod.c:536-555 | one turn of the directory loop keeps the directory, the marks and the count in step |

## Left out

- **I/O and the environment.** Printed messages, `get_error_context`, the
  throws of `write`/`tell`, file opening and `chdir` are not modelled.
  - Whether `chdir` succeeds is the parameter `chdirOk`.
  - The page count libtiff reports is the parameter `tiffPages`.
  - `exit(-2)` becomes the outcomes `Abort`/`Exit`, and `exit(2)` becomes
    `Rejected(2)`.
- **Stream opening.** The SettingsReader constructor (stream opening,
  `tools/settings-reader/SettingsReader.cpp:11-19`) is not modelled; the
  reader starts from an open stream.
- **Files not in this model:** `UnicodeByteStream.cpp`, the stub in
  `DjbzSetting.cpp`, `SettingsReaderAdapter.cpp` and the headers.
  - DjVuLibre's `ParsingByteStream.h` is not part of this model either.
    From it, the buffer size 512 is taken, and the default arguments of
    `get_token`, taken as (false, false).
- **GUTF8String.** Its methods are not part of this model and are read
  as follows:
  - `is_valid`: the string is non-empty;
  - `is_int`: an optional sign followed by one or more digits;
  - `downcase`: ASCII lower-casing;
  - `toInt` and `atoi`: read without 32-bit overflow.
- **multipage_encode.** Only part of it is modelled.
  - The OpenMP loop is modelled as one iteration, `EncodeDictionary`.
  - Compression and saving are not modelled; the bitmap counts they
    produce are parameters.
  - Not modelled: the chunk-file I/O, the `sizes` and `FILE*` arrays,
    indirect mode, `mdjvu_save_djvu_dir` and `decide_if_djvu`.
  - Of `process_options`, only `same_option` and the dpi and
    pages-per-dict checks are modelled.
- **Word-level arithmetic.** Word loads and endian swaps are replaced by
  the bit- and pixel-level rows they compute. This covers
  `src/jb2/proto.c:34-49, 106-148`, `src/matcher/bitmaps.c:125-180,
  251-305` and `src/alg/smooth.c:65-87`.
- **Floating point.** The `pow`/`double` colour shades of
  `src/matcher/frames.c:325-336` are not modelled; the table is a
  parameter. The memory statistics printed with doubles are not modelled.
- **The pattern comparator.** `mdjvu_match_patterns` is an uninterpreted
  parameter over pattern positions.
  - Pattern creation and destruction are not modelled, and neither are
    pattern centres.
  - PatternList relinking is modelled as removal from a sequence, and
    FileList as values.
  - Pointer-offset allocation of margins is modelled as an index offset.
  - FindPrototypes returns the image annotations as a value.
- ParsingStream.ParsingByteStream.GetToken: the token equals `TokenS` of
  the pending bytes only when the input holds no 0xEF byte. After a
  partial byte-order mark, `unget` may lack room. Otherwise only the
  bound on the consumed bytes is proved.
- ParsingStream.ParsingByteStream.QuotedToken: exact against the
  reference only when the input holds no 0xEF byte, for the same reason.
- SettingsReading.SettingsReader.ReadValInt: the clause that states the
  value read requires an input without a 0xEF byte, as GetToken does.
- Options.DjbzChunkId: requires an id or a first chunk id of at least four
  characters.
  - The source copies the path with `strncpy` of size
    `|path| + |suffix| - 2`. With a suffix of two characters or fewer this
    leaves no terminator.
  - That case is excluded, not modelled.
- Options.AppOptions.ConstructChunkIds: requires every dictionary to be
  Nameable: it has an id, or it has a first file that is in the file list
  and a suffix of three or more characters. A dictionary without an id and
  without files makes the source read `files[0]` of an empty list, and a
  shorter suffix leaves the copied name without its terminator; both are
  undefined behaviour, excluded rather than modelled.
- Classify.Classification.MergePhase: states the rounds each processed
  class went through, not that no two final classes would pass the merge
  test. A class's test is taken while the classes after it are still
  growing by later merges, and compare_to_class's verdict over a chain does
  not split over parts of the chain, so the final-state form does not
  follow.
- Classify.Classification.Classify: the same as MergePhase.
- ClassifyDriver.ClassifyList: a class is stated to be linked in the sense
  that each pattern of a class of two or more was read MATCH against some
  other pattern of that class; that the MATCH pairs connect the whole class
  is not stated.
- ClassifyDriver.ClassifyPatterns: linked in the same sense as ClassifyList.
- ClassifyDriver.MultipageClassifyPatterns: linked in the same sense as
  ClassifyList.
- Proto.Diff: the running sum of row differences and the starting bound
  `w*h*21/100` are unbounded integers; the source keeps them in 32-bit
  `int32`. They cannot wrap for glyphs below about 10000 by 10000 pixels;
  larger glyphs are outside what the model states.
- Proto.DiffResultBounds: the same unbounded sum as Proto.Diff.
- Proto.DecideFacts: the starting bound is computed without 32-bit
  overflow, as in Proto.Diff.
- SettingsReading.SettingsReader.ReadImageOptions: what each key stores is
  stated per key by ReadImageItem (for an input without a 0xEF byte); the
  whole list is stated only by the ranges of ImageUpdate, not as the fold of
  ImageApply over its keys.
- SettingsReading.SettingsReader.ReadFileSpec: what each item stores is
  stated per item by ReadFileItem and ReadPageItem; the description after
  the whole list is stated by ranges, not as the fold of PageApply over its
  keys.
- SettingsReading.SettingsReader.ReadFile: the description read is tied to
  the one used (Ordered), not to the tokens of the list, for the reason
  given for ReadFileSpec.
- SettingsReading.SettingsReader.ReadInputFiles: the files added are stated
  per file by ReadFile; the list is not tied to the tokens as a whole.
- SettingsReading.SettingsReader.ReadInputItem: as ReadInputFiles.
- SettingsReading.SettingsReader.ReadDjbzOptions: what each key stores is
  stated per key by SetDjbzOption; the whole list is stated by the ranges
  of DjbzUpdate, not as the fold of DjbzApply over its keys.
- SettingsReading.SettingsReader.ReadDjbzKeys: as ReadDjbzOptions.
- SettingsReading.SettingsReader.ReadDjbzItem: as ReadDjbzOptions.
- SettingsReading.SettingsReader.ReadAppOptions: what each key stores is
  stated per key by SetAppOption and ReadSetting; the whole list is stated
  by the ranges of SettingsUpdate, not as the fold of SettingApply over its
  keys.
- SettingsReading.SettingsReader.ReadAppItem: as ReadAppOptions. A failed
  nested default list keeps the keys it stored before the failing key, as
  the in-place read at `tools/settings-reader/SettingsReader.cpp:157-164`
  does. The contract states this only through the ranges and the frame on
  the other settings, not key by key.
- SettingsReading.SettingsReader.ReadAllOptions: as ReadAppOptions.
- SettingsReading.SettingsReader.ReadImageItem: the value stored is stated
  only for an input without a 0xEF byte, as for ReadValInt; otherwise only
  the ranges.
- SettingsReading.SettingsReader.SetDjbzOption: as ReadImageItem.
- SettingsReading.SettingsReader.SetAppOption: as ReadImageItem.
- SettingsReading.SettingsReader.ReadSetting: as ReadImageItem.
- SettingsReading.SettingsReader.ReadFileItem: as ReadImageItem, for the
  page keys.
- Adjust.Image.AdjustBlitsAsWritten: when a replaced blit's number is not a
  bitmap index the source writes past the end of its arrays (undefined
  behaviour); the model reports that case as a failure and leaves the image
  unchanged instead of modelling the stray writes.

## Findings

| source | as written | input that shows it | evidently intended | confidence | as-written member | corrected member |
|---|---|---|---|---|---|---|
| src/alg/classify.c:334-390 | after `c = c->next_class` the do-while test reads `c->next_class` even when c became NULL because the class just processed absorbed every class after it | three patterns A, B, C where A is unlike B and C is like both: seeding builds {A, C} and {B}; merging leaves {B} last, so the step from index 0 of 1 class dereferences NULL | stop when the current class has no successor | not executed | Classify.AdvanceAsWritten, Classify.CrashScenario | Classify.Advance |
| src/alg/classify.c:433-450 | the single-page driver gives every pattern id 0, while the cache is indexed by id | A, B, C where A vs B compares 0 and A vs C compares MATCH: all pairs share one slot, so after storing A, C the pair A, B reads MATCH | ids by rank in the pattern list, unique per pattern | not executed | ClassifyDriver.PatternListAsWritten, ClassifyDriver.PatternListAsWrittenNotUnique, ClassifyDriver.SinglePageIdsCollide | ClassifyDriver.PatternList |
| src/alg/smooth.c:140-151 | the last pixel of the last word is cleared by the second get_smooth call, and its fix-up only runs at the start of a next word | a 64-pixel black row between black rows: pixel 63 should stay black and is cleared | restore the last pixel after the last word too | not executed | Smooth.SmoothRowAsWritten, Smooth.LastPixelLost | Smooth.SmoothRow |
| tools/settings-reader/ParsingByteStream.cpp:160-177 | when the input ends inside a byte-order mark, the character variable keeps the byte read last instead of becoming EOF | a lone 0xEF makes every later read deliver 0xEF again; "EF BB BF" at the end delivers 0xBF | deliver EOF once the input ends | not executed | ParsingStream.ParsingByteStream.GetbomAsWritten | ParsingStream.ParsingByteStream.Getbom |
| tools/settings-reader/AppOptions.cpp:181-182 | pg_max is clamped to tiff_cnt rather than tiff_cnt - 1 | count 3, pages 0..5 gives the interval (0, 3), whose last page does not exist | clamp to the last existing page | not executed | Options.AdjustPagesIntervalAsWritten, Options.AdjustAsWrittenKeepsMissingPage | Options.AdjustPagesInterval |
| tools/settings-reader/AppOptions.cpp:673 | pages_per_dict 0 gives groups of one page, though `AppOptions.h:81` and line 582 say 0 means no limit | pages_per_dict 0 with several unassigned files: each gets its own dictionary | 0 puts every unassigned page in one group | not executed | Options.GroupSizeAsWritten, Options.GroupingAsWrittenSplitsAll | Options.GroupSize, Options.GroupingUnlimited |
| tools/settings-reader/AppOptions.cpp:537 | a file name without a dot yields an empty base name | "scan", page 0 gives ".djvu"; for page 1 the write starts before the buffer | use the whole name as the base | not executed | Options.PageOrDictNameAsWritten, Options.PageNameAsWrittenLosesBase | Options.PageOrDictName |
| tools/settings-reader/AppOptions.cpp:636-658 | the output file is set only when the path holds a directory separator | "out.djvu" leaves the output file unset, so main prints the usage | set it for a plain name too | not executed | Options.OutputFileAsWritten, Options.OutputFileAsWrittenDropsPlainName | Options.AppOptions.SetOutputFile |
| tools/settings-reader/SettingsReader.cpp:381 | the file item stores the uncut token as the file name | "(file scan.tif)" stores "scan.tif)", which is not a TIFF name | store the token cut before the `)` | not executed | SettingsReading.FileNameAsWritten, SettingsReading.FileNameAsWrittenKeepsParen | SettingsReading.FileName |
| minidjvu/alg/adjust/adjust.c:136-177 | the second loop stores x_adjust, y_adjust and reads baseline at the blit number i, while the third loop reads x_adjust and y_adjust at the blit's bitmap index; a replaced blit whose number is not a bitmap index writes past the arrays' end | blits [bitmap 1, bitmap 0] with bitmap 1 substituted by bitmap 0 of width 1 and bitmap 1 of width 5: blit 1 keeps bitmap 0 yet moves right by 2 | store, compute and read the shifts at the bitmap's index | not executed | Adjust.Image.AdjustBlitsAsWritten, Adjust.MixedIndicesMoveUnreplacedBlit | Adjust.Image.AdjustBlits |
