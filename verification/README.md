# Proofs about the native core of the keyboard

Models, in Dafny, of the native code that plans memory for ggml graphs, splits them over
backends, encodes and trains byte-pair pieces, builds the dictionary trie, keeps the language
model's cache and beams, and packs bits, with proofs of what each is for. Code that changes
state step by step is a class or a method here and is proved against functions on its state;
what those functions mean is proved beside them as lemmas.

**Tensor allocator** (`Alignment`, `FreeList`, `AllocTrace`, `MeasureReplay`, `ReplayNeedsSlack`,
`ReplayExact`, `TensorAllocator`). A table of free blocks, best fit with the last block as last
resort, coalescing release. Over every run, free blocks and live tensors tile the buffer. A trace
measured on the measuring allocator replays at the same offsets on every buffer whose aligned
capacity is strictly larger than the measured peak. A buffer of exactly the peak takes every such
trace if and only if the peak is at most three alignments (`ReplayExact.TakesAllIff`), and the one
alignment that the callers add is the least slack that always suffices (`ReplayExact.SlackIff`).
Where the source aborts, a method returns failure; pointers are numbers.

**Graph planner** (`GraphPlan`, `PlanSteps`, `PlanTakeOver`, `PlanRelease`, `PlanWalk`, `PlanSpec`,
`PlanPlacing`, `PlanReturn`, `PlanSafety`, `PlanTheorem`, `PlanOrder`, `GraphAllocator`). Counts
readers and views, reuses parents in place, releases what nobody needs. The proof keeps books of
who holds which memory for whom: nothing a coming read needs is freed or handed on, and nothing is
kept for a tensor whose readers and views are done (`PlanTheorem.WalkGivesBack`). `PlanReplay` and
`PlanMeasured` carry the measuring over to whole graphs: the plan made on the measuring allocator
is the plan in the real buffer. A walk loses a byte if and only if it releases memory through a
tensor smaller than the one at the end of its chain of view sources
(`PlanTheorem.WalkLosesNothingIff`); then the byte is lost until the next reset
(`PlanLeak.PlanCanLose`).

**Backend scheduler** (`GraphSplit`, `SplitShape`, `SplitExecution`, `SplitNecessity`,
`BackendScheduler`). Pass 4 of the splitting and the execution of the splits. Ops are arbitrary
functions of their sources and of what their memory held, so in-place writes through a view count.
Splitting preserves what the graph computes if and only if no node is overtaken: no earlier node of
the same split writes the memory of something the split copied in.

**Byte-pair encoder** (`BpeVocabulary`, `BpeMerging`, `BpeAgenda`, `BpeEncoder`). The vocabulary as
it is built from a list of pieces, linked symbols and a priority queue with stale entries, proved
equal to merging the best pair again and again. The comment at `bpe_model.cc:185` ("never called")
is true exactly for vocabularies in which no unused piece is a first symbol by itself.

**Byte-pair trainer** (`TrainerSymbols`, `TrainerInvariant`, `TrainerMerge`, `TrainerRounds`,
`TrainerCounts`, `BpeTrainer`). Lazily recounted frequencies are exact whenever they are not 0, no
text is lost, the check inside the merging loop never fails, and every round takes, of
the active pairs, the one with the largest frequency, the shortest and first in the alphabet among
equals. If the corpus has no
valid pair, the update of the active symbols reads the first element of an empty list; the model
calls this a crash.

**Dictionary trie** (`PatriciaTrie`, `DictionaryRuns`, `TrieRows`, `OffdeviceDictionary`). Lists of
shared nodes, changed in place while a word is added. The trie refines a finite map and is
canonical. Two places of the code differ from what it is for, and the model follows the code: the
constructor at `offdevice_intermediate_dict_pt_node.h:44-48` copies a property that an inner node
does not have (`DictionaryRuns.FaultsIff` says for which words), and the length test at
`offdevice_intermediate_dict.cpp:102` compares with the whole word (`DictionaryRuns.LookupExact`).

**Prompt cache** (`PromptCache`, `CacheCoherence`, `CacheRuns`, `PromptDecoder`). What sequence 0
of the key-value cache holds across calls. The removal at line 354 stands inside the batch loop,
and mixes are reused by their coordinates alone; `CacheRuns.RunRightIff` says exactly which runs of
calls leave the right cells. `PromptDecoder` is the language model in place, from a prompt to the
end of the search: from a clean cache a search leaves sequence 0 its prompt and adds only tokens
behind it.

**Beam search** (`SharedCells`, `BeamIds`, `BeamCells`, `BeamHistory`, `BeamRounds`, `BeamRuns`,
`BeamPrompt`, `BeamSearch`, `BeamScores`, `BeamOutputs`, `BeamTraces`, `BeamLeftovers`). Every
output is traced through the picks of the rounds to a first choice. Ids stay distinct and never run
out, and the ids alone say who moves where. Copying a sequence onto another does not clear the
target, so a moved child can see another beam's tokens: a history of what every sequence holds says
exactly which picks are safe, over whole searches and with beams that have ended
(`BeamRuns.CleanRunIff`). A search that breaks off leaves tokens over, and
`BeamLeftovers.PromptStaysIff` says exactly when a later one brings them to sequence 0.

**UTF-8** (`Utf8`, `Utf8Form`, `Utf8RoundTrip`, `Utf8Reencoding`, `Utf8Coder`). The coder of the
dictionary toolkit, against the table of RFC 3629. The first-byte mask for four bytes is 0x03 where
section 3 of RFC 3629 has three payload bits, so the round trip holds exactly below 0x100000.
Trailing bytes are not checked for their marker; `Utf8Reencoding.ReencodingIff` says which byte
strings come back.

**Quantisation** (`ScalePacking`, `LaneDot`, `QuantPlanes`, `QuantKernels`, `HighBits`, `HighWord`,
`QuantLayout`, `QuantRows`). The integer parts: packing and unpacking of scales, mins and quants and
the places of their bits, rows of blocks, and the eight-lane dot products.

Notation: `Option` stands for a null pointer, -1 or an aborted call. Predicates named `Valid`,
`Inv`, `Sound` or `Coherent` are the invariants of their components.

## Findings

Where the code does not do what it is for, the model follows the code. Each row has an input that
shows it and the result that says exactly when the code does right.

| where | as written | input | intended | proved |
|---|---|---|---|---|
| native/jni/org_futo_inputmethod_latin_xlm_LanguageModel.cpp:354 | Each batch of a prompt removes what the batches before it decoded | `CacheRuns.TwoBatchesAreWrong` | The whole prompt stays in the cache | exactly the runs of `CacheRuns.RunRightIff` go right |
| native/jni/org_futo_inputmethod_latin_xlm_LanguageModel.cpp:419-427 | Cached mixes are reused behind a shorter prompt, where the rest of the old prompt still stands | `CacheRuns.ShorterPromptIsWrong` | Mixes are reused only where they were decoded | exactly the runs of `CacheRuns.RunRightIff` go right |
| native/jni/org_futo_inputmethod_latin_xlm_LanguageModel.cpp:557 | An answer at index 0 is taken for one with mixes | `PromptCache.SamePromptLooksMixed` | The end of a correction may follow only if there were mixes | right exactly when `PromptCache.HeadTellsMixesIff` says |
| native/jni/org_futo_inputmethod_latin_xlm_LanguageModel.cpp:764-770 | A sequence is copied onto one that is not empty, so a beam sees another beam's token | `BeamTraces.TwoOfOneParent` | A beam sees the prompt and its own tokens | right exactly when `BeamRuns.CleanRunIff` says; while no beam has ended, `BeamRounds.AllLiveSafeIff` |
| native/jni/org_futo_inputmethod_latin_xlm_LanguageModel.cpp:692 | A search that breaks off skips the removal of its sequences | `BeamTraces.BrokenSearchStays` | Nothing is left of a search but sequence 0 | left over exactly if it had two beams or more, `BeamTraces.SearchLeavesPrompt` |
| native/jni/org_futo_inputmethod_latin_xlm_LanguageModel.cpp:764-770 | The next search takes what is left over along to sequence 0 | `BeamLeftovers.LeftOverBrought` | Sequence 0 holds the prompt | stays right exactly when `BeamLeftovers.PromptStaysIff` says |
| native/jni/org_futo_inputmethod_latin_xlm_LanguageModel.cpp:723-724 | A candidate's score is computed from another beam's | `BeamScores.SecondBeamScoredWrong` | The score is the product of the probabilities along the path | right exactly when `BeamScores.ScoresRightIff` says |
| native/jni/src/sentencepiece/bpe_model.cc:185-189 | An unused piece stays in the encoding | `BpeMerging.UnusedSymbolIsLeft` | The branch is never taken, as its comment says | never taken exactly when `BpeMerging.UnusedNeverLeftIff` says |
| native/jni/src/sentencepiece/bpe_model_trainer.cc:137-164 | The update of the active pairs reads the first of none, which C++ leaves undefined and the model counts as a crash | `TrainerRounds.LoneCharacter` | Training ends without pieces | before the first piece exactly when no two neighbouring characters make a valid piece, `BpeTrainer.Trainer.Train` |
| native/dicttoolkit/src/offdevice_intermediate_dict/offdevice_intermediate_dict_pt_node.h:44-48 | Relabelling a node copies a property that is not there | `DictionaryRuns.SomeOrdersFault` | Every new word can be added | faults exactly when `DictionaryRuns.FaultsIff` says |
| native/dicttoolkit/src/offdevice_intermediate_dict/offdevice_intermediate_dict.cpp:101-109 | A lookup reads past the end of the word | `DictionaryRuns.LookupCanReadPast` | A beginning of a word is looked up as no word | reads past exactly when `DictionaryRuns.LookupExact` says |
| native/dicttoolkit/src/utils/utf8_utils.cpp:27 | A code point of 0x100000 or above is encoded and then rejected | `Utf8RoundTrip.FirstRejected` | What is encoded can be decoded, section 3 of RFC 3629 | comes back exactly when `Utf8RoundTrip.RoundTripIff` says |
| native/dicttoolkit/src/utils/utf8_utils.cpp:49-50 | A trailing byte without its marker is accepted | `Utf8Reencoding.MarkerPutRight` | Only well-formed input is accepted, section 4 of RFC 3629 | accepted input comes back exactly when `Utf8Reencoding.ReencodingIff` says |
| native/jni/src/ggml/ggml-alloc.c:107-119 | A buffer of exactly the measured peak rejects the trace it was measured on | `ReplayNeedsSlack.ReachingThePeakIsNotEnough` | A buffer of the measured size is large enough | exactly when `ReplayExact.TakesAllIff` says |
| native/jni/src/ggml/ggml-alloc.c:522-526 | Freeing an in-place result on a smaller view frees less than was allocated | `PlanLeak.PlanCanLose` | What nobody needs is free again | one release: exactly when `PlanRelease.ReleaseLosesIff` says; whole walks: `PlanTheorem.WalkLosesNothingIff` |
| native/jni/src/ggml/ggml-backend.c:814-846 | A reader gets a copy made before the last write of what it reads | `SplitNecessity.InPlaceAcrossBackends` | The splits compute what the graph computes | right exactly when `SplitNecessity.SplittingPreservesIff` says |

## Model

| member | source | states |
|---|---|---|
| Alignment.AlignedOffset | native/jni/src/ggml/ggml-alloc.c:21-25 | The result is the one multiple of the alignment in the window of alignment bytes that begins at the offset |
| FreeList.BestFitUpTo | native/jni/src/ggml/ggml-alloc.c:93-103 | Of the blocks looked at, the smallest that is large enough, and of equals the last; none only if none is large enough |
| FreeList.BestFit | native/jni/src/ggml/ggml-alloc.c:93-119 | The last block is taken only if no other is large enough; of the others the block taken is one that no other large enough is smaller than, the last of equals; nothing is taken only if no block at all is large enough |
| FreeList.TakesFittest | native/jni/src/ggml/ggml-alloc.c:93-130 | Over sizes alone: there is at most one fittest block, an allocation takes the front of it, and it takes nothing if and only if no block is large enough |
| FreeList.TakeCovers | native/jni/src/ggml/ggml-alloc.c:120-130 | An allocation takes bytes that were free and nothing else, and leaves the list sorted, non-empty and non-adjacent |
| FreeList.ReleaseCovers | native/jni/src/ggml/ggml-alloc.c:179-224 | A release frees exactly the given range, whatever it touches, and leaves the list sorted, non-empty and non-adjacent |
| FreeList.CanonicalForm | native/jni/src/ggml/ggml-alloc.c:179-224 | Two well-formed free lists that cover the same bytes are the same list: coalescing leaves no choice |
| FreeList.ReleaseBetween | native/jni/src/ggml/ggml-alloc.c:210-224 | A range that touches no block becomes a block of its own at its sorted place |
| AllocTrace.StepKeepsInvariant | native/jni/src/ggml/ggml-alloc.c:82-237 | After every call that does not abort, free blocks and live tensors tile the buffer without gap or overlap, and the peak has not gone down |
| AllocTrace.RunKeepsInvariant | native/jni/src/ggml/ggml-alloc.c:82-237 | The same over every run of allocations, frees and resets |
| AllocTrace.FreeingEverythingRestores | native/jni/src/ggml/ggml-alloc.c:179-237 | When everything has been freed, the list is again the single block that a reset makes |
| AllocTrace.RunOnGrid | native/jni/src/ggml/ggml-alloc.c:86-87 | Every tensor of every run is placed at a multiple of the alignment and takes whole multiples of it |
| AllocTrace.PeakIsReached | native/jni/src/ggml/ggml-alloc.c:152 | The peak is exact: it is 0 if nothing was placed, else the end of some allocation of the run, and no allocation ends beyond it |
| MeasureReplay.TakeRelocated | native/jni/src/ggml/ggml-alloc.c:93-130 | Best fit makes the same choice in a moved list with another amount of room at the end, as long as the last block outlasts the allocation on both sides |
| MeasureReplay.ReleaseRelocated | native/jni/src/ggml/ggml-alloc.c:179-224 | Releasing and moving the list commute |
| MeasureReplay.RunSimulated | native/jni/src/ggml/ggml-alloc.c:82-237 | Step by step, the run in the real buffer is the measured run moved |
| MeasureReplay.MeasureThenAllocate | native/jni/src/ggml/ggml-alloc.c:82-237 | Every trace measured without filling the measuring arena replays in any arena of the same alignment whose aligned capacity strictly exceeds the measured peak, every tensor at the same offset from the aligned start |
| MeasureReplay.AlignmentSlackSuffices | native/jni/src/ggml/finetune.cpp:1478 | One alignment more than the measured size is always enough, wherever the buffer lies |
| ReplayNeedsSlack.ReachingThePeakIsNotEnough | native/jni/src/ggml/ggml-alloc.c:107-119 | For every alignment and every peak of four alignments or more, a trace that every larger arena takes with that peak and an arena of exactly the peak rejects, because the last-resort rule then applies to a hole |
| ReplayExact.AtMostOneHole | native/jni/src/ggml/ggml-alloc.c:179-224 | Holes lie two alignments apart, so a free list whose peak is at most three alignments has at most one besides the remainder |
| ReplayExact.MeasuredRebased | native/jni/src/ggml/ggml-alloc.c:152 | Measuring from an address that is not aligned adds what lies before the first aligned one, and nothing else |
| ReplayExact.SmallPeakSuffices | native/jni/src/ggml/ggml-alloc.c:82-237 | A trace whose peak is at most three alignments replays at equal offsets in an arena of exactly the peak |
| ReplayExact.TakesAllIff | native/jni/src/ggml/ggml-alloc.c:82-237 | For every alignment and every peak, counted from the first aligned address of the measuring arena: an arena takes all traces measured with that peak if and only if it is larger than the peak, or exactly as large and the peak is at most three alignments |
| ReplayExact.SlackIff | native/jni/src/ggml/llama.cpp:8580-8586 | With a peak above three alignments, a buffer of the measured size and some slack takes all traces wherever it lies if and only if the slack is at least the one alignment that the callers add |
| TensorAllocator.Allocator.New | native/jni/src/ggml/ggml-alloc.c:239-261 | A new allocator is one free block from the first aligned address to the end of the buffer |
| TensorAllocator.Allocator.NewMeasure | native/jni/src/ggml/ggml-alloc.c:263-268 | A measuring allocator is one free block at 0x1000 of half the address space |
| TensorAllocator.Allocator.Reset | native/jni/src/ggml/ggml-alloc.c:227-237 | A reset gives the single block, whatever the table held |
| TensorAllocator.Allocator.FindBestFit | native/jni/src/ggml/ggml-alloc.c:93-103 | The scan computes the best fit besides the last block, -1 if there is none |
| TensorAllocator.Allocator.Alloc | native/jni/src/ggml/ggml-alloc.c:82-153 | In place: the address is the front of the fittest block, one besides the last if any is large enough, no larger than any other that is; the table becomes what taking it leaves, the peak grows to its end; it fails exactly if no block is large enough |
| TensorAllocator.Allocator.FindTouching | native/jni/src/ggml/ggml-alloc.c:179-209 | The scan stops at the first block that the range touches |
| TensorAllocator.Allocator.GrowStart | native/jni/src/ggml/ggml-alloc.c:195-208 | Growing a block downwards never meets the previous block: the merge at line 200 is dead code |
| TensorAllocator.Allocator.Free | native/jni/src/ggml/ggml-alloc.c:156-224 | In place: the table becomes the released list; it fails only if that list has more than 256 blocks |
| PlanTheorem.OpeningIsSound | native/jni/src/ggml/ggml-alloc.c:533-556 | The counting pass sets up a plan in which every counter is the number of coming reads and of views, and nothing is freed that a read still needs |
| GraphAllocator.PaddingSized | native/jni/src/ggml/ggml-alloc.c:86-87 | Sizes padded to any alignment are as the safety of the walk asks of them |
| GraphAllocator.GraphAllocator.CountReaders | native/jni/src/ggml/ggml-alloc.c:533-556 | The two counters of every tensor are the number of its reads and of its views in the graph |
| GraphAllocator.GraphAllocator.FindReuseIndex | native/jni/src/ggml/ggml-alloc.c:478-516 | The first source whose memory may be reused, -1 if there is none |
| PlanPlacing.ReusableIff | native/jni/src/ggml/ggml-alloc.c:488-512 | The counters let a node take over a parent exactly if the parent is in this buffer, laid out alike, the node's read is the only one to come, nothing is attached to the parent, and the root of a view lies at the same address with nothing else to read or keep it |
| PlanPlacing.NodeReuses | native/jni/src/ggml/ggml-alloc.c:478-516 | An in-place operation becomes a view in the memory of the first such parent; no free byte is used |
| PlanPlacing.NodeTakes | native/jni/src/ggml/ggml-alloc.c:469-520 | If there is none, or the operation is not in place, a tensor gets the front of the smallest free block that is large enough, and exactly its padded bytes are no longer free; it gets none only if no block is large enough |
| PlanPlacing.ViewIsPlaced | native/jni/src/ggml/ggml-alloc.c:448-467 | A view lies where its base does, at its offset, in its base's buffer |
| GraphAllocator.GraphAllocator.AllocateNode | native/jni/src/ggml/ggml-alloc.c:469-520 | A tensor without memory becomes a view, takes over a parent's memory, or gets a block, in this order; failure exactly where the source aborts |
| GraphAllocator.GraphAllocator.ReadDone | native/jni/src/ggml/ggml-alloc.c:610-628 | A read struck off takes one from the reads of its tensor; when that leaves a tensor of this buffer that is no view with nothing to read or keep it, or the root of a view, every byte of its padded range becomes free; otherwise the free list is unchanged |
| PlanReturn.ReadStrikes | native/jni/src/ggml/ggml-alloc.c:604-628 | The same of the specified plan, in terms of counters, buffers and bytes |
| GraphAllocator.GraphAllocator.FreeNode | native/jni/src/ggml/ggml-alloc.c:522-526 | Memory of this buffer goes back to the free list, other memory is left alone |
| PlanWalk.PlanIsSafe | native/jni/src/ggml/ggml-alloc.c:469-636 | In every sound state: what a coming read needs is held by the family read, or by the very node that reads it last; what a node not yet processed has written is held; holders are pairwise disjoint and not free |
| PlanSafety.AllocateNodeKeeps | native/jni/src/ggml/ggml-alloc.c:469-520 | Giving a tensor memory keeps the state sound |
| PlanSafety.ReadDoneKeeps | native/jni/src/ggml/ggml-alloc.c:604-628 | Striking off a read, with whatever it releases, keeps the state sound: no block is released twice and none that is still needed |
| PlanSafety.WalkKeeps | native/jni/src/ggml/ggml-alloc.c:558-636 | Every walk that starts a node after what it reads is finished keeps the state sound, and the counters always tell the reads to come |
| PlanTheorem.WalkIsSafe | native/jni/src/ggml/ggml-alloc.c:528-636 | From every graph and every set of tensors that have memory already: after every event of every legal walk, nothing that is still to be read has been freed or handed to another tensor, nothing is held for a tensor whose readers and views are done, and every byte free or held was so at the start |
| PlanTheorem.HeldIsNeeded | native/jni/src/ggml/ggml-alloc.c:604-628 | In every sound state of a walk whoever holds memory, or a view of it, is still to be processed, still to be read, or read by no node at all |
| PlanTheorem.WalkGivesBack | native/jni/src/ggml/ggml-alloc.c:528-636 | Once every node has been processed, and if no release was of a part only, every byte of the buffer is free again, unless it belongs to a tensor that nobody reads or that has a view nobody reads |
| PlanOrder.EventsOfOrder | native/jni/src/ggml/ggml-alloc.c:558-635 | In an ordered walk the nodes named so far have been given memory, and exactly those with a barrier behind them have had their reads struck off |
| PlanOrder.FinishesAt | native/jni/src/ggml/ggml-alloc.c:595-600 | At a barrier the nodes of the group are finished one by one in their order |
| PlanTheorem.TopologicalIsLegal | native/jni/src/ggml/ggml-alloc.c:558-603 | A graph in topological order is walked legally without an explicit order |
| PlanRelease.ReleaseLosesIff | native/jni/src/ggml/ggml-alloc.c:522-526 | A release loses a byte if and only if the tensor it goes through is smaller than the tensor at the end of its chain of view sources |
| PlanTheorem.WalkLosesNothingIff | native/jni/src/ggml/ggml-alloc.c:528-636 | After a legal walk every byte that was free or somebody's still is, if and only if no release of the walk goes through a tensor smaller than the end of its chain; never, unless an in-place op may reuse a view smaller than its base |
| PlanLeak.PlanCanLose | native/jni/src/ggml/ggml-alloc.c:522-526 | A graph of five tensors, walked in order in a buffer of 160 bytes, after which 32 bytes are neither free nor anybody's |
| GraphAllocator.GraphAllocator.AllocGraph | native/jni/src/ggml/ggml-alloc.c:528-636 | The walk in place, with or without a given order and its barriers, computes exactly the specified plan, aborts exactly where that does, and ends memory-safe with nothing held for a tensor whose readers and views are done |
| GraphAllocator.GraphAllocator.FinishGroup | native/jni/src/ggml/ggml-alloc.c:595-635 | At a barrier the reads of all nodes since the last barrier are struck off |
| PlanReplay.SameReuse | native/jni/src/ggml/ggml-alloc.c:478-516 | Which parent is reused does not depend on where the buffer lies |
| PlanReplay.WalkTwin | native/jni/src/ggml/ggml-alloc.c:528-636 | Walking in two buffers keeps the two plans moved copies of each other as long as the peak leaves room in both |
| PlanMeasured.MeasuredPlanReplays | native/jni/src/ggml/ggml-backend.c:906-924 | With tensors already in the buffer: whatever was planned on the measuring allocator is planned on the real one, every tensor at its moved place |
| PlanMeasured.MeasureThenPlan | native/jni/src/ggml/ggml-backend.c:906-924 | A graph planned on a measuring allocator is planned identically, offset for offset, in every buffer whose aligned capacity exceeds the measured size |
| PlanMeasured.MeasuredSizeSuffices | native/jni/src/ggml/ggml-backend.c:264 | A buffer of the measured size and one alignment more takes the plan, wherever it lies |
| BpeVocabulary.Vocabulary.LongestUserDefined | native/jni/src/sentencepiece/normalizer.cc:321-343 | The longest user-defined piece that the text begins with |
| BpeVocabulary.Vocabulary.PieceToId | native/jni/src/sentencepiece/model_interface.cc:51-61 | The id of the piece that is spelled so, or the unknown id if no piece is |
| BpeVocabulary.Vocabulary.OneName | native/jni/src/sentencepiece/model_interface.cc:51-61 | No other id is what a text is known by |
| BpeVocabulary.InitializePieces | native/jni/src/sentencepiece/model_interface.cc:63-134 | The list is accepted exactly if it is well made: texts that are not empty and all different, one unknown piece, byte pieces as byte fallback asks; then the maps hold every piece under its own text and nothing else |
| BpeVocabulary.Vocabulary.PrefixMatch | native/jni/src/sentencepiece/normalizer.cc:321-343 | The first symbol is the longest user-defined piece that the text begins with, frozen, or else one character |
| BpeVocabulary.CharLenIsEncodedSize | native/jni/src/sentencepiece/normalizer.cc:323-326 | The length told from the first byte is that of the encoded code point |
| BpeMerging.BestPair | native/jni/src/sentencepiece/bpe_model.cc:51-57 | The mergeable pair with the highest score, the leftmost of equals; none only if no pair is mergeable |
| BpeMerging.SplitIntoFirsts | native/jni/src/sentencepiece/bpe_model.cc:109-119 | The text falls into symbols each of which is the longest user-defined piece there, frozen, or one character |
| BpeMerging.BestIsForemost | native/jni/src/sentencepiece/bpe_model.cc:51-57 | The best pair forms a piece of the vocabulary, and of the pairs that do none has a higher score and none of the same score stands further left |
| BpeMerging.MergeableForms | native/jni/src/sentencepiece/bpe_model.cc:83-95 | Two symbols can be merged if and only if neither is frozen and a normal, user-defined or unused piece is spelled as both together |
| BpeMerging.Greedy | native/jni/src/sentencepiece/bpe_model.cc:142-173 | Merging the best pair while there is one ends with no mergeable pair left |
| BpeMerging.ReplaySound | native/jni/src/sentencepiece/bpe_model.cc:142-173 | Whatever is merged in whatever order, the segments cover the text, and every unused segment, and every unused half in the reverse merge table, has an entry in that table unless it is a first symbol of the text |
| BpeMerging.EncodingConserves | native/jni/src/sentencepiece/bpe_model.cc:142-202 | For every text, vocabulary and choice of merges, the output pieces concatenate to the text |
| BpeMerging.ResegmentedJoins | native/jni/src/sentencepiece/bpe_model.cc:175-193 | Taking an unused piece apart never loses or adds text |
| BpeMerging.WholeIff | native/jni/src/sentencepiece/bpe_model.cc:175-193 | A segment stays whole if and only if its piece is in use or nothing is remembered for it |
| BpeMerging.StartRemembers | native/jni/src/sentencepiece/bpe_model.cc:100-104 | At the start every unused piece that neighbours make is remembered as the last pair that makes it, and nothing else is |
| BpeMerging.MergeRemembers | native/jni/src/sentencepiece/bpe_model.cc:100-104 | A merge remembers the unused pieces that the new symbol makes with its neighbours as those pairs, and changes nothing else |
| BpeMerging.UnusedNeverLeftIff | native/jni/src/sentencepiece/bpe_model.cc:185-189 | No output ever holds an unused piece if and only if no unused piece is a first symbol by itself: exactly when the comment at line 185 is true |
| BpeMerging.UnusedSymbolIsLeft | native/jni/src/sentencepiece/bpe_model.cc:185-189 | A vocabulary and a text whose encoding keeps an unused piece |
| BpeAgenda.AbsorbLinked | native/jni/src/sentencepiece/bpe_model.cc:158-168 | The pointer updates of a merge leave a linked list of the live symbols that spells the text, with the two segments merged |
| BpeAgenda.StaleTestExact | native/jni/src/sentencepiece/bpe_model.cc:146-151 | A popped pair passes the test if and only if its two symbols are still live neighbours that spell the piece it was pushed for; then it is a mergeable pair with its score |
| BpeAgenda.TopIsBest | native/jni/src/sentencepiece/bpe_model.cc:51-57 | The current pair on top of a complete agenda is the best mergeable pair of the segmentation |
| BpeAgenda.DropStale | native/jni/src/sentencepiece/bpe_model.cc:146-151 | Dropping a stale pair loses no mergeable pair |
| BpeEncoder.Encoder.MaybeAddNewSymbolPair | native/jni/src/sentencepiece/bpe_model.cc:83-107 | The pair goes on the agenda exactly if it is mergeable, and into the reverse merge table exactly if its piece is unused |
| BpeEncoder.Encoder.Merge | native/jni/src/sentencepiece/bpe_model.cc:158-172 | The symbols become the merged segmentation, and the two new pairs are listed |
| BpeEncoder.Encoder.Turn | native/jni/src/sentencepiece/bpe_model.cc:142-173 | Every turn takes a live symbol away or shortens the agenda; without dropout it stays on the way to the greedy result |
| BpeEncoder.Encoder.MergeAll | native/jni/src/sentencepiece/bpe_model.cc:142-173 | Without dropout the loop ends in the greedy result; with dropout 1 it merges nothing; in between it carries out mergeable pairs only |
| BpeEncoder.Encoder.Resegment | native/jni/src/sentencepiece/bpe_model.cc:175-193 | The recursion appends the parts of an unused piece; it ends because the parts are shorter |
| BpeEncoder.SampleEncode | native/jni/src/sentencepiece/bpe_model.cc:38-203 | The whole encoder: every output piece carries the id of the piece spelled so, or the unknown id if there is none; the output spells the text and is that of the merges carried out; without dropout every merge takes the pair that forms a piece of the highest score, leftmost of equals, until no pair forms a piece |
| PatriciaTrie.FindsEntries | native/dicttoolkit/src/offdevice_intermediate_dict/offdevice_intermediate_dict.cpp:91-123 | Lookup finds exactly the words along the paths of a well-formed trie, with their properties |
| PatriciaTrie.InsertAdds | native/dicttoolkit/src/offdevice_intermediate_dict/offdevice_intermediate_dict.cpp:32-89 | Insertion succeeds exactly for a new word; then it is found with its property and every other lookup is unchanged |
| PatriciaTrie.InsertWellFormed | native/dicttoolkit/src/offdevice_intermediate_dict/offdevice_intermediate_dict.cpp:32-89 | Insertion keeps siblings descending, labels non-empty and every node without a property branching |
| PatriciaTrie.DividingKeepsWords | native/dicttoolkit/src/offdevice_intermediate_dict/offdevice_intermediate_dict.cpp:67-79 | Dividing a node changes no lookup |
| PatriciaTrie.Canonical | native/dicttoolkit/src/offdevice_intermediate_dict/offdevice_intermediate_dict.cpp:32-89 | Two well-formed tries with the same words and properties are equal |
| DictionaryRuns.AddsExactlyNewWords | native/dicttoolkit/src/offdevice_intermediate_dict/offdevice_intermediate_dict.cpp:24-30 | A word is added if and only if it is new, 1 to 48 code points long, and divides no node without a property |
| DictionaryRuns.FaultsIff | native/dicttoolkit/src/offdevice_intermediate_dict/offdevice_intermediate_dict_pt_node.h:44-48 | In terms of the words alone: adding a word dereferences a missing property if and only if it leaves the way to a branch point that is no word |
| DictionaryRuns.HoldsWhatWasAdded | native/dicttoolkit/src/offdevice_intermediate_dict/offdevice_intermediate_dict.cpp:24-89 | After any sequence of additions the dictionary holds exactly the words added, with their properties |
| DictionaryRuns.OrderDoesNotMatter | native/dicttoolkit/src/offdevice_intermediate_dict/offdevice_intermediate_dict.cpp:32-89 | Two orders of the same words that both go through give the same trie |
| DictionaryRuns.SomeOrdersFault | native/dicttoolkit/src/offdevice_intermediate_dict/offdevice_intermediate_dict_pt_node.h:44-48 | Three words that can be added in one order and fault in another |
| DictionaryRuns.LookupExact | native/dicttoolkit/src/offdevice_intermediate_dict/offdevice_intermediate_dict.cpp:91-123 | In terms of the words alone: looking a word up reads past its end if and only if it ends between two neighbouring words or branch points that are no further apart than it is long; otherwise the coded lookup is the map lookup |
| DictionaryRuns.OutOfRangeOnlyForBeginnings | native/dicttoolkit/src/offdevice_intermediate_dict/offdevice_intermediate_dict.cpp:101-109 | Only a proper beginning of a word that is no word itself can be read past |
| DictionaryRuns.LookupCanReadPast | native/dicttoolkit/src/offdevice_intermediate_dict/offdevice_intermediate_dict.cpp:101-109 | A lookup that does read past the word |
| OffdeviceDictionary.PtNode.WithEdge | native/dicttoolkit/src/offdevice_intermediate_dict/offdevice_intermediate_dict_pt_node.h:44-48 | The relabelled node has the property and the children of the old one |
| OffdeviceDictionary.PtNode.WithProperty | native/dicttoolkit/src/offdevice_intermediate_dict/offdevice_intermediate_dict_pt_node.h:51-55 | The node with a property has the label and the children of the old one |
| OffdeviceDictionary.PtNodeArray.InsertAt | native/dicttoolkit/src/offdevice_intermediate_dict/offdevice_intermediate_dict.cpp:86-87 | Inserting into the shared list inserts the node's row into the trie the list stands for |
| OffdeviceDictionary.OffdeviceIntermediateDict.AddWordInner | native/dicttoolkit/src/offdevice_intermediate_dict/offdevice_intermediate_dict.cpp:32-89 | The recursion over shared lists inserts in place what insertion into the trie does, and crashes exactly where a node without a property is divided |
| OffdeviceDictionary.OffdeviceIntermediateDict.DivideNode | native/dicttoolkit/src/offdevice_intermediate_dict/offdevice_intermediate_dict.cpp:67-84 | A new parent for the common part, the old node relabelled below it, the rest of the word beside it |
| OffdeviceDictionary.OffdeviceIntermediateDict.AddWord | native/dicttoolkit/src/offdevice_intermediate_dict/offdevice_intermediate_dict.cpp:24-30 | The dictionary's trie becomes the trie with the word, stays as it is if the word is refused, or the call crashes, each exactly when specified |
| OffdeviceDictionary.OffdeviceIntermediateDict.GetWordProperty | native/dicttoolkit/src/offdevice_intermediate_dict/offdevice_intermediate_dict.cpp:91-123 | The walk returns what the coded lookup specifies |
| GraphSplit.SplitsAreRight | native/jni/src/ggml/ggml-backend.c:680-744 | The splits are consecutive intervals that cover all nodes; every computing node has the backend of its split, and each of its sources is on that backend or replaced by a copy that is an input of the split |
| SplitShape.SplitsBeginAndCopy | native/jni/src/ggml/ggml-backend.c:680-744 | The first split has the allocator of the first node that is no view, every other one begins at a node that computes on another backend than the split before, and a split copies in exactly the sources that its nodes read from other backends |
| GraphSplit.SourcesShareBackend | native/jni/src/ggml/ggml-backend.c:748-768 | The sanity check after the splitting: every source of a computing node is on the node's backend |
| SplitExecution.SplittingPreserves | native/jni/src/ggml/ggml-backend.c:801-849 | Whatever the ops compute: if no node is overtaken, running the splits in order leaves every tensor with the value that running the whole graph gives it |
| SplitExecution.SharedRootsSuffice | native/jni/src/ggml/ggml-backend.c:801-849 | A graph whose views share the backend of the tensor they view is never overtaken |
| SplitNecessity.OvertakenTells | native/jni/src/ggml/ggml-backend.c:814-846 | Where a node is overtaken, there are ops for which the splits compute something else |
| SplitNecessity.SplittingPreservesIff | native/jni/src/ggml/ggml-backend.c:680-849 | Splitting preserves the meaning for all ops and all memories if and only if no copy is made before the last write, in the same split, of what it copies |
| SplitNecessity.InPlaceAcrossBackends | native/jni/src/ggml/ggml-backend.c:814-846 | A graph whose splits compute something else: an op in place on a tensor of another backend, and a reader of it in the same split |
| BackendScheduler.Scheduler.SplitGraph | native/jni/src/ggml/ggml-backend.c:680-744 | Pass 4 in place computes the specified splits, copies and rewritten sources, and fails exactly if a limit is exceeded |
| BackendScheduler.Scheduler.VisitSource | native/jni/src/ggml/ggml-backend.c:718-741 | A source on another backend becomes an input and is replaced by its copy, made once per tensor and backend |
| BackendScheduler.ComputeSplits | native/jni/src/ggml/ggml-backend.c:801-850 | The loop copies the inputs of a split and computes its nodes, split after split |
| TrainerSymbols.Next | native/jni/src/sentencepiece/bpe_model_trainer.cc:104-110 | The next position that holds a symbol, -1 if there is none |
| TrainerSymbols.Prev | native/jni/src/sentencepiece/bpe_model_trainer.cc:112-118 | The previous position that holds a symbol, -1 if there is none |
| TrainerMerge.MergeKeeps | native/jni/src/sentencepiece/bpe_model_trainer.cc:288-303 | Merging one occurrence keeps every non-zero frequency exact, all neighbours recorded and the text unchanged |
| TrainerMerge.TurnOf | native/jni/src/sentencepiece/bpe_model_trainer.cc:278-286 | When a recorded place has its turn, its left symbol is gone or the pair still stands there, overlaps included |
| TrainerMerge.MergeFirstKeeps | native/jni/src/sentencepiece/bpe_model_trainer.cc:278-304 | The check at line 286 never fails, and everything is kept to the last place |
| TrainerMerge.BestGone | native/jni/src/sentencepiece/bpe_model_trainer.cc:278-304 | After its round the merged pair stands nowhere |
| TrainerRounds.CountKeeps | native/jni/src/sentencepiece/bpe_model_trainer.cc:85-102 | Recounting keeps the invariant, and afterwards the frequency is the weight of the places where the pair stands |
| TrainerRounds.CountedExactly | native/jni/src/sentencepiece/bpe_model_trainer.cc:85-102 | A counted pair whose string is new is recorded exactly where it stands between neighbours: its frequency is its true frequency |
| TrainerCounts.CountedIsTotal | native/jni/src/sentencepiece/bpe_model_trainer.cc:85-102 | The frequency of a counted pair whose string is new is the sum, over all sentences, of the sentence's weight times the number of places where the two symbols are neighbours |
| TrainerCounts.WeightBySentence | native/jni/src/sentencepiece/bpe_model_trainer.cc:85-102 | Adding the weights of recorded places one by one is adding, for every sentence, its weight times its places |
| TrainerCounts.NeighboursRecorded | native/jni/src/sentencepiece/bpe_model_trainer.cc:120-127 | Two neighbours that make a new valid piece are known as a pair and recorded where they stand |
| TrainerCounts.KnownAreValid | native/jni/src/sentencepiece/bpe_model_trainer.cc:52-83 | A pair that is known joins two symbols into a valid piece, and neither is the unknown one |
| TrainerRounds.RoundKeeps | native/jni/src/sentencepiece/bpe_model_trainer.cc:275-308 | A whole round of merging keeps the invariant |
| BpeTrainer.Trainer.GetPairSymbol | native/jni/src/sentencepiece/bpe_model_trainer.cc:52-83 | The pair of two symbols, created if it is new; none if one is missing or unknown or the piece is invalid |
| BpeTrainer.Trainer.ResetFreq | native/jni/src/sentencepiece/bpe_model_trainer.cc:129-135 | The pair at two places is to be counted again, unless it is the one being merged |
| BpeTrainer.Trainer.AddNewPair | native/jni/src/sentencepiece/bpe_model_trainer.cc:120-127 | The pair at two places is recorded there and becomes active |
| BpeTrainer.Trainer.ComputeFreq | native/jni/src/sentencepiece/bpe_model_trainer.cc:85-102 | A pair with frequency 0 is counted again and loses the places where it no longer stands |
| BpeTrainer.Trainer.FindBest | native/jni/src/sentencepiece/bpe_model_trainer.cc:234-249 | Over frequencies, lengths and characters: no active pair has a larger frequency than the one chosen, none of the same frequency fewer characters, none of these comes first at the first character that differs; all active pairs are counted; none is chosen only if none is active |
| BpeTrainer.Trainer.UpdateActiveSymbols | native/jni/src/sentencepiece/bpe_model_trainer.cc:137-164 | All pairs are counted and so many stay active as there are, but no more than the larger of 1000 and 5 percent of the cache; none left out has a larger frequency than one kept; it reads the first of none exactly if there is no pair |
| BpeTrainer.Trainer.MergeAll | native/jni/src/sentencepiece/bpe_model_trainer.cc:278-304 | The loop over the recorded places never fails its check |
| BpeTrainer.Trainer.Round | native/jni/src/sentencepiece/bpe_model_trainer.cc:228-308 | One turn: the pair chosen has the largest frequency of the active ones, the fewest characters and the first in order among equals, its frequency that of the text; a string met before is only dropped; otherwise it becomes a piece and is merged everywhere |
| BpeTrainer.Trainer.ListBigrams | native/jni/src/sentencepiece/bpe_model_trainer.cc:210-215 | Recording all neighbours sets up the invariant |
| TrainerRounds.LoneCharacter | native/jni/src/sentencepiece/bpe_model_trainer.cc:137-164 | A corpus without a pair of neighbouring characters that makes a valid piece |
| BpeTrainer.Trainer.Train | native/jni/src/sentencepiece/bpe_model_trainer.cc:202-309 | Training ends, with at most the wanted number of pieces, distinct and valid, every sentence still spelling its text; it crashes before the first piece if and only if no two neighbouring characters make a valid piece, and later only at an update that finds no pair |
| PromptCache.Shared | native/jni/src/ggml/context.cpp:4-14 | The longest common prefix of the active context and the next one |
| PromptCache.Kept | native/jni/src/ggml/context.cpp:4-33 | The longest common prefix; one token less exactly if the whole prompt would be kept and something must be computed |
| PromptCache.CachedMixes | native/jni/org_futo_inputmethod_latin_xlm_LanguageModel.cpp:313-324 | How many leading mixes are near those of the last call, and the next one is not |
| PromptCache.ReusedUpToMove | native/jni/org_futo_inputmethod_latin_xlm_LanguageModel.cpp:419-427 | If the context begins with the whole prompt, the mixes reused are those before the first one with a coordinate that has moved by EPS or more; otherwise none is |
| PromptCache.AnswerIsOfLastToken | native/jni/org_futo_inputmethod_latin_xlm_LanguageModel.cpp:339-360 | The answer is that of the closing token, or without mixes that of the prompt's last token: so many places into the last of the batches behind what is kept |
| PromptCache.LayoutAt | native/jni/org_futo_inputmethod_latin_xlm_LanguageModel.cpp:326-504 | In the layout that calls are measured by, position i holds token i of the prompt, and the mixes follow |
| PromptCache.DecodeCells | native/jni/org_futo_inputmethod_latin_xlm_LanguageModel.cpp:427-497 | The last removal of a call finds nothing to remove |
| PromptCache.HeadTellsMixesIff | native/jni/org_futo_inputmethod_latin_xlm_LanguageModel.cpp:557 | Index 0 of the answer tells that mixes were decoded if and only if there are mixes or the rest of the prompt is not one token more than whole batches |
| PromptCache.SamePromptLooksMixed | native/jni/org_futo_inputmethod_latin_xlm_LanguageModel.cpp:557 | Any prompt given twice without mixes is answered at index 0 the second time, as if it had mixes |
| CacheCoherence.DecodeCoherent | native/jni/org_futo_inputmethod_latin_xlm_LanguageModel.cpp:326-504 | After a call that fits, sequence 0 holds exactly the prompt, one cell for each mix and the closing token; each mix cell is within one EPS per reuse of the mix it stands for; active_context is the prompt |
| CacheCoherence.FirstTokenLost | native/jni/org_futo_inputmethod_latin_xlm_LanguageModel.cpp:341-360 | If the rest of the prompt takes more than one batch, each batch removes what the batches before it decoded |
| CacheCoherence.RightCellsIff | native/jni/org_futo_inputmethod_latin_xlm_LanguageModel.cpp:326-504 | From a coherent cache one call leaves the right cells if and only if it fits and the cells of the mixes reused are there; if more mixes are reused than cells are known for, what lies behind those must be tokens |
| CacheRuns.FitsKnown | native/jni/org_futo_inputmethod_latin_xlm_LanguageModel.cpp:797-828 | In a run the cells of reused mixes are always there: prompts begin with a token of their own |
| CacheRuns.RunCoherent | native/jni/org_futo_inputmethod_latin_xlm_LanguageModel.cpp:313-504 | Over any sequence of prompts that fit, beam searches that leave the positions of the prompt alone, and cache resets the cache stays coherent, and after a prompt it holds exactly that prompt, its mixes and the closing token |
| CacheRuns.RunRightIff | native/jni/org_futo_inputmethod_latin_xlm_LanguageModel.cpp:313-504 | Over a whole run every prompt leaves the right cells if and only if the rest of every prompt fits in one batch and mixes are reused only behind an unchanged prompt |
| CacheRuns.ShorterPromptIsWrong | native/jni/org_futo_inputmethod_latin_xlm_LanguageModel.cpp:419-427 | A run that goes wrong: a shorter prompt with the mixes of the call before |
| CacheRuns.TwoBatchesAreWrong | native/jni/org_futo_inputmethod_latin_xlm_LanguageModel.cpp:341-354 | A first prompt of two batches goes wrong |
| PromptDecoder.LanguageModelState.FastForward | native/jni/src/ggml/context.cpp:4-33 | How much is kept, one token less if something must be computed, and the rest |
| PromptDecoder.LanguageModelState.ApplyContext | native/jni/src/ggml/context.cpp:36-42 | The active context becomes the kept part and the rest |
| PromptDecoder.LanguageModelState.GetCachedMixAmount | native/jni/org_futo_inputmethod_latin_xlm_LanguageModel.cpp:313-324 | The scan computes the number of cached mixes |
| PromptDecoder.LanguageModelState.SeqRm | native/jni/src/ggml/llama.cpp:1633-1661 | One sequence loses its cells from a position on, the others lose nothing |
| PromptDecoder.LanguageModelState.DecodeSuffix | native/jni/org_futo_inputmethod_latin_xlm_LanguageModel.cpp:339-360 | The batches in turn, with the removal inside the loop; the answer is at the last token of the last batch |
| PromptDecoder.LanguageModelState.DecodePromptAndMixes | native/jni/org_futo_inputmethod_latin_xlm_LanguageModel.cpp:326-504 | In place: sequence 0, active context and past mixes become those specified, the other sequences see what they saw, size counts prompt, mixes and closing token, and the answer is where specified |
| PromptDecoder.LanguageModelState.RunSearch | native/jni/org_futo_inputmethod_latin_xlm_LanguageModel.cpp:596-784 | The search in place: its rounds, at most ten, are the specified ones; every output comes, through the picks of the rounds, from a first choice and is that beam's tokens, without a last token that ends a correction; every beam that has ended gives exactly one; it ends, breaks off or runs out of rounds as specified |
| PromptDecoder.LanguageModelState.Sample | native/jni/org_futo_inputmethod_latin_xlm_LanguageModel.cpp:549-784 | A broken answer leaves everything, or clears the cache; otherwise the search runs |
| PromptDecoder.LanguageModelState.Predict | native/jni/org_futo_inputmethod_latin_xlm_LanguageModel.cpp:786-858 | From any cells, left-overs of earlier searches included: a prediction does to sequence 0 what a prompt and then a search, or a reset, do; the search leaves the positions of the prompt alone if and only if no child takes left-overs along to sequence 0; from a cache without left-overs it does, and it leaves some exactly if it breaks off with two beams or more |
| SharedCells.CopyExact | native/jni/src/ggml/llama.cpp:1663-1679 | After a copy the target sees what the source sees if and only if all it had before was the source's as well; otherwise it sees more |
| SharedCells.RmSeqView | native/jni/src/ggml/llama.cpp:1633-1661 | Removing from a sequence removes from what it sees |
| BeamIds.FreeExists | native/jni/org_futo_inputmethod_latin_xlm_LanguageModel.cpp:748-759 | By pigeonhole a shared id leaves a free one: the branch at line 756 is never taken |
| BeamIds.ReassignIsRight | native/jni/org_futo_inputmethod_latin_xlm_LanguageModel.cpp:737-774 | After reassigning, all ids are distinct and in range; the last user of each id keeps it, every other beam gets an id that no beam had |
| BeamIds.WhereBeamsEnd | native/jni/org_futo_inputmethod_latin_xlm_LanguageModel.cpp:737-774 | The ids alone say where every beam ends up: the k-th beam that shares its id with a later one gets the k-th smallest unused id |
| BeamCells.DecodeKeepsClean | native/jni/org_futo_inputmethod_latin_xlm_LanguageModel.cpp:660-680 | Decoding the last tokens completes every beam's sequence |
| BeamCells.KeptChildSees | native/jni/org_futo_inputmethod_latin_xlm_LanguageModel.cpp:737-774 | A child that keeps its parent's id sees what the parent saw |
| BeamCells.MovedChildSees | native/jni/org_futo_inputmethod_latin_xlm_LanguageModel.cpp:764-770 | A child that is moved sees what its parent saw if and only if the sequence it moves to held nothing of its own |
| BeamHistory.DecodedTidy | native/jni/org_futo_inputmethod_latin_xlm_LanguageModel.cpp:660-680 | Decoding takes a tidy state, in which every sequence holds exactly the prompt and the tokens on record for it, to a tidy state |
| BeamHistory.WithinIff | native/jni/org_futo_inputmethod_latin_xlm_LanguageModel.cpp:764-770 | In a tidy state a sequence has nothing of its own beside another exactly if its tokens are a beginning of the other's |
| BeamRounds.ChildCleanIff | native/jni/org_futo_inputmethod_latin_xlm_LanguageModel.cpp:660-776 | After a round a child sees exactly the prompt and its own tokens if and only if its pick is safe: the last of its parent, or moving to an id of no live beam that holds a beginning of the parent's tokens |
| BeamRounds.RoundTidyIff | native/jni/org_futo_inputmethod_latin_xlm_LanguageModel.cpp:633-777 | From a tidy state, ended beams included, a round leaves every beam clean if and only if all its picks are safe; then the state is tidy again |
| BeamRounds.AllLiveSafeIff | native/jni/org_futo_inputmethod_latin_xlm_LanguageModel.cpp:737-774 | As long as no beam has ended, picks are safe if and only if no two continue the same beam |
| BeamRounds.DistinctParentsAreSafe | native/jni/org_futo_inputmethod_latin_xlm_LanguageModel.cpp:737-774 | One child for each parent is always safe |
| BeamRuns.CleanRunIff | native/jni/org_futo_inputmethod_latin_xlm_LanguageModel.cpp:633-777 | Over a whole search every beam stays clean in every round if and only if the picks of every round are safe |
| BeamPrompt.InFrontView | native/jni/org_futo_inputmethod_latin_xlm_LanguageModel.cpp:622-777 | In every round every sequence sees the prompt, then only tokens behind it |
| BeamPrompt.CleanedUp | native/jni/org_futo_inputmethod_latin_xlm_LanguageModel.cpp:779-781 | After the final removal sequence 0 is as it was and nobody else holds anything |
| BeamTraces.SearchLeavesPrompt | native/jni/org_futo_inputmethod_latin_xlm_LanguageModel.cpp:549-784 | A search leaves sequence 0 with what it held and tokens behind it; the other sequences are left empty if and only if it does not break off or has at most one beam |
| BeamTraces.SearchCleanIff | native/jni/org_futo_inputmethod_latin_xlm_LanguageModel.cpp:596-777 | From the first choices on, every beam stays clean in every round if and only if the picks of every round are safe |
| BeamTraces.TwoOfOneParent | native/jni/org_futo_inputmethod_latin_xlm_LanguageModel.cpp:744-773 | A search that goes wrong: two beams, both picks from the first; its first child sees the second beam's token next to its parent's |
| BeamTraces.BrokenSearchStays | native/jni/org_futo_inputmethod_latin_xlm_LanguageModel.cpp:690-693 | A search that breaks off in its first round, and the next one from the same prompt, which begins with the old token in sequence 1 |
| BeamLeftovers.PromptStaysIff | native/jni/org_futo_inputmethod_latin_xlm_LanguageModel.cpp:549-784 | Whatever an earlier search has left over: after a search sequence 0 sees exactly its prompt at the prompt's positions if and only if, following the children's moves from the sequences that have left-overs, sequence 0 is not reached |
| BeamLeftovers.LeftOverBrought | native/jni/org_futo_inputmethod_latin_xlm_LanguageModel.cpp:744-773 | The next search after one that broke off, from a prompt one token longer: both picks continue the beam in sequence 1, and its first child takes the old token along to sequence 0 |
| BeamScores.Candidates | native/jni/org_futo_inputmethod_latin_xlm_LanguageModel.cpp:682-731 | The candidates of a round in place: for every beam and every offer one, with the score as it is computed |
| BeamScores.CandidatesProper | native/jni/org_futo_inputmethod_latin_xlm_LanguageModel.cpp:682-731 | No two candidates continue the same beam with the same token |
| BeamScores.ChosenProper | native/jni/org_futo_inputmethod_latin_xlm_LanguageModel.cpp:733-734 | Whichever candidates are kept, none twice, they are picks that a round can take |
| BeamScores.ScoresRightIff | native/jni/org_futo_inputmethod_latin_xlm_LanguageModel.cpp:723-724 | Every candidate has the score of its path if and only if every offer is worth nothing or stands at the place of a beam with its own beam's score |
| BeamScores.SecondBeamScoredWrong | native/jni/org_futo_inputmethod_latin_xlm_LanguageModel.cpp:723-724 | Two beams of different scores: the second one's best candidate gets the score of a continuation of the first |
| BeamRuns.PartedRight | native/jni/org_futo_inputmethod_latin_xlm_LanguageModel.cpp:633-658 | Every output is one ended beam's tokens with its score: all but the last if that ends a correction, all of them if the last ends a word; every ended beam gives one output, the others go on, all in order |
| BeamOutputs.RoundOf | native/jni/org_futo_inputmethod_latin_xlm_LanguageModel.cpp:633-777 | The beams of the next round are the beams picked, each with one token more and the score of its pick; those that do not go on became outputs |
| BeamOutputs.SearchOutputs | native/jni/org_futo_inputmethod_latin_xlm_LanguageModel.cpp:629-784 | Every output of a whole search is traced to the round and the beam that ended with it, in the order of rounds and beams, and every beam that has ended has its own; a search that breaks off has no outputs |
| BeamSearch.Search.constructor | native/jni/org_futo_inputmethod_latin_xlm_LanguageModel.cpp:596-627 | The first choices have distinct ids, and every sequence gets the prompt |
| BeamSearch.Search.FinishBeams | native/jni/org_futo_inputmethod_latin_xlm_LanguageModel.cpp:633-658 | Beams that have ended become outputs, one each: the tokens without a last one that ends a correction, or with a last one that ends a word; the others go on in order; none is lost |
| BeamSearch.Search.MoveBeam | native/jni/org_futo_inputmethod_latin_xlm_LanguageModel.cpp:744-773 | One beam with a shared id is moved to the smallest free one, and the use counts follow |
| BeamSearch.Search.ReassignIds | native/jni/org_futo_inputmethod_latin_xlm_LanguageModel.cpp:737-774 | The loop never fails and does what the specification says to ids and cells |
| BeamSearch.Search.Round | native/jni/org_futo_inputmethod_latin_xlm_LanguageModel.cpp:633-777 | A round in place is the specified one; live beams and outputs together stay n_results, live ids stay distinct and in range; it breaks off exactly on an answer that is not a number |
| Utf8.EncodedSize | native/dicttoolkit/src/utils/utf8_utils.cpp:106-116 | The smallest number of bytes whose range holds the code point; none for negative ones and those above 0x10FFFF |
| Utf8Form.EncodesByTables | native/dicttoolkit/src/utils/utf8_utils.cpp:84-104 | A sequence of code points is encoded as the forms that the table of section 3 of RFC 3629 gives, one after the other, and not at all if one has no row there |
| Utf8Form.DecodesByGroups | native/dicttoolkit/src/utils/utf8_utils.cpp:34-63 | Decoding reads a string group by group from the front, each group as long as its first byte says: nothing if a group has no first byte or says less than needs so many bytes, and no more of a group that is cut short |
| Utf8RoundTrip.DecodeEncoded | native/dicttoolkit/src/utils/utf8_utils.cpp:34-104 | Decoding the encoding of code points gives them back, or is rejected if one is 0x100000 or above |
| Utf8RoundTrip.RoundTripIff | native/dicttoolkit/src/utils/utf8_utils.cpp:27 | The round trip of section 3 of RFC 3629 holds if and only if all code points are below 0x100000 |
| Utf8RoundTrip.FirstRejected | native/dicttoolkit/src/utils/utf8_utils.cpp:27 | The code point 0x100000 is encoded and then rejected |
| Utf8RoundTrip.AcceptedIsShortest | native/dicttoolkit/src/utils/utf8_utils.cpp:53-58 | Whatever is accepted was in shortest form and has no code point of 0x100000 or above |
| Utf8Reencoding.ReencodingIff | native/dicttoolkit/src/utils/utf8_utils.cpp:34-104 | Decoding a byte string and encoding the result gives the string back if and only if it is accepted, no code point is left unfinished, every trailing byte is 10xxxxxx and every first byte of four is 111100xx |
| Utf8Reencoding.MarkerPutRight | native/dicttoolkit/src/utils/utf8_utils.cpp:49-50 | A trailing byte without its marker is accepted and comes back with it |
| Utf8Coder.DecodeUtf8 | native/dicttoolkit/src/utils/utf8_utils.cpp:34-63 | The decoder's loop computes the specified code points, none at all for a rejected input |
| Utf8Coder.EncodeUtf8 | native/dicttoolkit/src/utils/utf8_utils.cpp:84-104 | The encoder's loop computes the specified bytes, none at all if a code point cannot be encoded |
| Utf8Coder.GetSequenceSizeToEncodeCodePoint | native/dicttoolkit/src/utils/utf8_utils.cpp:106-116 | The scan of the table gives the size, -1 if there is none |
| Utf8Coder.GetSequenceSizeByCheckingFirstByte | native/dicttoolkit/src/utils/utf8_utils.cpp:65-73 | The scan of the masks gives the size, -1 if there is none |
| ScalePacking.PackScales | native/jni/src/ggml/ggml-quants.c:1844-1857 | In place: the packed form, with nothing left of what the twelve bytes held before |
| ScalePacking.PackedIsRead | native/jni/src/ggml/ggml-quants.c:1446-1454 | Reading a pair gives back the scale and the min that were packed, for all of six bits |
| ScalePacking.UnpackedIsRead | native/jni/src/ggml/ggml-quants.c:5561-5566 | Masking and shifting four bytes at a time gives, for all twelve bytes, what reading one by one gives |
| ScalePacking.UnpackWords | native/jni/src/ggml/ggml-quants.c:5561-5566 | The four words, overwritten in turn, end as the eight scales and the eight mins |
| LaneDot.LanesAreSum | native/jni/src/ggml/ggml-quants.c:5572-5589 | The eight accumulators together are the plain sum over all elements |
| LaneDot.LaneGrows | native/jni/src/ggml/ggml-quants.c:5575-5576 | No product leaves 16 bits and no accumulator 32 bits, for all 8-bit inputs |
| LaneDot.TakeStrip | native/jni/src/ggml/ggml-quants.c:5575-5577 | One strip of eight elements goes to the eight lanes without overflow |
| LaneDot.Accumulate | native/jni/src/ggml/ggml-quants.c:5570-5589 | The loop's accumulators add up to the sum of scale times quant times 8-bit number |
| LaneDot.SumRuns | native/jni/src/ggml/ggml-quants.c:2354-2360 | The sums of sixteen fit 16 bits and are those of the block |
| LaneDot.SumMins | native/jni/src/ggml/ggml-quants.c:5568-5569 | One product for sixteen elements gives the sum over all elements of min times 8-bit number, without overflow |
| QuantPlanes.PackNibbles | native/jni/src/ggml/ggml-quants.c:1909-1913 | Two 4-bit quants, 32 elements apart, share a byte |
| QuantPlanes.NibblesKept | native/jni/src/ggml/ggml-quants.c:1909-1945 | Every 4-bit quant comes back |
| QuantPlanes.UnpackNibbles | native/jni/src/ggml/ggml-quants.c:5555-5560 | The kernel's unpacking puts every quant at its element |
| QuantPlanes.PackSixes | native/jni/src/ggml/ggml-quants.c:2234-2247 | Low halves and high pairs of 6-bit quants go to their two planes |
| QuantPlanes.SixesKept | native/jni/src/ggml/ggml-quants.c:2234-2290 | Every 6-bit quant comes back from the two planes |
| QuantPlanes.UnpackSixes | native/jni/src/ggml/ggml-quants.c:7039-7049 | The kernel's unpacking puts every quant, less 32, at its element |
| QuantKernels.DotQ4K | native/jni/src/ggml/ggml-quants.c:5551-5593 | One block of the q4_K kernel: the lanes add up to the dot product of the block, and the min sum is the elementwise one |
| QuantKernels.PackedQ4Dot | native/jni/src/ggml/ggml-quants.c:1844-1913 | On a packed block the sums run over all elements: each adds the scale times the quant times the 8-bit number that were packed, and the min times the 8-bit number |
| QuantKernels.DotQ6K | native/jni/src/ggml/ggml-quants.c:7032-7067 | One block of the q6_K kernel: the lanes add up to the dot product of the block |
| QuantKernels.PackedQ6Dot | native/jni/src/ggml/ggml-quants.c:2234-2247 | On a packed block the sum runs over all elements: each adds its scale times its quant less 32 times its 8-bit number |
| HighBits.PlaneBit | native/jni/src/ggml/ggml-quants.c:2049-2060 | A bit of the plane is set exactly when the quant of its run of thirty-two is above the top |
| HighBits.PackFives | native/jni/src/ggml/ggml-quants.c:2045-2064 | The two masks that move up two bits at a time write the plane of the fifth bits and the bytes of the rest |
| HighBits.FivesKept | native/jni/src/ggml/ggml-quants.c:2134-2143 | Every 5-bit quant comes back |
| HighBits.PackThrees | native/jni/src/ggml/ggml-quants.c:1681-1699 | The mask that moves up after every thirty-two elements writes the plane of the third bits while the quants lose theirs in place |
| HighBits.ThreesKept | native/jni/src/ggml/ggml-quants.c:1736-1756 | Every 3-bit quant comes back, less 4 |
| HighWord.PackBlock | native/jni/src/ggml/ggml-quants.c:540-551 | The word of a q5_0 block ends with the fifth bit of quant k at place k |
| HighWord.BlockKept | native/jni/src/ggml/ggml-quants.c:1128-1134 | Every 5-bit quant comes back, though the second half reads its bit four places down |
| QuantLayout.NibbleLies | native/jni/src/ggml/ggml-quants.c:1909-1913 | Where a 4-bit quant lies: the first 32 of 64 elements in the low halves of 32 bytes, the others in the high halves |
| QuantLayout.SixLies | native/jni/src/ggml/ggml-quants.c:2234-2247 | Where the low four and the high two bits of a 6-bit quant lie |
| QuantLayout.FiveLies | native/jni/src/ggml/ggml-quants.c:2045-2064 | Where the low four bits and the fifth bit of a 5-bit quant lie |
| QuantLayout.ThreeLies | native/jni/src/ggml/ggml-quants.c:1681-1699 | Where the low two bits and the third bit of a 3-bit quant lie |
| QuantLayout.ScaleLies | native/jni/src/ggml/ggml-quants.c:1844-1857 | Where the bits of scales and mins lie in the twelve bytes |
| QuantLayout.BlockLies | native/jni/src/ggml/ggml-quants.c:540-551 | Where the low four bits and the fifth bit of a quant of a q5_0 block lie |
| QuantRows.PackNibbleRow | native/jni/src/ggml/ggml-quants.c:1810-1915 | A row of q4_K blocks, packed one after the other: every quant of the row is read back from its block |
| QuantRows.PackFiveRow | native/jni/src/ggml/ggml-quants.c:1975-2115 | The same for a row of q5_K blocks |
| QuantRows.PackSixRow | native/jni/src/ggml/ggml-quants.c:2181-2261 | The same for a row of q6_K blocks |
| QuantRows.PackThreeRow | native/jni/src/ggml/ggml-quants.c:1597-1708 | The same for a row of q3_K blocks, every quant less 4 |
| QuantRows.PackWordRow | native/jni/src/ggml/ggml-quants.c:510-552 | The same for a row of q5_0 blocks |

## Left out

- Allocation over several buffers at once (`ggml_gallocr_alloc_graph_n`): one allocator plans one graph.
- The limit of 256 free blocks is modelled where a release exceeds it; allocating from an empty table, which the source indexes at -1, counts as an abort.
- TensorAllocator.Allocator.New: the buffer is larger than the gap before its first aligned address; in a smaller one the source's subtraction wraps around.
- Assertions about views in `ggml_tallocr_alloc` and buffer callbacks (`init_tensor`, `free_tensor`, `get_alloc_size`) are not modelled; what a tensor occupies is its padded size.
- GraphAllocator.GraphAllocator.AllocGraph: every view is a node of the graph and reads a tensor of its family, tensors have a size, and an explicit order must finish what a node reads before it starts the node.
- Passes 1 to 3 of `sched_split_graph`, which assign backends: every tensor comes with its allocator. Without any node that views nothing, the first split gets allocator 0 for the one left over from the last call.
- Allocation of the splits' copies and copying between devices: a copy is a value of its own.
- BpeVocabulary.InitializePieces: which error a refused list is reported with is not modelled.
- BpeVocabulary.Vocabulary.LongestUserDefined: does not model the limit of 64 results of one prefix search.
- BpeEncoder.SampleEncode: scores are real numbers, so rounding and NaN are not modelled; the random draws of the dropout are arbitrary.
- BpeTrainer.Trainer.Train: fingerprints are taken as injective and symbols as trees; the 16-bit fields of `EncodePos`, the pretokenizer, the required characters appended at the end and `Save` are not modelled; `IsValidSentencePiece` is an arbitrary predicate, and the share of active symbols is 5 percent rounded down.
- BpeTrainer.Trainer.UpdateActiveSymbols: which of equally frequent pairs stay active is left open, as by `partial_sort`.
- OffdeviceDictionary.OffdeviceIntermediateDict.AddWord: after a crash nothing is said; freeing of nodes is left to the garbage collector; code points are unbounded integers.
- CacheCoherence.DecodeCoherent: of a mixed token only the coordinates are kept, not its weights and embedding; decoding always succeeds.
- BeamSearch.Search.Round: which candidates are picked (logits, softmax, sorting, banned words) is a parameter; so are the first choices and whether an answer shows a broken cache.
- PromptDecoder.LanguageModelState.Predict: building the prompt from text is left out.
- The order in which `llama_decode` fills free slots, and its failing when there is none: cells are listed as they were decoded.
- Utf8Coder.DecodeUtf8: signed arithmetic is modelled on 32-bit words, negative code points as words with the top bit set.
- Floating-point scales, the search for them, `nearest_int` and all SIMD branches of the quantisation code; the variants for blocks of 64 elements; q2_K, q4_0, q4_1, q5_1, q8_0 and the packed scales of q3_K.
- LaneDot.Accumulate: one block; the float sums over blocks and lanes are not modelled. The source writes the strips of a group out one after the other where the model has a loop.
- Dictionary toolkit commands, the argument parser, GGUF files, the fine-tuning loop, JNI plumbing and Whisper: they would only add easy members.
