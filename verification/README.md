# Verified models of the compiler's hard cores

A Dafny model of the algorithms in this repository that are hard to get right by inspection, with proofs of
what they promise. `dafny verify dfyconfig.toml` checks all of it.

## What is modelled

**The weight codec** (`ethosu/mlw_codec`). The encoder cuts a stream of nine-bit weights into palette
sections, maps weights to palette indices, separates them from runs of zeros, searches Golomb-Rice parameters
with a Viterbi-like table, and writes slices whose weight and run chunks are interleaved under flow control,
with remainders one chunk late. The decoder reads this back with bookkeeping of its own. The main theorem says
that decoding the concatenation of any number of compressed streams gives the concatenation of the streams.

- `Bits`, `BitBuf`: bits of numbers and bytes; the bit writer and reader as classes over a byte buffer.
- `UnaryCode`, `SliceFormat`: what a slice is and which bits stand for it, independent of either program.
- `DecodeSpec`, `MlwDecode`: the decoder as a function of the remaining bits, and the loops that compute it.
- `Lockstep`: encoder and decoder take the same flow-control decisions; `StreamRoundTrip`: whole streams.
- `GrcParams`, `GrcSearch`, `GrcEncoder`: the parameter search, its tables and its optimality.
- `Sorting`, `Palette`, `PaletteSections`: palettes, their inverse, and the cut into sections.
- `SliceEncoder`, `SectionEncoder`, `MlwEncode`: the loops that write chunks, slices, sections and streams.
- `SliceLength`, `SearchedBits`: how many bits slices take, and that the search's least cost is theirs.
- `SliceLayout`, `GrcPrices`: the stream format and the prices of the search in numbers, apart from the definitions
  that encoder and decoder share.

**Reordering** (same directory). The blocked loop nest that puts a weight tensor into the order of the hardware:
`ReorderSpec` is the nest as a sequence of slots, `ReorderCovers`, `ReorderSources`, `ReorderLength` and
`ReorderPlaces` say what it visits, how long it is and where each weight goes, `Reorder` is the nest as loops.

**The ordered map** (`ethosu/regor/common/ordered_map.hpp`). One node array carries collision chains and a
doubly linked insertion order. `OrderLinks`, `HashChains` and `MapState` say what each relinking step does to
the array, the list and the chains; `OrderedMap` is the class, with array and links updated in place, proved to
act as a sequence of distinct keys with values; `MapRuns` follows whole sequences of operations.

**Cascades** (`ethosu/regor/compiler/cascade_builder.cpp`). The greedy walk over the schedule that decides which
operators share rolling buffers. `CascadeModel` has operators, queries and memory sizes, `CascadeChoice` which
cascade the search settles on, `CascadeRecords` what is recorded and the walk as steps between states,
`CascadeAttributes` all of this in the attributes of operators, schedules and live ranges, `CascadeBuilder` the loops.

**Smaller cores.** `RollingBuffer`: feature map addresses (`ethosu/vela/tensor.py`). `PassDag` and `OpOrder`:
the depth-first searches of `ethosu/vela/nn_graph.py`, over `Paths` and `MaximalDag`. `PoolingScale`: division by
multiplication (`ethosu/vela/scaling.py`). `DflExpectation`: a fixed-point expectation
(`tools/neural_ai_tflite_reference/afu_dfl.py`).

`Folding`, `Results`, `Rounding` and `Sequences` are shared helpers.

## How the model reads the source

- Where a comment and the code differ, the code counts. `mlw_encode.c:918` announces padding to 64 bits; the
  code pads to 128. `mlw_encode.c:448` announces that switching is free where the weight stream has a command
  already; the code makes the switch at position i free if it has one at i + 1.
- Integers are unbounded. The search's sentinel `0x7fffffff` is taken to exceed every cost; how large costs get
  is proved (`GrcSearch.WeightCostsAreLinear`, `GrcSearch.RunCostsAreLinear`).
- The decoder's assertions are the outcome `Err(Malformed)`; reading past the end is `Err(Underrun)`.
- Long loop bodies are split into methods. Loops are kept, with three regroupings that visit the same steps: the
  search's last backward step and the first zero run of a section stand outside their loops, and the advance of
  the two slice cursors comes before the slice is written.
- An iterator of the ordered map is a slot index; the place of the slot in the order is passed as a ghost.
  Filling a slot and linking it into its chain is one step.
- Passes, operators and tensors are numbers, and their attributes are looked up by number. A list of
  predecessors, producers or consumers is a sequence.
- What the schedule, the live ranges and the architecture answer to the cascade builder is given as records
  and functions.

## Model

| member | source | states |
|---|---|---|
| BitBuf.Writer.Put | ethosu/mlw_codec/mlw_encode.c:539-557 | Writing appends exactly the low bits of the value, least significant first, and leaves all earlier bits alone, whatever the buffer held. |
| BitBuf.Reader.Get | ethosu/mlw_codec/mlw_decode.c:51-73 | Reading takes the next bits as a number, or reports an underrun exactly when too few are left. |
| Bits.ValueOfBitsOf | ethosu/mlw_codec/mlw_encode.c:548-557 | A value that fits its field is what reading the field gives back. |
| UnaryCode.ParsePadded | ethosu/mlw_codec/mlw_decode.c:224-241 | Any prefix of a unary symbol stream padded with zeros yields the first quotients, then zeros; all quotients are there if and only if the prefix holds all symbols. |
| UnaryCode.FromUnaryInverts | ethosu/mlw_codec/mlw_encode.c:648-658 | The two unary words of a chunk determine its symbols. |
| SliceEncoder.WeightChunk | ethosu/mlw_codec/mlw_encode.c:627-665 | A weight chunk's words are the next symbols of the code stream, continuing an unfinished code and padding at the end; remainders are those of the weights finished. |
| SliceEncoder.RunChunk | ethosu/mlw_codec/mlw_encode.c:667-694 | The same for zero runs. |
| SliceEncoder.ChunkSent | ethosu/mlw_codec/mlw_encode.c:635-664 | The k-th chunk sent is the k-th window of the symbol stream, and the encoder's position counts the values in it without padding. |
| SliceEncoder.PutNextRound | ethosu/mlw_codec/mlw_encode.c:623-722 | One turn of the chunk loop enables weights and runs as the slice format says and writes the fields of that round, with the remainders of the round before. |
| SliceEncoder.EncodeSlice | ethosu/mlw_codec/mlw_encode.c:560-725 | A slice is written as exactly the bits that stand for it, header, palette and body. |
| Bits.BitsOfAt | ethosu/mlw_codec/mlw_encode.c:548-557 | Bit i of a field is bit i of the value, low bit first. |
| SliceLayout.ByteLayout | ethosu/mlw_codec/mlw_encode.c:539-546 | Bit 8 k + j of the stream is bit j of byte k. |
| SliceLayout.HeaderLayout | ethosu/mlw_codec/mlw_encode.c:591-602 | A slice starts with ZDIV in 3 bits, 0 to 3 or 6 without zero runs, SLICELEN in 15, WDIV in 3, 0 to 5 or 7 for uncompressed, WTRUNC and NEWPAL in one bit each. |
| SliceLayout.SetupLayout | ethosu/mlw_codec/mlw_encode.c:603-610 | A palette has DIROFS in 5 bits, PALSIZE in 5, one less than its entries, PALBITS in 3, two less than the width of an entry, and the entries. |
| SliceLayout.EntryLayout | ethosu/mlw_codec/mlw_encode.c:607-609 | The entries come one after the other in PALBITS + 2 bits each. |
| SliceLayout.UncompressedLayout | ethosu/mlw_codec/mlw_decode.c:155-166 | Uncompressed weights take the bits of an entry without a palette, and the fewest that tell its entries apart with one. |
| SliceLayout.EntryMeaning | ethosu/mlw_codec/mlw_decode.c:282-290 | An entry 2 k is the weight k and 2 k + 1 the weight -k; indices behind the palette stand for such a value with the direct offset. |
| SliceLayout.WeightSymbolsLayout | ethosu/mlw_codec/mlw_encode.c:635-657 | A weight with quotient q is q / 2 twos and a last symbol q % 2; truncated it is the symbol q, uncompressed the symbol 0. |
| SliceLayout.RunSymbolsLayout | ethosu/mlw_codec/mlw_encode.c:672-686 | A run with quotient q is q ones and a zero. |
| SliceLayout.WeightsDone | ethosu/mlw_codec/mlw_encode.c:627-665 | After k chunks of 12 symbols, or 8 if uncompressed in more than 5 bits, those weights are done whose code ends in them. |
| SliceLayout.RunsDone | ethosu/mlw_codec/mlw_encode.c:667-694 | The same for runs, in chunks of 12, or 8 for divisors from 2^3 on. |
| SliceLayout.EnabledLayout | ethosu/mlw_codec/mlw_encode.c:624-626 | Weights are sent while they are less than 8 ahead of the runs, runs while they are not ahead of the weights. |
| SliceLayout.RoundLayout | ethosu/mlw_codec/mlw_encode.c:696-702 | A round starts with 12 first bits of weight symbols, unless uncompressed, and 12 or 8 run symbols. |
| SliceLayout.RoundEnds | ethosu/mlw_codec/mlw_encode.c:703-722 | Then come the second bits of the weight symbols, and the remainders of what the round before has ended, weights first. |
| UnaryCode.Unary1Snoc | ethosu/mlw_codec/mlw_encode.c:648-658 | Each symbol above zero has a second bit, which says whether it is two. |
| SliceLayout.RemainderLayout | ethosu/mlw_codec/mlw_encode.c:706-715 | Remainders are the low bits of the values, low bit first, one after the other. |
| SliceLayout.SliceMeaning | ethosu/mlw_codec/mlw_decode.c:264-299 | Each weight comes behind the weights and runs before it and is followed by its run; a slice with a palette starts with a run of its own. |
| SliceLayout.StreamLayout | ethosu/mlw_codec/mlw_encode.c:909-922 | Behind the slices there are three ones, and ones up to the next multiple of 128 bits. |
| SliceLayout.RefusesHeader | ethosu/mlw_codec/mlw_decode.c:120-138 | Refused are ZDIV 4 and 5, WDIV 6, a first slice without a palette, and a slice without a palette that starts or stops using zero runs. |
| SliceLayout.RefusesIndex | ethosu/mlw_codec/mlw_decode.c:281 | So is a slice if and only if it has a weight index of 512 or more. |
| Lockstep.SameEnables | ethosu/mlw_codec/mlw_decode.c:190-193 | The decoder, which counts padding symbols, takes the enable decisions of the encoder, which does not. |
| Lockstep.RoundLockstep | ethosu/mlw_codec/mlw_decode.c:189-262 | Reading the fields of one round brings the decoder from the state after k chunks to the state after the next, and to the same bit. |
| Lockstep.BodyLockstep | ethosu/mlw_codec/mlw_decode.c:172-262 | From any round on, the body of a slice decodes to all its weights and runs and both ends stop at the same bit. |
| Lockstep.NothingLeft | ethosu/mlw_codec/mlw_encode.c:623-722 | Flow control never locks up: neither stream is enabled if and only if both are finished. |
| Lockstep.SetupReads | ethosu/mlw_codec/mlw_decode.c:140-149 | DIROFS, PALSIZE, PALBITS and the palette survive their field widths. |
| Lockstep.HeaderReads | ethosu/mlw_codec/mlw_decode.c:122-125 | The fixed header fields survive their field widths. |
| Lockstep.SliceReads | ethosu/mlw_codec/mlw_decode.c:103-306 | A valid slice decodes to the weights it stands for, whatever follows it. |
| StreamRoundTrip.SkipWholeBytes | ethosu/mlw_codec/mlw_decode.c:105-119 | The decoder consumes end marker, byte alignment and padding of ones exactly, at the end of input or up to the next stream. |
| StreamRoundTrip.DecodeConcatenation | ethosu/mlw_codec/mlw_decode.c:81-312 | Decoding the concatenation of encoded streams gives the concatenation of their weights. |
| StreamRoundTrip.DecodeOne | ethosu/mlw_codec/mlw_decode.c:81-312 | Decoding one encoded stream gives its weights. |
| MlwDecode.ReadChunks | ethosu/mlw_codec/mlw_decode.c:189-262 | One turn of the decoder's chunk loop computes the round of the specification, underruns included. |
| MlwDecode.MlwDecode | ethosu/mlw_codec/mlw_decode.c:81-312 | The decoder's loops compute the specification on every input, malformed ones included; a stream that starts with 4 or 5 is refused. |
| MlwEncode.MlwEncode | ethosu/mlw_codec/mlw_encode.c:872-935 | Weights outside -255..255 are refused, all others compressed to an encoding of the stream that decodes to it, has a multiple of 16 bytes, and starts with ZDIV 0 to 3 or 6 and a palette. |
| MlwEncode.PutTrailer | ethosu/mlw_codec/mlw_encode.c:909-922 | The stream ends with the marker and ones up to a multiple of 128 bits. |
| GrcPrices.ModeInNumbers | ethosu/mlw_codec/mlw_encode.c:393-395 | Configurations 0 to 5 have that divisor, 6 to 11 are truncated with divisors 0 to 5, 12 is uncompressed. |
| GrcPrices.PriceInNumbers | ethosu/mlw_codec/mlw_encode.c:456-463 | A value with quotient q and divisor 2^d costs q + 1 + d bits, truncated 1 + d or 2 + d, and 10000 if it cannot be coded; uncompressed it costs the price given. |
| GrcPrices.ChargeInNumbers | ethosu/mlw_codec/mlw_encode.c:446-474 | A value adds its price, and 40 if its configuration is another than that of the value before, unless the position after its own is in the list of existing ones. |
| GrcSearch.RowIsLeast | ethosu/mlw_codec/mlw_encode.c:434-474 | No assignment of parameters to a prefix is cheaper than its table entry. |
| GrcSearch.WayCost | ethosu/mlw_codec/mlw_encode.c:486-509 | The cost of the path that is traced back is its table entry. |
| GrcSearch.BestWayIsOptimal | ethosu/mlw_codec/mlw_encode.c:403-519 | The traced path attains the least cost, in coding bits and switches, of all assignments. |
| GrcSearch.BestWayCodes | ethosu/mlw_codec/mlw_encode.c:459-462 | For weight indices below 512 the best path can code every value, and never uses uncompressed mode when that is priced at 100 bits. |
| GrcSearch.WeightCostsAreLinear | ethosu/mlw_codec/mlw_encode.c:438-473 | After i weight indices the best cost is at most 61 i and no entry above 61 i + 10040. |
| GrcSearch.RunCostsAreLinear | ethosu/mlw_codec/mlw_encode.c:438-473 | For runs the best cost is at most their sum and number, and no entry more than 43 above. |
| GrcEncoder.SearchGrcParams | ethosu/mlw_codec/mlw_encode.c:403-519 | The returned positions are positive, increase strictly and end at the number of values; with the configurations they describe an assignment of exactly the reported bits, the sum of its charges, which is least of all assignments, and codable for weights. |
| Palettes.CalcFreq | ethosu/mlw_codec/mlw_encode.c:206-212 | The table counts each weight's occurrences. |
| Palettes.Palette.Create | ethosu/mlw_codec/mlw_encode.c:222-323 | Every used value is in the palette or directly codable, PALSIZE is never 1, no value left out is more frequent than an entry, and the direct offset is the first used value below 31. |
| Palettes.UsedInNumbers | ethosu/mlw_codec/mlw_encode.c:231-248 | The values 2 k and 2 k + 1 are coded as indices if the weights k and -k occur, but not zero in runs, and never minus zero. |
| Palettes.ChosenInNumbers | ethosu/mlw_codec/mlw_encode.c:267-322 | A palette is used if and only if its entries cover more than half of the coded weights. The entries are all used values if those are at most 32, else the 32 most frequent or as many as leave room below 512; PALBITS is the least width. |
| Palettes.Palette.CreateInverse | ethosu/mlw_codec/mlw_encode.c:359-381 | Every weight maps to a palette entry that stands for it, or else to its direct index. |
| Palettes.Palette.Find | ethosu/mlw_codec/mlw_encode.c:328-357 | Zero runs are used if and only if zeros are more than four times as frequent as any other weight, and the palette and its inverse code the section. |
| Palettes.IndexDecodes | ethosu/mlw_codec/mlw_decode.c:280-290 | The index of a coded weight is in 0..511, the decoder's rule maps it back to the weight, and it fits uncompressed mode where that is allowed. |
| Palettes.ServesCodes | ethosu/mlw_codec/mlw_encode.c:783-784 | So it is for all weights of a section that are coded as indices. |
| PaletteSections.SearchPaletteSections | ethosu/mlw_codec/mlw_encode.c:80-203 | Restart positions begin with 0, increase strictly and stay below the size. |
| SectionEncoder.SplitSection | ethosu/mlw_codec/mlw_encode.c:760-787 | A section yields at least one weight and, with zero runs, one run more than weights; interleaved they are the section. There are no more runs than values, which is the size of the scratch array, if and only if there is a zero and the section is not one zero alone. |
| SectionEncoder.PlanWeights | ethosu/mlw_codec/mlw_encode.c:738-799 | Every weight can be coded in the configuration of its part. |
| SectionEncoder.SliceEnd | ethosu/mlw_codec/mlw_encode.c:815-828 | A slice has 1 to 32767 weights and ends where the weight or run part it lies in does, or the weights, or after 32767, whichever is first. |
| SectionEncoder.EncodeSection | ethosu/mlw_codec/mlw_encode.c:728-863 | A section is written as valid slices of 1 to 32767 weights that start with a palette and expand to it. An uncompressed weight is priced at its width, or at 100 where that mode is not allowed, and switches of the runs are free where the weights switch. The codes of the weights in them take the least cost the search found, less its switches; those of the runs take what the search charges, for runs at a switch in the configuration before. |
| SliceLength.BodyLength | ethosu/mlw_codec/mlw_encode.c:623-722 | From any round on, the rest of a slice takes the symbols and remainders that have not been sent, with the padding. |
| SliceLength.LengthOfSlice | ethosu/mlw_codec/mlw_encode.c:560-725 | A slice takes the bits of the codes of its weights and runs one by one, its header, and the padding of the last chunk of each stream. |
| SliceLength.CodesInNumbers | ethosu/mlw_codec/mlw_encode.c:635-686 | A code takes its quotient and one bits, truncated at most two, and its remainder. |
| SliceLength.OverheadInNumbers | ethosu/mlw_codec/mlw_encode.c:591-722 | The overhead is 23 bits, 13 and the entries of a palette, and less than a chunk of padding of 12 or 8 symbols for either stream. |
| SearchedBits.WeightPrice | ethosu/mlw_codec/mlw_encode.c:456-464 | For a weight index that can be coded the search charges as many bits as its code takes. |
| SearchedBits.RunsOfSection | ethosu/mlw_codec/mlw_encode.c:806-852 | The runs of a slice are in the section of the search that the slice is in, all but the one at the section's end. |
| ReorderCovers.VisitsOnce | ethosu/mlw_codec/mlw_encode.c:1004-1107 | When the depths fit, the traversal visits each element of the tensor once. |
| ReorderCovers.UnfitDepths | ethosu/mlw_codec/mlw_encode.c:1004-1107 | When they do not, it returns an element that is not visited exactly once. |
| ReorderCovers.CoversExactlyOnce | ethosu/mlw_codec/mlw_encode.c:1004-1107 | For a non-empty tensor every element is visited exactly once if and only if on each depth axis there is one block or the ublock depth divides the block depth, and the input depth is 1 if depthwise. |
| ReorderSources.SourcesAreHeld | ethosu/mlw_codec/mlw_encode.c:1072-1086 | The traversal never reads outside the tensor. |
| ReorderLength.TraversalLength | ethosu/mlw_codec/mlw_encode.c:1006-1112 | The number of weights put out is a closed form in shape and blocking, from full and partial blocks. |
| ReorderPlaces.WeightPlace | ethosu/mlw_codec/mlw_encode.c:1004-1107 | Where each weight is: its place counts, for each loop from the output blocks in to the input ublock elements, the turns before it times what they put out, with input blocks of 16 or 32. |
| ReorderPlaces.ElementsInNumbers | ethosu/mlw_codec/mlw_encode.c:1032-1049 | Subkernels are padded to even numbers of elements for part-kernel and 16 bits, and to multiples of 4 for part-kernel and 8 bits and for depthwise. |
| ReorderPlaces.LengthsInNumbers | ethosu/mlw_codec/mlw_encode.c:1006-1061 | The sizes that lengths and places are made of, as full and partial blocks. |
| Reorder.WeightInBuffer | ethosu/mlw_codec/mlw_encode.c:949-959 | A weight is read at the sum of its four coordinates times the strides. |
| Reorder.Reordered | ethosu/mlw_codec/mlw_encode.c:969-1116 | The loops put out what the traversal fetches. |
| Reorder.OthersAreZero | ethosu/mlw_codec/mlw_encode.c:1079-1086 | A position that is the source of no element is padding and holds zero. |
| Reorder.EveryWeightOnce | ethosu/mlw_codec/mlw_encode.c:1004-1107 | When the depths fit, each weight is at exactly one position of the output, and every position of no weight holds zero. |
| Reorder.MlwReorderEncode | ethosu/mlw_codec/mlw_encode.c:1121-1167 | What is compressed decodes to the reordered tensor; refused are empty and too long traversals and weights out of range; the padded length is the closed form. |
| OrderLinks.UnlinkThreads | ethosu/regor/common/ordered_map.hpp:900-924 | Unlinking takes exactly one node out of the list. |
| OrderLinks.LinkThreads | ethosu/regor/common/ordered_map.hpp:926-946 | Informing the neighbours of a node puts it into the list between them. |
| OrderLinks.MoveThreads | ethosu/regor/common/ordered_map.hpp:948-972 | Reordering moves one node next to another and keeps the rest in order. |
| OrderLinks.SwapThreads | ethosu/regor/common/ordered_map.hpp:974-1007 | Swapping exchanges two nodes in the list, neighbours included. |
| OrderLinks.SelfSwap | ethosu/regor/common/ordered_map.hpp:974-1007 | Swapping a node with itself changes nothing. |
| HashChains.ChainExtends | ethosu/regor/common/ordered_map.hpp:829-839 | Appending a free overflow slot keeps every used slot in exactly one chain. |
| HashChains.ChainShrinks | ethosu/regor/common/ordered_map.hpp:864-869 | So does cutting a slot out of the middle or end of its chain. |
| HashChains.ChainPulls | ethosu/regor/common/ordered_map.hpp:876-886 | So does moving the second node of a chain into the bucket. |
| MapState.PullFreeKeepsWired | ethosu/regor/common/ordered_map.hpp:858-898 | Erasing a bucket with a successor keeps list, chains and keys together, although the successor changes its slot, and removes just that pair. |
| MapState.SlotsBelow | ethosu/regor/common/ordered_map.hpp:817-836 | A full overflow region bounds its size by the number of items. |
| OrderedMaps.HashtableSize | ethosu/regor/common/ordered_map.hpp:1097-1126 | The table size is 2 or the largest prime of the list up to half the capacity asked for, and the capacity leaves as much room again. |
| OrderedMaps.OrderedMap.KeysAreDistinct | ethosu/regor/common/ordered_map.hpp:262-299 | A valid map holds each key once. |
| OrderedMaps.OrderedMap.FindNode | ethosu/regor/common/ordered_map.hpp:1009-1037 | The chain walk ends, and finds exactly the keys in the map, with the slot before in the chain. |
| OrderedMaps.OrderedMap.Find | ethosu/regor/common/ordered_map.hpp:629-638 | Find gives the place of a key in the order, or the end exactly if there is none. |
| OrderedMaps.OrderedMap.Keys | ethosu/regor/common/ordered_map.hpp:463-478 | The keys come in insertion order. |
| OrderedMaps.OrderedMap.FindFreeIndex | ethosu/regor/common/ordered_map.hpp:1076-1095 | The search from the watermark finds a free overflow slot, unless there is none. |
| OrderedMaps.OrderedMap.FullMeansMany | ethosu/regor/common/ordered_map.hpp:817-836 | When a bucket and the whole overflow region are used, the capacity is below twice the item count; this ends the recursion of resizing for every hash function. |
| OrderedMaps.OrderedMap.AllocateNode | ethosu/regor/common/ordered_map.hpp:812-856 | Allocation appends the key, resizing as often as it takes, and ends. |
| OrderedMaps.OrderedMap.MoveItems | ethosu/regor/common/ordered_map.hpp:782-802 | Moving to a larger store with the same table keeps the contents. |
| OrderedMaps.OrderedMap.Rehashed | ethosu/regor/common/ordered_map.hpp:752-768 | The copy in a table of another size has the same contents in the same order. |
| OrderedMaps.OrderedMap.Resize | ethosu/regor/common/ordered_map.hpp:770-810 | Resizing keeps the contents, gives at least the capacity asked for, and never less than before. |
| OrderedMaps.OrderedMap.DeallocateNode | ethosu/regor/common/ordered_map.hpp:858-898 | Removes exactly the pair at the node's place. |
| OrderedMaps.OrderedMap.ReorderNode | ethosu/regor/common/ordered_map.hpp:948-972 | Moves the pair next to another. |
| OrderedMaps.OrderedMap.SwapNodeOrder | ethosu/regor/common/ordered_map.hpp:974-1007 | Exchanges two pairs in the order. |
| OrderedMaps.OrderedMap.Insert | ethosu/regor/common/ordered_map.hpp:262-282 | Appends a new key with its value. |
| OrderedMaps.OrderedMap.GetOrInsert | ethosu/regor/common/ordered_map.hpp:385-404 | Gives the value of a key, or appends it with the default value. |
| OrderedMaps.OrderedMap.Reinsert | ethosu/regor/common/ordered_map.hpp:301-340 | Moves a key to the end with its new value, or appends it. |
| OrderedMaps.OrderedMap.Erase | ethosu/regor/common/ordered_map.hpp:683-700 | Removes a key and counts one, or changes nothing and counts zero. |
| OrderedMaps.OrderedMap.EraseAt | ethosu/regor/common/ordered_map.hpp:707-718 | Removes the pair at an iterator. The iterator returned is at the next pair if and only if that was not the erased node's chain successor, which moves into its slot; otherwise it is at a free slot. |
| MapState.SavedSlotIsFree | ethosu/regor/common/ordered_map.hpp:707-718 | It does happen: two keys of one bucket, of which the first is erased. |
| OrderedMaps.OrderedMap.Replace | ethosu/regor/common/ordered_map.hpp:372-383 | Puts a new key and value at the place of an old key. |
| OrderedMaps.OrderedMap.ReorderAfter | ethosu/regor/common/ordered_map.hpp:662-667 | Moves a key behind a position. |
| OrderedMaps.OrderedMap.ReorderBefore | ethosu/regor/common/ordered_map.hpp:669-681 | Moves a key in front of a position, or to the end. |
| OrderedMaps.OrderedMap.SwapOrder | ethosu/regor/common/ordered_map.hpp:720-732 | Exchanges two pairs, equal and adjacent positions included. |
| MapRuns.Run | ethosu/regor/common/ordered_map.hpp:262-400 | Any sequence of operations leaves the map with what the operations make of a plain sequence of distinct pairs. |
| MapRuns.StepWithoutKey | ethosu/regor/common/ordered_map.hpp:262-404 | Inserting, accessing and reinserting a key that is not there append it; erasing it changes nothing. |
| MapRuns.StepWithKey | ethosu/regor/common/ordered_map.hpp:301-404 | Where the pairs are after reinserting, erasing, replacing or moving a key to the end. |
| MapRuns.StepWithKeys | ethosu/regor/common/ordered_map.hpp:662-732 | Where the pairs are after swapping two keys or moving one behind or in front of the other. |
| MapRuns.RunInSteps | ethosu/regor/common/ordered_map.hpp:262-400 | A run is its first operation and then the others. |
| MapRuns.EraseUndoesInsert | ethosu/regor/common/ordered_map.hpp:683-700 | Erasing a key just inserted restores the contents. |
| MapRuns.ReplaceBack | ethosu/regor/common/ordered_map.hpp:372-383 | Replacing a key and replacing it back restores contents and order. |
| CascadeBuilding.BufferMap.GetBuffer | ethosu/regor/compiler/cascade_builder.cpp:52-105 | The remembered buffer is the one a fresh computation gives, with producer and consumer or without one of them. |
| CascadeBuilding.CascadeBuilder.CanJoin | ethosu/regor/compiler/cascade_builder.cpp:234-263 | An operator joins exactly if it is the next, the only consumer, cascadable, with fitting feature maps, and without a cost. |
| CascadeBuilding.CascadeBuilder.Accumulate | ethosu/regor/compiler/cascade_builder.cpp:270-301 | The running sums are the sizes of the chain so far, with shared buffers left out. |
| CascadeBuilding.CascadeBuilder.Propose | ethosu/regor/compiler/cascade_builder.cpp:168-360 | The search goes exactly as far as its end conditions allow and returns the best cascade among those it reached, not the longest explored. |
| CascadeChoice.ReachesNext | ethosu/regor/compiler/cascade_builder.cpp:234-360 | It reaches one operator more if and only if that can join and the cascade has not come to its end. |
| CascadeChoice.SpilledIsLongest | ethosu/regor/compiler/cascade_builder.cpp:307-329 | A spilled cascade takes in every operator reached but the one it ends with. |
| CascadeChoice.LongerAreNoBetter | ethosu/regor/compiler/cascade_builder.cpp:330-356 | No longer cascade that was reached uses less memory than the best, or than its last operator on its own. |
| CascadeChoice.BestIsChosen | ethosu/regor/compiler/cascade_builder.cpp:307-356 | A spilled cascade fits the limit in force; any other uses less memory than one of its operators would alone. |
| CascadeBuilding.CascadeBuilder.Commit | ethosu/regor/compiler/cascade_builder.cpp:362-386 | Exactly the operators kept get their costs, with the output of each shared buffer aliased to its input, and buffers for all but the first. |
| CascadeBuilding.CascadeBuilder.BuildCascades | ethosu/regor/compiler/cascade_builder.cpp:121-414 | The walk ends although the cursor stays put after a cascade; it follows the steps of the specification; every NPU operator has a cost; each operator with one is in a recorded cascade or on its own; memory stays within the peak, which equals the limit when all spill. |
| CascadeRecords.CascadeIsARun | ethosu/regor/compiler/cascade_builder.cpp:362-394 | A recorded cascade is a run of consecutive operators, each but the last with the next as sole consumer, and has buffers for exactly those behind the first. |
| CascadeRecords.CascadesAreDisjoint | ethosu/regor/compiler/cascade_builder.cpp:362-394 | No operator is in two recorded cascades. |
| CascadeRecords.FootprintIsRecorded | ethosu/regor/compiler/cascade_builder.cpp:286-356 | The recorded local size is the sum over exactly the recorded operators of weight buffers and unshared recorded buffers, with the staged end tensors unless spilled. |
| CascadeRecords.SharedIsRecorded | ethosu/regor/compiler/cascade_builder.cpp:371-386 | The buffers discounted in that sum are exactly those aliased in the recorded costs. |
| CascadeRecords.WalkIsDetermined | ethosu/regor/compiler/cascade_builder.cpp:131-413 | Operators, schedule answers and limit determine costs, cascades and peak at every step. |
| CascadeAttributes.ReuseInAttributes | ethosu/regor/compiler/cascade_builder.cpp:467-498 | An operator may write over its input if and only if it is no table lookup under selective spilling, one-to-one, striped equally on both sides, allowed to by the live ranges, and the buffers are equal in shape and size. |
| CascadeAttributes.CascadableInAttributes | ethosu/regor/compiler/cascade_builder.cpp:417-464 | When an operator may be in a cascade, in its attributes. |
| CascadeAttributes.LinkInAttributes | ethosu/regor/compiler/cascade_builder.cpp:236-263 | When the next operator can follow, in the attributes of both. |
| CascadeAttributes.BufferInAttributes | ethosu/regor/compiler/cascade_builder.cpp:61-101 | The buffer between two operators, or at an end without one, in their feature maps and stripes. |
| CascadeAttributes.SpillsInAttributes | ethosu/regor/compiler/cascade_builder.cpp:151-154 | Whether a cascade is spilled, in the attributes of its first operator. |
| CascadeAttributes.BuffersInAttributes | ethosu/regor/compiler/cascade_builder.cpp:286-293 | Each operator adds its weight buffer, and the buffer before it unless its producer may write over its input. |
| CascadeAttributes.CascadeInAttributes | ethosu/regor/compiler/cascade_builder.cpp:188-202 | The size of a cascade is that of its buffers, of its ends in staging and of what is used beside it; only the first if spilled. |
| CascadeAttributes.BesideInAttributes | ethosu/regor/compiler/cascade_builder.cpp:204-232 | What is used beside a cascade is the most any operator uses, less the first input while that is live, unless the operator works in its live range. |
| CascadeAttributes.WholeInAttributes | ethosu/regor/compiler/cascade_builder.cpp:309-317 | What an operator uses with its whole feature maps in staging. |
| CascadeAttributes.KeptInAttributes | ethosu/regor/compiler/cascade_builder.cpp:307-346 | When a longer cascade becomes the best, in sizes and the limit. |
| CascadeAttributes.EndsInAttributes | ethosu/regor/compiler/cascade_builder.cpp:318-356 | When the search ends, in sizes and the limit. |
| CascadeAttributes.StepInAttributes | ethosu/regor/compiler/cascade_builder.cpp:131-413 | What a step of the walk does: it passes over, leaves alone with the fallback cost, or records a cascade. |
| CascadeAttributes.ReachesFirst | ethosu/regor/compiler/cascade_builder.cpp:149-176 | The search starts with any operator that has a schedule and no cost yet. |
| CascadeAttributes.StepIsBest | ethosu/regor/compiler/cascade_builder.cpp:234-413 | At a cascadable operator the search takes in as many as it can, and the best cascade of those is recorded, or the operator is left alone; no other operator is touched. |
| CascadeAttributes.OwnInAttributes | ethosu/regor/compiler/cascade_builder.cpp:157-166 | An operator in no cascade has its fallback cost, and the peak covers what it uses unless spilled. |
| CascadeAttributes.RecordedSize | ethosu/regor/compiler/cascade_builder.cpp:389-399 | A recorded size fits the peak, and unless spilled it is below what some member uses on its own. |
| CascadeAttributes.RecordedBuffer | ethosu/regor/compiler/cascade_builder.cpp:377-380 | A recorded buffer is a rolling one between the stripes of producer and consumer, which is cascadable and the sole consumer. |
| CascadeAttributes.SharingInAttributes | ethosu/regor/compiler/cascade_builder.cpp:371-386 | The recorded cost of an operator is the reference cost, with its output aliased to its input if and only if the attributes and the recorded buffers on both sides allow it. |
| CascadeAttributes.RollingInAttributes | ethosu/regor/compiler/cascade_builder.cpp:286-293 | A recorded buffer adds its size to the footprint if and only if the output of its producer is not aliased. |
| CascadeAttributes.FootprintInAttributes | ethosu/regor/compiler/cascade_builder.cpp:286-356 | The recorded footprint is the sum of weight buffers, of those parts, and of the ends in staging unless spilled. |
| RollingBuffer.GetStrides | ethosu/vela/tensor.py:698-739 | The loop over the axes gives the strides in closed form for both formats, from the storage shape or the operator's. |
| RollingBuffer.LayoutInNumbers | ethosu/vela/tensor.py:648-668 | The shape in storage is the operator's, rounded up, for standard feature maps, and the tensor's own with ones in front for others. |
| RollingBuffer.AddressIsOfLayout | ethosu/vela/tensor.py:828-845 | A storage shape of fewer than four axes, even none, addresses like the one filled up with ones in front. |
| RollingBuffer.AddressesForRollingBuffer | ethosu/vela/tensor.py:652-696 | Without a storage shape there is one tile of one element; a box that crosses the buffer's width is refused; otherwise one or two tiles with the strides give the address of every element of a box no taller than the buffer. |
| RollingBuffer.StandardIsStored | ethosu/vela/tensor.py:826-848 | In a standard feature map distinct elements of the operator's shape do not overlap and lie inside the storage. |
| RollingBuffer.StandardIsOneTile | ethosu/vela/tensor.py:664-696 | A box of a standard feature map is one tile. |
| RollingBuffer.TileReproduces | ethosu/vela/tensor.py:670-690 | A row is addressed from the first tile before the crossing row and from the second from there on. |
| RollingBuffer.AddressIsIndex | ethosu/vela/tensor.py:805-848 | With channels padded to bricks an address is the start plus the element size times a row-major or brick index. |
| RollingBuffer.WindowDistinct | ethosu/vela/tensor.py:839-845 | Distinct elements within a window of as many rows as the buffer has do not overlap. |
| RollingBuffer.AddressInBounds | ethosu/vela/tensor.py:847-848 | Every element lies inside the storage. |
| RollingBuffer.BoxEndsInBounds | ethosu/vela/tensor.py:821-824 | The end address of a box lies inside the storage, and past its start. |
| PassDag.PassGraph.BuildPassDagPredecessors | ethosu/vela/nn_graph.py:268-298 | Links kept are predecessors in their order, the result is acyclic, and no link dropped could be added without closing a cycle; passes that reach no sink get none, and an acyclic graph keeps every link on passes that do. |
| PassDag.KeptSubset | ethosu/vela/nn_graph.py:288-291 | What is kept is among the predecessors. |
| OpOrder.Subgraph.GetAllOps | ethosu/vela/nn_graph.py:335-359 | Lists exactly the operators reached from the outputs, each once, and in an acyclic graph after all producers of its inputs; what the first k outputs need comes before all others. |
| Paths.OrderedIsAcyclic | ethosu/vela/nn_graph.py:287-294 | A graph whose links all go back in one order has no cycle. |
| PoolingScale.PoolingDivides | ethosu/vela/scaling.py:60-68 | Multiplying by the scale and shifting is division by the number of elements, for all accumulators below 2^(31 - rescale_bits). |
| PoolingScale.ShiftFits | ethosu/vela/scaling.py:61-66 | The assertion on the shift fails if and only if there are more than 2^(32 + rescale_bits) elements, or, from 54 bits on, so many that their number rounds up to that; negative shifts and float overflow have such bounds too. |
| PoolingScale.FloatLimit | ethosu/vela/scaling.py:61 | A number overflows a float exactly from 2^1024 - 2^970 on. |
| PoolingScale.ScaleInNumbers | ethosu/vela/scaling.py:61-64 | The shift is 31 - rescale_bits + e and the scale (2^shift + 2^e) over the number of elements, with the exponent e that frexp gives. |
| PoolingScale.ScaleFitsExactly | ethosu/vela/scaling.py:63 | A scale that is returned fits 32 bits if and only if rescale_bits is positive, or zero and the kernel does not have 0x80000001 elements. |
| PoolingScale.ScaleOverflows | ethosu/vela/scaling.py:63 | For 0x80000001 elements and no rescale bits the scale is 2^32. |
| DflExpectation.SumsOf | tools/neural_ai_tflite_reference/afu_dfl.py:62-65 | Total and weighted sum of a row are those of its 16 table entries, each weighted by its bin. |
| DflExpectation.ExpectationIsNear | tools/neural_ai_tflite_reference/afu_dfl.py:50-71 | For every row of 16 logits and valid table the result differs from 256 times the weighted mean of the bins by less than 8, and the clamp at 65535 does not act. |
| DflExpectation.ExpectationInNumbers | tools/neural_ai_tflite_reference/afu_dfl.py:66-71 | The result exactly: the product with a 37-bit reciprocal of the scaled total, shifted and rounded. |
| DflExpectation.RefusesInputs | tools/neural_ai_tflite_reference/afu_dfl.py:52-61 | Refused is exactly what is not 16 logits of eight bits with a table of 256 entries in 1..32768. |
| DflExpectation.ProductFits | tools/neural_ai_tflite_reference/afu_dfl.py:69-70 | The product stays below 2^59. |

## Left out

- Allocation failure, freeing, logging, the verbose flag, the Python bindings and the command line.
- Buffer sizes: the encoder's output buffer and scratch arrays, and the reordering's output, grow as needed; that
  `inbuf_size * 2 + 1024` bytes or `size` entries suffice is not claimed, but for the zero runs of a section
  (SectionEncoder.SplitSection).
- Empty input of the encoder: at least one weight is required.
- PaletteSections.SearchPaletteSections: whether a restart pays off is decided as in the source, but only the
  shape of the positions is stated, because correctness depends on nothing else.
- `qsort` is an insertion sort with the same result, as equal elements are the same number.
- The reordering takes the buffer with its strides and requires every element of the tensor to lie inside it.
- Copying, moving and clearing an ordered map, its iterator objects, value constructors and destructors.
- OrderedMaps.HashtableSize: without the limit of the index type, at which capacities are clamped and allocation
  in a full map asserts.
- Overflow allocation inside the hash table of the ordered map (`PURE_HASH_CHAINS` false). Hash values are reduced
  modulo the table size.
- OrderedMaps.OrderedMap.Insert: the assertion that the key is new is a precondition.
- GrcEncoder.SearchGrcParams: which of several assignments of least cost is found is not stated.
- Palettes.Palette.Create: which of several equally frequent values becomes an entry is not stated.
- OrderedMaps.OrderedMap.AllocateNode: which free slot is taken, and by how much a full map grows, is not stated.
- PassDag.PassGraph.BuildPassDagPredecessors: which link of a cycle is dropped depends on the order of the visits and
  is not stated.
- OpOrder.Subgraph.GetAllOps: the order among the operators that one output needs is stated by dependencies only.
- Handing the results over to the schedule in the cascade builder; int overflow of sizes; operators with a
  reference cost have a fallback cost.
- The recursion limit of the depth-first searches, and other uses of the graphs.
- PoolingScale.QuantisePoolingScale: a shift by a negative amount and a number too large for a float are outcomes.
- DflExpectation.ExpectationQ8: one row at a time with the generated reciprocal table; the exponential table is
  an input in 1..32768, and the statistics and the requantisation are not modelled.
- RollingBuffer.AddressOf: shapes have positive extents and at most four axes, and strides are those of the tensor;
  strides changed by the `ofm_stride_multiplier` attribute, compressed weights and the assertion on coordinates are
  not modelled.
