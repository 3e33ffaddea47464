# Verified model of the columnar query engine

A Dafny model of the engine's core algorithms: the places where a fast, stateful form must
agree with a simple one. Each is written in the form of the source (a class for an object
that updates its fields, a loop for a loop, a function for an expression) and proved
against a definition that says what it is for.

| modules | what they model |
|---|---|
| `Words`, `BitStream`, `IntCodec`, `Gorilla`, `CodecForms`, `CompressedTables` | the time-series codec and its resumable, batch-streaming decoder |
| `F64`, `Columns`, `StringDicts`, `RowStores` | doubles as bit patterns, packed validity and batches, dictionaries, row stores |
| `SortOrders`, `RadixSort`, `Sorts` | the comparison sort and the byte-radix sort, which return one permutation |
| `Mix`, `KeyRows`, `GroupIds`, `HashTables`, `KeyCodes`, `KeyedInputs` | the hash, canonical keys, the open-addressing table as a refinement of a map |
| `JoinPairs`, `HashJoins`, `AsofMeaning`, `AsofJoins` | the hash join and the backward as-of join against their brute-force meanings |
| `AggMeaning`, `ExactSums`, `AggKernels`, `AggMerge`, `GroupBy`, `Aggregates`, `GlobalAggregates`, `AggResults`, `AggregateOps` | reductions, grouped and global aggregation |
| `Exprs`, `ExprMeanings`, `Eval`, `Streams` | the expression evaluator with bitmap nulls; scan, filter, project |
| `Plans`, `Morsels`, `Schedules`, `ParallelStreams`, `GroupMerge`, `PartialAggs`, `PartialMaps`, `PartialMerges`, `ParallelAggregates`, `Assignments`, `EverySchedules`, `Outcomes`, `TopSorts`, `ParallelPlans`, `PlanMeanings` | the morsel-parallel driver under every schedule |
| `Histograms` | the latency histogram's arithmetic |

## Conventions

- A 64-bit word is an `int` below 2^64 and every wrap-around is written out. Bits are
  sequences, most significant first; a validity word is its 64 bits, least significant first.
- Stored values are integers: the value for I32, I64 and TS, 0 or 1 for BOOL, the bit pattern
  for F64, the dictionary code for STR. A `Cell` is a value as SQL sees it.
- A double is its bit pattern. Comparison is defined on patterns and proved to be that of
  the numbers they stand for (`F64.LessIsByNumber`); addition, division and
  conversions are parameters (`FloatOps`, `Floats`). A sum of doubles is pinned to the
  left-to-right fold where the source folds in that order, and elsewhere where none of the
  group's partial sums rounds (`Exact`): the values lie on a grid on which addition is exact
  up to a bound on their magnitudes. Integer-valued doubles below 2^53 are one
  (`ExactSums.IntegersAdd`).
- An operator's child is the sequence of batches it yields. SIMD width is a parameter of at
  least one lane. The hash step inside the table is an arbitrary function; the concrete one
  is proved a bijection on its own. A load factor is a real number, the modulus `h & mask` is
  `h % capacity`.
- Row numbers are unbounded; the sentinel for a missing build row is `None`. Dictionary codes
  and group ids are not: operators require room for the codes of their key strings, and report
  when the 2^32 - 1 group ids are used up. Row counters are required to stay below 2^63.
- `std::stable_sort` is represented by insertion, proved to meet its contract; an unordered map
  by a map walked in an arbitrary order; allocation always succeeds.
- Where the source's signed addition would overflow in an integer SUM, the model wraps.
- A schedule is a parameter: any complete interleaving of the workers' steps on the shared
  cursor. A join's build side is run by a parameter, `Env.lower`.

## Where code and comments differ

The model follows the code.

- `exec/parallel.cpp:298-302` says that the cross-worker merge must follow the NaN-greatest
  order; the merge at `exec/parallel.cpp:522-538` uses `std::min` and `std::max`.
  `PartialAggs.NaNsCanBeLost` gives the inputs where that is wrong, and
  `EverySchedules.AlwaysSafeIffUniform` the exact condition on the data under which every
  schedule is right.
- `bench/histogram.h:57-59` promises the `ceil(q * count)`-th value; the code uses
  `floor(q * total)` counted from 0. `Histograms.DocRankIff` says exactly when the ranks
  agree, `Histograms.DocAnswerIff` exactly when the answers do.
- `tsx/asof.cpp:289-293` casts the tolerance to unsigned, so a negative one admits matches.
  `AsofMeaning.ToleranceExact` says exactly when the test is right.
- `ops/hashtable.cpp:44-46` gives the load factor as the reason for a free slot; a tiny load
  factor makes the threshold 0 and one doubling does not restore it. The invariant proved is
  that the filled slots stay below the capacity.

## Model

| member | source | states |
|---|---|---|
| BitStream.BitWriter.PutBit | tsx/compress.cpp:31-38 | Appends exactly one bit to the stream written so far, whether or not a byte fills up. |
| BitStream.BitOfByte | tsx/compress.cpp:31-38 | Bit i of a byte vector is in byte i / 8, the highest first. |
| BitStream.BitWriter.PutBits | tsx/compress.cpp:40-42 | Appends the low n bits of a word, most significant first. |
| BitStream.BitWriter.Flush | tsx/compress.cpp:43-50 | Pads the stream with fewer than eight zero bits: ceil(bits / 8) bytes come out and no written bit changes. |
| BitStream.BitReader.GetBit | tsx/compress.cpp:59-65 | Reads the bit at the absolute position and advances by one. |
| BitStream.BitReader.GetBits | tsx/compress.cpp:66-70 | Reads n bits from the absolute position, most significant first. |
| IntCodec.PutVarint | tsx/compress.cpp:73-79 | Appends the unsigned LEB128 encoding (section 7.6 of DWARF 5). |
| IntCodec.GetVarint | tsx/compress.cpp:82-92 | Consumes exactly one terminated number, whatever follows it, and returns its value modulo 2^64. |
| IntCodec.VarintReadsBack | tsx/compress.cpp:73-92 | The decoder's value of an encoded number is that number, and the encoding is terminated. |
| IntCodec.VarintSelfDelimiting | tsx/compress.cpp:73-92 | Encodings are prefix-free: equal concatenations have equal numbers and equal suffixes. |
| IntCodec.WordVarintLength | tsx/compress.cpp:73-79 | A 64-bit word takes at most ten bytes. |
| IntCodec.ZigZagInverse | tsx/compress.cpp:95-97 | Zig-zag and its inverse undo each other on every 64-bit word, in both directions. |
| IntCodec.ZigZagMagnitude | tsx/compress.cpp:95-97 | Zig-zag of the signed value i is 2i, or -2i - 1 if i is negative: small magnitudes become small numbers. |
| IntCodec.UnZigZagVector | tsx/compress_kernels.cpp:28-44 | The lane-strided kernel with its scalar tail decodes every element, for every lane count and length. |
| IntCodec.UnZigZagScalar | tsx/compress_scalar.cpp:10-15 | The scalar twin decodes every element. |
| IntCodec.SecondDifferenceInverse | tsx/compress.cpp:135-145 | The running double prefix sum, modulo 2^64, inverts the modular second difference at every position. |
| IntCodec.EncodeDod | tsx/compress.cpp:135-145 | The I64 and TS encoder emits the varints of the zig-zagged second differences. |
| IntCodec.EncodeZigZag | tsx/compress.cpp:148-151 | The I32 encoder emits the varints of the zig-zagged values. |
| IntCodec.IntStreamAt | tsx/compress.cpp:355-376 | At the position after j values, the stream holds the terminated encoding of word j: decoding can resume anywhere. |
| IntCodec.IntStreamSize | tsx/compress.cpp:73-79 | At most ten bytes per value. |
| Gorilla.WindowHolds | tsx/compress.cpp:173-178 | A reused window always has room for the XOR: the bits written through it restore the whole XOR. |
| Gorilla.StepBitsSize | tsx/compress.cpp:165-191 | One XOR costs between 1 and 77 bits. |
| Gorilla.StepIs | tsx/compress.cpp:165-191 | In arithmetic terms: no change costs one bit; an XOR divisible by the window's trailing power and below its leading one costs 2 + mean bits; any other opens the narrowest window around it, at most 31 bits cut off in front, and costs 13 + mean. |
| Gorilla.StreamIs | tsx/compress.cpp:154-194 | The whole stream is the first value and such steps, each from the window the one before it left. |
| Gorilla.Lockstep | tsx/compress.cpp:165-191 | Reading one step's bits gives back the XOR, the encoder's next window, and the position after them; the clamped lead and the length 64 stored as 0 included. |
| Gorilla.FirstInLockstep | tsx/compress.cpp:389-416 | After the raw first value, the decoder's state is the encoder's. |
| Gorilla.NextInLockstep | tsx/compress.cpp:389-416 | After every further value, the decoder's previous value, window and bit position are the encoder's. |
| Gorilla.DecodeInLockstep | tsx/compress.cpp:380-419 | From the state after j values, whatever trails the stream, the decoder yields value j and the state after j + 1. |
| Gorilla.GorillaRoundTrip | tsx/compress.cpp:154-194 | Decoding any padded Gorilla stream gives back every 64-bit sequence exactly. |
| Gorilla.StreamSize | tsx/compress.cpp:154-194 | At most 64 + 77(n - 1) bits for n values. |
| Gorilla.EncodeGorilla | tsx/compress.cpp:154-194 | The encoder writes the stream, padded to whole bytes. |
| Gorilla.EncodeBool | tsx/compress.cpp:197-202 | Exactly ceil(n / 8) bytes holding one bit per value. |
| CompressedTables.RestoreReadBits | tsx/compress.cpp:107-130 | Taking a stored value to 64 bits and back at its column's width is the identity, sign included. |
| CompressedTables.EncodeColumn | tsx/compress.cpp:204-242 | The encoded column has the validity bits unchanged and, for the non-null values in row order, exactly the bytes its type asks for, within the size bound: an I32 as itself, an I64 or TS by its second difference, each folded to the shortest LEB128 number; an F64 by the bits that change; a BOOL in one bit; zero bits fill the last byte. |
| CodecForms.IntStreamIs | tsx/compress.cpp:135-151 | The bytes of an integer column, cut by value: number j is 2i or -2i - 1, where i is the I32 value itself, or the I64 or TS change of the change in 64 bits. |
| CodecForms.ProgressionColumn | tsx/compress.cpp:135-145 | I64 or TS values in arithmetic progression take at most 20 bytes, and one more byte, zero, for each value from the third on. |
| CompressedTables.PlainApart | tsx/compress.cpp:148-151 | An I32 column whose values are those of two others has the bytes of the one followed by those of the other. |
| CodecForms.GorillaIs | tsx/compress.cpp:154-194 | The bytes of an F64 column: the first value in 64 bits, every other as one step, and fewer than eight zero bits. |
| CodecForms.BitsAre | tsx/compress.cpp:197-202 | Bit j of a BOOL column is whether value j is not zero, and the rest of the last byte is zero. |
| CompressedTables.EncodedSize | tsx/compress.cpp:204-242 | Per column: at most 10 bytes per non-null integer, (64 + 77(n - 1) + 7) / 8 bytes for n doubles, exactly ceil(n / 8) for BOOL. |
| CompressedTables.ExtractWords | tsx/compress.cpp:334-345 | One word per non-null row of the window, its slot recorded, the byte cursor left after the last; null rows are marked null. |
| CompressedTables.Reconstruct | tsx/compress.cpp:359-369 | One carried step restores the value and moves the carried delta and previous value to the encoder's. |
| CompressedTables.DecodeIntWindow | tsx/compress.cpp:329-377 | Any window of an integer column is decoded exactly, from a cursor in step with the encoder, which it leaves in step. |
| CompressedTables.DecodeF64Window | tsx/compress.cpp:380-419 | The same for a Gorilla column, bit for bit. |
| CompressedTables.DecodeBoolWindow | tsx/compress.cpp:422-434 | The same for a bit-packed BOOL column. |
| CompressedTables.DecodeColumn | tsx/compress.cpp:446-471 | A decoded window is the table's rows and validity, and the cursor stays in step. |
| CompressedTables.DecodeBatch | tsx/compress.cpp:445-474 | A decoded batch is exactly the rows [start, start + n) of the table. |
| CompressedTables.CompressedScan.Next | tsx/compress.cpp:438-475 | Each call yields the next min(batch size, rest) rows, in the table's column types, and the end exactly once the rows are exhausted. |
| CompressedTables.RoundTrip | tsx/compress.cpp:248-256 | For every table of compressible columns, every batch size and both decode paths, the batches have the table's column types and their concatenation is the table's rows: nulls and values, bit for bit. |
| F64.TotalOrderIsRank | ops/agg_internal.h:34-40 | The less-than, three-way, minimum and maximum formulations are one NaN-greatest total preorder in which the two zeros tie. |
| F64.LessIsByNumber | ops/agg_internal.h:34-40 | Comparing bit patterns is comparing the numbers they stand for (section 3.4 of IEEE 754): sign, exponent and fraction. |
| F64.NaNIsByFields | ops/agg_internal.h:34-40 | A NaN is a pattern with all exponent bits set and a non-zero fraction. |
| F64.SameKeyIffTie | ops/hash_internal.cpp:41-47 | Two doubles get one hash key exactly when the sort order ties them. |
| F64.RawMinExact | exec/parallel.cpp:522-526 | `std::min` is the NaN-greatest minimum if and only if its left operand is not alone a NaN. |
| F64.RawMaxExact | exec/parallel.cpp:534-538 | `std::max` is the NaN-greatest maximum if and only if its right operand is not alone a NaN. |
| SortOrders.LessRowIsRowCmp | ops/sort.cpp:65-93 | The comparator is the strict part of a three-way comparison by keys, directions and null placements. |
| SortOrders.RowCmpLaws | ops/sort.cpp:65-93 | The comparison is antisymmetric and transitive with transitive ties: a total preorder on rows. |
| SortOrders.LexCmpIs | ops/sort.cpp:65-93 | A sequence is before another exactly if it is a proper prefix or has the lesser element where they first differ. |
| SortOrders.StrCmpIs | ops/sort.cpp:65-93 | The same of strings, both ways, with zero exactly on equality. |
| SortOrders.ValueCmpIs | ops/sort.cpp:65-93 | Values compare by size as integers, character by character as strings, and by number as doubles, the NaNs last. |
| SortOrders.RowCmpIs | ops/sort.cpp:65-93 | A row is before another exactly if the first key that tells them apart puts it first: NULLs where the key places them, values in its direction; rows tie exactly if no key tells them apart. |
| SortOrders.StablePermutationUnique | ops/sort.cpp:96-105 | Only one permutation is sorted with ties in input order. |
| SortOrders.StableMeans | ops/sort.cpp:96-105 | Rows picked by the stable permutation are all the rows, once each, every earlier one before every later one by the first key that tells them apart, or in input order. |
| SortOrders.StableSort | ops/sort.cpp:96-105 | The comparison path's stable sort returns that permutation. |
| RadixSort.LexCmpBigEndian | ops/sort.cpp:115-128 | Big-endian bytes compare as their numbers do. |
| RadixSort.EncodeOrder | ops/sort.cpp:115-168 | The byte key of a row (sign flip, complement for DESC, null byte by placement, null value bytes zero) compares lexicographically exactly as the row comparator does. |
| RadixSort.BuildKey | ops/sort.cpp:141-166 | The fill loop writes exactly that byte key. |
| RadixSort.CountingPass | ops/sort.cpp:172-186 | Count, prefix sum and scatter in place: the rows bucket by bucket, in their previous order within a bucket. |
| RadixSort.BucketOrdered | ops/sort.cpp:172-186 | A bucket keeps the order its rows had: a counting pass is stable. |
| RadixSort.PassStep | ops/sort.cpp:172-186 | A pass on byte `pos` makes the rows ordered by the bytes from `pos` on. |
| RadixSort.RadixIsStable | ops/sort.cpp:115-188 | Rows ordered by all their key bytes, ties by row number, are in the stable permutation. |
| RadixSort.RadixPermutation | ops/sort.cpp:129-188 | The radix path returns the stable permutation of the comparison path, for any mix of ASC and DESC, NULLS FIRST and LAST. |
| Sorts.BuildPermutation | ops/sort.cpp:192-219 | Whichever path is taken, the permutation is the one stable permutation. |
| Sorts.Sort.Open | ops/sort.cpp:192-219 | Open drains the child and fixes the stable permutation of its rows. |
| Sorts.Sort.Next | ops/sort.cpp:221-232 | Each call emits the next at most 2048 rows of the sorted order. |
| Sorts.SortRows | ops/sort.cpp:192-239 | The emitted batches, concatenated, are the input's rows picked by the stable permutation: each pair of them in the order its first deciding key demands (strings character by character, doubles by number, NULLs as placed), or in input order. |
| RowStores.Materialize | ops/sort_internal.cpp:38-85 | Draining the child stores exactly its rows, strings by value across dictionaries. |
| RowStores.GatherRows | ops/sort_internal.cpp:95-151 | A gathered batch is the stored rows at the given indices. |
| StringDicts.StringDict.Intern | core/string_dict.h:41-53 | Equal strings keep their code, a new one gets the next code; the concatenated bytes and offsets hold exactly the distinct strings. |
| StringDicts.StringDict.At | core/string_dict.h:57-63 | A code's slice of the bytes is the string interned under it. |
| StringDicts.SameCodeIffSameString | core/string_dict.h:41-63 | Two interned strings share a code exactly when they are equal, whatever was interned between. |
| Mix.XorShiftInverse | ops/hash_scalar.cpp:14-21 | A right xor-shift by 22 to 32 is undone by a double xor-shift, on both sides. |
| Mix.MultiplierInverse | ops/hash_scalar.cpp:14-21 | Both multipliers are undone modulo 2^64 by their inverses, on both sides. |
| Mix.Mix64Bijective | ops/hash_scalar.cpp:14-21 | The finalizer is a bijection on 64-bit words, with an explicit inverse. |
| Mix.HashCombine | ops/hash_scalar.cpp:24-29 | Each accumulator is combined with its own word. |
| Mix.SingleColumnHashBijective | ops/hash_kernels.h:14-20 | A one-column row hash is a bijection in the column's word. |
| KeyRows.KeyEqualIffSameTuple | ops/hash_internal.h:63-75 | The mask-then-words comparison holds exactly for equal key tuples, NULL equal to NULL only; equal tuples hash alike. |
| KeyRows.HasNullIffMasked | ops/hash_internal.h:42-58 | A row's mask is non-zero exactly when its tuple has a NULL. |
| KeyRows.SameWordIffSameKey | ops/hash_internal.cpp:29-58 | Two values of a type normalize to one word exactly when they are one key: the zeros one, the NaNs one, all else distinct. |
| KeyRows.SameValueIs | ops/hash_internal.cpp:29-58 | Two cells are one non-null key exactly if they are equal integers or strings, doubles of one number, or both NaN. |
| KeyRows.KeyCellIs | ops/hash_internal.cpp:29-58 | The key of a value is an equal value: itself, the positive zero, or the canonical NaN. |
| KeyRows.NormalizeAndHash | ops/hash_internal.cpp:62-97 | Column by column, every live row gets its canonical tuple, its mask and the hash of its words, through the selection. |
| GroupIds.SameIdIffSameKey | ops/hashtable.h:118-124 | Two rows share an id exactly when their keys are equal and, under never-match, NULL-free. |
| GroupIds.IdsAreDense | ops/hashtable.h:118-124 | A row's id is an earlier row's, or the next unused number: ids are 0, 1, 2, ... in first-seen order. |
| GroupIds.IdsReadBack | ops/hashtable.h:118-124 | A row's id names its own key among the groups. |
| GroupIds.FindAfterBuild | ops/hashtable.h:126-132 | A lookup answers exactly the keys inserted, with their ids; a NULL-bearing key under never-match is never found. |
| GroupIds.AssignAllConcat | ops/hashtable.h:118-124 | Inserting two runs of rows one after the other assigns what inserting them together does. |
| HashTables.RoundUpPow2 | ops/hashtable.cpp:28-32 | From a power of two, the capacity is a power of two: the floor doubled until it reaches the request, and less than twice the request if it had to grow. |
| HashTables.ThresholdBelow | ops/hashtable.cpp:44-55 | For every load factor in (0, 0.95] the growth threshold is below the capacity. |
| HashTables.HomeIsMask | ops/hashtable.cpp:107-111 | At a power-of-two capacity the remainder of the hash is its low bits, which is what the mask keeps. |
| HashTables.HashTable.constructor | ops/hashtable.cpp:35-58 | For any requested capacity and load factor the new table is empty and valid: the load factor clamped to (0, 0.95], 0.7 if it is not positive; a power-of-two capacity, less than twice the request unless the floor. |
| HashTables.WalkOrder | ops/hashtable.cpp:107-121 | Of two different slots, one is met before the other on the probe walk from any home. |
| HashTables.MissMeansAbsent | ops/hashtable.cpp:107-121 | An empty slot on the walk, with no equal key before it, proves the key is in no slot. |
| HashTables.Probe | ops/hashtable.cpp:107-121 | In a table with a free slot the walk ends: at the slot of the equal key, or at the first empty slot if there is none. |
| HashTables.FreeSlot | ops/hashtable.cpp:82-84 | The re-slotting walk ends at a free slot with no gap before it. |
| HashTables.Grow | ops/hashtable.cpp:75-91 | Doubling re-slots every group from its stored hash: the same groups, as many filled slots, each reachable without a gap. |
| HashTables.ProbeIsLookup | ops/hashtable.cpp:107-121 | What the probe finds is the map lookup of the key. |
| HashTables.HashTable.GrowIfNeeded | ops/hashtable.cpp:125-130 | After one insertion the capacity doubles exactly if the filled slots passed the threshold, which restores the invariant; only the slots and the capacity change, so no id does. |
| HashTables.HashTable.InsertOne | ops/hashtable.cpp:100-132 | One row is assigned its key's id, or the next one; fails only when the ids are used up, changing nothing. |
| HashTables.HashTable.InsertOrFind | ops/hashtable.cpp:93-133 | A batch is assigned ids as the abstract map does, in every reachable state, with filled slots below the capacity throughout. |
| HashTables.HashTable.Find | ops/hashtable.cpp:135-163 | Each row gets the map's answer; nothing changes. |
| KeyCodes.CanonicalizeStr | ops/join.cpp:48-71 | A STR key column becomes an I32 column of shared ids: equal words exactly for equal strings, NULLs kept, only live rows interned. |
| KeyCodes.SameTupleIffSameKey | ops/join.cpp:40-71 | Over shared dictionaries, rows of two inputs have one key tuple exactly when their keys are equal by value, across dictionaries. |
| KeyCodes.KeyViews | ops/join.cpp:168-186 | A batch's key views agree, live row by live row, with its keys by value; one dictionary per STR key. |
| KeyCodes.SharedKeyViews | ops/aggregate.cpp:379-392 | The same with one dictionary for all STR keys. |
| KeyedInputs.InsertBatch | ops/join.cpp:163-188 | Feeding one more batch leaves the table as if all rows so far had been fed at once. |
| KeyedInputs.InsertShared | ops/aggregate.cpp:376-395 | The same over the aggregate's single dictionary. |
| KeyedInputs.FindBatch | ops/join.cpp:210-227 | Every probe row gets the id of its key among the build rows, or none. |
| JoinPairs.EmitPairs | ops/join_internal.h:136-179 | A batch of pairs reads as probe row followed by build row, nulls for a missing build row, padding for none. |
| JoinPairs.EmitChunk | ops/join.cpp:273-297 | A chunk of at most 2048 pairs and the rest make the pending pairs: none lost, none repeated. |
| RowStores.RowStore.AppendRow | ops/join_internal.h:64-87 | The stored rows grow by exactly the given row, strings by value, and its index is returned. |
| HashJoins.JoinConcat | ops/join.cpp:199-247 | The nested-loop join distributes over cutting the probe side. |
| HashJoins.AnswerNamesMatches | ops/join.cpp:229-245 | The id found for a probe row is that of exactly the build rows that join with it. |
| HashJoins.MatchedRows | ops/join.cpp:190-196 | The rows listed under an id, in build order, give the inner loop's output. |
| HashJoins.PartnersAreMatches | ops/join.cpp:229-245 | The listed partners, or one null row for an unmatched LEFT row, are the join of that probe row. |
| HashJoins.IndexBatch | ops/join.cpp:163-196 | Indexing one more build batch keeps table, lists and store those of all build rows so far. |
| HashJoins.BuildSide | ops/join.cpp:133-197 | The built side indexes exactly the build rows; fails only when the group ids run out. |
| HashJoins.PairsForProbe | ops/join.cpp:199-247 | The pairs of a probe batch read as the nested-loop join of that batch. |
| HashJoins.NestedLoopsJoin | ops/join.cpp:199-247 | The nested loops give every pair of rows equal by value and non-null in every key, once; in a LEFT join also every probe row without such a build row, with NULLs; probe rows in order and for each its build rows in order. |
| HashJoins.HashJoin.Next | ops/join.cpp:260-299 | Each call emits 1 to 2048 rows off the front of what remains, and ends exactly when nothing does. |
| HashJoins.JoinAll | ops/join.cpp:101-299 | All output batches, concatenated, are that join: INNER the pairs of rows with equal non-null keys, each once, probe rows in order and build rows in drain order within one; LEFT those and each unmatched probe row once, null-filled. Refused exactly if a key pair differs in type. |
| AsofMeaning.Nearest | tsx/asof.h:9-31 | The last candidate in drain order: equal non-null key, non-null time not after the probe's; none if there is no candidate. |
| AsofMeaning.NearestIsGreatest | tsx/asof.h:9-31 | On inputs sorted by key and time, the last candidate has the greatest time of all candidates. |
| AsofMeaning.ToleranceExact | tsx/asof.cpp:283-293 | The unsigned span test is the true tolerance test if and only if the tolerance is absent, non-negative, or the span exceeds 2^64 plus it. |
| AsofMeaning.NegativeToleranceAdmits | tsx/asof.cpp:283-293 | With tolerance -1, a build row at the probe row's own time is matched, though the definition leaves it out: the output row differs from the reference's. |
| AsofMeaning.SortedIsTimeOrdered | tsx/asof.cpp:51-60 | The key-then-time sort puts the rows of each key together and in ascending time. |
| AsofMeaning.AsofIsReference | oracle/reference_oracle.cpp:701-741 | With unique build (key, time), a row's output is the brute-force one if and only if the tolerance test is exact for it. |
| AsofMeaning.AsofRowsAreReference | oracle/reference_oracle.cpp:701-741 | With unique build (key, time), the whole output is the brute-force definition's if and only if the tolerance test is exact for every probe row; it is for any tolerance that is absent or non-negative. |
| AsofMeaning.AsofConcat | tsx/asof.cpp:234-308 | The output distributes over cutting the probe side. |
| AsofMeaning.AsofMeans | tsx/asof.cpp:234-308 | Each probe row is output once with its match: the last build row with equal non-null keys and a known time not after the probe row's, if the span is within the tolerance read as an unsigned word; without one, null-filled in a LEFT join and left out of an INNER one; in probe order. |
| AsofJoins.ReadTime | tsx/asof.cpp:63-84 | The 64-bit time of a row, none for NULL, for I32, I64 and TS columns. |
| AsofJoins.Advance | tsx/asof.cpp:275-280 | The cursor stops at the first build time strictly after the probe's, never moving back. |
| AsofJoins.CursorFindsNearest | tsx/asof.cpp:275-294 | The row before the cursor is the nearest candidate; at zero there is none. |
| AsofJoins.CursorKept | tsx/asof.cpp:265-295 | A probe row that looks nothing up leaves the carried cursor good for the next one. |
| AsofJoins.MatchOne | tsx/asof.cpp:261-295 | From a good carried cursor, a probe row is matched as defined, and the cursor stays good. |
| AsofJoins.BuildSide | tsx/asof.cpp:177-232 | The lists hold, per partition, exactly the build rows with non-null key and time, in time order. |
| AsofJoins.PairsForProbe | tsx/asof.cpp:234-308 | The pairs of a probe batch are its as-of output, with the cursor carried from the batch before. |
| AsofJoins.AsofJoin.BuildPairsForProbe | tsx/asof.cpp:234-308 | Pulling the next probe batch changes nothing of what remains to be output. |
| AsofJoins.AsofJoin.Next | tsx/asof.cpp:321-360 | Each call emits 1 to 2048 rows off the front of what remains. |
| AsofJoins.AsofAll | tsx/asof.cpp:122-360 | All output batches, concatenated, are that as-of join of both inputs, each in the one stable order by keys and time, ascending, NULLs last; and the brute-force definition's exactly where the tolerance test is exact. Refused exactly if a time column is not I32, I64 or TS or a key pair differs in type. |
| AggMeaning.AggIsUnique | ops/agg_internal.h:169-229 | What an aggregate is determines it, up to ties of an extremum; a sum or average of doubles in any order, where none of its partial sums rounds. |
| AggMeaning.ExtremeNext | ops/agg_internal.h:34-40 | One more value moves an extremum exactly when it is beyond it. |
| AggMeaning.ScatterKeeps | ops/aggregate.cpp:118-155 | Folding a value keeps a cell true of its group: NULLs ignored, sums modulo 2^64, extrema NaN-greatest. |
| AggMeaning.ScatterStrKeeps | ops/aggregate.cpp:192-202 | Folding a string compares values, not codes, and interning it disturbs no cell. |
| AggMeaning.CellStable | ops/aggregate.cpp:192-202 | Interning more strings changes the meaning of no cell. |
| AggMeaning.FinalizeIs | ops/agg_internal.h:169-229 | What is written for a finished cell is the group's aggregate and fits the result column; NULL exactly when there is no non-null input. |
| ExactSums.TotalOnGrid | ops/agg_scalar.cpp:21-25 | Folding left to right gives the pattern of the exact sum. |
| ExactSums.ExactConcat | exec/parallel.cpp:293-296 | Where the sum of the whole does not round, neither do those of its parts, and they add up to it. |
| ExactSums.ZeroAdds | exec/parallel.cpp:515-520 | Where nothing rounds, adding zero on either side changes no sum. |
| ExactSums.ExactReordered | exec/parallel.cpp:482-541 | Where nothing rounds, the order of the addends does not matter. |
| ExactSums.IntegerValueInjective | ops/agg_kernels.cpp:25-35 | No two doubles but the zeros are one integer of magnitude below 2^53. |
| ExactSums.IntegerValueIs | ops/agg_kernels.cpp:25-35 | That integer is the number the pattern stands for. |
| ExactSums.IntegersAdd | ops/agg_kernels.cpp:25-35 | An addition that is exact on integers below 2^53, as IEEE 754 demands, rounds no sum of integer-valued doubles whose magnitudes add up to less. |
| AggKernels.AddLanesTotal | ops/agg_kernels.cpp:31-33 | Adding vectors lane by lane adds their totals modulo 2^64. |
| AggKernels.SumVector | ops/agg_kernels.cpp:25-35 | The lane-strided sum with horizontal reduction and tail is the sequential sum modulo 2^64, for every lane count and length. |
| AggKernels.SumScalar | ops/agg_scalar.cpp:15-19 | The scalar twin is the same sum. |
| AggKernels.SumF64Vector | ops/agg_kernels.cpp:25-35 | Where no partial sum of the values rounds, the lane-strided sum of doubles is the sequential one, for every lane count and length. |
| AggKernels.LanesOnGrid | ops/agg_kernels.cpp:31-33 | Adding vectors lane by lane adds the numbers they stand for, and no lane rounds while the magnitudes fit. |
| AggKernels.ExtremumVector | ops/agg_kernels.cpp:39-76 | The lane-strided minimum and maximum are an element that no other beats, short inputs included. |
| AggKernels.ExtremumScalar | ops/agg_scalar.cpp:27-39 | The scalar twins are the same. |
| AggKernels.MinF64Vector | ops/agg_kernels.cpp:83-102 | The NaN-masked minimum has the least NaN-greatest rank of all elements: a NaN only if every element is. |
| AggKernels.MaxF64Vector | ops/agg_kernels.cpp:105-124 | The NaN-masked maximum has the greatest rank: a NaN as soon as any element is. |
| AggKernels.MinF64Scalar | ops/agg_scalar.cpp:46-55 | The scalar twin has the same rank. |
| AggKernels.MaxF64Scalar | ops/agg_scalar.cpp:57-65 | The scalar twin has the same rank. |
| GroupBy.GroupKeysDistinct | oracle/reference_oracle.cpp:278-303 | The groups' keys are exactly the keys of the rows, each once. |
| GroupBy.NoKeysOneGroup | ops/aggregate.cpp:227-233 | Without key columns all rows are one group. |
| GroupBy.GroupsAreKeys | ops/aggregate.cpp:376-406 | The table's groups, read back, are the distinct keys in first-seen order. |
| GroupBy.IdIffKey | ops/aggregate.cpp:376-406 | A row is listed under exactly its key's group. |
| GroupBy.DecodeIsKey | ops/agg_internal.h:123-164 | A key word reads back, at its column's width, as the key value it was made from, and that value fits the column. |
| Aggregates.ScatterColumn | ops/aggregate.cpp:408-433 | After a batch, each group's cell of one aggregate holds the values of all that group's rows so far. |
| Aggregates.ScatterAll | ops/aggregate.cpp:408-433 | The same for every aggregate. |
| Aggregates.GroupBatch | ops/aggregate.cpp:376-433 | A grouped batch keeps table, cells and dictionary those of all rows so far; fails only when the ids run out. |
| Aggregates.EmitGroups | ops/aggregate.cpp:460-492 | An output batch is the next groups in first-seen order, each with its key and its aggregates. |
| GlobalAggregates.MaskedExtreme | ops/aggregate.cpp:336-370 | Replacing NULLs by the identity and reducing gives the extremum of the non-null values. |
| GlobalAggregates.MaskedFloat | ops/aggregate.cpp:296-334 | The same for doubles, NaN as the identity of a minimum and minus infinity of a maximum. |
| GlobalAggregates.FoldInts | ops/aggregate.cpp:336-370 | Folding a batch of integers through either kernel keeps the cell true of all values so far. |
| GlobalAggregates.FoldFloats | ops/aggregate.cpp:296-334 | The same for doubles; the sum where none of the partial sums of all values so far rounds. |
| GlobalAggregates.FoldBatch | ops/aggregate.cpp:258-374 | The same for every aggregate function and input type. |
| AggregateOps.Aggregate.Open | ops/aggregate.cpp:206-237 | Open leaves the state true of all the child's rows; fails only when the ids run out. |
| AggregateOps.Aggregate.NextGroups | ops/aggregate.cpp:460-492 | Each call emits the next at most 2048 groups, and ends exactly after the last. |
| AggregateOps.Aggregate.NextGlobal | ops/aggregate.cpp:444-458 | Without keys, exactly one row, even over no input. |
| AggResults.RefusedIff | ops/aggregate.cpp:78-98 | A query is refused exactly if a SUM or an AVG reads a string column. |
| AggResults.OutTypesAre | ops/aggregate.cpp:78-112 | The columns are the keys', then per aggregate: I64 for counts and sums of integers, F64 for sums of doubles and every average, the input's type for extrema. |
| AggResults.NonNullIs | ops/agg_internal.h:169-229 | The count is the number of inputs that are not NULL. |
| AggResults.AggIsMeans | ops/agg_internal.h:169-229 | An aggregate is what it is called: the number of rows or of non-null inputs; NULL without any; the true integer sum reduced to 64 bits; sum over count; a non-null input that none is before, or after. |
| AggResults.MembersListed | ops/aggregate.cpp:376-406 | A group's rows are exactly the rows with its key, in input order. |
| AggResults.KeysListed | ops/aggregate.cpp:376-406 | The groups' keys are those of exactly the rows whose key no earlier row has, in input order. |
| AggResults.ResultMeans | ops/aggregate.cpp:206-493 | A result has one row for each input row that shares a group with no earlier one, in order; it holds that row's key, and each aggregate over the rows equal to it, or NULL with it, in every key column. |
| AggregateOps.AggregateAll | ops/aggregate.cpp:206-493 | One such row per group in first-seen order, however the input is cut into batches; without keys exactly one row, over all the input. Refused exactly if a SUM or an AVG reads strings; else the columns have the types above. |
| AggregateOps.ResultUnique | ops/aggregate.cpp:206-493 | Two results for the same rows have the same keys in the same order and the same values up to ties. |
| AggMerge.MergeExtreme | exec/parallel.cpp:293-314 | The better of two groups' extrema is the extremum of both. |
| AggMerge.AggIsReordered | exec/parallel.cpp:455-472 | An aggregate depends on its values only as a multiset. |
| Exprs.ArithWellTyped | expr/expr.cpp:112-125 | The arithmetic builder yields a well-typed tree of the promoted type, or refuses: exactly if an operand is not numeric. |
| Exprs.CmpWellTyped | expr/expr.cpp:133-150 | The comparison builder yields a well-typed BOOL tree, or refuses: exactly if the types differ and are not both numeric. |
| Exprs.LogicWellTyped | expr/expr.cpp:159-191 | The logic builders yield well-typed BOOL trees, or refuse: exactly if an operand is not BOOL. |
| Exprs.CastWellTyped | expr/expr.cpp:90-110 | A cast yields a well-typed tree of the target type, or refuses exactly the casts to or from STR. |
| Exprs.EvalHolds | expr/eval.cpp:297-315 | A row's value is of the expression's inferred type. |
| ExprMeanings.CmpMeans | expr/eval.cpp:204-249 | A comparison is NULL with a NULL, else true exactly if the integers, the strings character by character, or the numbers of the doubles compare so; with a NaN only != is true. |
| ExprMeanings.ArithMeans | expr/eval.cpp:217-232 | +, - and * give the true result reduced to the type's width; / the quotient whose remainder is smaller than the divisor and has the dividend's sign, % that remainder; NULL with a NULL or a zero divisor. |
| ExprMeanings.LogicMeans | expr/eval.cpp:251-281 | AND is false exactly if an operand is, true exactly if both are, else NULL; OR with true and false exchanged. |
| ExprMeanings.NotMeans | expr/eval.cpp:251-281 | NOT exchanges true and false and keeps NULL. |
| ExprMeanings.CastMeans | expr/eval.cpp:283-295 | To BOOL, whether the value is not zero; to an integer type, the value if it fits and NULL if not; to F64, the conversion; NULL stays NULL. |
| ExprMeanings.LeafMeans | expr/eval.cpp:297-315 | A column of the row's type is its cell; a literal of a type but STR, in range, its value or NULL. |
| ExprMeanings.ArithBuilt | expr/expr.cpp:112-125 | The operands are cast to F64 if either is F64, else to I64 if either is I64, else both are I32; anything else is refused. |
| ExprMeanings.CmpBuilt | expr/expr.cpp:133-150 | The same of the operands of a comparison, and operands of one other type are compared as they are. |
| ExprMeanings.LogicBuilt | expr/expr.cpp:159-191 | The connectives take BOOL operands as they are and refuse all others. |
| Columns.Rebase | exec/morsel_scan.cpp:39-74 | A whole-word offset re-bases a bitmap: bit i of the view is bit start + i. |
| Columns.AllValid | simd/validity_kernels.cpp:53-70 | The blocked kernel with a masked tail word is true exactly if every one of the first n bits is set, whatever the padding. |
| Columns.BitAnd | simd/validity_kernels.cpp:72-83 | Bitwise AND of two bitmaps on every meaningful bit, for every lane count. |
| Columns.OwnedColumn.SetNull | core/owned_batch.cpp:39-45 | Clears exactly one row's validity bit, allocating the bitmap if needed, and keeps the all-valid flag exact. |
| Columns.OwnedColumn.RefreshAllValid | core/owned_batch.cpp:47-54 | Makes the flag exact: true if and only if no row is null. |
| Columns.OwnedColumn.View | core/owned_batch.cpp:56-67 | The view exposes a bitmap only if there are nulls, and reads row by row as the column does. |
| Columns.CompactColumn | core/owned_batch.cpp:101-166 | Row k of the result is the selected row of the input, value and null, and the flag is exact; empty selections included. |
| Eval.PropagateNullsAnd | expr/eval.cpp:319-333 | A result row is valid exactly where both operands are, and the flag is exact. |
| Eval.CopyValidity | expr/eval.cpp:39-44 | A result row is valid exactly where the operand is, and the flag is exact. |
| Eval.NullWhere | expr/eval.cpp:61-96 | Rows with a zero divisor or an out-of-range cast become null, and no other; the flag is exact. |
| Eval.ArithLaneIs | expr/arith_scalar.cpp:25-78 | A valid lane of the arithmetic kernel is the SQL value: wrap-around at the type's width, truncating division and remainder. |
| Eval.CmpStr | expr/eval.cpp:187-213 | Strings compare by value across dictionaries wherever both are non-null. |
| Eval.LogicIsKleene | expr/logic_scalar.cpp:16-57 | Minimum, maximum and 2 - x on the tri-state codes, and the table twins, are Kleene's AND, OR and NOT. |
| Eval.ToTristate | expr/eval.cpp:146-153 | False, NULL and true become 0, 1 and 2. |
| Eval.FromTristate | expr/eval.cpp:157-173 | And back: values, nulls and flag. |
| Eval.CastLaneIs | expr/eval.cpp:72-96 | A lane that is in range converts to the SQL value; the others are those that become NULL. |
| Eval.EvalArith | expr/eval.cpp:217-232 | Column-at-a-time arithmetic is row-wise: null if any operand is, or by a zero divisor. |
| Eval.EvalCmp | expr/eval.cpp:234-249 | Column-at-a-time comparison is row-wise. |
| Eval.EvalLogic | expr/eval.cpp:263-280 | Column-at-a-time AND and OR are Kleene's, row by row. |
| Eval.EvalNot | expr/eval.cpp:251-262 | Column-at-a-time NOT is Kleene's. |
| Eval.EvalCast | expr/eval.cpp:282-295 | Column-at-a-time casts are row-wise. |
| Eval.EvalNode | expr/eval.cpp:297-315 | For every well-typed tree and every batch, selected or not, on either back end, row k of the result is the row-wise value and null of live row k, and the flag is exact. |
| Eval.FlagIsExact | core/owned_batch.cpp:47-67 | The all-valid flag holds exactly if no row reads as NULL. |
| Streams.WindowValid | exec/morsel_scan.cpp:39-74 | The zero-copy window at a multiple of 64 is a slice of the column, cell by cell. |
| Streams.MorselScan.Next | exec/morsel_scan.cpp:39-74 | Each call yields the next rows of the range. |
| Streams.ScanRange | exec/morsel_scan.cpp:14-74 | The drained range is exactly its rows; misaligned or out-of-bounds ranges are refused, and no other. |
| Streams.FilterAll | ops/filter.cpp:28-66 | The output is the rows whose predicate is true, in order; no empty batch is emitted. |
| Streams.ProjectAll | ops/project.cpp:24-43 | The output is the row-wise projection, in order. |
| Streams.FilterMeans | ops/filter.cpp:28-66 | The kept rows are exactly those on which the predicate is neither NULL nor false, once each, in order. |
| Streams.ProjectMeans | ops/project.cpp:24-43 | Cell j of output row r is expression j on input row r. |
| Streams.FilterConcat | ops/filter.cpp:28-66 | Filtering distributes over cutting the input. |
| Streams.ProjectConcat | ops/project.cpp:24-43 | Projecting distributes over cutting the input. |
| Plans.SupportedShape | exec/parallel.cpp:344-372 | A plan is supported exactly if, below any number of sorts, it leads down to a scan through filters, projections and probe sides of joins, or is an aggregate over such a plan with no string key and no MIN or MAX of strings. |
| Plans.StreamingIs | exec/parallel.cpp:43-55 | A plan is streaming exactly if some such way down exists. |
| Plans.SpineDrives | exec/parallel.cpp:65-69 | The table scanned at its end is the driving table. |
| Plans.SemMeans | exec/parallel.cpp:89-110 | Node by node: a scan gives its table's rows, a filter, a projection and a join exactly their operator's output for what the child and the build side give. |
| Plans.DrivingIsLeftmost | exec/parallel.cpp:65-69 | The leftmost scan is the driving table of a streaming plan. |
| Plans.SemConcat | exec/parallel.cpp:43-55 | By induction on the plan, its output distributes over cutting the driving scan; a join's build side stays whole. |
| Morsels.MorselRows | exec/parallel.cpp:323-333 | The granularity is refused exactly if it is not a multiple of 64; zero means the default, any other is taken as it is. |
| Morsels.MakeMorsels | exec/parallel.cpp:79-85 | At least one morsel; they tile the table, each starting on a multiple of 64; every one but the last has exactly the granularity's rows and the last at most that, with one row at least unless the table is empty. |
| Morsels.TilesJoin | exec/parallel.cpp:79-85 | Tiling morsels partition the rows: each once, in order. |
| Morsels.RunMorsel | exec/parallel.cpp:89-110 | The private tree of a morsel outputs the plan's meaning on exactly that morsel's rows. |
| Schedules.RunKeepsInv | exec/parallel.cpp:409-415 | In every reachable state of every interleaving, each morsel before the cursor was taken exactly once and no other at all. |
| Schedules.NeverTwice | exec/parallel.cpp:409-415 | No interleaving gives a morsel to two workers, or twice to one. |
| Schedules.CompleteRunTakesAll | exec/parallel.cpp:409-420 | When every worker has stopped, every morsel was taken exactly once. |
| Schedules.Progress | exec/parallel.cpp:409-420 | Short of the end some worker can step, and every step brings the end nearer. |
| Schedules.RunsAreShort | exec/parallel.cpp:409-420 | No run has more than three steps a morsel and one a worker: every schedule ends. |
| Schedules.FlatReordered | exec/parallel.cpp:422-428 | Collected pieces depend, as a multiset, only on which morsels were done. |
| Schedules.CollectsAll | exec/parallel.cpp:422-428 | After any complete run the workers hold all pieces, reordered. |
| ParallelStreams.PiecesJoin | exec/parallel.cpp:402-429 | In table order the morsels' outputs are the single-threaded output. |
| ParallelStreams.RunStreaming | exec/parallel.cpp:402-429 | Under every schedule, the concatenated output is a permutation of the single-threaded one. |
| PartialAggs.BuildPartials | exec/parallel.cpp:189-246 | Every aggregate gets a mergeable partial of its value, AVG a sum and a count, and an entry that finds them again. |
| PartialAggs.FoldPlainKeeps | exec/parallel.cpp:282-317 | Folding a morsel's partial result keeps the accumulator true of all values folded so far; sums of doubles where no partial sum rounds. |
| PartialAggs.MergeKeeps | exec/parallel.cpp:493-541 | Merging another worker's accumulator keeps the merged one as stated: exact, but for double extrema as the raw comparison leaves them, and for double sums where no partial sum rounds. |
| PartialAggs.MergeFloats | exec/parallel.cpp:522-538 | A raw-merged extremum is a NaN exactly if the first worker's is, and is the true extremum if the merge is safe. |
| PartialAggs.RawIffSafe | exec/parallel.cpp:522-538 | It is the true extremum if and only if the merge is safe: the first worker's NaN-ness is that of the whole. |
| PartialAggs.NoNaNIsSafe | exec/parallel.cpp:522-538 | Without NaNs every merge is safe. |
| PartialAggs.NaNsCanBeLost | exec/parallel.cpp:522-538 | Merging the accumulator of NaN with that of 1.0 leaves NaN as their minimum, and that of 1.0 with that of NaN leaves 1.0 as their maximum: both wrong; in the other order both are right. |
| PartialAggs.ReadOffIs | exec/parallel.cpp:545-596 | The finalized cell is the aggregate, for a double extremum exactly if the merge was safe, for all else always. |
| PartialAggs.ReadOffHolds | exec/parallel.cpp:545-596 | The finalized cell is of the result type. |
| PartialMaps.KeyOf | exec/parallel.cpp:251-273 | The byte string of a key: nine bytes a column. |
| PartialMaps.KeyBytesInjective | exec/parallel.cpp:251-273 | Different keys, as the aggregate emits them, have different byte strings; NULL and zero included. |
| PartialMaps.AbsorbRow | exec/parallel.cpp:461-471 | A partial row is folded into its own group, made if new; no other group changes. |
| PartialMaps.AbsorbPiece | exec/parallel.cpp:457-472 | After a morsel the worker's map has exactly the groups of the rows it has seen, each accumulator true of them. |
| PartialMerges.MergeGroup | exec/parallel.cpp:486-541 | A worker's group is merged into the one of its key, or taken over if it is the first. |
| PartialMerges.MergeWorker | exec/parallel.cpp:482-543 | After a worker's map, walked in any order, the merged map covers exactly the workers so far. |
| PartialMerges.ReadRows | exec/parallel.cpp:545-599 | One output row per merged group, in any order, each cell as finalized. |
| GroupMerge.MembersReordered | exec/parallel.cpp:455-472 | Reordering the input reorders a group's rows, no more. |
| GroupMerge.GroupsReordered | exec/parallel.cpp:455-472 | Reordering the input changes no group key. |
| ParallelAggregates.RunPartial | exec/parallel.cpp:455-472 | One morsel, run through the private aggregate, adds exactly its rows to the worker's map. |
| ParallelAggregates.MergeWorkers | exec/parallel.cpp:482-543 | The merged map is that of all the workers' rows. |
| ParallelAggregates.RunAggregate | exec/parallel.cpp:431-599 | Under every schedule: each distinct key of the plan's output exactly once (without keys one row, even of no input), and each aggregate right for all the rows of its group; for MIN and MAX of doubles if and only if the merge of what the workers saw was safe, for SUM and AVG of doubles where no partial sum rounds. |
| ParallelAggregates.NaNFreeIsExact | exec/parallel.cpp:431-599 | In particular, if no value of an F64 MIN or MAX column is a NaN, its aggregate is right in every group under every schedule. |
| Assignments.EveryAssignment | exec/parallel.cpp:404-420 | Every way of handing the morsels to the workers is what some complete schedule does. |
| EverySchedules.UniformMeans | exec/parallel.cpp:522-538 | Morsels agree on a group's NaNs if all, or none, of those that have a value have a NaN for its extremum: for MIN nothing but NaNs, for MAX any NaN. |
| EverySchedules.AlwaysSafeIffUniform | exec/parallel.cpp:431-543 | With two or more threads, a double extremum of a group merges safely under every schedule if and only if the morsels agree in that sense. |
| EverySchedules.OneThreadIsSafe | exec/parallel.cpp:431-543 | With one thread it always does. |
| EverySchedules.SteadyIsRight | exec/parallel.cpp:431-599 | Where the morsels agree, or one thread runs, every schedule's result has the right aggregate; all other aggregates need no condition. |
| EverySchedules.UnsteadyIsWrong | exec/parallel.cpp:431-599 | Where they disagree the group exists, and some schedule of two or more workers makes every result of it wrong: that group's row is there, with a wrong value in that cell. |
| Outcomes.TieIffCanon | ops/sort_internal.h:100-104 | Two cells are one up to the zeros and the NaNs exactly if the order ties them. |
| Outcomes.CellsAgree | ops/aggregate.cpp:439-493 | Two aggregates of the same values tie, and are equal unless they are extrema of doubles. |
| Outcomes.SingleIsResult | ops/aggregate.cpp:206-493 | The single-threaded aggregate is a result of the group-by in the order-free sense. |
| Outcomes.ResultsAgree | exec/parallel.cpp:431-599 | Two results of one group-by, however computed, are the same rows one to one, every cell tied; the same multiset of rows where no extremum of doubles is asked for. |
| TopSorts.ResultSetToTable | exec/parallel.cpp:114-160 | The table rebuilt from merged rows reads back as the same rows: nulls, values, strings by value. |
| TopSorts.SortTop | exec/parallel.cpp:385-393 | The final sort's output is the stable sort of the merged rows: sorted, exactly those rows, and tied rows as they came. |
| TopSorts.StableOverSorted | ops/sort.cpp:96-105 | Sorting rows already sorted by other keys gives rows sorted by the new keys followed by the old ones. |
| TopSorts.SchedulesTie | exec/parallel.cpp:385-393 | Two sorted outcomes of the same rows tie at every position. |
| ParallelPlans.SemTyped | exec/parallel.cpp:89-110 | Every value a streaming plan outputs is of its column's type. |
| ParallelPlans.NodeTyped | exec/parallel.cpp:383-400 | So is every value of a supported plan's result. |
| ParallelPlans.RunNode | exec/parallel.cpp:383-400 | For every supported plan and every schedule: a permutation of the single-threaded rows; the groups of an aggregate as `RunAggregate` gives them; under a sort, the stable sort of what its child gave, for any number of sorts, over an aggregate too. |
| ParallelPlans.RunPlan | exec/parallel.cpp:374-381 | A supported plan gives what its run promises under every schedule, or fails only when the group ids run out; any other gives what the single-threaded lowering gives. |
| PlanMeanings.RunSingle | exec/parallel.cpp:374-381 | A supported plan run operator by operator on one thread: the rows in order, the groups in first-seen order, the stable sort. |
| PlanMeanings.OneThreadIsPlan | exec/parallel.cpp:374-400 | What one thread gives is what the plan means. |
| PlanMeanings.RunIsPlan | exec/parallel.cpp:383-400 | What any complete schedule gives is what the plan means, if in every group the morsels agree on the NaNs of its double extrema, or one thread runs. |
| PlanMeanings.PlanIsUnique | exec/parallel.cpp:383-400 | Two results that are what the plan means have the same rows up to ties of doubles, and exactly the same where no extremum of doubles is asked for, if no sum of doubles rounds. |
| PlanMeanings.PlanSorted | exec/parallel.cpp:385-393 | The result of a sort over sorts is sorted by the outermost keys, then by those of each sort below. |
| PlanMeanings.RunsAgree | exec/parallel.cpp:374-400 | Two runs under any two schedules, thread counts and morsel sizes, and the single-threaded run, agree in that sense. |
| PlanMeanings.SortedResultsTie | exec/parallel.cpp:385-393 | Two results of a sorted plan, over an aggregate or not, tie at every position on the outermost keys followed by those of each sort below, if no sum of doubles rounds. |
| PlanMeanings.SortedOutcomesTie | exec/parallel.cpp:385-393 | So do two runs of it under any two schedules, and the single-threaded run, if in every group the morsels agree on the NaNs of its double extrema. |
| Histograms.IndexMonotone | bench/histogram.h:80-87 | Larger values never land in lower buckets, on all 64-bit values. |
| Histograms.EdgeInBucket | bench/histogram.h:80-96 | Each bucket's upper edge is a value of that bucket. |
| Histograms.EdgeBounds | bench/histogram.h:80-96 | A value below 2^63 is at most its bucket's upper edge, which is at most a sixty-fourth of the value beyond it. |
| Histograms.BeyondRange | bench/histogram.h:80-96 | From 2^63 on, values clamp into the top bucket, whose edge is below them. |
| Histograms.LatencyHistogram.Record | bench/histogram.h:33-39 | Counts, total, sum, minimum and maximum are those of the recorded values and the new one. |
| Histograms.ExtremesAre | bench/histogram.h:33-39 | The minimum and the maximum are recorded values and bound all of them. |
| Histograms.LatencyHistogram.Merge | bench/histogram.h:41-47 | Merging is recording the other's values too, for itself as well. |
| Histograms.LatencyHistogram.ValueAtQuantile | bench/histogram.h:60-73 | Answers with the edge of the bucket that holds rank floor(q * total), capped at the maximum; 0 if empty. |
| Histograms.RankedValue | bench/histogram.h:60-73 | That bucket is the bucket of the value at the rank, in ascending order. |
| Histograms.QuantileBounds | bench/histogram.h:56-73 | The answer is at least the value at the rank and at most a sixty-fourth more, for values below 2^63. |
| Histograms.DocRankIff | bench/histogram.h:56-65 | The code's rank is the documented ceil(q * count)-th if and only if q * count is not a whole number below the count; it is never lower. |
| Histograms.SameAnswerIff | bench/histogram.h:60-73 | Two ranks get one answer if and only if the values at them share a bucket: capping at the maximum hides no difference. |
| Histograms.DocAnswerIff | bench/histogram.h:56-73 | The answer is the one for the documented rank if and only if the value at that rank is in the bucket of the value at the code's rank. |
| Histograms.MedianOfTwo | bench/histogram.h:56-65 | The median of 1 and 1000 is answered with 1000, where the documented rank names 1. |

## Left out

- AggKernels.SumF64Vector: promised where no partial sum of the values rounds, because rounding is not modelled.
- GlobalAggregates.FoldFloats: the same for the sums of doubles of a keyless aggregate.
- GlobalAggregates.FoldBatch: the same for the sums of doubles of a keyless aggregate.
- PartialAggs.FoldPlainKeeps: the same for partial sums of doubles.
- PartialAggs.MergeKeeps: the same for merged sums of doubles.
- ParallelAggregates.RunAggregate: the same for SUM and AVG of doubles.
- ParallelAggregates.NaNFreeIsExact: one way; the exact condition is that of `EverySchedules.AlwaysSafeIffUniform`.
- PlanMeanings.PlanIsUnique: sums and averages of doubles must not round.
- PlanMeanings.RunsAgree: sums and averages of doubles must not round, and double extrema need the morsels to agree on NaNs.
- AsofJoins.AsofAll: requires that no partition key is a string; the constructor accepts one, but strings are outside that join's grammar.
- CompressedTables.RoundTrip: string columns are outside the codec.
- HashTables.RoundUpPow2: the capacity is unbounded, so a request above 2^63 is not modelled as an overflow.
- Histograms.LatencyHistogram.ValueAtQuantile: the product of quantile and count is taken exactly, not rounded as a double.
- HashJoins.JoinAll: requires room for the key strings' codes within 2^31; what happens beyond is not modelled.
- AggregateOps.AggregateAll: requires the same room, and fewer than 2^63 rows.
- ParallelPlans.RunPlan: the plans that are not supported are run by the parameter `Env.lower`.
- Column lookup by name, plan construction, plan printing and error messages.
- Runtime dispatch between instruction sets, aligned allocation, intrinsics.
- IEEE rounding in arithmetic, in double sums and in the double-to-integer cast.
- Closing operators, reopening them, and the lifetime of buffers and dictionaries.
- The window operator (`tsx/window.cpp`).
- The scan of a whole table as an operator of its own: it is the morsel scan over all rows.
- Memory ordering: the cursor's fetch-and-add is one atomic step, and merging starts after all workers have stopped.
- The oracle's generators, SQL rendering and comparison with another engine; the deliberately broken copies; the benchmarks but for the histogram.
- `count_set` and the bitwise OR of bitmaps, the histogram's mean: they would only add easy members.
