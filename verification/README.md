# Verified models of MOPSA components

Dafny models of eight parts of the MOPSA repository, each with proofs of what the part is for.
`dafny verify dfyconfig.toml` checks everything.

**Translating the Clang AST** (`ClangGraph`, `HeapSteps`, `ListSteps`, `NodeSteps`, `Mirror`, `LookAlikes`, `OCamlTypes`,
`Translator`, `Caches`).
`Clang_to_ml.cc` copies a shared, cyclic graph of Clang nodes into OCaml blocks, with one cache for each family of nodes.
Types and declarations enter their cache before their block is filled, so cycles end; qualified types enter theirs
afterwards, so one that lies on a cycle is built again on the way up and its entry overwritten. The class `Translator` has the
heap, the uid counter and the four caches as state and its methods follow the C++ functions. The invariant `Inv(graph, state,
open, pending)` says which blocks are still being filled (`open`) and which qualified types are waiting for their own type
(`pending`); every method keeps it and only extends the state. `Mirror` draws the conclusions: bisimilarity, sharing, uids,
that exactly the reachable nodes are translated, that the root is built twice exactly when its type leads back to it, and how
often every other qualified type is built. `LookAlikes` proves that nothing is lost: nodes with the
same translation look alike in the source. `OCamlTypes` compares the blocks with the OCaml types they are read as. `Caches`
refines the growable cache
to a finite map.

**Target options** (`TargetOptions`). The same file's conversion of compiler options to OCaml and back, with lists built in
place. It is the identity exactly on options without NUL characters.

**Fannkuch** (`Flips`, `Rotations`, `Fannkuch`). A permutation generator driven by counters, a flip loop and a pruning test.
`Rotations` shows that the counters are a numeral system whose numerals and the permutations are in bijection; `Flips` that
flipping ends and that pruning loses no maximum; `Fannkuch` is the program on arrays.

**Bellman-Ford** (`BellmanFord`, `PythonLists`). Distances in place, then a scan for an arc that can still be relaxed. The
table is characterised exactly, for graphs with negative cycles as well.

**Directed rounding** (`Floats`, `Hulls`, `Intervals`). Numbers are an arbitrary finite set of reals, closed under negation
and containing 0, with two infinities and NaN; directed rounding is that of section 4.3.2 of IEEE 754-2008. `Hulls` proves the
exact interval operations tight over the extended reals, `Intervals` that the programs compute them rounded outward or inward
on mutable two-cell buffers with the unit rounding upward only.

**Reading decimal numbers** (`DecimalStrings`, `DecimalRounding`, `DecimalLiterals`, `SingleStrings`, `BinaryRange`). The hand-written scanner, its rounding, and
which literals it reads correctly.

**Union-find** (`DisjointSets`, `Powers`, `PythonLists`). Path compression and union by rank decide the equivalence closure of
the unions made, with logarithmic look-ups.

**Factorisation** (`Factorization`, `Divisors`). Trial division gives the one prime factorisation; the divisors are found in pairs.

`Options` is a small helper.

## Where the code differs from what one would expect

- `bellman_ford.py` never clears `modified` and relaxes from vertices still at `INF`. Exactly size-1 rounds run, an entry is a
  minimum over routes from every start, and the cycle test is about the whole graph although the message printed names the source
  (`BellmanFord.CycleNeedNotBeReachable`). The message is right for all costs exactly when the source reaches every vertex that
  lies on a closed walk (`BellmanFord.MessageIsRightIff`).
- `Clang_to_ml.cc` allocates twelve slots for a field declaration and stores eleven; the OCaml record has eleven fields.
- A unary transform's block holds three fields itself, where the OCaml constructor has one argument, a record of those three
  fields (Clang_to_ml.cc:4017-4021 and Clang_AST.ml:350, 467-471). It is the only translated type whose block does not fit its
  constructor (`OCamlTypes.BlockFitsIff`).
- Interval subtraction reads the second operand's lower bound after it has stored the result's. With the result written over the
  second operand the outer form can lose members and the inner form can leave the exact hull (`Intervals.SubAliasing`,
  `Intervals.SubInnerAliasing`).
- The scanner skips a minus sign in an exponent but not a plus sign, so `1e+5` reads as 1
  (`DecimalLiterals.PlusExponentIsDropped`, `DecimalLiterals.ConvertsSoundlyIff`).
- `ml_of_string_sgl_down` parses with upward rounding and can return a number above the one written: it does wherever the
  least double above that number is a single (`SingleStrings.SingleAboveOvershoots`), and `10e308` becomes infinity
  (`SingleStrings.HugeOvershoots`). `SingleStrings.OfStringSingleDown` states when it happens for given formats; if pow may err,
  only zero is safe in any formats (`SingleStrings.LowerBoundForEveryPowIff`).
- The docstring of `factorization.py` names Fermat's and Pollard's methods; the code is trial division.

## Model

| member | source | states |
|---|---|---|
| `Translator.Translator.Translate` | parsers/c/lib/parser/Clang_to_ml.cc:4258-4276 | From any qualified type of a well-formed, possibly cyclic graph the translation returns; nothing is left open, earlier blocks are unchanged, and the result is bisimilar to the source node. Starting from nothing, exactly the nodes reachable from the root are translated. A root not yet cached ends with two blocks if its type leads back to it, and with one otherwise. The answer is what the cache then holds, and a second request changes nothing. |
| `Translator.Translator.TranslateQualType` | parsers/c/lib/parser/Clang_to_ml.cc:4258-4276 | Store-after discipline in the middle of any run: keeps the invariant, only extends the heap, returns a block for q; everything new is reachable from q; a newly built block was unknown when q's type had just been translated. The answer is what the cache then holds; if it held one before, nothing changes; a request while q is being built is noted. Terminates although q itself is not yet cached. |
| `Translator.Translator.BuildQual` | parsers/c/lib/parser/Clang_to_ml.cc:309-313 | A cache miss of `CACHED`: the pair is made after its type, and its cache entry may overwrite one made further down. |
| `Translator.Translator.PrepareQual` | parsers/c/lib/parser/Clang_to_ml.cc:4266-4271 | Up to the stores into the pair: the type is translated while q counts as pending, unless the type was cached already. |
| `Translator.Translator.StartQual` | parsers/c/lib/parser/Clang_to_ml.cc:4266-4270 | The tuple of qualifiers and the pair are allocated first; q becomes pending only if its type still has to be translated. |
| `Translator.Translator.FinishQual` | parsers/c/lib/parser/Clang_to_ml.cc:4271-4272 | Both fields are stored, then the cache entry; one block for q exists afterwards, or two if q was finished once already while it was pending. |
| `Translator.Translator.TranslateType` | parsers/c/lib/parser/Clang_to_ml.cc:3949-4217 | Store-before discipline: a hit returns the cached block and changes nothing; a miss enters the cache, fills the block completely and leaves it closed. |
| `Translator.Translator.FillType` | parsers/c/lib/parser/Clang_to_ml.cc:3959-4211 | Each kind of type gets the tag, size and fields its OCaml variant has. |
| `Translator.Translator.TranslateTypedefNameDecl` | parsers/c/lib/parser/Clang_to_ml.cc:4476-4492 | A typedef has one block, complete on return even when the typedef refers to itself through a record; a new one takes the next uid before anything under it does. |
| `Translator.Translator.TranslateFieldDecl` | parsers/c/lib/parser/Clang_to_ml.cc:4351-4382 | A field has one block of twelve slots, complete on return; the twelfth is never written and holds unit. A new one takes the next uid; layout fields are 0 without a valid layout. |
| `Translator.Translator.TranslateRecordDecl` | parsers/c/lib/parser/Clang_to_ml.cc:4393-4452 | A record has one block of nineteen slots, complete on return, though its fields' types may lead back to it; a new one takes the next uid before its fields do. |
| `Translator.Translator.TranslateFieldList` | parsers/c/lib/parser/Clang_to_ml.cc:399-416 | The list built front to back through a pointer to its last cell lists the blocks of the record's fields in order, although each field is translated between allocating its cell and linking it. |
| `Translator.Translator.AddField` | parsers/c/lib/parser/Clang_to_ml.cc:407-412 | One turn of that loop keeps the chain of private cells: nothing the nested translation does touches the new cell or the last one. |
| `Translator.Translator.TranslateTypedefOption` | parsers/c/lib/parser/Clang_to_ml.cc:447-460 | None is an immediate; Some is a block allocated before its content is translated. |
| `Translator.Translator.StoreUid` | parsers/c/lib/parser/Clang_to_ml.cc:443-444 | The current counter value goes to the field, then the counter grows by one. |
| `Translator.Translator.constructor` | parsers/c/lib/parser/Clang_to_ml.cc:786 | A new translator stands in the empty state, with four separate caches. |
| `Translator.EmptyStateIsFine` | parsers/c/lib/parser/Clang_to_ml.cc:786 | The empty state satisfies the invariant, so every run starts in it. |
| `Mirror.TranslationMirrorsSource` | parsers/c/lib/parser/Clang_to_ml.cc:305-336 | When no block is being filled, every block is bisimilar to the node it was built for: equal tags, sizes, scalars, and bisimilar children at every depth, including blocks whose cache entry was overwritten. |
| `Mirror.NodeAgrees` | parsers/c/lib/parser/Clang_to_ml.cc:323-325 | Complete blocks and their nodes cannot be told apart by looking k levels deep, for every k. |
| `LookAlikes.NothingIsLost` | parsers/c/lib/parser/Clang_to_ml.cc:3949-4276 | Two nodes of one kind that one value mirrors look alike in the source at every depth: same kinds, qualifiers, flags, numbers laid out, names and children. Translating loses nothing. |
| `LookAlikes.TagTellsKind` | parsers/c/lib/parser/Clang_to_ml.cc:3903-3946 | Types whose blocks have one tag are of one kind. |
| `OCamlTypes.TagIsPosition` | parsers/c/lib/parser/Clang_to_ml.cc:3903-3946 | The tag of every type is the position of its enumerator in the list of all 35, which is also the order of the OCaml constructors. |
| `OCamlTypes.RecordKindIsPosition` | parsers/c/lib/parser/Clang_to_ml.cc:4385-4390 | The number of a record kind is its position among the kinds. |
| `OCamlTypes.BlockFitsIff` | parsers/c/lib/parser/Clang_AST.ml:306-420 | A type's block has the arguments of its OCaml constructor iff it is no unary transform. |
| `OCamlTypes.QualTypeFits` | parsers/c/lib/parser/Clang_AST.ml:299-303 | A qualified type is a pair whose second part holds the three flags in the order of the OCaml record. |
| `OCamlTypes.TypedefFits` | parsers/c/lib/parser/Clang_AST.ml:208-214 | A typedef's block has the fields of the OCaml record, in order. |
| `OCamlTypes.FieldFits` | parsers/c/lib/parser/Clang_AST.ml:154-166 | A field's block has the eleven fields of the OCaml record, in order, and one slot more. |
| `OCamlTypes.RecordFits` | parsers/c/lib/parser/Clang_AST.ml:169-191 | A record's block has the nineteen fields of the OCaml record, in order. |
| `Mirror.ReachableIsTranslated` | parsers/c/lib/parser/Clang_to_ml.cc:4258-4276 | Every node reachable from a translated node is translated. |
| `Mirror.SharingIsPhysical` | parsers/c/lib/parser/Clang_to_ml.cc:160-161 | A type or declaration has at most one block; so has a qualified type, unless it lies on a cycle, when it has at most two. |
| `Mirror.QualIsBuiltTwiceIffOnCycle` | parsers/c/lib/parser/Clang_to_ml.cc:305-314 | The root gets a block on the way down and another on the way up iff its type leads back to it; otherwise one. |
| `Mirror.QualIsBuiltTwiceIffAskedAgain` | parsers/c/lib/parser/Clang_to_ml.cc:305-314 | The exact number of blocks of every qualified type once nothing is being built: none if it was never asked for, two if it was asked for again while it was being built with its own type not yet cached, else one; the second case occurs on cycles only. |
| `Mirror.TranslatedIsReachable` | parsers/c/lib/parser/Clang_to_ml.cc:4258-4276 | A run from nothing translates a node iff the root reaches it. |
| `Translator.TranslateSelfPointer` | parsers/c/lib/parser/Clang_to_ml.cc:3997-3999 | On a pointer type that points to itself the qualified type is built twice and the result mirrors the source all the same. |
| `Mirror.UidsAreBijective` | parsers/c/lib/parser/Clang_to_ml.cc:443-444 | A number is below the counter iff it is the uid of exactly one translated declaration, and every translated declaration has one. |
| `NodeSteps.TypeStarts` | parsers/c/lib/parser/Clang_to_ml.cc:355-368 | Entering the cache with an empty block shrinks the set of nodes still to do and keeps the invariant with the block marked open. |
| `NodeSteps.DeclStarts` | parsers/c/lib/parser/Clang_to_ml.cc:327-336 | The same for declarations, together with the uid in field 0. |
| `NodeSteps.BuildingKept` | parsers/c/lib/parser/Clang_to_ml.cc:323-325 | A nested translation leaves the fields already stored, and those still to come, as they are. |
| `NodeSteps.BuildingFills` | parsers/c/lib/parser/Clang_to_ml.cc:355-368 | Storing a value that holds for the next slot completes that slot and no other changes. |
| `NodeSteps.BuildingEnds` | parsers/c/lib/parser/Clang_to_ml.cc:355-368 | A block with all slots done may be closed: the invariant holds without it being open. |
| `NodeSteps.QualResumes` | parsers/c/lib/parser/Clang_to_ml.cc:309-311 | When the type returns, either nothing has happened to q, or q was pending meanwhile; if it was finished meanwhile, it lies on a cycle. |
| `NodeSteps.QualFinishes` | parsers/c/lib/parser/Clang_to_ml.cc:309-311 | Storing over an entry made further down keeps caches, completeness and the exact count of blocks. |
| `NodeSteps.ListEnds` | parsers/c/lib/parser/Clang_to_ml.cc:399-416 | The chain behind the dummy cell is the list of the fields. |
| `NodeSteps.TodoDrops` | parsers/c/lib/parser/Clang_to_ml.cc:355-368 | A node that enters its cache leaves the termination measure. |
| `HeapSteps.HarmlessStep` | parsers/c/lib/parser/Clang_to_ml.cc:317-326 | Allocation, stores to open or unknown blocks, and bookkeeping keep every part of the invariant. |
| `HeapSteps.StoreQualStep` | parsers/c/lib/parser/Clang_to_ml.cc:309-311 | Finishing a complete pair keeps the invariant, with or without an earlier entry; it is noted if the qualified type is being built further up as well. |
| `Caches.Cache.Contains` | parsers/c/lib/parser/Clang_to_ml.cc:208-215 | True iff the key is in the map the cache stands for. |
| `Caches.Cache.Get` | parsers/c/lib/parser/Clang_to_ml.cc:217-219 | The value last stored under a present key. |
| `Caches.Cache.Store` | parsers/c/lib/parser/Clang_to_ml.cc:221-240 | The map is updated at the key and nowhere else, in the key's slot or in the next new one; total words copied by growing stay at most twice the slots used. |
| `Caches.Cache.Grow` | parsers/c/lib/parser/Clang_to_ml.cc:229-235 | Doubling the slots loses nothing; only the old slots are copied. |
| `Caches.Cache.Uncache` | parsers/c/lib/parser/Clang_to_ml.cc:242-245 | The key, and only it, leaves the map; no slot is given back. |
| `Caches.Cache.GetValues` | parsers/c/lib/parser/Clang_to_ml.cc:263-277 | The list is read off a strictly decreasing sequence of slots, exactly those of the live keys whose value is not unit. |
| `Caches.ListingIsReadOff` | parsers/c/lib/parser/Clang_to_ml.cc:263-277 | The slots of the live keys, highest first, read off give the listing entry by entry. |
| `Caches.ListingIsExact` | parsers/c/lib/parser/Clang_to_ml.cc:263-277 | That list has one entry for each live key whose value is not unit, and holds exactly those values. |
| `TargetOptions.OCaml.ThereAndBack` | parsers/c/lib/parser/Clang_to_ml.cc:4606-4674 | C++ to OCaml to C++ restores the options iff no string contains a NUL; with NULs each string is cut at its first one. |
| `TargetOptions.OCaml.BackAndThere` | parsers/c/lib/parser/Clang_to_ml.cc:4606-4674 | OCaml to C++ to OCaml gives a new block that stands for the same options iff they are free of NULs. |
| `TargetOptions.OCaml.TargetOptionsToML` | parsers/c/lib/parser/Clang_to_ml.cc:4638-4674 | The block stands for the options with strings cut at NULs; earlier blocks are unchanged. |
| `TargetOptions.OCaml.TargetOptionsFromML` | parsers/c/lib/parser/Clang_to_ml.cc:4606-4635 | Reads any block that stands for options; an unknown EABI tag gives the default; what does not cross the border is untouched. |
| `TargetOptions.OCaml.CopyStrings` | parsers/c/lib/parser/Clang_to_ml.cc:399-416 | The list built in place holds the strings in order, for any number of them. |
| `TargetOptions.OCaml.ReadStrings` | parsers/c/lib/parser/Clang_to_ml.cc:4587-4594 | Walking the list gives the strings in order. |
| `TargetOptions.RepresentsOne` | parsers/c/lib/parser/Clang_to_ml.cc:4606-4635 | A value stands for at most one set of options. |
| `TargetOptions.RepresentsAsRecord` | parsers/c/lib/parser/Clang_AST.ml:1939-1950 | A block stands for options iff its fields, in the order of the OCaml record, hold their parts. |
| `TargetOptions.EabiTagIsPosition` | parsers/c/lib/parser/Clang_to_ml.cc:4597-4603 | The tag of an EABI version is its position among the versions. |
| `TargetOptions.CutIsWhole` | parsers/c/lib/parser/Clang_to_ml.cc:4612-4616 | Cutting at NULs is idempotent and changes nothing iff there is no NUL. |
| `Fannkuch.Fannkuch` | benchmarks/c/examples/fannkuch.c:18-96 | For n >= 1 the result is the maximum number of flips over all n! permutations; each permutation is shown exactly once and the generator ends at the identity. For n < 1 the result is 0. |
| `Fannkuch.CountFlips` | benchmarks/c/examples/fannkuch.c:53-69 | The in-place loop with position 0 cached in k counts the flips until 0 is on top. |
| `Fannkuch.ReverseInside` | benchmarks/c/examples/fannkuch.c:60-62 | Positions 1..k-1 are reversed and all others kept. |
| `Fannkuch.RotateDown` | benchmarks/c/examples/fannkuch.c:79-89 | The prefix 0..r is rotated down by one place. |
| `Rotations.RotateByOne` | benchmarks/c/examples/fannkuch.c:79-89 | One place down: the first entry goes behind the others of the prefix. |
| `Fannkuch.ResetCounts` | benchmarks/c/examples/fannkuch.c:46-48 | Refilling the low wheels changes neither the permutation they stand for nor the rank. |
| `Fannkuch.Advance` | benchmarks/c/examples/fannkuch.c:75-94 | Either the generator stands at the next rank, or all n! ranks are done and the identity is back. |
| `Fannkuch.Evaluate` | benchmarks/c/examples/fannkuch.c:52-73 | The running maximum takes in the permutation unless it is pruned. |
| `Fannkuch.BestIsMax` | benchmarks/c/examples/fannkuch.c:52-94 | The best score over all permutations is the true maximum although pruned ones score nothing. |
| `Flips.FlipCount` | benchmarks/c/examples/fannkuch.c:58-69 | The flip loop ends after fewer than 2^(n-1) flips, the measure being the weight of the fixed positions. |
| `Flips.FlipGainsWeight` | benchmarks/c/examples/fannkuch.c:58-69 | A flip strictly raises the sum of 2^(i-1) over fixed positions i >= 1. |
| `Flips.SwapAddsOneFlip` | benchmarks/c/examples/fannkuch.c:52 | For a pruned p with p[0] != 0, swapping labels 0 and n-1 gives a permutation with exactly one flip more. |
| `Flips.PruningIsHarmless` | benchmarks/c/examples/fannkuch.c:52 | So each pruned permutation that flips at all is beaten by one that is not pruned. |
| `Rotations.TurnedIsInjective` | benchmarks/c/examples/fannkuch.c:75-94 | Different wheel positions show different permutations. |
| `Rotations.TurnedIsSurjective` | benchmarks/c/examples/fannkuch.c:75-94 | Every permutation is shown by some wheel position. |
| `Rotations.RankIsInjective` | benchmarks/c/examples/fannkuch.c:46-48 | Wheel positions with the same mixed-radix rank are the same. |
| `Rotations.RankBound` | benchmarks/c/examples/fannkuch.c:75-94 | Ranks of m wheels lie below m!. |
| `Rotations.EnumerationIsInjective` | benchmarks/c/examples/fannkuch.c:40-95 | Positions in rank order show no permutation twice. |
| `Rotations.EnumerationIsComplete` | benchmarks/c/examples/fannkuch.c:40-95 | n! positions in rank order show every permutation. |
| `Fannkuch.TurnWheel` | benchmarks/c/examples/fannkuch.c:80-93 | One rotation moves wheel r on by one, or completes its turn and restores the arrangement of the higher wheels. |
| `Fannkuch.TurnWheelRank` | benchmarks/c/examples/fannkuch.c:90-93 | It adds r! to the rank, with carry into the next wheel. |
| `BellmanFord.HasNegativeCycleFrom` | benchmarks/python/typpete/bellman_ford.py:31-39 | The answer is true iff the graph has a negative cycle anywhere, for every legal source and any integer costs. |
| `BellmanFord.BellmanFord` | benchmarks/python/typpete/bellman_ford.py:13-28 | Exactly what size-1 in-place rounds compute: each entry is the least offset plus cost of the routes that split into at most size-1 stretches in listing order. So it is realised by a walk, and at most every walk of at most size-1 arcs. |
| `BellmanFord.RelaxKeepsLeast` | benchmarks/python/typpete/bellman_ford.py:22-26 | Relaxing the next arc extends the routes followed so far by exactly those that end with it. |
| `BellmanFord.TableWithoutArcs` | benchmarks/python/typpete/bellman_ford.py:4-28 | Without arcs the source keeps 0 and every other vertex 100000000. |
| `BellmanFord.RelaxEdge` | benchmarks/python/typpete/bellman_ford.py:24-26 | One relaxation step; the flag records whether anything changed and is never cleared. |
| `BellmanFord.RoundAddsOneArc` | benchmarks/python/typpete/bellman_ford.py:19-26 | A full round of in-place relaxation extends the bound from walks of k arcs to walks of k+1. |
| `BellmanFord.RelaxRealised` | benchmarks/python/typpete/bellman_ford.py:24-26 | A relaxation keeps every entry realised by a walk. |
| `BellmanFord.Simplify` | benchmarks/python/typpete/bellman_ford.py:19 | Without negative cycles every walk can be cut down to fewer than size arcs without gaining weight. |
| `BellmanFord.StableIffNoNegativeCycle` | benchmarks/python/typpete/bellman_ford.py:34-38 | After size-1 rounds no arc can be relaxed iff there is no negative cycle. |
| `BellmanFord.DistancesAreMinimal` | benchmarks/python/typpete/bellman_ford.py:13-28 | Without negative cycles each entry is the exact minimum of offset plus weight over all starts and all walks. |
| `BellmanFord.SmallEntriesAreDistances` | benchmarks/python/typpete/bellman_ford.py:13-28 | Where no walk weighs less than a given bound, an entry is below INF plus that bound iff a walk from the source is, and it is then the distance from the source. |
| `BellmanFord.CycleNeedNotBeReachable` | benchmarks/python/typpete/bellman_ford.py:55-57 | A graph whose negative cycle is reported although the source does not reach it. |
| `BellmanFord.MessageIsRightIff` | benchmarks/python/typpete/bellman_ford.py:55-57 | Whatever the costs, the report is about cycles the source reaches iff the source reaches every vertex on a closed walk. |
| `Intervals.AddOuter` | utils/itvUtils/floats_round.c:451-456 | The result is the exact hull rounded outward, for all bounds and all aliasing of the three buffers, in upward mode only. |
| `Intervals.AddInner` | utils/itvUtils/floats_round.c:458-463 | The exact hull rounded inward, same conditions. |
| `Intervals.SubOuter` | utils/itvUtils/floats_round.c:539-544 | The exact hull rounded outward if the result is not written over the second operand; otherwise the upper bound is computed from the new lower bound. |
| `Intervals.SubInner` | utils/itvUtils/floats_round.c:546-551 | The same, rounded inward. |
| `Intervals.MulOuter` | utils/itvUtils/floats_round.c:635-648 | The exact product hull rounded outward for all sign combinations and infinite bounds, whatever the aliasing; bounds that are not numbers are ignored where fmin and fmax ignore them, and end as the weakest bound. |
| `Intervals.MulInner` | utils/itvUtils/floats_round.c:650-663 | The exact product hull rounded inward, same treatment of bounds that are not numbers. |
| `Intervals.DivPosOuter` | utils/itvUtils/floats_round.c:773-786 | The exact quotient hull rounded outward, whatever the aliasing, same treatment of bounds that are not numbers. |
| `Intervals.DivPosInner` | utils/itvUtils/floats_round.c:788-801 | The exact quotient hull rounded inward, likewise. |
| `Intervals.AddIsOptimal` | utils/itvUtils/floats_round.c:451-463 | Outer addition encloses all sums and no smaller machine interval does; inner addition is the largest machine interval inside the exact hull. |
| `Intervals.SubIsOptimal` | utils/itvUtils/floats_round.c:539-551 | The same for differences. |
| `Intervals.MulIsOptimal` | utils/itvUtils/floats_round.c:635-663 | The same for products. |
| `Intervals.DivIsOptimal` | utils/itvUtils/floats_round.c:773-801 | The same for quotients by an interval of constant sign, with infinite dividends and divisors. |
| `Intervals.SubAliasing` | utils/itvUtils/floats_round.c:539-544 | Outer subtraction of machine intervals is sound for all operands iff the result is not written over the second operand. |
| `Intervals.SubInnerAliasing` | utils/itvUtils/floats_round.c:546-551 | Inner subtraction of machine intervals stays inside the exact hull for all operands iff the result is not written over the second operand. |
| `Intervals.CornersRound` | utils/itvUtils/floats_round.c:635-663 | Rounding each corner product and then taking bounds is rounding the hull's bounds, in both directions from upward mode. |
| `Intervals.QuartersRound` | utils/itvUtils/floats_round.c:773-801 | The same for corner quotients. |
| `Intervals.AddDown` | utils/itvUtils/floats_round.c:229 | Rounds the exact sum down while the unit rounds up. |
| `Intervals.SubDown` | utils/itvUtils/floats_round.c:239 | Rounds the exact difference down while the unit rounds up. |
| `Intervals.MulDown` | utils/itvUtils/floats_round.c:249 | Rounds the exact product down while the unit rounds up. |
| `Intervals.MulZDown` | utils/itvUtils/floats_round.c:259 | The same with 0 times infinity equal to 0. |
| `Intervals.DivDown` | utils/itvUtils/floats_round.c:269 | Rounds the exact quotient down while the unit rounds up. |
| `Intervals.DivZDown` | utils/itvUtils/floats_round.c:279 | The same with 0 over anything and anything over infinity equal to 0. |
| `Intervals.ExactDivMeaning` | utils/itvUtils/floats_round.c:164-269 | The exact quotient times the divisor is the dividend; over an infinite divisor it is what the quotients by growing divisors tend to. |
| `Hulls.AddHullIsHull` | utils/itvUtils/floats_round.c:453-454 | The bounds of a sum are the tightest extended reals around all sums. |
| `Hulls.SubHullIsHull` | utils/itvUtils/floats_round.c:541-542 | The same for differences. |
| `Hulls.MulHullIsHull` | utils/itvUtils/floats_round.c:637-645 | The corner products under 0 times infinity = 0 bound exactly the set of products of finite members. |
| `Hulls.DivHullIsHull` | utils/itvUtils/floats_round.c:775-783 | The corner quotients under x over infinity = 0 bound exactly the set of quotients. |
| `Floats.NegUpIsDown` | utils/itvUtils/floats_round.c:453 | Negating, rounding up and negating again is rounding down. |
| `Floats.MulZRounds` | utils/itvUtils/floats_round.c:161 | Multiplication with 0 times infinity = 0 rounds the exact product, and down by negation. |
| `Floats.DivZRounds` | utils/itvUtils/floats_round.c:164 | Division with x over infinity = 0 rounds the exact quotient, and down by negation. |
| `DecimalStrings.ParseString` | utils/itvUtils/floats_round.c:878-930 | For every string: the rounding mode set is the one that rounds the magnitude the right way, and the result is the converted value, which `DecimalRounding.ConvertedIsTightest` pins down. |
| `DecimalRounding.ConvertedIsTightest` | utils/itvUtils/floats_round.c:894-929 | The magnitude is the least machine number above (or greatest below) the product of pow with machine numbers that stay above (or below) the results of multiplying by ten and adding a digit. |
| `DecimalRounding.TightestIsUnique` | utils/itvUtils/floats_round.c:894-929 | Only one number is that. |
| `DecimalRounding.ConversionRoundsOnce` | utils/itvUtils/floats_round.c:894-929 | Where every number that comes up while the digits are read is a machine number, the result is the digits times pow rounded once, with the sign; with an exact pow it is the number read rounded once. |
| `DecimalLiterals.OfStringUp` | utils/itvUtils/floats_round.c:932-936 | The result is at or above the number read, for both signs and any number of digits, provided pow is finite and bounds 10^e in the current direction; it is the tightest that digit-by-digit reading allows, and the number rounded up once where the digits and pow are exact. |
| `DecimalLiterals.OfStringDown` | utils/itvUtils/floats_round.c:938-942 | The result is at or below the number read, same condition; the tightest, and the number rounded down once where the digits and pow are exact. |
| `DecimalLiterals.ScanOfWrite` | utils/itvUtils/floats_round.c:883-925 | Reading a written literal, with blanks wherever they are skipped and foreign text behind it, gives back its sign, digits and exponent, except that an exponent with a plus sign is dropped. |
| `DecimalLiterals.SoundConversion` | utils/itvUtils/floats_round.c:878-930 | In any format and for any admissible pow, a literal is converted on the promised side unless it has a plus-signed exponent that matters and its magnitude is rounded up. |
| `DecimalLiterals.ConvertsSoundlyIff` | utils/itvUtils/floats_round.c:913-925 | A literal is converted on the promised side in every format that holds the program's constants iff it has no plus-signed exponent that matters, or its magnitude is rounded down anyway. |
| `DecimalLiterals.PlusExponentIsDropped` | utils/itvUtils/floats_round.c:913-924 | The text 1e+5 is read as 1. |
| `DecimalLiterals.MisreadMagnitude` | utils/itvUtils/floats_round.c:918-920 | Dropping a plus-signed exponent never enlarges the magnitude, and shrinks it iff exponent and mantissa are not zero. |
| `SingleStrings.OfStringSingleUp` | utils/itvUtils/floats_round.c:944-950 | The tightest double conversion rounded up to single precision, still at or above the number read. |
| `SingleStrings.OfStringSingleDown` | utils/itvUtils/floats_round.c:952-958 | The tightest upward double conversion rounded down to single precision; it is a lower bound iff no single lies above the number read and at or below the first conversion. |
| `SingleStrings.LowerBoundForEveryPowIff` | utils/itvUtils/floats_round.c:952-958 | In any one pair of formats, a text is bounded from below for every admissible pow iff its mantissa is zero. |
| `SingleStrings.SingleAboveOvershoots` | utils/itvUtils/floats_round.c:952-958 | In any formats and for any admissible pow: where the least double above the number read is a single, and not that number itself, the result is too large. |
| `SingleStrings.ZeroIsSafe` | utils/itvUtils/floats_round.c:894-929 | A zero mantissa is converted exactly in any formats and for any finite pow. |
| `SingleStrings.SingleDownIsLowerIff` | utils/itvUtils/floats_round.c:952-958 | Where the first conversion is the least double above the number, the result is a lower bound iff the number is a double, or the double above it is not a single. |
| `SingleStrings.HugeOvershoots` | utils/itvUtils/floats_round.c:954-956 | In every format whose numbers lie below it, and for every admissible pow, the text 10e308 is converted to plus infinity. |
| `SingleStrings.BinaryIsBelowHuge` | utils/itvUtils/floats_round.c:954 | 10e308 lies above 2^1024, and so above every binary64 number. |
| `DisjointSets.DisjointSets.constructor` | benchmarks/python/typpete/todo/later/disjoint_sets.py:2-9 | Every element starts in a class of its own. |
| `DisjointSets.DisjointSets.FindSet` | benchmarks/python/typpete/todo/later/disjoint_sets.py:11-17 | Returns the root; every element on the path, and no other, is hung directly under it; no root changes; the number of activations is bounded by the rank gained. |
| `DisjointSets.DisjointSets.IsSameSet` | benchmarks/python/typpete/todo/later/disjoint_sets.py:19-20 | True iff the equivalence closure of the unions so far relates the two elements. |
| `DisjointSets.DisjointSets.UnionSets` | benchmarks/python/typpete/todo/later/disjoint_sets.py:22-35 | One more union is accounted for and the number of classes drops by one iff the two were not equivalent before. Then the root of higher rank stands for both classes, on a tie that of the second, which gains a rank; all other representatives, ranks and sizes stay, and the parents are those after two look-ups and one link. |
| `DisjointSets.SameRootIffEquivalent` | benchmarks/python/typpete/todo/later/disjoint_sets.py:11-35 | Two elements have one root iff the unions so far relate them. |
| `DisjointSets.CompressKeepsRoot` | benchmarks/python/typpete/todo/later/disjoint_sets.py:15-17 | Hanging an element under its root changes no root. |
| `DisjointSets.CompressedAt` | benchmarks/python/typpete/todo/later/disjoint_sets.py:15-17 | A look-up moves exactly the elements on its path, and moves them to the root. |
| `DisjointSets.CompressedTwice` | benchmarks/python/typpete/todo/later/disjoint_sets.py:11-17 | Looking up an element that points at its root changes nothing. |
| `DisjointSets.LinkKeepsConsistent` | benchmarks/python/typpete/todo/later/disjoint_sets.py:28-35 | Linking two roots by rank keeps forest, class sizes, 2^rank <= size, the number of classes, and the relation decided. |
| `DisjointSets.LinkKeepsCounted` | benchmarks/python/typpete/todo/later/disjoint_sets.py:30-35 | After a link set_size is the size of the class and at least 2^rank at every root. |
| `DisjointSets.LinkKeepsDecides` | benchmarks/python/typpete/todo/later/disjoint_sets.py:29-32 | After a link roots decide the closure of the unions including the new one. |
| `DisjointSets.RankIsLogarithmic` | benchmarks/python/typpete/todo/later/disjoint_sets.py:28-35 | 2^rank is at most the number of elements. |
| `DisjointSets.LookupDepth` | benchmarks/python/typpete/todo/later/disjoint_sets.py:11-17 | A look-up from a non-negative index makes at most log2(n) + 1 activations. |
| `Factorization.Factorize` | benchmarks/python/typpete/factorization.py:5-18 | For n >= 1 the keys are primes with positive multiplicities whose product is n; for n < 1 the result is empty. |
| `Factorization.FactorizationIsExact` | benchmarks/python/typpete/factorization.py:5-18 | The keys are exactly the primes dividing n, and each value is the largest power that divides n. |
| `Factorization.FactorizationIsUnique` | benchmarks/python/typpete/factorization.py:5-18 | There is no other such map. |
| `Factorization.PrimeDividesFactor` | benchmarks/python/typpete/factorization.py:10-12 | A prime that divides a product divides a factor. |
| `Factorization.NoDivisorUpToRoot` | benchmarks/python/typpete/factorization.py:16-17 | Once d * d > n, n has no divisor left between 2 and n, which justifies the jump to d = n. |
| `Factorization.SmallestDivisorIsPrime` | benchmarks/python/typpete/factorization.py:10-14 | The first d that divides n is prime. |
| `Divisors.GetAllDivisors` | benchmarks/python/typpete/factorization.py:21-30 | Exactly the positive divisors of n, once each, in increasing order; nothing for n < 1. |
| `Divisors.TryOne` | benchmarks/python/typpete/factorization.py:25-28 | Trying d settles d and its cofactor and nothing else. |
| `Divisors.AllTried` | benchmarks/python/typpete/factorization.py:24 | When the loop stops every divisor or its cofactor has been tried. |

## Left out

- Translator.Translator.TranslateType: covers the variants made of qualified types, records, typedefs, scalars and names, and the default; array, function, enum and template types repeat the same macros over other nodes.
- Translator.Translator.FillType: covers the same variants as `Translator.Translator.TranslateType`.
- Translator.Translator.TranslateRecordDecl: models C records; template specialisations, bases, methods and friends of C++ classes are absent, so slots 15 to 18 hold unit.
- Translator.Translator.TranslateFieldDecl: names, ranges, comments and size expressions come from other translators and are opaque values here.
- Translator.Translator.StoreUid: the counter is unbounded, where the program's is a machine integer.
- ClangGraph.WellFormed: the graph is finite, its children exist, and a record and a typedef, which share a cache, have different addresses, as C++ objects do.
- Null pointers, unknown enumeration values, OCaml root registration, diagnostics and logging of the translator.
- Caches.Cache.Get: required to be called on present keys, as the macros do; on an absent key the program would insert index 0. The same holds for `Caches.Cache.Uncache`. Hit statistics are not modelled.
- `TranslateSourceLocation`: its cache key ignores the offset, so it is transparent only if each location is always asked for with one offset.
- TargetOptions.OCaml.TargetOptionsToML: the branch for Clang 5 and later; older versions write a constant for the EABI version.
- Fannkuch.Fannkuch: printing, failing allocation and machine-integer overflow.
- BellmanFord.BellmanFord: edges whose node is no legal list index, and an illegal source, where Python raises IndexError; on an empty graph the same happens.
- DisjointSets.DisjointSets.constructor: negative sizes, which leave an object without elements whose size field is negative.
- DisjointSets.DisjointSets.FindSet: indices out of range, where Python raises IndexError, and Python's recursion limit.
- Intervals.DivPosOuter: does not model a divisor with a zero bound, where the result depends on the sign of that zero; signed zeros are not distinguished.
- Intervals.DivPosInner: does not model a divisor with a zero bound, where the result depends on the sign of that zero; signed zeros are not distinguished.
- Intervals.DivDown: does not model a zero divisor, for the same reason.
- Intervals.DivZDown: does not model a zero divisor, for the same reason.
- Intervals.DivIsOptimal: requires 0 outside the divisor; like the other optimality results it is about operands whose bounds are numbers.
- Rounding to nearest, and the single-precision, towards-zero and to-nearest copies of the interval operations, which have the same structure.
- DecimalStrings.ParseString: the C library's pow is a parameter; that it bounds 10^e in the current direction and stays finite is a condition of `DecimalLiterals.OfStringUp` and `DecimalLiterals.OfStringDown`. Integer overflow of the exponent is not modelled.
- SingleStrings.SingleDownIsLowerIff: about a correctly rounded first conversion, which accumulation digit by digit need not be; `SingleStrings.OfStringSingleDown` has the condition for what is computed.
- Factorization.Factorize: integers are unbounded, as in Python.
