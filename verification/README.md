# CenDB in Dafny

A verified model of the in-memory algorithms of CenDB, an embedded database engine written in Rust:
its binary documents, the filter pushdown of its optimizer, its key-value store, its adaptive radix
tree, the CenQL expression parser, the compressed graph overlay, the buffer pool, the join and
out-of-core operators, the RDF store with its SPARQL evaluation and its text formats, and the Raft
simulation.

`dafny verify dfyconfig.toml` checks the whole project.

## Main results

Each is proved for all inputs, states or runs; the table under "Model" has every member.

- Documents: decoding an encoded value gives it back, or the depth error, exactly by its depth
  (`CenDocRoundTrip.RoundTrip`, through the imperative encoder and decoder in `CenDocCodec.WriteAndRead`);
  point access agrees with it (`GetFieldAgreesWithDecodeRoot`); whoever wrote them, bytes decode to a value
  exactly if all of it stands there (`CenDocForeign.DocumentExact`).
- Filter pushdown: row sequences are kept for every safe plan (`PushdownMeaning.PushDownKeepsMeaning`);
  for trees of filters and joins exactly if the filters say the same (`PushdownExact.TreeExact`), for two
  filters exactly by a condition on their disjuncts (`TwoFiltersExact`); no conjunct that names tables of
  one side of a join only stays over it (`PushdownProofs.PushDownIsNormal`), each ends in its own side
  (`PushdownSides.PushedToItsSide`), none is lost, and a second rewrite changes nothing (`PushdownProofs`).
- Key-value store: a map at every point of every flush (`KvStoreCode.KvStore`); when compaction succeeds,
  and when it keeps the map, are stated exactly (`KvStore.Compact`); a builder that takes what fits never
  makes it fail (`KvLayout.LayoutAccepted`, `KvPax.BuilderTakesWhatFits`), one that does not can make it lose
  rows (`KvLoss.CompactLoses`).
- Radix tree: insertion and removal over four node layouts refine an abstract trie
  (`ArtTreeCode.InsertRecursive`, `RemoveRecursive`); insertion is a map update exactly without a prefix
  clash (`ArtMap.InsertedIsUpdate`), removal is exact if and only if no interior node moves up
  (`ArtRemove.RemoveExact`) and never drops another leaf (`RemoveKeepsTips`); iteration is ordered and
  complete (`ArtOrder.EntriesExact`).
- CenQL: the parser reads exactly what a grammar with precedence and parentheses writes
  (`CenqlRoundTrip.GrammarExact`); every tree with readable leaves comes back when printed with the
  parentheses it needs (`ParensReadBack`), and as the optimizer prints it, without any, exactly if it is
  canonical (`RoundTrip`).
- Graph: adjacency of the overlay (`GraphCsr.Build`), shortest distances and the order of the search
  (`GraphBfs.Bfs`).
- Buffer pool: transparent over every run (`PoolProofs.RunTransparent`); which pages it holds after any run
  (`PoolPolicy.RunFollows`); scans spare hot pages exactly if a frame is spare or nothing is loaded
  (`PoolProofs.ScanExact`).
- Replacement: over every trace, exactly the picks of the frame whose K-th most recent access is oldest
  (`LruRuns.TracesExact`).
- Joins: merge and hash joins against the nested loops (`JoinCode.MergeJoin`, `HashJoin`) under an order of
  values stated in plain terms (`ValueOrder.CmpExact`), partitioned joins and external sorting
  (`Morsel.HybridHashJoin.Execute`, `Morsel.ExternalMergeSort.Finish`).
- RDF: solutions of basic graph patterns (`SparqlEval.Evaluate`); N-Triples come back exactly if clean
  (`RdfTextProofs.NTriplesRoundTrip`), clean Turtle comes back as a permutation
  (`TurtleProofs.TurtleRoundTrip`), also when written with declared prefixes
  (`TurtleAbbreviations.AbbreviatedRoundTrip`); whole Turtle texts are read as the triples they write
  (`TurtleDocuments.WholeTextRead`).
- Raft: the commit rule (`RaftModel.CommitRule`), safety over all runs of the cluster
  (`RaftModel.RunSafety`), and what each node hands out to be applied (`RaftApplied.HandedOutExact`).

## How it is organised

Each component comes in up to three parts.

- A *model* gives the data and the specification functions (`CenDocFormat`, `PlanModel`, `Pushdown`,
  `KvModel`, `ArtTrie`, `CenqlModel`, `LruModel`, `PoolModel`, `JoinModel`, `RdfText`, `Turtle`,
  `RaftModel`).
- A *proof* module states what the source promises about these functions: `CenDocRoundTrip`,
  `CenDocLengths`, `CenDocForeign` and `CenDocSize`; `PushdownProofs`, `PlanWords`, `PushdownSides`,
  `PredicateLogic`, `PushdownMerge`, `PushdownMeaning` and `PushdownExact`; `KvProofs`, `KvLayout`, `KvPax`
  and `KvLoss`; `ArtInsert`, `ArtRemove`, `ArtMap` and `ArtOrder`; `CenqlGrammar`, `CenqlRoundTrip` and
  `CenqlPrecedence`; `PoolProofs`, `LruRuns` and `PoolPolicy`; `JoinProofs`, `ValueOrder` and `JoinExact`;
  `RdfTextProofs`, `RdfEscapes`, `TurtleProofs`, `TurtlePrefixes`, `TurtleDocuments`, `TurtleSingle` and
  `TurtleAbbreviations`; `RaftApplied` and `RaftQuorum`.
- A *code* module has the imperative form of the source: classes with the fields that the Rust structs
  have, and loops where the source has loops, each proved against the specification (`CenDocCodec`,
  `PushdownCode`, `KvStoreCode`, `ArtNodeOps`, `ArtTreeCode`, `ArtIteration`, `CenqlParser`, `GraphCsr`,
  `GraphBfs`, `GraphTwoHop`, `LruCode`, `LruServe`, `PoolCode`, `JoinCode`, `Morsel`, `RdfStore`, `SparqlEval`,
  `RdfParserCode`, `RaftCode`).

`Wrappers`, `Bytes` and `Lex` hold options and results, little-endian words, and the order of byte
strings.

## Conventions

- A Rust `Vec`, `HashMap`, `HashSet` or `VecDeque` that a method changes is a field of type `seq`, `map`
  or `set` that the method reassigns. A node slot that Rust passes as `&mut` is passed in and returned.
- Integer widths appear where they matter: offsets and ids of documents are reduced modulo 2^32,
  64-bit values are written and read through their two's complement, F64 values are their bit patterns
  and are compared by `total_cmp`.
- Sorts of the Rust library are stable insertion sorts given as functions. The binary heap of the merge
  is a list from which the least element is removed.
- Errors are results. In documents and CenQL they carry the kind of failure; in N-Triples the number of
  the line; in Turtle and in the store, only that there was one.
- A PAX block is an immutable sequence of rows, and its builder a predicate that accepts or refuses the
  rows of a block. The page source of the buffer pool is a map from page ids to bytes that never fails.
- The hash function of the hash join is a parameter. So is the order in which a Rust `HashMap` yields the
  followers of a leader.

## What the code does against what it says

Wherever the two differ the model follows the code.

- Encoding accepts documents of any depth, decoding rejects nesting beyond 256: `RoundTrip` says for each
  value which of the two happens.
- The comment on filter pushdown speaks of pushing filters through projections; the code keeps them
  above. Predicates with `or` are split at `and` without parentheses, which can change the rows of a
  query: `OrBreaksMeaning` has an example. `TwoFiltersExact` says exactly when merging two filters is
  right, `SplitExact` when splitting one at a join is, and `TreeExact` when the whole rewrite of a tree of
  filters and joins is. A merged filter can only let more rows through (`BothEntailMerged`).
- Inserting into the radix tree drops a value when one key is a proper prefix of another. `InsertEffect`
  describes the effect for all keys, and `InsertedIsUpdate` says exactly when it is a map update.
- Removing from the radix tree moves up the only child that is left with its own prefix only, so keys
  below an interior survivor are lost. `RemoveExact` says exactly when removal is correct, and
  `RemoveLoses` finds a lost key in every other case. The leaves themselves stay (`RemoveKeepsTips`).
- The printed predicate of an expression has no parentheses. `RoundTrip` of `CenqlRoundTrip` says exactly
  which trees survive, `Reassociates` shows what happens to right-nested ones, and `ParensReadBack` that
  parentheses would save them all.
- `two_hop` is described as all nodes at exactly two hops; the code leaves the start out, and a node that
  is also a direct neighbour stays in.
- Evaluating a query without any triple pattern returns no row, where SPARQL has one empty solution.
- N-Triples and Turtle texts write IRIs, labels and tags as they are. `NTriplesRoundTrip` says exactly
  which triples come back; `IriReads`, `BlankReads` and `TagReads` say it for each kind of term.
- The commit rule of the Raft leader stops at the first smaller term; with falling terms in the log it
  would miss an entry (`FallingTermsMiss`), but no operation lets terms fall (`RulesKeepTerms`).
- A refused block in the middle of a compaction loses the rows not yet put back, because the old blocks
  have been cleared by then. `Compact` says exactly when, and `CompactLoses` shows it for a builder that
  takes fewer rows than the buffer holds. The builder of the repository refuses a block only for its size,
  and everything the flush loop puts together fits (`WhatFitsIsSealed`), so with it no row is lost.
- `new_page` is refused for a page that is cached, not for one that exists: an evicted page is
  zeros from then on (`NewPageWorks`, `RunTransparent`).
- Lengths of strings and blobs are cut off at 32 bits: `BlobExact` and `StringExact` say what comes back.

## Model

| member | source | states |
|---|---|---|
| `CenDocRoundTrip.RoundTrip` | source/crates/cendb-projection/src/document.rs:132-228 | main result: decoding the encoding of a value gives the value back when it is nested at most 256 deep and the depth error otherwise, for every value whose document fits in 32-bit offsets |
| `CenDocRoundTrip.EncodingInjective` | source/crates/cendb-projection/src/document.rs:132-157 | two values with the same document are the same value |
| `CenDocLengths.BlobExact` | source/crates/cendb-projection/src/document.rs:132-157 | for blobs of any length: as much comes back as the 32-bit length says, so the blob itself comes back if and only if it is shorter than 2^32 bytes |
| `CenDocLengths.StringExact` | source/crates/cendb-projection/src/document.rs:132-169 | the same for strings of any length |
| `CenDocLengths.RootIsFound` | source/crates/cendb-projection/src/document.rs:249-277 | whatever the length of the document, the header leads to the bytes of the root, and to the pool modulo 2^32 |
| `CenDocRoundTrip.GetFieldFinds` | source/crates/cendb-projection/src/document.rs:311-342 | point access to an encoded value finds the first field of that name, nothing if there is none or the root is no object, and the depth error exactly when that field alone is nested too deep |
| `CenDocRoundTrip.GetFieldAgreesWithDecodeRoot` | source/crates/cendb-projection/src/document.rs:301-342 | whenever the whole document decodes, point access agrees with decoding it and looking the name up; if point access fails, so does decoding |
| `CenDocRoundTrip.DecodedIsShallow` | source/crates/cendb-projection/src/document.rs:362-479 | for arbitrary bytes, cyclic offsets included: what decodes at some depth, together with that depth, never exceeds the cap |
| `CenDocForeign.DocumentExact` | source/crates/cendb-projection/src/document.rs:249-525 | main result, for arbitrary bytes: they decode to a value if and only if they start with a whole header with the right magic, the value is nested at most 256 deep, and every byte, offset and string it consists of stands in full at the place the header and the tables give; so nothing cut off inside a value decodes to it |
| `CenDocForeign.DecodeExact` | source/crates/cendb-projection/src/document.rs:362-479 | the same at any offset and depth; kinds the format does not have mean NULL, and every byte but 0 is true |
| `CenDocForeign.TextExact` | source/crates/cendb-projection/src/document.rs:483-525 | a string is read if and only if the pool starts inside the bytes and holds the length and the whole string |
| `CenDocForeign.MeansOne` | source/crates/cendb-projection/src/document.rs:362-479 | bytes mean one value at most |
| `CenDocSize.DocumentSize` | source/crates/cendb-projection/src/document.rs:132-169 | a document is its header, its value and one copy of each of its strings, and nothing else |
| `CenDocSize.NamesExact` | source/crates/cendb-projection/src/document.rs:159-228 | writing a value interns its strings, no others, and none twice |
| `CenDocSize.SizeExact` | source/crates/cendb-projection/src/document.rs:171-228 | the length of the emitted form, wherever it starts and whatever has been interned |
| `CenDocSize.TwosComplement` | source/crates/cendb-projection/src/document.rs:171-187 | a signed integer is stored as its residue modulo 2^64 and comes back from it |
| `CenDocSize.LittleEndian` | source/crates/cendb-projection/src/document.rs:171-208 | the bytes of a word are its digits to the base 256, lowest first |
| `CenDocRoundTrip.EmitRepresents` | source/crates/cendb-projection/src/document.rs:171-228 | frame property of the encoder: wherever the bytes of a value stand in a finished document, and whatever surrounds them, they represent the value, once every string id they use is readable in the final pool |
| `CenDocRoundTrip.DecodeRepresented` | source/crates/cendb-projection/src/document.rs:362-479 | the decoder reads a represented value as exactly that value, or fails exactly because of its depth |
| `CenDocRoundTrip.IdStable` | source/crates/cendb-projection/src/document.rs:159-169 | a string id, once given out, keeps its meaning while the pool grows |
| `CenDocRoundTrip.NamesGrow` | source/crates/cendb-projection/src/document.rs:171-228 | encoding a value only appends to the interned strings |
| `CenDocRoundTrip.PoolIsReadable` | source/crates/cendb-projection/src/document.rs:483-511 | every interned string is read back from the pool by its id |
| `CenDocRoundTrip.FindRepresented` | source/crates/cendb-projection/src/document.rs:311-342 | scanning a represented field table finds the offset of the first field of that name |
| `CenDocRoundTrip.HeaderPlaced` | source/crates/cendb-projection/src/document.rs:249-277 | the 20-byte header is parsed back field by field |
| `CenDocCodec.CenDocBuilder.constructor` | source/crates/cendb-projection/src/document.rs:123-129 | a new builder has written nothing and interned nothing |
| `CenDocCodec.CenDocBuilder.InternString` | source/crates/cendb-projection/src/document.rs:159-169 | returns the position of the string among the interned names, appending it when new, and keeps the byte pool in step |
| `CenDocCodec.CenDocBuilder.Patch` | source/crates/cendb-projection/src/document.rs:203-208 | writes a 32-bit word over four bytes and leaves every other byte as it was |
| `CenDocCodec.CenDocBuilder.EncodeValue` | source/crates/cendb-projection/src/document.rs:171-228 | appends exactly the emitted form of the value at the current offset and returns that offset; everything written before stays |
| `CenDocCodec.CenDocBuilder.EncodeBody` | source/crates/cendb-projection/src/document.rs:171-228 | dispatch on the kind of value: kind byte and payload are the emitted form |
| `CenDocCodec.CenDocBuilder.EncodeObject` | source/crates/cendb-projection/src/document.rs:188-209 | reserving a table, emitting the fields and patching the table afterwards yields the same bytes as laying them out at once |
| `CenDocCodec.CenDocBuilder.EncodeFieldValues` | source/crates/cendb-projection/src/document.rs:196-202 | the values of the fields are appended in order and the remembered pairs are the table to come |
| `CenDocCodec.CenDocBuilder.EncodeField` | source/crates/cendb-projection/src/document.rs:198-202 | one field: the id of its name and the offset of its value |
| `CenDocCodec.CenDocBuilder.WriteFieldTable` | source/crates/cendb-projection/src/document.rs:203-208 | back-patching replaces the reserved zeros by the table and touches nothing else |
| `CenDocCodec.CenDocBuilder.PatchEntry` | source/crates/cendb-projection/src/document.rs:204-208 | one table entry replaces eight reserved bytes |
| `CenDocCodec.CenDocBuilder.EncodeArray` | source/crates/cendb-projection/src/document.rs:210-225 | the same for arrays: reserve, emit, patch equals laying out at once |
| `CenDocCodec.CenDocBuilder.EncodeItemValues` | source/crates/cendb-projection/src/document.rs:216-220 | the items are appended in order and the remembered offsets are the table to come |
| `CenDocCodec.CenDocBuilder.WriteItemTable` | source/crates/cendb-projection/src/document.rs:221-224 | back-patching an offset table touches nothing else |
| `CenDocCodec.CenDocBuilder.PatchOffset` | source/crates/cendb-projection/src/document.rs:221-224 | one offset replaces four reserved bytes |
| `CenDocCodec.Encode` | source/crates/cendb-projection/src/document.rs:132-157 | the finished document: header, value and pool as one layout |
| `CenDocCodec.CenDoc.DecodeRootValue` | source/crates/cendb-projection/src/document.rs:301-303 | meets the decoding specification for the root |
| `CenDocCodec.CenDoc.DecodeValueAtDepth` | source/crates/cendb-projection/src/document.rs:362-479 | terminates on all bytes and offsets and meets the decoding specification, truncation and bad-string errors included |
| `CenDocCodec.CenDoc.DecodeFieldTable` | source/crates/cendb-projection/src/document.rs:422-455 | the loop over a field table decodes the fields in order or returns the first error |
| `CenDocCodec.CenDoc.DecodeEntry` | source/crates/cendb-projection/src/document.rs:433-453 | one table entry: name, then value one level deeper |
| `CenDocCodec.CenDoc.DecodeItemTable` | source/crates/cendb-projection/src/document.rs:456-475 | the loop over an offset table decodes the items in order or returns the first error |
| `CenDocCodec.CenDoc.FieldByName` | source/crates/cendb-projection/src/document.rs:311-342 | meets the specification of point access |
| `CenDocCodec.CenDoc.ScanTable` | source/crates/cendb-projection/src/document.rs:319-341 | the linear scan stops at the first entry of that name or at the first error |
| `CenDocCodec.CenDoc.EntryNamed` | source/crates/cendb-projection/src/document.rs:319-340 | one entry of the scan: it decides the whole scan, or the rest of the scan decides |
| `CenDocCodec.WriteAndRead` | source/crates/cendb-projection/src/document.rs:132-303 | end to end through both imperative sides: the value comes back exactly when it is nested at most 256 deep |
| `PushdownMeaning.PushDownKeepsMeaning` | source/crates/cendb-optimizer/src/plan.rs:555-585 | main result: the rewritten plan evaluates to the same row sequence as the plan under every meaning with table-qualified columns, for every plan, `or` included, whose filters are merged and split safely; safety is decided on words alone |
| `PushdownExact.TreeExact` | source/crates/cendb-optimizer/src/plan.rs:555-644 | main result: a tree of filters and joins keeps its rows under every meaning if and only if the filters of the result and of the tree entail each other |
| `PushdownExact.TwoFiltersExact` | source/crates/cendb-optimizer/src/plan.rs:634-638 | exactly when two filters over a plan can be merged: every disjunct of the inner one but the last contains an outer disjunct, and every disjunct of the outer one but the first contains an inner one |
| `PushdownExact.SplitExact` | source/crates/cendb-optimizer/src/plan.rs:590-632 | exactly when a filter over a join can be split: its parts for the two inputs and for the joined rows together say what it says |
| `PushdownExact.OneFilterKeeps` | source/crates/cendb-optimizer/src/plan.rs:639-642 | a lone filter over a plan without filters is right, whatever it contains |
| `PushdownExact.UnsplitKeeps` | source/crates/cendb-optimizer/src/plan.rs:590-632 | a predicate without `and` is never torn apart at a join, so pushing it says the same |
| `PushdownExact.TreeRows` | source/crates/cendb-optimizer/src/plan.rs:588-644 | the rows of a tree are those of its joins that meet all of its filters |
| `PushdownMerge.MergeExact` | source/crates/cendb-optimizer/src/plan.rs:634-638 | for all pairs of predicates: the merged predicate says what both say together if and only if the condition on their disjuncts holds |
| `PushdownMerge.BothEntailMerged` | source/crates/cendb-optimizer/src/plan.rs:634-638 | the merged predicate never rejects a row that both admit |
| `PredicateLogic.EntailsExact` | source/crates/cendb-optimizer/src/plan.rs:588-672 | entailment computed on the words of predicates is exactly entailment under every meaning of their conjuncts |
| `PushdownMeaning.PushIntoKeepsMeaning` | source/crates/cendb-optimizer/src/plan.rs:588-644 | pushing a predicate that stands for several filters into a plan evaluates to filtering the rows of that plan by all of them |
| `PushdownMeaning.OrFreeIsSafe` | source/crates/cendb-optimizer/src/plan.rs:588-672 | every plan without `or` is safe |
| `PushdownProofs.OrBreaksMeaning` | source/crates/cendb-optimizer/src/plan.rs:588-672 | a concrete plan whose filter contains `or` changes its rows |
| `PushdownProofs.PushDownIsNormal` | source/crates/cendb-optimizer/src/plan.rs:555-644 | the result has no filter directly over a filter, and every conjunct of a filter over a join names a table of the left input exactly if it names one of the right input |
| `PushdownProofs.PushIntoIsNormal` | source/crates/cendb-optimizer/src/plan.rs:588-644 | pushing a filter into a normal plan gives a plan that is normal in the same sense |
| `PushdownSides.PushedToItsSide` | source/crates/cendb-optimizer/src/plan.rs:588-632 | main result: pushing a filter into a join, every conjunct that names tables of one input only is added to the filters inside that input, as often as the filter had it, and to nothing else; all others and only they stay over the join, whose inputs keep everything but their filters |
| `PushdownSides.FiltersItsTable` | source/crates/cendb-optimizer/src/plan.rs:555-632 | a filter without `and` over the join of two tables that names one of them only becomes a filter of that table, on whichever side it stands |
| `PushdownSides.UsersByAge` | source/crates/cendb-optimizer/src/plan.rs:588-632 | an instance: a filter on the age of users moves from the join with orders to the users |
| `PushdownSides.PickCounts` | source/crates/cendb-optimizer/src/plan.rs:594-609 | each of the three classes takes just the conjuncts that belong to it, each as often as it occurs |
| `PushdownSides.PickConcat` | source/crates/cendb-optimizer/src/plan.rs:594-609 | each class keeps the order of its conjuncts |
| `PlanWords.MentionsExact` | source/crates/cendb-optimizer/src/plan.rs:522-545 | a conjunct names a table exactly if a maximal run of token characters in one of its words is the name of the table, alone or before a dot |
| `PlanWords.TokensExact` | source/crates/cendb-optimizer/src/plan.rs:527-530 | the tokens of a word are its maximal runs of token characters |
| `PlanWords.BeforeDotExact` | source/crates/cendb-optimizer/src/plan.rs:531-533 | what counts of a token is what stands before its first dot |
| `PlanWords.TableNamesExact` | source/crates/cendb-optimizer/src/plan.rs:97-119 | the table names of a plan are the tables it scans, each once |
| `PlanWords.SplitsAtAnd` | source/crates/cendb-optimizer/src/plan.rs:648-667 | a predicate is split at every `and` and nowhere else |
| `PlanWords.AndExact` | source/crates/cendb-optimizer/src/plan.rs:652-653 | `and` is its three letters in any mixture of cases |
| `PushdownProofs.NormalIsFixed` | source/crates/cendb-optimizer/src/plan.rs:555-644 | a normal plan is left alone |
| `PushdownProofs.PushDownIdempotent` | source/crates/cendb-optimizer/src/plan.rs:555-644 | a second rewrite changes nothing; a plan is left alone exactly when it is normal |
| `PushdownProofs.PushDownConserves` | source/crates/cendb-optimizer/src/plan.rs:555-644 | no conjunct is lost, duplicated or invented: the multiset of filter conjuncts of the plan stays |
| `PushdownProofs.PushIntoConserves` | source/crates/cendb-optimizer/src/plan.rs:588-644 | pushing a filter adds just its conjuncts to those of the plan |
| `PushdownMeaning.KeptJoin` | source/crates/cendb-optimizer/src/plan.rs:590-632 | filtering a nested-loop join by predicates about one side, the other side and both equals filtering its sides and then the join |
| `PushdownMeaning.HoldsOneSide` | source/crates/cendb-optimizer/src/plan.rs:522-545 | a predicate that names no table of one side has the same truth value on the joined row as on the other side, `or` included |
| `PushdownProofs.HoldsOnSide` | source/crates/cendb-optimizer/src/plan.rs:522-545 | a conjunct that mentions no table of one side has the same truth value on the joined row as on the other side |
| `PushdownProofs.RowsWithin` | source/crates/cendb-optimizer/src/plan.rs:97-119 | every row of a plan has only columns of the tables that `table_names` collects |
| `PushdownProofs.SplitJoined` | source/crates/cendb-optimizer/src/plan.rs:648-672 | splitting joined conjuncts gives the conjuncts back |
| `PushdownProofs.SplitMerged` | source/crates/cendb-optimizer/src/plan.rs:588-672 | splitting two predicates merged by `and` gives the conjuncts of both |
| `PushdownProofs.SplitIsProper` | source/crates/cendb-optimizer/src/plan.rs:648-667 | every conjunct is non-empty and contains no `and`, and no `or` if the predicate has none |
| `Pushdown.PushDown` | source/crates/cendb-optimizer/src/plan.rs:555-585 | terminates although it traverses rewritten subtrees again: the plan without its filters, and the weight the recursion counts down, stay the same; where its filters end up is said by `PushDownIsNormal` and `PushedToItsSide` |
| `Pushdown.PushFilterInto` | source/crates/cendb-optimizer/src/plan.rs:588-644 | the same invariants for pushing one filter |
| `Pushdown.PushSide` | source/crates/cendb-optimizer/src/plan.rs:610-619 | the same invariants for one side of a join |
| `PushdownCode.SplitAndWords` | source/crates/cendb-optimizer/src/plan.rs:648-667 | the loop over words meets the splitting specification |
| `PushdownCode.SideOf` | source/crates/cendb-optimizer/src/plan.rs:522-545 | left exactly if the conjunct names a table of the left input and none of the right one, right exactly the other way round, and neither otherwise |
| `PushdownCode.CollectTables` | source/crates/cendb-optimizer/src/plan.rs:97-119 | the accumulator collects the tables as specified |
| `PushdownCode.Classify` | source/crates/cendb-optimizer/src/plan.rs:594-609 | the three vectors are the conjuncts of each side in their order, by `PickCounts` and `PickConcat` just those that name tables of one input only and the rest |
| `PushdownCode.PushDownFilters` | source/crates/cendb-optimizer/src/plan.rs:555-585 | meets the specification function, whose meaning, normal form and conservation are proved, and which leaves no conjunct of one side over a join |
| `PushdownCode.PushFilter` | source/crates/cendb-optimizer/src/plan.rs:588-644 | the same for one filter, whose conjuncts go where `PushedToItsSide` says |
| `KvStoreCode.KvStore.constructor` | source/crates/cendb-projection/src/kv.rs:45-55 | an empty store shows the empty map |
| `KvStoreCode.KvStore.Put` | source/crates/cendb-projection/src/kv.rs:59-73 | the visible map is updated at the key, or loses the key for an empty value, whether or not the automatic flush runs or fails; it fails exactly if the buffer is full and the builder refuses a chunk of it |
| `KvStoreCode.KvStore.Get` | source/crates/cendb-projection/src/kv.rs:82-105 | returns what the visible map holds |
| `KvStoreCode.KvStore.Delete` | source/crates/cendb-projection/src/kv.rs:109-122 | the visible map loses the key, tombstone and automatic flush included; the flag says whether buffer or index knew the key |
| `KvStoreCode.KvStore.PutTombstone` | source/crates/cendb-projection/src/kv.rs:115-121 | the put of the tombstone |
| `KvStoreCode.KvStore.Forget` | source/crates/cendb-projection/src/kv.rs:110-114 | dropping a key from index and buffer disturbs no other key |
| `KvStoreCode.KvStore.FlushPending` | source/crates/cendb-projection/src/kv.rs:127-174 | the visible map never changes; it succeeds exactly when the block builder accepts every chunk, and then the blocks grow by just those chunks; otherwise everything stays pending |
| `KvStoreCode.KvStore.SealChunks` | source/crates/cendb-projection/src/kv.rs:140-170 | the nested loops append exactly the chunks of the ordered rows and index them |
| `KvStoreCode.KvStore.ScanChunk` | source/crates/cendb-projection/src/kv.rs:142-152 | the inner loop stops where the next row would not fit, after at least one row |
| `KvStoreCode.KvStore.Compact` | source/crates/cendb-projection/src/kv.rs:318-389 | main result: it succeeds exactly if the builder takes the pending chunks and the layout of the live rows in key order; the visible map is unchanged exactly if the first flush was refused or no group of that layout before the last one was, and never shows anything else; on success the blocks are that layout and the statistics are exact; if the builder takes every block that fits the estimate, it succeeds exactly if its first flush does |
| `KvStoreCode.KvStore.FlushFirst` | source/crates/cendb-projection/src/kv.rs:318-330 | the flush and the sizes before compaction |
| `KvStoreCode.KvStore.RewriteLive` | source/crates/cendb-projection/src/kv.rs:332-372 | the same exact conditions once nothing is pending |
| `KvStoreCode.KvStore.Report` | source/crates/cendb-projection/src/kv.rs:374-388 | the bytes reclaimed are those of the blocks saved, or none |
| `KvStoreCode.KvStore.CollectSurvivors` | source/crates/cendb-projection/src/kv.rs:337-355 | collects each live key with its value once |
| `KvStoreCode.KvStore.Rewrite` | source/crates/cendb-projection/src/kv.rs:360-372 | putting the sorted survivors back, with automatic flushes on the way, succeeds exactly if the builder takes the fixed layout, which then are the blocks; all rows are visible exactly if it takes the groups before the last |
| `KvStoreCode.KvStore.PutRows` | source/crates/cendb-projection/src/kv.rs:366-369 | the loop over the survivors ends with all rows put back, or behind the group that was refused |
| `KvStoreCode.KvStore.PutRow` | source/crates/cendb-projection/src/kv.rs:367-369 | one survivor put back keeps blocks and buffer at the layout; it fails only by completing a group that is refused |
| `KvStoreCode.KvStore.PersistToSegment` | source/crates/cendb-projection/src/kv.rs:198-214 | succeeds exactly if the flush does, and then writes exactly the blocks |
| `KvStoreCode.KvStore.AppendBlocks` | source/crates/cendb-projection/src/kv.rs:209-211 | every block is written, in order |
| `KvStoreCode.KvStore.LoadFromSegment` | source/crates/cendb-projection/src/kv.rs:218-250 | the loaded store has the same blocks, the rebuilt index and the content they determine |
| `KvStoreCode.KvStore.IndexChunk` | source/crates/cendb-projection/src/kv.rs:233-247 | a sealed chunk is entered into the index row by row |
| `KvStoreCode.PersistAndReload` | source/crates/cendb-projection/src/kv.rs:198-250 | succeeds exactly if the flush does; the reloaded store then answers every get as the original did |
| `KvStoreCode.CompactTwice` | source/crates/cendb-projection/src/kv.rs:318-389 | succeeds exactly if one compaction does: the second then succeeds and rebuilds the identical block sequence |
| `KvStoreCode.KvIter.constructor` | source/crates/cendb-projection/src/kv.rs:177-184 | the iterator starts before all pending rows and all visible sealed rows |
| `KvStoreCode.KvIter.Next` | source/crates/cendb-projection/src/kv.rs:435-469 | yields the next remaining row and skips tombstones |
| `KvStoreCode.KvIter.NextSealed` | source/crates/cendb-projection/src/kv.rs:447-468 | the part of `next` that walks over blocks and slots |
| `KvStoreCode.IterAfterCompact` | source/crates/cendb-projection/src/kv.rs:318-469 | succeeds exactly if compaction does; iteration then yields the live map exactly once for each key, in key order |
| `KvProofs.LatestReads` | source/crates/cendb-projection/src/kv.rs:218-250 | the index built from the blocks answers every key as replaying the blocks does |
| `KvProofs.LatestIsLast` | source/crates/cendb-projection/src/kv.rs:82-105 | each key with a row in a block is indexed, at a row of that key, and at the last one in block and slot order |
| `KvProofs.ReplayPending` | source/crates/cendb-projection/src/kv.rs:127-174 | writing the pending rows behind the blocks has the effect of the pending map |
| `KvProofs.PutContent` | source/crates/cendb-projection/src/kv.rs:59-73 | what a pending row does to the visible map |
| `KvProofs.DeleteContent` | source/crates/cendb-projection/src/kv.rs:109-122 | dropping a pending row changes the visible map at no other key |
| `KvProofs.FlushContent` | source/crates/cendb-projection/src/kv.rs:127-174 | at every point of a flush, sealed chunks and pending rows together show the same map |
| `KvProofs.ChunksFlatten` | source/crates/cendb-projection/src/kv.rs:137-170 | the chunks are the pending rows in order, none lost |
| `KvProofs.ChunksFit` | source/crates/cendb-projection/src/kv.rs:142-152 | each chunk fits in a block unless a single row is too big, and is as long as possible |
| `KvProofs.SortedListingUnique` | source/crates/cendb-projection/src/kv.rs:363-366 | a map has only one listing in key order, which is why compaction is reproducible |
| `KvLayout.RewriteStep` | source/crates/cendb-projection/src/kv.rs:366-372 | putting one sorted row back, flushing at capacity, keeps blocks and buffer at the fixed layout |
| `KvLayout.GroupRefused` | source/crates/cendb-projection/src/kv.rs:366-372 | a refused group makes the layout refused, and the groups before the last exactly if it is not the last one |
| `KvLayout.PutBackSome` | source/crates/cendb-projection/src/kv.rs:366-372 | as long as a row has not been put back, the map is smaller |
| `KvLayout.LayoutAccepted` | source/crates/cendb-projection/src/kv.rs:360-372 | rows that stood in accepted chunks can be laid out again in any order, if the builder takes what fits |
| `KvLayout.FlushSeals` | source/crates/cendb-projection/src/kv.rs:140-170 | a flush, finished or not, seals only accepted blocks of rows that fit or of a single row |
| `KvLayout.LayoutSplit` | source/crates/cendb-projection/src/kv.rs:360-372 | whole groups at the front are laid out on their own |
| `KvLayout.ListingIs` | source/crates/cendb-projection/src/kv.rs:363-366 | a map has exactly one listing in key order |
| `KvLayout.TakenApartOnly` | source/crates/cendb-projection/src/kv.rs:366-372 | a builder with room for fewer rows than the buffer holds takes them in two flushes and refuses them in one |
| `KvLoss.CompactLoses` | source/crates/cendb-projection/src/kv.rs:360-372 | with such a builder every compaction of more than 1024 small rows fails and leaves some of them invisible |
| `KvLoss.LossOfOneRow` | source/crates/cendb-projection/src/kv.rs:360-372 | an instance with 1025 rows and blocks of 64 KiB |
| `KvPax.WhatFitsIsSealed` | source/crates/cendb-storage/src/pax.rs:307-412 | rows that fit the estimate of the flush loop fit into a block: header, directory, aligned minipages, heap and bitmaps need no more than the block size |
| `KvPax.ChargedBytes` | source/crates/cendb-projection/src/kv.rs:137-152 | the account of the flush loop: 40 bytes for each row, and the bytes of its key and value |
| `KvPax.BuilderTakesWhatFits` | source/crates/cendb-storage/src/pax.rs:307-412 | so a builder that refuses blocks only for their size takes everything that fits the estimate, and its compactions lose nothing |
| `ArtTreeCode.ArtTree.constructor` | source/crates/cendb-index/src/art.rs:370-372 | an empty tree |
| `ArtTreeCode.ArtTree.Insert` | source/crates/cendb-index/src/art.rs:384-390 | returns the old value and keeps the invariant; the stored map is the updated map exactly when the key is no proper prefix of a stored key and has none; then all other keys still resolve, `len` counts keys and the tree stays branching; otherwise the effect is exactly the one the code documents (lost values included) |
| `ArtTreeCode.ArtTree.Get` | source/crates/cendb-index/src/art.rs:586-624 | returns what the stored map holds |
| `ArtTreeCode.ArtTree.RemoveKey` | source/crates/cendb-index/src/art.rs:627-690 | returns the old value; in any tree the leaves left are those of the map without the key, and a lookup finds nothing else; in a branching tree every key is still found exactly when the collapse did not move an interior node up |
| `ArtTreeCode.ArtTree.Iter` | source/crates/cendb-index/src/art.rs:693-700 | the entries to come are exactly the stored pairs in strictly ascending lexicographic order |
| `ArtTreeCode.ArtTree.RangeScan` | source/crates/cendb-index/src/art.rs:703-707 | exactly the stored pairs with start <= key < end, in ascending order |
| `ArtTreeCode.InsertRecursive` | source/crates/cendb-index/src/art.rs:392-553 | over all four node layouts, insertion refines insertion into the abstract trie |
| `ArtTreeCode.InsertNode` | source/crates/cendb-index/src/art.rs:407-553 | the same below an existing node |
| `ArtTreeCode.InsertAtLeaf` | source/crates/cendb-index/src/art.rs:410-469 | leaf cases: update in place or split |
| `ArtTreeCode.InsertBelow` | source/crates/cendb-index/src/art.rs:523-551 | full prefix match: take the child out, recurse, put it back, or add a leaf |
| `ArtTreeCode.SplitLeaf` | source/crates/cendb-index/src/art.rs:416-468 | leaf split at the first differing byte, with the prefix cases the code has |
| `ArtTreeCode.NodeOver` | source/crates/cendb-index/src/art.rs:429-468 | the Node4 over the two leaves |
| `ArtTreeCode.SplitNode` | source/crates/cendb-index/src/art.rs:483-515 | prefix split: the upper part over the trimmed node and a new leaf |
| `ArtTreeCode.MatchLength` | source/crates/cendb-index/src/art.rs:420-426 | the loop finds the length of the longest common run |
| `ArtTreeCode.SetPrefix` | source/crates/cendb-index/src/art.rs:556-567 | only the prefix of the node changes |
| `ArtTreeCode.AddChild` | source/crates/cendb-index/src/art.rs:166-244 | adding a child to a node adds it to the abstract node |
| `ArtTreeCode.TakeChild` | source/crates/cendb-index/src/art.rs:528-532 | taking a child out leaves all others |
| `ArtTreeCode.Find` | source/crates/cendb-index/src/art.rs:586-624 | the descent returns what the abstract trie holds |
| `ArtTreeCode.RemoveRecursive` | source/crates/cendb-index/src/art.rs:635-690 | removal refines removal from the abstract trie, the lossy collapse included |
| `ArtTreeCode.RemoveNode` | source/crates/cendb-index/src/art.rs:637-690 | the same at an existing node |
| `ArtTreeCode.RemoveBelow` | source/crates/cendb-index/src/art.rs:659-684 | remove below a child and compress |
| `ArtTreeCode.Compress` | source/crates/cendb-index/src/art.rs:671-683 | a node with a single child is replaced by that child, as the code does, without prefix and branch byte |
| `ArtNodeOps.FindChild` | source/crates/cendb-index/src/art.rs:114-136 | finds the child of a byte in each of the four layouts |
| `ArtNodeOps.ScanKeys` | source/crates/cendb-index/src/art.rs:116-125 | the linear search over the keys of a small node |
| `ArtNodeOps.InsertChild` | source/crates/cendb-index/src/art.rs:166-244 | the new child is found at its byte and every other byte finds what it found; the node keeps its layout while there is room and takes the next larger one exactly when it is full |
| `ArtNodeOps.SortedPosition` | source/crates/cendb-index/src/art.rs:170-173 | keys stay in ascending order |
| `ArtNodeOps.Grow4` | source/crates/cendb-index/src/art.rs:175-184 | Node4 to Node16 keeps every child at its byte |
| `ArtNodeOps.Grow16` | source/crates/cendb-index/src/art.rs:194-203 | Node16 to Node48 keeps every child at its byte |
| `ArtNodeOps.NumberKeys` | source/crates/cendb-index/src/art.rs:195-201 | the index of the new Node48 numbers the children |
| `ArtNodeOps.InsertSlot` | source/crates/cendb-index/src/art.rs:206-218 | Node48: the first free slot takes the child |
| `ArtNodeOps.Grow48` | source/crates/cendb-index/src/art.rs:219-230 | Node48 to Node256 keeps every child at its byte |
| `ArtNodeOps.RemoveChild` | source/crates/cendb-index/src/art.rs:248-324 | returns the child of the byte; every other byte finds what it found; the node takes the next smaller layout exactly at the thresholds of the source |
| `ArtNodeOps.ClearSlot` | source/crates/cendb-index/src/art.rs:274-279 | Node48: slot and index entry are freed and the count is one less |
| `ArtNodeOps.Shrink48` | source/crates/cendb-index/src/art.rs:280-291 | Node48 to Node16 keeps every child at its byte |
| `ArtNodeOps.Shrink256` | source/crates/cendb-index/src/art.rs:303-315 | Node256 to Node48 keeps every child at its byte |
| `ArtNodeOps.IterChildren` | source/crates/cendb-index/src/art.rs:327-356 | lists the children in ascending order of their bytes |
| `ArtInsert.InsertEffect` | source/crates/cendb-index/src/art.rs:392-553 | what insertion does to the lookup of every key, all cases: stored, replaced, dropped or untouched |
| `ArtMap.InsertStores` | source/crates/cendb-index/src/art.rs:392-553 | after insertion the trie stores exactly the map that the effect describes |
| `ArtMap.InsertedIsUpdate` | source/crates/cendb-index/src/art.rs:454-521 | the effect is a plain map update exactly when the key clashes with no stored key as a proper prefix of the other |
| `ArtMap.StoresPrefixFree` | source/crates/cendb-index/src/art.rs:392-553 | the stored keys of any tree are prefix-free |
| `ArtMap.UpdateKeepsPrefixFree` | source/crates/cendb-index/src/art.rs:384-390 | without a clash the updated map is prefix-free again and grows by the new key |
| `ArtMap.InsertKeepsDense` | source/crates/cendb-index/src/art.rs:392-553 | without a clash every interior node keeps two or more children |
| `ArtRemove.RemoveEffect` | source/crates/cendb-index/src/art.rs:635-690 | unless the collapse survivor is an interior node, removal deletes the key and nothing else |
| `ArtRemove.RemoveLoses` | source/crates/cendb-index/src/art.rs:672-679 | when the survivor is an interior node, some other stored key can no longer be found |
| `ArtRemove.RemoveExact` | source/crates/cendb-index/src/art.rs:635-690 | removal is exact if and only if no interior node is moved up |
| `ArtRemove.RemoveKeepsTips` | source/crates/cendb-index/src/art.rs:635-690 | in any tree, one-child nodes included, removal takes out the leaf of the key and no other leaf: what it loses is the way to a leaf |
| `ArtRemove.RemoveInventsNothing` | source/crates/cendb-index/src/art.rs:635-690 | in any tree, what a lookup finds after a removal it found before, and it is not the removed key |
| `ArtOrder.EntriesExact` | source/crates/cendb-index/src/art.rs:748-800 | the in-order entries of a trie are strictly ascending and are exactly the stored pairs |
| `ArtIteration.ArtIter.constructor` | source/crates/cendb-index/src/art.rs:693-700 | everything is still to come |
| `ArtIteration.ArtIter.Next` | source/crates/cendb-index/src/art.rs:751-778 | yields the first of the remaining entries and leaves the others, by a stack of nodes and positions |
| `ArtIteration.ArtIter.Resume` | source/crates/cendb-index/src/art.rs:763-775 | the loop of `next` after the first call |
| `ArtIteration.ArtIter.Advance` | source/crates/cendb-index/src/art.rs:764-772 | goes on with the next child of the top of the stack |
| `ArtIteration.ArtIter.Descend` | source/crates/cendb-index/src/art.rs:782-800 | goes to the first leaf and pushes the nodes on the way |
| `ArtIteration.ArtIter.Collect` | source/crates/cendb-index/src/art.rs:703-707 | filters the remaining entries by the range |
| `ArtIteration.WithinExact` | source/crates/cendb-index/src/art.rs:703-707 | the range filter keeps order and keeps exactly the keys in range |
| `ArtTrie.StoredPrefixFree` | source/crates/cendb-index/src/art.rs:586-624 | no key that can be found is a proper prefix of another |
| `ArtRefine.AbsUpdated` | source/crates/cendb-index/src/art.rs:83-357 | a node whose children changed at one byte abstracts to the branch changed at that byte |
| `ArtRefine.KidCount` | source/crates/cendb-index/src/art.rs:105-111 | the stored child count, the listed children and the abstract children agree |
| `ArtRefine.FirstIsOnly` | source/crates/cendb-index/src/art.rs:672-679 | the first listed child of a node with one child is the only abstract child |
| `CenqlRoundTrip.RoundTrip` | source/crates/cendb-optimizer/src/plan.rs:1312-1353 | main result: parsing the printed tokens of an expression consumes them all and returns the expression if and only if it is precedence-canonical |
| `CenqlRoundTrip.GrammarExact` | source/crates/cendb-cenql/src/parser.rs:364-530 | main result: the parser reads an expression from the whole of a token list if and only if the list writes that expression by a grammar with precedence levels and parentheses |
| `CenqlRoundTrip.ParensReadBack` | source/crates/cendb-cenql/src/parser.rs:364-530 | main result: every tree with readable leaves, printed with the parentheses its levels need, is read back whole |
| `CenqlRoundTrip.WritableExact` | source/crates/cendb-cenql/src/parser.rs:364-530 | a tree can be written at all exactly if its leaves are readable, and then at every level |
| `CenqlRoundTrip.OneMeaning` | source/crates/cendb-cenql/src/parser.rs:364-530 | a token list writes one expression at most |
| `CenqlRoundTrip.GroupReads` | source/crates/cendb-cenql/src/parser.rs:501-506 | in parentheses a canonical tree stands at every level and in every surrounding: it is read up to the closing parenthesis, whatever operators it has |
| `CenqlRoundTrip.CanonicalIsBare` | source/crates/cendb-cenql/src/parser.rs:364-530 | a canonical tree needs no parentheses: written with those it needs, it is as printed |
| `CenqlRoundTrip.MeantIsWritable` | source/crates/cendb-cenql/src/parser.rs:454-509 | only trees with readable leaves can be written |
| `CenqlGrammar.WrittenIsRead` | source/crates/cendb-cenql/src/parser.rs:364-530 | wherever an expression is written, with or without parentheses, the parser reads it and stops behind it |
| `CenqlGrammar.ReadIsWritten` | source/crates/cendb-cenql/src/parser.rs:364-530 | the tokens that the parser has taken, at any level, are a way to write what it returns there |
| `CenqlGrammar.GroupRead` | source/crates/cendb-cenql/src/parser.rs:501-506 | a group is read from its opening to its closing parenthesis, with operators of all levels inside |
| `CenqlPrecedence.TighterTakes` | source/crates/cendb-cenql/src/parser.rs:368-452 | of two operators in a row without parentheses, the second takes the operand between them if it binds tighter: multiplication over addition over comparison over `and` over `or` |
| `CenqlPrecedence.FirstTakes` | source/crates/cendb-cenql/src/parser.rs:368-452 | otherwise the first takes it, so operators that bind alike group to the left |
| `CenqlPrecedence.ComparesOnce` | source/crates/cendb-cenql/src/parser.rs:396-414 | a comparison is not continued by another one: reading ends before it |
| `CenqlPrecedence.KeptOnTheLeft` | source/crates/cendb-cenql/src/parser.rs:501-506 | parentheses keep the operand with the operator inside them, however tight the one behind |
| `CenqlPrecedence.KeptOnTheRight` | source/crates/cendb-cenql/src/parser.rs:501-506 | the same however tight the operator in front |
| `CenqlPrecedence.LevelsExact` | source/crates/cendb-cenql/src/parser.rs:368-452 | the binding levels order the operators in just this way |
| `CenqlRoundTrip.CanonicalReads` | source/crates/cendb-cenql/src/parser.rs:364-530 | at every binding level and in every surrounding, the printed form of a canonical tree is read back up to its end, because it is one of the ways to write it |
| `CenqlRoundTrip.ParsedCanonical` | source/crates/cendb-cenql/src/parser.rs:364-530 | from tokens without grouping only canonical trees are read |
| `CenqlRoundTrip.ParsedReadsBack` | source/crates/cendb-cenql/src/parser.rs:364-530 | what has been parsed from such tokens prints to something that parses to the same tree |
| `CenqlRoundTrip.PrintedInjective` | source/crates/cendb-optimizer/src/plan.rs:1312-1353 | different canonical trees print differently |
| `CenqlRoundTrip.Reassociates` | source/crates/cendb-optimizer/src/plan.rs:1312-1353 | printing a right-nested tree of equal operators and parsing it gives the left-nested tree |
| `CenqlRoundTrip.DecimalReads` | source/crates/cendb-cenql/src/parser.rs:456-460 | a decimal number is read as its value |
| `CenqlParser.Parser.constructor` | source/crates/cendb-cenql/src/parser.rs:57-60 | the parser starts at the first token |
| `CenqlParser.Parser.Advance` | source/crates/cendb-cenql/src/parser.rs:541-547 | moves on except over the end marker |
| `CenqlParser.Parser.Expect` | source/crates/cendb-cenql/src/parser.rs:549-558 | consumes just the expected token or fails in place |
| `CenqlParser.Parser.ParseExpr` | source/crates/cendb-cenql/src/parser.rs:364-366 | outcome, error and position are those of the grammar function, for every token list |
| `CenqlParser.Parser.ParseOr` | source/crates/cendb-cenql/src/parser.rs:368-380 | the same for the loop over `or` |
| `CenqlParser.Parser.ParseAnd` | source/crates/cendb-cenql/src/parser.rs:382-394 | the same for the loop over `and` |
| `CenqlParser.Parser.ParseComparison` | source/crates/cendb-cenql/src/parser.rs:396-414 | the same for the single comparison |
| `CenqlParser.Parser.ParseAdditive` | source/crates/cendb-cenql/src/parser.rs:416-433 | the same for the loop over + and - |
| `CenqlParser.Parser.ParseMultiplicative` | source/crates/cendb-cenql/src/parser.rs:435-452 | the same for the loop over * and / |
| `CenqlParser.Parser.ParsePrimary` | source/crates/cendb-cenql/src/parser.rs:454-509 | the same for literals, names, calls and grouping, where by `GroupRead` a group holds operators of all levels |
| `CenqlParser.Parser.ParseDotted` | source/crates/cendb-cenql/src/parser.rs:489-498 | a dotted path becomes one column name |
| `CenqlParser.Parser.ParseArguments` | source/crates/cendb-cenql/src/parser.rs:473-487 | an argument list up to its closing parenthesis |
| `CenqlParser.Parser.ParseArgs` | source/crates/cendb-cenql/src/parser.rs:516-530 | arguments separated by commas |
| `CenqlParser.ReadBack` | source/crates/cendb-cenql/src/parser.rs:364-530 | end to end through the parser object: printed and parsed back exactly if canonical |
| `CenqlParser.ReadAll` | source/crates/cendb-cenql/src/parser.rs:364-530 | end to end through the parser object, for every token list: it comes to its end with a tree exactly if the list writes that tree |
| `GraphCsr.Build` | source/crates/cendb-projection/src/graph.rs:50-85 | main result: for every node the neighbours are exactly the destinations of its edges in input order, with the edge references parallel; a node out of range has none |
| `GraphCsr.MaxNode` | source/crates/cendb-projection/src/graph.rs:54-60 | the largest node id of any edge |
| `GraphCsr.Offsets` | source/crates/cendb-projection/src/graph.rs:62-71 | each offset is the number of edges with a smaller source |
| `GraphCsr.SumUp` | source/crates/cendb-projection/src/graph.rs:67-70 | the prefix sums over the counts, in place |
| `GraphCsr.Fill` | source/crates/cendb-projection/src/graph.rs:72-82 | every edge lands in the next free place of its source |
| `GraphCsr.SortIsStable` | source/crates/cendb-projection/src/graph.rs:52-53 | the sort by source keeps the edges of each source in input order |
| `GraphCsr.NextPosition` | source/crates/cendb-projection/src/graph.rs:75-82 | the next free place of a source is inside the range of that source and unused |
| `GraphCsr.FilledStep` | source/crates/cendb-projection/src/graph.rs:75-82 | writing one edge keeps all places written before |
| `GraphCsr.FilledIsOverlay` | source/crates/cendb-projection/src/graph.rs:88-96 | full arrays slice into the neighbours of each node |
| `GraphBfs.Bfs` | source/crates/cendb-projection/src/graph.rs:236-262 | main result: contains (k, node) exactly if k <= depth is the length of a shortest walk to the node; depths never decrease, no node comes twice, and the sequence is that of the levels, each the neighbours of the level before it, node by node, where they first occur |
| `GraphBfs.Round` | source/crates/cendb-projection/src/graph.rs:246-260 | one level: the next frontier is every unvisited successor once, in the order in which the neighbour lists of the frontier show them |
| `GraphBfs.Visit` | source/crates/cendb-projection/src/graph.rs:248-254 | the inner loop visits the unvisited neighbours of one node in the order of their list |
| `GraphBfs.LevelInOrder` | source/crates/cendb-projection/src/graph.rs:246-260 | within a level a node comes before another if the neighbour lists of the level before, taken in the order of its nodes, show it first |
| `GraphBfs.FreshInOrder` | source/crates/cendb-projection/src/graph.rs:248-254 | the new nodes of a list come in the order of their first occurrence |
| `GraphBfs.NoMoreLevels` | source/crates/cendb-projection/src/graph.rs:256-258 | behind an empty level there are no more |
| `GraphBfs.WithinGrows` | source/crates/cendb-projection/src/graph.rs:242-260 | one more step reaches just the successors of the frontier in addition |
| `GraphBfs.ShortestBack` | source/crates/cendb-projection/src/graph.rs:242-260 | a shortest walk of k + 1 edges comes from a node at distance k |
| `GraphBfs.NoFarther` | source/crates/cendb-projection/src/graph.rs:256-258 | once a level is empty, all farther levels are, so stopping early loses nothing |
| `GraphBfs.StepIsEdge` | source/crates/cendb-projection/src/graph.rs:88-96 | over a built overlay, a step of the search is an edge of the input |
| `GraphTwoHop.TwoHop` | source/crates/cendb-projection/src/graph.rs:214-232 | exactly the nodes other than the start to which a walk of two edges leads, strictly ascending |
| `GraphTwoHop.CollectHops` | source/crates/cendb-projection/src/graph.rs:221-227 | the inner loop collects all neighbours but the start |
| `GraphTwoHop.Dedup` | source/crates/cendb-projection/src/graph.rs:228-230 | on a sorted list, dropping equal neighbours leaves each node once |
| `PoolProofs.RunTransparent` | source/crates/cendb-buffer/src/pool.rs:147-306 | main result: over every run of reads, writes, new pages and flushes, with any hints and any evictions, the pool answers as a plain map from page ids to contents, in which a new page is zeros unless it is refused; refused are exactly the new pages that are cached at that time |
| `PoolPolicy.RunFollows` | source/crates/cendb-buffer/src/pool.rs:147-306 | main result: over every run the pool holds exactly the pages of a cache of pages that, when full, gives up the page whose last but one use is oldest, pages used once first; of its uses it holds the times of the last two |
| `PoolPolicy.StepFollows` | source/crates/cendb-buffer/src/pool.rs:147-245 | the same for one operation: which uses count, which page goes, and that no other page goes |
| `PoolPolicy.FollowsOnce` | source/crates/cendb-buffer/src/pool.rs:147-245 | each operation leaves one cache only, so the uses alone decide which pages are held |
| `PoolPolicy.VictimGoes` | source/crates/cendb-buffer/src/pool.rs:258-294 | with no free frame, the page of the victim is the one to give up |
| `PoolPolicy.RoomMade` | source/crates/cendb-buffer/src/pool.rs:258-294 | a frame is taken without giving up a page exactly while the cache is not full |
| `PoolPolicy.FullExact` | source/crates/cendb-buffer/src/pool.rs:258-294 | the table is as large as the pool exactly when no frame is free |
| `PoolPolicy.NewPoolMirrors` | source/crates/cendb-buffer/src/pool.rs:83-118 | a new pool is an empty cache |
| `PoolProofs.NewAfterUse` | source/crates/cendb-buffer/src/pool.rs:199-226 | a page that has just been used is cached, so making it anew is refused |
| `PoolProofs.PinWorks` | source/crates/cendb-buffer/src/pool.rs:147-195 | with no pin outstanding, pinning always succeeds, shows the logical content of the page, and changes no content of any page |
| `PoolProofs.NewPageWorks` | source/crates/cendb-buffer/src/pool.rs:199-226 | refused exactly for a cached page; otherwise the page shows zeros and all others are unchanged |
| `PoolProofs.EvictWorks` | source/crates/cendb-buffer/src/pool.rs:258-294 | with no pin outstanding a frame is always found, and eviction writes dirty contents back, so no logical content changes |
| `PoolProofs.ReleaseWorks` | source/crates/cendb-buffer/src/pool.rs:298-306 | releasing the pin keeps the invariant, the contents and the access history |
| `PoolProofs.WriteWorks` | source/crates/cendb-buffer/src/pool.rs:317-345 | writing a pinned frame and marking it dirty changes the logical content of that page only |
| `PoolProofs.FlushWorks` | source/crates/cendb-buffer/src/pool.rs:229-245 | flushing makes the source hold the logical content of that page and changes nothing else |
| `PoolProofs.NewPoolIsSound` | source/crates/cendb-buffer/src/pool.rs:83-118 | a new pool satisfies the invariant (table and frames inverse, clean frames equal to the source, free frames empty) and shows the source |
| `PoolProofs.ScanResistance` | source/crates/cendb-buffer/src/pool.rs:147-306 | if a frame is free or has fewer than K accesses, no sequence of scan-hinted pins of any length ever evicts a page whose frame has K accesses |
| `PoolProofs.ScanExact` | source/crates/cendb-buffer/src/pool.rs:147-306 | main result: whatever is scanned, all hot pages keep frames and histories if and only if a frame is spare at the start or every page scanned is cached |
| `PoolProofs.ScanNotHot` | source/crates/cendb-buffer/src/pool.rs:147-195 | no frame becomes hot by a scan |
| `PoolProofs.ScanPinExact` | source/crates/cendb-buffer/src/pool.rs:147-195 | the same for one pin |
| `PoolProofs.ScanPinKeepsHot` | source/crates/cendb-buffer/src/pool.rs:147-195 | one scan-hinted pin keeps them and keeps a spare frame |
| `PoolCode.OpenPool` | source/crates/cendb-buffer/src/pool.rs:83-118 | opening succeeds exactly for positive frame count and page size, a page size that is a multiple of 64 and equal to that of the source |
| `PoolCode.BufferPool.constructor` | source/crates/cendb-buffer/src/pool.rs:83-118 | all frames free, contents those of the source |
| `PoolCode.BufferPool.TakeFrame` | source/crates/cendb-buffer/src/pool.rs:258-294 | meets the specification of eviction |
| `PoolCode.BufferPool.Pin` | source/crates/cendb-buffer/src/pool.rs:147-195 | always succeeds without an outstanding pin, shows the content, keeps all contents and the invariant |
| `PoolCode.BufferPool.Fault` | source/crates/cendb-buffer/src/pool.rs:167-195 | the miss path meets the specification |
| `PoolCode.BufferPool.New` | source/crates/cendb-buffer/src/pool.rs:199-226 | refused exactly for a cached page; zeros afterwards; other contents kept |
| `PoolCode.BufferPool.Release` | source/crates/cendb-buffer/src/pool.rs:298-306 | no pin remains and no content changes |
| `PoolCode.BufferPool.Write` | source/crates/cendb-buffer/src/pool.rs:337-345 | changes the content of the pinned page only |
| `PoolCode.BufferPool.Flush` | source/crates/cendb-buffer/src/pool.rs:229-245 | keeps invariant and contents |
| `PoolCode.BufferPool.FlushAll` | source/crates/cendb-buffer/src/pool.rs:248-254 | afterwards the source holds the logical content of every page |
| `PoolCode.BufferPool.ScanThrough` | source/crates/cendb-buffer/src/pool.rs:147-306 | a whole scan keeps all contents, and all hot pages when a spare frame exists |
| `LruModel.Victim` | source/crates/cendb-buffer/src/lru.rs:90-126 | none exactly if no evictable frame is tracked; cold frames before hot ones; within the chosen class the oldest K-th access |
| `LruRuns.TracesExact` | source/crates/cendb-buffer/src/lru.rs:59-126 | main result, over every trace of accesses, marks, forgets and picks: the picks are those of the policy if and only if each gave the evictable frame whose K-th most recent access in the trace is oldest, frames with fewer than K accesses first, and none exactly if none waits |
| `LruRuns.RunAgrees` | source/crates/cendb-buffer/src/lru.rs:59-126 | after any run the history of a frame is the times of its last min(K, n) accesses since it was last forgotten or evicted, newest first, and the evictable list has it as often as it is marked |
| `LruRuns.StepAgrees` | source/crates/cendb-buffer/src/lru.rs:59-126 | the same for one event |
| `LruRuns.VictimIsDue` | source/crates/cendb-buffer/src/lru.rs:90-126 | the frame picked is the one that is due by the trace |
| `LruRuns.DueIsUnique` | source/crates/cendb-buffer/src/lru.rs:90-126 | only one frame is due |
| `LruRuns.TimesApart` | source/crates/cendb-buffer/src/lru.rs:59-66 | no two frames are accessed at one time |
| `LruServe.Serve` | source/crates/cendb-buffer/src/lru.rs:59-126 | the policy object serving requests in order: every pick gives the frame that is due by the trace so far |
| `LruModel.Best` | source/crates/cendb-buffer/src/lru.rs:94-117 | the running best of the scan is the least candidate |
| `LruModel.OthersStay` | source/crates/cendb-buffer/src/lru.rs:119-125 | removing the victim from the evictable list keeps all other entries |
| `LruCode.LruK.constructor` | source/crates/cendb-buffer/src/lru.rs:48-56 | nothing tracked |
| `LruCode.LruK.RecordAccess` | source/crates/cendb-buffer/src/lru.rs:59-66 | history and clock are updated as specified; by `RunAgrees` the history keeps the newest K accesses and drops the oldest one |
| `LruCode.LruK.MarkEvictable` | source/crates/cendb-buffer/src/lru.rs:71-73 | the frame becomes evictable |
| `LruCode.LruK.Forget` | source/crates/cendb-buffer/src/lru.rs:77-80 | the frame is no longer tracked |
| `LruCode.LruK.BestVictim` | source/crates/cendb-buffer/src/lru.rs:90-117 | the scan with running best variables finds the specified victim |
| `LruCode.LruK.PickVictim` | source/crates/cendb-buffer/src/lru.rs:90-126 | returns the victim and takes it out of the evictable list; by `VictimIsDue` it is the frame whose K-th most recent access in the trace is oldest, cold frames first |
| `JoinCode.MergeJoin` | source/crates/cendb-executor/src/join.rs:215-296 | main result: on inputs in ascending order of their keys, in the terms of `CmpExact`, the very same row sequence as the equality nested-loop join, duplicates and NULL rows included |
| `JoinCode.HashJoin` | source/crates/cendb-executor/src/join.rs:120-175 | main result: for any hash function the same multiset of left ++ right rows as the nested-loop join; the same sequence when the right side is strictly smaller; otherwise the sequence of the loops exchanged |
| `JoinCode.NestedLoopJoin` | source/crates/cendb-executor/src/join.rs:186-202 | all pairs that satisfy the predicate, left major |
| `JoinCode.Join` | source/crates/cendb-executor/src/join.rs:318-335 | whatever the method chosen, the same multiset of rows; the same sequence except for the hash method |
| `JoinCode.BuildTable` | source/crates/cendb-executor/src/join.rs:135-145 | each hash leads to the positions of all build rows with that hash and a non-NULL key, in order |
| `JoinCode.ProbeRow` | source/crates/cendb-executor/src/join.rs:147-173 | one probe row yields its matches among all build rows |
| `JoinCode.ScanBucket` | source/crates/cendb-executor/src/join.rs:155-172 | checking equality again removes collisions |
| `JoinCode.BucketIsEnough` | source/crates/cendb-executor/src/join.rs:135-173 | no match is outside the bucket of the hash of the key |
| `JoinCode.RunEnd` | source/crates/cendb-executor/src/join.rs:251-278 | the end of the run of equal keys |
| `JoinCode.CrossProduct` | source/crates/cendb-executor/src/join.rs:280-288 | two runs are crossed in order |
| `JoinCode.TakeRuns` | source/crates/cendb-executor/src/join.rs:250-292 | crossing two runs of an equal key accounts for all their matches in the rest |
| `JoinCode.SmallerMatchesNone` | source/crates/cendb-executor/src/join.rs:243-249 | a left key below the current right key matches nothing that follows |
| `JoinCode.GreaterMatchesNone` | source/crates/cendb-executor/src/join.rs:243-249 | a right key below the current left key is matched by nothing that follows |
| `JoinCode.KeyIsBehind` | source/crates/cendb-executor/src/join.rs:251-278 | behind its run a key of a sorted input does not come again |
| `JoinProofs.CmpIsEq` | source/crates/cendb-executor/src/join.rs:58-99 | the order is Equal on non-NULL values exactly when the values are equal, and it is antisymmetric; its direction is stated by `CmpExact` |
| `JoinProofs.CmpTransitive` | source/crates/cendb-executor/src/join.rs:75-99 | the order is transitive, strictly if one part is strict; its direction is stated by `CmpExact` |
| `ValueOrder.CmpExact` | source/crates/cendb-executor/src/join.rs:71-99 | main result: Less of exactly the values that come before: by kind from NULL over booleans, signed and unsigned integers, floats and bytes to timestamps, numbers by `<`, false before true, floats by sign and magnitude of their bits, byte strings as in `LessExact`; Equal of equal values only |
| `ValueOrder.FiniteOrder` | source/crates/cendb-executor/src/join.rs:94 | on finite floats the order is that of the numbers of the binary64 format (section 3.4 of IEEE 754), subnormals included, with -0 below +0 |
| `ValueOrder.UnitsGrow` | source/crates/cendb-executor/src/join.rs:94 | a larger magnitude of bits is a larger absolute value |
| `ValueOrder.LessExact` | source/crates/cendb-executor/src/join.rs:95 | a byte string is less than another if it is a proper prefix of it or smaller at the first byte where they differ |
| `ValueOrder.SortedExact` | source/crates/cendb-executor/src/join.rs:207-249 | inputs are sorted by the comparison exactly if they are ascending in these terms, rows without the key column in front |
| `JoinExact.NestedExact` | source/crates/cendb-executor/src/join.rs:186-202 | nested loops over any lists give one result for each pair that is kept, none for any other, ordered by the outer element and then by the inner one |
| `JoinExact.EquiJoinIsNested` | source/crates/cendb-executor/src/join.rs:186-202 | the equality join is such nested loops: it keeps the pairs whose columns exist, are equal and not NULL, and puts the left row in front |
| `JoinExact.ByRightIsNested` | source/crates/cendb-executor/src/join.rs:147-173 | with the right input outside, the same pairs come by the right row first, the left row still in front |
| `JoinExact.KeyJoinIsNested` | source/crates/cendb-executor/src/morsel.rs:246-270 | the join of tuples is such nested loops, by the probe tuple and then by the build tuple, with the value of the build side in front |
| `JoinProofs.MatchesKeys` | source/crates/cendb-executor/src/join.rs:58-69 | rows match exactly if both have the key and the keys are equal, NULL and missing never |
| `JoinProofs.LoopOrder` | source/crates/cendb-executor/src/join.rs:120-175 | exchanging the loops keeps the multiset of rows |
| `JoinProofs.RunsJoin` | source/crates/cendb-executor/src/join.rs:215-296 | if a key occurs only in the leading runs, the join is the cross product of the runs and the join of the rests |
| `JoinProofs.DropRight` | source/crates/cendb-executor/src/join.rs:215-296 | right rows that match nothing can be dropped from the front |
| `Morsel.ExternalMergeSort.constructor` | source/crates/cendb-executor/src/morsel.rs:141-147 | nothing has been pushed |
| `Morsel.ExternalMergeSort.Push` | source/crates/cendb-executor/src/morsel.rs:151-156 | one value more has been pushed, spilling or not |
| `Morsel.ExternalMergeSort.Spill` | source/crates/cendb-executor/src/morsel.rs:159-165 | the buffer becomes a sorted run |
| `Morsel.ExternalMergeSort.Finish` | source/crates/cendb-executor/src/morsel.rs:168-201 | main result: a sorted permutation of everything pushed, for every run size and sequence of pushes |
| `Morsel.MergeRuns` | source/crates/cendb-executor/src/morsel.rs:177-200 | the k-way merge of sorted runs is a sorted permutation of their values |
| `Morsel.PopLeast` | source/crates/cendb-executor/src/morsel.rs:192-193 | the popped entry is least, and just it is removed |
| `Morsel.FirstHeads` | source/crates/cendb-executor/src/morsel.rs:184-189 | the heap starts with the first value of each run |
| `Morsel.HeadsNext` | source/crates/cendb-executor/src/morsel.rs:192-198 | replacing a head by its successor in its run keeps the heap the heads of the runs |
| `Morsel.AheadNext` | source/crates/cendb-executor/src/morsel.rs:192-198 | appending the least head keeps the output sorted and below everything still to come |
| `Morsel.SortedCopyWorks` | source/crates/cendb-executor/src/morsel.rs:159-165 | the stable sort yields a sorted permutation |
| `Morsel.HybridHashJoin.constructor` | source/crates/cendb-executor/src/morsel.rs:223-230 | empty partitions |
| `Morsel.HybridHashJoin.AddBuild` | source/crates/cendb-executor/src/morsel.rs:233-236 | the tuple goes to the partition of its key |
| `Morsel.HybridHashJoin.AddProbe` | source/crates/cendb-executor/src/morsel.rs:239-242 | the tuple goes to the partition of its key |
| `Morsel.HybridHashJoin.Execute` | source/crates/cendb-executor/src/morsel.rs:246-270 | main result: the multiset of the plain equi-join, for every positive number of partitions; the partitions are empty afterwards |
| `Morsel.HybridHashJoin.JoinParts` | source/crates/cendb-executor/src/morsel.rs:247-268 | the results are those of the partitions one after the other |
| `Morsel.JoinPart` | source/crates/cendb-executor/src/morsel.rs:253-267 | one partition: build values by key, probe, and pair up |
| `Morsel.PartitionsJoin` | source/crates/cendb-executor/src/morsel.rs:246-275 | joining partition by partition finds each pair exactly once, whatever the partitioner |
| `Morsel.ProbeAddsOnce` | source/crates/cendb-executor/src/morsel.rs:246-270 | a probe tuple finds its partners in its own partition only |
| `Morsel.PartitionOf` | source/crates/cendb-executor/src/morsel.rs:272-275 | the partition number is in range for every key, negative ones included |
| `RdfStore.TripleStore.constructor` | source/crates/cendb-rdf/src/lib.rs:137-144 | the empty store |
| `RdfStore.TripleStore.Insert` | source/crates/cendb-rdf/src/lib.rs:148-156 | adds the triple to the set, says whether it was new, and keeps all three indexes in agreement with the set |
| `RdfStore.TripleStore.Remove` | source/crates/cendb-rdf/src/lib.rs:159-173 | takes the triple from the set, says whether it was there, and keeps the indexes in agreement |
| `RdfStore.TripleStore.All` | source/crates/cendb-rdf/src/lib.rs:191-193 | each stored triple once |
| `RdfStore.TripleStore.MatchPattern` | source/crates/cendb-rdf/src/lib.rs:199-236 | whichever index is used: each stored triple that fits the pattern exactly once and nothing else |
| `RdfStore.AddedIndexes` | source/crates/cendb-rdf/src/lib.rs:148-156 | an index with the new triple appended lists the larger set |
| `RdfStore.RemovedIndexes` | source/crates/cendb-rdf/src/lib.rs:159-173 | an index without the triple lists the smaller set |
| `RdfStore.Retain` | source/crates/cendb-rdf/src/lib.rs:163-171 | retaining the others removes just the triple |
| `RdfStore.Filter` | source/crates/cendb-rdf/src/lib.rs:221-235 | the candidates that fit, each once |
| `SparqlEval.Evaluate` | source/crates/cendb-rdf/src/sparql.rs:649-712 | main result: before filters and projection, for a non-empty pattern, every solution mapping of the basic graph pattern exactly once and nothing else (sections 18.3 and 18.5 of SPARQL 1.1 Query Language); no row for the empty pattern |
| `SparqlEval.JoinPattern` | source/crates/cendb-rdf/src/sparql.rs:658-676 | extending all rows by one more pattern keeps them all the solutions, each once |
| `SparqlEval.EvaluatePatternWithBinding` | source/crates/cendb-rdf/src/sparql.rs:729-768 | all extensions of a row by a pattern, each once |
| `SparqlEval.BindWorks` | source/crates/cendb-rdf/src/sparql.rs:782-800 | binding a fitting triple binds just the missing variables and makes the pattern that triple |
| `SparqlEval.BindComplete` | source/crates/cendb-rdf/src/sparql.rs:729-800 | every extension that makes the pattern a stored triple is found from that triple |
| `SparqlEval.SolutionSplits` | source/crates/cendb-rdf/src/sparql.rs:649-712 | a mapping solves patterns and one more exactly if its restriction solves the patterns and it extends that restriction |
| `SparqlEval.PatternOrder` | source/crates/cendb-rdf/src/sparql.rs:649-712 | permuting the patterns changes only the order of the rows |
| `RdfTextProofs.NTriplesRoundTrip` | source/crates/cendb-rdf/src/serialize.rs:61-100 | main result: parsing the N-Triples text of a list of triples gives the list back if and only if every triple is clean and of one line (section 2 of RDF 1.1 N-Triples) |
| `RdfTextProofs.LineReads` | source/crates/cendb-rdf/src/serialize.rs:75-86 | a printed line is read back as its triple exactly if subject and predicate have the kinds a line allows and every term is clean |
| `RdfTextProofs.ObjectReads` | source/crates/cendb-rdf/src/serialize.rs:26-39 | a printed term is read as itself and up to its end if it is clean, and never as itself otherwise |
| `RdfTextProofs.SubjectReads` | source/crates/cendb-rdf/src/serialize.rs:454-471 | the same for subjects, where a literal never comes back |
| `RdfTextProofs.PredicateReads` | source/crates/cendb-rdf/src/serialize.rs:473-492 | the same for predicates, where only IRIs come back |
| `RdfTextProofs.CharsRead` | source/crates/cendb-rdf/src/serialize.rs:41-54 | every text survives escaping and reading |
| `RdfTextProofs.IriReads` | source/crates/cendb-rdf/src/serialize.rs:434-452 | an IRI comes back exactly if its characters are clean: a backslash takes the next character with it and needs one, and no other > occurs |
| `RdfTextProofs.CleanIriIsScan` | source/crates/cendb-rdf/src/serialize.rs:434-452 | the scan over the printed IRI stops at its own end exactly if the characters are clean |
| `RdfTextProofs.BlankReads` | source/crates/cendb-rdf/src/serialize.rs:602-612 | a blank node label comes back exactly if no character that ends a label is in it |
| `RdfTextProofs.TagReads` | source/crates/cendb-rdf/src/serialize.rs:559-577 | a language tag or datatype comes back exactly if it is clean |
| `RdfTextProofs.ChunkReads` | source/crates/cendb-rdf/src/serialize.rs:61-100 | one printed triple reads back as itself alone exactly if it is clean and unbroken; without error it is at least one triple |
| `RdfTextProofs.ReadUnbroken` | source/crates/cendb-rdf/src/serialize.rs:61-73 | nothing read from one line has a line break where its printed form would show one |
| `RdfEscapes.SpellingReads` | source/crates/cendb-rdf/src/serialize.rs:514-558 | however the characters of a literal are spelled, raw, escaped by a letter or by a code point of four or eight hexadecimal digits, and between either quotes, the text is read back |
| `RdfEscapes.UnknownEscape` | source/crates/cendb-rdf/src/serialize.rs:549-552 | a backslash before any other character stands for itself, and so does the character |
| `RdfEscapes.CodeReads` | source/crates/cendb-rdf/src/serialize.rs:531-548 | the digits of a number name the character of that code, or nothing if there is none |
| `RdfEscapes.HexReads` | source/crates/cendb-rdf/src/serialize.rs:531-548 | hexadecimal digits are read as the number they write |
| `RdfEscapes.LinesExact` | source/crates/cendb-rdf/src/serialize.rs:61-73 | the triples of the lines come in their order, and an error has the number of the first line that is wrong |
| `RdfEscapes.LinesSplit` | source/crates/cendb-rdf/src/serialize.rs:61-73 | a text is split at its line breaks |
| `RdfEscapes.BlankLine` | source/crates/cendb-rdf/src/serialize.rs:64-68 | a line of white space is nothing |
| `RdfEscapes.CommentLine` | source/crates/cendb-rdf/src/serialize.rs:64-68 | a line whose first character that is no white space is # is nothing, whatever follows |
| `RdfEscapes.IndentedLine` | source/crates/cendb-rdf/src/serialize.rs:64-71 | a triple may be indented and followed by white space |
| `RdfEscapes.TrimExact` | source/crates/cendb-rdf/src/serialize.rs:65 | trimming takes the white space off both ends and nothing else |
| `RdfEscapes.LocalReads` | source/crates/cendb-rdf/src/serialize.rs:454-512 | without declarations a prefixed name means its local part |
| `TurtleProofs.TurtleRoundTrip` | source/crates/cendb-rdf/src/serialize.rs:111-314 | main result: parsing the Turtle text of clean triples gives a permutation of the list with all duplicates, namely the triples in the order of the printed blocks |
| `TurtleDocuments.WholeTextRead` | source/crates/cendb-rdf/src/serialize.rs:111-274 | main result: a text of declarations in both forms, base declarations, blocks, comments and white space in any order, its terms written in full or by any prefix declared up to their place, is read as exactly the triples of its blocks (section 2.4 of RDF 1.1 Turtle) |
| `TurtleAbbreviations.AbbreviatedRoundTrip` | source/crates/cendb-rdf/src/serialize.rs:111-314 | main result: clean triples written behind declarations, every IRI shortened by the first declared prefix that can shorten it, come back as a permutation with every duplicate kept |
| `TurtleAbbreviations.Redefined` | source/crates/cendb-rdf/src/serialize.rs:136-184 | the same text of a block means the first IRI before a prefix is declared anew and the second one after it |
| `TurtleDocuments.PartsRead` | source/crates/cendb-rdf/src/serialize.rs:111-274 | the same from any position of a text, with any prefixes known there |
| `TurtleDocuments.DefineStep` | source/crates/cendb-rdf/src/serialize.rs:136-184 | a declaration, `@prefix` with a dot or PREFIX without, gives its prefix the IRI from there on and replaces what the prefix meant |
| `TurtleDocuments.BaseStep` | source/crates/cendb-rdf/src/serialize.rs:155-163 | a base declaration of either form is read and changes nothing |
| `TurtleDocuments.CommentSkipped` | source/crates/cendb-rdf/src/serialize.rs:390-406 | a comment is skipped to the end of its line, whatever it says |
| `TurtlePrefixes.PrefixedReads` | source/crates/cendb-rdf/src/serialize.rs:262-270 | a prefixed name is read as the IRI of its prefix followed by the local part, or refused if the prefix has not been declared |
| `TurtlePrefixes.NoDeclaration` | source/crates/cendb-rdf/src/serialize.rs:121-129 | a prefixed name is never taken for a declaration, not even with the prefix named PREFIX |
| `TurtlePrefixes.FaithfulSound` | source/crates/cendb-rdf/src/serialize.rs:233-274 | a term written in full or by a declared prefix is read as that term in every surrounding |
| `TurtleSingle.SingleExact` | source/crates/cendb-rdf/src/serialize.rs:186-231 | three words and a dot are read as the triple of what they stand for, and refused if one of them stands for nothing |
| `TurtleSingle.NamesExact` | source/crates/cendb-rdf/src/serialize.rs:186-274 | a triple of three prefixed names is read, as the three IRIs, if and only if all three prefixes have been declared; otherwise the text goes no further |
| `TurtleSingle.UndeclaredRefused` | source/crates/cendb-rdf/src/serialize.rs:262-270 | an undeclared prefix of subject, predicate or object stops the text |
| `TurtleSingle.NameStands` | source/crates/cendb-rdf/src/serialize.rs:262-270 | a prefixed name stands for an IRI exactly if its prefix has been declared |
| `TurtleSingle.TypeStands` | source/crates/cendb-rdf/src/serialize.rs:233-244 | the word `a` is rdf:type as a predicate and no term elsewhere |
| `TurtleSingle.TypedReads` | source/crates/cendb-rdf/src/serialize.rs:233-244 | `x a z .` is read as the triple that gives x the type z |
| `TurtleProofs.CollapsedPermutes` | source/crates/cendb-rdf/src/serialize.rs:280-337 | grouping by subject and by predicate loses no triple and no duplicate |
| `TurtleProofs.GroupedSpreads` | source/crates/cendb-rdf/src/serialize.rs:318-337 | grouping by key and spreading out again permutes any list |
| `TurtleProofs.BlocksRead` | source/crates/cendb-rdf/src/serialize.rs:111-134 | printed blocks one after the other are read as their triples, with any prefixes known |
| `TurtleProofs.BlockRead` | source/crates/cendb-rdf/src/serialize.rs:186-231 | a printed block is read as its triples up to its end |
| `TurtleProofs.PropertiesRead` | source/crates/cendb-rdf/src/serialize.rs:196-229 | predicates with their objects, separated by semicolons, are read as the pairs they stand for |
| `TurtleProofs.ObjectsRead` | source/crates/cendb-rdf/src/serialize.rs:206-216 | objects separated by commas are read as the objects |
| `TurtleProofs.CleanShown` | source/crates/cendb-rdf/src/serialize.rs:233-274 | in every surrounding, a printed clean term is read as itself by both term readers |
| `TurtleProofs.ShownExactly` | source/crates/cendb-rdf/src/serialize.rs:246-274 | the printed form of a term is read as that term in every surrounding if and only if the term is clean |
| `TurtleProofs.BlockStartsClean` | source/crates/cendb-rdf/src/serialize.rs:186-231 | wherever a triple is printed and in whatever document: if what is read there starts with that triple, its terms are clean |
| `TurtleProofs.BlockOfOneExact` | source/crates/cendb-rdf/src/serialize.rs:186-314 | a triple printed alone is read as a block of just that triple if and only if its terms are clean |
| `RdfParserCode.Parser.constructor` | source/crates/cendb-rdf/src/serialize.rs:353-355 | starts at the beginning |
| `RdfParserCode.Parser.Bump` | source/crates/cendb-rdf/src/serialize.rs:365-369 | moves over one character, or stays at the end |
| `RdfParserCode.Parser.ExpectChar` | source/crates/cendb-rdf/src/serialize.rs:371-378 | consumes just the expected character |
| `RdfParserCode.Parser.SkipWs` | source/crates/cendb-rdf/src/serialize.rs:380-388 | stops at the first character that is no white space |
| `RdfParserCode.Parser.SkipLine` | source/crates/cendb-rdf/src/serialize.rs:394-400 | stops behind the next line break |
| `RdfParserCode.Parser.SkipWsAndComments` | source/crates/cendb-rdf/src/serialize.rs:390-406 | stops at the first character outside white space and comments |
| `RdfParserCode.Parser.ParseIri` | source/crates/cendb-rdf/src/serialize.rs:434-452 | outcome and position are those of the reading function, for every text |
| `RdfParserCode.Parser.ParsePnameLocal` | source/crates/cendb-rdf/src/serialize.rs:602-612 | takes all characters up to the first that ends a label |
| `RdfParserCode.Parser.ParseBlank` | source/crates/cendb-rdf/src/serialize.rs:458-463 | a blank node behind its mark |
| `RdfParserCode.Parser.ParsePrefixedName` | source/crates/cendb-rdf/src/serialize.rs:583-598 | prefix and local part, or an error |
| `RdfParserCode.Parser.ParseCode` | source/crates/cendb-rdf/src/serialize.rs:531-548 | up to four or eight hexadecimal digits name a code point or nothing |
| `RdfParserCode.Parser.ParseEscape` | source/crates/cendb-rdf/src/serialize.rs:523-554 | every escape as specified, unknown ones kept |
| `RdfParserCode.Parser.ParseChars` | source/crates/cendb-rdf/src/serialize.rs:515-558 | the characters of a literal up to its own quote |
| `RdfParserCode.Parser.ParseTag` | source/crates/cendb-rdf/src/serialize.rs:559-577 | language tag, datatype or neither |
| `RdfParserCode.Parser.ParseLiteral` | source/crates/cendb-rdf/src/serialize.rs:514-579 | meets the specification of literals |
| `RdfParserCode.Parser.ParseSubject` | source/crates/cendb-rdf/src/serialize.rs:454-471 | meets the specification of subjects |
| `RdfParserCode.Parser.ParseIriOrA` | source/crates/cendb-rdf/src/serialize.rs:473-492 | meets the specification of predicates, the keyword `a` included |
| `RdfParserCode.Parser.ParseObject` | source/crates/cendb-rdf/src/serialize.rs:494-512 | meets the specification of objects |
| `RdfParserCode.Parser.ParseTerm` | source/crates/cendb-rdf/src/serialize.rs:246-274 | meets the specification of Turtle terms; by `PrefixedReads` a prefixed name is the IRI its prefix has been declared for with the local part behind it, and an error without a declaration |
| `RdfParserCode.Parser.ParsePredicate` | source/crates/cendb-rdf/src/serialize.rs:233-244 | meets the specification of Turtle predicates |
| `RdfParserCode.Parser.ParseNextObject` | source/crates/cendb-rdf/src/serialize.rs:206-214 | one round of the loop over objects |
| `RdfParserCode.Parser.ParseObjects` | source/crates/cendb-rdf/src/serialize.rs:206-216 | the loop over objects appends one triple for each object it reads |
| `RdfParserCode.Parser.ParsePairs` | source/crates/cendb-rdf/src/serialize.rs:203-216 | a predicate with its objects |
| `RdfParserCode.Parser.ParseMark` | source/crates/cendb-rdf/src/serialize.rs:217-228 | semicolon, dot or error |
| `RdfParserCode.Parser.ParseProperty` | source/crates/cendb-rdf/src/serialize.rs:196-229 | one round of the loop over predicates |
| `RdfParserCode.Parser.ParsePredicates` | source/crates/cendb-rdf/src/serialize.rs:196-229 | the loop over predicates appends the triples of all it reads |
| `RdfParserCode.Parser.ParseTriplesBlock` | source/crates/cendb-rdf/src/serialize.rs:186-231 | a block appends its triples or fails |
| `RdfParserCode.Parser.ParseTarget` | source/crates/cendb-rdf/src/serialize.rs:177-182 | the IRI of a declaration and an optional dot |
| `RdfParserCode.Parser.ParsePrefixName` | source/crates/cendb-rdf/src/serialize.rs:165-173 | anything up to a colon |
| `RdfParserCode.Parser.ParsePrefixDecl` | source/crates/cendb-rdf/src/serialize.rs:136-184 | a declaration defines or redefines its prefix |
| `RdfParserCode.Parser.ParseBaseDecl` | source/crates/cendb-rdf/src/serialize.rs:155-163 | a base declaration is consumed without effect |
| `RdfParserCode.ParseStatement` | source/crates/cendb-rdf/src/serialize.rs:121-131 | one declaration or block: what it does to prefixes and triples |
| `RdfParserCode.ParseNTriplesLine` | source/crates/cendb-rdf/src/serialize.rs:75-86 | meets the specification of a line |
| `RdfParserCode.ParseNTriples` | source/crates/cendb-rdf/src/serialize.rs:61-73 | the triples of the lines in order, or the number of the first bad line |
| `RdfParserCode.ParseTurtle` | source/crates/cendb-rdf/src/serialize.rs:111-134 | meets the specification of Turtle documents, for every text; `WholeTextRead` says which triples a text with declarations, prefixed names, comments and white space has |
| `RdfParserCode.EscapeLiteral` | source/crates/cendb-rdf/src/serialize.rs:41-54 | meets the specification of escaping |
| `RdfParserCode.SerializeNTriples` | source/crates/cendb-rdf/src/serialize.rs:89-100 | writes the text whose round trip is proved |
| `RdfParserCode.VecMap.constructor` | source/crates/cendb-rdf/src/serialize.rs:324-326 | no keys |
| `RdfParserCode.VecMap.Push` | source/crates/cendb-rdf/src/serialize.rs:327-334 | appends to the entry of the key, or adds an entry at the end |
| `RdfParserCode.VecMap.IntoIter` | source/crates/cendb-rdf/src/serialize.rs:335-337 | keys with their values in order of first insertion |
| `RdfParserCode.GroupSubjects` | source/crates/cendb-rdf/src/serialize.rs:281-285 | groups the triples by subject |
| `RdfParserCode.GroupProperties` | source/crates/cendb-rdf/src/serialize.rs:289-293 | groups the properties of a subject by predicate |
| `RdfParserCode.WriteObjects` | source/crates/cendb-rdf/src/serialize.rs:304-309 | writes objects with commas between them |
| `RdfParserCode.WriteProperty` | source/crates/cendb-rdf/src/serialize.rs:302-309 | writes a predicate and its objects |
| `RdfParserCode.WriteProperties` | source/crates/cendb-rdf/src/serialize.rs:294-310 | writes predicates with semicolons between them |
| `RdfParserCode.WriteBlock` | source/crates/cendb-rdf/src/serialize.rs:287-312 | writes the block of a subject |
| `RdfParserCode.SerializeTurtle` | source/crates/cendb-rdf/src/serialize.rs:280-314 | writes the text whose round trip is proved |
| `RdfParserCode.NTriplesThereAndBack` | source/crates/cendb-rdf/src/serialize.rs:61-100 | end to end through both loops: the list comes back exactly if all triples are clean and of one line |
| `RdfParserCode.TurtleThereAndBack` | source/crates/cendb-rdf/src/serialize.rs:111-314 | end to end through both loops: a permutation of the list comes back |
| `RaftModel.CommitRule` | source/crates/cendb-replication/src/lib.rs:137-156 | with terms that never fall along the log, the backward scan with its early break finds the largest index beyond the commit index held by a majority in the current term, or keeps the commit index (section 5.4.2 and Figure 2 of the extended Raft paper) |
| `RaftModel.FallingTermsMiss` | source/crates/cendb-replication/src/lib.rs:137-156 | the premise is needed: a concrete log with falling terms where the early break misses a committable index |
| `RaftModel.RulesKeepTerms` | source/crates/cendb-replication/src/lib.rs:91-168 | every node operation keeps the terms of its log rising |
| `RaftModel.RunSafety` | source/crates/cendb-replication/src/lib.rs:189-270 | main result, over all runs of elections, replications and applications: at any time all logs and terms are equal, later logs extend earlier ones, and what was committed stays in every later log |
| `RaftApplied.HandedOutExact` | source/crates/cendb-replication/src/lib.rs:159-168 | over any run from a fresh cluster, the entries that a node has handed out, put together, are its log up to the last applied entry, each once and in order; after a step of applying they are all that is committed |
| `RaftQuorum.MajorityExact` | source/crates/cendb-replication/src/lib.rs:104-105 | a majority is the smallest number of nodes of which two groups cannot be disjoint |
| `RaftQuorum.QuorumsMeet` | source/crates/cendb-replication/src/lib.rs:104-105 | two majorities of one cluster share a node |
| `RaftQuorum.VotesNeeded` | source/crates/cendb-replication/src/lib.rs:91-110 | a candidate leads exactly from the vote on that makes a majority together with its own; a node without peers needs a second vote, because votes are counted only when one comes in |
| `RaftQuorum.LeaderStartsOver` | source/crates/cendb-replication/src/lib.rs:113-120 | a new leader takes every peer to hold nothing and sends it the entry after its own last one next |
| `RaftQuorum.AcknowledgedNext` | source/crates/cendb-replication/src/lib.rs:137-156 | a leader sends a follower next what follows the entry last acknowledged, and its commit index never goes back |
| `RaftQuorum.ElectionVotes` | source/crates/cendb-replication/src/lib.rs:204-233 | an election leaves every node with the new term and its vote given to the winner |
| `RaftModel.ElectionRaisesTerm` | source/crates/cendb-replication/src/lib.rs:204-233 | every election of a run wins and strictly raises the term of every node |
| `RaftModel.ReplicationCommits` | source/crates/cendb-replication/src/lib.rs:236-263 | every replication under a leader appends one entry and commits it at once |
| `RaftModel.StartsInStep` | source/crates/cendb-replication/src/lib.rs:189-200 | a new cluster is in lockstep |
| `RaftModel.ElectionInStep` | source/crates/cendb-replication/src/lib.rs:204-233 | an election keeps the lockstep and wins |
| `RaftModel.ReplicationInStep` | source/crates/cendb-replication/src/lib.rs:236-263 | a replication keeps the lockstep, for every order in which followers acknowledge |
| `RaftModel.ApplyInStep` | source/crates/cendb-replication/src/lib.rs:266-270 | applying keeps the lockstep and applies all that is committed |
| `RaftCode.RaftNode.constructor` | source/crates/cendb-replication/src/lib.rs:74-88 | a new follower |
| `RaftCode.RaftNode.StartElection` | source/crates/cendb-replication/src/lib.rs:91-96 | meets the specification of a candidacy |
| `RaftCode.RaftNode.ReceiveVote` | source/crates/cendb-replication/src/lib.rs:99-110 | counts a vote and becomes leader at the majority |
| `RaftCode.RaftNode.BecomeLeader` | source/crates/cendb-replication/src/lib.rs:113-120 | meets the specification of taking the lead |
| `RaftCode.RaftNode.AppendEntry` | source/crates/cendb-replication/src/lib.rs:123-134 | appends one entry of the current term |
| `RaftCode.RaftNode.Acknowledge` | source/crates/cendb-replication/src/lib.rs:137-156 | for a leader with rising terms the new commit index is the largest committable one, or unchanged if there is none above |
| `RaftCode.RaftNode.ApplyCommitted` | source/crates/cendb-replication/src/lib.rs:159-168 | returns the committed entries not yet applied, which over a run make up the committed log by `HandedOutExact` |
| `RaftCode.RaftCluster.constructor` | source/crates/cendb-replication/src/lib.rs:189-200 | three nodes, no leader |
| `RaftCode.RaftCluster.CollectVotes` | source/crates/cendb-replication/src/lib.rs:210-222 | counts the votes and updates the voters |
| `RaftCode.RaftCluster.ElectLeader` | source/crates/cendb-replication/src/lib.rs:204-233 | an election in a reachable cluster wins |
| `RaftCode.RaftCluster.ReplicateEntry` | source/crates/cendb-replication/src/lib.rs:236-263 | under a leader the entry is committed at the returned index, whatever the order of the acknowledgements |
| `RaftCode.RaftCluster.Spread` | source/crates/cendb-replication/src/lib.rs:239-262 | append, distribute, acknowledge |
| `RaftCode.RaftCluster.Distribute` | source/crates/cendb-replication/src/lib.rs:245-254 | every follower receives the entry |
| `RaftCode.RaftCluster.CollectAcknowledgements` | source/crates/cendb-replication/src/lib.rs:256-260 | the leader takes one acknowledgement of each follower |
| `RaftCode.RaftCluster.ApplyToAll` | source/crates/cendb-replication/src/lib.rs:266-270 | every node applies what it knows as committed |

## Left out

- CenDocRoundTrip.RoundTrip: for documents below 2^32 bytes, because offsets and lengths are truncated to 32 bits without a check; `BlobExact` and `StringExact` go beyond that for values without offsets, the exact condition for containers is not stated.
- Documents: strings are sequences of bytes; UTF-8 validity and the lossy conversion of bad strings are not part of this model, nor is `get_path`, a loop of lookups over a decoded value.
- PushdownMeaning.PushDownKeepsMeaning: safety is sufficient for all plans and, by `PushdownExact.TreeExact`, the exact condition is stated for trees of filters and joins whose filters name no table of the other input; across projections, sorts, aggregates and limits, other filters can hide a difference. Columns are qualified by their table; sort, aggregate, projection and limit are arbitrary functions of row sequences that stay in the namespace of their tables.
- Predicates are sequences of words: quoted literals that contain `and` or `or`, and letters and digits outside ASCII, are not modelled.
- The estimates and costs of the optimizer, join method and index selection, and `explain`.
- KvStoreCode.KvStore.Delete: its flag says that buffer or index knew the key, which is not whether a value was visible.
- KvStore: `len`, `iter` before compaction and the compression statistics, for which the code promises less than their names say; the contents of PAX blocks, segment files and their errors. Of a sealed block only its size is modelled, with the length of the encoded hashes as a parameter.
- ArtTreeCode.ArtTree.Insert: keys that are proper prefixes of stored keys are described, not repaired; `len` is tied to the number of keys only without such a clash.
- ArtTreeCode.ArtTree.RemoveKey: when every other key is still found is stated exactly for trees in which every interior node has two children or more, which insertion without clashes keeps; in other trees a leaf that moved up may still be found by chance. Values are fixed to row locators.
- ArtTree: node slots are passed and returned by value, so sharing and destruction of nodes are not modelled; `range` with an open end, `trim_prefix` and the stress generator are left out.
- CenqlRoundTrip.GrammarExact: works on tokens, so lexing, string escapes and token positions in errors are left out; names are taken to be lexed as identifiers, float literals and subqueries are not part of the expressions, and operator tokens are named by their operator.
- CenQL pipelines and statements other than expressions.
- Graph: the node and edge blocks of `GraphProjection`, whose repeated `flush` replaces earlier edges; the overlay is built from the list of edges.
- Buffer pool: the statistics, page LSNs, failing page sources and memory-mapped files; the reserved page id is excluded by the type of page ids. At most one pin is outstanding, because a pinned page borrows the pool.
- PoolProofs.ScanResistance: needs a spare frame at the start, which `ScanExact` shows to be exact unless every page scanned is cached.
- JoinCode.MergeJoin: only for ascending inputs, which the source demands; on others the code returns some of the matches.
- `auto_select_method`, `choose_join_method` and `auto_join`: choices of a method, which do not check that inputs are sorted by the join column.
- Morsels and morsel batches, which are containers.
- SparqlEval.Evaluate: before filters, projection and limit, which keep, cut or shorten rows; blank nodes as variables and the SPARQL parser are left out.
- RdfTextProofs.NTriplesRoundTrip: for ASCII texts, because the reader takes each byte of a literal or label for a character.
- TurtleProofs.TurtleRoundTrip: for ASCII texts and clean terms; the converse is stated for terms (`ShownExactly`) and for single triples (`BlockOfOneExact`), not for whole documents, where text inside an unclean term can open statements of its own.
- TurtleDocuments.WholeTextRead: for prefixes of letters, digits, hyphens and underscores, and for statements with the spacing of the serializer; literals between single quotes, the predicate `a` and refused names are stated by themselves (`RdfEscapes.SpellingReads`, `TurtleSingle`), not inside whole documents.
- RdfParserCode.ParseTurtle: error messages are not modelled.
- RaftModel.RunSafety: for the runs of the three-node cluster from `new_3_node`; snapshots and changes of membership, after which log indices start again, are left out, as is a single holder of the leader role, which the code does not keep.
- RaftCode.RaftCluster.CollectVotes: the votes of all nodes are counted at once, so lost messages and timeouts are not modelled.
- Write-ahead log, transactions, storage, network, security, spatial and vector search, language bindings, code generation and export formats.
