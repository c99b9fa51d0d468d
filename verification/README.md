# ElyraSQL: verified models of its core algorithms

ElyraSQL is a SQL engine whose fast paths must agree with simple reference meanings. This project models the
algorithms where that agreement is hard to see and proves it, for all inputs and all interleavings.

- **Query transformations.** Removing parenthesised joins keeps the row sequence (`NestJoin`); the one-backtrack LIKE
  loop decides the recursive definition (`Like`); compiled filters and expressions answer as the interpreter does
  (`Cpred`, `Cexpr`).
- **Ordered storage.** The key encoding embeds SQL order in byte order (`KeyEnc`); index predicates become exact byte
  intervals (`Index`, `IndexNames`); min/max skipping loses nothing (`ZoneMap`); a scan pulled in batches is project of
  take of drop of filter (`Stream`).
- **Protocols.** Re-keying that may be cut at any commit (`CollMig`, `Resuming`); a generation-tagged cache under concurrent commits
  (`SchemaCache`); the embedding sweep with compare-and-swap, retries and dead letters (`Sweeper`); the table lock
  manager (`LockMgr`); resident and spilled grouping (`AggSpill`, `GroupBy`).
- **Arithmetic and codecs.** The calendar and its texts (`Calendar`, `DateText`); exact DECIMAL (`Decimals`,
  `DecimalText`); JSON (`Json`, `JsonCursor`, `JsonEscapes`); stored rows (`RowDec`); comparison and
  grouping keys (`Comparing`, `GroupKey`, `EqualKeys`).

`Wrappers`, `Values`, `Comparing`, `Bytes` (with `Store`, the ordered key-value store), `Scan`, `Digits`, `Texts` and
`Products` are shared vocabulary. `Instances` exhibits parameters that meet what other modules ask of theirs. Loops and
objects of the source are methods and classes proved against functions; recursion and expressions are functions. A few
loop invariants are stated under a dummy quantifier (`Sweeper.Intact`, `CollMig.PlannedSoFar`, `ZoneMap.FoundSoFar` and
a few more) so that the verifier unfolds them only where a lemma opens them.

Conventions. Text is its UTF-8 bytes, except where the source works on characters (LIKE, dates, decimals), where it is
a `string`. Integers are unbounded, with the source's width, checks and wrap-around written out where they matter:
checked 32-, 64- and 128-bit operations in dates and decimals, 64-bit wrap-around in the partition hash, two's
complement in stored values. Finite floats are reals. Case folding is an arbitrary function. Clocks, provider replies,
client actions, crashes and lost races are inputs over which every statement is quantified.

Where the source does not do what its comments say, the model follows the source, and the exact condition is proved:

- LIKE folds the pattern before it looks for the escape character, so a letter used as the escape also escapes where
  the other case stands (`Like.FoldingFirstAgreesIff`, `Like.LetterEscapeCounterexample`).
- The compiled filter can differ from the interpreter: integers from 2^53 on share floats, and a decimal literal may
  divide out to another float than its text parses to (`Cpred.CompareCompilesIff`, `Cpred.InCompilesIff`,
  `Cpred.BeyondExact`).
- A schema cache entry that is served may be any version that holds all bumped commits: older than the committed state
  while a commit awaits its bump, and newer than the last bump (`SchemaCache.HitIsCurrentIff` and its companions for
  listings and definitions; `SchemaCache.HitOfVersion` gives the execution).
- The migration reports keys that become equal when a row's new key is merely the old key of a row that is yet to move
  (`CollMig.PlanChain`; `CollMig.Db.MigrateTable` finishes or reports a clash exactly as the table is `Movable`, which
  is settled before it starts).
- A migration that would have finished can be cut off so that no later start finishes it, because batches then end
  elsewhere (`Resuming.ResumeClashes`). What a cut-off start leaves is settled by the table and the batch it stopped
  after (`CollMig.ScannedUnique`), and the next start finishes exactly if that is `Movable` (`CollMig.Db.Restarts`);
  rows that can all move freely always resume.
- The embedding sweep takes a row for embedded by a 64-bit hash of its text, and a missing sidecar for hash 0. So an edit
  to a text of the same hash keeps the old vector, and a text of hash 0 is never sent (`Sweeper.CollisionUnseen`,
  `Sweeper.ZeroHashUnseen`). `Sweeper.SidecarsTrueIff` says for which texts sidecars are right; no index is right for
  all texts (`Sweeper.HashesRepeat`). It also goes by the key's sidecar after the key was reused
  (`Sweeper.ReusedKeyIff`, `Sweeper.ReusedKeyStale`).
- Values that compare equal can have different grouping keys: of different kinds always, and decimals when one saturates
  to the other (`EqualKeys.EqualKeysIff`, `EqualKeys.OneTwice`, `EqualKeys.SaturatedPair`).
- Minus one compares greater than the least 128-bit integer with 39 decimal places or more, because it saturates to one
  more than that (`Comparing.DecimalOrderIff`, `Comparing.MisplacedPair`).
- A text and a JSON text compare alike in both orders (`Comparing.SwapReversesIff`, `Comparing.MixedAlike`).
- The explicit-lock counter does not show a lock that is taken and not yet counted (`LockMgr.ActiveTellsIff`,
  `LockMgr.TakenUncounted`).
- JSON strings lose every character outside ASCII when printed and parsed (`Json.RoundTripIff`), and the validator lets
  through escapes the parser refuses (`JsonEscapes.ParsesIff`).
- Reading a decimal text at scale 0 fails if no digit stands before the point, where reading it at its own scale and
  rescaling rounds (`DecimalText.OwnScaleAgreesIff`, `DecimalText.NoDigits`, `DecimalText.NoDigitBeforePoint`).
- Rounding division gives up on the least 128-bit divisor although the quotient fits (`Decimals.DivisionExact`), and the
  remainder of the least integer by minus one stops the program (`Decimals.ModuloDefined`).
- The upper bound of a prefix made only of 0xFF bytes is not exact (`Index.UpperBoundExactIff`); names with colons make
  different indexes share a prefix (`IndexNames.SharePrefixIff`); texts of 2^32 bytes make different rows share a
  grouping key (`GroupKey.OverlongRows`).

## Model

| member | source | states |
|---|---|---|
| NestJoin.FlattenKeepsMeaning | crates/elyra-engine/src/nestjoin.rs:71-130 | for every join tree whose conditions read only their operands' columns, the flattened list evaluates, left to right, to the same row sequence, and stays well scoped |
| NestJoin.FlattenJoinKeepsMeaning | crates/elyra-engine/src/nestjoin.rs:80-128 | one join on the right of any relation, rewritten, yields the same rows in the same order |
| NestJoin.FlattenJoinsKeepsMeaning | crates/elyra-engine/src/nestjoin.rs:79-129 | a whole list of joins rewritten yields the same rows in the same order |
| NestJoin.CrossListKeepsMeaning | crates/elyra-engine/src/nestjoin.rs:112-117 | taking inner joins out of the right operand of a cross join gives the product with the nested relation |
| NestJoin.ProductJoins | crates/elyra-engine/src/nestjoin.rs:112-117 | a product distributes into the base of a list of inner joins |
| NestJoin.AttachLastFilters | crates/elyra-engine/src/nestjoin.rs:118-127 | the outer condition attached to the last join filters the whole list's rows, exactly |
| NestJoin.SelectedTwice | crates/elyra-engine/src/nestjoin.rs:132-138 | filtering by two conditions in turn is filtering by their three-valued conjunction |
| NestJoin.FlattenIsFlat | crates/elyra-engine/src/nestjoin.rs:71-130 | a flattened item has no unaliased parentheses on the left, none around a single table, and none around a list of inner joins on the right of an inner or cross join |
| NestJoin.StaysIff | crates/elyra-engine/src/nestjoin.rs:80-128 | a join keeps its parentheses exactly if they are around an outer join, or on the right of one, and not around a single table |
| NestJoin.FlattenKeepsWords | crates/elyra-engine/src/nestjoin.rs:71-130 | tables, conditions and outer operators are spelled out in the same order, none lost or doubled |
| NestJoin.MovesCondition | crates/elyra-engine/src/nestjoin.rs:112-127 | `a JOIN (b JOIN c ON y) ON x` is `a CROSS JOIN b JOIN c ON (y) AND (x)` |
| NestJoin.FlattenIdempotent | crates/elyra-engine/src/nestjoin.rs:71-130 | flattening twice is flattening once |
| NestJoin.FromItem.Flatten | crates/elyra-engine/src/nestjoin.rs:71-130 | the in-place rewriting terminates with the value `Flattened` gives |
| NestJoin.FromItem.RewriteAll | crates/elyra-engine/src/nestjoin.rs:79-129 | the loop over the taken joins builds the rewritten list |
| NestJoin.FromItem.Rewrite | crates/elyra-engine/src/nestjoin.rs:80-128 | one join is kept, unwrapped or spliced, as its operator and contents allow |
| Like.TokensMean | crates/elyra-engine/src/predicate.rs:569-585 | the token list fits a text exactly when the pattern matches it by the recursive LIKE definition |
| Like.Tokenise | crates/elyra-engine/src/predicate.rs:569-585 | the loop yields the tokens of the pattern, a trailing escape character being literal |
| Like.NewStarSuffices | crates/elyra-engine/src/predicate.rs:590-595 | at a new `%`, anything an earlier `%` could still achieve can be achieved from here: forgetting the earlier one loses no match |
| Like.NoRetryAtEnd | crates/elyra-engine/src/predicate.rs:589-616 | when the text is used up, no later attempt at the remembered `%` could succeed |
| Like.Run | crates/elyra-engine/src/predicate.rs:587-620 | the single-backtrack loop terminates and returns true exactly when the tokens fit the text |
| Like.RestIsAny | crates/elyra-engine/src/predicate.rs:617-620 | the closing loop decides whether what is left of the pattern fits the empty text |
| Like.LikeEval | crates/elyra-engine/src/predicate.rs:556-621 | for every text, pattern, escape and fold, the answer is the recursive definition on the folded pattern, escape and text |
| Like.FoldingFirstAgreesIff | crates/elyra-engine/src/predicate.rs:556-567 | folding before tokenising agrees with matching up to folding for every pattern and text exactly when folding neither makes nor loses a special character |
| Like.LetterEscapeCounterexample | crates/elyra-engine/src/predicate.rs:564-573 | a pattern and text on which a letter escape gives the other answer |
| KeyEnc.BigEndianOrder | crates/elyra-engine/src/keyenc.rs:53-101 | fixed-width big-endian bytes are ordered as the numbers are |
| KeyEnc.TextOrder | crates/elyra-engine/src/keyenc.rs:53-101 | escaped and terminated text is ordered as the text, and no encoding is a prefix of another |
| KeyEnc.ComponentOrder | crates/elyra-engine/src/keyenc.rs:53-101 | for two values of one kind, byte order and equality of the components are SQL order and equality under the collation, and unequal components diverge |
| KeyEnc.KeyOrder | crates/elyra-engine/src/keyenc.rs:12-21 | the encoding of same-typed tuples is an order embedding: equality, lexicographic order, and no proper prefixes |
| KeyEnc.KeyPrefix | crates/elyra-engine/src/keyenc.rs:12-21 | the key of leading columns is a prefix of the key |
| KeyEnc.KeyParts | crates/elyra-engine/src/keyenc.rs:12-21 | a key is the components' bytes one after the other, each under its own collation, case-insensitive where none is given |
| KeyEnc.KindsMean | crates/elyra-engine/src/keyenc.rs:53-96 | exactly the values that can be in a key are of a kind that compares |
| KeyEnc.AppendText | crates/elyra-engine/src/keyenc.rs:53-101 | the per-byte loop appends the escaped, terminated text |
| KeyEnc.EncodeKeyColl | crates/elyra-engine/src/keyenc.rs:12-21 | the growing buffer holds the tuple's key; an unencodable value makes the whole fail |
| KeyEnc.EncodeColumnsColl | crates/elyra-engine/src/keyenc.rs:23-38 | encoding selected columns in place is encoding the tuple they make |
| Index.UniqueEntryCollision | crates/elyra-engine/src/index.rs:127-141 | two rows share a unique index entry key exactly when their tuples are equal under the collations |
| Index.EntryOrder | crates/elyra-engine/src/index.rs:127-141 | entries of an index that is not unique lie in the order of their tuples and, of equal tuples, of the rows' own keys, and two are one only if they are of one row |
| IndexNames.PrefixesBounded | crates/elyra-engine/src/index.rs:84-86 | the real prefixes have a byte below 0xFF, so their upper bounds are exact |
| IndexNames.PrefixesSpelled | crates/elyra-engine/src/index.rs:84-105 | the prefixes of indexed and NULL entries, spelled out |
| IndexNames.StorageSpelled | crates/elyra-engine/src/catalog.rs:602-610 | the storage name of a later generation, spelled out |
| IndexNames.HexDigits | crates/elyra-engine/src/catalog.rs:602-610 | its sixteen hexadecimal digits are those of the generation's number |
| IndexNames.SharePrefixIff | crates/elyra-engine/src/index.rs:84-86 | two indexes share a prefix exactly when they are the same or one table's name reaches over a colon or a separator into the other index's name |
| IndexNames.SeparatorInName | crates/elyra-engine/src/index.rs:84-86 | two different indexes with a separator in their names share a prefix |
| IndexNames.NullApart | crates/elyra-engine/src/index.rs:103-105 | entries for NULLs lie under no index's prefix |
| IndexNames.StorageNamesDiffer | crates/elyra-engine/src/catalog.rs:602-610 | tables and generations have one storage name exactly when they are the same, if table names hold no colon and start with no NUL |
| IndexNames.GenerationsApart | crates/elyra-engine/src/catalog.rs:602-610 | with such names, under the prefix of one index of one generation of a table lie no entries of another |
| IndexNames.OwnKeyspace | crates/elyra-engine/src/index.rs:84-86 | then under an index's prefix, in every generation, lie exactly its own entries, as its lookups need |
| Index.PrefixUpperBound | crates/elyra-engine/src/index.rs:475-486 | the in-place edit computes the bound specified below |
| Index.UpperBoundExact | crates/elyra-engine/src/index.rs:475-486 | a key is below the bound exactly when it is before the prefix or starts with it |
| Index.UpperBoundExactIff | crates/elyra-engine/src/index.rs:475-486 | that holds for all keys exactly when some byte of the prefix is below 0xFF |
| Index.PrefixRangeScanBounds | crates/elyra-engine/src/index.rs:435-470 | the interval computed, or none if it is empty, or an error if a bound cannot be encoded |
| Index.ScanBoundsExact | crates/elyra-engine/src/index.rs:435-470 | the interval contains an entry exactly when its leading columns equal the prefix values and the next column is within the bounds |
| Index.SuffixFormExact | crates/elyra-engine/src/index.rs:331-389 | the interval built with 0x01 suffixes selects the same entries of a one-column index |
| Index.RangeScan | crates/elyra-engine/src/index.rs:397-433 | the batched loop returns the data key held by every entry of the interval once, in order |
| Index.PrefixScan | crates/elyra-engine/src/index.rs:304-329 | the cursor loop returns the data key held by every entry under the prefix once, in order |
| Index.PushDataKeys | crates/elyra-engine/src/index.rs:318-322 | a batch's data keys are pushed one by one |
| Index.LookupPrefixRange | crates/elyra-engine/src/index.rs:397-433 | the data keys of exactly the rows whose leading columns match and whose next column is in range, in index order |
| Index.LookupRange | crates/elyra-engine/src/index.rs:331-389 | the data keys of exactly the rows in range, on a one-column index |
| Index.LookupEq | crates/elyra-engine/src/index.rs:304-329 | the data keys of exactly the rows whose indexed tuple equals the values under the collations |
| SchemaCache.StepKeepsInv | crates/elyra-engine/src/schemacache.rs:44-117 | every step of every process keeps all cached and in-flight answers fresh for the generation they carry |
| SchemaCache.RunKeepsInv | crates/elyra-engine/src/schemacache.rs:44-117 | so does every interleaving of commits, bumps, evictions, reads, listings and loads |
| SchemaCache.ServedIsFresh | crates/elyra-engine/src/schemacache.rs:71-117 | whatever a lookup serves reflects every commit whose bump preceded the lookup's start, even with late stores over newer entries |
| SchemaCache.BatchKeepsFresh | crates/elyra-engine/src/schemacache.rs:88-117 | a listing read in batches from different versions is right key by key |
| SchemaCache.LoadStepKeepsInv | crates/elyra-engine/src/catalog.rs:747-800 | the steps of `load` keep its definition fresh |
| SchemaCache.DeclStepKeepsInv | crates/elyra-engine/src/catalog.rs:747-800 | a definition built from another cached read, with a later generation, is still fresh |
| SchemaCache.HitIsCurrentIff | crates/elyra-engine/src/schemacache.rs:9-16 | in every reachable state with a given log, an entry that would be served is the committed state exactly when no commit after the newest bumped one changed the answer |
| SchemaCache.AllHitsCurrentIff | crates/elyra-engine/src/schemacache.rs:9-16 | every such entry is the committed state exactly when all versions that hold the bumped commits equal it |
| SchemaCache.HitOfVersion | crates/elyra-engine/src/schemacache.rs:44-86 | an execution that ends in the given log with a call served, from the cache, the answer of any chosen version that holds the bumped commits |
| SchemaCache.NewestBumpedSettles | crates/elyra-engine/src/schemacache.rs:9-16 | with the newest commit bumped, only the newest version holds all bumped commits |
| SchemaCache.ListIsCurrentIff | crates/elyra-engine/src/schemacache.rs:88-117 | a cached listing is sure to be the committed one exactly when no such version has other keys under the prefix |
| SchemaCache.ListOfVersion | crates/elyra-engine/src/schemacache.rs:88-117 | an execution that ends with the keys of any chosen such version cached, however many batches they take |
| SchemaCache.DefinitionIsCurrentIff | crates/elyra-engine/src/catalog.rs:747-800 | a cached definition is sure to be the committed one exactly when every such pair of versions, one for the definition and one for the declared types, gives it |
| SchemaCache.DefinitionOfVersions | crates/elyra-engine/src/catalog.rs:747-800 | an execution that ends with the definition of one chosen version and the declared types of another cached |
| SchemaCache.KeysSpelled | crates/elyra-engine/src/catalog.rs:207-209 | the three keys behind a table's definition, spelled out |
| Scan.ScanBatch | crates/elyra-engine/src/collmig.rs:127-133 | a batch is the first keys after the cursor, in order, and nothing after the cursor is skipped |
| CollMig.MoveKeepsBag | crates/elyra-engine/src/collmig.rs:166-170 | moving a row to the key of its own primary key keeps the multiset of rows with the places they belong to |
| CollMig.VisitKeepsIndexed | crates/elyra-engine/src/collmig.rs:174 | adding a placed row's entries keeps the index equal to the entries of the rows visited |
| CollMig.PlanBatch | crates/elyra-engine/src/collmig.rs:134-175 | reports a clash exactly when a row of the batch is blocked; otherwise what it plans to write keeps every row, overwrites none, and re-indexes all rows seen |
| CollMig.FlushProgress | crates/elyra-engine/src/collmig.rs:127-192 | after every flush a row found its place or fewer are ahead of the cursor, so the scan ends although rows move ahead of it |
| CollMig.FlushReaches | crates/elyra-engine/src/collmig.rs:127-192 | what the cursor has passed has been visited |
| CollMig.Db.CommitWrite | crates/elyra-engine/src/collmig.rs:183-186 | one atomic commit, or the crash before it |
| CollMig.Db.ClearIndex | crates/elyra-engine/src/collmig.rs:87-112 | the old entries go, batch by batch, and no row changes |
| CollMig.Db.FlushBatch | crates/elyra-engine/src/collmig.rs:134-186 | one batch planned and committed: the plan takes effect whole, or nothing does |
| CollMig.Db.MigrateTable | crates/elyra-engine/src/collmig.rs:67-194 | wherever it stops, the table keeps its rows; if it finishes, every row is at its place, and the index is the entries of all rows unless two of them share an index key; unless cut off it finishes exactly when the table is movable and reports a clash otherwise (a key not encodable, two rows at one place, or a row whose place is left only in its own or a later batch); stopped early, it leaves exactly the rows its cuts have passed in place and the others where they were |
| CollMig.ScannedUnique | crates/elyra-engine/src/collmig.rs:127-192 | what a start leaves that is cut off after a batch is settled by the table and where the batch ends |
| Resuming.ResumeClashes | crates/elyra-engine/src/collmig.rs:127-192 | a table of 8193 rows whose migration finishes if let alone, and, cut off after the first batch, leaves a table that no start can finish |
| CollMig.CutsAgree | crates/elyra-engine/src/collmig.rs:127-133 | where batches end is determined by the table |
| CollMig.FreeIsClear | crates/elyra-engine/src/collmig.rs:152-165 | rows that can all move freely are clear wherever batches end |
| CollMig.OneBatchClear | crates/elyra-engine/src/collmig.rs:127-133 | in a table of at most one batch no cut helps: every chain of moving rows clashes |
| CollMig.ChainNotClear | crates/elyra-engine/src/collmig.rs:152-165 | a table of two rows that belong at different places and yet is not movable |
| CollMig.PlanChain | crates/elyra-engine/src/collmig.rs:152-165 | planning that table reports a clash, although no two keys become equal |
| CollMig.BlockedNotClear | crates/elyra-engine/src/collmig.rs:152-165 | a blocked row, in the table as moved so far, means the rows are not clear, however the cuts go on |
| CollMig.FlushedScanned | crates/elyra-engine/src/collmig.rs:127-192 | after every flush each row is at its place if the scan has passed it and else where it was, and there is nothing else |
| CollMig.Db.Migrate | crates/elyra-engine/src/collmig.rs:52-213 | the marker moves only after every table is migrated; a current marker means nothing is touched; it finishes only if every table is movable, and reports a clash only if one is not |
| CollMig.Db.Restarts | crates/elyra-engine/src/collmig.rs:52-213 | any chain of starts, each cut at any commit: rows are conserved throughout and success means every table is migrated; the last start that had work to do succeeds only if all tables it found are movable, and clashes only if one is not, those being tables that earlier starts left; if all rows can move freely no start clashes |
| CollMig.ReachableNext | crates/elyra-engine/src/collmig.rs:177-186 | what a chain of starts leaves is made up of steps, each of which finishes a table or stops after one of its batches |
| CollMig.MigratedExactly | crates/elyra-engine/src/collmig.rs:166-170 | with all rows in place, the table holds exactly the rows it started with, each where its primary key puts it |
| CollMig.MigratedMeansDistinct | crates/elyra-engine/src/collmig.rs:152-165 | if two rows belong at one place, no execution reports success |
| CollMig.MigratedMeansNoClash | crates/elyra-engine/src/collmig.rs:174 | an index of exactly all rows' entries is there only if no two rows share an index key, the converse of what MigrateTable states |
| Cpred.Collect | crates/elyra-engine/src/cpred.rs:181-248 | compiles exactly the conjunctions it can, and if every literal and list is settled the terms accept exactly the rows the interpreter accepts, which reports no error on them: all integers, floats and NULLs, three-valued AND |
| Cpred.ListTerm | crates/elyra-engine/src/cpred.rs:215-245 | the loop over an IN list collects its numbers and spans them |
| Cpred.CompareCompiles | crates/elyra-engine/src/cpred.rs:181-207 | a comparison with a settled literal, on either side and flipped if needed, agrees with the interpreter on every row |
| Cpred.CompareCompilesIff | crates/elyra-engine/src/cpred.rs:181-207 | a comparison compiles to the same filter exactly when its literal is in range, its decimal divides out to the float its text parses to, and no integer on the wrong side of it shares its float |
| Cpred.WithinExact | crates/elyra-engine/src/cpred.rs:280-289 | every whole literal below 2^53 stays apart from all other integers, for every operator |
| Cpred.IntegersCompare | crates/elyra-engine/src/predicate.rs:3165-3183 | the interpreter compares integers as integers, for every operator, and gives NULL beside a NULL |
| Cpred.DecimalLiterals | crates/elyra-engine/src/predicate.rs:3165-3183 | decimal literals of one scale compare as the numbers they are |
| Cpred.NegatedWhole | crates/elyra-engine/src/predicate.rs:57-75 | a minus sign reaches down to the least integer and no further |
| Cpred.TruthMeans | crates/elyra-engine/src/predicate.rs:3776-3786 | a value is true if it does not compare equal to a zero of its kind |
| Cpred.WholeSettled | crates/elyra-engine/src/cpred.rs:280-289 | a whole literal below 2^53, with or without a minus sign, is settled for every operator |
| Cpred.InAgrees | crates/elyra-engine/src/predicate.rs:168-200 | over a settled list the interpreter's IN is membership among the floats the compiler parsed |
| Cpred.InCompilesIff | crates/elyra-engine/src/cpred.rs:215-245 | an IN list of literals in range compiles to the same filter exactly when they parse to the floats they divide out to and every integer that shares a listed float is listed |
| Cpred.EachSettles | crates/elyra-engine/src/cpred.rs:215-245 | literals settled one by one make a settled list |
| Cpred.OutOfRangeShows | crates/elyra-engine/src/cpred.rs:215-245 | a literal out of range anywhere in a list shows: the interpreter fails on some row and no compiled filter does |
| Cpred.LiteralAgrees | crates/elyra-engine/src/cpred.rs:280-289 | a literal has one value on all rows, and unless it is a decimal its float is the one the compiler parses, through any number of minus signs |
| Cpred.SignAgrees | crates/elyra-engine/src/cpred.rs:33-51 | comparing a cell with a settled literal as floats gives the interpreter's sign, in both directions |
| Cpred.CollectBounds | crates/elyra-engine/src/cpred.rs:115-149 | the loop derives the bounds of every term |
| Cpred.BoundsNecessary | crates/elyra-engine/src/cpred.rs:115-149 | a row the terms accept satisfies every bound |
| Cpred.BeyondExact | crates/elyra-engine/src/cpred.rs:154-170 | at 2^53 a row on which compiled and interpreted filters differ |
| ZoneMap.WidenAll | crates/elyra-engine/src/zonemap.rs:81-92 | the loop keeps every numeric column's least and greatest value, attained in the chunk |
| ZoneMap.Builder.constructor | crates/elyra-engine/src/zonemap.rs:57-74 | nothing fed, nothing summarised |
| ZoneMap.Builder.Feed | crates/elyra-engine/src/zonemap.rs:76-98 | every chunk summarises its rows exactly, and the rows fed are kept in order |
| ZoneMap.Builder.SealChunk | crates/elyra-engine/src/zonemap.rs:100-110 | the open chunk is closed without losing a row |
| ZoneMap.Builder.Finish | crates/elyra-engine/src/zonemap.rs:112-119 | the map's chunks are those of all rows fed |
| ZoneMap.Build | crates/elyra-engine/src/zonemap.rs:57-119 | feeding a table in key order gives chunks that tile its keys and summarise its rows |
| ZoneMap.MatchingRowSurvives | crates/elyra-engine/src/zonemap.rs:152-173 | a chunk with a row the filter accepts survives the filter's bounds |
| ZoneMap.SurvivesIff | crates/elyra-engine/src/zonemap.rs:152-173 | a chunk is kept for a bound exactly if some number between its least and its greatest satisfies the bound |
| ZoneMap.RunEnd | crates/elyra-engine/src/zonemap.rs:135-140 | the inner loop finds the whole run of surviving chunks |
| ZoneMap.SurvivingRanges | crates/elyra-engine/src/zonemap.rs:126-150 | the ranges are those of the maximal runs of surviving chunks, in order, none left out |
| ZoneMap.ZoneScanComplete | crates/elyra-engine/src/zonemap.rs:126-173 | every row the compiled filter accepts lies in some range |
| ZoneMap.ZoneScanIsFullScan | crates/elyra-engine/src/zonemap.rs:126-173 | scanning the ranges with the compiled filter accepts exactly the rows the interpreter accepts on a full scan |
| ZoneMap.ZoneScanTight | crates/elyra-engine/src/zonemap.rs:126-173 | a row inside a range belongs to a surviving chunk |
| ZoneMap.RangesDisjoint | crates/elyra-engine/src/zonemap.rs:126-150 | ranges are non-empty, ascending and disjoint |
| Cexpr.LogicIsKleene | crates/elyra-engine/src/predicate.rs:3119-3141 | AND is true if both operands are, false if either is, else NULL; OR is true if either is, false if both are, else NULL |
| Cexpr.ComparisonsMean | crates/elyra-engine/src/predicate.rs:3165-3183 | where values compare as numbers do, `=`, `<>`, `<`, `<=`, `>`, `>=` and `<=>` are those of numbers, interpreted and compiled |
| Cexpr.IncomparableMean | crates/elyra-engine/src/predicate.rs:3165-3183 | values that do not compare are unequal and nothing else |
| Cexpr.NullsMean | crates/elyra-engine/src/predicate.rs:3143-3161 | beside a NULL every comparison is NULL, save `<=>`, which tells whether both are |
| Cexpr.NullTests | crates/elyra-engine/src/cexpr.rs:90-97 | IS NULL and IS NOT NULL tell whether the operand is NULL, and are never NULL |
| Cexpr.NamesMean | crates/elyra-engine/src/cexpr.rs:58-77 | a name that resolves to a column is the row's cell there, or NULL in a row too short |
| Cexpr.SystemNamesMean | crates/elyra-engine/src/cexpr.rs:58-77 | a name that starts with two at signs is a system variable |
| Cexpr.IntervalsMean | crates/elyra-engine/src/predicate.rs:252-290 | an interval is added on either side of plus and taken off by minus |
| Cexpr.ArrowsMean | crates/elyra-engine/src/predicate.rs:244-251 | one arrow reads a JSON path, two take the quotes off |
| Cexpr.RightErrorShows | crates/elyra-engine/src/predicate.rs:3119-3141 | an error of the right operand shows, save where the left one settles an AND or an OR |
| Cexpr.CompiledWholeIff | crates/elyra-engine/src/cexpr.rs:51-100 | nothing is left to the interpreter exactly in expressions made of literals, columns, operators and tests for NULL, without JSON paths or intervals |
| Cexpr.ErrorShowsIff | crates/elyra-engine/src/cexpr.rs:48-50 | a whole expression, interpreted or compiled, fails with an error exactly when some node that evaluation gets to raises it; operands AND and OR do not need never show |
| Cexpr.CompileKeepsMeaning | crates/elyra-engine/src/cexpr.rs:51-124 | a compiled expression gives the interpreter's value or error on every expression and row |
| Stream.Project | crates/elyra-engine/src/stream.rs:298-314 | moving values out of the row, when no column repeats, gives the row that copying gives |
| Stream.RestIsSelected | crates/elyra-engine/src/stream.rs:264-289 | the row-by-row processing is project of take of drop of filter |
| Stream.Scan.constructor | crates/elyra-engine/src/stream.rs:132-155 | nothing read yet: the whole result is left |
| Stream.Scan.Fetch | crates/elyra-engine/src/stream.rs:252-262 | a chunk and what the moved cursor still finds are what was left |
| Stream.Scan.Test | crates/elyra-engine/src/stream.rs:267-272 | the compiled filter answers as the interpreted one, errors included |
| Stream.Scan.TakeRow | crates/elyra-engine/src/stream.rs:264-289 | one row filtered, skipped or projected: what it yields and what is left are what was left |
| Stream.Scan.ReadChunk | crates/elyra-engine/src/stream.rs:264-289 | the rows taken from a chunk and the rest are what was left; an error is the error the whole would give |
| Stream.Scan.NextBatch | crates/elyra-engine/src/stream.rs:243-293 | a batch and what is left afterwards are what was left before, an error is the error of the whole, and a batch is short only at the end |
| Stream.Pull | crates/elyra-engine/src/stream.rs:179-185 | batches of any sizes concatenate to a prefix of the result, with the rest still to come |
| Sweeper.ReachableConsistent | crates/elyra-engine/src/embedix.rs:521-751 | along every run of clients and sweep, however interleaved, no client update is lost, every recorded vector is one the provider returned for a text of the recorded hash, and the failures counted against a text stay within the limit |
| Sweeper.SidecarTruth | crates/elyra-engine/src/embedix.rs:560-562 | a sidecar with the current hash and no attempts means the vector is one the provider returned, of the declared dimension, for a text with the hash of the row's current text, unless a client has since inserted the key again or written the vector; with no sidecar it means the hash is 0 |
| Sweeper.SidecarsTrueIff | crates/elyra-engine/src/embedix.rs:462-470 | over all runs in which clients write only given texts, every up-to-date row not so excepted has a vector for its very text, exactly when no text has hash 0 and texts that share a hash share their vectors |
| Sweeper.ToldMeansTrue | crates/elyra-engine/src/embedix.rs:560-562 | for such texts sidecars are right in every reachable state |
| Sweeper.ZeroHashRun | crates/elyra-engine/src/embedix.rs:555-562 | a run that ends with a text of hash 0 taken for embedded without a vector |
| Sweeper.CollisionRun | crates/elyra-engine/src/embedix.rs:555-562 | a run that ends with the vector of one text taken for that of another with the same hash |
| Sweeper.CollisionUnseen | crates/elyra-engine/src/embedix.rs:555-562 | in every reachable state, after an edit to a text of the same hash the row is passed over, with a vector made from a text of that hash; its sidecar is right exactly when the provider returns that vector for the new text too |
| Sweeper.ZeroHashUnseen | crates/elyra-engine/src/embedix.rs:555-562 | in every reachable state, a row inserted under a new key with a text of hash 0 is passed over, vector or none |
| Sweeper.HashesRepeat | crates/elyra-engine/src/embedix.rs:462-470 | every index has two texts with one hash |
| Sweeper.ToldInstance | crates/elyra-engine/src/embedix.rs:462-470 | an index and two texts that the hash tells apart, with a provider that answers |
| Sweeper.ReusedKeyIff | crates/elyra-engine/src/embedix.rs:560-562 | what is taken for the sidecar of a row written without a vector under any key is right exactly when the sidecar there is for another hash or counts failures, or none is there and the hash is not 0 |
| Sweeper.ReusedKeyStale | crates/elyra-engine/src/embedix.rs:414-433 | a row embedded, deleted and inserted again with its old text and no vector is passed over, its sidecar wrong |
| Sweeper.ActKeeps | crates/elyra-engine/src/embedix.rs:414-420 | whatever a client does, reusing keys and writing vectors included, keeps the invariant |
| Sweeper.WriteKeeps | crates/elyra-engine/src/embedix.rs:675-708 | committing a vector over the row it was made from keeps the invariant |
| Sweeper.FailureKeeps | crates/elyra-engine/src/embedix.rs:724-751 | recording a failure keeps it, and failures recorded for one text stay within the limit |
| Sweeper.DropKeeps | crates/elyra-engine/src/embedix.rs:667-671 | dropping the sidecar of a deleted row keeps it |
| Sweeper.Db.constructor | crates/elyra-engine/src/embedix.rs:521-538 | a table no sweep has seen is where runs start |
| Sweeper.Db.SidecarsRight | crates/elyra-engine/src/embedix.rs:560-562 | while clients write only texts the hash tells apart, the sidecars are right at every point of every sweep |
| Sweeper.Db.Interfere | crates/elyra-engine/src/embedix.rs:645-652 | clients act while the sweep waits; sidecars do not change |
| Sweeper.Db.WriteVector | crates/elyra-engine/src/embedix.rs:653-721 | succeeds exactly when the row is as it was read (or gone) and no race was lost; then row, sidecar and write counter move together, else nothing does |
| Sweeper.Db.RecordFailure | crates/elyra-engine/src/embedix.rs:724-751 | one more attempt under the current hash, to wait a second doubled for every failure up to the fourth |
| Sweeper.FiveFailures | crates/elyra-engine/src/embedix.rs:560-574 | of failures for one text each but the fifth leaves the row waiting for exactly its delay, the fifth for ever; another text does not wait |
| Sweeper.FailuresCapped | crates/elyra-engine/src/embedix.rs:560-574 | in every reachable state at most five failures are counted against a row's text |
| Sweeper.TextMeans | crates/elyra-engine/src/embedix.rs:624-631 | there is a text to embed exactly if the column holds a text or JSON text that is not blank |
| Sweeper.Db.Respond | crates/elyra-engine/src/embedix.rs:576-613 | what each kind of reply leads to, with or without the row having changed |
| Sweeper.Db.Attempt | crates/elyra-engine/src/embedix.rs:576-613 | the provider call with clients acting meanwhile |
| Sweeper.Db.Visit | crates/elyra-engine/src/embedix.rs:549-614 | one row: up to date, deferred, out of budget or attempted |
| Sweeper.Db.SweepBatch | crates/elyra-engine/src/embedix.rs:548-614 | one scanned batch keeps the invariant and the budget; alone, it does what the rows' visits do |
| Sweeper.Db.SweepIndex | crates/elyra-engine/src/embedix.rs:521-620 | whatever clients do meanwhile, the state stays a reachable one (so no client update is lost), and embedded plus failed stay within budget; alone, every row is visited once |
| Sweeper.SweepProgress | crates/elyra-engine/src/embedix.rs:560-574 | alone with a provider that answers, a sweep embeds as many due rows as the budget allows and takes exactly those off the outstanding ones |
| Sweeper.Db.Sweeps | crates/elyra-engine/src/embedix.rs:766-788 | enough sweeps with no writers and a provider that answers leave nothing outstanding |
| Sweeper.NothingOutstanding | crates/elyra-engine/src/embedix.rs:521-620 | with nothing outstanding a sweep changes nothing and calls no one, whatever the clock |
| LockMgr.LockManager.constructor | crates/elyra-engine/src/lockmgr.rs:60-66 | nobody holds anything |
| LockMgr.LockManager.TryTake | crates/elyra-engine/src/lockmgr.rs:74-88 | granted exactly when no conflicting guard is live; a refusal leaves the table of locks unchanged |
| LockMgr.LockManager.CountOne | crates/elyra-engine/src/lockmgr.rs:117-120 | an explicit lock is counted once |
| LockMgr.LockManager.GiveBack | crates/elyra-engine/src/lockmgr.rs:90-104 | releases never saturate, reader counts stay the live shared guards, and no empty entry remains |
| LockMgr.LockManager.UncountOne | crates/elyra-engine/src/lockmgr.rs:160-167 | the explicit counter never goes below zero |
| LockMgr.LockManager.Run | crates/elyra-engine/src/lockmgr.rs:74-167 | over every interleaving of take, count, release and uncount, the guards are what the grants allow and the counts follow them; with every guard gone nothing is held or counted |
| LockMgr.ExclusiveExcludes | crates/elyra-engine/src/lockmgr.rs:74-88 | a held exclusive lock excludes every other guard on the table |
| LockMgr.ActiveTellsIff | crates/elyra-engine/src/lockmgr.rs:68-72 | the gate of the fast path tells whether an explicit lock is held exactly when one is counted, or none is between taking and counting or between release and uncounting, or one is in each |
| LockMgr.TakenUncounted | crates/elyra-engine/src/lockmgr.rs:117-120 | an explicit exclusive lock just taken does not show in the counter |
| LockMgr.Acquire | crates/elyra-engine/src/lockmgr.rs:108-140 | whatever others do while it waits, the first try at which the lock can be had gets it, and it gives up only past the deadline, holding nothing |
| AggSpill.PartitionOf | crates/elyra-engine/src/aggspill.rs:18-25 | the loop computes a partition that depends only on the key and is in range |
| AggSpill.HashRounds | crates/elyra-engine/src/aggspill.rs:18-25 | what no bytes hash to, and a round with a zero byte multiplies by the FNV prime, wrapping at 64 bits |
| AggSpill.FrameReads | crates/elyra-engine/src/aggspill.rs:73-77 | a spilled record reads back, whatever follows it |
| AggSpill.StoredFaithful | crates/elyra-engine/src/aggspill.rs:108-110 | rows spilled in the layout they are stored in decode to themselves, under every configured limit |
| AggSpill.Partitions.constructor | crates/elyra-engine/src/aggspill.rs:43-50 | empty partitions, a budget of at least one row |
| AggSpill.Partitions.Route | crates/elyra-engine/src/aggspill.rs:57-64 | the row is added to its partition, in memory or file, and buffered rows stay below budget |
| AggSpill.Partitions.SpillAll | crates/elyra-engine/src/aggspill.rs:66-83 | memory and files together hold the same rows as before, and memory is empty |
| AggSpill.Partitions.SpillOne | crates/elyra-engine/src/aggspill.rs:67-80 | what a partition has in memory goes to the end of its file, and nothing else changes |
| AggSpill.Partitions.DrainEach | crates/elyra-engine/src/aggspill.rs:86-118 | the rows yielded are exactly those routed to the partition, and the others are untouched; it fails exactly when a record in its file is over the configured limit, as long as lengths fit four bytes |
| AggSpill.AppendFrames | crates/elyra-engine/src/aggspill.rs:73-77 | the file grows by the records of the rows |
| AggSpill.ReadFrames | crates/elyra-engine/src/aggspill.rs:96-114 | the loop reads back every record, or fails at the first over the limit |
| GroupBy.TotalsPermuted | crates/elyra-engine/src/aggspill.rs:1-8 | for a commutative, associative merge the order of rows does not matter |
| GroupBy.TotalsApart | crates/elyra-engine/src/aggspill.rs:1-8 | rows with no group in common are aggregated apart and put together |
| GroupBy.SpillAgg.constructor | crates/elyra-engine/src/exec.rs:25621-25628 | nothing fed |
| GroupBy.SpillAgg.FeedRow | crates/elyra-engine/src/exec.rs:25633-25645 | every row is in its resident group or in its partition, and a spilled group is never resident |
| GroupBy.Aggregate | crates/elyra-olap/src/lib.rs:221-265 | the capped aggregator is one pass over the rows with a sample row per group, or reports overflow exactly when they have more groups than the cap |
| GroupBy.SpillAgg.DrainOne | crates/elyra-engine/src/exec.rs:25652-25676 | one partition aggregated on its own with a sample row per group, or an error exactly when it is crowded or cannot be read back |
| GroupBy.SpillAgg.Finalize | crates/elyra-engine/src/exec.rs:25649-25680 | resident groups and partitions aggregated independently equal one global pass over all rows fed, with a sample row fed for each group; an error exactly when some partition has more groups than the cap or a spilled row is over the limit |
| Calendar.DaysOfCivil | crates/elyra-core/src/datetime.rs:18-29 | every integer day number is a valid date whose day number it is |
| Calendar.CivilOfDays | crates/elyra-core/src/datetime.rs:8-15 | every valid date is recovered from its day number |
| Calendar.DaysAreConsecutive | crates/elyra-core/src/datetime.rs:18-29 | day 0 is 1970-01-01 and consecutive day numbers are calendar successors |
| Calendar.DaysInMonthIsLength | crates/elyra-engine/src/predicate.rs:2510-2514 | the difference of day numbers is the month's length on the calendar |
| Calendar.AddMonthsLands | crates/elyra-engine/src/predicate.rs:2516-2525 | adding months keeps the time of day, lands in exactly the month counted to, and clamps the day to its length |
| DateText.DateRoundTrip | crates/elyra-core/src/datetime.rs:142-145 | a printed date reads back exactly when its year is 0 to 9999; otherwise reading fails |
| DateText.DatetimeRoundTrip | crates/elyra-core/src/datetime.rs:148-160 | a printed datetime, with or without microseconds, reads back exactly when its year is 0 to 9999; otherwise reading fails |
| DateText.ParseDateIsValid | crates/elyra-core/src/datetime.rs:32-62 | whatever text is read as a date is a day in years 0 to 9999, so printing it reads back to the same day |
| DateText.DateMeans | crates/elyra-core/src/datetime.rs:32-62 | three runs of digits with hyphens between are a date exactly if they are a year up to 9999, a month and a day of that month, and then read as that day |
| DateText.DatePrints | crates/elyra-core/src/datetime.rs:142-145 | four digits of the year, two of the month, two of the day, with hyphens between |
| DateText.ClockPrints | crates/elyra-core/src/datetime.rs:148-160 | two digits each of hour, minute and second, with colons between |
| DateText.DatetimePrints | crates/elyra-core/src/datetime.rs:148-160 | date, space and time of day, with six places if there is a fraction |
| DateText.FractionMeans | crates/elyra-core/src/datetime.rs:90-93 | a fraction counts millionths, of up to six digits, the rest left out; a sum beyond 64 bits is refused |
| DateText.ShortClockMeans | crates/elyra-core/src/datetime.rs:77-80 | an hour alone, or an hour and a minute, are taken on the hour or on the minute |
| DateText.FieldsMean | crates/elyra-core/src/datetime.rs:81-90 | hour, minute and second count exactly if in range and the sum fits 64 bits |
| Digits.ParseSigns | crates/elyra-core/src/datetime.rs:78-81 | a number read has a plus sign that counts for nothing, or a minus sign that negates or is refused |
| Digits.ParseLimits | crates/elyra-core/src/datetime.rs:35-37 | the numbers read are those of the signed 64-bit and unsigned 32-bit types, to the last one |
| Decimals.HalfAwayIsNearest | crates/elyra-core/src/value.rs:702-707 | the rounding formula gives the nearest integer, halves away from zero |
| Decimals.NearestIsUnique | crates/elyra-core/src/value.rs:702-707 | only one integer is that |
| Decimals.DivisionExact | crates/elyra-core/src/value.rs:708-729 | rounding division is the exact quotient rounded half away, through the overflow branch of the half test, and exactly when it fails |
| Decimals.RescaleExact | crates/elyra-core/src/value.rs:731-745 | rescaling rounds half away, and succeeds exactly when the power of ten and the result fit |
| Decimals.RescaleRounds | crates/elyra-core/src/value.rs:731-745 | the rescaled number is the exact rational rounded to the new scale |
| Decimals.RoundDigitsExact | crates/elyra-engine/src/predicate.rs:3599-3623 | ROUND and TRUNCATE keep exactly the digits asked for, left or right of the point, leave the number alone if it has no more, and exactly when they fail |
| Decimals.RoundRounds | crates/elyra-engine/src/predicate.rs:3599-3623 | ROUND within the fraction is the exact rational rounded to that many places |
| Decimals.ArithExact | crates/elyra-engine/src/predicate.rs:3529-3550 | sums, differences and products are the exact rationals |
| Decimals.ArithDefined | crates/elyra-engine/src/predicate.rs:3529-3550 | exactly when sums, differences and products are given rather than out of range, and at which scale |
| Decimals.DivideExact | crates/elyra-engine/src/predicate.rs:3555-3570 | the quotient is the exact rational rounded half away at the dividend's scale plus four |
| Decimals.DivideDefined | crates/elyra-engine/src/predicate.rs:3555-3570 | exactly when a quotient is given, NULL or out of range |
| Decimals.ModuloExact | crates/elyra-engine/src/predicate.rs:3573-3588 | the remainder is what division toward zero leaves, smaller than the divisor and with the dividend's sign |
| Decimals.ModuloDefined | crates/elyra-engine/src/predicate.rs:3573-3588 | exactly when a remainder is given, NULL or out of range, and that the program stops exactly on the least 128-bit integer and minus one at one scale |
| Decimals.ModuloStops | crates/elyra-engine/src/predicate.rs:3587 | the operands on which the remainder stops the program |
| DecimalText.AtScaleExact | crates/elyra-core/src/value.rs:660-694 | reading at a scale is the literal rounded half away, and exactly when it fails |
| DecimalText.ParseRounds | crates/elyra-core/src/value.rs:660-694 | what is read is the exact rational of the literal, rounded to the scale |
| DecimalText.OwnScaleAgreesIff | crates/elyra-core/src/value.rs:660-694 | exactly when reading at a scale agrees with reading at the literal's own scale and rescaling |
| DecimalText.NoDigits | crates/elyra-core/src/value.rs:680-686 | a text without digits reads as zero at scale 2 and fails at scale 0 |
| DecimalText.NoDigitBeforePoint | crates/elyra-core/src/value.rs:680-686 | a text with no digit before the point fails at scale 0, although its value rounds to 1 |
| DecimalText.FormatRoundTrip | crates/elyra-core/src/value.rs:639-657 | printing and reading back at the same scale is the identity, except for the least 128-bit integer, which fails |
| DecimalText.TextMeans | crates/elyra-core/src/value.rs:660-694 | digits with or without a point read as such at every scale; a minus sign negates, a plus sign and spaces around count for nothing |
| DecimalText.FormatMeans | crates/elyra-core/src/value.rs:639-657 | a minus sign if negative, all digits, as many places as the scale, and a single zero or no zero at the front |
| Json.RoundTrip | crates/elyra-core/src/json.rs:25-86 | parsing what was printed gives the value without the non-ASCII bytes of its strings, or nothing if it nests deeper than 200 |
| Json.RoundTripIff | crates/elyra-core/src/json.rs:355-397 | a value comes back exactly when it nests within 200 and its strings are ASCII |
| Json.WordsPrint | crates/elyra-core/src/json.rs:57-60 | the words, as printed |
| Json.ArrayPrints | crates/elyra-core/src/json.rs:63-72 | an array with two items, as printed |
| Json.ObjectPrints | crates/elyra-core/src/json.rs:73-83 | an object with two members, as printed |
| Json.MemberPrints | crates/elyra-core/src/json.rs:73-83 | a member, as printed |
| Json.StringPrints | crates/elyra-core/src/json.rs:473-487 | characters are printed one after the other between quotes, five of them with a backslash |
| Json.NumberCharacters | crates/elyra-core/src/json.rs:399-402 | the characters numbers are made of |
| Json.LostCharacter | crates/elyra-core/src/json.rs:388-393 | one character outside ASCII is lost |
| Json.StringReads | crates/elyra-core/src/json.rs:473-486 | a quoted string reads back, escapes undone |
| Json.ValueInStep | crates/elyra-core/src/value.rs:518-532 | wherever the parser reads a value, the validator takes it and stops at the same byte |
| Json.ParsedIsValid | crates/elyra-core/src/value.rs:501-510 | every text the parser accepts, the validator accepts |
| JsonEscapes.ParsesIff | crates/elyra-core/src/json.rs:25-36 | the parser accepts exactly the valid texts in which a single pass over the bytes finds only escapes it knows |
| JsonEscapes.UnicodeEscape | crates/elyra-core/src/json.rs:378-383 | `u` and four hexadecimal digits stand for the UTF-8 form of the character with that number, and half of a surrogate pair is refused |
| JsonEscapes.PlusEscape | crates/elyra-core/src/json.rs:378-383 | a plus sign in place of the first digit counts for nothing |
| JsonEscapes.LetterEscapes | crates/elyra-core/src/json.rs:367-377 | the bytes the eight other escapes stand for; every other letter is refused |
| JsonEscapes.Utf8Holds | crates/elyra-core/src/json.rs:378-383 | exactly the code points of 16 bits that are no surrogates have a UTF-8 form, and it decodes to them |
| JsonEscapes.ValueAgrees | crates/elyra-core/src/json.rs:333-344 | where the validator takes a value, the parser reads it exactly when its strings are well escaped |
| JsonEscapes.SurrogateRefused | crates/elyra-core/src/json.rs:378-383 | half a surrogate pair is no escape the parser knows |
| JsonEscapes.UnknownEscape | crates/elyra-core/src/value.rs:543-559 | a valid text the parser refuses |
| JsonCursor.Write | crates/elyra-core/src/json.rs:57-86 | the buffer grows by the printed value |
| JsonCursor.WriteItems | crates/elyra-core/src/json.rs:63-72 | the loop writes the items with separators between them only |
| JsonCursor.WriteMembers | crates/elyra-core/src/json.rs:73-84 | the loop writes the members with separators between them only |
| JsonCursor.WriteQuoted | crates/elyra-core/src/json.rs:473-486 | the loop writes the escaped string |
| JsonCursor.ParseText | crates/elyra-core/src/json.rs:25-36 | the cursor parser decides what the grammar functions give, over the whole text |
| JsonCursor.ParseValue | crates/elyra-core/src/json.rs:333-344 | the value at the cursor and the cursor after it |
| JsonCursor.ParseArray | crates/elyra-core/src/json.rs:411-436 | an array at the cursor |
| JsonCursor.ParseObject | crates/elyra-core/src/json.rs:438-471 | an object at the cursor |
| JsonCursor.ParseString | crates/elyra-core/src/json.rs:355-397 | a string at the cursor |
| JsonCursor.EscapeAt | crates/elyra-core/src/json.rs:367-387 | an escape at the cursor, with the hexadecimal form's optional plus sign and no surrogates |
| JsonCursor.ParseNumber | crates/elyra-core/src/json.rs:399-409 | the longest run of number characters, if the float parser takes it |
| JsonCursor.ParseLit | crates/elyra-core/src/json.rs:346-353 | a literal word at the cursor |
| JsonCursor.SkipWsAt | crates/elyra-core/src/json.rs:327-331 | the cursor stops at the first byte that is not white space |
| JsonCursor.Validate | crates/elyra-core/src/value.rs:501-510 | the cursor validator decides validity of the whole text |
| JsonCursor.ValidateValue | crates/elyra-core/src/value.rs:518-532 | a valid value at the cursor and the cursor after it |
| JsonCursor.ValidateString | crates/elyra-core/src/value.rs:543-559 | a string at the cursor, a backslash taking any next byte with it |
| JsonCursor.ValidateArray | crates/elyra-core/src/value.rs:573-599 | a valid array at the cursor |
| JsonCursor.ValidateObject | crates/elyra-core/src/value.rs:601-636 | a valid object at the cursor |
| RowDec.ValueReads | crates/elyra-engine/src/rowdec.rs:121-239 | reading an encoded value gives it back and leaves what follows |
| RowDec.ColumnsRead | crates/elyra-engine/src/rowdec.rs:115-239 | the columns of an encoded row read back, those not wanted as NULL |
| RowDec.DecodeCols | crates/elyra-engine/src/rowdec.rs:115-239 | the cursor loop decodes the columns, or reports an unknown tag, a short stream or bad text |
| RowDec.DecodeRow | crates/elyra-engine/src/rowdec.rs:67-81 | every encoded row is returned; on any other bytes, what the columns read as, with unknown tags, short streams and bad text left to the authoritative decoder |
| RowDec.DecodeProjectedInto | crates/elyra-engine/src/rowdec.rs:85-106 | every encoded row is returned with unneeded columns NULL; on any other bytes, what the columns read as, an error kept, another arity or an unknown tag left to the authoritative decoder |
| RowDec.MaskedMeans | crates/elyra-engine/src/rowdec.rs:85-106 | a projected row has NULL exactly for the columns marked as not needed |
| RowDec.BadTextShows | crates/elyra-engine/src/rowdec.rs:85-106 | a needed text that is not UTF-8 is an error; texts not needed are not looked at |
| RowDec.ExtractsRow | crates/elyra-engine/src/rowdec.rs:351-454 | on every encoded row the walk gives the buffers and the answer of pushing the whole decoded row |
| RowDec.ExtractsValues | crates/elyra-engine/src/rowdec.rs:277-325 | on every encoded row: the answer is whether every selected value fits its column's buffer, and if so each buffer is what it was followed by that value (the number, one or zero for true or false, widened in a float column; nothing for NULL and other kinds), the others unchanged |
| RowDec.PushRowGrows | crates/elyra-engine/src/rowdec.rs:457-466 | the same for a decoded row |
| RowDec.PushDecoded | crates/elyra-engine/src/rowdec.rs:457-466 | the fallback pushes the selected columns in order until one cannot be kept exactly |
| RowDec.RollBack | crates/elyra-engine/src/rowdec.rs:438-448 | by mask or by saved lengths, all buffers are again what they were on entry |
| RowDec.ExtractNumericCols | crates/elyra-engine/src/rowdec.rs:351-454 | with distinct slots, in place: on an unknown tag the result and the buffers are the fallback's from the entry contents |
| GroupKey.StripZeros | crates/elyra-core/src/value.rs:247-251 | the loop strips trailing zeros without changing the number |
| GroupKey.StrippedIff | crates/elyra-core/src/value.rs:241-255 | stripped pairs are equal exactly when the numbers are |
| GroupKey.DecimalKeyIff | crates/elyra-core/src/value.rs:246-255 | decimal keys are equal exactly when the numbers are |
| GroupKey.IntegerKeyIff | crates/elyra-core/src/value.rs:213-240 | signed and unsigned integer keys are equal exactly when the integers are |
| GroupKey.TextKeyIff | crates/elyra-core/src/value.rs:280-289 | text keys of any length are equal exactly when the texts are, folded or byte for byte as the collation says |
| GroupKey.ClassesApart | crates/elyra-core/src/value.rs:200-202 | values of different kinds never share a key |
| EqualKeys.EqualKeysIff | crates/elyra-core/src/value.rs:200-202 | values that compare equal under the default collation have one key exactly when they are of one kind and, if decimals, the narrower does not saturate to the other |
| EqualKeys.KeysMeanEqual | crates/elyra-core/src/value.rs:200-202 | values with one key compare equal, NULLs and vectors apart |
| EqualKeys.DecimalsEqualIff | crates/elyra-core/src/value.rs:487-492 | two decimals that compare equal are one number exactly when widening does not saturate one to the other; one number always compares equal |
| EqualKeys.OneTwice | crates/elyra-core/src/value.rs:166-169 | one as an integer and one as a decimal compare equal and have different keys |
| EqualKeys.SharedFloat | crates/elyra-core/src/value.rs:166-169 | 2^53 + 1 as an integer and 2^53 as a decimal compare equal and have different keys |
| EqualKeys.SaturatedPair | crates/elyra-core/src/value.rs:487-492 | 10^38 and a tenth of 2^127 - 1, both decimals, compare equal by saturation and have different keys |
| Comparing.SwapReversesIff | crates/elyra-core/src/value.rs:141-197 | swapping the operands of a comparison reverses its sign exactly when they are not a text and a JSON text that differ |
| Comparing.MixedAlike | crates/elyra-core/src/value.rs:147-157 | a text and a JSON text found greater in both orders |
| Comparing.CompareIsSqlOrder | crates/elyra-core/src/value.rs:141-197 | values of one kind are found less exactly if less in the order key encoding embeds, and equal exactly if equal in it |
| Comparing.DecimalOrderIff | crates/elyra-core/src/value.rs:487-492 | a decimal found less is less and one found greater is greater exactly if the pair is not minus one beside the least 128-bit integer with 39 places or more; without saturation the converse holds too |
| Comparing.MisplacedPair | crates/elyra-core/src/value.rs:487-492 | minus one found greater than -2^127 at scale 39, which is greater |
| Comparing.CompareIntegers | crates/elyra-core/src/value.rs:184-188 | signed and unsigned integers compare as integers |
| Comparing.CompareFloats | crates/elyra-core/src/value.rs:189-195 | other pairs of numbers compare as their floats |
| Comparing.CompareLeading | crates/elyra-core/src/value.rs:189-195 | a text beside a number counts as its leading number |
| Comparing.CompareDay | crates/elyra-core/src/value.rs:159-161 | a datetime beside a date counts as its day of 24 hours |
| Comparing.CompareReads | crates/elyra-core/src/value.rs:159-174 | a text is read as the date, datetime or time it stands beside, and does not compare if it is none |
| Comparing.CompareCounts | crates/elyra-core/src/value.rs:159-164 | an integer beside a date counts days, beside a datetime microseconds; true counts one and false zero |
| Comparing.CompareBytes | crates/elyra-core/src/value.rs:177-183 | bytes compare in byte order, with bytes and with texts |
| GroupKey.SelfDelimiting | crates/elyra-core/src/value.rs:209-263 | a key tells where it ends, whatever follows, exactly when its length fits the four bytes it is written in |
| GroupKey.RowKeyIff | crates/elyra-core/src/value.rs:300-307 | row keys whose lengths fit are equal exactly when the column keys agree one by one, in number and content |
| GroupKey.OverlongRows | crates/elyra-core/src/value.rs:225-230 | a row with a text of 2^32 bytes and a row of two shorter texts share a row key |
| GroupKey.RoutedTogether | crates/elyra-engine/src/exec.rs:25635-25641 | rows with one group key under any collations have one routing key, so a spilled group is in one partition |
| GroupKey.PushKey | crates/elyra-core/src/value.rs:210-263 | the buffer grows by the value's key |
| GroupKey.PushSized | crates/elyra-core/src/value.rs:225-230 | the buffer grows by tag, length and bytes |
| GroupKey.RowKey | crates/elyra-core/src/value.rs:300-307 | the loop builds the row's key, each column under its own collation |
| GroupKey.FoldCmp | crates/elyra-core/src/value.rs:59-75 | the comparison that avoids folding ASCII texts orders them as their folded forms |
| GroupKey.LowerCmp | crates/elyra-core/src/value.rs:59-75 | its loop orders two texts as their lowered forms |
| GroupKey.LowerLetters | crates/elyra-core/src/value.rs:59-75 | the twenty-six capital letters become small and nothing else changes |
| Instances.FloatsSound | crates/elyra-core/src/value.rs:166-169 | conversions between integers, decimals and floats that are all the filter and comparison results ask for, and under which 2^53 + 1 shares the float of 2^53 |
| Instances.KeysMatched | crates/elyra-core/src/value.rs:200-202 | with these floats and any folding there are keys and comparisons that read values alike, as the results on equal keys ask |
| Instances.CountingLawful | crates/elyra-olap/src/lib.rs:221-265 | counting the rows of each group is an aggregation as the grouping results ask for |
| Instances.CountingCounts | crates/elyra-olap/src/lib.rs:221-265 | then one pass over the rows gives for each group how many rows have its key |
| Instances.OneEntryPoints | crates/elyra-engine/src/collmig.rs:174 | a migrated table whose index entries point to their rows |

## Left out

- elyra-storage, elyra-vector, Raft and replication: the store is an ordered map or sequence with atomic commits and batched scans.
- Async scheduling, wake-ups, memory orderings and file handles: they are steps, inputs and byte sequences.
- Storage errors, and decode errors of stored rows except in the streaming scan.
- Name resolution, derived tables and subqueries around join flattening and filter compilation: column references are resolved, and unique per operand.
- The function catalogue, regular expressions, vector distances, NaN and infinities, TIME texts, JSON path extraction and editing: easy members or library calls.
- Full-text entries, partitioned entry builders and row identifiers of indexes: they would only add easy members.
- Cpred.Collect: how texts, dates and other kinds compare and whether they count as true in the interpreter are parameters, and a list of more than 2^53 items with a literal out of range is left out.
- CollMig.Db.MigrateTable: the key spaces of indexed and NULL entries are one map, and a table whose definition fails to load is one that is not active.
- Sweeper.Db.SweepIndex: clients act finitely often during one sweep, sweeps do not overlap, and the error text kept in a sidecar is left out.
- Sweeper.Db.WriteVector: the write counter counts the sweep's own writes; clients' writes to it are left out.
- SchemaCache.ServedIsFresh: that every commit is followed by its bump is the environment's part, as the source's header asks.
- LockMgr.Acquire: notification is left out, because a waiter that is not woken tries again by itself; that the clock passes the deadline in the end is assumed.
- AggSpill.Partitions.DrainEach: what is read back after a record of 2^32 bytes or more is left out, because the source cuts its length off; decoding a record is that of a stored row.
- GroupBy.SpillAgg.Finalize: which of its rows a group shows and the order of output rows are left out, because they depend on the order rows are read back.
- RowDec.DecodeRow: encoded texts are valid UTF-8 and lengths fit 64 bits; overflow of a length times four on a malformed stream is left out.
- RowDec.ExtractNumericCols: the 64-bit mask is a set of slots below 64, and the slots are in range and distinct, as the source assumes.
- DateText.DatetimeRoundTrip: a fraction cut inside a multi-byte character, where the source stops the program, reads as an error.
- Decimals.RoundDigitsExact: the number of digits is unbounded, so the 32-bit difference with the scale cannot overflow.
- GroupKey.RowKeyIff: the printed forms of the remaining kinds of value are a parameter.
- Calendar.CivilOfDays: integers are unbounded, so the 64-bit range limits of the conversions are left out.
- Stream.Scan.NextBatch: scans of spilled and literal rows, and the reconciliation of numeric column types, are left out.
- Json.RoundTrip: which texts the float parser accepts is a parameter.
- Comparing.SwapReversesIff: how texts read as numbers, dates and times is a parameter.
