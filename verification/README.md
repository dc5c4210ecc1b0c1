# Verified models of the CloudEvent filter engine and its companions

This project models the parts of the repository whose correctness is hard to see from the code, and proves what they
promise. Go code that updates fields or variables step by step is modelled by classes and loops with the same branches;
each is proved against a specification, and the specification's own properties are proved as lemmas.

**The filter engine** (`cloudevent/cefilter`). `Lexer.dfy`, `Parser.dfy` and `Filters.dfy` model the expression
language. The lexer is proved equal to a declarative description of spelling, and the parser equal to the documented
grammar, whose derivations are data. `RoundTrip.dfy` computes exactly what printing and reparsing does to a tree.
`Respelling.dfy` proves that the case of reserved words does not matter, and `Quoting.dfy` that what is printed are Go
string literals. `Glob.dfy` proves the regexp text built for `LIKE`. `TypeConstraints.dfy` proves the abstract
interpretation behind the index. `Registry.dfy` defines the answers of a plain name-to-predicate registry, and
`Slices.dfy` Go's slices over backing arrays. `FilterSets.dfy` (the linear scan) and `FilterIndex.dfy`, `Buckets.dfy`, `Collecting.dfy` and
`IndexedFilterSets.dfy` (the index, with its buckets and lists as slices that share no array) refine the registry.

**The change-data-capture protocol** (`cloudevent/cefilter/mongostore`). `Cdc.dfy` is a state machine over a write log:
pinning, a snapshot that reads each name at any moment after the pin, reconciliation, updates whose document is looked
up late, lost positions, cancelled sends and restarts in any order. `CdcService.dfy` is the imperative `FilterCDC`,
every method of which is proved to take only steps of that machine, against an environment known by its contracts
alone. `FilterStores.dfy` models the writes of `FilterStore`. `EndToEnd.dfy` composes a run of `FilterCDC`, the
documented consumer loop and the index.

**Companions.** `CertReload.dfy` and `ReloadingCertificates.dfy`: the reloading certificate under file writes and any
number of concurrent calls, which may run between any two lock sections. `KeyCache.dfy`: the signing-key cache against a
fresh scan. `Subjects.dfy`, `SubjectTemplates.dfy`, `SubjectExpansion.dfy` and `SubjectRoundTrips.dfy`: NATS subject
substitution and extraction, and exactly when they undo each other.
`Padding.dfy`: block padding (section 6.3 of RFC 5652) and CBC framing (section 6.2 of RFC 8018). `DeepMerge.dfy`: the
recursive map merge.

`dafny verify dfyconfig.toml` checks the whole project.

## Where the code and its documentation differ

The models follow the code. Each difference has a lemma that says exactly when it shows.

- `LIKE` is documented as `*` for any sequence and `?` for any character, but the compiled regexp's `.` does not match a
  newline (`Glob.CompiledGlobIsCorrect`, `Glob.ValueMatchedAsDocumentedIff`, `Glob.PatternMatchesAsDocumentedIff`).
- `String()` uses `%q`, whose escapes for unprintable characters the lexer does not undo: a tab becomes the letter `t`
  (`RoundTrip.RoundTripIff`, `RoundTrip.TabIsLost`).
- `FilterCDC` promises to keep the caller's set exact, but it skips events it cannot decode, among them the hard delete
  of the empty name. The set is exact if and only if no name reported live has such a last write
  (`Cdc.CaughtUpIsExactIff`, `Cdc.IllegibleWriteIsMissed`, and `Cdc.DamageIsMissed` for a run that gets there).
- The consumer loop of DEV_NOTES.md skips an upsert whose expression does not parse, so the version before it keeps
  matching (`EndToEnd.ConsumerKeeps`, `EndToEnd.EndToEndIff`, and `EndToEnd.OutdatedIsReached` for a run that gets there:
  an upsert of the empty expression leaves the stored `EXISTS A` routing).
- `GetCertificate` may return an outdated certificate although its own check has just loaded the current one: a slower
  call that looked at the files before their last write can publish in between. What is served stays current if and only
  if the last publication was of a call that saw the current times (`CertReload.StaysFreshIff`,
  `CertReload.FreshnessIsLost`).
- The key cache is rebuilt strictly after its boundary, so at the very instant a key expires the old keys are still
  returned (`KeyCache.BoundaryInstant`, `KeyCache.Service.GetKeys`, `KeyCache.ExpiryIsMissed`).
- The nesting-aware tokenizer splits a subject at its dots if and only if every segment but the last has as many opening
  as closing braces (`Subjects.TokenizeJoinIff`, `Subjects.OpenBraceSwallows`).
- `validateSubjectToken` accepts values such as `${b}`, and `ReplaceTokens` substitutes into them again, so different
  requests can get the same subject. Values may also spell the text of a parameter with a dot in its name across a
  separator, and two segments merge. For all templates and values, the parameters come back if and only if each becomes
  its value in the end, no such crossing occurs, and the braces are balanced (`SubjectRoundTrips.RoundTripIff`,
  `SubjectRoundTrips.NestedValueIsExpanded`, `SubjectRoundTrips.SpelledAcrossIsLost`). `SubjectRoundTrips.QuietIsClean`,
  `SubjectRoundTrips.UndisturbedIsSettled` and `SubjectRoundTrips.DotlessIsUncrossed` give conditions on the values and
  the names alone.
- `ExtractRouteParams` returns only the last segment of a parameter that occurs more than once. Substituting what it
  returns gives the route back if and only if the values are clean in this sense, equal parameters had equal segments
  and no segment was empty (`SubjectRoundTrips.ReverseRoundTripIff`, `SubjectRoundTrips.RepeatedParameter`).
- A successful merge may exceed the depth limit when repeated with the same source (`DeepMerge.SecondMergeIff`,
  `DeepMerge.RepeatedMergeCanFail`).

## Model

| member | source | states |
|---|---|---|
| `Glob.GlobToRegexp` | cloudevent/cefilter/filter.go:100-115 | the anchored text written rune by rune, read as a regexp, is exactly one item per pattern character, with every metacharacter quoted |
| `Glob.CompiledGlobIsCorrect` | cloudevent/cefilter/filter.go:98-115 | for every pattern and value: the compiled pattern accepts the value if and only if the direct recursive reading of `*` and `?` does and the value's newlines are exactly those the pattern spells out |
| `Glob.ValueMatchedAsDocumentedIff` | cloudevent/cefilter/filter.go:98-115 | a value is matched as documented by every pattern if and only if it holds no newline |
| `Glob.PatternMatchesAsDocumentedIff` | cloudevent/cefilter/filter.go:98-115 | a pattern matches every value as documented if and only if it holds no wildcard |
| `Glob.NewlinesAreLiteral` | cloudevent/cefilter/filter.go:103-112 | an accepted value holds exactly as many newlines as the pattern spells out |
| `Filters.EqDecidesValue` | cloudevent/cefilter/filter.go:37 | setting the attribute decides `=` by the value, removing it refutes it, and other attributes do not matter |
| `Filters.NeIsNotEq` | cloudevent/cefilter/filter.go:42 | `!=` matches exactly where `=` does not, so also without the attribute |
| `Filters.ExistsIsSomeEq` | cloudevent/cefilter/filter.go:72 | EXISTS matches exactly where `=` does with some value |
| `Filters.InIsSomeEq` | cloudevent/cefilter/filter.go:60-66 | IN matches exactly where `=` does with one of the listed values |
| `Filters.LikeIsSomeEq` | cloudevent/cefilter/filter.go:51 | LIKE matches exactly where `=` does with some value that the glob matches and that holds the pattern's newlines and no others |
| `Filters.LikeWithoutWildcards` | cloudevent/cefilter/filter.go:51 | without wildcards LIKE is `=` |
| `Filters.BooleanLaws` | cloudevent/cefilter/filter.go:81-91 | AND, OR and NOT are the operations of a Boolean algebra: De Morgan both ways, double negation, idempotence, complements |
| `Lexing.Lexer.SkipWhitespace` | cloudevent/cefilter/lexer.go:122-126 | leaves the input after its longest run of spaces |
| `Lexing.Lexer.ReadWord` | cloudevent/cefilter/lexer.go:128-139 | consumes and returns the longest prefix of word characters |
| `Lexing.Lexer.ReadString` | cloudevent/cefilter/lexer.go:141-160 | returns the unescaped value up to the closing quote and stops behind it, or fails without one |
| `Lexing.StringBodySound` | cloudevent/cefilter/lexer.go:141-160 | a string that is read is an escaped spelling of its value followed by the quote |
| `Lexing.StringBodyComplete` | cloudevent/cefilter/lexer.go:141-160 | every escaped spelling of a value, followed by the quote, is read as that value |
| `Lexing.Lexer.ReadToken` | cloudevent/cefilter/lexer.go:78-110 | one turn of the loop: the next token and the remaining input, or an error |
| `Lexing.Lexer.Tokenize` | cloudevent/cefilter/lexer.go:71-112 | the token list of the whole input with its end marker, or the error flag |
| `Lexing.Lex` | cloudevent/cefilter/lexer.go:62-69 | returns the tokens the input spells, and fails only on input that spells no token list |
| `Lexing.LexerIsCorrect` | cloudevent/cefilter/lexer.go:71-184 | the lexer gives a token list if and only if the input is spaces, lexemes and separators spelling that list |
| `Lexing.LexedTokensAreGood` | cloudevent/cefilter/lexer.go:167-184 | the end marker comes last and once, and no identifier is a reserved word in any case |
| `Respelling.ReservedInAnyCase` | cloudevent/cefilter/lexer.go:167-184 | each of the six reserved words is lexed as its token, in whatever case its letters are written |
| `Respelling.MixedCaseIsReserved` | cloudevent/cefilter/lexer.go:167-184 | in particular with any of its letters in lower case |
| `Respelling.LowerCaseIsReserved` | cloudevent/cefilter/lexer.go:167-184 | the concrete instance: `and` is AND |
| `Respelling.OtherWords` | cloudevent/cefilter/lexer.go:128-184 | every other run of letters, digits, `_`, `-` and `.` that starts with a letter or `_` is one identifier, spelled as it is |
| `Respelling.TokensContinue` | cloudevent/cefilter/lexer.go:71-112 | a text that lexes and does not end inside a word is lexed before, and independently of, whatever follows it |
| `Respelling.CaseDoesNotMatter` | cloudevent/cefilter/lexer.go:166-184 | writing reserved words of a text in another case, any number of them, changes neither its tokens nor its tree |
| `Parsing.Parser.ParseOr` | cloudevent/cefilter/parser.go:75-89 | result and position are those of the or-level parse of the remaining tokens |
| `Parsing.Parser.ParseAnd` | cloudevent/cefilter/parser.go:92-106 | result and position are those of the and-level parse of the remaining tokens |
| `Parsing.Parser.ParseNot` | cloudevent/cefilter/parser.go:109-119 | result and position are those of the not-level parse of the remaining tokens |
| `Parsing.Parser.ParsePrimary` | cloudevent/cefilter/parser.go:128-158 | result and position are those of the primary parse of the remaining tokens |
| `Parsing.Parser.ParseComparison` | cloudevent/cefilter/parser.go:160-219 | result and position are those of the comparison parse after an identifier |
| `Parsing.Parser.ParseList` | cloudevent/cefilter/parser.go:197-210 | the value set and the printed items are those of the longest comma-separated string list |
| `Parsing.Parser.ExpectString` | cloudevent/cefilter/parser.go:221-227 | consumes a string token and returns its value, or leaves the position |
| `Parsing.ParseExpression` | cloudevent/cefilter/parser.go:24-38 | lexes, parses and rejects trailing tokens, for every input |
| `Parsing.ParserIsCorrect` | cloudevent/cefilter/parser.go:12-219 | on any token list the parser succeeds with a tree if and only if the documented grammar derives the tokens before the end with that left-associated tree |
| `Parsing.GrammarIsUnambiguous` | cloudevent/cefilter/parser.go:12-23 | no token list has two trees |
| `Parsing.ParseIsCorrect` | cloudevent/cefilter/parser.go:24-38 | a text parses to a tree if and only if it spells tokens that the grammar derives with that tree |
| `RoundTrip.ParsedIsWellFormed` | cloudevent/cefilter/parser.go:128-219 | every tree that parsing returns has identifier keys, compiled patterns and IN nodes consistent with their printed list |
| `RoundTrip.QuoteSpells` | cloudevent/cefilter/filter.go:38 | a `%q` literal is, to the lexer, an escaped spelling of the reread value |
| `Quoting.QuoteReadsBack` | cloudevent/cefilter/filter.go:38 | a `%q` literal is, to Go, a string literal of the value itself, for every value |
| `RoundTrip.PrintParse` | cloudevent/cefilter/filter.go:35-92 | parsing the printed form of any such tree succeeds and gives the tree with each string reread |
| `RoundTrip.RoundTripIff` | cloudevent/cefilter/filter.go:35-92 | printing and parsing gives back the same tree if and only if all its strings need at most quote and backslash escapes |
| `RoundTrip.ReparseOfParsed` | cloudevent/cefilter/parser.go:24-219 | whatever a text parsed to can be printed and parsed again, with the same tree under that condition only |
| `RoundTrip.TabIsLost` | cloudevent/cefilter/filter.go:38 | the concrete failure: a tree that parsing returns with a tab in it is printed and parsed to one with the letter t |
| `TypeConstraints.ConstraintIsSound` | cloudevent/cefilter/index.go:323-385 | if a tree matches and its constraint is not unconstrained, `type` is present and is an exact member or matches a glob, through all nesting of AND and OR |
| `TypeConstraints.IntersectAdmits` | cloudevent/cefilter/index.go:387-414 | an intersection admits every type both sides admit, and none that neither admits |
| `TypeConstraints.UnionAdmits` | cloudevent/cefilter/index.go:416-426 | a union admits exactly what one of its sides admits |
| `TypeConstraints.IntersectKeeps` | cloudevent/cefilter/index.go:387-413 | an exact type is kept exactly when one side names it and the other admits it |
| `TypeConstraints.ConstrainedIff` | cloudevent/cefilter/index.go:323-385 | a tree is constrained exactly when it compares the type with `=`, LIKE or IN on every branch |
| `TypeConstraints.ConstraintIsExact` | cloudevent/cefilter/index.go:323-385 | of alternatives of comparisons of the type the constraint admits exactly the types they match |
| `TypeConstraints.UnconstrainedIsBare` | cloudevent/cefilter/index.go:323-385 | an unconstrained result carries no exact values and no globs |
| `TypeConstraints.IntersectConstraints` | cloudevent/cefilter/index.go:387-414 | the loops over exact values and globs build the specified intersection |
| `TypeConstraints.UnionConstraints` | cloudevent/cefilter/index.go:416-426 | the loops build the specified union |
| `TypeConstraints.ExtractTypeConstraint` | cloudevent/cefilter/index.go:323-385 | the recursive traversal computes the constraint that ConstraintIsSound is about |
| `Registry.ReplayHolds` | cloudevent/cefilter/index.go:59-95 | after any Add and Remove history the ordered registry holds exactly the entries of a name-to-filter map, each name once |
| `Registry.HitsOfOthers` | cloudevent/cefilter/accessor.go:138-146 | removing a name changes no answer about the others and keeps their order |
| `Registry.HitsDistinct` | cloudevent/cefilter/accessor.go:82-96 | with distinct names an answer lists no entry twice |
| `Slices.Compact` | cloudevent/cefilter/accessor.go:138-146 | filtering over the array being read keeps exactly the entries that pass, in order, and the cells behind the slice; used for all four slices |
| `Slices.Append` | cloudevent/cefilter/index.go:82-92 | the slice shows one entry more, in its own array while there is room and in a new one otherwise |
| `FilterSets.FilterSet.Add` | cloudevent/cefilter/accessor.go:68-75 | appends the compiled filter, or changes nothing if the expression does not parse |
| `FilterSets.FilterSet.Remove` | cloudevent/cefilter/accessor.go:138-146 | keeps exactly the other names' filters in order, in the same array |
| `FilterSets.FilterSet.MatchAny` | cloudevent/cefilter/accessor.go:99-106 | true if and only if some filter matches |
| `FilterSets.FilterSet.Match` | cloudevent/cefilter/accessor.go:82-96 | the first matches in order up to the cap; the limit callback is called once if and only if the cap is reached |
| `FilterSets.FilterSet.MatchEndpoints` | cloudevent/cefilter/accessor.go:112-135 | duplicate-free non-empty hints of matching filters, as many as the cap and the distinct hints allow; callback as above |
| `Buckets.FileExact` | cloudevent/cefilter/index.go:84-86 | the filter is appended to the buckets of its exact types and to no other; no bucket is empty and no two share an array |
| `Buckets.FileGlobs` | cloudevent/cefilter/index.go:87-89 | the glob list grows by one entry for each glob of the filter, in order |
| `Buckets.DropFromBuckets` | cloudevent/cefilter/index.go:252-264 | every bucket is compacted in its own array to the other names' filters in order, none disturbing another; emptied buckets disappear |
| `FilterIndex.GlobsOfOthers` | cloudevent/cefilter/index.go:266-272 | filtering the glob list by name gives the glob list of the other filters |
| `FilterIndex.CandidatesAreRegistered` | cloudevent/cefilter/index.go:128-176 | whatever a lookup offers is registered |
| `FilterIndex.MatchingIsOffered` | cloudevent/cefilter/index.go:128-176 | every registered filter that matches an event is offered for its type |
| `FilterIndex.FiledInOnePlace` | cloudevent/cefilter/index.go:59-95 | a registered filter is in the wildcard list if and only if it is in no bucket and under no glob |
| `FilterIndex.BucketsHaveNoRepeats` | cloudevent/cefilter/index.go:59-95 | the wildcard list and each bucket hold a name at most once |
| `FilterIndex.IndexedIsRegistered` | cloudevent/cefilter/index.go:250-281 | every entry of the three index structures is a registered filter |
| `FilterIndex.FiledAndWild` | cloudevent/cefilter/index.go:284-303 | filters filed under types and wildcard filters add up to the registered ones |
| `Collecting.MatchRunResult` | cloudevent/cefilter/index.go:128-176 | offering candidates with the seen set and the cap yields the first occurrences up to the cap, and one callback if and only if it is reached |
| `Collecting.FirstsMembers` | cloudevent/cefilter/index.go:137-154 | deduplication by name loses no matching entry and keeps each once, however often a filter is offered |
| `Collecting.EndpointRunResult` | cloudevent/cefilter/index.go:182-239 | the same for endpoint hints: distinct, non-empty, as many as the cap allows |
| `IndexedFilterSets.SameHits` | cloudevent/cefilter/index.go:128-176 | the deduplicated candidates that match are, as a multiset, the linear scan's answer |
| `IndexedFilterSets.SameHints` | cloudevent/cefilter/index.go:182-239 | the candidates' hints are the linear scan's hints |
| `IndexedFilterSets.IndexesSnoc` | cloudevent/cefilter/index.go:79-93 | filing one more filter keeps the index the index of the registry |
| `IndexedFilterSets.IndexesOthers` | cloudevent/cefilter/index.go:250-281 | dropping a name from all three structures gives the index of the others |
| `IndexedFilterSets.EveryHistoryAnswers` | cloudevent/cefilter/index.go:59-176 | after any Add and Remove history an index of it answers with an entry once if the name-to-filter map holds it and it matches, and not otherwise |
| `IndexedFilterSets.IndexedFilterSet.Add` | cloudevent/cefilter/index.go:59-95 | replaces by name; an expression that does not parse changes nothing; the index stays the index of the registry |
| `IndexedFilterSets.IndexedFilterSet.FileSlices` | cloudevent/cefilter/index.go:80-93 | after any removals, appending a filter to its slices changes no other entry, and still no two slices share an array |
| `IndexedFilterSets.IndexedFilterSet.Remove` | cloudevent/cefilter/index.go:243-247 | unregisters the name; the index stays the index of the registry |
| `IndexedFilterSets.IndexedFilterSet.RemoveLocked` | cloudevent/cefilter/index.go:250-281 | each of the slices keeps exactly the other names' entries in their order, in the array it had; no two slices share an array afterwards either |
| `IndexedFilterSets.IndexedFilterSet.CompactBuckets` | cloudevent/cefilter/index.go:252-264 | compacting the buckets leaves the glob and the wildcard slices as they were |
| `IndexedFilterSets.IndexedFilterSet.CompactGlobs` | cloudevent/cefilter/index.go:266-272 | compacting the glob slice leaves the buckets and the wildcard slice as they were |
| `IndexedFilterSets.IndexedFilterSet.CompactWild` | cloudevent/cefilter/index.go:274-280 | compacting the wildcard slice leaves the buckets and the glob slice as they were |
| `IndexedFilterSets.IndexedFilterSet.MatchAny` | cloudevent/cefilter/index.go:100-121 | true if and only if the linear scan of the registry finds a match |
| `IndexedFilterSets.IndexedFilterSet.Match` | cloudevent/cefilter/index.go:128-176 | duplicate-free; uncapped it is the linear answer as a multiset; capped it is a part of it of size min(cap, answer); callback once if and only if the cap is reached |
| `IndexedFilterSets.IndexedFilterSet.MatchEndpoints` | cloudevent/cefilter/index.go:182-239 | distinct non-empty hints of matching filters, min(cap, all) of them; callback once if and only if the cap is reached |
| `IndexedFilterSets.IndexedFilterSet.Stats` | cloudevent/cefilter/index.go:284-303 | the total is the number of registered names; the other counts are those of the index structures |
| `Cdc.StepKeepsInv` | cloudevent/cefilter/mongostore/cdc.go:91-224 | every protocol or environment step keeps the invariant |
| `Cdc.SnapshotIsConsistent` | cloudevent/cefilter/mongostore/cdc.go:101-113 | reading each name at any moment after the pin agrees with the store on names unwritten since the pin |
| `Cdc.HandlingAgrees` | cloudevent/cefilter/mongostore/cdc.go:138-151 | delivering one event, its document looked up at any later time, extends the agreement past that event |
| `Cdc.LiveIsWhatWasTold` | cloudevent/cefilter/mongostore/cdc.go:203-213 | in every reachable state `live` is exactly the names the caller was told are live |
| `Cdc.CompletedSnapshot` | cloudevent/cefilter/mongostore/cdc.go:167-189 | after a completed snapshot the caller's set is exactly the documents listed, so no stale name survives |
| `Cdc.PositionAgrees` | cloudevent/cefilter/mongostore/cdc.go:91-189 | while a position is held, the caller agrees with the store on every name without an event after it whose last write is legible |
| `Cdc.CaughtUpIsExactIff` | cloudevent/cefilter/mongostore/cdc.go:138-163 | with a position held and nothing of the collection after it, streaming or not, the caller's set equals the active documents if and only if every live name's last write is legible |
| `Cdc.DrainedIsCaughtUp` | cloudevent/cefilter/mongostore/cdc.go:138-151 | a stream with nothing more to deliver has caught up |
| `Cdc.Converges` | cloudevent/cefilter/mongostore/cdc.go:91-189 | if all documents decode, a caught-up caller is exact, in every run |
| `Cdc.IllegibleWriteIsMissed` | cloudevent/cefilter/mongostore/cdc.go:243-273 | from any caught-up state an undecodable write, or a hard delete of the empty name, leaves the caller caught up and wrong |
| `Cdc.TailingWith` | cloudevent/cefilter/mongostore/cdc.go:138-190 | a run reaches the end of the log, with the position there and a given stored document reported live |
| `Cdc.DamageIsMissed` | cloudevent/cefilter/mongostore/cdc.go:243-273 | the concrete failure: a reachable state that is caught up and not exact |
| `Cdc.ReadyAgrees` | cloudevent/cefilter/mongostore/cdc.go:132-136 | when Ready is sent the caller agrees with the store on every name unwritten since the stream's start |
| `Cdc.CanResume` | cloudevent/cefilter/mongostore/cdc.go:31-33 | from every reachable state that holds a position with no invalidation after it, resuming alone, without a snapshot, can end caught up |
| `Cdc.CanSnapshot` | cloudevent/cefilter/mongostore/cdc.go:22-29 | from every reachable state without a position a snapshot can end caught up, and exactly |
| `Cdc.CanCatchUp` | cloudevent/cefilter/mongostore/cdc.go:74-163 | from every reachable state with a listable store FilterCDC can catch up by its own steps, without a lost position and without writes, also after the collection was dropped |
| `Cdc.StoreHoldsBodies` | cloudevent/cefilter/mongostore/store.go:90-105 | the store rebuilt from the log holds what per-name reads of the log return |
| `CdcService.StaleNames` | cloudevent/cefilter/mongostore/cdc.go:192-200 | exactly the live names that are not active, each once |
| `CdcService.FilterCDC.SendAndTrack` | cloudevent/cefilter/mongostore/cdc.go:203-213 | a change is sent and tracked, or neither |
| `CdcService.FilterCDC.Snapshot` | cloudevent/cefilter/mongostore/cdc.go:167-189 | takes only protocol steps; success means every document sent and every stale name deleted |
| `CdcService.FilterCDC.Prepare` | cloudevent/cefilter/mongostore/cdc.go:94-113 | resumes from the held position, else pins before the snapshot and holds the pin after it |
| `CdcService.FilterCDC.Follow` | cloudevent/cefilter/mongostore/cdc.go:115-163 | opens the stream at the position and announces Ready before tailing |
| `CdcService.FilterCDC.Tail` | cloudevent/cefilter/mongostore/cdc.go:138-162 | takes only protocol steps; when it ends otherwise than by a cancelled send, every event delivered has been handled; the position is forgotten exactly when the stream is invalidated |
| `CdcService.FilterCDC.Turn` | cloudevent/cefilter/mongostore/cdc.go:138-151 | one turn either ends the loop or leaves the position behind the event delivered, with no event of the collection in between |
| `CdcService.FilterCDC.HandleEvent` | cloudevent/cefilter/mongostore/cdc.go:139-150 | a cancelled send leaves the position before the event; otherwise the stream's token, which may stand behind later writes to other collections, is remembered after sending and tracking |
| `CdcService.FilterCDC.OpenStream` | cloudevent/cefilter/mongostore/cdc.go:121-129 | opens the stream at the held position and remembers its first token, or ends the attempt on an error of the call |
| `CdcService.FilterCDC.RunOnce` | cloudevent/cefilter/mongostore/cdc.go:91-163 | one attempt is a sequence of protocol steps that ends idle. It ends in an error only on exactly one fault of the deployment or the caller, and in the way that fault says; without one it has announced Ready. It asks for the time exactly when it holds no position, and drops a held position exactly when the stream was invalidated |
| `CdcService.FilterCDC.Retry` | cloudevent/cefilter/mongostore/cdc.go:81-87 | the second attempt holds no position: it pins anew, and any position it leaves is its own |
| `CdcService.FilterCDC.Attempts` | cloudevent/cefilter/mongostore/cdc.go:80-88 | a lost position is retried exactly once, unless the context is found cancelled; every other fault ends the run at once |
| `CdcService.FilterCDC.Run` | cloudevent/cefilter/mongostore/cdc.go:74-89 | a concurrent call is rejected and changes nothing; any other ends in a reachable state in which `live` matches what was sent and the caller agrees with the store at the held position, by the faults that Attempts allows; stopped while tailing, it has announced Ready and handled every event delivered |
| `FilterStores.FilterStore.Upsert` | cloudevent/cefilter/mongostore/store.go:34-53 | the document becomes active, also after a soft delete, unless a field it does not write is damaged; it is an insert or, over a stored document, an update; other names are untouched |
| `FilterStores.FilterStore.SoftDelete` | cloudevent/cefilter/mongostore/store.go:58-65 | what is stored is the old document with only its deletion set; other names are untouched; nothing is written for a missing name |
| `FilterStores.FilterStore.HardDelete` | cloudevent/cefilter/mongostore/store.go:70-73 | nothing is stored under the name; other names are untouched |
| `EndToEnd.SentExpressionsParse` | cloudevent/cefilter/mongostore/cdc.go:138-189 | if all stored expressions parse, so does every expression sent in any run |
| `EndToEnd.ConsumerKeeps` | cloudevent/cefilter/DEV_NOTES.md:272-296 | applying the changes sent leaves, for each name, the compiled form of its last version that parsed since it was last deleted, and nothing else |
| `EndToEnd.EndToEndHits` | cloudevent/cefilter/mongostore/cdc.go:138-151 | caught up, the consumer's registry answers with each active matching document once, for every name that is not outdated |
| `EndToEnd.EndToEndIff` | cloudevent/cefilter/mongostore/cdc.go:138-151 | caught up, all answers are right if and only if the consumer keeps no version that can match of a name without an active document that parses |
| `EndToEnd.OutdatedIsReached` | cloudevent/cefilter/DEV_NOTES.md:272-296 | the concrete failure: a reachable, caught-up state with every write legible and the caller exact, in which the consumer keeps an outdated version |
| `EndToEnd.NothingOutdated` | cloudevent/cefilter/mongostore/cdc.go:138-189 | that is so when all stored expressions parse and every live name was last written legibly |
| `EndToEnd.Consume` | cloudevent/cefilter/DEV_NOTES.md:272-296 | from an index that is the replay of the changes seen so far, the consumer loop leaves it as the replay of those and the new ones |
| `EndToEnd.Route` | cloudevent/cefilter/index.go:128-176 | `Match` on the consumer's index returns entries with the name, hint and metadata of active documents whose expression matches, each name once, and all of them unless the cap is reached |
| `EndToEnd.EndToEndHints` | cloudevent/cefilter/index.go:183-234 | caught up with nothing outdated, the hints collected are the non-empty hints of the active documents that match |
| `EndToEnd.RouteEndpoints` | cloudevent/cefilter/index.go:183-234 | `MatchEndpoints` on the consumer's index returns those hints, each once, and all of them unless the cap is reached |
| `EndToEnd.Serve` | cloudevent/cefilter/DEV_NOTES.md:272-296 | a run of `FilterCDC`, the first or a reconnect, the consumer of its changes and one routed event: the same answer about the collection as it is, and the index is again in step for the next run |
| `EndToEnd.ServeAll` | cloudevent/cefilter/DEV_NOTES.md:272-296 | one `FilterCDC` and one index through a first run and any number of reconnects: every answer is right about the collection as it was at its moment |
| `CertReload.StepKeepsInv` | runtime/servertls/servertls.go:228-303 | every file write and every step of any reload call keeps the invariant |
| `CertReload.UpToDateIsFresh` | runtime/servertls/servertls.go:284-293 | in every interleaving, if the recorded modification times are those of the files, certificate and CA pool are what the files hold |
| `CertReload.ServedFromFiles` | runtime/servertls/servertls.go:267-293 | in terms of the files: then the certificate is that of the certificate and key files, and the pool that of the CA file, or none without one |
| `CertReload.LoadableIff` | runtime/servertls/servertls.go:267-283 | the files load exactly when certificate and key are there and fit and, if configured, the CA file is there and usable |
| `CertReload.NeverAbsentAgain` | runtime/servertls/servertls.go:222-227 | once loaded, the certificate is never absent in any later state of a run |
| `CertReload.PublishedIsFresh` | runtime/servertls/servertls.go:267-293 | a publication over files unchanged since the stat serves their current contents |
| `CertReload.UnchangedIsFresh` | runtime/servertls/servertls.go:254-265 | a call that finds nothing changed was right to keep what is served |
| `CertReload.StaysFreshIff` | runtime/servertls/servertls.go:228-303 | while no file is touched, what is served stays current if and only if the last publication since, if any, was of a call that saw the current times |
| `CertReload.StaysFresh` | runtime/servertls/servertls.go:228-303 | it always does when no call in flight holds an older time |
| `CertReload.StalePublication` | runtime/servertls/servertls.go:284-294 | a publication over what is current leaves it current if and only if its call saw the current times |
| `CertReload.FreshnessIsLost` | runtime/servertls/servertls.go:238-294 | the concrete failure: a slow call publishes the old certificate after a fresh reload, with no file touched from before that reload on |
| `CertReload.OtherStep` | runtime/servertls/servertls.go:228-303 | what a call relies on while others run holds of every step of a writer or another call |
| `CertReload.OthersKeep` | runtime/servertls/servertls.go:228-303 | and of any number of such steps, none of which publishes for it |
| `ReloadingCertificates.ReloadingCertificate.Create` | runtime/servertls/servertls.go:209-220 | success leaves a certificate; over undisturbed files it succeeds if and only if they load |
| `ReloadingCertificates.ReloadingCertificate.Reload` | runtime/servertls/servertls.go:228-303 | not due: nothing changes; due: files undisturbed until the call compares or publishes are what is served at that moment, and over undisturbed files it succeeds whenever they load; a failed call is a run from its first step to its giving up in which it published nothing and noted no check, so the next call tries again |
| `ReloadingCertificates.ReloadingCertificate.LookOrGiveUp` | runtime/servertls/servertls.go:238-253 | the times of all files in the order of the stats, current if no file was touched; a missing file ends the call without a publication |
| `ReloadingCertificates.ReloadingCertificate.LoadOrGiveUp` | runtime/servertls/servertls.go:267-283 | what the files read one by one load to; a file that cannot be read or parsed ends the call without a publication |
| `ReloadingCertificates.ReloadingCertificate.KeepServing` | runtime/servertls/servertls.go:254-265 | the comparison and the recording of the check time are two lock sections; at the first, what is served is current if no file was touched |
| `ReloadingCertificates.ReloadingCertificate.LoadAndPublish` | runtime/servertls/servertls.go:267-302 | all files are read before anything is published, together with the times of the earlier stat |
| `ReloadingCertificates.ReloadingCertificate.GetCertificate` | runtime/servertls/servertls.go:306-313 | returns the certificate last published, never none after a load: whenever the recorded times are current, the one the certificate and the key file hold; a due call over undisturbed files that load passes a moment at which they are served, and ends so if no call was behind |
| `ReloadingCertificates.ReloadingCertificate.ClientCAPool` | runtime/servertls/servertls.go:316-323 | the same for the client CA pool: the one the CA file holds, or none when no such file is configured |
| `KeyCache.NextKeyBoundary` | services/keymaterial/key-material.go:109-119 | the earliest NotBefore or NotAfter at or after now, or the maximum time |
| `KeyCache.NoBoundaryLeft` | services/keymaterial/key-material.go:109-119 | without a boundary ahead the next one is the second 1<<62 |
| `KeyCache.ScanIs` | services/keymaterial/key-material.go:62-92 | by place in the configuration: the last key with NotBefore < now < NotAfter signs, all such keys are published in order, and there is no answer exactly when none is active or that one does not decrypt |
| `KeyCache.UnchangedBeforeBoundary` | services/keymaterial/key-material.go:48-56 | a scan at any time from loading to strictly before the boundary gives the loaded answer |
| `KeyCache.BoundaryInstant` | services/keymaterial/key-material.go:96-119 | at the boundary itself the loaded answer is still that of a scan if and only if no key expires there |
| `KeyCache.ExpiryIsMissed` | services/keymaterial/key-material.go:96-104 | the concrete failure: at the instant its only key expires the cache still answers, where a scan finds none |
| `KeyCache.Service.ReloadKeys` | services/keymaterial/key-material.go:57-94 | rebuilds from a scan when due; fails exactly when the scan does, leaving the cache as it was |
| `KeyCache.Service.GetKeys` | services/keymaterial/key-material.go:121-177 | signing key and JWKs equal a fresh scan at the call's clock reading, or at the load of a call that read it later, except exactly when an older cache is used at the instant a key expires |
| `Subjects.ValidateSubjectToken` | nats/nats_micro_service/errors.go:128-138 | accepts exactly non-empty values without dots, wildcards, spaces and control characters |
| `Subjects.ReplaceTokens` | nats/nats_micro_service/nats_micro_service.go:224-281 | the loop computes the substitution of the template's parameters in the order found |
| `Subjects.ReplaceSucceedsIff` | nats/nats_micro_service/nats_micro_service.go:246-280 | substitution fails exactly on a parameter whose value is missing or not a valid token |
| `Subjects.NothingReservedComesIn` | nats/nats_micro_service/nats_micro_service.go:268-276 | substitution brings no wildcard, white space or control character into a subject |
| `Subjects.NoSeparatorComesIn` | nats/nats_micro_service/nats_micro_service.go:268-276 | nor a further separator |
| `Subjects.FoundIsThere` | nats/nats_micro_service/nats_micro_service.go:225-229 | every parameter found is a non-empty name that stands in the template between `${` and `}` |
| `Subjects.FirstIsFound` | nats/nats_micro_service/nats_micro_service.go:225-229 | and the first one that stands there is found first, before those of the rest |
| `Subjects.TokenizeRouteWithNesting` | nats/nats_micro_service/nats_micro_service.go:183-213 | the loop computes the tokens of the route |
| `Subjects.UnbalancedIsShort` | nats/nats_micro_service/nats_micro_service.go:183-213 | a route with an unbalanced segment before its last gives fewer tokens than segments |
| `Subjects.TokenizeJoinIff` | nats/nats_micro_service/nats_micro_service.go:183-213 | tokenizing dot-joined segments gives the segments back if and only if every one but the last has balanced braces |
| `Subjects.OpenBraceSwallows` | nats/nats_micro_service/nats_micro_service.go:183-213 | the concrete failure: one open brace and the dot behind it no longer separates |
| `Subjects.ExtractRouteParams` | nats/nats_micro_service/nats_micro_service.go:115-154 | the loop computes the extraction that ExtractIff describes |
| `Subjects.ExtractIff` | nats/nats_micro_service/nats_micro_service.go:115-154 | extraction succeeds exactly when there are as many segments as tokens and every word is its segment; each parameter is mapped to its last segment |
| `SubjectTemplates.ParseTemplate` | nats/nats_micro_service/nats_micro_service.go:156-160 | a template of words and whole parameters is parsed into exactly its segments |
| `SubjectTemplates.WordIsOneToken` | nats/nats_micro_service/nats_micro_service.go:156-160 | letters, digits and underscores make one token |
| `SubjectTemplates.QuietSubstitution` | nats/nats_micro_service/nats_micro_service.go:224-281 | when the intended subject holds no parameter's text, substituting name after name replaces each parameter segment by its value and leaves the others |
| `SubjectTemplates.InertIsQuiet` | nats/nats_micro_service/nats_micro_service.go:246-280 | that is so whenever no value opens a parameter |
| `SubjectTemplates.RebuiltIff` | nats/nats_micro_service/nats_micro_service.go:115-281 | texts put in the place of the parameters give a route back if and only if they fit its tokens and no segment of it is empty |
| `SubjectExpansion.ReplaceUncrossed` | nats/nats_micro_service/nats_micro_service.go:276 | replacing one parameter everywhere replaces it in each segment by itself when its text is not spelled across a separator |
| `SubjectExpansion.MergeStep` | nats/nats_micro_service/nats_micro_service.go:276 | and otherwise leaves fewer segments, still without a text of that parameter as a segment |
| `SubjectExpansion.SubjectIs` | nats/nats_micro_service/nats_micro_service.go:246-280 | for all accepted values the subject is a list of segments: as many as the template's, each parameter put through the whole substitution, or fewer after a crossing |
| `SubjectExpansion.ExpansionIsIff` | nats/nats_micro_service/nats_micro_service.go:246-280 | the subject is the template with each parameter put through the whole substitution if and only if no crossing occurs |
| `SubjectExpansion.SubstitutionIsIff` | nats/nats_micro_service/nats_micro_service.go:224-281 | for all values, each parameter is replaced by its value and nothing else changes if and only if the values are clean: accepted, settled and without a crossing |
| `SubjectRoundTrips.RoundTripIff` | nats/nats_micro_service/nats_micro_service.go:115-281 | for all templates and values, extraction from the subject recovers exactly the parameters if and only if the values are clean and every segment but the last has balanced braces |
| `SubjectRoundTrips.SameSubjectIff` | nats/nats_micro_service/nats_micro_service.go:224-281 | a request with the subject of a clean one has the same parameters if and only if it is clean too |
| `SubjectRoundTrips.ReverseRoundTripIff` | nats/nats_micro_service/nats_micro_service.go:115-281 | for every route that extraction accepts: substituting what was extracted gives it back if and only if the values are clean, equal parameters have equal segments and no segment is empty |
| `SubjectRoundTrips.SegmentsComeBackIff` | nats/nats_micro_service/nats_micro_service.go:115-281 | on a route joined from non-empty balanced segments the values and the repeated parameters alone decide |
| `SubjectRoundTrips.QuietIsClean` | nats/nats_micro_service/nats_micro_service.go:246-280 | values are clean when the intended subject holds no parameter's text |
| `SubjectRoundTrips.BracelessComeBack` | nats/nats_micro_service/nats_micro_service.go:115-281 | accepted values without braces are clean and balanced, so they always come back, and the segment count is kept |
| `SubjectRoundTrips.DotlessIsUncrossed` | nats/nats_micro_service/nats_micro_service.go:246-280 | names without dots never cross a separator |
| `SubjectRoundTrips.UndisturbedIsSettled` | nats/nats_micro_service/nats_micro_service.go:246-280 | every parameter becomes its value when no value holds the text of a parameter substituted after it |
| `SubjectRoundTrips.InertIsUndisturbed` | nats/nats_micro_service/nats_micro_service.go:246-280 | that is so whenever no value opens a parameter |
| `SubjectRoundTrips.RoundTripIffUndisturbed` | nats/nats_micro_service/nats_micro_service.go:115-281 | for such values extraction recovers them if and only if no crossing occurs and the braces are balanced |
| `SubjectRoundTrips.NestedValueIsExpanded` | nats/nats_micro_service/nats_micro_service.go:246-280 | the concrete failure: on `${a}.${b}` the values `${b}` and `x` give the subject `x.x` |
| `SubjectRoundTrips.SpelledAcrossIsLost` | nats/nats_micro_service/nats_micro_service.go:246-280 | the concrete failure of a crossing, for all names: on `${p}.${q}.${a.b}` the values `${a` and `b}` merge, and nothing is extracted |
| `SubjectRoundTrips.RepeatedParameter` | nats/nats_micro_service/nats_micro_service.go:138-151 | the loss, for every name: of a template with one parameter twice only the second segment is extracted, and it is substituted in both places |
| `SubjectRoundTrips.RepeatedParameterIsLost` | nats/nats_micro_service/nats_micro_service.go:138-151 | the concrete failure: on `${a}.${a}` the route `x.y` comes back as `y.y` |
| `Padding.PadBuffer` | utils/ecdsa/edcsa.go:62-69 | the buffer holds the data followed by 1 to 16 bytes, each the number of bytes added |
| `Padding.PadIs` | utils/ecdsa/edcsa.go:62-69 | a padded message is the message and 1 to 16 bytes of their own count, a multiple of 16 long |
| `Padding.UnpadPad` | utils/pkcs8enc/pkcs8enc.go:79-80 | a padded message is made of whole blocks and unpads to the message, for every length |
| `Padding.UnpadIff` | utils/pkcs8enc/pkcs8enc.go:176-180 | on whole blocks unpadding gives m if and only if the input is the padding of m |
| `Padding.PadIsInjective` | utils/pkcs8enc/pkcs8enc.go:79-80 | no two messages share a padded form |
| `Padding.UnpadLoop` | utils/ecdsa/edcsa.go:129-142 | the byte-by-byte loop, here and in lines 241-255 of services/keymaterial/key-material.go, agrees with the comparison of slices, and on any length fails exactly if no padding is there |
| `Padding.CbcRoundTrip` | utils/pkcs8enc/pkcs8enc.go:85-86 | for any invertible block cipher, chained decryption undoes chained encryption |
| `Padding.CbcReencrypts` | utils/pkcs8enc/pkcs8enc.go:174-175 | for any permutation of blocks, chained encryption undoes chained decryption |
| `Padding.CbcBlock` | utils/pkcs8enc/pkcs8enc.go:85-86 | each block of 16 bytes of the ciphertext is the cipher of the plaintext block xor the block before it, the first with the IV |
| `Padding.XorLaws` | utils/pkcs8enc/pkcs8enc.go:85-86 | xor sets exactly the bits in which its operands differ; it is symmetric, and zero on equal operands |
| `Padding.DecryptEncrypt` | utils/pkcs8enc/pkcs8enc.go:79-86 | decrypting an encrypted message gives the message, for every length |
| `Padding.DecryptIff` | utils/pkcs8enc/pkcs8enc.go:152-180 | decryption gives m if and only if the data are the encryption of m |
| `DeepMerge.Document.Mapify` | utils/replace_merge_map.go:41-52 | a fresh copy with the same entries for a map value, nothing for any other |
| `DeepMerge.MergeField` | utils/replace_merge_map.go:24-38 | one key is merged if its nesting is within the limit, else nothing changes |
| `DeepMerge.ReplaceOnlyMergeMap` | utils/replace_merge_map.go:17-40 | in any key order: succeeds exactly within the depth limit, with the recursive source-wins merge; a failure leaves whole keys merged or untouched |
| `DeepMerge.ReplaceMergeMap` | utils/replace_merge_map.go:12-15 | succeeds exactly when no path of 33 keys leads to maps in both sides |
| `DeepMerge.MergedLeaf` | utils/replace_merge_map.go:24-38 | a leaf is found at a path exactly if the source has it there, or the target does and the source says nothing about the path |
| `DeepMerge.MergedObject` | utils/replace_merge_map.go:24-38 | the same for maps |
| `DeepMerge.PathsDetermine` | utils/replace_merge_map.go:24-38 | values that show the same at all paths are equal, so the two lemmas above describe one merge |
| `DeepMerge.WithinIff` | utils/replace_merge_map.go:18-20 | recursing at most n levels means that no path of n + 1 keys leads to maps in both sides |
| `DeepMerge.Idempotent` | utils/replace_merge_map.go:12-40 | merging the same source again changes nothing |
| `DeepMerge.SecondMergeIff` | utils/replace_merge_map.go:18-20 | the second merge is within the limit if and only if the source alone nests no deeper |
| `DeepMerge.RepeatedMergeCanFail` | utils/replace_merge_map.go:18-20 | the concrete failure: 33 nested maps merge into an empty map but not a second time |

## Left out

- The MongoDB driver, BSON and real channels: the log, the per-name reads and the sends are the environment of the protocol; the client is assumed to deliver the log's events in order.
- Invalid UTF-8 in expressions: texts are sequences of characters, so `%q`'s `\x` escapes for broken runes do not occur.
- Unicode tables: letter, digit, space, printable and upper-case are parameters constrained on ASCII and on the characters the engine writes itself.
- Go's `regexp` beyond the three items that glob patterns compile to.
- Texts and positions of error messages.
- Locks of `FilterSet`, `IndexedFilterSet` and the key service: each of their calls is one step.
- CdcService.FilterCDC.Tail: follows the stream for a given number of turns and then counts as cancelled, because the loop has no other bound; the number is arbitrary.
- CdcService.FilterCDC.Run: says that every event delivered has been handled, not that every event in the log has been delivered, because the deployment or the caller may fail any call; Cdc.CanResume and Cdc.CanCatchUp state that catching up is possible.
- ReloadingCertificates.ReloadingCertificate.Reload: each write gives a file a new modification time.
- Subject templates whose segments are neither a word nor one whole parameter: parseTokens splits such a segment into several tokens; Subjects.ExtractIff and Subjects.ReplaceSucceedsIff hold for every template text.
- Subjects.ReplaceTokens: the message is given as a map from parameter name to value, so protojson, jsonpath and number formatting are not modelled.
- AES, MD5, PBKDF2, ASN.1, PEM and x509: ciphers are arbitrary invertible functions on blocks, loading is an arbitrary function of file contents.
- DeepMerge.Document.Mapify: nested maps are values, so a nested source map that the result shares with the source is not seen as shared.
- `Tokens`, `TokenID` and other deprecated or configuration fields, logging, server runtimes, generated code: plumbing that would only add easy members.
