# NaraLabs Atlas, modelled in Dafny

Atlas indexes the contract events of the Stellar network: it reads them from several RPC endpoints, stores them, decodes them
under schemas that contract publishers register, and pushes them to websocket clients. This project models the parts of it that
hold state, loops or exact arithmetic, and proves what they promise.

`dafny verify dfyconfig.toml` checks the whole project.

| file | what it models |
|---|---|
| `Prelude`, `Text`, `Decimal`, `Sorting`, `SchemaModel` | options and results, the few Go string functions needed, decimal text, sorting, the schema row |
| `Limbs`, `Stroops` | the 128- and 256-bit printers and the stroop formatter, with readers that invert them |
| `ScVal`, `Float64`, `Decoder`, `DecodeRoundTrip`, `DecodeExactness`, `DecodeForms` | Soroban values as tagged JSON, what float64 does to integers, the schema decoder, decoding as the inverse of printing, exactly which events are decoded, and what the short forms of a schema body mean |
| `Bundles` | grouping published schemas into 30-second bundles of one publisher |
| `Registry`, `PublishProtocol`, `Publications` | the `event_schemas` table, publishing as two interleavable statements, the verification transaction and the listing a publisher sees |
| `Environment`, `Throttle`, `Pool`, `PoolHealth`, `Retry`, `FetchEvents`, `Pagination`, `PaginationStop` | an arbitrary environment; the four layers of the RPC client; what holds of them together, and when a pagination ends |
| `Stores`, `Ingest`, `IngestRerun`, `Backfill` | last-write-wins tables, the ingest cycle and its cursor, what failed cycles and their re-runs come to, backfill windows |
| `Hub`, `HubProtocol` | the websocket hub as a class, and as a machine whose steps interleave |

How the outside is modelled. RPC endpoints, clocks, context cancellation and random draws are arbitrary functions of the step of a
run, so every statement holds for all of them. A SQL table is a map of rows, and each statement, as well as the verification
transaction, is atomic. A ClickHouse table is a last-write-wins map on its sort key. A loop that another party can keep going for
ever has a `fuel` bound, and the lemmas say when the bound is not reached.

Findings, each with its exact condition in the table below.

* Numbers of a decoded document pass through float64. A field is exact if and only if the integer has at most 53 significant bits
  (and is below 2^63); 2^53 + 1 is the first that comes back changed.
* A printed event carries an assignment under a schema if and only if it is decoded, the topics at the prefix are symbols,
  parameters of one name have one value, and map data is a map. Each of the last three can fail on a decoded event.
* A pagination stops for all servers whose pages hold at most M >= 1 events if and only if its limit is positive and no more than
  2^32 - M, or it starts at or past its end ledger, or the cursor it is given does not parse, or no cursor parses that lies before
  its end ledger. So without a limit it need not stop even on pages of a single event.
* A backfill tiles its range if and only if its 32-bit sums stay in range. A range that ends at ledger 2^32 - 1 never ends.
* Retry backoff is base * 2^k, capped, for every k if and only if both durations are below 2^62 nanoseconds.
* A throttle limits anything if and only if its rate is the default or has an interval of at least one nanosecond and below 2^63;
  above 10^9 requests a second, and from 10^9 / 2^63 down, every call is let through.

Where a document of the repository says otherwise: the minimal schema of docs/sep-0048-naralabs-schema-format.md, three arguments
without locations, never decodes an event, because the code takes all of them from the one data value.

One more behaviour worth knowing: a switched endpoint is reported as "all endpoints down" instead of the re-anchor error when the
last endpoint of the rotation is down.

## Model

| member | source | states |
|---|---|---|
| `Limbs.U128Decimal` | lib/scval/integers.go:9-14 | shifting and or-ing two unsigned limbs gives the decimal text of their positional sum |
| `Limbs.I128Decimal` | lib/scval/integers.go:16-21 | the same with a signed high limb, negative ones included |
| `Limbs.FoldLimbs` | lib/scval/integers.go:23-39 | the shift-and-or loop over any number of limbs is the positional sum in base 2^64 |
| `Limbs.U256Decimal` | lib/scval/integers.go:23-30 | four unsigned limbs print as their positional sum |
| `Limbs.I256Decimal` | lib/scval/integers.go:32-39 | four limbs with a signed first one print as their positional sum |
| `Limbs.U128Exact` | lib/scval/integers.go:9-14 | the value stays within 128 bits and the printed text parses back to the same two limbs |
| `Limbs.I128Exact` | lib/scval/integers.go:16-21 | the value is the two's-complement reading of the 128 bits, in the signed range, and the text parses back to the limbs |
| `Limbs.U256Exact` | lib/scval/integers.go:23-30 | the value stays within 256 bits and the text parses back to the four limbs |
| `Limbs.I256Exact` | lib/scval/integers.go:32-39 | the value is the two's-complement reading of the 256 bits, and the text parses back to the limbs |
| `Limbs.U128Onto` | lib/scval/integers.go:9-14 | every number of the unsigned 128-bit width is the value of some limbs |
| `Limbs.I128Onto` | lib/scval/integers.go:16-21 | every number of the signed 128-bit width is the value of some limbs |
| `Limbs.U256Onto` | lib/scval/integers.go:23-30 | every number of the unsigned 256-bit width is the value of some limbs |
| `Limbs.I256Onto` | lib/scval/integers.go:32-39 | every number of the signed 256-bit width is the value of some limbs |
| `Decimal.ParseIntIs` | internal/module/explore/repository/event_preview.go:199-202 | what is read as a number is one or more digits, with a sign or without one, and it is the number they spell |
| `Stroops.FormatStroopsAmount` | internal/module/explore/repository/event_preview.go:187-218 | the branches and the padding loop compute the one printed text the lemmas below are about |
| `Stroops.FormatIsExact` | internal/module/explore/repository/event_preview.go:187-218 | for every integer literal of any size, reading sign, whole part and fraction back and scaling by 10^7 gives the amount; the fraction is absent or has one to seven digits without a zero at the end |
| `Stroops.FormatIsInjective` | internal/module/explore/repository/event_preview.go:187-218 | different amounts never print the same |
| `Stroops.FormatOfOtherText` | internal/module/explore/repository/event_preview.go:187-218 | for all other texts: without a number the text itself comes out, and with one that amount comes out exactly, unless a second minus sign is left, when nothing readable does |
| `Stroops.DoubleMinus` | internal/module/explore/repository/event_preview.go:192-200 | "--5" is printed as something no reader accepts |
| `ScVals.ValToTagged` | lib/scval/convert.go:29-88 | the printer computes the one-key document of every value, at any depth |
| `ScVals.VecToTagged` | lib/scval/convert.go:94-109 | the loop prints the items in order |
| `ScVals.ScMapEntries` | lib/scval/convert.go:123-137 | the loop prints the entries in order as key and value documents |
| `ScVals.TaggedIsInjective` | lib/scval/convert.go:29-195 | equal documents come from equal values, an absent vector, map or storage counting as an empty one |
| `ScVals.PlainDocuments` | lib/scval/convert.go:30-88 | the document of each plain kind of value: its one key, and the value under it |
| `ScVals.Wide128Documents` | lib/scval/convert.go:47-50 | the text under the key of a 128-bit integer is the number whose base 2^64 digits are its limbs, the high one first |
| `ScVals.Wide256Documents` | lib/scval/convert.go:51-52 | the same for four unsigned limbs |
| `ScVals.SignedWide256Documents` | lib/scval/convert.go:53-54 | and for four limbs with a signed first one |
| `ScVals.HexIs` | lib/scval/convert.go:55-56 | bytes print as two small hexadecimal digits each, the high one first |
| `ScVals.ContainerDocuments` | lib/scval/convert.go:94-162 | vectors, maps and storages print what they hold, in order, keys under "k" and values under "v"; absent ones print as empty ones |
| `ScVals.ExecutableDocuments` | lib/scval/convert.go:164-184 | the document of each kind of executable |
| `ScVals.ErrorDocument` | lib/scval/convert.go:186-195 | an error prints its type, and the codes it has and no others |
| `ScVals.UnknownDocument` | lib/scval/convert.go:81-87 | anything else prints its XDR, with the reason and the type |
| `Float64.RoundKeepsIffFits` | lib/decoder/decode.go:228-260 | an integer survives float64 exactly when it is a multiple of the spacing of float64 there |
| `Float64.FitsIffFewBits` | lib/decoder/decode.go:228-260 | that is having at most 53 significant bits: being m * 2^k for an m of no more than 53 bits |
| `Float64.RoundFits` | lib/decoder/decode.go:228-260 | what comes back always has at most 53 significant bits |
| `Float64.RoundIsNearest` | lib/decoder/decode.go:228-260 | and no number of at most 53 significant bits is nearer to the integer than what comes back |
| `Float64.TiesGoToEven` | lib/decoder/decode.go:228-260 | half way between two of them it is the even one, on either side of zero |
| `Float64.Int64KeepsIff` | lib/decoder/decode.go:270-279 | converted to int64 as well, it survives exactly when it also lies below 2^63 |
| `Decoder.ExtractFields` | lib/decoder/decode.go:117-146 | the fields are those of the parameters read in order, each topic parameter taking the next topic after the prefix |
| `Decoder.FillFields` | lib/decoder/decode.go:117-146 | the loop stops at the first failing parameter with its error, and a later parameter of the same name wins |
| `Decoder.DecodeEvent` | lib/decoder/decode.go:40-71 | the decoding the lemmas of the next three modules are about, with the level-2 topics and value passed through unchanged whatever happens |
| `DecodeRoundTrip.ExtractsTagged` | lib/decoder/decode.go:228-294 | reading a printed value under a type that accepts it gives the value as it comes back from float64; string takes symbols too |
| `DecodeRoundTrip.LoosenKeepsIffNumbersFit` | lib/decoder/decode.go:228-245 | unmarshalling a whole document leaves it unchanged exactly when every number in it has at most 53 significant bits |
| `DecodeRoundTrip.RecoveredIsFaithfulIff` | lib/decoder/decode.go:262-294 | a field is the printed value itself if and only if the value's numbers survive float64 |
| `DecodeRoundTrip.SmallIntegersSurvive` | lib/decoder/decode.go:270-279 | the number-tagged kinds are exact up to 2^53 in either direction |
| `DecodeRoundTrip.FirstLostInteger` | lib/decoder/decode.go:270-279 | 2^53 + 1 is read back as 2^53 |
| `DecodeRoundTrip.FaithfulIsInjective` | lib/decoder/decode.go:262-294 | an exact field and its kind determine the value |
| `DecodeRoundTrip.EntryFound` | lib/decoder/decode.go:176-196 | of a printed map, the first entry whose key is the symbol of that name is the one read |
| `DecodeRoundTrip.VecFound` | lib/decoder/decode.go:206-226 | of a printed vector, the item at the index is read; any other value counts as its own item 0 |
| `DecodeRoundTrip.DecodeInvertsPrint` | lib/decoder/decode.go:40-174 | an event that carries an assignment under the schema a body stands for decodes to exactly that assignment, every parameter under its name and nothing else, level 2 untouched |
| `DecodeRoundTrip.FieldsAreExactIff` | lib/decoder/decode.go:262-294 | all fields are the assigned values themselves if and only if every assigned value survives float64 |
| `DecodeRoundTrip.LayoutCarries` | docs/sep-0048-naralabs-schema-format.md:18-57 | laying values out as prefix symbols, topic parameters in order and single, vector or map data carries the assignment, for all schemas whose data parameters have a place of their own (a vector's index is not negative) |
| `DecodeRoundTrip.RoundTrip` | lib/decoder/decode.go:40-294 | for every body with a name: under the schema of its params, or of its args where it has none, and of its format, or a single value where it names none, lay out, print, decode gives back the values of every assignment that survives float64 |
| `DecodeExactness.ExtractsIffAccepted` | lib/decoder/decode.go:228-294 | a printed value is read under exactly the types that accept it, and every other type is an error |
| `DecodeExactness.DecodesIff` | lib/decoder/decode.go:40-226 | for every schema body, event and event name: a printed event is decoded if and only if the body has a name, the name is asked for or none is, the prefix is met, there is a parameter (or argument) and every one has something to take; everything else gives "raw" |
| `DecodeExactness.CarriesIff` | lib/decoder/decode.go:40-226 | for every schema and event: the event carries some assignment exactly when it is decoded, its prefix topics are symbols, its map data is a map, and parameters of one name have one value |
| `DecodeExactness.DecodesIffCarries` | lib/decoder/decode.go:40-226 | so decoding and carrying coincide on schemas without empty prefixes and repeated names, unless data that is no map is read as one |
| `DecodeExactness.EmptyPrefixDecodes` | lib/decoder/decode.go:104-115 | an event decoded that carries no assignment: its topic is no symbol and meets an empty prefix |
| `DecodeExactness.RepeatedNameDecodes` | lib/decoder/decode.go:117-146 | another: two topic parameters of one name have different values, of which the earlier is lost |
| `DecodeExactness.KindNameDecodes` | lib/decoder/decode.go:148-174 | another: under a map schema a parameter called "error" is read from inside an error document |
| `DecodeForms.NamelessIsRaw` | lib/decoder/decode.go:88-94 | for any documents: without a body, or without a name in it, an event stays raw |
| `DecodeForms.ArgsAreParams` | lib/decoder/decode.go:95-97 | for any documents: where a body has no params its args are the params, and where it has some its args do not matter |
| `DecodeForms.AbsentFormatIsSingle` | lib/decoder/decode.go:98-100 | for any documents: an absent format is "single_value" |
| `DecodeForms.OneParamDecodes` | lib/decoder/decode.go:40-226 | a schema of one parameter decodes an event to the value its location text ("topic" or "topic_list", "data" or nothing), its index and the format name, if that has the type |
| `DecodeForms.OneParamDecodesOnly` | lib/decoder/decode.go:40-226 | and it decodes nothing else, except inside data that should be a map and is none |
| `DecodeForms.MinimalFormDecodes` | docs/sep-0048-naralabs-schema-format.md:31-42 | one argument without a location or a format is taken from the data, whatever its name |
| `DecodeForms.TwoTypesNeverDecode` | docs/sep-0048-naralabs-schema-format.md:31-42 | two arguments of different types without locations are both taken from the one value, so no event is decoded |
| `DecodeForms.DocumentedTransferNeverDecodes` | docs/sep-0048-naralabs-schema-format.md:33-42 | the documented example of such a body never decodes an event |
| `Text.EqualFoldIff` | lib/decoder/decode.go:51 | two texts are the same up to case exactly when they have one length and each pair of characters is the same letter |
| `Text.TrimSpaceIs` | lib/decoder/decode.go:122 | trimming takes the spaces off both ends, and nothing else |
| `DecodeForms.SymbolTopics` | lib/decoder/decode.go:296-317 | a topic's symbol is read under either spelling of its key, and from nothing else |
| `DecodeForms.OneKeyDocuments` | lib/decoder/decode.go:228-294 | what each type reads from any document of that key: truth values from truth values, small integers from numbers, text from everything |
| `DecodeForms.NothingElseIsRead` | lib/decoder/decode.go:228-260 | nothing is read from a document without that key, a string's symbol apart |
| `DecodeForms.ForeignEntries` | lib/decoder/decode.go:176-196 | of any entries the first whose key is the name, read as a symbol, gives the value; one that is no document spoils the map, and without one of the name nothing is read |
| `Bundles.CutBatches` | internal/module/registry/service/bundle_group.go:47-69 | the greedy loop splits the rows into batches of one publisher and at most 30 seconds from the first row, each as long as it can be |
| `Bundles.GreedyIsOptimal` | internal/module/registry/service/bundle_group.go:47-69 | no split of the same rows into such batches has fewer of them |
| `Bundles.MaximalIsUnique` | internal/module/registry/service/bundle_group.go:47-69 | the greedy split is the only one whose batches cannot be extended |
| `Bundles.FinalizeBundle` | internal/module/registry/service/bundle_group.go:81-115 | a bundle has its rows' highest version, latest update and verification and first author, is verified as soon as one row is, and was created when the earliest row behind the last one of zero time was |
| `Bundles.CreationIsEarliest` | internal/module/registry/service/bundle_group.go:90-92 | which is the earliest of all rows when none has zero time |
| `Bundles.GroupIntoBundles` | internal/module/registry/service/bundle_group.go:30-79 | the bundles' rows are a permutation of the published rows, the bundles are the maximal batches of them by time of creation and, at equal times, by event name, and they are shown by version and update |
| `Bundles.GroupingConserves` | internal/module/registry/service/bundle_group.go:30-79 | nothing is lost or duplicated by any such grouping |
| `Bundles.GroupingIsOptimal` | internal/module/registry/service/bundle_group.go:30-79 | no other split of those rows gives fewer bundles |
| `Bundles.PublishedAre` | internal/module/registry/service/bundle_group.go:30-36 | exactly the published rows are grouped, each as often as it is there |
| `Bundles.BatchesAreWindows` | internal/module/registry/service/bundle_group.go:41-69 | the rows are taken by time and, at equal times, by name; each batch has one publisher (its trimmed id) and spans at most 30 seconds; the row behind it has another publisher or is later than that |
| `Bundles.FirstAuthorIs` | internal/module/registry/service/bundle_group.go:96-98 | the author is that of the first row whose author is not blank, trimmed |
| `Bundles.ShownInOrder` | internal/module/registry/service/bundle_group.go:71-76 | bundles are shown by version, the highest first, and at equal versions the latest update first |
| `Bundles.FindBundleByVersion` | internal/module/registry/service/bundle_group.go:157-164 | the first bundle of the version, which is the latest updated one in display order, or none if there is none |
| `Registry.SchemaRepository.NextVersion` | internal/module/registry/repository/schema_repository.go:32-50 | one more than the highest version stored under the key, 1 if there is none |
| `Registry.SchemaRepository.Insert` | internal/module/registry/repository/schema_repository.go:52-98 | the row is added unless an index or the primary key rejects it, and then nothing changes |
| `Registry.SchemaRepository.MarkVerified` | internal/module/registry/repository/schema_repository.go:333-348 | one published row is promoted, or the table is unchanged |
| `Registry.SchemaRepository.VerifyContractForPublisher` | internal/module/registry/repository/schema_repository.go:394-500 | from every table that keeps its indexes, the archive-and-promote loop never fails once there is a target, and ends in the outcome in which every target has replaced what it supersedes; without a target nothing changes |
| `Registry.StepReplaces` | internal/module/registry/repository/schema_repository.go:444-494 | one turn of the loop archives, then promotes exactly one row without tripping the index, whatever targets were done before |
| `Registry.ReplacedIsValid` | db/migrations/postgres/005_schema_registry_tokens.up.sql:18-24 | the outcome keeps both unique indexes |
| `Registry.VerificationOutcome` | internal/module/registry/repository/schema_repository.go:394-500 | at commit each target is its event's only published verified row; every id, body and version is as before, and a row is archived only to make way for a target |
| `Registry.SucceedsIffCandidate` | internal/module/registry/repository/schema_repository.go:405-442 | verification finds a target if and only if the publisher has a published community row of the contract, and then one for each such event |
| `Registry.SuccessUsesUpCandidates` | internal/module/registry/repository/schema_repository.go:444-494 | a success takes exactly its targets out of the community rows, for every publisher and contract |
| `Registry.InsertInFull` | internal/module/registry/repository/schema_repository.go:52-98 | a row goes in exactly when its version fits the column and neither its id nor its version under the publisher's key is taken; it is a published community row of the fields given, and no other row changes |
| `Registry.MarkInFull` | internal/module/registry/repository/schema_repository.go:333-348 | marking goes through exactly when the row is published and its event has no other verified one; tier, wallet, time and update time of that row change, and nothing else |
| `Registry.VerificationInFull` | internal/module/registry/repository/schema_repository.go:394-500 | row by row: the highest waiting version of each event is verified for the wallet at the time given, the event's verified row is archived, all other rows stay, and it goes through exactly when a row is waiting |
| `PublishProtocol.InsertSucceedsIffStillNext` | internal/module/registry/service/schema_service.go:65-84 | whatever happened since the read, an insert goes through exactly when the version read is still the next one; a stale one is rejected by the index |
| `PublishProtocol.SecondInsertIsRejected` | internal/module/registry/service/schema_service.go:65-84 | of two sessions that read the same version the second is turned away and changes nothing |
| `PublishProtocol.MarkSucceedsIffNoOther` | internal/module/registry/repository/schema_repository.go:333-348 | promoting a single row goes through exactly when no other row of the event is the verified one |
| `PublishProtocol.StepKeepsInv` | internal/module/registry/repository/schema_repository.go:32-98 | every statement of every session keeps indexes and density |
| `PublishProtocol.VersionsAreAlwaysDense` | internal/module/registry/repository/schema_repository.go:32-98 | under every interleaving of any number of sessions the versions of each publisher and event are exactly 1..n, one row each |
| `PublishProtocol.EmptyTableIsDense` | internal/module/registry/repository/schema_repository.go:32-98 | that invariant holds at the start |
| `PublishProtocol.Publish` | internal/module/registry/service/schema_service.go:40-90 | without interference the row stored is a published community row of the fields given, its version one more than the publisher's rows of the event, up to the width of the column |
| `PublishProtocol.SessionSteps` | internal/module/registry/service/schema_service.go:65-84 | a read holds one more than the maximum for its session and changes no row; an insert uses that up and adds its row if it goes in |
| `PublishProtocol.OtherSteps` | internal/module/registry/repository/schema_repository.go:333-500 | the other statements change the rows as they say or not at all, and no session |
| `Publications.BuildContractPublications` | internal/module/registry/service/verify_service.go:274-368 | one publication for every contract with rows, in order of its first row, showing every event with rows once, in order of name, with its versions, its latest community and verified ones, and the flag |
| `Publications.FirstKeysAreKeys` | internal/module/registry/service/verify_service.go:280-290 | that order has every contract of the rows exactly once, no other, and further rows only add contracts behind |
| `Publications.EventIsShownAs` | internal/module/registry/service/verify_service.go:303-351 | each event is shown with a summary of each of its rows in order, and of the published community and verified rows of the highest version, wallet and time included; with none of these only if there is no such row |
| `Publications.FlagIff` | internal/module/registry/service/verify_service.go:354-358 | the flag is set if and only if some published community row of the contract has a version above that of every published verified row of its event |
| `Publications.ListedIsTarget` | internal/module/registry/service/verify_service.go:316-351 | the row listed as an event's latest community version is the one the transaction promotes |
| `Publications.ListingAgreesWithTransaction` | internal/module/registry/service/verify_service.go:274-368 | verification promotes exactly the rows so listed, event by event, succeeds exactly when one is listed, and so whenever the flag is set |
| `Publications.FinitelyManySuccesses` | internal/module/registry/repository/schema_repository.go:394-500 | over any run without new publications of the contract, at most as many verifications succeed as there were community rows |
| `Publications.OlderVersionStaysPromotable` | internal/module/registry/repository/schema_repository.go:405-415 | the flag is not necessary: a table where verification replaces version 2 by version 1 |
| `Publications.VerifyService.Consume` | internal/module/registry/repository/verify_challenge_repository.go:46-115 | a challenge is used once, before it expires, and each refusal is named |
| `Publications.VerifyService.VerifyContract` | internal/module/registry/service/verify_service.go:150-239 | a verification succeeds exactly when wallet, nonce and challenge are good, the wallet signed the message and is authorised, and there is something to verify; then it is the transaction's outcome, else the table is unchanged and the error names the first thing that is missing; the challenge is spent before the signature is looked at |
| `Throttles.Throttle.Wait` | lib/rpcchain/throttle.go:21-40 | one call computes the state, the time and the answer the lemmas below are about |
| `Throttles.WaitKeepsSpacing` | lib/rpcchain/throttle.go:21-40 | grants stay at least one interval apart, a cancelled call grants nothing, and every call let through is counted |
| `Throttles.WaitsNoLonger` | lib/rpcchain/throttle.go:21-40 | while time passes only in the timer a call is let through at once or one interval after the last grant, and only a cancelled context keeps it out |
| `Throttles.RefusesIff` | lib/rpcchain/throttle.go:21-40 | a limiting throttle turns a call away exactly when the last grant is less than an interval ago and the context is done |
| `Throttles.RateIsBounded` | lib/rpcchain/throttle.go:14-40 | after any sequence of calls with any pauses, cancelled ones included, a window of length W holds at most W/interval + 1 grants |
| `Throttles.RateExtremes` | lib/rpcchain/throttle.go:14-19 | an interval past 64 bits is negative, or 0 above 10^9 a second, and the throttle lets every call through; 0 requests a second mean the default of 10 |
| `Throttles.LimitsIff` | lib/rpcchain/throttle.go:14-24 | exactly the default and the rates whose interval is at least one nanosecond and below 2^63 have a positive interval |
| `Throttles.IntervalIs` | lib/rpcchain/throttle.go:14-19 | the interval is a second divided by the rate, rounded down to nanoseconds |
| `Throttles.UnlimitedRateIsFree` | lib/rpcchain/throttle.go:21-24 | under every other rate every call is let through at once |
| `Pools.NewPool` | lib/rpcchain/pool.go:29-43 | a pool needs an endpoint, and starts with none active, none failed and none down |
| `Pools.PickIs` | lib/rpcchain/pool.go:84-101 | a call starts at the active endpoint unless that is down, then at the first that is up, then at endpoint 0 |
| `Pools.Pool.PickStart` | lib/rpcchain/pool.go:84-101 | the scan computes that endpoint |
| `Pools.Pool.Call` | lib/rpcchain/pool.go:45-77 | the loop over the arrays computes the health, the time and the answer the lemmas below are about |
| `Pools.CallVisitsInRotation` | lib/rpcchain/pool.go:45-77 | endpoints take turns in rotation, skipping exactly those down at their turn; the call succeeds exactly when one answers, which ends it and becomes active, and else returns the last turn's error after every endpoint had its turn |
| `Pools.TurnsAreDistinct` | lib/rpcchain/pool.go:45-77 | no endpoint has two turns in a call |
| `PoolHealth.RunKeepsHealth` | lib/rpcchain/pool.go:45-77 | over any sequence of calls the 32-bit counter is the number of failures since the last success, and a deadline ahead means at least three of them |
| `PoolHealth.FailurePutsDown` | lib/rpcchain/pool.go:64-72 | every failure puts the endpoint down for thirty seconds exactly when the 32-bit counter then says three or more, so from the third in a row on until it turns negative; other endpoints keep their health |
| `PoolHealth.DownMeansThreeFailures` | lib/rpcchain/pool.go:29-77 | from a new pool: the active index is -1 or valid, and an endpoint that is down has failed three times since it last answered |
| `PoolHealth.TurnEffects` | lib/rpcchain/pool.go:48-73 | what one turn does: a skip changes nothing, an answer ends the failures and leaves all deadlines, a failure is counted and from three on puts the endpoint down for thirty seconds from then |
| `PoolHealth.DownForThirtySeconds` | lib/rpcchain/pool.go:45-77 | by the log of any run from a new pool: after a failure that puts an endpoint down, every turn of it within thirty seconds is skipped, in that call and all later ones, and a turn is skipped only after such a failure |
| `Retries.AttemptsAreBounded` | lib/rpcchain/retry.go:53-113 | for every function: at most MaxAttempts calls, all of them before a retryable error is given back, pauses only after retryable failures, each with the backoff due after the plain failures before it, however retry-after failures come in between |
| `Retries.BackoffIsClosedIff` | lib/rpcchain/retry.go:105-110 | that backoff is base at first and then base * 2^k capped at the maximum, for every k, if and only if both are below 2^62 |
| `Retries.PauseIsClosed` | lib/rpcchain/retry.go:86-95 | a pause is the retry-after up to its maximum, or the closed-form backoff, which jitter changes by at most a half |
| `Retries.JitterIsBounded` | lib/rpcchain/retry.go:136-143 | a jittered wait lies between half and one and a half of the backoff |
| `Retries.WaitingIsBounded` | lib/rpcchain/retry.go:53-113 | all pauses together are at most (MaxAttempts - 1) * max(1.5 * max(base, maximum), MaxRetryAfter) |
| `Retries.DoIsAChain` | lib/rpcchain/retry.go:53-113 | Do call by call: each call after the first follows a failure that can be retried, in the state that one left and after its pause; the answer is that of the last call, which succeeded, cannot be retried or was the last allowed, unless the context is done |
| `Retries.DefaultsAre` | lib/rpcchain/retry.go:54-65 | a policy without attempts, backoffs or retry-after has one attempt, half a second, thirty seconds and a minute |
| `Retries.JitterIs` | lib/rpcchain/retry.go:136-143 | a jittered wait is the base times one half and the draw, rounded down |
| `ResilientClients.ResilientClient.Call` | internal/client/stellar/resilient_client.go:198-205 | the retry loop around throttle and pool computes the composed call, objects and clock included |
| `ResilientClients.ResilientClient.FetchEvents` | internal/client/stellar/resilient_client.go:88-155 | the pagination loop computes the pagination the lemmas below are about |
| `Pagination.DoSettles` | lib/rpcchain/retry.go:53-113 | what one attempt keeps or gives, Do keeps or gives; a cancelled context is its only other error |
| `Pagination.SwitchIsReported` | internal/client/stellar/resilient_client.go:111-126 | once another endpoint than the starting one is active, the next page fails at the first attempt, with the re-anchor error unless the context is done or the last endpoint of the rotation is down |
| `Pagination.EndpointAffinity` | internal/client/stellar/resilient_client.go:93-155 | a pagination that starts with a known endpoint and returns without error had every page but the last answered by it, and the last by the endpoint noted |
| `Pagination.PagesAreAnswers` | internal/client/stellar/resilient_client.go:93-172 | every page of any pagination is what the endpoint noted with it answered, at some step, to the request for its position and cursor, for the contracts asked for and with their limit (1000 if none), and that cursor parses |
| `Pagination.PagesAreChained` | internal/client/stellar/resilient_client.go:94-154 | the events are the pages' in order; each page is asked for from where the one before led, and only if that one was not the last; the ledger returned is where the last page led |
| `Pagination.GoesOnOnlyWhile` | internal/client/stellar/resilient_client.go:141-150 | a page followed by another has a cursor and events, keeps below the limit and stays before the end ledger |
| `Pagination.EndsOnlyWhen` | internal/client/stellar/resilient_client.go:141-150 | the last page has no cursor or no events, or brings the count to the limit, or leads to the end ledger; the events returned are those of all pages |
| `Pagination.PositionAfter` | internal/client/stellar/resilient_client.go:130-138 | the position after a page is the furthest of the one before it, the ledger of its cursor and the latest ledger told |
| `Pagination.AbortIsReported` | internal/client/stellar/resilient_client.go:111-126 | a pagination that aborts reports the error of the page call after the pages it has |
| `Pagination.LedgerNeverFalls` | internal/client/stellar/resilient_client.go:130-153 | the position never moves below the start and never backwards |
| `Pagination.FewerThanLimitAndPage` | internal/client/stellar/resilient_client.go:145-147 | with a limit, the events before the last page, counted in 32 bits, are below it; when no page can make the count wrap, fewer events come back than the limit and the last page together |
| `PaginationStop.PaginationStops` | internal/client/stellar/resilient_client.go:94-154 | with a positive limit it stops within as many pages as the limit, for all servers whose pages are no longer than 2^32 less the limit |
| `PaginationStop.PaginationMayNotStop` | internal/client/stellar/resilient_client.go:145-147 | for every policy and environment without cancellation, while all endpoints are up: with one cursor that parses and does not reach the end ledger, a server of pages of at most 2^32 + 1 less the limit, or of single events without a limit, keeps it going for ever |
| `PaginationStop.PaginationStopsIff` | internal/client/stellar/resilient_client.go:94-172 | for every bound on the length of pages and whatever cursors parse: pagination stops for all servers within the bound exactly when the limit is positive and the bound at most 2^32 less the limit, when it starts at or past its end ledger, when the cursor given does not parse or none does that lies before the end, or when pages are empty |
| `Pagination.VisitsAreBounded` | internal/client/stellar/resilient_client.go:198-205 | a call gives each endpoint at most MaxAttempts turns |
| `Pagination.AllVisitsAreBounded` | internal/client/stellar/resilient_client.go:198-205 | and all of them together at most MaxAttempts for each |
| `EventStores.ExtractDerived` | internal/module/ingest/service/helpers.go:12-49 | the two loops collect the address and token rows of the events, in order |
| `EventStores.Warehouse.UpsertBatch` | internal/module/ingest/repository/event_repository_impl.go:23-88 | the rows that land are written in order, each replacing the row of its sort key; an error may come after any of them |
| `EventStores.PersistChunk` | internal/module/ingest/service/ingest_worker_service.go:205-217 | the three inserts of a chunk write a cut of its rows, and without an error all of them |
| `EventStores.Persist` | internal/module/ingest/service/ingest_worker_service.go:189-221 | whatever the chunk size and wherever an insert fails, what is written is a cut of the events' rows, and without an error it is all of them |
| `EventStores.CrashAndRerunConverge` | internal/module/ingest/service/ingest_worker_service.go:189-221 | for any list of events: after any number of attempts, each cut anywhere and under schemas of its own, a full pass leaves the three tables as if it had been the only one |
| `EventStores.SameDerived` | internal/module/ingest/service/helpers.go:12-49 | schemas change the semantic columns only, not the keys and not the derived rows |
| `EventStores.EventsAreStored` | internal/module/ingest/service/helpers.go:12-49 | the rows written for a list of events are, for each of them, itself under its key with its columns, every address it mentions with the role, and its transfer, and there are no others |
| `EventStores.LastRowWins` | internal/module/ingest/repository/event_repository_impl.go:23-88 | of the rows of one key the last one written is the one that is there |
| `IngestWorker.BuildFilterBatches` | internal/client/stellar/resilient_client.go:207-223 | the loop cuts the contract ids into slices of the batch size |
| `IngestWorker.BatchesCover` | internal/client/stellar/resilient_client.go:207-223 | every id is in one batch, in order, and all batches but the last are full |
| `IngestWorker.FirstCycleReadsRetention` | internal/module/ingest/service/helpers.go:51-69 | the first cycle of an unconfigured start reads exactly the ledgers below the head that are no older than the retention, and rescans nothing |
| `IngestWorker.NextCycleResumes` | internal/module/ingest/service/helpers.go:51-69 | after a completed cycle the next one starts at the cursor it wrote, whatever the configuration, and its rescan ends there and begins below, within the window and not below the first ledger |
| `IngestWorker.LedgerReadsBack` | config/config.go:275-296 | a start ledger in decimal is that ledger for every 32-bit number, and an error beyond |
| `IngestWorker.OffsetReadsBack` | config/config.go:280-290 | "latest-k" counts back from the head and stops at ledger 1, for every 32-bit k, and is an error beyond |
| `IngestWorker.StartTextIs` | config/config.go:275-296 | spaces around a start text, the case of "latest-" and leading zeros do not matter, and blank is ledger 0 |
| `IngestWorker.OtherStartText` | config/config.go:275-296 | any other start text is an error, of the offset behind "latest-" and else of the ledger |
| `IngestWorker.CursorRepository.Upsert` | internal/module/ingest/repository/cursor_repository_impl.go:47-63 | the stored ledger becomes the greater one, and other networks keep theirs |
| `IngestWorker.FetchAndPersist` | internal/module/ingest/service/ingest_worker_service.go:141-167 | the loop over the batches writes a cut of what it fetched, stops at the first failure with its reason, and without one has written all of it and knows the furthest ledger |
| `IngestWorker.IngestWorkerService.MaybeRescanReorg` | internal/module/ingest/service/ingest_worker_service.go:223-260 | the rescan takes place exactly when it is due, writes a cut of its window, and its time is noted only if it is complete |
| `IngestWorker.IngestWorkerService.Collect` | internal/module/ingest/service/ingest_worker_service.go:132-167 | rescan and fetches together write a cut of all they were to write, and without an error all of it; only outside the rescan does a switched endpoint count as a re-anchor |
| `IngestWorker.IngestWorkerService.IngestOnce` | internal/module/ingest/service/ingest_worker_service.go:103-187 | the cursor never falls, moves only in a completed cycle and after everything fetched is in the tables, stays put on an error or a re-anchor; the cycle is caught up exactly as it reports, and completes when nothing fails; the time of a rescan is noted only with all of it in the tables |
| `IngestWorker.PlanAsksForAll` | internal/module/ingest/service/ingest_worker_service.go:141-147 | for every plan: the fetches ask for all configured contracts, in order and at most 25 at a time (once for all if none is configured), from the start to the head, with the configured limit and no cursor; the rescan asks for the same from the window's start to the start, and is planned exactly when it is due |
| `IngestWorker.CompletedCycleIsWhole` | internal/module/ingest/service/ingest_worker_service.go:103-187 | a completed cycle has fetched all that, from the cursor it found to the head, and all rows of what it fetched are written; the cursor it writes is the furthest ledger told, or the head if that is no further |
| `IngestRerun.RerunsConverge` | internal/module/ingest/service/ingest_worker_service.go:103-260 | over whole cycles: however many fail at the same cursor, head and events, cut anywhere, under any schemas and with restarts in between, once a cycle completes the tables are as after one undisturbed cycle, with one undisturbed rescan if any of them had one, also when the completing cycle skips it because its time is noted |
| `IngestRerun.StaysDue` | internal/module/ingest/service/ingest_worker_service.go:232-260 | a rescan that was due and whose time was not noted stays due until the next attempt at it, over restarts too |
| `IngestWorker.CursorAdvances` | internal/module/ingest/service/ingest_worker_service.go:164-174 | the cursor a completed cycle writes is strictly above the one it read, for all start ledgers and answers |
| `IngestWorker.CursorNeverFalls` | internal/module/ingest/service/ingest_worker_service.go:103-187 | over any run of cycles, failed, re-anchored, idle or completed, the cursor never falls and has risen by at least one for every completed cycle |
| `IngestWorker.HeadIsReached` | internal/module/ingest/service/ingest_worker_service.go:103-187 | a head is reached by as many completed cycles as it is ahead of the cursor, whatever cycles lie between them; a cycle that sees it then has nothing to do |
| `IngestWorker.CompletionsAreBounded` | internal/module/ingest/service/ingest_worker_service.go:103-187 | while the head stays where it is, no more cycles than that complete |
| `IngestWorker.PollStaysInBounds` | internal/module/ingest/service/helpers.go:71-93 | from any interval it grows by half up to the upper bound while caught up and halves down to the lower one while behind, rounding down, and once between its bounds it stays there |
| `Backfill.TilesCover` | internal/module/ingest/service/backfill_service.go:80-106 | in a tiling every ledger of the range is in a window, windows do not overlap and none reaches outside |
| `Backfill.TilesIffWalkable` | internal/module/ingest/service/backfill_service.go:80-106 | the windows tile the range, in ceil(length / batch) of them, if and only if the 32-bit sums stay in range; else they do not for any number of windows |
| `Backfill.RoomForABatch` | internal/module/ingest/service/backfill_service.go:80-106 | it is enough that the end is below 2^32 - 1 and a batch above it still fits |
| `Backfill.WrapBreaks` | internal/module/ingest/service/backfill_service.go:85-88 | when the last start is too high the walk is no tiling, and within as many windows as a tiling would have, one ends below its start |
| `Backfill.BackfillRepository.Start` | internal/module/ingest/repository/backfill_repository_impl.go:49-80 | the network's row is reset to the range, running, from its first ledger |
| `Backfill.BackfillRepository.UpdateProgress` | internal/module/ingest/repository/backfill_repository_impl.go:82-96 | an error unless the row is running, else only the next ledger changes |
| `Backfill.BackfillRepository.Complete` | internal/module/ingest/repository/backfill_repository_impl.go:98-108 | the row is completed, its next ledger kept |
| `Backfill.WalkWindows` | internal/module/ingest/service/backfill_service.go:80-106 | the loop fills windows of the walk in order, and the stored next ledger is one past the last one filled, wherever it stops |
| `Backfill.Run` | internal/module/ingest/service/backfill_service.go:49-116 | each early error leaves the table alone; else the windows done were filled and recorded in order, the row tells how far the walk got and is completed exactly when it is over, and what stops a run is so: a done context, or the next window that could not be filled or recorded; when nothing fails it is over exactly when the walk is |
| `Backfill.RangeIs` | internal/module/ingest/service/backfill_service.go:49-78 | the range ends at the head if no end is given, and windows have 200 ledgers if no size is |
| `Backfill.WindowIs` | internal/module/ingest/service/backfill_service.go:85-88 | a window has as many ledgers as its size says, or as are left |
| `Backfill.RowTells` | internal/module/ingest/repository/backfill_repository_impl.go:49-108 | the row holds the range and the ledger behind the last window done, and runs until all is done |
| `RealtimeHub.Hub.Register` | lib/realtime/hub.go:36-50 | a client is added unless the hub is full, with an open and empty channel |
| `RealtimeHub.Hub.Unregister` | lib/realtime/hub.go:52-63 | a client in the map leaves it and its channel is closed; a second time nothing happens |
| `RealtimeHub.Hub.Broadcast` | lib/realtime/hub.go:65-90 | the message is put at the end of the buffer of every client of the network with fewer than 32 messages pending, and nothing else changes; no send is on a closed channel |
| `RealtimeHub.Hub.Close` | lib/realtime/hub.go:131-138 | the map is emptied and every channel in it closed once |
| `RealtimeHub.Client.Pump` | lib/realtime/hub.go:115-129 | a turn of the pump takes the oldest message unless its context is done; it ends exactly when the context is done, a closed channel is drained, or the message could not be written |
| `HubProtocol.StepKeepsInv` | lib/realtime/hub.go:36-138 | every critical section, send and receive keeps the invariant |
| `HubProtocol.HubIsSafe` | lib/realtime/hub.go:26-138 | over all interleavings from a new hub: no panic, a client is in the map exactly while its channel is open, a channel is closed once, the map stays within its maximum, what a pump takes is, in order, part of what was sent, and no client is offered one broadcast twice |
| `HubProtocol.BroadcastReachesAll` | lib/realtime/hub.go:79-88 | a broadcast that has come to its end has offered its message exactly once to every client then in the map for its network, and never to any other client; it is pending there or taken, exactly once, unless 32 messages were pending when it came |
| `HubProtocol.SerialsTellApart` | lib/realtime/hub.go:79-88 | that is this broadcast's own message: broadcasts under way have different numbers, below those to come |
| `HubProtocol.NothingIsMissed` | lib/realtime/hub.go:79-129 | over all interleavings: a client that never has 32 messages pending gets every message it is offered, in order |
| `HubProtocol.OfferStep` | lib/realtime/hub.go:84-87 | an offer is appended if fewer than 32 messages are pending, and else only counted |
| `HubProtocol.PumpStep` | lib/realtime/hub.go:115-129 | a pump takes the oldest message |
| `HubProtocol.QuietStep` | lib/realtime/hub.go:36-138 | no other step touches what is pending, and a channel is closed exactly when its client leaves the map |
| `HubProtocol.StepsOfTheMap` | lib/realtime/hub.go:36-138 | what each step does to the map and to the broadcasts under way; the map changes only between broadcasts |
| `HubProtocol.PanicsIff` | lib/realtime/hub.go:52-113 | what panics: an offer to a closed channel, or closing one twice |
| `HubProtocol.NewHub` | lib/realtime/hub.go:26-34 | a new hub is empty, with room for 500 clients if it is not told otherwise |
| `HubProtocol.ClosedStaysClosed` | lib/realtime/hub.go:52-63 | a closed channel is never opened, closed or sent on again |

## Left out

- HTTP handlers, OpenAPI, the command line, email, logging, Redis and the websocket transport.
- JSON text, XDR bytes, base64 and strkey: documents and Soroban values are datatypes, and addresses carry their rendered text. Go's case-insensitive matching of JSON keys, duplicate keys and fractions are not modelled; numbers are integers.
- The depth limit of the XDR library and of the JSON parser: values and documents are of any finite depth.
- Case folding and lower-casing outside ASCII.
- An int64 conversion of a float64 out of range is taken as amd64's -2^63; Go leaves it open. The same holds for a throttle interval out of range and for jittered durations of 2^62 nanoseconds and more.
- The decoder's text summary, whose field order Go leaves open, and the human-readable previews other than stroop formatting.
- The search of the decoder through documents of a single key: the two lookups before it have already found whatever it could find.
- Clean-up of publish input, ownership of a project and the wording of errors; a signature and an authorised wallet are arbitrary predicates.
- Postgres isolation levels, deleting users, and ClickHouse merges and partitions: statements and the verification transaction are atomic, and tables are maps in which the last write wins. The `ingested_at` column orders writes and is not kept.
- Resilient client: the retry loop is written at its one call site, because a Dafny function value cannot change the pool and the throttle; the error text that decides whether a failure is retryable is part of the arbitrary answer. The cache of per-endpoint clients is not modelled. Which cursors the RPC library parses, and which ledger the client reads off them, are arbitrary functions; a cursor that does not parse is an error, as in the code.
- Concurrent use of one pool or throttle: the client is called by one goroutine at a time. The hub and the registry are the parts modelled under interleaving.
- IngestWorker.PollStaysInBounds: on unbounded durations; the code's sum wraps only from two thirds of 2^63 nanoseconds on.
- A clock outside the range of a 64-bit nanosecond count. Rates of the throttle are real numbers, and float64 has no upper end here: documents with integers of 2^1024 and more, which fail to unmarshal, are not modelled.
- ResilientClients.ResilientClient.FetchEvents: gives up after `fuel` pages, because the loop need not end; `PaginationStop.PaginationStopsIff` says when it does.
- Backfill.Run: gives up after `fuel` windows for the same reason; what a window writes is one yes or no here, its rows being those of `EventStores.PersistChunk`, and the Horizon lookup only logs.
- IngestWorker.IngestWorkerService.IngestOnce: one set of schemas for a cycle; a cursor write that fails leaves the cursor as it was, and a crash inside a cycle is a batch insert or a cursor write that fails; the realtime announcement of new events is not modelled.
- Completeness of ingestion: the pagination raises its position to the server's latest ledger even with a cursor left, so only "stored before the cursor moves" is claimed.
- The replay service, the account, key and token services, and configuration other than the start ledger.
- RealtimeHub.Hub.SendTo: asks for a client still in the map; the code takes no lock there, and may send on a closed channel after an unregistration.
- Hub.Close under interleaving is one step, as the write lock shuts out everything but receives, and those commute with it.
