# PokeBE core, modelled in Dafny

PokeBE is a Pokédex backend: a Ktor API server over PostgreSQL, plus a Python
tool that fills the database from PokeAPI's CSV dumps and from its sprite
repository. This project models the parts of it that decide things, and
proves what they promise:

- **The request-validation framework** (`ValidationDelegate.kt`):
  - the step chain (`ValidationStart`, `ValidationPart.fold`) and the rule library (`atLeast`, `atMost`, `inRange`, `matches`, `int`, `long`, `boolean`, `entryIn`), in `validation.dfy`;
  - the required and optional delegates with their mutable result slot, and the `Validator` with its mutable delegate list and `run()`, as classes in `validation_run.dfy`.
- **The error hierarchy** (`ApiError.kt`): the four sealed kinds, their constructors' error codes, `equals`, and `hashCode` on wrapping 32-bit integers (`errors.dfy`).
- **The status page** (`StatusPage.kt`): the classification of throwables onto HTTP statuses 400, 404, 500 and 501 (section 15 of RFC 9110), and the response bodies (`statuspage.dfy`).
- **The pokemon list repository** (`DatabasePokemonListRepository.kt`): the ORDER BY fragments, the LIMIT/OFFSET arithmetic on 32-bit `Int`s, `hasNext` and `take` (`pokemon_list.dfy`). The database is modelled as a function from the ORDER BY clause to the ordered rows.
- **The sprite ingester** (`sprite_ingester.py`):
  - file-name parsing and path flags, in `sprite_paths.dfy`;
  - the version-name alternation regex and `findall`, in `version_match.dfy`;
  - the five `_generate_*` row generators, as methods with loops proved against row functions over a directory listing, in `sprite_rows.dfy`.
- **The CSV ingester** (`csv_ingester.py`), in `csv_ingest.dfy`:
  - Python's `int()` on strings;
  - `_int_or_none` and the id-to-enum tables;
  - the column mappers of every `_ingest_*` block and `_map_csv`;
  - `_load_static_type_lookup`;
  - `_run_ingest` and the order of `ingest_csv_files`, over a `Connection` class that records what was loaded and how often it was committed.

Shared helpers:

- `wrappers.dfy`: Option and Result.
- `text.dfy`: ASCII digits and lower-casing; non-ASCII characters are left out.
- `sorting.dfy`: Python's stable `sorted` with a key.
- `seqs.dfy`: the concatenation that nested row-emitting loops compute.

Kotlin exceptions are values of the `Errors.Throwable` datatype. Python exceptions are values of `CsvIngest.PyError`. A block that raises is a `Result` that is `Err`.

## Model

| member | source | states |
|---|---|---|
| Validation.Apply | core/domain/src/main/kotlin/com/patrickhoette/pokebe/core/domain/validation/ValidationDelegate.kt:128-211 | each rule's lambda: a successful rule yields a value of the rule's output type; only `entryIn` can throw rather than fail |
| Validation.Fold | core/domain/src/main/kotlin/com/patrickhoette/pokebe/core/domain/validation/ValidationDelegate.kt:49-68 | folding a start yields its input; a part's result has the chain's type; a fold only ever raises `RuleFailedError` or an exception a rule's lambda threw |
| Validation.BuildType | core/domain/src/main/kotlin/com/patrickhoette/pokebe/core/domain/validation/ValidationDelegate.kt:54-58 | a chain built from rules has the type the rules compose to |
| Validation.BuildPrefixTyped | core/domain/src/main/kotlin/com/patrickhoette/pokebe/core/domain/validation/ValidationDelegate.kt:54-58 | every prefix of a well-typed chain is well typed |
| Validation.ChainFailsAt | core/domain/src/main/kotlin/com/patrickhoette/pokebe/core/domain/validation/ValidationDelegate.kt:60-66 | when the first k rules succeed and rule k fails, the fold raises `RuleFailedError("<name> <hint>, but instead was: '<value>'")` on rule k's input |
| Validation.ChainStopsAtFirstFailure | core/domain/src/main/kotlin/com/patrickhoette/pokebe/core/domain/validation/ValidationDelegate.kt:60-66 | when the first k rules succeed and rule k fails, exactly rules 0..k are applied: no rule after k ever runs |
| Validation.ChainAppliesEveryRule | core/domain/src/main/kotlin/com/patrickhoette/pokebe/core/domain/validation/ValidationDelegate.kt:60-66 | when the fold succeeds, every rule of the chain was applied, in order |
| Validation.InRangeIsAtLeastAndAtMost | core/domain/src/main/kotlin/com/patrickhoette/pokebe/core/domain/validation/ValidationDelegate.kt:128-153 | `inRange(lo..hi)` succeeds iff `atLeast(lo)` and `atMost(hi)` both do; both bounds are inclusive; the value passes unchanged |
| Validation.MatchesCaseSensitivity | core/domain/src/main/kotlin/com/patrickhoette/pokebe/core/domain/validation/ValidationDelegate.kt:155-166 | `matches` without ignoring case succeeds iff the strings are equal; ignoring case succeeds iff `equalsIgnoreCase` holds, which accepts the string itself and only strings of the same length |
| Validation.ToIntegerOrNull | core/domain/src/main/kotlin/com/patrickhoette/pokebe/core/domain/validation/ValidationDelegate.kt:168-180 | `toIntOrNull`/`toLongOrNull` only yield values inside the signed 32-bit or 64-bit range |
| Validation.ParseDecimalRoundTrip | core/domain/src/main/kotlin/com/patrickhoette/pokebe/core/domain/validation/ValidationDelegate.kt:168-180 | the decimal grammar reads back the decimal rendering of every integer |
| Validation.ParseIntegerRoundTrip | core/domain/src/main/kotlin/com/patrickhoette/pokebe/core/domain/validation/ValidationDelegate.kt:168-180 | `int()` and `long()` on a rendered integer yield it iff it fits the type's range, and fail otherwise |
| Validation.ParseIntegerRejectsMalformed | core/domain/src/main/kotlin/com/patrickhoette/pokebe/core/domain/validation/ValidationDelegate.kt:168-180 | empty strings, lone signs and strings with a non-digit fail without throwing |
| Validation.ParseBooleanExact | core/domain/src/main/kotlin/com/patrickhoette/pokebe/core/domain/validation/ValidationDelegate.kt:196-201 | `boolean()` succeeds exactly on "true"/"false" in any letter case, with that value, and reads back a printed boolean |
| Validation.LowerAll | core/domain/src/main/kotlin/com/patrickhoette/pokebe/core/domain/validation/ValidationDelegate.kt:204 | the allowed options are the constant names lower-cased, one per constant, in order |
| Validation.EntryInAsWritten | core/domain/src/main/kotlin/com/patrickhoette/pokebe/core/domain/validation/ValidationDelegate.kt:203-211 | as written, `entryIn` fails iff the raw input is no lower-cased constant name, and succeeds only for a constant whose name is already lower case |
| Validation.EntryInSortingThrows | core/domain/src/main/kotlin/com/patrickhoette/pokebe/core/domain/validation/ValidationDelegate.kt:203-211 | `entryIn<PokemonSorting>()` on `id` throws (as written), while the corrected rule yields `Id` |
| Validation.MemberNamed | core/domain/src/main/kotlin/com/patrickhoette/pokebe/core/domain/validation/ValidationDelegate.kt:203-211 | the lookup by lower-cased name finds a constant iff the input is one of the allowed options, and the constant found has that lower-cased name |
| Validation.EntryInIntendedNeverThrows | core/domain/src/main/kotlin/com/patrickhoette/pokebe/core/domain/validation/ValidationDelegate.kt:203-211 | the corrected `entryIn` never throws, succeeds exactly on the allowed options with the matching constant, and fails exactly when the written one fails |
| ValidationRun.Thrown | core/domain/src/main/kotlin/com/patrickhoette/pokebe/core/domain/validation/ValidationDelegate.kt:99-122 | an optional delegate throws nothing; a required delegate with null input throws `"<name> should not be null"` |
| ValidationRun.Stored | core/domain/src/main/kotlin/com/patrickhoette/pokebe/core/domain/validation/ValidationDelegate.kt:99-122 | only a required delegate that does not throw writes its slot, and it writes `Completed` with the fold's value |
| ValidationRun.ValidationDelegate.constructor | core/domain/src/main/kotlin/com/patrickhoette/pokebe/core/domain/validation/ValidationDelegate.kt:77-83 | a new delegate holds its policy, input, builder and name, and its slot is `NotInitialized` |
| ValidationRun.ValidationDelegate.GetValue | core/domain/src/main/kotlin/com/patrickhoette/pokebe/core/domain/validation/ValidationDelegate.kt:90-95 | `getValue` returns the value iff the slot is `Completed`, else raises `IllegalStateException` with the source's message |
| ValidationRun.ValidationDelegate.Invoke | core/domain/src/main/kotlin/com/patrickhoette/pokebe/core/domain/validation/ValidationDelegate.kt:97-122 | `invoke()` throws what `Thrown` says and leaves the slot as `After` says |
| ValidationRun.AbortIndex | core/domain/src/main/kotlin/com/patrickhoette/pokebe/core/domain/validation/ValidationDelegate.kt:235-251 | the index of a delegate whose exception `run()` does not catch, or the count of delegates when there is none |
| ValidationRun.AbortIndexIsFirst | core/domain/src/main/kotlin/com/patrickhoette/pokebe/core/domain/validation/ValidationDelegate.kt:235-251 | no delegate before the abort index aborts, so it is the first uncaught exception |
| ValidationRun.AbortIndexAt | core/domain/src/main/kotlin/com/patrickhoette/pokebe/core/domain/validation/ValidationDelegate.kt:235-251 | conversely, the first delegate that aborts is at the abort index, and with none aborting the index is the count |
| ValidationRun.AbortIndexOfPrefix | core/domain/src/main/kotlin/com/patrickhoette/pokebe/core/domain/validation/ValidationDelegate.kt:235-251 | an abort in a prefix of the delegates is the abort of the whole run |
| ValidationRun.FailuresInRegistrationOrder | core/domain/src/main/kotlin/com/patrickhoette/pokebe/core/domain/validation/ValidationDelegate.kt:235-251 | the collected failures are one per failing delegate, each that delegate's error, in strictly increasing registration order |
| ValidationRun.FailingIndicesComplete | core/domain/src/main/kotlin/com/patrickhoette/pokebe/core/domain/validation/ValidationDelegate.kt:235-251 | every delegate that throws `RuleFailedError` is listed |
| ValidationRun.RunFailsIffSomeDelegateFails | core/domain/src/main/kotlin/com/patrickhoette/pokebe/core/domain/validation/ValidationDelegate.kt:235-251 | without an abort, `run()` throws iff some delegate fails, and then throws one `ValidationFailedError` holding all failures |
| ValidationRun.RunStep | core/domain/src/main/kotlin/com/patrickhoette/pokebe/core/domain/validation/ValidationDelegate.kt:236-248 | one iteration of the run loop appends that delegate's `RuleFailedError`, if it throws one, to the collected failures |
| ValidationRun.OptionalNeverCompletes | core/domain/src/main/kotlin/com/patrickhoette/pokebe/core/domain/validation/ValidationDelegate.kt:104-105 | as written, an optional delegate neither throws nor fills its slot, so it stays `NotInitialized` after `run()` |
| ValidationRun.IntendedStored | core/domain/src/main/kotlin/com/patrickhoette/pokebe/core/domain/validation/ValidationDelegate.kt:99-122 | the corrected optional delegate completes with null on a null input, and otherwise completes iff its chain does |
| ValidationRun.IntendedDelegateCompletesUnlessItThrows | core/domain/src/main/kotlin/com/patrickhoette/pokebe/core/domain/validation/ValidationDelegate.kt:99-122 | with the correction, every delegate that does not throw is readable afterwards; required delegates are unchanged |
| ValidationRun.Validator.Bindings | core/domain/src/main/kotlin/com/patrickhoette/pokebe/core/domain/validation/ValidationDelegate.kt:217 | the registered delegates' immutable parts, in registration order |
| ValidationRun.Validator.constructor | core/domain/src/main/kotlin/com/patrickhoette/pokebe/core/domain/validation/ValidationDelegate.kt:215-217 | a new validator has no delegates |
| ValidationRun.Validator.Validate | core/domain/src/main/kotlin/com/patrickhoette/pokebe/core/domain/validation/ValidationDelegate.kt:219-233 | registering appends exactly one fresh, uninitialised delegate to the end of the list |
| ValidationRun.Validator.ValidateRequired | core/domain/src/main/kotlin/com/patrickhoette/pokebe/core/domain/validation/ValidationDelegate.kt:219-225 | `validateRequired` appends one fresh required delegate |
| ValidationRun.Validator.ValidateOptional | core/domain/src/main/kotlin/com/patrickhoette/pokebe/core/domain/validation/ValidationDelegate.kt:227-233 | `validateOptional` appends one fresh optional delegate |
| ValidationRun.Validator.InvokeAt | core/domain/src/main/kotlin/com/patrickhoette/pokebe/core/domain/validation/ValidationDelegate.kt:238-245 | invoking delegate i changes only that delegate's slot |
| ValidationRun.Validator.InvokeAll | core/domain/src/main/kotlin/com/patrickhoette/pokebe/core/domain/validation/ValidationDelegate.kt:236-247 | the delegate loop collects exactly the rule failures of the delegates, or stops with the first uncaught exception, and leaves each invoked delegate's slot as its `invoke()` does |
| ValidationRun.Validator.Run | core/domain/src/main/kotlin/com/patrickhoette/pokebe/core/domain/validation/ValidationDelegate.kt:235-251 | `run()` throws exactly `RunThrows` of the registered delegates and leaves each slot as its own `invoke()` does, up to the aborting delegate |
| Errors.NewInternalServerError | entity/src/main/kotlin/com/patrickhoette/pokebe/entity/core/error/ApiError.kt:45-53 | every `InternalServerError` constructor sets `DevDoneGoofed` and keeps the cause and message given; given only a cause, the message is the cause's `toString()` |
| Errors.NewApiError | entity/src/main/kotlin/com/patrickhoette/pokebe/entity/core/error/ApiError.kt:25-39 | the other three kinds keep the error code passed in, the cause and the message; given only a cause, the message is the cause's `toString()` |
| Errors.EqualsIsValueEquality | entity/src/main/kotlin/com/patrickhoette/pokebe/entity/core/error/ApiError.kt:55-59 | `equals` compares kind, message, error code and cause, where a foreign cause compares by identity; when distinct instances always differ in value, it holds iff the other throwable is the same `ApiError` value |
| Errors.DistinctCausesAreNotEqual | entity/src/main/kotlin/com/patrickhoette/pokebe/entity/core/error/ApiError.kt:55-59 | two errors around two distinct instances of one foreign exception, with one message, are not equal |
| Errors.CauseOnlyMessageExample | entity/src/main/kotlin/com/patrickhoette/pokebe/entity/core/error/ApiError.kt:51 | an `InternalServerError` around an empty `ValidationFailedError` has the message `ValidationFailedError(failures=[])` |
| Errors.StringHash | entity/src/main/kotlin/com/patrickhoette/pokebe/entity/core/error/ApiError.kt:62 | `String.hashCode()` over the string's UTF-16 code units stays a 32-bit value |
| Errors.StringHashClosedForm | entity/src/main/kotlin/com/patrickhoette/pokebe/entity/core/error/ApiError.kt:62 | the hash is the sum of the UTF-16 units weighted by powers of 31, reduced once to 32 bits |
| Errors.StringHashExamples | entity/src/main/kotlin/com/patrickhoette/pokebe/entity/core/error/ApiError.kt:62 | a character above U+FFFF is hashed as its surrogate pair |
| Errors.HashCode | entity/src/main/kotlin/com/patrickhoette/pokebe/entity/core/error/ApiError.kt:61-66 | `hashCode()` stays a 32-bit value |
| Errors.HashCodeClosedForm | entity/src/main/kotlin/com/patrickhoette/pokebe/entity/core/error/ApiError.kt:61-66 | the three wrapping steps equal `31*(31*h(message)+h(cause))+h(errorCode)` wrapped once |
| Errors.EqualsImpliesSameHash | entity/src/main/kotlin/com/patrickhoette/pokebe/entity/core/error/ApiError.kt:55-66 | errors that are `equals` have equal `hashCode`s, through nested causes and failure lists, when one instance has one identity hash |
| StatusPage.StatusValue | api/src/main/kotlin/com/patrickhoette/pokebe/api/plugin/StatusPage.kt:36-41 | Bad Request is 400, Not Found 404, Internal Server Error 500 and Not Implemented 501 |
| StatusPage.StatusClassification | api/src/main/kotlin/com/patrickhoette/pokebe/api/plugin/StatusPage.kt:59-69 | `ValidationFailedError` gives 400 before any other case; a non-`ApiError` gives 500; an `ApiError` gives 500 iff it is `InternalServerError`, and a 4xx iff it is a bad-request or not-found error; every status is one of 400, 404, 500, 501 |
| StatusPage.ApiStatusInjective | api/src/main/kotlin/com/patrickhoette/pokebe/api/plugin/StatusPage.kt:63-68 | different `ApiError` kinds never share a status |
| StatusPage.ApiErrorStatus | api/src/main/kotlin/com/patrickhoette/pokebe/api/plugin/StatusPage.kt:63-68 | `BadRequestError` is answered with 400, `NotFoundError` 404, `InternalServerError` 500 and `NotImplementerError` 501, and no other kind gets that status |
| StatusPage.ApiErrorResponse | api/src/main/kotlin/com/patrickhoette/pokebe/api/plugin/StatusPage.kt:51-55 | an `ApiError`'s body carries its own error code and its message when it has one, and nothing else |
| StatusPage.ListOfNotNull | api/src/main/kotlin/com/patrickhoette/pokebe/api/plugin/StatusPage.kt:54-56 | `listOfNotNull(message)` is empty for no message and the message alone otherwise |
| StatusPage.PresentMessages | api/src/main/kotlin/com/patrickhoette/pokebe/api/plugin/StatusPage.kt:49 | the validation response lists at most one message per failure |
| StatusPage.PresentMessagesAppend | api/src/main/kotlin/com/patrickhoette/pokebe/api/plugin/StatusPage.kt:49 | the messages of a list are those of its two parts, in order, so on any mix of failures the present messages keep list order |
| StatusPage.PresentMessagesOfOne | api/src/main/kotlin/com/patrickhoette/pokebe/api/plugin/StatusPage.kt:49 | one failure contributes its message when it has one, and nothing otherwise |
| StatusPage.PresentMessagesMember | api/src/main/kotlin/com/patrickhoette/pokebe/api/plugin/StatusPage.kt:49 | a message is listed iff some failure carries it |
| StatusPage.PresentMessagesInOrder | api/src/main/kotlin/com/patrickhoette/pokebe/api/plugin/StatusPage.kt:47-50 | when every failure has a message, the response lists exactly those messages in failure order |
| StatusPage.NoMessageDropped | api/src/main/kotlin/com/patrickhoette/pokebe/api/plugin/StatusPage.kt:47-50 | failures without a message contribute nothing |
| StatusPage.Respond | api/src/main/kotlin/com/patrickhoette/pokebe/api/plugin/StatusPage.kt:35-41 | the response's `code` is the numeric value of the status it is sent with |
| StatusPage.InternalServerErrorResponse | api/src/main/kotlin/com/patrickhoette/pokebe/api/plugin/StatusPage.kt:51-55 | an `InternalServerError` is answered with 500 and `DevDoneGoofed` |
| StatusPage.RunFailureResponse | api/src/main/kotlin/com/patrickhoette/pokebe/api/plugin/StatusPage.kt:46-50 | a run that fails on rule failures is answered with 400, no error code, and one message per failing delegate in registration order |
| StatusPage.RunAbortResponse | api/src/main/kotlin/com/patrickhoette/pokebe/api/plugin/StatusPage.kt:56 | a run aborted by a foreign exception is answered with 500, `DevDoneGoofed` and that exception's message |
| PokemonListRepository.OrderByInjective | pokemon/data/src/main/kotlin/com/patrickhoette/pokebe/pokemon/data/list/DatabasePokemonListRepository.kt:43-50 | each sort and order pair gives its own ORDER BY fragments (`p.id`/`p.natural_order`, `ASC`/`DESC`) |
| PokemonListRepository.Execute | pokemon/data/src/main/kotlin/com/patrickhoette/pokebe/pokemon/data/list/DatabasePokemonListRepository.kt:52-71 | LIMIT/OFFSET: a negative value fails; otherwise at most `limit` rows, those of the ordered result from `offset` on |
| PokemonListRepository.Take | pokemon/data/src/main/kotlin/com/patrickhoette/pokebe/pokemon/data/list/DatabasePokemonListRepository.kt:77 | `take(n)` fails for negative n and is otherwise the first min(n, size) rows |
| PokemonListRepository.GetPokemonList | pokemon/data/src/main/kotlin/com/patrickhoette/pokebe/pokemon/data/list/DatabasePokemonListRepository.kt:37-79 | page and page size are echoed unchanged, and the list holds at most `pageSize` rows |
| PokemonListRepository.Window | pokemon/data/src/main/kotlin/com/patrickhoette/pokebe/pokemon/data/list/DatabasePokemonListRepository.kt:65-69 | a window holds consecutive rows of the ordered result |
| PokemonListRepository.PageOf | pokemon/data/src/main/kotlin/com/patrickhoette/pokebe/pokemon/data/list/DatabasePokemonListRepository.kt:68-69 | a page holds at most `pageSize` rows |
| PokemonListRepository.PageWindow | pokemon/data/src/main/kotlin/com/patrickhoette/pokebe/pokemon/data/list/DatabasePokemonListRepository.kt:52-78 | without overflow, the list is exactly page `page` of the ordered rows and `hasNext` holds iff rows exist beyond it |
| PokemonListRepository.WhenListingSucceeds | pokemon/data/src/main/kotlin/com/patrickhoette/pokebe/pokemon/data/list/DatabasePokemonListRepository.kt:68-77 | the listing succeeds iff `0 <= pageSize < Int.MAX_VALUE` and the wrapped offset is non-negative |
| PokemonListRepository.DefaultRequest | pokemon/api/src/main/kotlin/com/patrickhoette/pokebe/pokemon/api/list/PokemonListController.kt:52-57 | the repository's answer to the controller's default arguments (page size 40, page 0, by id, ascending) is the first 40 rows by ascending id, with `hasNext` iff there are more |
| PokemonListRepository.OffsetWrapsAround | pokemon/data/src/main/kotlin/com/patrickhoette/pokebe/pokemon/data/list/DatabasePokemonListRepository.kt:69 | as written, page 21474837 of size 200 is read from offset 104 |
| PokemonListRepository.GetPokemonListIntended | pokemon/data/src/main/kotlin/com/patrickhoette/pokebe/pokemon/data/list/DatabasePokemonListRepository.kt:37-79 | the corrected listing echoes page and page size |
| PokemonListRepository.IntendedPageWindow | pokemon/data/src/main/kotlin/com/patrickhoette/pokebe/pokemon/data/list/DatabasePokemonListRepository.kt:52-78 | with the offset computed in 64 bits, every non-negative page is its own window and `hasNext` is exact |
| SpritePaths.WithSuffix | ingest/src/main/python/sprite_ingester.py:104-106 | a suffix glob lists exactly the names with that suffix |
| SpritePaths.ImageFiles | ingest/src/main/python/sprite_ingester.py:104-106 | `_itr_image_files` lists exactly the `.png`, `.gif` and `.svg` files |
| SpritePaths.LastDot | ingest/src/main/python/sprite_ingester.py:73 | the position of the last dot, with no dot after it |
| SpritePaths.Stem | ingest/src/main/python/sprite_ingester.py:73 | a stem is a prefix of the name |
| SpritePaths.StemOfImage | ingest/src/main/python/sprite_ingester.py:73 | the stem of `<stem>.<ext>` is `<stem>` |
| SpritePaths.LeadingDigits | ingest/src/main/python/sprite_ingester.py:71 | `\d+` takes the maximal run of leading digits |
| SpritePaths.ParseIdAndVariant | ingest/src/main/python/sprite_ingester.py:69-89 | a parse has a positive id, a stem starting with a digit, and a non-empty variant without newline |
| SpritePaths.ParseDigitsThenRest | ingest/src/main/python/sprite_ingester.py:71-85 | the id is the value of all leading digits; the variant is none, the rest after a `-`/`_` separator when more follows, or the whole rest |
| SpritePaths.ParseIgnoresFinalNewline | ingest/src/main/python/sprite_ingester.py:71-73 | the regex's `$` lets a final newline through without it joining the variant |
| SpritePaths.ParseRejects | ingest/src/main/python/sprite_ingester.py:75-83 | stems without a leading digit and zero ids (`0`, `000-mega`) do not parse |
| SpritePaths.FlagsOfComponents | ingest/src/main/python/sprite_ingester.py:57-66 | flags are whole-component membership: a path's flags are its parts' flags or-ed, and `shiny-female` sets none |
| SpritePaths.ImageNameSetsNoFlag | ingest/src/main/python/sprite_ingester.py:57-66 | an image file name alone sets no flag |
| SpriteRows.SpriteDirCsv | ingest/src/main/python/sprite_ingester.py:154-167 | the inner loop emits exactly the rows of one directory |
| SpriteRows.GenerateSpritesCsv | ingest/src/main/python/sprite_ingester.py:144-172 | the rows are those of every directory under `pokemon`, and `subrows` counts them |
| SpriteRows.SpriteRowsSound | ingest/src/main/python/sprite_ingester.py:150-169 | every sprite row names an image under `pokemon` whose stem parses to the row's positive id and variant, with `''` for none |
| SpriteRows.SpriteRowsComplete | ingest/src/main/python/sprite_ingester.py:153-167 | every valid image file under `pokemon` gets a row |
| SpriteRows.OfficialDirCsv | ingest/src/main/python/sprite_ingester.py:186-204 | one loop of the official generator emits exactly the rows of its file list |
| SpriteRows.GenerateOfficialArtworkCsv | ingest/src/main/python/sprite_ingester.py:175-209 | the rows are the base files, then the shiny files, and `subrows` counts them |
| SpriteRows.OfficialRowsOrder | ingest/src/main/python/sprite_ingester.py:186-204 | rows before the shiny block are not shiny and lie directly in `official-artwork`; the rest are shiny and lie in `official-artwork/shiny`; all are valid sprites |
| SpriteRows.DefaultDirCsv | ingest/src/main/python/sprite_ingester.py:225-242 | the inner loop emits exactly the rows of one directory |
| SpriteRows.GenerateDefaultSpriteCsv | ingest/src/main/python/sprite_ingester.py:212-247 | the rows are those of every directory without a handled part, and `subrows` counts them |
| SpriteRows.DefaultRowsSkipHandled | ingest/src/main/python/sprite_ingester.py:221-239 | no default row lies under `versions` or `other`, and each flag is component membership in its path |
| SpriteRows.MiscDirCsv | ingest/src/main/python/sprite_ingester.py:262-279 | the inner loop emits exactly the rows of one directory |
| SpriteRows.GenerateMiscSpriteCsv | ingest/src/main/python/sprite_ingester.py:250-284 | the rows are those of every directory under `pokemon/other` except one named `official-artwork`, and `subrows` counts them |
| SpriteRows.MiscRowsCategory | ingest/src/main/python/sprite_ingester.py:259-277 | every misc row's category is the first component below `pokemon/other`, its directory is not named `official-artwork`, and its flags come from the path below `pokemon/other` |
| SpriteRows.MiscIncludesShinyOfficialArtwork | ingest/src/main/python/sprite_ingester.py:259-260 | as written, `official-artwork/shiny/25.png` becomes a misc row of category `official-artwork` |
| SpriteRows.MiscRowsIntendedExcludeOfficialArtwork | ingest/src/main/python/sprite_ingester.py:259-260 | skipping the whole `official-artwork` subtree keeps a subset of the written rows, none of category `official-artwork` |
| SpriteRows.VersionFileRows | ingest/src/main/python/sprite_ingester.py:323-336 | one row per version id, in id order, all with the file's path |
| SpriteRows.VersionFileCsv | ingest/src/main/python/sprite_ingester.py:323-336 | the innermost loop emits exactly those rows |
| SpriteRows.VersionDirCsv | ingest/src/main/python/sprite_ingester.py:316-336 | the file loop emits exactly the rows of one version directory |
| SpriteRows.GenerateVersionSpriteCsv | ingest/src/main/python/sprite_ingester.py:287-341 | the rows are those of every version directory except `icons` and those with no version match, and `subrows` counts them |
| SpriteRows.VersionRowsPerFile | ingest/src/main/python/sprite_ingester.py:308-336 | each valid file yields one row per version found in its directory's name, in match order, with that version's id |
| SpriteRows.VersionFlagsAlwaysClear | ingest/src/main/python/sprite_ingester.py:304-321 | as written, every row is a file directly in a version directory, and no row has a flag set |
| SpriteRows.VersionRowsIntendedFlags | ingest/src/main/python/sprite_ingester.py:304-321 | listing the subdirectories too, each row's flags are the keywords among its components below the version directory |
| VersionMatch.Alternation | ingest/src/main/python/sprite_ingester.py:289 | the alternation holds exactly the lookup's names |
| VersionMatch.AlternationLongestFirst | ingest/src/main/python/sprite_ingester.py:289 | the names are ordered longest first |
| VersionMatch.MatchAt | ingest/src/main/python/sprite_ingester.py:290 | the alternation at a position yields a name occurring there, or none occurs there |
| VersionMatch.MatchAtLongest | ingest/src/main/python/sprite_ingester.py:289-290 | with the names longest first, the alternation takes the longest name occurring at a position |
| VersionMatch.Matches | ingest/src/main/python/sprite_ingester.py:289-308 | `findall` yields names of the alternation at positions from the start onwards, the end of the string included (where only an empty identifier can match) |
| VersionMatch.MatchesDisjoint | ingest/src/main/python/sprite_ingester.py:308 | the matches come at strictly increasing positions and do not overlap |
| VersionMatch.MatchesLongest | ingest/src/main/python/sprite_ingester.py:289-308 | each match is the longest name occurring at its position |
| VersionMatch.MatchesOccur | ingest/src/main/python/sprite_ingester.py:308 | each match is what the alternation matches at its position (its first alternative occurring there), so it occurs there |
| VersionMatch.MatchesComplete | ingest/src/main/python/sprite_ingester.py:308 | no non-empty name occurs at a position the matches leave uncovered |
| VersionMatch.MatchesEmptyFill | ingest/src/main/python/sprite_ingester.py:289-308 | with an empty identifier in `versions.csv`, `findall` yields the empty name at every position no match covers, the end included |
| VersionMatch.FindVersions | ingest/src/main/python/sprite_ingester.py:308-314 | every version found is a key of the lookup |
| VersionMatch.VersionIds | ingest/src/main/python/sprite_ingester.py:314 | one id per version found |
| VersionMatch.Lookup | ingest/src/main/python/sprite_ingester.py:314 | `version_lookup[name]` is the id paired with that name |
| VersionMatch.FindVersionsExample | ingest/src/main/python/sprite_ingester.py:289-308 | `firered` wins over `red` in `FireRed` |
| VersionMatch.FindVersionsEmptyIdentifierExample | ingest/src/main/python/sprite_ingester.py:289-314 | with identifiers `x` and the empty one, the directory `xy` yields `x`, `''`, `''`, so each file gets the empty identifier's id twice more |
| CsvIngest.Strip | ingest/src/main/python/csv_ingester.py:185 | `int()` skips the surrounding C whitespace (tab to carriage return, and space) and leaves other strings unchanged |
| CsvIngest.PyInt | ingest/src/main/python/csv_ingester.py:185 | `int()` yields the decimal value of the stripped string, or raises `ValueError` |
| CsvIngest.PyIntRoundTrip | ingest/src/main/python/csv_ingester.py:216 | `int(str(n)) == n` within CPython's digit limit |
| CsvIngest.PyIntRejectsNullMarkers | ingest/src/main/python/csv_ingester.py:199-200 | `int('')` and `int('\N')` raise |
| CsvIngest.PyIntRejectsSeparators | ingest/src/main/python/csv_ingester.py:185 | `int()` of an ASCII string raises on a surrounding separator 0x1C to 0x1F and skips a surrounding space or line feed |
| CsvIngest.IntOrNone | ingest/src/main/python/csv_ingester.py:199-200 | `_int_or_none` is None exactly for `''`, `'\N'` and None, else `int(value)` with its errors |
| CsvIngest.EnumTablesKeyedByIds | ingest/src/main/python/csv_ingester.py:42-142 | no enum table has the empty string as key, so `table.get(v or None)` is None for an empty field |
| CsvIngest.ReadColumn | ingest/src/main/python/csv_ingester.py:214-324 | a column reads iff its field exists and is accepted, else `KeyError`/`ValueError`; flags are `== '1'`; required enums yield a table value; optional enums and `_int_or_none` yield None exactly for empty/unknown or null-like fields; a pokemon missing from the type lookup gets None types |
| CsvIngest.MapColumns | ingest/src/main/python/csv_ingester.py:214-225 | a mapped row has one cell per column |
| CsvIngest.MapColumnsReadsEach | ingest/src/main/python/csv_ingester.py:214-225 | a row maps iff every column reads; the cells are the columns' values in order; the error is the first failing column's, evaluated left to right |
| CsvIngest.PokemonColumns | ingest/src/main/python/csv_ingester.py:205-225 | the pokemon mapper yields one cell per header |
| CsvIngest.MappersMatchHeaders | ingest/src/main/python/csv_ingester.py:205-327 | every mapper yields exactly as many cells as its header has names |
| CsvIngest.PokemonTypes | ingest/src/main/python/csv_ingester.py:218-224 | the pokemon row's type cells are the lookup's pair for its id, or None/None, and `is_default` is `== '1'` |
| CsvIngest.HeaderCells | ingest/src/main/python/csv_ingester.py:168 | the header row is the header names in order |
| CsvIngest.MapAllFailsFromPrefix | ingest/src/main/python/csv_ingester.py:172-174 | the first row that fails to map decides the error |
| CsvIngest.MapCsv | ingest/src/main/python/csv_ingester.py:165-177 | the loop yields the header then the mapped rows, or `FileNotFound`, or the first row's error |
| CsvIngest.MapAllRowByRow | ingest/src/main/python/csv_ingester.py:172-174 | the file maps iff every row does; there is one output row per input row, in input order; the error is the first failing row's |
| CsvIngest.TypeEntriesFailFromPrefix | ingest/src/main/python/csv_ingester.py:183-187 | the first type row that fails decides the error |
| CsvIngest.TypeEntriesRowByRow | ingest/src/main/python/csv_ingester.py:183-187 | the type rows read iff each row does, one entry per row |
| CsvIngest.Group | ingest/src/main/python/csv_ingester.py:187 | a pokemon's group holds at most one entry per row |
| CsvIngest.PidsAreGroups | ingest/src/main/python/csv_ingester.py:187-190 | the dict's keys are exactly the pokemon with entries, each once, in first-appearance order |
| CsvIngest.PidsOfEntries | ingest/src/main/python/csv_ingester.py:184-187 | the keys are exactly the ids listed |
| CsvIngest.GroupedStep | ingest/src/main/python/csv_ingester.py:187 | one `setdefault(pid, []).append(...)` keeps the grouping invariant |
| CsvIngest.GroupTypeRows | ingest/src/main/python/csv_ingester.py:181-187 | the first loop succeeds iff every row reads, raises the first row's error otherwise, and builds the per-pokemon groups in file order |
| CsvIngest.PickTypes | ingest/src/main/python/csv_ingester.py:189-194 | the second loop fills the result from the groups |
| CsvIngest.LookupFromMatches | ingest/src/main/python/csv_ingester.py:189-196 | a dict with the same keys and the same pairs is the lookup |
| CsvIngest.LoadStaticTypeLookup | ingest/src/main/python/csv_ingester.py:180-196 | both loops together compute the type lookup |
| CsvIngest.TypeLookupDomain | ingest/src/main/python/csv_ingester.py:180-196 | the lookup fails iff some row fails, and otherwise holds exactly the pokemon ids of the rows |
| CsvIngest.MinSlot | ingest/src/main/python/csv_ingester.py:191-192 | the lowest slot of a pokemon's entries |
| CsvIngest.PrimaryIsFirstLowestSlot | ingest/src/main/python/csv_ingester.py:191-194 | the primary type is that of the first entry, in file order, at the lowest slot; there is a secondary type iff there is more than one entry, and it is one of them |
| Sorting.SortBy | ingest/src/main/python/csv_ingester.py:191 | `sorted` is a permutation |
| Sorting.SortBySorted | ingest/src/main/python/csv_ingester.py:191 | `sorted` orders by the key |
| Sorting.SortByStable | ingest/src/main/python/csv_ingester.py:191 | `sorted` is stable: entries with the same key keep their order |
| CsvIngest.RunBlock | ingest/src/main/python/csv_ingester.py:160-327 | a block's method computes the block's outcome |
| CsvIngest.Connection.constructor | ingest/src/main/python/csv_ingester.py:332 | a fresh connection has loaded nothing and committed nothing |
| CsvIngest.RunIngest | ingest/src/main/python/csv_ingester.py:147-153 | `_run_ingest` loads the block's payload when it succeeds, and swallows what it raises |
| CsvIngest.IngestCsvFiles | ingest/src/main/python/csv_ingester.py:332-383 | the connection receives the loads of every table in the fixed order (the five simple tables, then pokemon, type metadata, growth rates, item categories, items, species), then exactly one commit |
| CsvIngest.LoadsIsolated | ingest/src/main/python/csv_ingester.py:147-153 | in a plan with distinct tables, a table is loaded iff its own block succeeds |
| CsvIngest.IngestIsolatesTables | ingest/src/main/python/csv_ingester.py:332-383 | every table of `ingest_csv_files` is loaded, with its payload, iff its own block succeeds, whatever the others do |

## Left out

- The ANSI logging (`info`, `warning`, `error`, `debug`) is left out: it only prints.
- Coroutines, `async`/`awaitAll` and the atomic fields of the validator are left out. `run()` is a loop in registration order. `awaitAll` keeps list order, so the collected rule failures are the same under every schedule.
- ValidationRun.Validator.Run fixes one schedule of the concurrent `run()`: the delegates run one after another, and the first delegate that throws something other than `RuleFailedError` ends the run. The source launches every delegate at once inside one `coroutineScope`, so which uncaught exception escapes, and whether later delegates have already run and written their slots, depends on the schedule. The model does not capture those other schedules.
- ValidationRun.Validator.InvokeAll, ValidationRun.AbortIndexIsFirst and ValidationRun.AbortIndex describe that same sequential schedule: the lowest-index uncaught exception escapes and every later slot is unchanged.
- StatusPage.RunAbortResponse names the lowest-index uncaught exception as the one answered. Under another schedule it is another delegate's uncaught exception, answered the same way (500, `DevDoneGoofed`, its message).
- Kotlin property delegation and reflection are left out. The field name is a constructor parameter of the delegate.
- `float()` and `double()` are left out: they parse floating point.
- The comparable rules are modelled over integers only.
- The ErrorCode enum beyond `DevDoneGoofed` is left out. The JVM identity hash and enum hash are parameters of `HashCode`.
- Object identity is left out of the values. Whether two values stand for one JVM instance is a parameter of `Equals`, which `Object.equals` consults for causes outside the `ApiError` hierarchy and `ValidationFailedError`.
- `RuleFailedError` is not part of this model's sources. It is taken to be a plain exception in the same package, outside the `ApiError` hierarchy, with identity `equals`. It is therefore answered with 500 and printed with its package-qualified name. No subclass of the `open` classes `BadRequestError` and `NotFoundError` is modelled.
- PokemonListRepository.DefaultRequest covers the repository call with the controller's default arguments only. As written, `onPokemonList` reads its optional `sort` delegate before that call, and that read throws `IllegalStateException` (the first finding). So the controller never returns that page.
- Ktor's plugin installation and serialisation of the response are left out. `Respond` returns the status and the body.
- The SQL text, kotliquery and JDBC are left out. The store is a function from the ORDER BY fragments to the ordered rows.
- A negative LIMIT or OFFSET is modelled as a PostgreSQL error, rather than as its exact message.
- The git clone, the filesystem walk and the order `glob` lists directories in are left out. The listing is an input, and so is its order.
- `ingest_sprites` is left out. It runs the five generators and inserts their buffers through `ingest_csv`, which is database I/O.
- `csv.writer` quoting and the text rendering of a row are left out. A path is kept as its components.
- `_load_version_lookup` is left out: it reads a file. The version lookup is an input in file order.
- SpriteRows.GenerateVersionSpriteCsv requires a non-empty lookup. With no versions at all the source's regex is empty and matches the empty string. The first version directory not named `icons` then raises `KeyError('')`. That ends the whole generator, whose error `ingest_sprites` logs (sprite_ingester.py:381-387), so no version rows are written. That error path is not modelled. An empty identifier among other versions is modelled.
- `csv.DictReader` is left out. A row is a `map<string,string>`, and a short row's missing fields (None) are not modelled.
- CsvIngest.PyInt is modelled on ASCII input only. CPython also accepts underscores between digits, non-ASCII decimal digits and non-ASCII whitespace; those are not modelled.
- CsvIngest.Strip models the whitespace `int()` skips in an ASCII string. For a string holding a non-ASCII character, CPython first turns every Unicode whitespace character, 0x1C to 0x1F, U+0085 and U+00A0 among them, into a space; that step is not modelled.
- Characters are handled as ASCII throughout, while the source's libraries follow Unicode. Each member affected is listed below.
- Validation.Apply reads `int` and `long` from ASCII digits only, and `matches(…, ignoreCase = true)` folds ASCII letters only. Kotlin's `toIntOrNull`/`toLongOrNull` read every Unicode decimal digit, and `equalsIgnoreCase` folds every letter.
- Validation.ToIntegerOrNull reads ASCII digits only. Kotlin's `toIntOrNull` also reads other Unicode decimal digits: `"1٣"` is 13 there and is refused by the model.
- Validation.ParseIntegerRejectsMalformed counts every character other than an ASCII digit as a non-digit. A string with a non-ASCII decimal digit, such as `"1٣"`, is therefore refused by the model but read by Kotlin.
- Validation.MatchesCaseSensitivity states the ignore-case match through an ASCII `EqualsIgnoreCase`. Java's `equalsIgnoreCase` also equates pairs such as "É"/"é" and "ſ"/"s".
- SpritePaths.LeadingDigits takes ASCII digits only. The `\d` of a Python `str` pattern also matches every other Unicode decimal digit.
- SpritePaths.ParseIdAndVariant parses ASCII digits only. A stem such as `٢٥`, which Python's `\d` and `int()` read as 25, is rejected by the model.
- VersionMatch.FindVersions lower-cases ASCII letters only. Python's `str.lower()` lower-cases every cased character.
- `ingest_csv` and the SQL it runs (`csv_utils.py`) are left out. A successful block loads its payload. A failure inside the database, which in PostgreSQL would also abort the transaction, is not modelled.
- A simple CSV is loaded as its parsed rows, rather than as the raw file text.
- Files are a map from file name to rows. A missing file raises `FileNotFoundError` before anything is loaded.
- The six mapped tables of `ingest_csv_files` are six explicit calls in the source. CsvIngest.IngestCsvFiles runs them from the same constant plan as the simple tables, in the same order.
- CsvIngest.PrimaryIsFirstLowestSlot states the secondary type only as one of the entries, beside the sort's order and stability. It does not name it as the second entry of the stable sort in closed form.

## Findings

| source | as written | input that shows it | evidently intended | confidence | as-written member | corrected member |
|---|---|---|---|---|---|---|
| core/domain/src/main/kotlin/com/patrickhoette/pokebe/core/domain/validation/ValidationDelegate.kt:104-105 | `OptionalValidationDelegate.invoke()` has an empty body, so an optional field is never evaluated, never fails and never becomes readable | any optional delegate, such as the list's `sort` parameter, after `run()`: `getValue` raises `IllegalStateException` | validate the input when present, and complete with null when absent | not executed | ValidationRun.OptionalNeverCompletes | ValidationRun.IntendedDelegateCompletesUnlessItThrows |
| core/domain/src/main/kotlin/com/patrickhoette/pokebe/core/domain/validation/ValidationDelegate.kt:203-211 | `entryIn` tests the raw input against the lower-cased names, then calls `enumValueOf` with that raw input | `sort=id` for `PokemonSorting { Id, Natural }` passes the test, then throws `IllegalArgumentException` (a 500) | look the constant up by its lower-cased name | not executed | Validation.EntryInSortingThrows | Validation.EntryInIntendedNeverThrows |
| pokemon/data/src/main/kotlin/com/patrickhoette/pokebe/pokemon/data/list/DatabasePokemonListRepository.kt:69 | the offset `page * pageSize` is computed in 32-bit `Int` and wraps | page 21474837, page size 200: offset 104 instead of 4294967400 | compute the offset in 64 bits | not executed | PokemonListRepository.OffsetWrapsAround | PokemonListRepository.IntendedPageWindow |
| ingest/src/main/python/sprite_ingester.py:304-321 | the version generator lists only files directly in `generation*/<version>/`, and takes flags from the file name alone | a version directory with `back/1.png`: no row; and every row has all flags false | walk the version directory's subdirectories and flag each file by its components below the version directory | not executed | SpriteRows.VersionFlagsAlwaysClear | SpriteRows.VersionRowsIntendedFlags |
| ingest/src/main/python/sprite_ingester.py:259-260 | the misc generator skips only a directory whose own name is `official-artwork` | `pokemon/other/official-artwork/shiny/25.png` becomes a misc row of category `official-artwork` | skip the whole `official-artwork` subtree, which the official generator covers | not executed | SpriteRows.MiscIncludesShinyOfficialArtwork | SpriteRows.MiscRowsIntendedExcludeOfficialArtwork |

Where the code and its documented behaviour differ, the model follows the code:

- `entryIn` does not lower-case its input.
- An optional delegate with an absent input does not complete.
