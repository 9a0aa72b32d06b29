# Automated Essay Scoring — a verified model of the feature and workflow core

This project models, in Dafny, the deterministic core of the AutomatedEssayScoring
repository and proves what that core promises. It covers four parts:

- **The length features** (`aes/features/extraction/length.py`). These are per-row
  counters over an essay's text: letters, digit tokens, the special-character and
  punctuation tables of `aes/data/__init__.py`, commas, question marks, words over a
  length threshold, the numerator and denominator of the average word length, the
  word lengths whose spread is taken, and the vocabulary size. Around them sits the
  extractor object. The special-character and punctuation extractors keep a per-symbol
  tally dict, which is zeroed and then incremented in loops; its sum is proved to
  equal the sum of the returned row totals.
- **The name-keyed registries**:
  - the extractor index of `FeatureExtractorFactory` (`aes/features/extraction/base.py`),
    built once in module order and then class order, last write wins, a `KeyError`
    for an unknown name;
  - the `FeatureSet` dict of features (`aes/features/feature_set.py`);
  - the constant `FEATURES` catalogue (`aes/features/__init__.py`).
- **The operator/pipeline engine** (`aes/workflow/pipeline.py`, `aes/workflow/operators.py`).
  `aes/operations/workflow.py` repeats the same `Operator`, `Pipeline` and
  `PipelineBuilder` code line for line (without the concrete operators), and the one
  model of those three classes serves both:
  - the step list: append, extend, filter and look up by name;
  - windowed, in-order, fail-fast execution that carries the last non-`None` result;
  - the operator lifecycle setup → execute → teardown, with timestamps;
  - the builder that turns a configuration into a pipeline;
  - the force and retry guards of `DownloaderAPI`, `ExtractZip` and `LoadCSV`.
- **Small string utilities**:
  - the PDF date parser of `aes/utils/dates.py`;
  - the class-name scanner of `aes/utils/metacode.py`;
  - the thousands-separator and title-case formatters of `aes/utils/frint.py`, which
    `aes/utils/pprint.py` repeats verbatim.

## How the model is organised

| Dafny module | file | models |
|---|---|---|
| `Wrappers` | wrappers.dfy | `Option`, `Result` and the Python exceptions the core raises |
| `Text` | text.dfy | `isalpha`, `isdigit`, `isspace`, `\w`, `str.count`, `split(" ")`, `split()`, `set(...)` |
| `Symbols` | symbols.dfy | the `specials` and `punctuation` tables; `re.findall` over the regex subset they use (literals, an escaped metacharacter, `^`, `.`) |
| `Length` | length.dfy | the counters; the extractor class with its tally dict |
| `Catalogue` | catalogue.dfy | `FEATURES` |
| `Extraction` | extraction.dfy | `FeatureExtractorFactory` and `_build_index` |
| `FeatureSets` | feature_sets.dfy | `FeatureSet` |
| `Workflow` | workflow.dfy | `Operator`, `Pipeline`, `PipelineBuilder` |
| `Operators` | operators.dfy | the guards of `DownloaderAPI`, `ExtractZip` and `LoadCSV` |
| `Dates` | dates.dfy | `pdf_date_pattern` and `pdfdatetime` |
| `Metacode` | metacode.dfy | `class_list_from_file` after the file is read |
| `Format` | format.dfy | `print_int` and `print_str` |

Modelling decisions:

- **Text.** Text is `seq<char>`. Letters, digits and `\w` are the ASCII ones. `str.split(" ")`
  is a recursive split that always yields at least one piece.
- **Regex scan.** `re.findall` is a left-to-right scan that resumes after each match.
- **Dicts.** An insertion-ordered dict is a `map` paired with a key sequence.
- **`pdfdatetime`.** It rewrites the group dict in a loop, so it is a method proved equal
  to a specification function.
- **Extractors and tables.** The extractors iterate over the tables as they are written.
  The corrected tables (see Findings) are separate constants with their own lemmas.
- **Step positions (`seq`).** The pipeline reads an attribute `seq` that no code assigns.
  The model reads it as the 1-based position that the unused `enumerate(..., 1)` provides.
  This is an assumption. Where the intended behaviour differs from the code as written,
  both are modelled (see Findings).

## Model

| member | source | states |
|---|---|---|
| `Text.Split` | aes/features/extraction/length.py:224 | `s.split(c)` gives one more piece than there are separators, no piece contains the separator, and the first piece is empty exactly when the text is empty or starts with the separator |
| `Text.JoinOfSplit` | aes/features/extraction/length.py:224 | joining the pieces of a split with the separator gives the text back |
| `Text.SplitOfJoin` | aes/features/extraction/length.py:224 | splitting the join of non-empty lists of separator-free pieces gives the pieces back |
| `Text.SumLengthsOfSplit` | aes/features/extraction/length.py:248-249 | the pieces of `split(" ")` hold every character except the spaces |
| `Text.Tokens` | aes/features/extraction/length.py:79 | `split()` yields non-empty tokens free of whitespace, no more tokens than characters, and at least one when the text starts with a non-space |
| `Text.ElementsDistinct` | aes/features/extraction/length.py:296-297 | a list has as many distinct elements as positions exactly when no element repeats |
| `Length.AlphaCount` | aes/features/extraction/length.py:59 | the letter count never exceeds the length, equals it exactly when every character is a letter, and is zero exactly when none is |
| `Length.AlphaCountConcat` | aes/features/extraction/length.py:59 | counting letters distributes over concatenation |
| `Length.NumberCount` | aes/features/extraction/length.py:79 | the all-digit tokens number at most the whitespace tokens (at most the length), all of them exactly when every token is a digit string |
| `Length.NoDigitsNoNumbers` | aes/features/extraction/length.py:79 | a text without digits has no number tokens |
| `Length.CommasCount` | aes/features/extraction/length.py:175-177 | the findall count of `punctuation["comma"]` is the number of ',' characters |
| `Length.QuestionMarksCount` | aes/features/extraction/length.py:199-201 | the findall count of `punctuation["question mark"]` is the number of '?' characters |
| `Length.WordCountMonotone` | aes/features/extraction/length.py:223-225 | raising `min_length` never increases the word count |
| `Length.WordCountNegative` | aes/features/extraction/length.py:223-225 | below a zero threshold every `split(" ")` piece counts: one more than the spaces |
| `Length.WordCountIsTokens` | aes/features/extraction/length.py:223-225 | with `min_length=0` the counted pieces are exactly the whitespace tokens (text whose only whitespace is ' ') |
| `Length.AverageWordLength` | aes/features/extraction/length.py:247-249 | the divisor is #spaces + 1, never zero; the dividend is len(text) − #spaces |
| `Length.AverageOfEmpty` | aes/features/extraction/length.py:247-249 | the empty text averages 0 / 1 |
| `Length.WordLengths` | aes/features/extraction/length.py:271-273 | one length per `split(" ")` piece, and they add up to len(text) − #spaces |
| `Length.VocabularySize` | aes/features/extraction/length.py:295-297 | between 1 and #spaces + 1, and the upper bound exactly when no piece repeats |
| `Length.CanonicalNamesDistinct` | aes/features/extraction/length.py:50-356 | no two extractor classes carry the same canonical name |
| `Length.TallyMatchesColumn` | aes/features/extraction/length.py:100-116 | after zeroing, the sum of the tally over the table's keys equals the sum of all row totals |
| `Length.TallyPerSymbol` | aes/features/extraction/length.py:106-116 | after zeroing, each symbol's tally is that pattern's match count summed over the rows |
| `Length.CountTable` | aes/features/extraction/length.py:110-116 | the per-symbol loop: each key's tally grows by its pattern's count, the key set is unchanged, and the total is the sum over the table |
| `Length.CountRows` | aes/features/extraction/length.py:100-101 | one total per row in row order, and the tally accumulates every row |
| `Length.Column` | aes/features/extraction/length.py:53-59 | one value per input row, in row order |
| `Length.FeatureExtractor.constructor` | aes/features/extraction/length.py:88-92 | the canonical name, category "length", the class's table and an empty tally dict |
| `Length.FeatureExtractor.InitializeCounts` | aes/features/extraction/length.py:106-108 | every table key is set to 0; other keys keep their values |
| `Length.FeatureExtractor.CountFeature` | aes/features/extraction/length.py:110-116 | returns the row's table total and adds each pattern's count to its key |
| `Length.FeatureExtractor.Extract` | aes/features/extraction/length.py:94-101 | one value per row in order; for the two table extractors the tally is zeroed first, then accumulated, and its sum equals the sum of the returned totals; other extractors leave it untouched |
| `Symbols.LiteralCount` | aes/data/__init__.py:21-55 | a one-character literal pattern's findall count is the number of occurrences of that character |
| `Symbols.AnchorCount` | aes/data/__init__.py:27 | the unescaped `^` finds exactly one match in every text |
| `Symbols.ThreeAnyCount` | aes/data/__init__.py:56 | the unescaped `...` finds, per newline-free stretch, floor(length / 3) matches |
| `Symbols.SpecialsPatterns` | aes/data/__init__.py:20-38 | 17 entries; every entry but "caret" compiles to exactly its own literal character (dollar, asterisk, plus, pipe and backslash escaped); "caret" compiles to the start anchor |
| `Symbols.PunctuationPatterns` | aes/data/__init__.py:40-57 | 16 entries; the first 15 compile to exactly their own literal character ("period" escaped); "elipses" compiles to three any-characters |
| `Symbols.TablesWellFormed` | aes/data/__init__.py:20-57 | every pattern compiles and no name repeats in either table |
| `Symbols.SymbolSetsDisjoint` | aes/data/__init__.py:20-57 | no character is both a special symbol and a punctuation symbol |
| `Symbols.SymbolsDistinct` | aes/data/__init__.py:20-57 | each table names each character once |
| `Symbols.CommaEntry` | aes/data/__init__.py:44 | `punctuation["comma"]` is "," and matches exactly ',' |
| `Symbols.QuestionMarkEntry` | aes/data/__init__.py:42 | `punctuation["question mark"]` is `\?` and matches exactly '?' |
| `Symbols.LiteralTableCountsIn` | aes/features/extraction/length.py:112-116 | summing per-pattern counts over distinct literal characters counts the text's characters in that set |
| `Symbols.SpecialsTotal` | aes/features/extraction/length.py:110-116 | as written, a row's special total is 1 plus the special characters other than '^' |
| `Symbols.PunctuationTotal` | aes/features/extraction/length.py:147-153 | as written, a row's punctuation total is its punctuation characters plus floor(length / 3) per newline-free stretch |
| `Symbols.CaretCountsEveryRow` | aes/data/__init__.py:27 | a text of letters scores 1 special character as written and 0 with the caret escaped |
| `Symbols.SpecialsIntendedTotal` | aes/data/__init__.py:27 | with the caret escaped, a row's total is the number of its special characters |
| `Symbols.EllipsisMatchesAnyThree` | aes/data/__init__.py:56 | "abc" scores 1 punctuation mark as written and 0 with the dots escaped |
| `Symbols.PunctuationIntendedTotal` | aes/data/__init__.py:56 | with the dots escaped, a row's total is its punctuation characters plus non-overlapping "..." runs, which are at most a third of its periods |
| `Catalogue.FiveCategories` | aes/features/__init__.py:19-92 | exactly five distinct categories, and a lookup succeeds for exactly those |
| `Catalogue.LengthDistinct` | aes/features/__init__.py:20-40 | no name repeats in the "length" list |
| `Catalogue.SyntacticDistinct` | aes/features/__init__.py:41-67 | no name repeats in the "syntactic" list |
| `Catalogue.OtherListsDistinct` | aes/features/__init__.py:68-91 | no name repeats in the "word", "readability" or "semantic" lists |
| `Catalogue.NamesUniqueWithinCategories` | aes/features/__init__.py:19-92 | within every category each name is listed once |
| `Catalogue.LengthSyntacticDisjoint` | aes/features/__init__.py:20-67 | no name is both a length and a syntactic feature |
| `Catalogue.LengthOthersDisjoint` | aes/features/__init__.py:19-92 | no length feature is a word, readability or semantic feature |
| `Catalogue.SyntacticWordDisjoint` | aes/features/__init__.py:41-78 | no syntactic feature is a word feature |
| `Catalogue.SyntacticOthersDisjoint` | aes/features/__init__.py:41-92 | no syntactic feature is a readability or semantic feature |
| `Catalogue.RestDisjoint` | aes/features/__init__.py:68-92 | the word, readability and semantic lists share no name |
| `Catalogue.CategoriesDisjoint` | aes/features/__init__.py:19-92 | any two different categories share no name |
| `Catalogue.NoNameInTwoCategories` | aes/features/__init__.py:19-92 | no name appears under two categories |
| `Catalogue.LengthListCoversExtractors` | aes/features/__init__.py:20-40 | every canonical name of length.py is in the "length" list |
| `Catalogue.LengthListExtras` | aes/features/__init__.py:25-34 | word_count_gt_5..8, lemmas_count and exclamation_mark_count are listed under "length" but no length.py class carries them |
| `Extraction.IndexKeysDistinct` | aes/features/extraction/base.py:101-113 | the index keys are exactly the stored names, each once |
| `Extraction.IndexKeysPrefix` | aes/features/extraction/base.py:113 | later stores never move a key: the earlier key order is a prefix of the later one |
| `Extraction.IndexKeysOfDistinct` | aes/features/extraction/base.py:103-113 | with no repeated name, the key order is the order of creation |
| `Extraction.IndexMapLastWins` | aes/features/extraction/base.py:113 | a name is a key exactly when stored, and its value is the last instance stored under it |
| `Extraction.Instantiate` | aes/features/extraction/base.py:111-112 | a new instance of the class, carrying the class's canonical name and an empty tally |
| `Extraction.StoreKeepsIndexed` | aes/features/extraction/base.py:113 | storing one more instance keeps the dict and its key order in step with the instances made |
| `Extraction.Store` | aes/features/extraction/base.py:110-113 | one inner step: instantiate, then store under the instance's name |
| `Extraction.IndexModule` | aes/features/extraction/base.py:110-113 | one instance per class of the module, in class order, each carrying its class's name, all stored |
| `Extraction.BuildIndex` | aes/features/extraction/base.py:101-113 | every class of every module instantiated once, in module order and then class order, and the index records them; the key order is the class names in that order, a repeated name keeping its first place |
| `Extraction.FeatureExtractorFactory.constructor` | aes/features/extraction/base.py:80-83 | the index is built once from the registry: its keys are the registry's class names in module and class order, first place kept |
| `Extraction.FactoryIndexFromRegistry` | aes/features/extraction/base.py:101-113 | a name is in the index exactly when it is the name of a registered class, and the stored instance has that name and is an instance of that class |
| `Extraction.DistinctClassesListedInOrder` | aes/features/extraction/base.py:89-113 | with no class registered twice, the names are distinct and `list_extractors` gives them in registry order |
| `Extraction.FeatureExtractorFactory.ListExtractors` | aes/features/extraction/base.py:89-90 | the index keys in insertion order, without duplicates, exactly the stored names |
| `Extraction.FeatureExtractorFactory.Categories` | aes/features/extraction/base.py:85-87 | the same key list as `list_extractors`: extractor names, not categories |
| `Extraction.FeatureExtractorFactory.CreateExtractor` | aes/features/extraction/base.py:92-99 | the stored instance itself, which carries the requested name; `KeyError` exactly for an unknown name, never a default |
| `Extraction.ListedNamesCreate` | aes/features/extraction/base.py:92-113 | for every listed name the stored extractor has that name and is the last instance created under it |
| `FeatureSets.AddedWellFormed` | aes/features/feature_set.py:58-61 | adding keeps every name once and keyed by its own feature; existing features are untouched; a new name goes last |
| `FeatureSets.AddIdempotent` | aes/features/feature_set.py:58-61 | adding a feature under a name already present changes nothing |
| `FeatureSets.RemovedWellFormed` | aes/features/feature_set.py:69-73 | removal succeeds exactly for a present name, drops just that name and keeps the others' features |
| `FeatureSets.RemoveUndoesAdd` | aes/features/feature_set.py:52-73 | removing a feature just added restores the set |
| `FeatureSets.SelectedColumnsFacts` | aes/features/feature_set.py:97-100 | columns are selected exactly for a `FEATURES` category: the base columns followed by that category's names |
| `FeatureSets.GetFeaturesNeverSelects` | aes/features/feature_set.py:97-100 | as written, every valid category raises `AttributeError` on `axtend`, and others give `None` |
| `FeatureSets.NewAsWrittenAlwaysFails` | aes/features/feature_set.py:45 | as written, construction never yields the column list |
| `FeatureSets.FeatureSet.constructor` | aes/features/feature_set.py:43-47 | no features and `_extracted` false |
| `FeatureSets.FeatureSet.AddFeature` | aes/features/feature_set.py:52-61 | inserts only an absent name; a duplicate warns and changes nothing |
| `FeatureSets.FeatureSet.RemoveFeature` | aes/features/feature_set.py:63-73 | deletes exactly that name; an absent name is `KeyError` and changes nothing |
| `FeatureSets.FeatureSet.ListFeatures` | aes/features/feature_set.py:75-77 | the names in insertion order, each once |
| `FeatureSets.FeatureSet.GetFeature` | aes/features/feature_set.py:79-88 | the stored feature for a present name, `None` otherwise, never raising |
| `FeatureSets.FeatureSet.GetFeatures` | aes/features/feature_set.py:90-100 | the base columns followed by the category's names for a `FEATURES` category, `None` otherwise |
| `Workflow.Clock.Read` | aes/workflow/operators.py:110 | a wall-clock reading never earlier than the previous one |
| `Workflow.OperatorName` | aes/workflow/operators.py:58 | the given name, or "operator_base_class" when it is `None` or empty |
| `Workflow.Operator.constructor` | aes/workflow/operators.py:57-66 | name with fallback, the params, and started, stopped and duration unset |
| `Workflow.Operator.Run` | aes/workflow/operators.py:75-79 | returns execute's result unchanged; started is stamped first; on success stopped ≥ started and duration = stopped − started; on an exception teardown never runs |
| `Workflow.Operator.Setup` | aes/workflow/operators.py:109-110 | stamps the start time only |
| `Workflow.Operator.Teardown` | aes/workflow/operators.py:112-114 | stamps the stop time and a non-negative duration since setup |
| `Workflow.FirstNamed` | aes/workflow/pipeline.py:112 | the position of the first step with the name |
| `Workflow.RemoveKeepsOthers` | aes/workflow/pipeline.py:108 | the kept steps are exactly the steps of other names |
| `Workflow.NamedFindsAll` | aes/workflow/pipeline.py:112 | the filtered steps are exactly the steps of that name |
| `Workflow.RemovePartitions` | aes/workflow/pipeline.py:102-112 | removed and kept steps together are all the steps, and no kept step has the name |
| `Workflow.RemoveIdempotent` | aes/workflow/pipeline.py:108 | removing twice is removing once, and removing an absent name changes nothing |
| `Workflow.RemoveAfterAppend` | aes/workflow/pipeline.py:94-108 | removal distributes over a later `add_steps` |
| `Workflow.ExecutionRunsInOrder` | aes/workflow/pipeline.py:144-146 | only steps inside the inclusive window run, each at most once, in insertion order |
| `Workflow.ExecutionRunsWindow` | aes/workflow/pipeline.py:144-147 | every step of the window before the one that raised (all of them when none raised) ran; one step more ran than returned exactly when a step raised |
| `Workflow.ExecutionStopsAtError` | aes/workflow/pipeline.py:128-147 | fail fast: a failed run ends with the step that raised, and no later step runs |
| `Workflow.ExecutionCarries` | aes/workflow/pipeline.py:143-147 | each step receives the latest non-`None` earlier output (initially `None`), and the run ends with the last one |
| `Workflow.WholeWindowRunsAll` | aes/workflow/pipeline.py:144-146 | when the window covers every remaining position, a normal run executes all of them in order |
| `Workflow.DefaultWindowRunsAll` | aes/workflow/pipeline.py:121 | with `start_step=0`, `stop_step=inf` every step runs, unless one raises |
| `Workflow.ExecuteAsWrittenNeverRuns` | aes/workflow/pipeline.py:145 | as written, any non-empty pipeline raises on `task.seq` before running a step, where the intended loop runs the first step |
| `Workflow.Pipeline.constructor` | aes/workflow/pipeline.py:45-56 | name, version and context as given; no steps; timestamps unset |
| `Workflow.Pipeline.AddStep` | aes/workflow/pipeline.py:86-92 | appends at the end; earlier steps untouched |
| `Workflow.Pipeline.AddSteps` | aes/workflow/pipeline.py:94-100 | appends in the given order; earlier steps untouched |
| `Workflow.Pipeline.RemoveStep` | aes/workflow/pipeline.py:102-108 | drops every step with the name, keeps the rest in order, silent if none |
| `Workflow.Pipeline.GetStep` | aes/workflow/pipeline.py:110-112 | the first step with the name; `IndexError` exactly when there is none |
| `Workflow.RunStep` | aes/workflow/operators.py:75-79 | one step's `run`: its result is the step's execute result; the step is now started, and stopped when it returned; every other step keeps its timestamps |
| `Workflow.Advance` | aes/workflow/pipeline.py:144-147 | one iteration of the loop: it follows the execution specification from this position, stamping only the step it runs |
| `Workflow.ExecuteSteps` | aes/workflow/pipeline.py:143-147 | the loop's result and steps run are those of the execution specification; every step that ran was started during the loop, every one that returned was also stopped, and all other steps keep their timestamps |
| `Workflow.Pipeline.Execute` | aes/workflow/pipeline.py:132-147 | the loop's result and steps run are those of the execution specification (windowed, in order, carrying data, fail fast); steps that ran are started (and stopped when they returned) within the call, the others keep their timestamps |
| `Workflow.Pipeline.Run` | aes/workflow/pipeline.py:121-130 | setup stamps the start, every executed step gets the pipeline's context and is started within the run, every step that returned is also stopped with a duration, steps not executed keep their timestamps, teardown stamps stop and duration only when no step raised |
| `Workflow.FirstProblem` | aes/workflow/pipeline.py:199-223 | no problem exactly when every step entry can be built |
| `Workflow.BuildStep` | aes/workflow/pipeline.py:209-217 | the entry's operator class instantiated with its name and params, with no timestamps |
| `Workflow.BuildSteps` | aes/workflow/pipeline.py:199-223 | one operator per entry in config order, or the first entry's missing key, module or class |
| `Workflow.PipelineBuilder.constructor` | aes/workflow/pipeline.py:169-171 | no pipeline yet |
| `Workflow.PipelineBuilder.Reset` | aes/workflow/pipeline.py:173-174 | forgets the pipeline |
| `Workflow.PipelineBuilder.Build` | aes/workflow/pipeline.py:180-197 | a new pipeline named and versioned from the config (or `None`) with its steps in config order; any failure leaves the builder as it was |
| `Operators.Guard` | aes/workflow/operators.py:137 | acts when forced (without looking at the destination) or when the destination does not exist (the empty path never does); a boolean destination is looked up as file descriptor 0 or 1; an absent or `None` destination is a `TypeError` unless forced |
| `Operators.NonStringDestination` | aes/workflow/operators.py:137-163 | with a destination that is not a string both operators behave alike: they do nothing exactly when not forced and the boolean's descriptor is open, and otherwise raise `TypeError` |
| `Operators.ActsOnlyWhenNeeded` | aes/workflow/operators.py:137-166 | with a string destination, the downloader and the unzipper act exactly when forced or when the destination does not exist; acting on the empty path raises `FileNotFoundError`, on a regular file `FileExistsError`, and otherwise the destination is made first |
| `Operators.EmptyDestinationRaises` | aes/workflow/operators.py:137-163 | an empty destination never exists and cannot be made, so every run of either operator raises `FileNotFoundError` |
| `Operators.SecondRunSkips` | aes/workflow/operators.py:137-166 | without force, a second run after a successful first one does nothing |
| `Operators.LoadCsvRetries` | aes/workflow/operators.py:188-201 | at most one retry, with `encoding_errors="ignore"`, only after `UnicodeError` and with the retry flag set; `FileNotFoundError` is always raised again |
| `Dates.NoneUnlessFourteenDigits` | aes/utils/dates.py:25-56 | `None` exactly when the string does not start, after an optional "D:", with fourteen digits |
| `Dates.FieldsAreDigitGroups` | aes/utils/dates.py:29-65 | year, month, day, hour, minute and second are the fixed-width digit groups read as integers |
| `Dates.ZoneRules` | aes/utils/dates.py:67-73 | UTC for 'z', 'Z' or no designator; +(3600·HH + 60·mm) for '+'; the negation for any other designator; `TypeError` when HH or mm is missing |
| `Dates.AfterMatchIgnored` | aes/utils/dates.py:25-39 | `re.match` is anchored at the start only: cutting the string at the end of the match (`MatchEnd`, after each optional designator, HH, quote, mm, quote) changes neither the groups nor the result, for either designator class |
| `Dates.PdfDateIgnoresRest` | aes/utils/dates.py:55 | `pdfdatetime(s)` equals `pdfdatetime` of the matched prefix of `s`, so any text after the match, such as " rest" or "junk", is never read |
| `Dates.TrailingIgnored` | aes/utils/dates.py:55 | a corollary: once the match has taken every optional part up to the closing quote, any appended text leaves the result unchanged |
| `Dates.MakeDateTimeValid` | aes/utils/dates.py:78 | the datetime exists exactly for in-range calendar and clock fields; otherwise `ValueError` |
| `Dates.MonthOutOfRange` | aes/utils/dates.py:78 | month 13 (or any month outside 1..12) is a `ValueError` |
| `Dates.GroupDict` | aes/utils/dates.py:57 | every group under its name, `None` for an unmatched group |
| `Dates.ConvertAll` | aes/utils/dates.py:59-65 | each entry rewritten once: `None` stays, the designator lower-cased, digits read as integers |
| `Dates.TimeZone` | aes/utils/dates.py:67-73 | the tzinfo from the rewritten entries, `TypeError` exactly for a non-UTC designator without HH and mm |
| `Dates.Construct` | aes/utils/dates.py:75-78 | the datetime from the six remaining fields and the zone |
| `Dates.Rewritten` | aes/utils/dates.py:57-65 | after the loop: the integers of the date groups, the lower-cased designator and the integer offset parts |
| `Dates.BuildDate` | aes/utils/dates.py:57-78 | the method's result equals the datetime the match stands for |
| `Dates.PdfDateTime` | aes/utils/dates.py:43-78 | `pdfdatetime` equals its specification: `None` without a match, else the datetime or the error |
| `Dates.DigitDesignatorAsWritten` | aes/utils/dates.py:35 | as written, any fifteen-digit string raises `TypeError`: the fifteenth digit is taken for a designator |
| `Dates.DigitDesignatorIntended` | aes/utils/dates.py:35 | with the intended designator set, a fifteenth digit is trailing text and the date is read in UTC |
| `Dates.IntendedDesignatorsOnly` | aes/utils/dates.py:35 | with the intended designator set, only '+', '-', 'z' and 'Z' are designators |
| `Metacode.RunLength` | aes/utils/metacode.py:38 | `\w+` takes the maximal run of word characters |
| `Metacode.ScanFindsEveryMatch` | aes/utils/metacode.py:38 | the findall scan returns the run at every match position, in order |
| `Metacode.PositionsExact` | aes/utils/metacode.py:38 | the positions listed are exactly those where the look-behind holds and a word character follows |
| `Metacode.PositionsIncreasing` | aes/utils/metacode.py:38 | the positions are strictly increasing: order of appearance |
| `Metacode.RunIsMaximal` | aes/utils/metacode.py:38 | each name is a non-empty run of word characters ending at the text's end or before a non-word character |
| `Metacode.ClassListCharacterised` | aes/utils/metacode.py:38 | the names are the maximal word runs after "class" plus one whitespace, at a word boundary, in order of appearance |
| `Metacode.BoundaryRequired` | aes/utils/metacode.py:38 | a word character right before "class" rules the match out |
| `Metacode.OneSpaceOnly` | aes/utils/metacode.py:38 | two whitespace characters after "class" rule the match out |
| `Metacode.NoMatchNoNames` | aes/utils/metacode.py:38 | with no match position, no name is returned |
| `Metacode.SkipToMatch` | aes/utils/metacode.py:38 | positions without a match contribute nothing |
| `Metacode.SubclassNotListed` | aes/utils/metacode.py:38 | "subclass X" gives no name |
| `Metacode.UnderscoreClassNotListed` | aes/utils/metacode.py:38 | "_class X" gives no name |
| `Metacode.TwoSpacesNotListed` | aes/utils/metacode.py:38 | "class  X" gives no name |
| `Metacode.CommentListed` | aes/utils/metacode.py:38 | "# class A" gives ["A"]: the scan is purely textual |
| `Format.Digits` | aes/utils/frint.py:22 | at least one digit, no leading zero |
| `Format.DigitsRoundTrip` | aes/utils/frint.py:22 | `int(str(n)) == n` |
| `Format.DigitsLength` | aes/utils/frint.py:22 | n has at most k digits exactly when n < 10^k |
| `Format.GroupedUncomma` | aes/utils/frint.py:22 | removing the commas from the grouped digits gives the digits |
| `Format.GroupedSplits` | aes/utils/frint.py:22 | splitting the grouped digits at the commas gives the groups of three from the right |
| `Format.ChunksShape` | aes/utils/frint.py:22 | the leading group has 1–3 digits, every other group exactly 3, and together they are the digits |
| `Format.PrintIntUncomma` | aes/utils/frint.py:21-22 | `print_int(n)` with the commas removed is `str(n)` |
| `Format.PrintIntShape` | aes/utils/pprint.py:22 | one leading '-' exactly for negatives; the rest splits at commas into groups of three from the right, a 1–3 digit leading group, that read back as abs(n) |
| `Format.NoCommaBelowThousand` | aes/utils/frint.py:22 | a comma appears exactly when abs(n) ≥ 1000; below that the output is `str(n)` |
| `Format.Replace` | aes/utils/frint.py:30 | `replace` keeps the length and changes exactly the replaced character |
| `Format.TitleFromAt` | aes/utils/frint.py:30 | `title` upper-cases a letter exactly when it is first or follows a non-letter, lower-cases other letters and keeps non-letters |
| `Format.PrintStrAt` | aes/utils/pprint.py:30 | `print_str` keeps the length, turns each '_' into ' ' in place, leaves no '_', and title-cases each letter run |
| `Format.PrintStrIdempotent` | aes/utils/frint.py:29-30 | `print_str` applied twice is `print_str` applied once |
| `Format.ApostropheExample` | aes/utils/frint.py:30 | "it's" becomes "It'S": an apostrophe ends a letter run |
| `Format.DigitExample` | aes/utils/frint.py:30 | "1st" becomes "1St": a digit ends a letter run |

## Left out

- The sentence extractors `SentenceCount`, `AvgSentenceLength` and `StdSentenceLength` rest on NLTK's tokenizers, which are not part of this model. Note that `AvgSentenceLength` returns a standard deviation and raises `IndexError` on zero sentences (aes/features/extraction/length.py:340-345).
- Length.FeatureExtractor.Extract: requires a modelled extractor, so the three sentence extractors are outside it.
- Floating point:
  - `np.std` in `StdWordLength`; the model returns the word lengths whose spread is taken;
  - the division in `AvgWordLength`; the model returns the integer dividend and divisor;
  - `print_float`;
  - the rounding of durations to four decimals (aes/workflow/operators.py:114).
- Length.FeatureExtractor.Extract: the `self._counts` data frame after the `return` is unreachable and not modelled.
- Data frames are reduced to the list of row texts or the list of column names. The `idvar` and text-column configuration read by `FeatureExtractor.__init__` is left out.
- mlflow run tracking and `_run_id` are left out. `datetime.now()` becomes a monotonic integer `Clock`, and `_created` is not recorded.
- Workflow.Operator.Run: the duration is the plain difference of clock readings, not seconds rounded to four places.
- Dynamic loading becomes lookups in registries given as parameters:
  - `importlib.import_module` and `getattr` in `PipelineBuilder._build_steps` and `FeatureExtractorFactory._build_index`;
  - for the factory, the classes `class_list_from_file` finds in each module. The word, semantic and readability extraction modules are not part of this model, and syntactic.py is empty.
- The file read in `class_list_from_file` is left out; the scan works on the text.
- Configuration, YAML and dotenv loading are left out. `PipelineBuilder.build` ignores its argument and reads `_get_config()` (aes/workflow/pipeline.py:186), so the model's `Build` takes the configuration that call returns.
- The steps section of the configuration is a dict iterated in insertion order; the model takes its values as a sequence.
- The payloads of the operators are left out: the subprocess download, the zip extraction and `pd.read_csv`. Their effects are given: the set of existing paths, and a reader function.
- A failing download command is only logged, and that log is not modelled.
- Operators.Download and Operators.Unzip: `os.makedirs` is modelled for the destination path itself (empty, a regular file, or a directory to make). A path whose parent is a regular file, and permission errors, are not modelled; the model makes the directory there.
- The shared context is an immutable map, and an operator's `execute` returns no new context. In the source every step receives the same mutable dict (aes/workflow/pipeline.py:129, 146), so a step can write to it and later steps see the change. The model cannot express those writes.
- Parameter values are strings, booleans or `None`. Numbers and lists from the configuration are not modelled. An integer destination would make `os.path.exists` consult that file descriptor, as it does for a boolean.
- `Pipeline.print_steps`, `Operator.__str__` (which reads the unassigned `_seq`) and logging are not modelled.
- `aes/features/base.py`'s `Feature` is broken (an undefined `_idvars`, and a `category` property without a return). The model's `Feature` keeps only a name and a category. `add_feature`'s `.get(...)` test treats every stored feature as truthy, since `Feature` defines neither `__len__` nor `__bool__`.
- Character classes are ASCII:
  - `\d`, `\w`, `isalpha` and `isdigit` accept only ASCII. Python also accepts other Unicode letters and digits.
  - `str.title` and `lower` act on ASCII letters only. Other characters are kept as they are, so non-ASCII letters do not start or continue a letter run.

## Findings

| source | as written | input that shows it | evidently intended | confidence | as-written member | corrected member |
|---|---|---|---|---|---|---|
| aes/data/__init__.py:27 | `specials["caret"]` is the unescaped `^`, a start anchor that matches once per text and never matches the '^' character | "hello" counts one special character | `\^`, counting '^' characters | high (not executed) | `Symbols.CaretCountsEveryRow` | `Symbols.SpecialsIntendedTotal` |
| aes/data/__init__.py:56 | `punctuation["elipses"]` is the unescaped `...`, which matches any three non-newline characters | "abc" counts one punctuation mark | `\.\.\.`, counting runs of three periods | high (not executed) | `Symbols.EllipsisMatchesAnyThree` | `Symbols.PunctuationIntendedTotal` |
| aes/workflow/pipeline.py:145 | `_execute` reads `task.seq`, which no code assigns, so any non-empty pipeline raises `AttributeError` | a pipeline with one step, default window | `seq` is the 1-based position from `enumerate(..., 1)` | high (not executed) | `Workflow.ExecuteAsWrittenNeverRuns` | `Workflow.Pipeline.Execute` |
| aes/features/feature_set.py:99 | `self._columns.axtend(...)`: lists have no `axtend`, so every valid category raises `AttributeError` | `get_features("length")` | the base columns followed by the category's names | high (not executed) | `FeatureSets.GetFeaturesNeverSelects` | `FeatureSets.FeatureSet.GetFeatures` |
| aes/features/feature_set.py:45 | `data.columns.to.list()`: a column index has no attribute `to`, so construction always raises | any data frame | `data.columns.to_list()` | high (not executed) | `FeatureSets.NewAsWrittenAlwaysFails` | `FeatureSets.FeatureSet.constructor` |
| aes/utils/dates.py:35 | `[+-zZ]` is a range from '+' to 'z', so digits and most letters are taken for a designator, and every one but '+', 'z' and 'Z' is read as negative | "201203211834445" raises `TypeError` | the designator set '+', '-', 'Z', 'z' | high (not executed) | `Dates.DigitDesignatorAsWritten` | `Dates.DigitDesignatorIntended` |

The extractors and `PdfDateTime` model the code as written. The intended tables and the
intended designator set are separate constants, and the lemmas in the last column prove
the intended behaviour about them. For the pipeline, feature-set construction and
`get_features`, the class methods model the intended behaviour. The functions in the
as-written column record what the code does instead.
