# FoldScape record pipeline, modelled in Dafny

FoldScape keeps a catalog of protein-design software repositories as a
JSON array of repository records. This project models the three scripts
that make decisions about those records:

- **Validator** (`scripts/validation/validate_schema.py`). `check_type`
  and `validate_repo` check one record: the required top-level, metadata
  and tracking fields, non-negative stars, GitHub URLs, and the category,
  GPU-requirement and expression-system enumerations. The collection pass
  then flags repeated `repo_id`s, gives the verdict (valid exactly when no
  error was found) and, for a valid collection, counts coverage.
- **Categorizer** (`scripts/categorize_repos.py`). `categorize_repo` returns
  a manual override when one exists. Otherwise it returns the first
  category, in keyword-map order, one of whose keywords occurs in the
  lower-cased search text built from name, description and topics, or
  `None` when no keyword occurs. The loop in `main` writes that category
  into every record in place and counts categorized and uncategorized
  records.
- **Velocity engine** (`scripts/analysis/calculate_velocity.py`). It picks
  the snapshot dated exactly `days_back` days ago, or else the first
  available file name in sorted order (the oldest, for date-named files). It builds the historical star lookup, then writes
  `star_velocity_7d` and `trending` into every record in place and counts
  trending records.

Files and modules:

| file | module | contents |
|---|---|---|
| `json.dfy` | `Json` | the parsed JSON value, a record as `map<string, Json>`, Python truthiness, hashability and `dict.get` |
| `strings.dfy` | `Strings` | `needle in hay`, `sep.join`, Python's string order and the least name of a list |
| `validation.dfy` | `Validation` | the per-record checks as specification functions and as the methods that run them, plus the collection pass |
| `validation_properties.dfy` | `ValidationProperties` | what is reported on each field, and when a record passes |
| `collection_properties.dfy` | `CollectionProperties` | duplicate flagging, the collection verdict, and the coverage crash |
| `categorize.dfy` | `Categorize` | `categorize_repo`, the in-place categorize-all loop over an `array`, and its counters |
| `velocity.dfy` | `Velocity` | snapshot selection, the historical lookup, the in-place update loop over an `array` |

The record collections that `main` and `calculate_velocity` change in place are
`array<Record>`, and each loop is a method proved against a specification
function of the original records. The validator only reads, so its
collection is a `seq<Record>`.

Where the Python would raise (a `KeyError`, an `AttributeError` from
calling `.get` or `.startswith` on the wrong type, a `TypeError` from
hashing a list, indexing a string or list by a key, or iterating over a
number), the model has a precondition that names the shape the code
relies on: `Validation.Checkable`, `Validation.IdsHashable`,
`Categorize.Categorizable`, `Categorize.Updatable`,
`Velocity.HistoricalEntry` and `Velocity.Updatable`. Every shape the code
does test is modelled as a branch. Python's `key in v` and `for x in v`
also accept strings and lists, and the model follows them (`Json.KeyIn`,
`Json.Iterated`): a truthy string or list `classification` or
`domain_specific` that does not hold the key looked up draws no error, an
`expression_systems` string is checked character by character, and a
`topics` string gives one topic per character.

## Model

| member | source | states |
|---|---|---|
| Validation.CheckTable | scripts/validation/validate_schema.py:94-101 | the loop over a field table returns the table's errors in table order: missing, then (when types are checked) wrong type, per field |
| Validation.CheckMetadata | scripts/validation/validate_schema.py:104-123 | returns the metadata errors: the table check with `None` allowed, then the negative-stars check, then the GitHub-URL check, and nothing when `metadata` is not a dictionary |
| Validation.CheckClassification | scripts/validation/validate_schema.py:133-140 | returns the category error of a truthy classification dictionary, if any, and nothing for a string or list that does not hold `category` |
| Validation.CheckExpressionSystems | scripts/validation/validate_schema.py:154-159 | the loop returns one error per visited system outside the valid set, in visiting order |
| Validation.CheckDomain | scripts/validation/validate_schema.py:143-159 | returns the GPU-requirement error, then the errors of the systems visited by the loop, of a truthy `domain_specific` dictionary, and nothing for a string or list that holds neither key |
| Validation.ValidateRepo | scripts/validation/validate_schema.py:88-161 | returns the record's errors in order: top level, metadata, tracking, classification, domain; each error names `repo_id`, or `repo_index_<i>` when there is none |
| Validation.CollectionStep | scripts/validation/validate_schema.py:201-211 | one iteration adds the record's truthy id to the seen set and appends its duplicate error, then its own errors |
| Validation.CountHaving | scripts/validation/validate_schema.py:226-228 | a coverage count is at most the number of records, and is zero exactly when no record has the truthy sub-field |
| Validation.CoverageOf | scripts/validation/validate_schema.py:226-228 | each of the three coverage counts is at most the number of records |
| Validation.CountAsWritten | scripts/validation/validate_schema.py:226-228 | the comprehension as written completes exactly when no record holds a non-dictionary under the key, and then gives the corrected count |
| Validation.CoverageAsWritten | scripts/validation/validate_schema.py:226-228 | the coverage sums as written complete exactly when no record has a non-dictionary `classification` or `domain_specific`, and then agree with CoverageOf |
| Validation.ValidateRecords | scripts/validation/validate_schema.py:193-235 | the collection's errors are CollectionErrors; valid exactly when there are none; an empty collection is valid; coverage is given only for a valid, non-empty collection |
| ValidationProperties.TableErrorsEmpty | scripts/validation/validate_schema.py:79-101 | a table check reports nothing exactly when every field is present and, when types are checked, fits its type by `check_type`: `None` where allowed, or an instance of the expected type |
| ValidationProperties.TopLevelFieldErrors | scripts/validation/validate_schema.py:94-101 | on each of `repo_id`, `metadata`, `tracking` the record reports exactly "missing", or "wrong type" when present with another type, or nothing |
| ValidationProperties.TopLevelEmpty | scripts/validation/validate_schema.py:94-101 | the top-level check passes exactly when `repo_id` is a string and `metadata` and `tracking` are dictionaries |
| ValidationProperties.MetadataUnder | scripts/validation/validate_schema.py:104-123 | every metadata error is on a field under `metadata.` |
| ValidationProperties.MetadataOnlyOn | scripts/validation/validate_schema.py:88-161 | a field under `metadata.` is reported on by the metadata checks only |
| ValidationProperties.MetadataPlainFieldErrors | scripts/validation/validate_schema.py:104-113 | on `metadata.name` and `metadata.last_updated` the record reports "missing", or "wrong type" for a non-null value of another type, or nothing; nothing when `metadata` is not a dictionary |
| ValidationProperties.StarsErrorsExact | scripts/validation/validate_schema.py:104-118 | on `metadata.stars` the record reports "missing", or "wrong type" for a non-null non-integer, or "cannot be negative", or nothing (null passes) |
| ValidationProperties.UrlErrorsExact | scripts/validation/validate_schema.py:104-123 | on `metadata.url` the record reports "missing", or "wrong type" for a non-null non-string, or "must be a GitHub URL" for a non-empty string off `https://github.com/`, or nothing |
| ValidationProperties.MetadataEmpty | scripts/validation/validate_schema.py:104-123 | a metadata dictionary passes exactly when its four fields are present with their types or null, stars are not negative and a non-empty URL is on GitHub |
| ValidationProperties.TrackingEmpty | scripts/validation/validate_schema.py:126-130 | a tracking dictionary passes exactly when it has `first_tracked`, whatever its type |
| ValidationProperties.CategoryErrorsExact | scripts/validation/validate_schema.py:133-140 | `classification.category` is reported, with its value, exactly when a truthy classification dictionary holds a category outside the valid set (null is valid) |
| ValidationProperties.LayerNeverReported | scripts/validation/validate_schema.py:43-48 | nothing is ever reported on `classification.layer`: the layer list is declared but not checked |
| ValidationProperties.GpuErrorsExact | scripts/validation/validate_schema.py:146-151 | `domain_specific.gpu_requirement` is reported, with its value, exactly when a truthy requirement in a `domain_specific` dictionary is outside the valid set |
| ValidationProperties.ExpressionSystemsErrorsOn | scripts/validation/validate_schema.py:153-159 | the errors on `domain_specific.expression_systems` are those of the systems the loop visits when the value is truthy, and none otherwise |
| ValidationProperties.InvalidSystemsMembers | scripts/validation/validate_schema.py:154-155 | a value is an invalid system of a list exactly when it is in the list and outside the valid set |
| ValidationProperties.ExpressionErrorsInOrder | scripts/validation/validate_schema.py:154-159 | the expression-system errors name the invalid systems one by one, in list order, repeats included |
| ValidationProperties.CharactersAllInvalid | scripts/validation/validate_schema.py:155 | no one-character string is a valid expression system |
| ValidationProperties.StringSystemsPerCharacter | scripts/validation/validate_schema.py:154-159 | a string of systems draws one error per character, naming that character, in order |
| ValidationProperties.StringSystemsReported | scripts/validation/validate_schema.py:153-159 | on a record whose `expression_systems` is a string, the errors on that field are exactly one per character of the string, in order (`"E.coli"` draws six) |
| ValidationProperties.ExpressionErrorsEmpty | scripts/validation/validate_schema.py:154-159 | a systems list reports nothing exactly when every element is valid |
| ValidationProperties.DomainEmpty | scripts/validation/validate_schema.py:143-159 | a truthy `domain_specific` dictionary passes exactly when a truthy GPU requirement is valid and every system the loop visits is valid |
| ValidationProperties.RepoErrorsEmptyIff | scripts/validation/validate_schema.py:88-161 | `validate_repo` reports nothing exactly when the record is GoodRecord, the independent statement of every check passing |
| CollectionProperties.SeenIdsMembers | scripts/validation/validate_schema.py:199-207 | the seen set holds exactly the truthy ids of the records visited |
| CollectionProperties.DuplicateFlagging | scripts/validation/validate_schema.py:203-207 | a record gets a duplicate error exactly when its id is truthy and an earlier record has the same id |
| CollectionProperties.CollectionErrorsSnoc | scripts/validation/validate_schema.py:201-211 | one more record appends its duplicate error and then its own errors at its index |
| CollectionProperties.CollectionErrorsPrefix | scripts/validation/validate_schema.py:198-211 | errors are only appended: the errors of the first k records are a prefix of the errors of all of them |
| CollectionProperties.AddDuplicate | scripts/validation/validate_schema.py:201-211 | appending a clean record whose truthy id is already present adds exactly one duplicate error, naming that id |
| CollectionProperties.CollectionValidIff | scripts/validation/validate_schema.py:198-214 | the collection has no errors exactly when every record passes at its index and no truthy id repeats |
| CollectionProperties.CollectionValidIffGood | scripts/validation/validate_schema.py:193-221 | the collection is valid exactly when every record is GoodRecord and no truthy id repeats |
| CollectionProperties.SingleGoodRecordValid | scripts/validation/validate_schema.py:198-214 | a collection of one good record has no errors |
| CollectionProperties.GetRaisesShape | scripts/validation/validate_schema.py:133-159 | on a record `validate_repo` can check, a `classification` or `domain_specific` that is not a dictionary is either falsy or a string or list that holds none of the keys looked up in it |
| CollectionProperties.CoverageAsWrittenFails | scripts/validation/validate_schema.py:226-228 | for checkable records the coverage sums as written fail exactly when some `classification` or `domain_specific` is a falsy non-dictionary, or a string or list holding none of the keys `validate_repo` looks up |
| CollectionProperties.NullClassificationAccepted | scripts/validation/validate_schema.py:133 | a record with a null classification passes validation |
| CollectionProperties.NullClassificationCrashes | scripts/validation/validate_schema.py:226 | that same valid collection makes the coverage sums as written fail, while the corrected coverage is (0, 0, 0) |
| CollectionProperties.DraftClassificationAccepted | scripts/validation/validate_schema.py:133-135 | a record whose classification is the string `"draft"` passes validation, since `'category' in "draft"` is false |
| CollectionProperties.DraftClassificationCrashes | scripts/validation/validate_schema.py:226 | that valid collection also makes the coverage sums as written fail |
| Strings.ShorterLacks | scripts/validation/validate_schema.py:135 | `needle in hay` is false when the needle is longer than the text |
| Strings.ContainsIsSubstring | scripts/categorize_repos.py:38 | Python's `keyword in searchable` holds exactly when the keyword occurs at some position of the text |
| Strings.JoinContainsParts | scripts/categorize_repos.py:33 | every part occurs in the joined string |
| Strings.SmallestIsLeast | scripts/analysis/calculate_velocity.py:33-39 | the first name of `sorted(available)` is an available name that sorts before or equal to every available name |
| Strings.SmallestIsUnique | scripts/analysis/calculate_velocity.py:33-39 | any name that sorts before or equal to all names is that first name |
| Categorize.StringTopicsAreCharacters | scripts/categorize_repos.py:32 | a `topics` string gives one topic per character, in order |
| Categorize.SearchTextHoldsParts | scripts/categorize_repos.py:30-33 | the lower-cased name, description and each topic occur in the search text |
| Categorize.AnyKeywordIn | scripts/categorize_repos.py:37-39 | the keyword loop finds a keyword exactly when some keyword, lower-cased, occurs in the text |
| Categorize.FirstMatch | scripts/categorize_repos.py:36-41 | the category loop returns nothing exactly when no category matches; otherwise it returns the first matching category in map order |
| Categorize.CategorizeRepo | scripts/categorize_repos.py:23-27 | an overridden record gets its override value, whatever its metadata |
| Categorize.KeywordCategory | scripts/categorize_repos.py:29-41 | a record without an override gets null exactly when no category matches its search text, and otherwise the first matching category |
| Categorize.FirstCategoryWins | scripts/categorize_repos.py:36-39 | when a keyword of the first category occurs, that category is chosen, whatever the later categories say |
| Categorize.SetCategory | scripts/categorize_repos.py:61 | writing the category changes only `classification.category` and keeps every other key of the record and of its classification |
| Categorize.CategorizeIgnoresCategory | scripts/categorize_repos.py:18-41 | the category chosen does not depend on the record's current category |
| Categorize.RecategorizeIdempotent | scripts/categorize_repos.py:59-61 | categorizing a record twice gives the same record as categorizing it once |
| Categorize.CountsPartition | scripts/categorize_repos.py:59-66 | every record is counted once: the categorized count plus the uncategorized list length is the number of records |
| Categorize.UncategorizedMembers | scripts/categorize_repos.py:63-66 | an id is listed as uncategorized exactly when some record with that id got a falsy category |
| Categorize.CountersStep | scripts/categorize_repos.py:59-66 | one iteration adds one to the count for a truthy category, or appends the record's id to the list for a falsy one |
| Categorize.CategorizeAt | scripts/categorize_repos.py:60-61 | one iteration returns the record's category and replaces only that record by its categorized version |
| Categorize.CategorizeAll | scripts/categorize_repos.py:59-66 | every record is replaced in place by its categorized version; the counters are those of the original records, and they add up to the number of records |
| Categorize.AsciiLower | scripts/categorize_repos.py:30 | lower-casing maps each ASCII capital to its small letter and keeps every other character |
| Categorize.AlphaFoldIsCoreMethods | scripts/categorize_repos.py:18-41 | a repository described as "AlphaFold" with keyword "alphafold" listed first under Core Methods is categorized Core Methods |
| Velocity.SelectSnapshot | scripts/analysis/calculate_velocity.py:28-40 | there is no snapshot exactly when no file is available; a chosen snapshot is always an available file |
| Velocity.SelectSnapshotExact | scripts/analysis/calculate_velocity.py:29-31 | when the exactly dated file exists it is the one chosen |
| Velocity.SelectSnapshotOldest | scripts/analysis/calculate_velocity.py:33-39 | otherwise the chosen file sorts before or equal to every available file |
| Velocity.HistoricalStarsKeys | scripts/analysis/calculate_velocity.py:47 | an id is a key of the historical lookup exactly when some historical entry carries it |
| Velocity.HistoricalStarsLastWins | scripts/analysis/calculate_velocity.py:47 | the value for an id is the stars of the last entry that carries it |
| Velocity.LastEntryStars | scripts/analysis/calculate_velocity.py:47 | the last entry with an id gives that id's value in the lookup |
| Velocity.MissingHistoricalStarsCountAsZero | scripts/analysis/calculate_velocity.py:47-56 | a historical entry without stars gives an old count of 0, so the velocity is the full current count |
| Velocity.UpdateVelocity | scripts/analysis/calculate_velocity.py:57-58 | the update adds `star_velocity_7d` and `trending` to the tracking dictionary and changes nothing else in the record |
| Velocity.VelocityAndTrending | scripts/analysis/calculate_velocity.py:52-58 | velocity is current stars minus the historical stars (or current stars for an unknown id), and trending is velocity at least the threshold |
| Velocity.NewRepoHasZeroVelocity | scripts/analysis/calculate_velocity.py:54-58 | an id absent from the snapshot gets velocity 0, and is not trending for a positive threshold |
| Velocity.EqualStarsNotTrending | scripts/analysis/calculate_velocity.py:56-58 | equal current and historical stars give velocity 0, and not trending for a positive threshold |
| Velocity.UpdatedTrending | scripts/analysis/calculate_velocity.py:58-60 | an updated record counts as trending exactly when its velocity reaches the threshold |
| Velocity.UpdateAt | scripts/analysis/calculate_velocity.py:51-58 | one iteration replaces only that record, by its updated version |
| Velocity.CalculateVelocity | scripts/analysis/calculate_velocity.py:28-61 | with no snapshot it fails and changes nothing; otherwise every record is updated in place against the chosen snapshot's lookup, and the trending count is the number of trending records |
| Velocity.GainOfTwentyIsTrending | scripts/analysis/calculate_velocity.py:50-61 | 100 stars historically and 120 now, with threshold 10, give velocity 20 and trending |
| Velocity.UnknownRepoIsNotTrending | scripts/analysis/calculate_velocity.py:54-58 | a repository absent from an empty snapshot gets velocity 0 and is not trending |

## Left out

- File reading and writing, `json.load`/`json.dump`, the command line and every `print` are not modelled. The validator's root-shape dispatch (list, dict values, other) and its file errors (scripts/validation/validate_schema.py:164-191) are outside the model, which starts from the list of records. Error messages are modelled by kind (`Message`), not as the text built from Python type names.
- The date: `datetime.now() - timedelta(days=days_back)` is a parameter `target` (the file's date stem). The directory listing is a parameter `available` of `.json` file names, and "the exact file exists" is membership in that listing. The loaded snapshots are a parameter map from file name to records.
- Python's `bool` is a subclass of `int`, so `isinstance(True, int)` holds and `True` would pass as stars; the model keeps booleans apart from integers. Floating-point JSON numbers are not modelled.
- Python's `str.lower` is a parameter `lower` of the categorizer, because full Unicode case mapping is not modelled. `Categorize.AsciiLower` is its ASCII part, used in the worked example.
- Inputs on which the Python raises are excluded by preconditions and not modelled as errors. For example: a non-string truthy URL; a truthy `classification` or `domain_specific` that is a number or boolean, or a string or list that does hold a key looked up in it (which is then indexed by that key); a truthy `expression_systems` that is a number or boolean; an element of the record array that is not a JSON object, on which `repo.get` raises (scripts/validation/validate_schema.py:203), since a record is modelled as a map; an unhashable `repo_id`; a record without `repo_id` or `classification`, or without `metadata` when it has no override, in the categorizer loop; a record without `repo_id`, `metadata` or `tracking` in the velocity loop; `topics` that are null, a number, or a list holding a non-string. The coverage crash inside the validator is modelled as a result (see Findings), because it hits records the same script has just accepted.
- Among the inputs the validator accepts, these make a later script raise; the model excludes them by precondition rather than modelling the crash:
  - `"stars": null` in a record's metadata passes the `None`-allowed type check (scripts/validation/validate_schema.py:109). The velocity loop then computes `None - old_stars` (scripts/analysis/calculate_velocity.py:53,56); a null `stars` in a historical entry (line 47) fails the same way. `Velocity.Updatable` requires integer current stars and, when the record's id is in the lookup, an integer value there.
  - `"name": null` passes the same check, and the categorizer then calls `.lower()` on `None` (scripts/categorize_repos.py:30). `Categorize.Searchable` requires `name` to be absent or a string.
  - A record with no `classification`, or with one that is falsy (null, false, 0, "" or []) or a string or list not holding `category`, passes the validator, which checks the field only when present and truthy, and asks a string or list only `in` (scripts/validation/validate_schema.py:133-135). The categorizer loop then assigns `repo['classification']['category']` and raises (scripts/categorize_repos.py:61). `Categorize.Updatable` requires `classification` to be a dictionary.
  - `metadata.description` and `metadata.topics` are never checked by the validator. A truthy non-string description, `"topics": null` (or a number or boolean), or a topics list holding a non-string makes the categorizer raise when it lower-cases them (scripts/categorize_repos.py:31-32). `Categorize.Searchable` requires a falsy or string description and topics that are absent, a string, or a list of strings.
- A dictionary as `expression_systems` or as `topics` is iterated by its keys in insertion order, which a Dafny map does not keep; the model requires a list or a string there.
- The defaults `days_back=7` and `trending_threshold=10` (scripts/analysis/calculate_velocity.py:12) are not modelled as defaults: the target date and the threshold are parameters that every caller passes.
- Python dictionaries are modelled as Dafny maps standing for the JSON objects. The keyword map is a sequence of (category, keywords) pairs so that its insertion order is kept. Sharing of one record object between two positions of the array (aliasing between JSON values) does not arise from `json.load` and is not modelled.
- `OPTIONAL_FIELDS` and `VALID_LAYERS` are declared but consulted by no check, as in the source; `Validation.OptionalFields` and `Validation.ValidLayers` keep them and `ValidationProperties.LayerNeverReported` states the consequence.
- Forks are never checked by the validator, so no non-negativity property about forks is stated.
- A historical entry without stars could be read as absent from the lookup; the code stores 0 for it (`.get('stars', 0)`, scripts/analysis/calculate_velocity.py:47), and the model follows the code (`Velocity.StarsValue`, `Velocity.MissingHistoricalStarsCountAsZero`).
- Validation.ValidateRecords returns the corrected coverage (Validation.CoverageOf); the as-written sums are Validation.CoverageAsWritten (see Findings).
- The collector, the page embedding and the categorization table duplicated in the collector are not part of this model.

## Findings

| source | as written | input that shows it | evidently intended | confidence | as-written member | corrected member |
|---|---|---|---|---|---|---|
| scripts/validation/validate_schema.py:226-228 | `r.get('classification', {}).get('category')` calls `.get` on whatever value is stored, while `validate_repo` (line 133) only checks a classification that is truthy | one otherwise valid record with `"classification": null` (or `"classification": "draft"`): validation passes, then `.get` on `None` (or on the string) raises and the run aborts instead of printing coverage | a missing or falsy classification (or `domain_specific`) counts as not categorized, so the coverage is (0, 0, 0) | not executed | CollectionProperties.NullClassificationCrashes, CollectionProperties.DraftClassificationCrashes | Validation.CoverageOf |
