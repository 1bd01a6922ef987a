# Checker harness model

This project models the grading harness of the ECE461 package-scoring
project (`checker/checker.py`, `checker/helper.py`, `checker/constants.py`).
The harness runs the project's `./run` commands. It then awards points by
inspecting their exit statuses and standard output:

- `run_install` counts how many of the three commands exit successfully.
- `run_urlfile` checks that the URL-file command prints one JSON record.
  The record must contain every required field, compared ignoring case.
  It builds a `MODULE_SCORE` from the record and checks the score and
  latency ranges with `is_valid`. It also expects the command to fail when
  `LOG_FILE` is set to the empty string, and again when `GITHUB_TOKEN` is.
- `run_test_suite` searches the test command's output for the line
  `X/Y test cases passed. Z% line coverage achieved.`. It grades the
  test count `Y` and the coverage `Z`.

The model consists of pure Dafny functions over immutable values:

- The commands themselves are not run. Their exit statuses and their
  output (for the URL file, the value `json.loads` produced) are
  parameters.
- A decoded JSON object is an ordered key list plus a map from keys to
  values. The order matters: the case-insensitive lookup lets a later key
  win.
- Scores and latencies are `real`s, because the harness only compares them.
- Every Python exception the code can raise on its inputs is an `Err`
  outcome (`KeyError`, `TypeError`, `UnboundLocalError`). Such exceptions
  are never a precondition. The one exception is the interpreter's limit
  on the digits `int()` converts, listed under "Left out".

Modules, one per concept:

| module | file | models |
|---|---|---|
| `Outcomes` | outcomes.dfy | `Option`, `Result` and the Python exceptions raised |
| `Text` | text.dfy | ASCII `str.lower` and case-insensitive comparison |
| `Schema` | schema.dfy | `FIELDS`, `SCORE_FIELDS`, `LATENCY_FIELDS`, `ALL_FIELDS` |
| `Json` | json.dfy | decoded JSON values; what compares as a number |
| `Lookup` | lookup.dfy | `MODULE_SCORE.__getitem__` |
| `ModuleScore` | module_score.dfy | `MODULE_SCORE.__init__` and `is_valid` |
| `Install` | install.dfy | `run_install` |
| `UrlFile` | url_file.dfy | `run_urlfile` |
| `TestReport` | test_report.dfy | the report-line regex: `search` and `findall()[0]` |
| `TestSuite` | test_suite.dfy | `run_test_suite` |

The regex `(\d+)\/(\d+) test cases passed. (\d+)% line coverage achieved.`
(with `re.IGNORECASE`) is modelled as a token list: number, literal, any
character. Each `\d+` is followed by a literal that begins with a non-digit.
So only the maximal digit run can lead to a match, and the model tries
nothing else (`TestReport.PatternSeparated`). `search` is the leftmost
position at which the pattern matches. `findall(output)[0]` is that same
match, so a single `Search` serves both calls.

## Model

| member | source | states |
|---|---|---|
| Text.LowerChar | checker/helper.py:40 | lower-casing maps exactly the ASCII capitals 32 code points up, to their small letters, and leaves every other character alone |
| Text.Lower | checker/helper.py:40 | ASCII lower-casing keeps the length of the string |
| Text.LowerSpec | checker/helper.py:40 | after `str.lower()` no ASCII capital is left; each capital moves 32 code points up to its small letter, and every other character stays as it was |
| Text.StartsWithIgnoringCaseLower | checker/checker.py:115 | a case-insensitive literal match at the start of a string is the same as equality of the lower-cased prefix |
| Schema.ScoreFieldsShape | checker/constants.py:23-30 | `SCORE_FIELDS` has six names, pairwise distinct, and still distinct after lower-casing |
| Schema.Suffixed | checker/constants.py:32 | the comprehension yields one name per input name |
| Schema.SuffixedSpec | checker/constants.py:32 | each result name is its input name followed by the suffix, and nothing more |
| Schema.LatencyFieldsShape | checker/constants.py:32 | `LATENCY_FIELDS` has six names: each score name with `_Latency` appended, in the same order |
| Schema.AllFieldsShape | checker/constants.py:19-33 | `ALL_FIELDS` has 13 names: `URL`, then the score names, then the latency names; no two are equal ignoring case |
| Schema.AttrFieldsLowerDistinct | checker/constants.py:23-32 | the twelve names set as attributes are `ALL_FIELDS` minus `URL`, and no two coincide once lower-cased |
| Json.Numeric | checker/helper.py:51 | the values `is_valid` can compare with numbers: JSON numbers and booleans (`True` is 1, `False` is 0); anything else is not a number |
| Lookup.LowerKeyMap | checker/helper.py:41 | the comprehension maps exactly the lower-cased keys, each to the last key in key order with that lower-case form |
| Lookup.GetItem | checker/helper.py:39-44 | the lookup is `None` exactly when no key equals the requested one ignoring case; otherwise it is the value under the last such key |
| Lookup.LaterKeyWins | checker/helper.py:41-43 | whenever `keys[j]` is the last key matching ignoring case, the lookup returns that key's value |
| Lookup.LaterKeyWinsExample | checker/helper.py:41 | of `score` and `Score`, a lookup of `SCORE` returns the value of the later key, `Score` |
| Lookup.GetItemExact | checker/helper.py:39-43 | a key spelt exactly so, with no other key equal to it ignoring case, is found with its own value |
| ModuleScore.SetAttrs | checker/helper.py:32-36 | a `setattr` loop adds exactly the lower-cased names of its fields to the attributes |
| ModuleScore.SetAttrsValues | checker/helper.py:32-36 | when the field names stay distinct once lower-cased, each attribute holds its own field's lookup, with nothing overwritten |
| ModuleScore.SetAttrsConcat | checker/helper.py:32-36 | the score loop followed by the latency loop is one loop over both lists |
| ModuleScore.AllAttrs | checker/helper.py:32-36 | the two loops set exactly the twelve lower-cased attribute names, each to the case-insensitive lookup of its field |
| ModuleScore.Construct | checker/helper.py:27-36 | construction raises `KeyError('URL')` exactly when no key is spelt `URL` exactly; otherwise it keeps that value as the URL and sets all twelve attributes by case-insensitive lookup |
| ModuleScore.CheckFields | checker/helper.py:49-57 | one loop of `is_valid` runs through exactly when every field is a number in range. It returns `False` when the first failing field is a number out of range, and raises when that field is not a number |
| ModuleScore.CrashNeedsNonNumber | checker/helper.py:51-56 | a loop raises only if some field is not a number |
| ModuleScore.IsValid | checker/helper.py:48-59 | `is_valid` is `True` exactly when every score is in `[0,1]` or `-1` and every latency is `>= 0` or `-1`. When all twelve are numbers it never raises. If it raises, the error is `TypeError` and some field was not a number |
| ModuleScore.OutOfRangeRejected | checker/helper.py:49-57 | with all attributes numeric, a single score outside `[0,1]` other than `-1` (such as `-0.5` or `1.2`), or a single negative latency other than `-1`, makes `is_valid` `False` |
| ModuleScore.ConstructIgnoringCase | checker/helper.py:30 | corrected constructor: it fails exactly when no key matches `URL` ignoring case, and keeps the lookup's value as the URL |
| Install.Tally | checker/checker.py:32 | the sum of booleans is the number of `True`s: at most the length, equal to it exactly when all are true, and 0 exactly when none is |
| Install.TallyUpdate | checker/checker.py:32 | turning one failure into a success adds exactly one point |
| Install.RunInstall | checker/checker.py:23-39 | `run_install` returns how many of the three commands succeeded: between 0 and 3, with 3 exactly when all succeed and 0 exactly when none does |
| UrlFile.OutputValid | checker/checker.py:62-67 | output is valid exactly when it decodes to an object in which every name of `ALL_FIELDS` matches some key ignoring case; then every such lookup finds a value |
| UrlFile.ExtraKeyAllowed | checker/checker.py:66-67 | adding an extra key to valid output keeps it valid |
| UrlFile.CountTrue3 | checker/checker.py:80-97 | the points of three pass/fail checks are the number of checks passed, 3 exactly when all pass |
| UrlFile.RecordPoints | checker/checker.py:78-98 | once a record exists the result is 2 plus one point for each check passed: `is_valid` true, the run without `LOG_FILE` failing, the run without `GITHUB_TOKEN` failing. Otherwise it is the error from building or checking the record. It is 5 exactly when all three pass |
| UrlFile.RunUrlFile | checker/checker.py:50-98 | `run_urlfile` returns 0 exactly when the command fails and 1 exactly when the output is invalid. On valid output it returns 2 plus one point per passed check (`is_valid`, and each environment run that fails), so at most 5, and 5 exactly when `URL` is spelt exactly, the record is valid and both environment runs fail. It raises only on valid output: `KeyError('URL')` exactly when no key is spelt `URL` exactly, and `TypeError` exactly when `URL` is spelt exactly and `is_valid` raises on the record; every other valid output is graded |
| UrlFile.ValidOutputHasUrl | checker/checker.py:67 | output that passes the presence check always has a key matching `URL` ignoring case |
| UrlFile.RunUrlFileCorrected | checker/checker.py:50-98 | with the corrected constructor, the same rules hold: 0 exactly on a failed run, 1 exactly on invalid output, otherwise 2 plus one point per passed check. It raises exactly when the output is valid and `is_valid` raises on the record, and the error is then `TypeError` |
| UrlFile.RunUrlFileCorrectedTotal | checker/checker.py:73-98 | with the corrected constructor, valid output with numeric fields never raises, and earns 5 exactly when all values are in range and both environment runs fail |
| UrlFile.LowercaseUrlRaises | checker/helper.py:30 | output keyed `url` with all fields 0 passes the presence check, then raises `KeyError('URL')`; the corrected grading awards 5 |
| TestReport.DigitRun | checker/checker.py:115 | `\d+` consumes a maximal run of digits: every character in it is a digit, and the next one is not |
| TestReport.DigitsValue | checker/checker.py:126-127 | `int()` of a digit string without a leading zero is positive, and printing it gives back the same digits (a lone `0` included) |
| TestReport.LeadingZeroValue | checker/checker.py:126-127 | a leading zero does not change what `int()` reads, as `int("025")` is 25 |
| TestReport.ZerosValue | checker/checker.py:126-127 | any number of leading zeros in front of a digit string leaves its `int()` value unchanged |
| TestReport.PaddedDecimalValue | checker/checker.py:126-127 | any number of zeros in front of a number's decimal form still reads as that number |
| TestReport.DigitsShape | checker/checker.py:126-127 | every non-empty digit string is its value's decimal form after some leading zeros, so the value of every digit string is fixed |
| TestReport.DecimalValue | checker/checker.py:126-127 | `int()` of a number's decimal form is the number |
| TestReport.DigitRunOf | checker/checker.py:115 | a digit string followed by a non-digit is consumed whole by `\d+` |
| TestReport.MatchToken | checker/checker.py:115 | a token consumes at most the input, and captures a number exactly when it is a `(\d+)` group |
| TestReport.MatchTokenSpec | checker/checker.py:115 | `(\d+)` succeeds exactly on input starting with a digit, consuming the maximal digit run and capturing its value; a literal succeeds exactly when the input starts with it ignoring case, consuming its length; `.` succeeds exactly on a first character other than a newline, consuming one |
| TestReport.MatchPrefixGroups | checker/checker.py:115 | a successful match captures one number per group of the pattern |
| TestReport.RenderDescribed | checker/checker.py:115 | the canonical rendering of the pattern with any numbers (each in decimal, literals as written, `.` at each `.`) is a text the pattern describes with those numbers |
| TestReport.MatchRender | checker/checker.py:115 | the canonical rendering of the pattern (`.` printed as `.`, literals in their written case) with any numbers, followed by anything, is matched at its start, capturing exactly those numbers |
| TestReport.DescribesMatches | checker/checker.py:115 | every text the pattern describes (digits spelling each number, each literal in any case, any character but a newline at each `.`), followed by anything, is matched at its start, capturing exactly the described numbers |
| TestReport.MatchDescribes | checker/checker.py:115 | conversely, whenever the pattern matches at the start of a string, a prefix of it is a text the pattern describes with the captured numbers |
| TestReport.PatternGroups | checker/checker.py:115 | the pattern has three groups: passed, total and coverage |
| TestReport.PatternSeparated | checker/checker.py:115 | every group in the pattern is followed by a literal that starts with a non-digit |
| TestReport.MatchReport | checker/checker.py:115-117 | a match of the report pattern at the start of a string captures exactly three numbers |
| TestReport.SearchFrom | checker/checker.py:117 | scanning returns the first position from which the pattern matches, or nothing when it matches at no later position |
| TestReport.Search | checker/checker.py:115-127 | `search` and `findall()[0]` give the leftmost position at which the line matches, with its three numbers; no match exactly when it matches nowhere |
| TestReport.SearchLine | checker/checker.py:117-127 | output that starts with a report line is matched at position 0, yielding that line's passed, total and coverage |
| TestReport.SearchDescribed | checker/checker.py:115-127 | output that starts with any text the pattern describes is found at position 0, yielding the numbers that text describes |
| TestReport.SearchFindsDescribed | checker/checker.py:117-127 | wherever `search` finds the line, the output there starts with a text the pattern describes with the three captured numbers |
| TestReport.DescribesReportLine | checker/checker.py:115 | three digit strings, the four literals in any case and any two non-newline characters at the `.`s, put together in pattern order, form a text the pattern describes with those three numbers |
| TestReport.PaddedLineMatches | checker/checker.py:115-127 | `05/025 test cases passed. 085% line coverage achieved.` followed by anything is found at position 0 with the numbers 5, 25 and 85 |
| TestReport.ShoutedLineMatches | checker/checker.py:115-117 | `1/25 TEST CASES PASSED! 85% line coverage achieved?` followed by anything is found at position 0 with the numbers 1, 25 and 85 |
| TestSuite.Grade | checker/checker.py:129-142 | grading a found line raises `UnboundLocalError('tptal_correct')` exactly for coverage in `[60,80)`. Otherwise it gives 1 to 4 points: 4 exactly when there are at least 20 tests and at least 80% coverage, at least 3 exactly when coverage is at least 80, and an even score exactly when there are at least 20 tests |
| TestSuite.GradeCorrected | checker/checker.py:129-141 | corrected grading gives 1 to 4 points, with 4 exactly when there are at least 20 tests and at least 80% coverage; coverage in `[60,80)` earns exactly 2 points, plus 1 for at least 20 tests |
| TestSuite.GradeCorrectedAgrees | checker/checker.py:134-141 | the corrected grade equals the written one wherever the written one returns. It also never falls as the test count or coverage rises |
| TestSuite.RunTestSuite | checker/checker.py:106-142 | `run_test_suite` returns 0 exactly when the command fails or no line matches, and never more than 4. It raises exactly when the first match's coverage is in `[60,80)`. The result depends only on that match's total and coverage |
| TestSuite.RunTestSuiteCorrected | checker/checker.py:106-142 | with the corrected middle branch the result is at most 4: 0 exactly when there is no run or no match, and 4 exactly when the first match has at least 20 tests and at least 80% coverage. Whenever the run succeeds and a line is found, the result is the corrected grade of the first match's total and coverage |
| TestSuite.ReportLineGraded | checker/checker.py:125-127 | output that starts with a report line is graded on its total and coverage alone, whatever the passed count and the text after it |
| TestSuite.MisspelledLocalRaises | checker/checker.py:137-138 | the line `25/25 test cases passed. 70% line coverage achieved.` makes `run_test_suite` raise `UnboundLocalError`; the corrected grading gives 3 |

## Left out

- `CLI_CMD_WRAPPER.run` (checker/helper.py:13-24): running a shell command is I/O. Each command's success flag and output are parameters. Because of `check=True`, its `returncode != 0` branch cannot be reached.
- `main` (checker/checker.py:149-187): it sets environment variables, creates the log file, changes directory and exits early below full marks. All of this is process and file I/O.
- In `run_urlfile`, the two runs with `LOG_FILE` and with `GITHUB_TOKEN` cleared (checker/checker.py:83-96) set environment variables. Only their exit statuses are modelled, as the parameters `noLogFileRc` and `noTokenRc`.
- `print_*`, `print_test_result` and the colour constants (checker/helper.py:62-78, checker/constants.py:35-42): terminal output only.
- `GITHUB_TOKEN`, `LOG_FILE`, `LOG_LEVEL`, `REPO_PATH` and `ONE_URL` (checker/constants.py:5-16): environment and file-system configuration.
- `json.loads`: a library parser. Its result is a parameter, with `None` standing for a parse error. The model has no NaN or infinities, because JSON numbers are `real`s.
- `MODULE_SCORE.ndjson_str` and the second decode of the same output in `__init__`: the second decode yields the same value as the first, so the decoded object is passed in directly.
- Unicode case folding and Unicode digits: `str.lower`, `re.IGNORECASE` and `\d` are modelled on ASCII only.
- Lookup.GetItem: it assumes the decoded object has distinct keys. `json.loads` keeps the last of a repeated key, so a decoded dict always does.
- TestSuite.RunTestSuite: the `int()` calls (checker/checker.py:126-127) raise `ValueError` on a digit string longer than the interpreter's integer-string conversion limit (4300 digits by default since CPython 3.11 and 3.10.7, and configurable). The model converts digit strings of any length, so it does not promise that error.
- ModuleScore.IsValid: a number compared with a non-number raises `TypeError`. The model states only that the error is `TypeError` and that some field was not a number. Which field was compared first is stated by ModuleScore.CheckFields.

## Findings

| source | as written | input that shows it | evidently intended | confidence | as-written member | corrected member |
|---|---|---|---|---|---|---|
| checker/checker.py:137-138 | for 60% to 80% coverage the branch increments `tptal_correct`, a local never assigned, so `run_test_suite` raises `UnboundLocalError` | output `25/25 test cases passed. 70% line coverage achieved.` from a successful command | add one point to `total_correct`, giving 3 | high, not executed | TestSuite.MisspelledLocalRaises | TestSuite.GradeCorrected |
| checker/helper.py:30 | the presence check (checker/checker.py:66-67) accepts a `URL` key in any case, but `MODULE_SCORE` reads `ndjson_obj['URL']` with exact case, so `run_urlfile` raises `KeyError` | a record with key `url` and every score and latency field present with value 0 | read the URL through the case-insensitive lookup, as every other field is read; the record then earns 5 points | medium, not executed | UrlFile.LowercaseUrlRaises | ModuleScore.ConstructIgnoringCase |
