# Vacancies: a Dafny model

This project models the core of *app_for_working_with_vacancies*, a small Python tool that
fetches job vacancies from hh.ru, turns them into `Vacancy` objects, ranks them by salary and
keeps them in a JSON file. The model covers three parts of it:

- **`Vacancy`** (`src/vacancies.py`). The constructor validates the link against a URL pattern
  matched case-insensitively. It turns the salary dict into one integer: the floor mean of the
  bounds, converted into roubles by an outside service when the currency is not the rouble. It
  makes the description text and title-cases the area. Vacancies compare by salary alone, with
  the ordering operators completed by `functools.total_ordering`. `__str__` renders a vacancy as
  a text card.
- **`get_top_vacancies_for_salary`** (`src/utils.py`). It builds a `Vacancy` from every raw
  record, sorts them with a stable sort, highest salary first, and keeps the first `top`.
- **`JSONWorker`** (`src/vacancy_worker.py`). It reads the stored records back as vacancies.
  Missing or malformed files read as empty. It appends records whose name is truthy and not stored
  yet, and it empties the file.

## Modules

| file | module | models |
|---|---|---|
| `wrappers.dfy` | `Wrappers` | `Option`, and `Result` for a value or the exception that replaced it |
| `py_values.dfy` | `PyValues` | JSON values as Python sees them: truthiness, `dict.get` and `d[key]`, `==` (where `True == 1`), `int()`, `str()`/`repr()`, `str.title()` |
| `links.dfy` | `Links` | the link pattern, as a language and as a recogniser proved to accept exactly that language |
| `vacancies.dfy` | `Vacancies` | `Vacancy.__init__`, the salary rule, the comparisons and `__str__` |
| `utils.dfy` | `Ranking` | the top-N ranker: stable descending sort, then the slice |
| `vacancy_worker.dfy` | `VacancyWorker` | the `JSONWorker` class, over a `JsonFile` object that workers on the same file share |

### Modelling choices

- **Exceptions.** A Python exception is an `Err` of `Vacancies.Error`. Each error names its cause:
  - `BadArguments`: `Vacancy(**record)` where the keys are not exactly the six parameters.
  - `InvalidLink`: the link check fails.
  - `MissingKey(key)`: a missing key in the salary dict.
  - `NotSubscriptable`: the salary is truthy but not a dict.
  - `NotAnInteger`: `int()` fails.
  - `ConversionFailed`: the currency converter fails.
  - `NoTitle`: the area is not a string.
- **JSON objects.** An object is its list of (key, value) pairs in order. A lookup takes the
  last pair with the key, as `json.load` does with repeated keys.
- **Currency conversion.** `get_convert_salary` calls a web API. Here it is the parameter
  `convert: (int, Value) -> Option<int>`, where `None` means the call raised.
- **The file.** The file on disk is an object of class `JsonFile`. Its `content` is a `FileState`:
  `Missing`, `Corrupt` (not valid JSON) or `Stored(records)`. Writing with `json.dump` and reading
  back with `json.load` gives the same records, so each write is a new `Stored` state. Workers on
  the same file share one `JsonFile`, as the module-level workers of `main.py:10` and
  `src/main_utils.py:7` share `data/vacancies.json`. Every method reads `content` afresh, so a
  write through one worker is seen by the next call of any other. The caller passes the
  `JsonFile` that the worker's name opens.
- **Read outcome.** `get_vacancy` prints a message when the file is missing or corrupt. The model
  returns it as a `ReadStatus` instead.
- **Loops.** The loops of the source are methods with loop invariants:
  - `JSONWorker.AddVacancy` is the loop of `add_vacancy`;
  - `ContainsName` is its `any(...)` scan.

  Each is proved against a specification function, `AddAll` and `HasName`. The properties are
  proved about those functions as lemmas.
- **The description placeholder.** The class docstring says a missing description becomes
  "Требования не указаны". The code puts that placeholder inside `isinstance(description, str)`
  and a `description is not None` test (`src/vacancies.py:44-50`), so no input reaches it. A
  `None` description becomes the text `"None"`, and the model follows the code.
  `Vacancies.DescribeIsStr` proves the description is always `str(description)`.

## Model

| member | source | states |
|---|---|---|
| `Vacancies.NewVacancy` | src/vacancies.py:30-52 | construction succeeds exactly when the link is valid, the salary can be normalised and the area is a string. The first failing step decides the error. A built vacancy keeps the name and contact, stores the link unchanged, the normalised salary, the description as text and the title-cased area |
| `Vacancies.FromRecord` | src/utils.py:18 | `Vacancy(**record)` raises TypeError unless the record's keys are exactly the six parameters. Otherwise it is the constructor applied to the record's values |
| `Vacancies.ValidateLink` | src/vacancies.py:77-93 | accepted exactly when the link is a string that the pattern matches. The link is then kept unchanged; anything else raises ValueError |
| `Links.LinkAccepted` | src/vacancies.py:89-90 | `re.match` with IGNORECASE accepts exactly the pattern's language, plus a word of it followed by one newline (the `$` rule) |
| `Links.MatchLink` | src/vacancies.py:89 | the recogniser accepts a string iff it splits as optional scheme, non-empty host, dot, 2-6 letter/dot top-level part and path |
| `Links.AcceptedLinkHasDot` | src/vacancies.py:89 | every accepted link contains a dot |
| `Vacancies.BoundOrZero` | src/vacancies.py:105-106 | a missing bound key raises KeyError. A present key always reads: a truthy bound as itself, a falsy one as 0 |
| `Vacancies.SalaryBounds` | src/vacancies.py:105-107 | the bounds are `int()` of each bound, with errors in source order: the "from" key, the "to" key, then each `int()`. With both keys present it succeeds iff both `int()` calls do, and otherwise raises the `int()` error |
| `Vacancies.Midpoint` | src/vacancies.py:107 | `(lo + hi) // 2` is the floor of the mean: `2m <= lo + hi <= 2m + 1` |
| `Vacancies.NormalizeSalary` | src/vacancies.py:103-113 | a falsy salary is 0. A truthy non-dict raises. A dict without "currency" raises KeyError. A dict with "currency" whose bounds cannot be read raises the error `SalaryBounds` gives: KeyError for a missing bound, otherwise the `int()` error. A successful result needs both bounds readable |
| `Vacancies.SalaryRule` | src/vacancies.py:104-111 | in RUR/RUB the salary is the floor mean of the bounds whatever the converter does. In any other currency it is the converter's answer for that floor mean, or an error when the converter fails |
| `Vacancies.IsRouble` | src/vacancies.py:104 | `currency in ["RUR", "RUB"]` holds for exactly those two strings; no bool or number equals either |
| `Vacancies.Describe` | src/vacancies.py:44-50 | a string description is stored verbatim; `None` becomes "None" |
| `Vacancies.DescribeIsStr` | src/vacancies.py:44-50 | for every input the stored description equals `str(description)`: the placeholder branch is unreachable |
| `PyValues.PyStr` | src/vacancies.py:50 | `str()` of a string is itself, of `None` "None", and of an int its decimal text |
| `PyValues.IntOf` | src/vacancies.py:107 | `int()` of an int is that int, of a bool 0 or 1, of a string its parsed text; of None, a list or a dict it raises |
| `PyValues.ParseIntText` | src/vacancies.py:107 | `int(str(i)) == i` for every integer: decimal text round-trips |
| `PyValues.TruthySpec` | src/vacancies.py:103-106 | Python's truth test: a value is false exactly when it is None or `==` one of 0, "", [] and {}, so False is false and True is true |
| `PyValues.PyEqSpec` | src/vacancy_worker.py:49 | Python's `==`: values of the same kind are equal exactly when identical, and a bool equals exactly the integer it stands for (`True == 1`, `False == 0`) |
| `PyValues.Get` | src/vacancies.py:104-106 | a lookup fails exactly when the key is absent, and otherwise returns a value stored under that key |
| `PyValues.TitleSpec` | src/vacancies.py:51 | over the modelled letters, `str.title()` keeps the length; a cased character is upper-cased after an uncased one and lower-cased after a cased one; other characters are unchanged |
| `PyValues.TitleIdempotent` | src/vacancies.py:51 | title-casing twice is title-casing once |
| `PyValues.Title` | src/vacancies.py:51 | over the modelled letters, `str.title()` keeps the length, and letters stay letters and non-letters non-letters |
| `Vacancies.Eq` | src/vacancies.py:65-69 | `==` holds iff neither vacancy is `<` the other |
| `Vacancies.Lt` | src/vacancies.py:71-75 | `<` never holds between a vacancy and itself |
| `Vacancies.Ne` | src/vacancies.py:65-69 | Python's default `!=`, the negation of `__eq__`, holds iff one vacancy is `<` the other |
| `Vacancies.Le` | src/vacancies.py:7 | the derived `<=` is "not greater": `a <= b` iff not `b < a` |
| `Vacancies.Gt` | src/vacancies.py:7 | the derived `>` is the converse of `<` |
| `Vacancies.Ge` | src/vacancies.py:7 | the derived `>=` is the converse of `<=` |
| `Vacancies.SalaryOrder` | src/vacancies.py:65-75 | comparison by salary is a total preorder. Exactly one of `<`, `==`, `>` holds; `<` is irreflexive and transitive; `==` is an equivalence; `<=` is total and transitive. Vacancies with equal salaries are equal whatever else differs |
| `Vacancies.Render` | src/vacancies.py:54-63 | the card opens with "Ищем " and closes with a rule of ten dashes |
| `Vacancies.RenderShowsSalary` | src/vacancies.py:54-63 | the card shows "ЗПшечка: " followed by the salary, or by "По договоренности!" when the salary is 0 |
| `Vacancies.RenderShowsName` | src/vacancies.py:57 | the card shows `str(name)` |
| `Vacancies.ExampleVacancy` | tests/test_vacancies.py:34-41 | the test fixture builds a vacancy with salary 125000 and area "Москва" |
| `Vacancies.ExampleRoubleSalaries` | tests/test_vacancies.py:38 | bounds 100000 and 150000 in RUR give 125000 |
| `Vacancies.ExampleLowerBoundOnly` | tests/test_vacancies.py:113-123 | only a lower bound of 80000 gives 40000 |
| `Vacancies.ExampleUpperBoundOnly` | tests/test_vacancies.py:126-136 | only an upper bound of 120000 in RUR gives 60000; no salary gives 0 |
| `Vacancies.ExampleForeignSalary` | tests/test_vacancies.py:98-110 | a USD salary of 10000-12000 is the converter's answer for (11000, "USD") |
| `Vacancies.ExampleAreas` | tests/test_vacancies.py:40 | "Москва" is its own title case |
| `Vacancies.ExampleLinks` | tests/test_vacancies.py:84-95 | "https://example.com" is accepted; "not-a-url" and a non-string are rejected |
| `Ranking.BuildAll` | src/utils.py:18 | the list comprehension succeeds iff every record builds. It then has one vacancy per record, in order; otherwise it raises the first failing record's error |
| `Ranking.SortDescending` | src/utils.py:19 | `sorted(..., reverse=True)` is descending by salary and a permutation of its input |
| `Ranking.SortDescendingSpec` | src/utils.py:19 | `sorted(..., reverse=True)` is descending by salary, a permutation of its input, and keeps equal-salary vacancies in input order |
| `Ranking.StableSortUnique` | src/utils.py:19 | two descending lists with the same vacancies per salary, in the same order, are equal |
| `Ranking.SortDescendingIsTheStableSort` | src/utils.py:19 | every stable descending arrangement of the input is the model's sort result |
| `Ranking.SliceEnd` | src/utils.py:19 | `[:top]` of n items ends at top for 0 <= top <= n, at n for top > n, at n + top for -n <= top < 0, and at 0 below -n |
| `Ranking.TopOf` | src/utils.py:19 | `[:top]` keeps min(top, n) vacancies, or all but the last -top when top is negative. They are descending and drawn from the input. No left-out vacancy is paid more than a kept one, and for each salary the kept vacancies are the first of that salary in the input |
| `Ranking.TopVacancies` | src/utils.py:17-19 | raises iff some record cannot be built, and then with the error of the first record that cannot be built. Otherwise the result is `TopOf` of the built list: it has the slice's length and is descending. An empty input gives `[]` |
| `Ranking.TopVacanciesDrawn` | src/utils.py:17-19 | the top consists of vacancies built from the input records |
| `Ranking.TopVacanciesLeavesOutLower` | src/utils.py:17-19 | no record whose vacancy was left out of the top is paid more than a kept one |
| `VacancyWorker.JSONWorker.constructor` | src/vacancy_worker.py:8-9 | the worker keeps its file name and neither reads nor writes the file |
| `VacancyWorker.JSONWorker.Default` | src/vacancy_worker.py:8-9 | without a name the worker opens "data/vacancies.json" |
| `VacancyWorker.JSONWorker.GetVacancy` | src/vacancy_worker.py:11-29 | a missing or invalid file gives no vacancies and the matching status. A stored list gives one vacancy per record, in order, or the error of the first record that cannot be built |
| `VacancyWorker.JSONWorker.AddVacancy` | src/vacancy_worker.py:31-53 | the file then holds `AddAll` of the records read (none if the read failed) and the offered records |
| `VacancyWorker.JSONWorker.DelVacancy` | src/vacancy_worker.py:55-58 | the file then holds an empty list |
| `VacancyWorker.ContainsName` | src/vacancy_worker.py:49 | the scan finds a record whose name `==` the given name iff one exists |
| `VacancyWorker.NameOf` | src/vacancy_worker.py:48 | `vacancy.get("name")` is None without a "name" key, and otherwise a value stored under "name" |
| `VacancyWorker.HasNameSpec` | src/vacancy_worker.py:49 | `any(...)` holds iff the given name, compared as `==` compares, is in the set of the list's names |
| `VacancyWorker.AddOne` | src/vacancy_worker.py:48-50 | one turn keeps the list and appends at most the offered record, and only when its name is truthy and not yet in the list |
| `VacancyWorker.AddOneHoldsName` | src/vacancy_worker.py:48-50 | after one turn the list holds the offered name whenever that name is truthy |
| `VacancyWorker.AddAll` | src/vacancy_worker.py:47-50 | the records read from the file stay, unchanged and first, and each offered record appends at most one |
| `VacancyWorker.AddAllDrawsFromOffered` | src/vacancy_worker.py:47-50 | the appended records are a subsequence of the offered ones: drawn from them, in their order |
| `VacancyWorker.AddAllAdmitsOnlyNew` | src/vacancy_worker.py:48-50 | each appended record has a truthy name that no record before it in the list has |
| `VacancyWorker.AddAllConcat` | src/vacancy_worker.py:47-50 | offering `a` and then `b` equals offering `a + b` |
| `VacancyWorker.AddAllPrefix` | src/vacancy_worker.py:47-50 | the list after offering the first m records is a prefix of the list after offering all of them |
| `VacancyWorker.AddAllCovers` | src/vacancy_worker.py:47-50 | afterwards the list holds every truthy name that was offered |
| `VacancyWorker.NamesComeFromInputs` | src/vacancy_worker.py:47-50 | every name in the list afterwards was stored or offered |
| `VacancyWorker.FirstOfNameIsAdded` | src/vacancy_worker.py:47-50 | a record whose truthy name appears nowhere before it, stored or offered, is stored: the first record of each name wins |
| `VacancyWorker.NamesCount` | src/vacancy_worker.py:49 | a list never has more distinct names (as `==` compares them) than records, and has exactly as many iff no two records have `==` names |
| `VacancyWorker.AddAllKeepsNamesDistinct` | src/vacancy_worker.py:47-50 | appending keeps the list free of two records with `==` names, so it holds as many distinct names as records |
| `VacancyWorker.AddAllToEmptyDistinct` | src/vacancy_worker.py:41-50 | added to a missing or unreadable file, the stored records have distinct names |
| `VacancyWorker.AddAllNothingNew` | src/vacancy_worker.py:47-50 | offering only records with falsy or stored names changes nothing |
| `VacancyWorker.AddAllIdempotent` | src/vacancy_worker.py:31-53 | adding the same records twice gives the same list as adding them once |
| `VacancyWorker.DistinctPairGoesIn` | src/vacancy_worker.py:47-50 | two offers with truthy names that are not `==` both go into an empty file, in order |
| `VacancyWorker.ReofferKeepsFirst` | src/vacancy_worker.py:47-50 | an offer with a non-empty name goes into an empty file, and a second offer of that name with another salary leaves the first in place |
| `VacancyWorker.ExampleNoDuplicates` | tests/test_vacancy_worker.py:55-64 | two offers go into a new file in order. Re-offering the first name with another salary leaves the file, and the first salary, unchanged |
| `VacancyWorker.ExampleSharedFile` | main.py:10 | two default workers on one file: a record added through one is in the file the other reads, so re-offering its name through the other changes nothing |

## Left out

- `src/api_hh.py`, `main.py`, `src/main_utils.py`, `src/object_utils.py` and the abstract classes of `src/base_classes.py` are not part of this model: they are HTTP access, console interaction and interfaces.
- `get_convert_salary` (a web API call) is a parameter of the model. Its answer is taken as given, and so is its failure.
- Parsing JSON text is not modelled: the file's content is its parsed state. A file whose top-level value is not an array is not modelled either. For `get_vacancy`, a top-level null, number or bool raises TypeError as soon as the generator is created, since the generator iterates the loaded value at once. A top-level string or non-empty object raises TypeError in `Vacancy(**el)` when iteration reaches its first character or key. An empty object or string gives no vacancies and no error. For `add_vacancy`, the `any(...)` scan or `append` fails on such a value as soon as an offered record has a truthy name; otherwise the value is written back unchanged and nothing is raised. An array whose elements are not all objects (`[1]`, `[null]`, `[[]]`) is not modelled either, since a stored list holds records only. On such a file `get_vacancy` raises TypeError in `Vacancy(**el)` when iteration reaches the element (src/vacancy_worker.py:22), and `add_vacancy` raises AttributeError at `vac.get` (src/vacancy_worker.py:49) only when the scan reaches a non-object element, that is, for an offered truthy name that no stored object before that element has. A name found earlier stops `any(...)` there, and the file is then written back without error.
- Floating-point numbers are not among the modelled JSON values. `int()` of a float bound and the comparison of float salaries are therefore not covered.
- `PyValues.Title` and `\w` in the link pattern know the ASCII letters A-Z and a-z and the basic Cyrillic letters (U+0400-U+045F) only. Other Unicode letters count as uncased and non-word characters.
- `PyValues.IsDigit` is ASCII 0-9 only, and so are `\d` in `[\da-z.-]` and the digits of `\w` in the link pattern. Python's `\d` and `\w` match every Unicode decimal digit (Arabic-Indic, Devanagari and so on), so such links are rejected here but accepted by the source.
- The running time of the link check is not modelled: the model states which links are accepted, not how long the source takes to decide. The source's pattern nests a repetition inside a repetition (`([\/\w \.-]*)*` at src/vacancies.py:89), and Python's backtracking `re` may try every split of a long path before rejecting it, for instance when a `?` follows the path.
- `Links.LinkAccepted`: IGNORECASE folding is modelled for ASCII letters only. The Unicode case-folding oddities (the Kelvin sign, the long s, the dotted and dotless i) are not.
- `PyValues.IntOf`: `int()` of a string is modelled for an optional sign followed by ASCII digits. Surrounding whitespace, underscores between digits and non-ASCII digits are rejected here although Python accepts them.
- `PyValues.PyStr`: `repr()` escapes of non-ASCII non-printable characters beyond the ones listed in `EscapeChar` are not modelled.
- Comparing a `Vacancy` with an object of another type (`NotImplemented`) is not modelled: the comparisons take two vacancies.
- `JSONWorker.GetVacancy` builds every vacancy at once. The source returns a lazy generator, so a bad record raises only when iteration reaches it, and the records before it are still delivered.
- The messages that `get_vacancy` prints are not modelled; the model returns a `ReadStatus`.
- Write failures of `open(..., "w")` and `json.dump` are not modelled.
- `PyValues.PyEq` compares bools as the integers they equal at the top level only. Inside lists and dicts it compares structurally, and it treats dicts with the same pairs in another order as different.
- A record with a repeated key is stored as given; Python's dict would already have merged the repeats.
- Deleting by key and value, and `clear_vacancies`, are exercised by `tests/test_vacancy_worker.py` but do not exist in `src/vacancy_worker.py`. The model has the no-argument `del_vacancy` only.
- `VacancyWorker.JSONWorker.constructor`: as written, Python refuses to build a `JSONWorker` at all. The class subclasses the abstract base `AbstractFileWorker` (src/base_classes.py:22) but never defines its abstract `clear_vacancies` (src/base_classes.py:52-63). So every `JSONWorker(...)` raises TypeError before `__init__` runs, including the module-level workers at main.py:10 and src/main_utils.py:7. The model's constructors always succeed. The constructors and `GetVacancy`, `AddVacancy` and `DelVacancy` describe the methods as a concrete subclass that also defined `clear_vacancies` would run them.
- `VacancyWorker.JSONWorker.Default`: Dafny constructors have no default arguments. The source's `filename="data/vacancies.json"` is this second constructor.
- `Ranking.TopVacancies` always takes `top`. The source defaults it to 5 (src/utils.py:17), and main.py:40 relies on that default.
- A write to the file by another process between two calls is not modelled; within the program, workers share the `JsonFile`.
