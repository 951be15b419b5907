# Copernicus Global Land catalog — a Dafny model

`cgls_land.py` gives access to the Copernicus Global Land products. A
`Session` reads the plain-text manifest of a product: one URL per line, with
the date of the observation in its path. It turns the manifest into an
observation table sorted by date. A `Collection` answers questions about that
table (date range, algorithm versions, sensors, real-time tags). It resolves a
date selector to rows of the table and downloads their files.

This project models that core in Dafny and proves what it promises:

- `wrappers.dfy`: `Option` and `Result`.
- `text.dfy`: the Python string operations the parser uses. These are
  `str.split`, `os.path.join` on a POSIX host, `s[-k:]`, `t in s` and the
  ordering of `str`.
- `dates.dfy`: the search for the first `YYYY/MM/DD` of a line, and the
  conversion of the match to a date. A date is the integer key
  `y*10000 + m*100 + d`, which orders dates as the calendar does.
- `manifest.dfy`: the per-line parser and the table builder of
  `load_collection`.
- `fetch.dfy`: `_get_file` (skip rule, write, size check) over a `Disk`
  object, and the gathering of the per-file results in `download`.
- `catalog.dfy`: `unique()`, the real-time de-duplication, the floor lookup of
  `get_indexer(method='ffill')`, the selectors, and the `Collection` class with
  its cached fields, getters and `download`.
- `session.dfy`: `load_collection` with the product list and the manifest text
  as parameters.

Two details of the code shape what the model states:

- The local sub-path `int_path` is `os.path.join(*exploded[-8:-1])`. That is
  at most seven segments, the last of them the product name
  (`Manifest.PathSegments`).
- `_get_file` returns `None` after an HTTP error. After a size mismatch it
  returns an `Exception` object. Both values are appended to `downloaded_list`
  (`Fetch.Kept`). Only a call that raises is dropped. So `download` fails with
  '0 files downloaded' only when every call raised (`Fetch.KeptEmpty`,
  `Catalog.Gathered`).

## Model

| member | source | states |
|---|---|---|
| Text.SplitJoin | cgls_land.py:89 | joining the pieces of `line.split('/')` with '/' gives the line back |
| Text.JoinSplit | cgls_land.py:89 | splitting a join of separator-free pieces gives the pieces back |
| Text.SplitCount | cgls_land.py:84 | a split has one piece more than there are separators |
| Text.Suffix | cgls_land.py:94 | `s[-k:]` has length min(len(s), k) and is a suffix of `s` |
| Text.PosixJoinPlain | cgls_land.py:90 | for non-empty pieces without '/', `os.path.join` glues them with '/' |
| Text.PosixJoinEndsWithLast | cgls_land.py:90 | `os.path.join` ends with its last argument |
| Text.StrLeTotal | cgls_land.py:118 | the `str` order used to sort the `rt` column is total |
| Text.StrLeTrans | cgls_land.py:118 | the `str` order is transitive |
| Text.StrLeAntisymmetric | cgls_land.py:118 | the `str` order is antisymmetric |
| Dates.FindDateFrom | cgls_land.py:88 | the found position holds a `\d\d\d\d/\d\d/\d\d` match and no match starts earlier; None means there is no match at all |
| Dates.DateValue | cgls_land.py:100 | `pd.to_datetime` accepts the match exactly when the year, month and day its digits spell form a valid calendar date within the range of a pandas Timestamp, and the date is then the key of that year, month and day |
| Dates.DateValueFields | cgls_land.py:100 | an accepted date lies within the Timestamp range and decodes back to the year, month and day written at the match |
| Dates.DateKeyFields | cgls_land.py:100 | a date key gives back its year (key / 10000), month and day, so distinct dates have distinct keys |
| Dates.DateKeyOrder | cgls_land.py:100 | date keys compare exactly as the calendar dates do (year, then month, then day), and are equal exactly for equal dates |
| Manifest.ParseLine | cgls_land.py:87-115 | a line parses iff it has a product name with two '_'-tokens, a date match, and that match converts; a line without a date fails; a parsed record's url is the line; the record has a real-time tag iff the name contains `-RT` |
| Manifest.ParseLineOk | cgls_land.py:87-115 | a shaped line whose first date match converts gives the record built from its segments and that date |
| Manifest.SensorOf | cgls_land.py:92-93 | the sensor holds no '_' |
| Manifest.TagOf | cgls_land.py:96-97 | a name has a real-time tag iff it contains `-RT`; the tag holds no '_', has at most 3 characters and ends the first '_'-token |
| Manifest.ParsedRecord | cgls_land.py:88-102 | a parsed line has at least three '/'-segments and two '_'-tokens in its name; its date is the value of the first date match; its record is built from its segments and that date |
| Manifest.ParseLinePath | cgls_land.py:89-91 | name and file name are the last two '/'-segments of the line and contain no '/'; int_path ends with the name |
| Manifest.ParseLineFields | cgls_land.py:92-97 | sensor is the second-to-last '_'-token and holds no '_'; version has no '_', at most 5 characters, ends the name and follows a '_' when shorter; the rt tag has no '_', ends the first token and has exactly min(3, its length) characters, so it is that token's `[-3:]` |
| Manifest.RecordOfFields | cgls_land.py:92-97 | the same facts for the record of any line whose name has two '_'-tokens |
| Manifest.NameFields | cgls_land.py:92-97 | the same facts stated on the product name alone |
| Manifest.VersionOf | cgls_land.py:94 | the version has at most 5 characters |
| Manifest.VersionOfName | cgls_land.py:94 | the version has no '_' and at most 5 characters, ends the name, and is preceded by '_' when shorter than 5 |
| Manifest.LastTwoSegments | cgls_land.py:89-91 | the line ends with '/' + name + '/' + file name |
| Manifest.IntPathSegments | cgls_land.py:90 | when the seven segments before the file name are non-empty, int_path is exactly those seven segments (`exploded[-8:-1]`) joined with '/', and it stands in the URL right before the file name |
| Manifest.RecordOfIntPath | cgls_land.py:90 | the same for the record of any line whose name has two '_'-tokens |
| Manifest.SegmentsBeforeLast | cgls_land.py:90 | the line ends with '/' + the join of `exploded[-8:-1]` + '/' + the last segment |
| Manifest.DateGivesThreeSegments | cgls_land.py:88-89 | a line with a date splits into at least three '/'-segments |
| Manifest.Lines | cgls_land.py:84-87 | the visited lines contain no newline |
| Manifest.LinesCount | cgls_land.py:84-87 | there is one visited line per newline of the text |
| Manifest.LinesOfTerminatedText | cgls_land.py:84-87 | a text ending in a newline yields exactly its newline-separated lines |
| Manifest.OutcomeAt | cgls_land.py:87 | the outcome at position i is the parse of line i |
| Manifest.Gather | cgls_land.py:87-121 | a gathered manifest has one record per line |
| Manifest.GatherAllOk | cgls_land.py:87-121 | the manifest gathers iff every line parses, and then holds the record of each line at its position |
| Manifest.GatherError | cgls_land.py:87-121 | a failed gathering carries the error of a line that follows only lines that parse |
| Manifest.GatherFirstError | cgls_land.py:87-121 | a failing line after lines that all parse decides the error |
| Manifest.GatherErrorAfterOk | cgls_land.py:87-121 | a failing line after a prefix that gathers decides the error |
| Manifest.MissingDateAborts | cgls_land.py:88-100 | a line without a date aborts the whole manifest |
| Manifest.SortedByDateRtByDate | cgls_land.py:117-121 | sorted by (date, rt) implies sorted by date |
| Manifest.KeyLeTotal | cgls_land.py:117-121 | the sort order is total |
| Manifest.KeyLeTrans | cgls_land.py:117-121 | the sort order is transitive |
| Manifest.Insert | cgls_land.py:117-121 | inserting adds exactly one row |
| Manifest.SortBy | cgls_land.py:117-121 | the sort keeps the number of rows |
| Manifest.InsertSorted | cgls_land.py:117-121 | inserting into a sorted table keeps it sorted |
| Manifest.InsertPermutation | cgls_land.py:117-121 | the result is the input plus the inserted row, as a multiset |
| Manifest.SortBySorted | cgls_land.py:117-121 | the sort yields a sorted table |
| Manifest.SortByPermutation | cgls_land.py:117-121 | the sort is a permutation of its input |
| Manifest.Table | cgls_land.py:98-121 | the table has one row per appended record |
| Manifest.TablePermutation | cgls_land.py:98-121 | the table holds exactly the appended records, one row each |
| Manifest.TableSorted | cgls_land.py:117-121 | the table is sorted by date, and by (date, rt) when the last appended record is real-time |
| Manifest.BuildTable | cgls_land.py:84-121 | the loop yields the table of the records of all lines, or the error of the first failing line |
| Manifest.TableOfManifest | cgls_land.py:84-121 | the built table has one row per line, is a permutation of the records, is sorted by date, and by (date, rt) when the last line is real-time |
| Fetch.FileOutcome | cgls_land.py:262-292 | a call raises iff the request fails other than by an HTTP error; it returns None iff the HTTP status is an error; a returned path is the task's local path, and a mismatch value names the task's file |
| Fetch.FilesAfter | cgls_land.py:262-292 | a call with a body has the task's local path on disk afterwards; no other path appears or disappears |
| Fetch.GetFile | cgls_land.py:262-292 | the outcome and new file system are those of the skip, write and size-check rules |
| Fetch.ReturnedPathHasDeclaredSize | cgls_land.py:274-292 | a path is returned iff the file there ends with the declared size (default 0); a mismatch value iff it ends with another size |
| Fetch.WritesOnlyItsFile | cgls_land.py:278-287 | only the file of the task can change; it changes only when it is not already there with the declared size, and then it holds the streamed bytes |
| Fetch.RepeatDownloadIsNoOp | cgls_land.py:278-280 | after a download that returned its path, the same download skips the file and changes nothing |
| Fetch.Kept | cgls_land.py:250-255 | `downloaded_list` holds at most one value per call |
| Fetch.KeptCount | cgls_land.py:250-255 | every returned value, None and Exception objects included, reaches `downloaded_list` once per call that returned it; raised calls are dropped |
| Fetch.KeptOrderIndependent | cgls_land.py:250 | the completion order changes `downloaded_list` only up to order |
| Fetch.KeptEmpty | cgls_land.py:257-258 | nothing is gathered iff every call raised |
| Fetch.RunAll | cgls_land.py:245-255 | one outcome per task |
| Fetch.RunAllAt | cgls_land.py:245-253 | the outcome of a task is `_get_file` on its URL and name, against the file system the earlier tasks left |
| Fetch.RunTasks | cgls_land.py:241-255 | the loop gathers the values of the calls that returned and leaves the file system as the calls do |
| Catalog.Distinct | cgls_land.py:145-158 | `unique()` holds every value of the column, each once |
| Catalog.DistinctOfPrefix | cgls_land.py:145-158 | the distinct values come in order of first appearance |
| Catalog.DistinctStep | cgls_land.py:145-158 | a further value extends the distinct values or leaves them as they are |
| Catalog.DedupKeepLast | cgls_land.py:187 | the de-duplication keeps at most every row, and always keeps the last row |
| Catalog.DedupKeepsDates | cgls_land.py:187 | the de-duplication keeps the set of dates |
| Catalog.DedupUnique | cgls_land.py:187 | after the de-duplication every date occurs once |
| Catalog.DedupKeepsLast | cgls_land.py:187 | each row kept is the last row of its date |
| Catalog.DedupKeepsLastOfEachDate | cgls_land.py:187 | one row per date, the same dates, and each row the last of its date |
| Catalog.DedupKeepsOrder | cgls_land.py:187 | a sorted table stays sorted, keeps its first date and its last row |
| Catalog.DedupRepeatedHead | cgls_land.py:187 | a first row whose date comes again is dropped, and the kept rest starts no later than its date |
| Catalog.HeadBeforeDedupRest | cgls_land.py:187 | in a sorted table the first row comes no later than any kept row of the rest |
| Catalog.DedupSubset | cgls_land.py:187 | every row kept is a row of the table |
| Catalog.DatesOfCons | cgls_land.py:187 | the dates of a table are its first date and the dates of the rest |
| Catalog.Floor | cgls_land.py:205-225 | the greatest position with a date not after the request, or -1 |
| Catalog.FloorOfSorted | cgls_land.py:205-225 | on a sorted table: rows up to the floor are not after the request; -1 iff the request precedes the first date; an exact date is found at its row when dates are unique; a date between two consecutive dates gives the earlier |
| Catalog.PySlice | cgls_land.py:227 | `s[lo:hi]` is never longer than `s`; within bounds it is the plain slice; a negative start counts from the end; every empty range, including a negative start past a non-negative stop, gives nothing |
| Catalog.LatestAsWritten | cgls_land.py:197 | the "latest" branch as written always raises |
| Catalog.LatestRow | cgls_land.py:197 | the "latest" branch as intended selects one row |
| Catalog.LatestRowHasLatestDate | cgls_land.py:197 | that row is the last of the table and holds the latest date |
| Catalog.LatestAsWrittenAlwaysFails | cgls_land.py:197 | as written the branch raises on every table; as intended it yields the last row |
| Catalog.ResolveOne | cgls_land.py:200-206 | a date outside [start, end] raises; a non-unique date index raises; otherwise the row at the floor of the date |
| Catalog.ResolveMany | cgls_land.py:208-216 | a successful list has one task per date |
| Catalog.ResolveManyOk | cgls_land.py:208-216 | the list succeeds iff every date does, with each date's task at its position |
| Catalog.ResolveManyFirstError | cgls_land.py:208-216 | the first failing date decides the error; any out-of-range date aborts the call |
| Catalog.Interval | cgls_land.py:217-228 | the three assertions are checked in order: an endpoint in range, start not after stop, start different from stop; once they pass, the interval succeeds iff the date index is unique, and fails with a non-unique index otherwise |
| Catalog.IntervalIsRun | cgls_land.py:224-228 | from the first date on, the interval is the contiguous run from the floor of start to the floor of stop, and holds every row dated within it |
| Catalog.IntervalBeforeFirstDate | cgls_land.py:224-228 | a start before the first date gives index -1, and the slice keeps at most the last row |
| Catalog.ExampleIntervalBeforeFirstDate | cgls_land.py:224-228 | a two-day table asked from the day before to the first day selects nothing |
| Catalog.Resolve | cgls_land.py:195-228 | a successful "latest" or single-date request selects one task, a list one task per date; "latest" never fails; a selector of another type selects nothing |
| Catalog.ExactDateGivesItsRow | cgls_land.py:199-206 | on a sorted table with unique dates, asking for one of its dates gives that row |
| Catalog.InRangeDateGivesFloorRow | cgls_land.py:199-206 | a date within range gives the row with the greatest date not after it |
| Catalog.DestDir | cgls_land.py:230-236 | an absolute path is kept; a relative path is joined onto the working directory (`cwd + "/" + path`, without the '/' when `cwd` is empty or ends in one); with no path, the directory is exactly `./data/<int_path of the first task>` for a relative int_path, always ends with that int_path, and fails when there is no task |
| Catalog.Prepared | cgls_land.py:181-193 | a prepared table is not empty |
| Catalog.PreparedTable | cgls_land.py:181-193 | with an `rt` column, a tag raises and otherwise the table is de-duplicated; without one it is untouched; it stays sorted with the same first date and last row |
| Catalog.Plan | cgls_land.py:195-236 | a plan's tasks are those the selector resolves to |
| Catalog.Gathered | cgls_land.py:257-260 | '0 files downloaded' iff every call raised |
| Catalog.Deliver | cgls_land.py:238-260 | the files of all tasks are fetched into the directory, the file system is left as the calls leave it, and the result is what `Gathered` makes of the run |
| Catalog.Collection.constructor | cgls_land.py:128-137 | a new collection holds the table with every cache empty; it has an `rt` column iff some row is real-time |
| Catalog.Collection.GetDateRange | cgls_land.py:139-143 | the first and last dates, bounding every date, cached; succeeds on every non-empty table whose date column is still a column, and fails without a date column |
| Catalog.Collection.GetAlgVersionList | cgls_land.py:145-147 | the distinct versions, cached; the class invariant is kept |
| Catalog.Collection.GetRt | cgls_land.py:149-154 | the distinct rt values when there is an `rt` column, None otherwise; the class invariant is kept |
| Catalog.Collection.GetSensors | cgls_land.py:156-158 | the distinct sensors, cached; the class invariant is kept |
| Catalog.Collection.Download | cgls_land.py:179-260 | the cached sensors, versions and rt values never change; when the table cannot be prepared, its error is raised with every field of the collection and every file unchanged; otherwise the table is the prepared one, indexed by date, and the files are fetched as planned; `self.path` becomes the planned directory, stays as it was when the selector raises, and is the `path` argument when only the destination fails |
| Catalog.Collection.Prepare | cgls_land.py:181-193 | the table becomes the prepared one, the cached dates are its first and last, and the date column goes into the index; or the preparation's error is returned with the table, the index flag and the cached dates unchanged; the collection stays valid |
| Catalog.FetchSelected | cgls_land.py:195-260 | the selected tasks' files are fetched into the planned directory and gathered, or the plan's error is raised before any file is touched; the path stays as it was when the selector raises, and is the `path` argument when only the destination fails (no task picked and no path given) |
| Session.LoadCollection | cgls_land.py:55-123 | an unlisted product (substring test) is refused; otherwise the collection of the manifest's table, or the first failing line's error; the new collection has an `rt` column iff some row is real-time, its date column is not yet indexed, and every cache is empty |

## Left out

- Network I/O is left out: authentication, the listing requests and every `requests` call. The product list, the manifest text and the server's reply to each file URL are parameters.
- `pd.read_html` scraping of the directory listings is left out. The product names are an input sequence.
- `Session.collections`, `Session.list_collections` and the cached `products` list are left out. They only fetch and print that list.
- The `infos` property, `tqdm` progress bars and every `print` are left out. They are output only.
- `ThreadPoolExecutor` and `as_completed` are left out. The tasks run one after the other in submission order, and the results are gathered in that order. `Fetch.KeptOrderIndependent` shows that another completion order changes `downloaded_list` only up to order. Tasks writing to the same path at the same time are not modelled.
- An exception raised while the body streams is not modelled. A `content-length` that is not an integer makes `int()` raise; it is folded into the reply `Failure`.
- `os.makedirs` and directories are not modelled. The `Disk` holds regular files by path.
- `Manifest.TagOf`: its own contract bounds the tag by 3 characters; the exact length, min(3, length of the first token), is stated by `Manifest.NameFields`, because on `TagOf` the extra clause made the proofs that use it too costly.
- `Catalog.AbsPath`: `os.path.abspath` is modelled as joining onto the working directory, without normalising the path (`.` and `..` segments, repeated '/', a trailing '/'); for a path such as `data/` the model keeps the trailing '/', which names the same directory.
- `Catalog.Collection.Download`: the requested dates are date keys. `pd.to_datetime` of a string, and the comparison of a `Timestamp` with a string in the interval branch, are not modelled.
- `Dates.FindDateFrom`: `\d` matches only the ASCII digits. Python's `re` on `str` also matches other Unicode decimal digits.
- `Manifest.BuildTable`: the model sorts by insertion, which is stable. pandas' default quicksort may order rows with equal keys differently. Of the source, only what `Manifest.TableOfManifest` states is claimed: one row per line, a permutation of the records, sorted by date, and by (date, rt) when the last line is real-time.
- The tag filter `self.observation_table.RT == rt` (cgls_land.py:185) reads an attribute that does not exist. It is modelled as it runs: it raises (`NoRtAttribute`). A working filter is not modelled.
- The `session` field of `Collection` is not modelled. The server replies stand for it.

## Findings

| source | as written | input that shows it | evidently intended | confidence | as-written member | corrected member |
|---|---|---|---|---|---|---|
| cgls_land.py:197 | `self.observation_table.tail(1).item()[['url', 'file_name', 'int_path']]` calls `item` on a one-row DataFrame, which has no such method, so `download()` with no date raises AttributeError | `download()` with `date=None` on any collection with at least one row | the url, file name and int_path of the last row of the table | high, not executed | Catalog.LatestAsWritten (Catalog.LatestAsWrittenAlwaysFails) | Catalog.LatestRow (Catalog.LatestRowHasLatestDate) |
