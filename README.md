# ISS tracker: a verified model of the state-vector store

The ISS tracker is a small Flask service. It downloads NASA's ISS ephemeris
feed, parses the feed into a list of state vectors and answers queries over
that list. Each state vector is an epoch plus position `X`, `Y`, `Z` and
velocity `X_Dot`, `Y_Dot`, `Z_Dot`. This project models the core of
`iss_tracker.py` and proves properties of the model:

- **the two text parsers.** `txt_to_dict` turns each feed line after a start
  marker into a field-name to text row. `get_data_info` reads the header,
  metadata or comment region of the feed into a dictionary or a list. Both
  rest on exact models of Python's `str.split`, `str.split(sep, 1)`,
  `str.strip` and `str.splitlines`, which are in `PyStrings`.
- **`load_data`.** It turns the rows into records by reading the six motion
  fields with `float()`.
- **the in-place unit conversion `convert_data`.** It is modelled on an
  `array` that is updated record by record, with no rollback after a failure.
- **the binary search `get_closest_epoch`, and the exact-epoch lookup of
  `get_state_vectors` built on it.** The `while` loop works as in the
  source, including Python's index -1.
- **the `limit`/`offset` slicing** shared by `GET /` and `GET /epochs`.
- **the global store** `data = {"data": ..., "units": ...}` **as a class
  `Store`**, with the three routes that change it: `PUT /convert`,
  `DELETE /delete-data` and `POST /post-data`. Its invariant says the records
  are always the loaded records, converted to the current units.

Modules, in dependency order:

- `Base`: `Option`, `Result` and four sequence facts.
- `PyStrings`: the string operations.
- `FeedParser`: `txt_to_dict` and `get_data_info`.
- `StateVectors`: the record type and `convert_data`.
- `Loader`: `load_data`.
- `EpochIndex`: the search, the lookup and the corrected nearest search.
- `Pagination`: the paging shared by two routes.
- `Tracker`: the store and its routes.

Modelling decisions:

- **Epochs.** An epoch is an `int` of seconds. `load_data` reads it with a
  caller-supplied `toSeconds`, which stands for
  `time.mktime(time.strptime(epoch[:-4], ...))`. The source applies this
  conversion at each search; the model applies it once, when the record is
  loaded.
- **Numbers.** Floats are `real`s, so every product is exact. `float()` on a
  field's text is a caller-supplied partial function `toFloat`.
- **Clock and network.** `time.time()` is a parameter `clock`. The feed's
  text is a parameter, and `None` stands for a download that raised.
- **`math.isclose`.** It is modelled with its defaults, relative tolerance
  1e-9 and absolute tolerance 0, rather than as `==`. At present-day epochs,
  about 1.7e9 seconds, that tolerance is about 1.7 seconds. So when
  `get_state_vectors` answers with a record, the model proves only that the
  record's epoch is close to the requested one. The source promises no
  more.
- **The record list.** Every search and paging function takes the store's
  list as a plain sequence, `Store.records[..]`.

Where the code and its docstrings disagree, the model follows the code:

- `get_closest_epoch` does not return the nearest record (see Findings).

`delete_data` (iss_tracker.py:538-561) sets the units to `""` and empties the
list, so the store's units are `""`, `"SI"` or `"USCS"`. Converting from `""`
to `"SI"` or `"USCS"` then succeeds on the empty list.

## Model

| member | source | states |
|---|---|---|
| PyStrings.FindSpec | iss_tracker.py:90 | With a non-empty separator, Find returns the leftmost occurrence, or None exactly when there is no occurrence. |
| PyStrings.Split | iss_tracker.py:122-125 | Splitting on a non-empty separator always yields at least one field, possibly empty. |
| PyStrings.JoinSplit | iss_tracker.py:122-125 | Joining the fields of a split with the separator gives back the original text. |
| PyStrings.SplitFieldsFree | iss_tracker.py:122-125 | No field of a split contains the separator. |
| PyStrings.SplitOnceSpec | iss_tracker.py:90 | `split(d, 1)`: there is one piece exactly when the delimiter is absent. Otherwise the two pieces are the first field and the rejoined remaining fields, and `piece0 + d + piece1` is the line. |
| PyStrings.TrimStartSpec | iss_tracker.py:81-85 | Leading trimming removes a whitespace prefix and leaves text that is empty or starts with a non-space. |
| PyStrings.TrimEndSpec | iss_tracker.py:81-85 | Trailing trimming removes a whitespace suffix and leaves text that is empty or ends with a non-space. |
| PyStrings.StripSpec | iss_tracker.py:134 | `strip()` is a slice of the text with whitespace on both sides removed, and it is empty exactly when the text is all whitespace. |
| PyStrings.SplitLines | iss_tracker.py:79 | `splitlines()` yields lines that contain no line boundary. |
| PyStrings.SplitLinesHead | iss_tracker.py:79 | A line ended by "\n" is the first line of `splitlines()`, and the rest follows. |
| PyStrings.SplitLinesTerminated | iss_tracker.py:79 | `splitlines()` of lines each ended by "\n" gives those lines back. |
| FeedParser.ZipKeys | iss_tracker.py:129 | The comprehension `{keys[i]: values[i]}` maps exactly the keys. The last-listed copy of a key holds its value, and extra values are ignored. |
| FeedParser.FirstMatch | iss_tracker.py:134 | Finds the first line whose stripped text equals the stripped marker, or reports that none does. |
| FeedParser.NonEmpty | iss_tracker.py:124 | Keeps the non-empty lines and drops the empty ones, so the result is no longer than the input. |
| FeedParser.NonEmptyConcat | iss_tracker.py:122-124 | Filtering a concatenation filters each part in turn, so the kept lines stay in input order. |
| FeedParser.RowsOf | iss_tracker.py:122-133 | The parse succeeds exactly when every body line has at least as many values as there are keys. Then there is one row per body line, in order, and row j is the keys zipped with line j's values. An empty separator raises. |
| FeedParser.RowsOfError | iss_tracker.py:125-133 | A failure names the first line with too few values (the re-raised IndexError), or the empty separator. |
| FeedParser.RowsOfCons | iss_tracker.py:123-133 | How the outcome treats the first remaining body line: it is skipped, it raises, or it becomes a row. |
| FeedParser.PendingBodyStep | iss_tracker.py:122-135 | One loop step: the parse check runs before the marker check, so the marker line itself never becomes a row. |
| FeedParser.TxtToDict | iss_tracker.py:100-136 | The loop returns RowsOf over Body. Body is every non-empty line when the marker is empty, and otherwise the non-empty lines after the first marker line. |
| FeedParser.KindOf | iss_tracker.py:71 | The info type is "dictionary", "list" or another name, each recognised exactly. |
| FeedParser.InitInfo | iss_tracker.py:71 | A dictionary starts as an empty dict. Any other info type starts as an empty list. |
| FeedParser.InfoStep | iss_tracker.py:89-97 | One parsed line keeps the shape of the info (dict or list). |
| FeedParser.FoldInfo | iss_tracker.py:79-97 | Folding no lines returns the initial info. Folding some lines fails with an empty delimiter, or with an info type other than dictionary or list. |
| FeedParser.StopIndex | iss_tracker.py:81-82 | The region ends at the first stop line, or at the end of the text. |
| FeedParser.RegionStep | iss_tracker.py:81-82 | A line that is not a stop line belongs to the region ahead of the scan. |
| FeedParser.KeepCons | iss_tracker.py:85-89 | Empty lines and start lines are skipped, and every other line is kept. |
| FeedParser.PendingInfoStep | iss_tracker.py:79-89 | One loop step: a stop line ends the scan and is checked first. A start line turns parsing on and is skipped; when start is empty, parsing is on from the first line. Any other line is parsed only when parsing is on and the line is non-empty. |
| FeedParser.GetDataInfo | iss_tracker.py:50-98 | The loop returns the fold of InfoStep over the parsed region, which is the lines before the first stop line, after the first start line (from the first line when start is empty), minus empty lines and start lines. |
| FeedParser.DictStep | iss_tracker.py:90-92 | In dictionary mode a line stores its stripped key and stripped value. |
| FeedParser.FoldStep | iss_tracker.py:79-97 | Folding a list of lines carries the step's result on to the remaining lines. |
| FeedParser.AllDelimitedTail | iss_tracker.py:90 | Lines that all contain the delimiter still do after the first line is dropped. |
| FeedParser.DictKeys | iss_tracker.py:90-92 | When every line has the delimiter, the dictionary keys are exactly the earlier keys plus the lines' stripped keys. |
| FeedParser.DictLastValues | iss_tracker.py:90-92 | When every line has the delimiter, each key holds the stripped value of its last line. |
| FeedParser.DictUntouched | iss_tracker.py:90-92 | When every line has the delimiter, an earlier key that no line mentions keeps its value. |
| FeedParser.DictEntries | iss_tracker.py:90-92 | When every line has the delimiter, the dictionary holds exactly the earlier keys plus the lines' keys. A key's last line gives its value, and keys no line mentions keep their earlier value. |
| FeedParser.DictSize | iss_tracker.py:90-92 | With distinct fresh keys, the dictionary gains one entry per line. This is why the header fixture has 3 entries and the metadata fixture has 9. |
| FeedParser.Remainder | iss_tracker.py:93-95 | In list mode a line contributes at most one item, and it is never blank. |
| FeedParser.Remainders | iss_tracker.py:93-95 | The list has at most one item per line, and no item is blank. |
| FeedParser.ListStep | iss_tracker.py:93-95 | In list mode a line appends its untrimmed remainder only when that remainder is not blank. |
| FeedParser.ListItemsStep | iss_tracker.py:93-95 | The list of one line, followed by the list of the remaining lines. |
| FeedParser.ListItems | iss_tracker.py:93-95 | When every line has the delimiter, the list is the non-blank remainders in line order. |
| FeedParser.MissingDelimiterFails | iss_tracker.py:90-95 | The first line without the delimiter makes the parse raise (IndexError on `item[1]`). |
| StateVectors.FieldNames | iss_tracker.py:36 | The six motion keys and the record's fields correspond one to one. |
| StateVectors.Set | iss_tracker.py:181 | Storing into a field never changes the epoch. |
| StateVectors.GetSet | iss_tracker.py:181 | Storing into a field changes that field and no other. |
| StateVectors.ScaleAll | iss_tracker.py:174-181 | Every record is scaled, and the list keeps its length. |
| StateVectors.Pairs | iss_tracker.py:178-179 | A factor's steps are its listed names, in order. |
| StateVectors.PairsTail | iss_tracker.py:178-179 | A factor's steps split into the first name's step and the steps for the rest. |
| StateVectors.ConvertRecords | iss_tracker.py:174-186 | convert_data keeps the length of the list. |
| StateVectors.ScaleRoundTrip | iss_tracker.py:509-527 | Scaling by k and then by 1/k restores every record. |
| StateVectors.ConvertItem | iss_tracker.py:176-185 | The two inner loops apply the steps to one record, in convert-map order, until a name raises. |
| StateVectors.ConvertStarts | iss_tracker.py:174 | Before the loop, nothing has been converted. |
| StateVectors.ConvertContinues | iss_tracker.py:174-181 | Converting record i cleanly advances the in-place conversion by one record. |
| StateVectors.ConvertStops | iss_tracker.py:182-185 | A record that raises ends the conversion. The earlier records stay converted and the later ones stay as they were. |
| StateVectors.ConvertEnds | iss_tracker.py:186 | Once the loop has finished, every record is converted and nothing was raised. |
| StateVectors.ConvertData | iss_tracker.py:152-186 | In place on the array, the new contents and the error raised are exactly those of ConvertRecords on the old contents. |
| StateVectors.AllMotionTail | iss_tracker.py:178-181 | The steps all name motion fields exactly when the first one does and the rest do. |
| StateVectors.ApplySteps | iss_tracker.py:176-185 | The inner loops on one record: the steps are applied in order until the first that raises, and the epoch never changes. |
| StateVectors.ApplyStepsOk | iss_tracker.py:178-185 | A record converts without error exactly when every listed name is a motion field. |
| StateVectors.ApplyStepsCons | iss_tracker.py:181 | A step on a motion field multiplies that field, and the remaining steps follow. |
| StateVectors.ScaledUnnamed | iss_tracker.py:176-181 | A field that no step names is left untouched. |
| StateVectors.ApplyStepsScales | iss_tracker.py:176-181 | The epoch is untouched, and each field is multiplied by every factor that names it, including more than one. |
| StateVectors.ApplyStepsFailure | iss_tracker.py:182-185 | The first name that is not a field raises (KeyError; ValueError for "epoch"). The fields multiplied before it stay multiplied. |
| StateVectors.FailureUniform | iss_tracker.py:182-185 | Whether a record's conversion raises depends only on the convert map. |
| StateVectors.ConvertRecordsOutcome | iss_tracker.py:174-186 | Every record converts or the first one raises. In the second case only that record changes. |
| StateVectors.MotionSteps | iss_tracker.py:513 | The map `{k: six motion names}` gives one step per motion name. |
| StateVectors.MotionStepsNamed | iss_tracker.py:513 | Those steps all name motion fields. |
| StateVectors.MotionScaled | iss_tracker.py:513-514 | The six-name map multiplies each field by k exactly once. |
| StateVectors.ScaledPrefix | iss_tracker.py:176-181 | Steps that do not name a field leave it alone, up to the first step that does. |
| StateVectors.ScaleField | iss_tracker.py:513-514 | Each motion field of a converted record is the old value times k. |
| StateVectors.ScaleStep | iss_tracker.py:513-514 | The six-name map turns a record into its scaled copy without raising. |
| StateVectors.ConvertMotion | iss_tracker.py:513-527 | The store's conversion maps never raise and scale every record. |
| Loader.Column | iss_tracker.py:36 | Each field has its own column after the epoch, named by its key. |
| Loader.FieldColumns | iss_tracker.py:36 | Every key after "epoch" names a field, in column order. |
| Loader.FillError | iss_tracker.py:42-47 | When the row has every key, the record can fail only on a number. |
| Loader.Fill | iss_tracker.py:42-47 | The per-key loop on one row: it can fail only on a missing key or an unreadable number, and after the first key it leaves the epoch alone. |
| Loader.VectorOf | iss_tracker.py:42-47 | One row's record: its only errors are a missing key or an unreadable number. |
| Loader.FillFields | iss_tracker.py:42-47 | From any key on, the inner loop succeeds exactly when every later field is readable. It then stores those numbers and leaves the other fields alone. |
| Loader.FillFails | iss_tracker.py:42-47 | The first field float() refuses is the error raised. |
| Loader.VectorOfFields | iss_tracker.py:42-47 | A row loads exactly when its six fields are numbers. The record then holds them, and the epoch in seconds. |
| Loader.LoadRows | iss_tracker.py:42-47 | Loading gives one record per row, each the loaded record of its row. |
| Loader.LoadRowsError | iss_tracker.py:42-47 | Rows holding every key fail to load only on a number. |
| Loader.KeysFilled | iss_tracker.py:129 | A row with exactly the feed's keys holds every field. |
| Loader.FeedRowsFilled | iss_tracker.py:36-38 | Every row txt_to_dict builds from the feed holds every key. |
| Loader.LineRecord | iss_tracker.py:36-47 | A line's record holds its numbers column by column, with the epoch in seconds. |
| Loader.SameRecord | iss_tracker.py:36 | Records with the same epoch and the same six fields are equal. |
| Loader.FeedKeysDistinct | iss_tracker.py:36 | No feed key is listed twice. |
| Loader.RowValues | iss_tracker.py:36-38 | Each key of a feed row holds the text of that key's own column. |
| Loader.LoadRowsOk | iss_tracker.py:42-47 | The rows load exactly when every row loads. |
| Loader.LineLoads | iss_tracker.py:36-47 | A line with at least seven fields loads exactly when the six after the epoch are numbers; extra fields are ignored. It then becomes LineRecord. |
| Loader.LoadRowsCons | iss_tracker.py:42-47 | One outer step: the row's error is raised, or its record is added. |
| Loader.ReadRecord | iss_tracker.py:44-47 | The inner loop over the keys returns the row's loaded record or its error. |
| Loader.LoadFeed | iss_tracker.py:21-48 | load_data as a function: a parse failure gives that error; a success gives one record per parsed row. LoadData is proved equal to it. |
| Loader.LoadData | iss_tracker.py:21-48 | load_data gives txt_to_dict's error when the parse fails. Otherwise it gives the records, or the first number error. |
| Loader.FeedLoads | iss_tracker.py:21-48 | load_data succeeds exactly when every body line has at least seven fields and the six after the epoch are numbers; extra fields are ignored. It then gives record j as line j read column by column, and it never fails on a missing key. |
| EpochIndex.IsClose | iss_tracker.py:221 | `math.isclose` with relative tolerance 1e-9 and no absolute tolerance (also used at line 340): equal values are close, zero is close only to zero, and close values have the same sign. |
| EpochIndex.IsCloseBasics | iss_tracker.py:221 | isclose is reflexive and symmetric. |
| EpochIndex.NotCloseBelow | iss_tracker.py:221-229 | Below the target, an epoch farther than one that is not close is not close either. |
| EpochIndex.NotCloseAbove | iss_tracker.py:221-231 | Above the target, an epoch farther than one that is not close is not close either. |
| EpochIndex.Target | iss_tracker.py:209-211 | A requested time of 0 means the clock's present time; any other requested time is the target itself. |
| EpochIndex.PyIndex | iss_tracker.py:218 | `data[mid]` with mid -1 reads the last record. Otherwise it reads index mid. |
| EpochIndex.SearchFrom | iss_tracker.py:213-236 | The search always ends on an index inside the list. |
| EpochIndex.SearchStep | iss_tracker.py:216-236 | One probe: a close epoch or a bracket of at most one record ends the search at mid. Otherwise the bracket narrows toward the target. An epoch equal to the target is always close, so the "missed edge case" branch is unreachable. |
| EpochIndex.GetClosestEpoch | iss_tracker.py:187-236 | The `while` loop always ends by returning, and it returns the search result. That is `""` (NoData) on an empty list, and otherwise the record at the final probe with delay = epoch - target. |
| EpochIndex.ClosestEpoch | iss_tracker.py:204-236 | The declarative search: `""` (NoData) on an empty list, otherwise the record at SearchFrom's final probe and its delay. GetClosestEpoch is proved equal to it; ClosestIsStored, ClosestFindsClose and ClosestFindsPresent state its properties. |
| EpochIndex.ClosestIsStored | iss_tracker.py:207-227 | The search finds nothing exactly on an empty list. Otherwise it returns a stored record, with delay = its epoch - target. |
| EpochIndex.CloseIsAfter | iss_tracker.py:228-229 | On epochs sorted ascending, a close record lies after a probe that is below the target and not close. |
| EpochIndex.CloseIsBefore | iss_tracker.py:230-231 | On epochs sorted ascending, a close record lies before a probe that is above the target and not close. |
| EpochIndex.SearchFindsClose | iss_tracker.py:213-236 | On sorted epochs, if some epoch in the bracket is close to the target, the search returns a close record. |
| EpochIndex.ClosestFindsClose | iss_tracker.py:187-236 | On sorted data with a close epoch, the search returns a close record. |
| EpochIndex.ClosestFindsPresent | iss_tracker.py:187-236 | On sorted data with the target's exact epoch, and no other epoch close to it, the search returns that epoch with delay 0. |
| EpochIndex.GetStateVectors | iss_tracker.py:308-345 | The route returns an error on an empty store. An unparsable epoch gives `[]`. Otherwise it returns `[record]` when the found record's epoch is close to the requested one, and `[]` when it is not. |
| EpochIndex.StateVectorsAt | iss_tracker.py:322-345 | The declarative lookup of `get_state_vectors`, which GetStateVectors is proved equal to. StateVectorsAtShape and StateVectorsAtPresent state its properties. |
| EpochIndex.StateVectorsAtShape | iss_tracker.py:326-340 | The lookup is an error exactly when the store is empty. Otherwise it returns `[]`, or one stored record whose epoch is close to the requested one. |
| EpochIndex.StateVectorsAtPresent | iss_tracker.py:330-340 | On sorted data holding the requested (non-zero) epoch, the lookup returns a singleton of a stored record with that epoch, up to isclose. |
| EpochIndex.SearchMissesNearest | iss_tracker.py:213-236 | With epochs 10, 20, 30 and target 19 the search returns epoch 10, although 20 is nearer. |
| EpochIndex.SearchWrapsToLast | iss_tracker.py:229-236 | With epochs 10, 20 and target 5 the bracket becomes (0, -1), and the search returns the last record (20) instead of the first. |
| EpochIndex.NearestEpoch | iss_tracker.py:187-202 | The corrected search: on sorted data it returns a stored record whose epoch is nearest the target, with delay = epoch - target. |
| Pagination.PySlice | iss_tracker.py:275 | `items[lo:hi]`: bounds are clamped to the length. The slice holds the items from lo on and is empty when lo is at or past hi. |
| Pagination.Paginate | iss_tracker.py:265-275 | A page is refused exactly when a given limit or offset is negative. An accepted page holds, at position k, the item at offset + k of the list, and it has min(limit, length - offset) items, or none when the offset is at or past the end (limit and offset defaulted to 2**31 - 1 and 0). |
| Pagination.PaginateContents | iss_tracker.py:275 | An accepted page is at most `limit` consecutive items starting at `offset`. It is empty when the offset is at or past the end, and it is `items[o:o+l]` when that lies within the list. |
| Pagination.PaginateDefaults | iss_tracker.py:267-270 | With both arguments defaulted, the whole list (up to 2**31 - 1 records) comes back. |
| Pagination.PageIs | iss_tracker.py:275 | An accepted page is one clamped slice of the list. |
| Pagination.SlicesJoin | iss_tracker.py:275 | Adjacent slices of a list join into one slice. |
| Pagination.PagesConcatenate | iss_tracker.py:275 | Two consecutive pages join into the page that spans both. |
| Pagination.GetData | iss_tracker.py:246-275 | Every record on a page of `GET /` is a stored record. |
| Pagination.Epochs | iss_tracker.py:306 | The epoch list has one entry per record, in order. |
| Pagination.GetEpochs | iss_tracker.py:277-306 | `GET /epochs` refuses the same arguments as `GET /`. When it answers, it lists the epochs of the page `GET /` would return. |
| Tracker.NewList | iss_tracker.py:580 | A new list holds exactly the given records. |
| Tracker.Store.constructor | iss_tracker.py:700 | The store starts with the loaded records, in SI units. |
| Tracker.Store.ConvertIssData | iss_tracker.py:491-536 | Asking for the current units changes nothing, even `""` after a delete. "SI" scales the records in place by 1/KM_TO_M, and "USCS" by KM_TO_M. `""` and any other token are errors that change nothing. The invariant holds throughout: the records are the loaded records in the current units. |
| Tracker.Store.DeleteData | iss_tracker.py:538-561 | The units become `""` and the list becomes empty. |
| Tracker.Store.PostData | iss_tracker.py:563-584 | A successful reload replaces the records with the loaded ones, in SI units. A failed download or a failed parse leaves the store as it was. |
| Tracker.UnitsRoundTrip | iss_tracker.py:509-527 | Converting to USCS and back to SI gives the loaded records again. |

## Left out

- HTTP wiring. Routes, status tuples, payload texts, and the parsing of query arguments with `int()` are not modelled. Paging and conversion take their arguments already parsed, and a non-integer `limit` or `offset` (also refused) is not modelled.
- The network fetch. `requests.get` in `load_data`, in `get_comments`, `get_header` and `get_metadata`, and in the module-level load, is not modelled. The feed text is a parameter. The routes that fetch and then call get_data_info are not modelled; get_data_info itself is.
- Epoch conversion. `time.strptime` and `time.mktime` are a caller-supplied `toSeconds`, applied when a record loads rather than at each search. So a malformed epoch in the stored data, which would raise ValueError inside the search, is not modelled.
- `float()`. It is a caller-supplied partial function on the field's text.
- Floating point. Floats are reals, so rounding in `x * KM_TO_M` and `1 / KM_TO_M` is not modelled, and the SI/USCS round trip is exact in the model only.
- StateVectors: records have a fixed shape, six real fields plus the epoch, so convert_data on dictionaries with other keys is not modelled. A name other than the six raises as a missing key. `"epoch"` raises as not numeric.
- Loader.VectorOf: a row missing "epoch" is reported as a missing field when the record is built. The source only meets that KeyError later. Rows built by txt_to_dict always hold every key (Loader.FeedLoads).
- Pagination.Epochs: epochs are listed as seconds, not as the feed's ISO-8601 text.
- Tracker.Store.DeleteData: `data["data"].clear()` empties the same list object in place. The model gives the store a new empty array, so aliasing of the old list is not modelled. The `except` branch of delete_data is unreachable on this state and is omitted.
- EpochIndex.GetClosestEpoch: the `print` branch for an epoch that is neither close, below nor above the target is proved unreachable rather than modelled.
- The speed and location routes. Square roots, `atan2`, reverse geocoding with Nominatim and its timeout fallback, and `/now` are not modelled. They are floating-point and foreign-service code outside the store.
- Help text, `make_output_table_row`, logging and prints are not modelled. They are presentation.
- Concurrency. The service has no locking, and the model is sequential.
- The test file's fixture counts (3 header entries, 9 metadata entries) are not evaluated on the fixture text. They follow from FeedParser.DictSize for lines with distinct keys.

## Findings

| source | as written | input that shows it | evidently intended | confidence | as-written member | corrected member |
|---|---|---|---|---|---|---|
| iss_tracker.py:213-236 | The binary search returns the record where the bracket closes, which need not be the nearest one. | epochs 10, 20, 30 with target 19 return epoch 10 (delay -9), although 20 is 1 away | the record whose epoch is closest to the target, as the docstring says | not executed | EpochIndex.SearchMissesNearest | EpochIndex.NearestEpoch |
| iss_tracker.py:229-236 | Narrowing below index 0 leaves `right = -1`, then `mid = -1`, and `iss_data[-1]` reads the last record. | epochs 10, 20 with target 5 return epoch 20 (delay 15) instead of 10 | the first record when the target precedes every epoch | not executed | EpochIndex.SearchWrapsToLast | EpochIndex.NearestEpoch |

The routes keep the search as written, because that is what the service runs.
The exact-epoch lookup of `get_state_vectors` is not affected by either
finding: on sorted data the as-written search finds a record whose epoch is
close to the requested one (EpochIndex.ClosestFindsClose), and it is the
requested record when no other stored epoch lies within isclose's tolerance
(EpochIndex.ClosestFindsPresent).
