# jrmc-utils in Dafny

jrmc-utils is a set of batch scripts around a JRiver Media Center library.
This project models the scripts' own logic, with the media server, the
video tools and the file system given as inputs. It proves properties of
that model. One Dafny module covers each script:

- **CropDetect** (`crop/cropdetect.py`). For each Blu-ray result of a
  media-server search, the script picks the largest `.m2ts` stream and runs
  ffmpeg's `cropdetect` at five fixed minutes. It turns each report line into
  a record with a `left x top x right x bottom` rectangle, a timestamp and an
  aspect ratio. It then writes `crop_{limit}_{skip}.csv` for each of four
  settings, skipping a file that is already recent.
- **CropTally** (the tally both analysis scripts share), **CropAnalysis**
  (`crop/analyse_crop.py`) and **FlatAnalysis** (`analyse_crop.py`). These
  find the most frequent crop of each file, ties going to the crop seen
  first, and the first stored `mc_crop`. They build the analysis rows and the
  `exact` flag.
- **MetaAnalyse** (`meta_analyse.py`). A pass over consecutive rows of one
  title that reports a title whose crop depends on the skip or the limit.
- **Recrop** (`crop/recrop.py`) and **AddImdb** (`crop/add_imdb.py`). Two
  row-rewriting passes: one replaces the `mc_crop` column, the other fills
  blank IMDb IDs.
- **Patch**, **GenPattern** (`gen_pattern.py`) and **HdrPattern**
  (`pattern/gen_pattern.py`). These assemble the test-pattern videos:
  - the create-or-reuse rule for cached files and the cache names of a
    patch;
  - the MATCHED / ROUNDING / ERROR verdict on a patch's 10-bit round trip;
  - the overlay's text colour;
  - chapters numbered over the successful patches only;
  - the white lead-in of verify sets, with its index shift;
  - verify.csv and the concat list.
- **Chart** (`patch/pattern.py`) and **Greyscale** (`greyscale/greyscale.py`).
  Panel layout: integer division plus padding, which tiles the frame exactly.
  Greyscale also covers the write-if-absent steps of `encode`.
- **SetItem** (`set_item.py`, and its copy `mc/set_item.py:13-30`). This
  covers three steps:
  - stripping a ` (BLU-RAY...)` suffix with Python's regex semantics;
  - looking the title up;
  - marking an unborrowed match as borrowed.
- **Wrappers**, **Text**, **Seqs** and **Library** hold the shared
  vocabulary:
  - Python exceptions as `Result` values;
  - `str()`/`int()` of integers, `split`, `join`, `replace`, `strip` and
    `round`;
  - list comprehensions;
  - dictionary lookups.

The models follow the scripts' form. Loops that update variables are
methods with loop invariants. Each method is proved equal to a function on
sequences, and the properties are lemmas about that function. A Python
exception that escapes is modelled as a `Raise`. An exception caught by a
bare `except:` becomes an outcome value.

Some facts come from outside the scripts, so the model takes them as
parameters:
- what the media server returns;
- the listing and sizes of a directory, and file modification times;
- the lines ffmpeg prints;
- whether a tool run succeeds;
- the set of files that exist.

Two behaviours are easy to misread, and the model follows the code in both.
- A stored crop matches a detected one only when the two texts are exactly
  equal (`crop/cropdetect.py:79`). There is no pixel tolerance.
- The cleaned title is a prefix of the stripped name only when the name is
  one line (`SetItem.TitleSpec`). Python's `.` does not match a newline, so
  in a name with a newline the match may start on a later line.

## Model

| member | source | states |
|---|---|---|
| Library.Field | crop/analyse_crop.py:29 | `res[k]` is the value stored under k, and raises KeyError exactly when k is absent |
| Library.TranslatePath | crop/analyse_crop.py:29 | the translated library path never holds a backslash |
| Library.IndexOf | crop/recrop.py:23 | `list.index` finds the first position holding the name, and fails exactly when the name is absent |
| Library.LastIndex | crop/analyse_crop.py:49 | the column map of a header keeps the last position of a repeated name, and has no entry for an absent one |
| Library.CropFiles | crop/analyse_crop.py:31 | the glob yields exactly the listed names that match `crop*.csv`, and no more names than the listing |
| Library.CropPositions | crop/analyse_crop.py:31 | the positions in the listing of the names that match `crop*.csv`: all of them, in increasing order |
| Library.CropFilesInOrder | crop/analyse_crop.py:31 | the glob keeps the listing's order: its k-th name is the listed name at the k-th matching position |
| CropDetect.MagnitudeReadsBack | crop/cropdetect.py:57 | `float` reads digits, a point and digits as the decimal they write |
| CropDetect.SignedReadsBack | crop/cropdetect.py:57 | a leading `-` negates the value `float` reads, and text that starts and ends with a digit needs no trimming |
| CropDetect.AddSecondsValue | crop/cropdetect.py:57 | the timestamp of a line sampled at minute i is its `t:` value plus `i * 60` seconds, exactly |
| CropDetect.Normalise | crop/cropdetect.py:83 | the shortest form of a timestamp drops only trailing zero fraction digits |
| CropDetect.NormaliseValue | crop/cropdetect.py:83 | dropping trailing zeros keeps the timestamp's value |
| CropDetect.RectRoundTrip | crop/cropdetect.py:65 | the `crop` text reads back as left x, top y, right x + w, bottom y + h |
| CropDetect.HundredthsNearest | crop/cropdetect.py:66 | the `ar` value is w / h rounded to the nearest hundredth (within half a hundredth) |
| CropDetect.AspectReadsBack | crop/cropdetect.py:66 | `ar` is `'0'` exactly when h is 0; otherwise it reads back as the signed nearest hundredths of w / h |
| CropDetect.TwoPlaceReadsBack | crop/cropdetect.py:66 | a count of hundredths printed with two fraction digits reads back exactly |
| CropDetect.ParseInts | crop/cropdetect.py:58 | `[int(i) for ...]` yields one integer per field, each field's own value, or fails |
| CropDetect.ParseLineRecord | crop/cropdetect.py:57-67 | a parsed line's timestamp is its `t:` value plus the sample offset, and its `crop` and `ar` texts describe its own w, h, x, y |
| CropDetect.SeekTimeShape | crop/cropdetect.py:50-52 | the seek argument is `00:MM:00` with the minute as two digits |
| CropDetect.SampleSeekTimes | crop/cropdetect.py:49-50 | every sampled minute gives an eight-character seek argument |
| CropDetect.SampleRecordsAll | crop/cropdetect.py:54-67 | every output line that mentions `crop`, and only those, gives one record, in line order |
| CropDetect.SampleRaiseExtends | crop/cropdetect.py:56-58 | a line that raises ends the sample with that exception |
| CropDetect.Collect | crop/cropdetect.py:47-70 | defines the records `crop` gathers from the stream file it is given: one ffmpeg run on that file per sample minute, in order, up to the first failure |
| CropDetect.CollectPrefix | crop/cropdetect.py:49-67 | later samples only append records after the earlier ones |
| CropDetect.CollectRaiseExtends | crop/cropdetect.py:51-53 | a failing ffmpeg run ends `crop` with its exception |
| CropDetect.Crop | crop/cropdetect.py:47-70 | the loop runs ffmpeg on the given stream file (`fn.path`) at each sample minute and yields exactly the records of every sample in order, or the first exception |
| CropDetect.ParseSample | crop/cropdetect.py:54-67 | the loop over one sample's crop lines yields that sample's records |
| CropDetect.Largest | crop/cropdetect.py:34-44 | the size found is the largest of the m2ts regular files, the file is the first to reach it, and none is found when no such file has a positive size |
| CropDetect.FindLargest | crop/cropdetect.py:34-44 | the scan of the listing returns the largest stream size and its first file |
| CropDetect.StreamPath | crop/cropdetect.py:37-52 | defines `fn.path`: the chosen entry's name under the result's `STREAM` directory |
| CropDetect.RecordRowSpec | crop/cropdetect.py:79-86 | a row has the 13 header columns and its `match` cell is `True` iff its `crop` cell equals its `mc_crop` cell |
| CropDetect.RowsAt | crop/cropdetect.py:78-86 | row k is the row of record k |
| CropDetect.AllMatchEach | crop/cropdetect.py:74-81 | the all-match flag stays up iff every record's crop equals the stored Video Crop |
| CropDetect.RowsMatch | crop/cropdetect.py:79-86 | each record row's `match` cell is `True` iff that record matches |
| CropDetect.DumpVerdict | crop/cropdetect.py:73-90 | the file holds the header and one 13-cell row per record, and "matches!" is logged iff every row's `match` cell is `True` |
| CropDetect.DumpOutput | crop/cropdetect.py:73-90 | the writing loop leaves the header and rows of Dump, with its verdict or the KeyError of a missing field |
| CropDetect.WriteRows | crop/cropdetect.py:78-86 | the row loop writes the record rows and lowers the flag at any mismatch |
| CropDetect.SettingsOrder | crop/cropdetect.py:99-111 | the settings are every skip with every limit, skip outermost |
| CropDetect.Attempt | crop/cropdetect.py:122-135 | defines the `try` body: anything but bdmv does nothing; otherwise the largest stream file is found, its samples are collected and the rows are dumped, and any exception is logged as a failure |
| CropDetect.CollectAgrees | crop/cropdetect.py:49-53 | two tools that print the same for one file's samples collect the same records from it |
| CropDetect.AttemptSamplesLargest | crop/cropdetect.py:124-127 | ffmpeg runs only on the largest stream file: what the tool would print for any other file changes neither the outcome nor the rows written |
| CropDetect.PairStep | crop/cropdetect.py:112-135 | defines one setting: skipped when its file is newer than the cut-off, else the `try` body; a failure raises out of the `except` handler when the result has no Name |
| CropDetect.Plan | crop/cropdetect.py:103-135 | defines one search result: ignored without an Aspect Ratio, else its path is rewritten and the four settings run in loop order |
| CropDetect.PairStepReports | crop/cropdetect.py:112-135 | a setting reports its own skip, limit and file, and is skipped iff that file exists and is newer than the cut-off |
| CropDetect.StepsReport | crop/cropdetect.py:110-135 | the settings are reported one each, in order |
| CropDetect.PlanReport | crop/cropdetect.py:103-135 | a result without an Aspect Ratio is ignored; any other yields its four crop files in loop order, each skipped iff recent |
| CropDetect.ProcessResult | crop/cropdetect.py:103-135 | the nested skip and limit loops for one result compute Plan |
| CropDetect.RunLimits | crop/cropdetect.py:111-135 | the inner loop extends the steps by every limit of one skip |
| CropDetect.RunPair | crop/cropdetect.py:112-135 | one pass of the inner loop adds one step, or its exception ends the loop |
| CropDetect.RunSetting | crop/cropdetect.py:112-135 | the freshness test and the guarded body of one setting compute PairStep |
| CropDetect.AttemptSetting | crop/cropdetect.py:122-135 | the `try` body calls find_largest, then crop on the largest stream file's path, then dump_output, and reports which step ended it |
| CropDetect.Written | crop/cropdetect.py:75 | defines the files a result leaves behind: every setting that reached dump_output has opened its csv, which now exists with the run's time |
| CropDetect.WrittenAt | crop/cropdetect.py:75 | after a result, a file some setting wrote exists with the run's time; every other file exists iff it did before, with its old time |
| CropDetect.After | crop/cropdetect.py:75 | defines the file system the next result sees: the one before with this result's csv files written |
| CropDetect.Script | crop/cropdetect.py:103-137 | defines the main loop: the search results in order, each in the file system the results before it left, up to the first exception that escapes a result |
| CropDetect.Handled | crop/cropdetect.py:103-137 | defines result k's turn: the prefix before it ran, result k's settings are Plan in the file system that prefix left, and the files they wrote are added after it |
| CropDetect.ScriptPrefix | crop/cropdetect.py:103-137 | in a run no exception escaped, every result was handled as Handled says |
| CropDetect.ScriptRaiseExtends | crop/cropdetect.py:103-137 | once an exception escapes a result, the script raises it whatever results follow |
| CropDetect.ScriptSpec | crop/cropdetect.py:103-137 | the script handles every result in order, each in the file system the results before it left, or stops with the exception of the first result that raises |
| CropDetect.ScriptKeepsWritten | crop/cropdetect.py:75 | a csv an earlier result wrote still exists with the run's time for every later result |
| CropDetect.ScriptSkipsRewritten | crop/cropdetect.py:112-118 | when two results rewrite to the same path and the run's time is after the cut-off, the later one skips every setting the earlier one wrote |
| CropTally.FirstSeenSpec | crop/analyse_crop.py:45-51 | the counter's keys are exactly the crops seen, each once |
| CropTally.FirstSeenOrder | crop/analyse_crop.py:45-54 | the counter's keys come in the order their crops first appear |
| CropTally.CountsSnoc | crop/analyse_crop.py:51 | one row adds one to its crop's count, starting from 0 for a new crop |
| CropTally.FirstSeenSnoc | crop/analyse_crop.py:51 | one row adds its crop as a new last key exactly when it was not yet counted |
| CropTally.BestIndex | crop/analyse_crop.py:54-56 | the stable descending sort puts first the earliest key whose count is largest, and there is none for no keys |
| CropTally.BestKey | crop/analyse_crop.py:54-56 | the key the sort puts first occurs most often and strictly more often than every crop first seen before it |
| CropTally.Mode | crop/analyse_crop.py:54-56 | defines the head of the stable descending sort of the counter: the first key in counter order with the largest count, or none for no rows |
| CropTally.ModeSpec | crop/analyse_crop.py:54-56 | a crop is chosen iff there are rows; it occurs most often, and every crop first seen before it occurs strictly less often |
| CropTally.Scan | crop/analyse_crop.py:47-53 | defines the row loop: each data row's `crop` cell in order and the first non-empty `mc_crop`; a missing column raises KeyError and a short row IndexError |
| CropTally.ScanSpec | crop/analyse_crop.py:47-53 | every data row gives its `crop` cell in order; `mc_crop` becomes the first non-empty `mc_crop` cell unless it was already set |
| CropTally.ScanRaiseExtends | crop/analyse_crop.py:51-53 | a row that raises ends the file with that exception |
| CropTally.FileTallySpec | crop/analyse_crop.py:44-58 | a file without data rows chooses nothing; any other chooses the mode of its data rows' `crop` column |
| CropTally.CountRow | crop/analyse_crop.py:50-53 | one data row is counted in the insertion-ordered counter and may set `mc_crop`, as the scan says |
| CropTally.ReadCropFile | crop/analyse_crop.py:44-58 | the loop over one file's rows computes the file's tally |
| CropTally.OutputNameParts | crop/analyse_crop.py:40 | a name written by cropdetect splits back into `crop`, its limit and its skip |
| CropAnalysis.OutColsLayout | crop/analyse_crop.py:19-25 | the nine columns are the four leading ones, the four setting columns with skip outermost, and `exact` |
| CropAnalysis.BuildOutCols | crop/analyse_crop.py:21-25 | the nested loop builds exactly that layout |
| CropAnalysis.CNameParts | crop/analyse_crop.py:15-16 | a `c_name` splits back into its limit, its skip and `fcrop` |
| CropAnalysis.OutColsHolding | crop/analyse_crop.py:15-25 | a `c_name` is a column iff its limit and skip are listed ones, and then it is one of the four setting columns |
| CropAnalysis.OutColsDistinct | crop/analyse_crop.py:21-25 | no two columns share a name |
| CropAnalysis.OutColsSetting | crop/analyse_crop.py:22-24 | each listed setting's column is at its loop position |
| CropAnalysis.FileColumn | crop/analyse_crop.py:40-43 | a name with fewer than three parts raises IndexError; a known setting selects its own column; an unknown one is ignored |
| CropAnalysis.FileColumnOfOutput | crop/analyse_crop.py:40-43 | a file cropdetect writes selects a column iff its setting is listed, and then that setting's column |
| CropAnalysis.FileStep | crop/analyse_crop.py:39-61 | a file keeps the row's width |
| CropAnalysis.StoreKeeps | crop/analyse_crop.py:52-56 | storing changes `mc_crop` and the selected setting column only |
| CropAnalysis.FilesPass | crop/analyse_crop.py:39-61 | the pass over the files keeps the nine columns |
| CropAnalysis.FileStepKeeps | crop/analyse_crop.py:39-61 | a file changes only `mc_crop` and its own setting column, and never overwrites a non-empty `mc_crop` |
| CropAnalysis.FilesPassKeeps | crop/analyse_crop.py:39-61 | the whole pass keeps name, res and year, and never overwrites a non-empty `mc_crop` |
| CropAnalysis.FilesPassRaiseExtends | crop/analyse_crop.py:39-61 | a file that raises ends the result with that exception |
| CropAnalysis.FileStepChoice | crop/analyse_crop.py:43-56 | a file with data rows and a known setting puts the mode of its `crop` column into that setting's column |
| CropAnalysis.StartRow | crop/analyse_crop.py:35-38 | the row starts as nine blanks with Name, Dimensions and Year (`0` when absent); a missing Name or Dimensions raises KeyError |
| CropAnalysis.ExactAllEqual | crop/analyse_crop.py:62 | `exact` holds iff `mc_crop` and the four setting cells, blanks included, are the same text |
| CropAnalysis.ResultRowSpec | crop/analyse_crop.py:28-63 | a result without crop files adds no row; any other adds a nine-cell row with its name, res and year, whose `exact` cell is `True` iff the crops agree |
| CropAnalysis.TableShape | crop/analyse_crop.py:26-63 | at most one row per result, each of nine cells with `exact` `True` or `False` |
| CropAnalysis.TableRaiseExtends | crop/analyse_crop.py:28-63 | a result that raises ends the script with that exception |
| CropAnalysis.ReadFile | crop/analyse_crop.py:40-61 | one pass of the file loop computes FileStep |
| CropAnalysis.ReadFiles | crop/analyse_crop.py:39-61 | the file loop computes FilesPass |
| CropAnalysis.AnalyseResult | crop/analyse_crop.py:29-64 | the body for one result computes its row |
| CropAnalysis.AnalyseCrops | crop/analyse_crop.py:8-69 | the script writes the header and the rows of every result, or raises the first escaping exception |
| FlatAnalysis.FileRowsSpec | analyse_crop.py:24-43 | a file with no data rows adds no row; any other adds one five-cell row of Name, limit, skip and the mode of its `crop` column |
| FlatAnalysis.FileRowsSetting | analyse_crop.py:25-27 | for a file cropdetect wrote, the row's limit and skip are that setting's |
| FlatAnalysis.ResultRowsShape | analyse_crop.py:24-43 | at most one five-cell row per crop file |
| FlatAnalysis.ResultRowsRaiseExtends | analyse_crop.py:24-43 | a file that raises ends the result with that exception |
| FlatAnalysis.AnalyseFile | analyse_crop.py:17-48 | the file, rewritten after every result with crop files, holds the header and every row so far, each of five cells |
| FlatAnalysis.ReadResultFiles | analyse_crop.py:24-43 | the file loop of one result computes its rows |
| FlatAnalysis.AnalyseFlat | analyse_crop.py:8-48 | the script's loop over the results computes Analyse |
| FlatAnalysis.AnalyseStops | analyse_crop.py:17-48 | after an exception nothing changes any more |
| MetaAnalyse.Add | meta_analyse.py:31-32 | adding to a `defaultdict(set)` makes its key present and keeps the others |
| MetaAnalyse.Runs | meta_analyse.py:16-30 | the reference grouping: the data rows cut into non-empty runs of one title, none when there are no rows |
| MetaAnalyse.RunsFlatten | meta_analyse.py:16-30 | the runs put together give back every row, in order |
| MetaAnalyse.RunsTitled | meta_analyse.py:16-30 | every row of a run has the run's title |
| MetaAnalyse.RunsMaximal | meta_analyse.py:17 | neighbouring runs have different titles |
| MetaAnalyse.ByColumnKeys | meta_analyse.py:31-32 | the grouping's keys are exactly the limits (or skips) of the run |
| MetaAnalyse.ByColumnCrops | meta_analyse.py:31-32 | the crops grouped under a key are exactly those of the rows with that key |
| MetaAnalyse.SpreadVaries | meta_analyse.py:19-26 | a group's dictionary check fires iff two rows with the same limit (or skip) have different crops |
| MetaAnalyse.ChecksRun | meta_analyse.py:18-26 | closing a run prints SKIP, then LIMIT, by the reference check of that run |
| MetaAnalyse.Enter | meta_analyse.py:17-30 | defines the arrival of a title: a new one closes, checks and resets the current group unless the current name is empty or None |
| MetaAnalyse.RowStep | meta_analyse.py:16-33 | defines one data row: its title enters, its limit and skip group its crop, and a row too short for `r[0]` or `r[3]` raises IndexError |
| MetaAnalyse.Scan | meta_analyse.py:13-33 | defines the loop over the data rows |
| MetaAnalyse.TracksFirst | meta_analyse.py:16-33 | the first data row opens the first run |
| MetaAnalyse.TracksSame | meta_analyse.py:31-33 | a row with the current title joins the current run |
| MetaAnalyse.EnterNew | meta_analyse.py:17-30 | a row with a new title prints the closed run's report, resets the groups and starts the new run |
| MetaAnalyse.TracksNew | meta_analyse.py:17-33 | a row with a new title closes the run before it with its report and opens a new one |
| MetaAnalyse.ScanRuns | meta_analyse.py:13-33 | after the rows, the loop has printed the reports of every run but the last, and holds the last run's groups |
| MetaAnalyse.ScanStops | meta_analyse.py:16 | a row too short for the cells read raises and ends the loop |
| MetaAnalyse.Analyse | meta_analyse.py:8-35 | defines the script: the header row is skipped, the rows are scanned, and only the last group is checked, for SENSITIVE |
| MetaAnalyse.AnalyseReports | meta_analyse.py:8-35 | the script prints the reports of every run except the last, then SENSITIVE when the last run has more than one crop |
| MetaAnalyse.LastRunUnchecked | meta_analyse.py:34-35 | two rows of one title and one limit with different crops print only SENSITIVE, not the SKIP due to them |
| MetaAnalyse.OneRunSensitive | meta_analyse.py:34-35 | a single title with several crops prints only SENSITIVE |
| MetaAnalyse.AnalyseFlushedReports | meta_analyse.py:8-35 | with the last group checked, every run's report is printed, then SENSITIVE |
| MetaAnalyse.ClosingReport | meta_analyse.py:18-26 | checking the group the loop ends in completes the reports of all runs |
| MetaAnalyse.HasSpread | meta_analyse.py:19-22 | the loop with `break` finds a key with more than one crop iff there is one |
| MetaAnalyse.CheckGroup | meta_analyse.py:18-26 | closing a group prints SKIP when some limit saw several crops, then LIMIT when some skip did |
| MetaAnalyse.MetaAnalysis | meta_analyse.py:6-35 | the script's loop over the rows and its final check compute Analyse |
| Recrop.FirstMatch | crop/recrop.py:25-26 | the generator stops at the first result whose Name and Dimensions equal the row's first two cells; a short row raises IndexError exactly when some result has its Name |
| Recrop.Found | crop/recrop.py:25-27 | `if match:` holds exactly when there is a first match and it is not an empty dictionary, and it then yields that match |
| Recrop.Fix | crop/recrop.py:22-30 | defines one data row as written: cell `idx` takes the first match's Video Crop, a row without a match is unchanged, and a missing Video Crop, a short row or an empty row raises |
| Recrop.FixSpec | crop/recrop.py:22-30 | only cell `idx` can change: it becomes the first match's Video Crop, and a row without a match is kept whole |
| Recrop.BodyWrites | crop/recrop.py:21-31 | the data rows are written in order, each fixed: all of them, or those before the row that raised |
| Recrop.BodyStops | crop/recrop.py:21-31 | after an exception nothing more is written |
| Recrop.Recrop | crop/recrop.py:17-31 | defines the script: the header is copied and locates `mc_crop` (ValueError without it), then the data rows follow, each fixed |
| Recrop.RecropKeeps | crop/recrop.py:17-31 | a header without `mc_crop` raises ValueError before anything is written; otherwise the header is copied and every written row keeps its width and every cell but `mc_crop` |
| Recrop.FixNeverValueError | crop/recrop.py:23-28 | a data row never raises ValueError; that comes only from the header |
| Recrop.FixRow | crop/recrop.py:25-30 | one data row is looked up and fixed, or reported as not found |
| Recrop.CopyRow | crop/recrop.py:25-31 | one pass of the loop writes the fixed row, or its exception ends the copy |
| Recrop.RecropFile | crop/recrop.py:17-31 | the read/write loop computes Recrop |
| AddImdb.FillRow | crop/add_imdb.py:37-38 | defines `if not r[2]: r[2] = imdb`, with IndexError for a row too short for cell 2 |
| AddImdb.FillRowSpec | crop/add_imdb.py:37-38 | only cell 2 can change, and only from blank to the ID; a row too short for it raises IndexError |
| AddImdb.FillRowTwice | crop/add_imdb.py:37-38 | filling a filled row changes nothing |
| AddImdb.FillRowsSpec | crop/add_imdb.py:34-39 | the rows keep their number and order, each filled, and the pass fails iff some row is too short |
| AddImdb.FillRowsTwice | crop/add_imdb.py:34-39 | filling filled rows changes nothing |
| AddImdb.FillRowsStops | crop/add_imdb.py:37 | a short row ends the read with IndexError |
| AddImdb.Rewrite | crop/add_imdb.py:32-43 | defines the file written back: cropdetect's 13-name header, then the old rows after the first, filled |
| AddImdb.RewriteSpec | crop/add_imdb.py:32-43 | the old header is replaced by cropdetect's 13 names and every other row stays in its place, filled |
| AddImdb.RewriteTwice | crop/add_imdb.py:32-43 | rewriting a rewritten file changes nothing |
| AddImdb.ResultStepTouches | crop/add_imdb.py:19-43 | a result touches at most its own `crop_18_24.csv`, only when it has an Aspect Ratio and an IMDb ID and the file exists, and creates no file |
| AddImdb.StepTwice | crop/add_imdb.py:19-43 | handling a result again after it succeeded changes nothing |
| AddImdb.AddIds | crop/add_imdb.py:19-43 | defines the script over the search results in order, with the files it leaves and the exception that ended it |
| AddImdb.AddIdsStops | crop/add_imdb.py:19-43 | after an exception no more files change |
| AddImdb.AddIdsKeys | crop/add_imdb.py:19-43 | the script creates and removes no file |
| AddImdb.ReadFilled | crop/add_imdb.py:32-39 | the read loop computes the filled rows after the header |
| AddImdb.AddImdbIds | crop/add_imdb.py:11-43 | the script's loop over the results computes AddIds |
| Patch.Decide | gen_pattern.py:26-35 | a file is (re)made exactly when it is missing or force is set; it counts as new exactly when it is missing |
| Patch.RunIfNecessary | gen_pattern.py:25-39 | on success the path comes back and the file exists; the file set either stays or gains just that path |
| Patch.FuncRunsIff | gen_pattern.py:28-37 | the creating function runs, so its failure surfaces, exactly when the file is absent or force is set |
| Patch.StemParts | gen_pattern.py:72 | a patch's directory name splits at '_' into its three 10-bit channels |
| Patch.StemInjective | gen_pattern.py:69-72 | distinct 10-bit colours get distinct directory names |
| Patch.StemFirstComponent | gen_pattern.py:72-74 | the colour's directory is the first path component under the cache |
| Patch.VidInjective | gen_pattern.py:103 | distinct colours never share a cached video |
| Patch.WhiteVid | gen_pattern.py:155 | the white patch's cached video is the path generate_pattern spells out for white |
| Patch.ClassifyDelta | gen_pattern.py:129-146 | MATCHED iff the read-back equals the input, ROUNDING iff the total drift is 1 to 3 (so each channel drifts at most 3), ERROR iff 4 or more |
| Patch.TextColourSpec | gen_pattern.py:95-100 | for a grey in [0, 1] the shifted byte lies in 51..204 and the colour is 0x followed by that byte's two hex digits three times |
| Patch.ChapterMs | gen_pattern.py:55-56 | a chapter lasts frame_count/25 seconds, in milliseconds |
| Patch.ChapterStart | gen_pattern.py:203 | a chapter's START line reads back as its start |
| Patch.ChapterEnd | gen_pattern.py:205 | a chapter's END line reads back as its end |
| Patch.ChaptersMeet | gen_pattern.py:201-207 | chapter k starts at k times the duration and ends one millisecond before chapter k+1 starts |
| Patch.ProcessPatch | gen_pattern.py:59-148 | processing a patch never deletes a file |
| Patch.ProcessPatchSpec | gen_pattern.py:59-148 | a successful patch returns its own cached video, the overlay, and seven values whose first three are the input and whose last is the delta; its png, mp4 and check png are then on disk |
| Patch.ProcessPatchReuses | gen_pattern.py:78-119 | without force, a colour whose three files are cached gives the same result whatever the generating tools would do |
| Patch.ChapterListAt | gen_pattern.py:201-207 | the k-th success owns lines 6k to 6k+5, chapter k with its own overlay, numbered over successes only |
| Patch.ChapterListBlocks | gen_pattern.py:192-209 | the chapter list is the concatenation of one six-line block per success |
| Patch.ListsAt | gen_pattern.py:199-200 | the k-th video and the k-th verify values are the k-th success's |
| Patch.Appended | gen_pattern.py:198-207 | one more success appends its video, its values and its chapter block, and changes nothing before them |
| Patch.VerifyRows | gen_pattern.py:214-216 | verify.csv has the header first and one row per success |
| Patch.VerifyRowsAt | gen_pattern.py:217-218 | row i+1 is numbered i and carries the i-th success's seven values |
| Patch.VerifyRowNumber | gen_pattern.py:218 | a verify row's first cell reads back as its number |
| Patch.WriteVerify | gen_pattern.py:214-218 | the writer's loop produces exactly the verify rows |
| Patch.ConcatLinesAt | gen_pattern.py:161-162 | line k of the concat list names the k-th video |
| Patch.MetaMergesFirstChapter | gen_pattern.py:165-170 | as written, the header and the first [CHAPTER] marker fall on one line |
| Patch.MetaFixedLines | gen_pattern.py:165-170 | with each header line ended by a newline, the text reads as the three header lines and then [CHAPTER] on the fourth |
| GenPattern.PatchRowSpec | gen_pattern.py:192-209 | a row whose index and colour parse adds to exactly one of the failed and done lists, a success being well formed and appended; files are never lost |
| GenPattern.CollectStops | gen_pattern.py:193-196 | a row whose index or colour does not parse raises out of the loop, and no later row is read |
| GenPattern.CollectSpec | gen_pattern.py:190-209 | a loop no exception escaped has put every row in failed or in done, and every success is well formed |
| GenPattern.WhitePathIff | gen_pattern.py:155-156 | a patch's video is the white one exactly when its colour is 10-bit white |
| GenPattern.ConcatFileSpec | gen_pattern.py:157-162 | ffmpeg_input.txt holds the white lead-in (verify sets only: three copies when the first patch is white, four otherwise), then one line per video in order |
| GenPattern.WriteConcat | gen_pattern.py:157-162 | the writing loops produce exactly the concat list |
| GenPattern.Patchset | gen_pattern.py:177-221 | defines process_patchset: a missing definition file raises, a failed patch raises ValueError before anything is written, otherwise verify.csv, the concat list and the chapters are written |
| GenPattern.PatchsetSpec | gen_pattern.py:177-221 | a failed patch raises ValueError and writes nothing; a written concat list means no patch failed, one verify row and one chapter per csv row, and the final join's outcome |
| GenPattern.PatchNumbering | gen_pattern.py:201-218 | the k-th success has verify row k+1 numbered k and the chapter on lines 6k to 6k+5 starting at k chapter lengths |
| GenPattern.AddChapter | gen_pattern.py:201-207 | one success appends its six chapter lines and bumps the counter by one |
| GenPattern.PatchLoop | gen_pattern.py:185-209 | the imperative loop reaches the same failed list, files and escape as the row-by-row definition, and, when nothing escaped, the same count, videos, values and chapters |
| GenPattern.ProcessPatchset | gen_pattern.py:177-221 | the imperative patch set run ends exactly as the definition of process_patchset says |
| GenPattern.FailedSetsSpec | gen_pattern.py:243-254 | every set is tried whatever the others do; each listed name is that of a set that raised, every set that raised is listed, and the exit status is 0 iff none did |
| GenPattern.FailedPositions | gen_pattern.py:243-249 | the positions of the sets that raised: all of them, in increasing order |
| GenPattern.FailedSetsInOrder | gen_pattern.py:243-249 | the failed list holds the names of the sets that raised in the order they were run, one per such set |
| HdrPattern.SuffixedSpec | pattern/gen_pattern.py:195-197 | without HDR a name keeps its base; with HDR distinct modes give distinct names |
| HdrPattern.NamesSpec | pattern/gen_pattern.py:195-211 | without HDR the concat list, verify file and video keep their plain names; with HDR each name tells the modes apart |
| HdrPattern.DoPatch | pattern/gen_pattern.py:217-233 | defines do_patch: a success is added to the caller's lists; a failure is recorded in the module-level list and the loop goes on |
| HdrPattern.DoPatchSpec | pattern/gen_pattern.py:217-233 | one do_patch call adds exactly one entry, the well-formed patch for its colour or its index, and loses no file |
| HdrPattern.DoPatchKeeps | pattern/gen_pattern.py:217-233 | do_patch leaves the lead-in offset and the loop's escape as they were |
| HdrPattern.GrowsStep | pattern/gen_pattern.py:264-266 | one more white do_patch call keeps the lead-in's growth invariant |
| HdrPattern.WhitesSpec | pattern/gen_pattern.py:263-266 | the lead-in of n white patches adds n entries, each added patch is the white one, and each recorded index is below n |
| HdrPattern.RowStep | pattern/gen_pattern.py:257-269 | defines one csv row: index and colour are read first, and their errors end the loop; a verify set's row 0 runs the white lead-in first |
| HdrPattern.Run | pattern/gen_pattern.py:253-269 | defines the loop over the csv rows |
| HdrPattern.RowStepParsed | pattern/gen_pattern.py:257-269 | a row whose index and colour parse runs the lead-in, then do_patch at the index shifted by the lead-in count |
| HdrPattern.RunStops | pattern/gen_pattern.py:257-260 | a row whose index or colour does not parse raises out of the loop, and no later row is read |
| HdrPattern.RunPlain | pattern/gen_pattern.py:256-269 | outside verify sets there is no lead-in, and a loop nothing escaped makes one entry per row |
| HdrPattern.Patchset | pattern/gen_pattern.py:247-283 | defines process_patchset as written, with the patch indices do_patch recorded in the module-level list |
| HdrPattern.PatchsetFixed | pattern/gen_pattern.py:271-272 | defines process_patchset as evidently intended: a failed patch raises ValueError and nothing is written |
| HdrPattern.PatchFailuresIgnored | pattern/gen_pattern.py:247-283 | as written, a set whose patches failed still writes verify.csv holding only the patches that worked, and only the join can fail it |
| HdrPattern.PatchsetFixedSpec | pattern/gen_pattern.py:271-272 | corrected, the set raises ValueError exactly when a patch failed and then writes nothing; otherwise it is the set as written |
| HdrPattern.AsFailures | pattern/gen_pattern.py:232 | each recorded patch index enters the module-level list as an index, in order |
| HdrPattern.RunAll | pattern/gen_pattern.py:310-316 | defines the main loop over the patch sets, threading the files on disk and the module-level failure list |
| HdrPattern.FixedSetFails | pattern/gen_pattern.py:311-316 | defines a failed set of the corrected loop: its process_patchset raises when run in the files the sets before it left |
| HdrPattern.FixedOutcomes | pattern/gen_pattern.py:311-316 | the corrected loop's outcome of every set, one per set |
| HdrPattern.FixedOutcomesAt | pattern/gen_pattern.py:311-316 | outcome k fails exactly when set k fails in the files the sets before it left |
| HdrPattern.RunAllFixedFailures | pattern/gen_pattern.py:310-316 | corrected, the module-level list is the names of the sets whose outcome raised, in the order the sets ran |
| HdrPattern.RunAllFixedNames | pattern/gen_pattern.py:310-316 | corrected, the module-level list holds only set names, at most one per set, and each is the name of a set that failed |
| HdrPattern.RunAllFixedComplete | pattern/gen_pattern.py:314-316 | corrected, every set that failed is named in the module-level list |
| HdrPattern.RunAllFixedEmpty | pattern/gen_pattern.py:310-317 | corrected, the list is empty exactly when no set failed |
| HdrPattern.Exit | pattern/gen_pattern.py:317-321 | defines the closing report: exit status 0 with nothing failed, 1 after the warning, TypeError when the list holds a patch index |
| HdrPattern.AsWrittenExit | pattern/gen_pattern.py:317-318 | as written, a patch index in the module-level list makes the closing report raise TypeError |
| HdrPattern.FixedExit | pattern/gen_pattern.py:317-321 | corrected, the closing report never raises, and the script exits 1 exactly when some set failed, 0 otherwise |
| HdrPattern.PatchIndexRecorded | pattern/gen_pattern.py:310-318 | as written, a failed patch in the last set ends the script with TypeError |
| HdrPattern.DoPatchLists | pattern/gen_pattern.py:217-233 | do_patch on the caller's lists keeps them equal to the successes' videos, values and chapters, numbered by the count it was given |
| HdrPattern.WhiteLoop | pattern/gen_pattern.py:264-266 | the imperative lead-in reaches the state of n white do_patch calls |
| HdrPattern.LeadInLists | pattern/gen_pattern.py:262-266 | the lead-in on the caller's lists matches its definition |
| HdrPattern.Step | pattern/gen_pattern.py:257-269 | one imperative row step matches the row-by-row definition, lists included when nothing escaped |
| HdrPattern.ParsedStep | pattern/gen_pattern.py:261-269 | a parsed row's imperative step matches the definition |
| HdrPattern.RunLoop | pattern/gen_pattern.py:253-269 | the imperative loop reaches the definition's files, failures and escape, and, when nothing escaped, the successes' videos, values and chapters |
| Chart.ChunksFlatten | patch/pattern.py:17-22 | the chunks laid end to end give back the fields after the first |
| Chart.ChunksShape | patch/pattern.py:17-19 | there are ceil(n/3) chunks; all but the last are triples and the last holds one to three fields |
| Chart.Chunk | patch/pattern.py:17-22 | the generator's loop yields exactly the chunks |
| Chart.Padding | patch/pattern.py:27-28 | the padding is less than the number of panels |
| Chart.PaddingRemainder | patch/pattern.py:27-28 | the padding is the remainder of the size divided by the panel count |
| Chart.SizesAt | patch/pattern.py:36-38 | only the first panel or band carries the padding |
| Chart.SumSizes | patch/pattern.py:36-38 | the sizes add up to the panel size times the count, plus the padding |
| Chart.SizesTile | patch/pattern.py:27-31 | the panels together cover the whole width (or height) exactly |
| Chart.TileAt | patch/pattern.py:35-37 | pixel x of a row, channel m, is channel m of the panel whose columns span x: panels lie left to right in csv order |
| Chart.PatchlistRows | patch/pattern.py:14-24 | entry i is the chunks of csv row i after its first field; the first is empty iff the first csv row has at most one field |
| Seqs.SequenceSpec | patch/pattern.py:36 | a list comprehension succeeds iff every element does and then holds them in order; otherwise it raises one element's exception |
| Chart.IntsSpec | patch/pattern.py:36 | a panel's values exist iff every field parses as an integer, and they are those integers in order; otherwise ValueError |
| Chart.RowValuesSpec | patch/pattern.py:35-36 | a row's values exist iff every panel's do, in panel order; otherwise ValueError |
| Chart.AllRowDataSpec | patch/pattern.py:33-37 | all rows' data exist iff every row's does, in row order; otherwise ValueError |
| Chart.TileBands | patch/pattern.py:38-39 | pixel row y is the data of the band whose rows span y |
| Chart.FrameRaises | patch/pattern.py:33-39 | building the frame raises iff some field is not an integer, and then with ValueError |
| Chart.Pixels | patch/pattern.py:11-39 | defines the frame or the exception the script stops with: IndexError for no csv rows, ZeroDivisionError for a first row without patches, ValueError for a field that is not an integer |
| Chart.PixelsErrors | patch/pattern.py:24-36 | an empty csv raises IndexError, a first row with no patch ZeroDivisionError, and no other error is possible but ValueError |
| Chart.FrameBands | patch/pattern.py:33-39 | every pixel row in band j is row j's data: rows lie top to bottom in csv order |
| Chart.FrameHeight | patch/pattern.py:38-39 | the frame is as tall as its bands together |
| Chart.PixelsHeight | patch/pattern.py:30-39 | a rendered frame has exactly h pixel rows |
| Chart.RowDataWidth | patch/pattern.py:27-37 | with full triples, a row of panels holds exactly 3w values |
| Chart.RowTriples | patch/pattern.py:35-37 | with full triples, a row's data is its panels' three values, each repeated over the panel's width |
| Chart.ReadPatchlist | patch/pattern.py:11-22 | the csv loop builds exactly the patch list |
| Chart.PanelRaises | patch/pattern.py:36 | a panel with a field that does not parse makes the row raise ValueError |
| Chart.PanelGrows | patch/pattern.py:35-37 | a panel that parses appends its values repeated over its width |
| Chart.PanelsDone | patch/pattern.py:35-37 | after every panel, row_data is the row's data |
| Chart.BuildRowData | patch/pattern.py:34-37 | the inner loop builds exactly the row's data or its error |
| Chart.BandRaises | patch/pattern.py:33-37 | a row that raises makes the frame raise ValueError |
| Chart.BandGrows | patch/pattern.py:38-39 | a row with data appends its band |
| Chart.BandsDone | patch/pattern.py:33-39 | after every row, pixels is the frame |
| Chart.RenderBands | patch/pattern.py:33-39 | the outer loop builds exactly the frame or its error |
| Chart.BandLoop | patch/pattern.py:38-39 | the band loop appends the row's data the given number of times |
| Chart.Render | patch/pattern.py:11-39 | the whole script, up to the PNG writer, yields exactly the frame or its error |
| Greyscale.ColumnStart | greyscale/greyscale.py:41-51 | the columns before column j take panel times j pixels, and the last column ends at panel times the count plus the padding |
| Greyscale.WidthsSum | greyscale/greyscale.py:41-51 | the widths cover panel times the count plus the padding |
| Greyscale.RampRow | greyscale/greyscale.py:44-53 | defines the ramp row: each column's triple repeated across its width, column after column |
| Greyscale.RampRowSpec | greyscale/greyscale.py:44-53 | the row has three values per pixel, and every channel of every pixel in column j is column j's value |
| Greyscale.RampRowWidth | greyscale/greyscale.py:24-42 | the 101 columns are 38 pixels wide with a padding of 2, so the row is exactly 3840 pixels |
| Greyscale.RowGrows | greyscale/greyscale.py:50-53 | one more column extends the row by that column's triple repeated its width |
| Greyscale.BuildRow | greyscale/greyscale.py:44-53 | the column loop builds exactly the ramp row |
| Greyscale.Frame | greyscale/greyscale.py:54 | the image is h copies of the row |
| Greyscale.Encode | greyscale/greyscale.py:9-21 | the commands run are those of the skip rules; a failing command stops it with CalledProcessError; each command that succeeded left its file |
| Greyscale.EncodeRunsIff | greyscale/greyscale.py:10-21 | the first command runs iff its file is absent, the loop command iff its file is absent and nothing failed before it; nothing runs when both exist |
| Greyscale.EncodeIdempotent | greyscale/greyscale.py:10-16 | once both files exist, encoding again runs nothing |
| Greyscale.Generate | greyscale/greyscale.py:44-78 | the PNG is written iff it is absent, and it then holds 2160 copies of the ramp row; the script only adds the ramp and the four videos to the files on disk |
| SetItem.CloseFromSpec | set_item.py:111 | the `.*\)` tail matches from i iff a `)` follows with no newline before it |
| SetItem.SuffixAt | set_item.py:111 | the second group matches at a iff the marker is there and a `)` follows on the same line |
| SetItem.LineEnd | set_item.py:111 | `.*` from a start stops at the first newline or at the end |
| SetItem.LastSuffix | set_item.py:111 | the suffix position chosen is the last one in range, or there is none |
| SetItem.SearchSpec | set_item.py:111 | the search finds no match iff the pattern matches at no start; a match found starts leftmost and its first group is the longest there |
| SetItem.Title | set_item.py:111-113 | defines `name = m.group(1)` on a match, the name unchanged otherwise |
| SetItem.TitleSpec | set_item.py:111-113 | the title is unchanged iff the pattern does not match; otherwise it is the first group of the match; on a one-line title it is a prefix followed by the marker |
| SetItem.TitleCutsLast | set_item.py:111-113 | on a one-line title the cut is at or after every marker that a `)` follows |
| SetItem.Outcome | set_item.py:114-120 | defines what follows the search: no match, a KeyError for a hit without Key or Filename, or the hit with its update |
| SetItem.OutcomeSpec | set_item.py:114-120 | set_value is called exactly for a non-empty hit with a Key and a Filename whose Borrowed value is false, with that hit's Key; a hit lacking a Key or a Filename raises KeyError; anything else is no match |
| SetItem.Process | set_item.py:109-114 | defines one line: KeyError for a missing YEAR or FILM column, AttributeError for a line too short to have a FILM cell, else the outcome of the search for its cleaned title |
| SetItem.ProcessSpec | set_item.py:109-114 | a line raises KeyError for YEAR and then for FILM when the header lacks them, and AttributeError when the line is too short to fill its FILM cell; otherwise its outcome is that of the search for its stripped, cut title |
| SetItem.RunSpec | set_item.py:108-120 | a run that ends without exception has one outcome per line, in order, each that line's own |
| SetItem.RunStops | set_item.py:108-110 | a line that raises ends the run with its exception, whatever follows |

## Left out

- The media-server client (`mc/mediaserver.py` and the `MediaServer` class in `set_item.py`). It is an HTTP client, so its searches and `set_value` are function parameters.
- `pos_test.py`. It polls a playback position over the network, with sleeps between polls.
- Running ffmpeg, ffprobe and imagemagick, and the `shlex` splitting of their command lines. A tool's printed lines and its success or failure are inputs. `Patch.Render` holds them for one patch.
- The file system: existence, modification times, `mkdir`, directory listings and CSV files. These are a set of existing paths, a listing, a cut-off time and rows given as sequences. Writing an output is modelled as the rows it would hold.
- PNG writing in `patch/pattern.py` and `greyscale/greyscale.py`. The model stops at the pixel rows passed to the writer.
- Floating-point colour science. This covers `maxfall/calc.py`, `libplacebo/curve.py`, `patch/patch.py`, the Display P3 branch of `pattern/gen_pattern.py:69-83`, and the PQ values of `greyscale/greyscale.py:31-48`. Colours enter as 10-bit integers through `GenPattern.Tools` and `HdrPattern.Tools`, and greyscale channel values as a function of the column.
- The text of `--hdr p3` names and cells. In that mode `pattern/gen_pattern.py:81` takes the 10-bit values from `np.round`, which gives floats, so the cache directory, patch and video names read like `1023.0_0.0_0.0` and the delta and verify cells are float text. The model's integer names and cells are those of no HDR and of `--hdr 2020` only.
- `as_grey`, `greyscale_percent` and the overlay text. The grey is given in thousandths, the value `as_grey` rounds to. The overlay text is a parameter.
- `greyscale/greyscale_extract.py`. It is an imagemagick sampling loop that only feeds pandas.
- Logging, `print` and timing (`time.time()` around encodes). The printed verdicts that matter are outcome values: MetaAnalyse's report lines, SetItem's `Line`, and CropDetect's "matches!".
- Command-line parsing. Arguments are parameters.
- `Path.absolute()` in `crop/cropdetect.py:37`. The stream file's path is the result's rewritten path joined with `STREAM` and the entry's name, so a relative library path is not resolved against the working directory.
- The duration check after encoding in `pattern/gen_pattern.py:147-153`. It only logs a mismatch, so only a failing ffprobe run, which raises, is modelled.
- Text.ParseInt: it accepts white space, an optional sign and ASCII digits. It rejects the `_` digit separators and the non-ASCII digits that Python's `int()` also accepts.
- CropDetect.Script: the time at which dump_output writes a file is the parameter `now`, one clock reading for the whole run, so a file written during the run counts as recent exactly when `now` is after the cut-off.
- CropDetect.Env: modification times are whole seconds, while `st_mtime` and the cut-off are floats. A file written less than a second after the cut-off is skipped by the script; the model skips it only when its time is given rounded up.
- CropDetect.HundredthsNearest: the `ar` text is the exact quotient w / h rounded half to even to two places. It does not model the rare case where the binary float w / h lies on the other side of a tie.
- CropDetect.AddSecondsValue: the `t:` value and the timestamp are exact decimals. It does not model binary float addition, or `str(float)` beyond dropping trailing zeros.
- Patch.ChapterMs: the chapter length in milliseconds is exact. With 25 frames per second, `round(frame_count / 25, 3) * 1000` is a whole number of milliseconds, up to float error.
- Patch.ProcessPatch: its own contract only says that no file is lost. What it returns on success is stated by `Patch.ProcessPatchSpec`.
- Greyscale.Generate: it bounds the files on disk — the ramp is added and nothing else outside the five outputs — rather than listing them. Which videos exist is stated exactly by `Greyscale.Encode`.

## Findings

| source | as written | input that shows it | evidently intended | confidence | as-written member | corrected member |
|---|---|---|---|---|---|---|
| meta_analyse.py:34-35 | The SKIP and LIMIT checks run only when a new title begins, so the group the loop ends in is never checked | two data rows of one title with the same limit and different crops: only `SENSITIVE` is printed, not `SKIP` | the last title is checked like every other title | high (not executed) | MetaAnalyse.LastRunUnchecked | MetaAnalyse.AnalyseFlushedReports |
| gen_pattern.py:166-168 | `;FFMETADATA1`, `title=...` and `artist=mk` are written without newlines, so they share one line with the first `[CHAPTER]` | any patch set with one successful patch: the first line is `;FFMETADATA1title=...artist=mk[CHAPTER]` | each header line ends with a newline, and the first chapter starts on line four | high (not executed) | Patch.MetaMergesFirstChapter | Patch.MetaFixedLines |
| pattern/gen_pattern.py:232 | `do_patch` records a failure in the module-level `failed` list, not in `process_patchset`'s own list, so a set whose patches failed never raises ValueError. It writes verify.csv and the video from the patches that worked | a verify set whose first patch fails to encode | the set raises ValueError and writes nothing | high (not executed) | HdrPattern.PatchFailuresIgnored | HdrPattern.PatchsetFixedSpec |
| pattern/gen_pattern.py:317-318 | The same module-level list then holds a patch index, an integer, so the closing `", ".join(failed)` raises TypeError | any run in which one patch fails | the script lists the failed sets and exits 1 | high (not executed) | HdrPattern.AsWrittenExit | HdrPattern.FixedExit |
