# Storage reconciler and LoRA metadata report, modelled in Dafny

Two small command-line scripts. Mostly pure logic sits inside an I/O shell:

- **scripts/storage.py**
  - `status` lists a Google Cloud Storage prefix with `gsutil ls -l`.
  - It parses that listing into a map from object name to size.
  - It collects the visible regular files of the working directory with their sizes.
  - It prints one colour-coded row per name of the union:
    - `LR` when both sides hold the same size;
    - `L-` (green) when the file is only local;
    - `-R` (blue) when it is only remote;
    - `L-` then `-R`, both red, when the sizes differ.
  - `push` and `pull` build a `gsutil cp` argument vector.
- **scripts/loras.py**
  - It walks the files of a directory.
  - For every `.safetensors` file, it decodes the 8-byte little-endian header length.
  - It reads the JSON header and prints the model's output name.
  - For each training folder of `ss_tag_frequency`, it prints the five most frequent tags. These come from `top_n_values`, a stable descending sort by count followed by a cut.

The modules follow the scripts:

| module | file | models |
|---|---|---|
| `Base` | base.dfy | `Option`, `Result` and `Min` |
| `Text` | text.dfy | the string operations the scripts use:<br>prefix tests, Python's `str` ordering, `int()` on digit strings, `str(n)`, the `:,` thousands format, `rjust` |
| `Listing` | listing.dfy | the remote listing parse loop, as a function and as the loop itself |
| `LocalFiles` | local_files.dfy | the local-name filters and the loop filling `local` |
| `Reconcile` | reconcile.dfy | the sorted union of names and the loop building `data`, including the `tmp`/`col` lists |
| `RowFormat` | row_format.dfy | the layout of one printed row |
| `Status` | status.dfy | `status` end to end, with its I/O as inputs |
| `Transfer` | transfer.dfy | the `push` and `pull` argument vectors |
| `TopN` | top_n.dfy | `top_n_values`, as an insertion sort that is stable and descending by count |
| `Header` | header.dfy | the 64-bit little-endian header length and the bounded header read |
| `LoraReport` | lora_report.dfy | the per-file loop of loras.py, with its skips and the exceptions that end it |

The loops the scripts write are modelled as Dafny methods with loops. Each method is proved equal to a specification function, and the properties are proved about those functions:

- `ParseRemote` is proved equal to `ParseListing`;
- `LocalSizes` to `LocalMap`;
- `BuildRows` to `Report`;
- `PrintFolders` to `FoldersLines`;
- `PrintReport` to `Run`.

Exceptions that end a script's run are modelled as data: a `Result` for the listing parse, and the `failed` field of an `Outcome` for the LoRA report. They are not preconditions.

### Errors in the two scripts

- **Which LoRA report errors end the run.** In scripts/loras.py only line 26, the `ss_output_name` lookup, sits inside the bare `try`. A header without that entry is skipped, and so is one that is not a JSON object or whose `__metadata__` is not an object. The other errors propagate and end the whole run:
  - a file shorter than eight bytes (line 22);
  - a header that is not JSON (line 24);
  - a missing `ss_tag_frequency` (line 30);
  - a `ss_tag_frequency` that is not a string, or not JSON (line 30).

  `LoraReport.FailsAtFirstFatal` states exactly when the run stops, and with which error.
- **Malformed listing lines are parse errors.** The loop of scripts/storage.py:44-57 raises on three shapes of line, and the model returns each as an error of the parse:
  - fewer than two fields (an `IndexError`);
  - the URL outside the path (the `assert`);
  - a size that is not a number (`ValueError` from `int`).

  Two fields are enough not to raise `IndexError`: they give an empty URL, which then fails the `assert`. Empty listing output reaches the loop as one empty line, which the model reports as `MissingFields(0)`.

## Model

| member | source | states |
|---|---|---|
| Listing.ClassifyLine | scripts/storage.py:45-57 | What one line means, in the order the loop tests it:<br>- a summary line exactly when its first field starts with `TOTAL:`;<br>- otherwise `MissingFields` for fewer than two fields;<br>- otherwise `OutsidePath` when the URL does not start with `gs_path + "/"`;<br>- otherwise a directory when the stripped key ends in `/`;<br>- otherwise `BadSize` when the size does not parse;<br>- otherwise the entry of the stripped key with the parsed size.<br>Every failure carries the line's number. |
| Listing.ParseRemote | scripts/storage.py:42-57 | The loop returns exactly the listing's parse: the `remote` map, or the first error. |
| Listing.ErrorPersists | scripts/storage.py:49-57 | Once a prefix of the listing fails, the whole listing fails with that same error. |
| Listing.FailsAtFirstMalformed | scripts/storage.py:49-57 | The parse fails if and only if some line is malformed, and then it reports the first malformed line. |
| Listing.SummaryLineIgnored | scripts/storage.py:46-48 | Inserting a `TOTAL:` line anywhere leaves the parse succeeding exactly when it did, with the same map. A failure is the same failure; only its line number grows by one when the failing line comes after the inserted one. |
| Listing.ObjectLineListed | scripts/storage.py:49-57 | In a listing that parses, every well-formed object line is listed: its URL, with `gs_path + "/"` stripped, is a key of the map. |
| Listing.ParsedKeys | scripts/storage.py:49-57 | A name is a key of `remote` if and only if some entry line inserts it. |
| Listing.ParsedSizes | scripts/storage.py:57 | Each key's size is the one given by the last line inserting that key, so later duplicates overwrite earlier ones. |
| Listing.NoDirectoryKeys | scripts/storage.py:54-56 | No key ends in `/`. |
| Listing.KeysAreStrippedUrls | scripts/storage.py:50-52 | Every key is some line's URL (third field onward) with `gs_path + "/"` removed. That prefix is present, and the line's size field is a number. |
| LocalFiles.Filter | scripts/storage.py:60-62 | A name is kept exactly when it occurs in the input and the test accepts it. |
| LocalFiles.Candidates | scripts/storage.py:59-62 | A name survives the three filters if and only if it is listed, does not start with `.`, does not end with `~`, and is a regular file. |
| LocalFiles.SizesOfEntries | scripts/storage.py:64-66 | The filled dictionary holds exactly the names looped over, each with its own size. |
| LocalFiles.LocalMap | scripts/storage.py:59-66 | The keys of `local` are exactly the surviving names, each mapped to its given size. |
| LocalFiles.LocalSizes | scripts/storage.py:64-66 | The loop builds exactly `LocalMap`. |
| Reconcile.SortedKeys | scripts/storage.py:68 | A strictly ascending sequence, under Python's string order, holding exactly the members of the set. |
| Reconcile.SortedUnique | scripts/storage.py:68 | Two strictly sorted sequences with the same members are equal, so the sorted union is unique. |
| Reconcile.SortedUnion | scripts/storage.py:68 | The names are strictly ascending and are exactly the keys of either side. |
| Reconcile.StrictlySortedDistinct | scripts/storage.py:68 | Strictly ascending names hold no duplicates. |
| Reconcile.BuildRows | scripts/storage.py:70-88 | The loop builds exactly `Report` over the names. |
| Reconcile.AppendMismatch | scripts/storage.py:76-88 | The `tmp`/`col` branch appends exactly the rows of the name's presence, given any case other than equal sizes. |
| Reconcile.ReportRowsNamed | scripts/storage.py:70-88 | Over duplicate-free names, the rows naming `f` are exactly the rows of `f`'s presence. There are none when `f` is not a name. |
| Reconcile.RowsPerName | scripts/storage.py:72-88 | For a name of the union:<br>- equal sizes give the single row `("", "LR", size)`;<br>- local only gives a single green `L-` row;<br>- remote only gives a single blue `-R` row;<br>- differing sizes give red `L-` (local size) then red `-R` (remote size).<br>A name on neither side gets no rows. Red differs from both one-side colours. |
| Reconcile.ReportCoverage | scripts/storage.py:68-88 | Every row names a member of the names, and every name present on some side has at least one row. |
| Reconcile.ReportNamesIn | scripts/storage.py:71-88 | Every row, by index, names one of the names looped over. |
| Reconcile.ReportAscending | scripts/storage.py:68-71 | Over sorted names, row names never decrease in Python's string order. |
| Reconcile.RowsContiguous | scripts/storage.py:87-88 | In a report whose names never decrease, any rows between two rows naming `f` also name `f`. |
| Text.DropPrefix | scripts/storage.py:52 | Stripping a present prefix leaves the rest: re-prepending it gives the original, one prefix length shorter. |
| Text.DropPrefixOfConcat | scripts/storage.py:52 | Prepending and then stripping a prefix is the identity. |
| Text.ShowDecimalRoundTrip | scripts/storage.py:57 | `str(n)` is a non-empty digit string with no leading zero unless `n` is 0, and `int` reads it back as `n`. |
| Text.GroupThousandsRoundTrip | scripts/storage.py:75 | Deleting the commas from the `:,` format of `n` leaves digits that read back as `n`. |
| Text.RightJustify | scripts/storage.py:91 | `rjust` pads on the left with spaces to the width, never truncates, and ends with the text. |
| RowFormat.GroupThousandsLength | scripts/storage.py:75 | A number below 10^d formats with separators in at most d + (d-1)/3 characters. |
| RowFormat.SizeFitsColumn | scripts/storage.py:91 | Sizes below 10^14 fit the 18-character column, which then has width exactly 18. |
| RowFormat.FormatRowLayout | scripts/storage.py:91 | A printed row starts with its colour code, and after the size column comes one space and then the marker. |
| RowFormat.FormatRowSize | scripts/storage.py:91 | For sizes below 10^14, the 18 characters after the colour code are spaces followed by the grouped size. |
| RowFormat.SizeColumnReadsBack | scripts/storage.py:91 | Reading the size column of a printed row back, without spaces and commas, gives the row's size. |
| Status.FormatAll | scripts/storage.py:90-91 | One printed line per row, in order, each the row's layout. |
| Status.PrintRows | scripts/storage.py:90-91 | The printing loop produces exactly `FormatAll`. |
| Status.Status | scripts/storage.py:42-91 | A listing that fails to parse gives its first error. Otherwise the result is the formatted report of the sorted union of remote and local names. |
| Status.ExpectedRows | scripts/storage.py:68-88 | In that report, the rows naming a file are exactly the rows of its presence, and there are none for a file on neither side. Row names ascend, and every row names a file of one side or the other. |
| Status.ExampleReport | scripts/storage.py:68-88 | Local `a.txt`=10, `b.txt`=20 against remote `a.txt`=10, `c.txt`=5 gives `a.txt` LR, `b.txt` green L-, `c.txt` blue -R. |
| Transfer.PushArgs | scripts/storage.py:94-98 | An empty name list fails. Otherwise the vector is the names as copy sources and `gs_path + "/"` as destination, 3 arguments longer than the list. |
| Transfer.RemotePaths | scripts/storage.py:111 | One path per name, in order. Each starts with `gs_path + "/"` and strips back to its name. |
| Transfer.PullArgs | scripts/storage.py:108-113 | An empty name list fails. Otherwise the vector is the remote paths of the names, in order, as sources and `.` as destination. |
| Transfer.PullAsksForListedObject | scripts/storage.py:108-113 | Pulling a name that the listing reported asks for exactly the URL the listing printed for it. |
| TopN.Insert | scripts/loras.py:8 | Inserting an item into the sorted prefix lengthens it by one. |
| TopN.InsertPermutes | scripts/loras.py:8 | Insertion adds exactly the inserted item to the multiset of items. |
| TopN.SortByValueDesc | scripts/loras.py:8 | The sort keeps the length, and its counts never increase. |
| TopN.SortPermutes | scripts/loras.py:8 | The sort is a permutation of the items. |
| TopN.SortStable | scripts/loras.py:8 | For every count, the items with that count keep their input order. |
| TopN.TopNValues | scripts/loras.py:6-10 | Exactly `min(n, len(d))` items, with counts that never increase. |
| TopN.TopNSelects | scripts/loras.py:8 | Every item of the result is an item of `d`, and every item left out has a count no larger than any kept item's. |
| TopN.TopNStable | scripts/loras.py:8 | The kept items of any one count are the first items of that count in input order. |
| TopN.SortKeepsKeysDistinct | scripts/loras.py:8 | Sorting a dictionary's items keeps the keys distinct. |
| TopN.TopNIsSubDictionary | scripts/loras.py:8-10 | For a dictionary, the result has distinct keys, so `dict` keeps all of them, and each key has in `d` the value it has in the result. |
| TopN.TopNExample | scripts/loras.py:6-10 | `{x:5, y:9, z:1, w:7, v:3, u:8}` gives `y, u, w, x, v`. |
| Header.LittleEndian | scripts/loras.py:22 | The value of `k` bytes read least significant first is below 256^k. |
| Header.LittleEndianIsWeightedSum | scripts/loras.py:22 | That value is the sum of b[i]·256^i. |
| Header.DecodeEncode | scripts/loras.py:22 | Encoding a number below 256^k in `k` bytes and decoding it gives the number back. |
| Header.EncodeDecode | scripts/loras.py:22 | Decoding `k` bytes and re-encoding the value in `k` bytes gives the bytes back. |
| Header.HeaderLength | scripts/loras.py:22 | The unpacking fails exactly when fewer than 8 bytes are present. Otherwise:<br>- the length is below 2^64;<br>- it is Σ b[i]·256^i over the first 8 bytes;<br>- its 8-byte encoding is those bytes. |
| Header.HeaderBytes | scripts/loras.py:23 | The read returns the `min(length, remaining)` bytes that follow the prefix. |
| Header.HeaderLengthOfEncoding | scripts/loras.py:22 | A file that starts with the 8-byte encoding of `n` declares length `n`. |
| LoraReport.TagLines | scripts/loras.py:34-35 | One `key = value` line per selected tag, in order. |
| LoraReport.PrintFolders | scripts/loras.py:31-35 | The nested loops print exactly the folder lines:<br>each folder's heading, then its top five tags. |
| LoraReport.FolderLinesShape | scripts/loras.py:31-35 | Each folder prints its heading and then `min(5, len(tags))` tag lines. Each tag line is an item of the folder's counts, and the counts never increase. |
| LoraReport.ProcessFile | scripts/loras.py:18-36 | One file's lines and escaping exception are exactly its `FileOutcome`:<br>- skipped without output unless the name ends in `.safetensors`;<br>- a short file fails after its heading;<br>- otherwise the header outcome. |
| LoraReport.ReportHeader | scripts/loras.py:24-36 | After the file heading:<br>- a header that `json.loads` rejects fails;<br>- one without `__metadata__.ss_output_name`, including one that is not an object, ends the file quietly;<br>- otherwise the model heading follows, and then a failure for a `ss_tag_frequency` that is missing, not a string, or not JSON, or else the folders and a blank line. |
| LoraReport.HeaderHeadings | scripts/loras.py:20 | Whatever the header holds, a decoded file prints exactly one file heading, its own name. |
| LoraReport.PrintReport | scripts/loras.py:17-36 | The loop prints exactly the run: each file's lines in order up to and including the first failure, and that failure. |
| LoraReport.RunStopsAtFailure | scripts/loras.py:17-36 | Once a prefix of the files fails, later files change nothing. |
| LoraReport.RunAppend | scripts/loras.py:17-36 | Running two lists of files one after the other is running the first and, if it did not fail, then the second. |
| LoraReport.ReportsSafetensorsFiles | scripts/loras.py:18-20 | The file headings printed are a prefix of the `.safetensors` names in directory order, and all of them when the run does not fail. |
| LoraReport.FailsAtFirstFatal | scripts/loras.py:22-30 | The run fails exactly when some file's outcome fails, and then with the first such file's error. |
| LoraReport.SkippedFileContinues | scripts/loras.py:18-28 | A non-safetensors file, or one without `ss_output_name`, prints at most its heading. The run over the other files fails the same way and prints the same lines around it. |

## Left out

- The `gsutil` subprocess calls and their exception handling (scripts/storage.py:26-40, 97-105, 112-120): the listing is an input (its lines, already split into fields), and push and pull end at the argument vector.
- `read_gs_path` and the `.gstorage` file (scripts/storage.py:9-18): `gs_path` is an input string. Its `None` result on a missing file is not modelled:
  - `status` then hands `None` to the subprocess call, and lines 38-40 catch the error;
  - `push` raises `TypeError` building `gs_path + "/"` at line 98, which lines 103-105 catch;
  - `pull` raises `TypeError` at line 111, outside any `try`.
- `os.listdir`, `os.path.isfile` and `os.path.getsize` (scripts/storage.py:59-66, scripts/loras.py:15): the names are an input sequence, and the regular files with their sizes are an input map. In loras.py each file is an input record of its name and bytes.
- The whitespace splitting of the listing output (scripts/storage.py:44-49): lines arrive as their fields, and the URL is the third field onward joined by single spaces, as `" ".join` rebuilds it.
- Text.ParseDecimal: models `int()` only on non-empty ASCII digit strings, which is what the listing tool prints. A sign, surrounding whitespace, underscores or non-ASCII digits, which Python would accept, are a `BadSize` error.
- The `assert` at scripts/storage.py:51: it is always checked. Running under `python -O`, which would skip it, is not modelled.
- `json.loads` (scripts/loras.py:24, 30): both decodings are function parameters.
  - The header decoder gives `None` only for bytes that `json.loads` rejects.
  - A header that decodes to anything but an object, or whose `__metadata__` is missing or not an object, is a header without metadata. The file is then skipped, as line 26 raises inside the `try`.
  - A `ss_tag_frequency` that is not a string is its own case, `NotText`. It fails, as `json.loads` raises `TypeError`.
- A `ss_tag_frequency` that decodes but is not an object of objects of numbers: the tag decoder gives `None` and the file fails before any folder line. The source fails at the same point when the table itself is not an object (line 31). When only one folder's value is not an object (or its counts do not compare), the source first prints the earlier folders and that folder's heading (line 32), and fails at line 34. The model prints none of those lines.
- The dynamic type of `ss_output_name`: it is a string. Printing a non-string value with `str()` is not modelled.
- `print` and the terminal: the LoRA report is a sequence of structured lines (headings, tag lines, blank lines), not text. The ANSI colour codes of the storage report are opaque strings.
- Python `dict` semantics in loras.py: a dictionary is a sequence of items in insertion order. Where a result relies on distinct keys, the lemma requires them (`TopN.TopNIsSubDictionary`).
- TopN.TopNValues: the printed count is taken from the selected item rather than looked up again as `tags[k]`. The two agree for a real dictionary by `TopN.TopNIsSubDictionary`.
- Python's `sorted` is modelled as an insertion sort for counts and as least-element selection for names. Only the results matter, and stability and permutation are proved for the count sort.
- RowFormat.FormatRowSize: requires a size below 10^14 (about 90 TiB). Larger sizes overflow the 18-character column, and the layout lemmas do not cover them.
- RowFormat.SizeColumnReadsBack: requires a size below 10^14, for the same reason.
- File open and read errors other than a short file (scripts/loras.py:21-23): a file is its bytes, which are always readable.
- `argparse` dispatch (scripts/storage.py:123-162): the three commands are the separate members `Status.Status`, `Transfer.PushArgs` and `Transfer.PullArgs`.
