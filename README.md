# Proxycut proxy generator, modelled in Dafny

`build_proxy.py` walks a source tree, picks out the video files by their
extension, and turns each one into a small proxy: a random five-second window,
scaled down, with a title card (date, guessed location, file stem), written as
`<stem>_proxy.mp4` into an output directory. `main` counts successes and
failures and exits with 0 only when nothing failed.

This project models the decision logic of that script and proves what it
promises:

- `Discovery` / `Walk`: the extension filter and the order-preserving directory
  walk of `find_video_files` (nested loops, as a method proved against a
  recursive function that states its result).
- `Metadata`: `get_video_metadata` — the stat step as an optional date, the
  gazetteer scan with its `any()` guard and `break`.
- `ClipWindow`: the five-second rule and the window drawn by `random.uniform`.
- `TitleCard`: the `title_parts` list and the joined card text.
- `Proxy`: output naming and one run of `process_video_file`, with the codec
  steps as supplied outcomes.
- `Batch`: `main` — early returns, the counter loop and the exit code.
- `PyStr`, `PyPath`, `Wrappers`: the Python string and path operations the
  script relies on (`lower`, `title`, `in`, `rfind`, `"\n".join`,
  `Path.name/suffix/stem`, `os.path.join`) and `Optional`.

The file system, the clock, randomness and moviepy are inputs: the walk is a
sequence of `(root, files)` entries, the stat step is an `Option<string>`, the
random draw is a real in `[0, 1]`, and each file's loading and rendering
outcome comes from a caller-supplied environment (`FileEnv`).

Three behaviours of the code are worth stating up front, since a reader might
expect otherwise:

- The discovered files keep the order in which the directory walk yields them;
  nothing sorts them (build_proxy.py:204-209, `Walk.FilesOfAppend`).
- Date and location are computed inside one `try`, so when the stat step fails
  the location is lost as well as the date (build_proxy.py:52-72,
  `Metadata.GetVideoMetadata`).
- The proxy is always written as `<stem>_proxy.mp4`, whatever the source
  container (build_proxy.py:170, `Proxy.OutputPathParts`).

## Model

| member | source | states |
|---|---|---|
| PyStr.Lower | build_proxy.py:206 | `str.lower()` keeps the length and lowers each character on its own |
| PyStr.LowerOfLower | build_proxy.py:66 | a string without upper-case letters is unchanged by `lower()` |
| PyStr.Title | build_proxy.py:69 | `str.title()`: a cased letter right after a cased letter is lowered, every other character upper-cased |
| PyStr.TitleOfLowerWord | build_proxy.py:69 | `title()` of a lower-case word capitalises its first letter and keeps the rest |
| PyStr.Contains | build_proxy.py:66-68 | `keyword in text`: the keyword occurs as a contiguous block at some index |
| PyStr.ContainsMiddle | build_proxy.py:66 | a string contains, in the sense of `in`, whatever sits in its middle |
| PyStr.MissingCharNotContained | build_proxy.py:66 | a keyword holding a character the text lacks is not `in` the text |
| PyStr.RFind | build_proxy.py:206 | `rfind` gives the last index holding the character, or -1 when there is none |
| PyStr.JoinWith | build_proxy.py:152 | `sep.join(parts)`: the parts in order with `sep` between neighbours |
| PyStr.JoinWithEnds | build_proxy.py:152 | a `"\n".join` text starts with its first part and ends with its last |
| PyPath.Name | build_proxy.py:149 | `Path(p).name`: the text after the last `/`, which holds no `/` and ends the path |
| PyPath.Suffix | build_proxy.py:206 | `Path(p).suffix`: from the last dot of the name, empty when that dot is the first or last character |
| PyPath.Stem | build_proxy.py:149 | `Path(p).stem`: the name without its suffix |
| PyPath.Join | build_proxy.py:171 | `os.path.join(a, b)`: an absolute `b` replaces `a`, otherwise one `/` separates them unless `a` is empty or ends in `/` |
| PyPath.StemSuffixSplit | build_proxy.py:206 | stem + suffix is the file name; the suffix is empty or a dot, then a dot-free rest, after a non-empty stem |
| PyPath.NameOfJoin | build_proxy.py:207 | a plain file name joined under a directory is the final component of the result |
| PyPath.JoinKeepsName | build_proxy.py:207 | a plain file name joined under a directory keeps its name, stem and suffix |
| PyPath.SameName | build_proxy.py:206 | paths with the same final component have the same stem and suffix |
| PyPath.DottedName | build_proxy.py:206 | `base + ext` with a proper extension has suffix `ext` and stem `base` |
| PyPath.UndottedName | build_proxy.py:206 | a name with no dot after its first character has no suffix and is its own stem |
| Walk.FilesIn | build_proxy.py:205-207 | the accepted files of one directory, joined to it, in listing order |
| Walk.FilesOf | build_proxy.py:204-207 | the accepted files of the whole walk, directory after directory |
| Walk.CollectFiles | build_proxy.py:202-209 | the nested loops return exactly the accepted files joined to their directories, in walk order |
| Walk.FilesOfMembers | build_proxy.py:204-207 | a path is returned iff some walked directory holds a file that passes the filter and joins to it |
| Walk.FilesOfAppend | build_proxy.py:204-207 | later directories only append: the result keeps walk order and is not sorted |
| Walk.TwoDirectories | build_proxy.py:204-207 | two directories each with a kept and a dropped file give the two kept paths in walk order |
| Discovery.IsVideoFile | build_proxy.py:206 | the filter: the lower-cased suffix is one of the nine extensions of line 42 |
| Discovery.VideoFilesOf | build_proxy.py:198-209 | what `find_video_files` returns: the walk filtered by `IsVideoFile` |
| Discovery.FindVideoFiles | build_proxy.py:198-209 | `find_video_files` returns the walk's files whose lower-cased suffix is one of the nine extensions, in walk order |
| Discovery.VideoFilesOfMembers | build_proxy.py:198-209 | a path is discovered iff it joins a walked directory with a file that passes the extension test |
| Discovery.KeptIffExtension | build_proxy.py:206 | a name with a proper extension is kept iff that extension, lower-cased, is in the allow-list |
| Discovery.MovFileKept | build_proxy.py:206 | for any base name, a `.MOV` file is kept: the match ignores case |
| Discovery.Mp4FileKept | build_proxy.py:206 | for any base name, a `.mp4` file is kept |
| Discovery.TextFileDropped | build_proxy.py:206 | for any base name, a `.txt` file is dropped |
| Discovery.JpegFileDropped | build_proxy.py:206 | for any base name, a `.jpg` file is dropped |
| Discovery.UpperCaseKept | build_proxy.py:42 | `.MOV` and `.Mp4` lower into the allow-list, so the match ignores case |
| Discovery.TextDropped | build_proxy.py:42 | `.txt` is not in the allow-list |
| Discovery.JpegDropped | build_proxy.py:42 | `.jpg` is not in the allow-list |
| Discovery.Mp4Kept | build_proxy.py:206 | a name whose suffix is `.mp4` is kept |
| Discovery.NoSuffixDropped | build_proxy.py:206 | a name without a suffix is dropped |
| Discovery.TrailingDotDropped | build_proxy.py:206 | a name ending in a dot has no suffix and is dropped |
| Discovery.HiddenFileDropped | build_proxy.py:206 | a hidden file named `.mp4` has no suffix and is dropped |
| Metadata.FirstCity | build_proxy.py:67-70 | the first entry of the list, in order, that is a substring of the text |
| Metadata.LocationOf | build_proxy.py:64-70 | the location: the first gazetteer entry found in the lower-cased stem, title-cased |
| Metadata.MetadataOf | build_proxy.py:44-75 | the returned pair: both absent on a failed stat, else the date and `LocationOf` the stem |
| Metadata.GetVideoMetadata | build_proxy.py:44-75 | the date is the stat step's result; a failed stat leaves both fields absent; otherwise the location is the gazetteer scan of the stem, and the call never fails |
| Metadata.FirstCityNone | build_proxy.py:66-70 | the scan finds nothing iff no entry is a substring, so the `any()` guard never changes the result |
| Metadata.FirstCityAt | build_proxy.py:67-70 | the scan returns entry i iff entry i is the first, in list order, that is a substring |
| Metadata.FoundFirst | build_proxy.py:67-70 | a found entry with no earlier entry found stops the scan |
| Metadata.LocationRule | build_proxy.py:64-70 | the location is the title-cased first gazetteer entry found in the lower-cased stem, and absent iff none is found |
| Metadata.ParisLondonTitles | build_proxy.py:69 | `paris` and `london` title-case to `Paris` and `London` |
| Metadata.TokyoNycBerlinTitles | build_proxy.py:69 | `tokyo`, `nyc` and `berlin` title-case to `Tokyo`, `Nyc` (not `NYC`) and `Berlin` |
| Metadata.ParisScan | build_proxy.py:67-70 | the scan of `trip_to_paris_2021` stops at `paris` |
| Metadata.ParisExample | build_proxy.py:64-70 | `trip_to_paris_2021` is placed in `Paris` |
| Metadata.NoCityScan | build_proxy.py:66-70 | the scan of `clip01` finds no entry |
| Metadata.NoCityExample | build_proxy.py:64-70 | `clip01` has no location |
| Metadata.NycExample | build_proxy.py:64-70 | `nyc` is placed in `Nyc` |
| Metadata.ListOrderScan | build_proxy.py:67-70 | the scan of `berlin_to_paris` stops at `paris`, which precedes `berlin` in the list |
| Metadata.ListOrderExample | build_proxy.py:64-70 | list order, not position in the name, decides: `berlin_to_paris` is placed in `Paris` |
| Metadata.UpperCaseExample | build_proxy.py:64-70 | the match ignores case: `PARIS` is placed in `Paris` |
| ClipWindow.Uniform | build_proxy.py:122 | `random.uniform(a, b)` lies in `[a, b]` |
| ClipWindow.ScaledDrawBound | build_proxy.py:122 | a draw in `[0, 1]` scales a non-negative width into `[0, width]` |
| ClipWindow.SelectWindow | build_proxy.py:114-123 | a video is rejected iff shorter than 5 s; otherwise 0 ≤ start ≤ duration − 5, end − start = 5 and end ≤ duration |
| ClipWindow.WindowsReachable | build_proxy.py:120-123 | for a long-enough video, a window is chosen by some draw iff it fits inside the video and is 5 s long |
| ClipWindow.ShortAndExactExamples | build_proxy.py:115-123 | a 3 s video is rejected; a 5 s video gets the window `[0, 5]` |
| TitleCard.Truthy | build_proxy.py:144-147 | `if date_str:` / `if location_str:`: `None` and the empty string are false |
| TitleCard.TitleLines | build_proxy.py:143-150 | the card's lines: the date line if truthy, the location line if truthy, then the file line |
| TitleCard.ComposeTitle | build_proxy.py:143-152 | the appended lines are the card's lines and the text is their `"\n"` join; the fallback branch is never taken |
| TitleCard.TitleLinesShape | build_proxy.py:143-150 | one line per truthy field plus the file line; never empty; file line last, date line first, location line just before the file line |
| TitleCard.CardEnds | build_proxy.py:150-152 | the card text ends with `File: <stem>` and starts with the date line when there is a date |
| TitleCard.BareCard | build_proxy.py:152 | with no truthy date or location the joined text equals the fallback text |
| TitleCard.FullCard | build_proxy.py:143-152 | with both fields the card reads date, location, file, separated by newlines |
| Proxy.OutputName | build_proxy.py:170 | the output file name: the stem followed by `_proxy.mp4` |
| Proxy.OutputPath | build_proxy.py:170-171 | the output name joined under the output directory |
| Proxy.OutcomeOf | build_proxy.py:106-196 | how processing ends: load failure, skipped as too short, render failure, or written with its path, window and card |
| Proxy.StemHasNoSlash | build_proxy.py:149 | a stem never holds a `/` |
| Proxy.OutputPathParts | build_proxy.py:170-171 | the proxy lies directly in the output directory, with suffix `.mp4` whatever the source suffix, and stem `<stem>_proxy` |
| Proxy.OutputPathCollision | build_proxy.py:170-171 | two sources share a proxy path iff they share a stem |
| Proxy.ProxyIsVideoFile | build_proxy.py:170 | every proxy passes the discovery filter itself |
| Proxy.ProcessVideoFile | build_proxy.py:106-196 | returns True iff the proxy is written, and reports how the attempt ended |
| Proxy.SucceedsIff | build_proxy.py:106-196 | a file succeeds iff it loads, lasts at least 5 s and renders; a shorter one is skipped whatever else happens |
| Proxy.WrittenProxy | build_proxy.py:120-171 | a written proxy has a fitting 5 s window, the derived `.mp4` path, and a card ending in the file line |
| Batch.Succeeds | build_proxy.py:259 | `process_video_file` returns True for the file |
| Batch.MainReport | build_proxy.py:229-271 | what `main` leaves behind: exit code, whether the output directory was made, the discovered files and the two counters |
| Batch.CountSucceeded | build_proxy.py:254-262 | the number of files processed successfully |
| Batch.CountFailed | build_proxy.py:254-262 | the number of files whose processing fails |
| Batch.CountWhere | build_proxy.py:254-262 | the count never exceeds the number of files |
| Batch.CountStep | build_proxy.py:258-262 | one more processed file adds one exactly when it passes |
| Batch.CountComplement | build_proxy.py:258-262 | each file moves exactly one of the two counters, so they add up to the number of files |
| Batch.NoneFailed | build_proxy.py:262-271 | no file fails exactly when every file succeeds |
| Batch.RunMain | build_proxy.py:229-271 | `main` returns `MainReport`: the loop counts successes and failures one file at a time, and the exit code and directory creation follow the early returns |
| Batch.AllCounted | build_proxy.py:254-271 | every file is counted a success iff every file succeeds |
| Batch.Accounting | build_proxy.py:254-271 | successful + failed equals the number of discovered files; exit 0 iff failed = 0 iff every file succeeds |
| Batch.EarlyReturns | build_proxy.py:229-251 | a missing input directory gives 1 and does nothing; no files or a dry run gives 0 without processing; only a real run creates the output directory |
| Batch.ExitCodeRule | build_proxy.py:229-271 | the exit code is 0 or 1, and 0 iff the input directory exists and it is a dry run or every file succeeds |
| Batch.CountThree | build_proxy.py:258-262 | three files of which only the first passes count one success |
| Batch.ThreeFiles | build_proxy.py:254-271 | a good file, a 3 s file and a failing render give 1 success, 2 failures and exit code 1 |

## Left out

- moviepy (`VideoFileClip`, `subclip`, `resize`, `TextClip`, `CompositeVideoClip`, `write_videofile`): foreign library calls; a file's load is an optional duration and everything after it one success-or-failure outcome (`FileEnv.renderOk`).
- `create_title_overlay` (build_proxy.py:77-91): only styling handed to moviepy; the model keeps the card text.
- The `--width` argument and the target-height computation at build_proxy.py:134: floating-point values that only reach the codec.
- `os.walk`, `os.path.isdir`, `os.stat`, `datetime.fromtimestamp`/`strftime`, `os.makedirs`: file system and clock; they are the inputs `walk`, `inputIsDir`, `statDate` and the flag `outputDirCreated`. A failing `os.makedirs` (which would raise out of `main`) is not modelled.
- `random.uniform`'s source of randomness: the draw is a parameter in `[0, 1]`, closed at 1 because CPython documents that the upper bound may be reached by rounding.
- Durations and window bounds are reals, not IEEE doubles.
- `lower()` and `title()` are modelled on ASCII letters only; Unicode case mappings are not. This changes what the filter keeps: Python lowers U+212A KELVIN SIGN to `k`, so it keeps a file whose suffix is `.m` + U+212A + `v` as `.mkv`, and the model drops it.
- `PyPath.Name` takes the text after the last `/`; `pathlib`'s normalisation of repeated or trailing slashes is not modelled (walk entries are plain file names, which have none).
- tqdm progress bars, every `print`/`pbar.write` message (including the dry-run listing), argparse and the import-time fallbacks at build_proxy.py:17-35: presentation and environment.
