# summer — a verified model of the directory summariser

`summer` lists a directory as a set of columns. It runs in three stages.

- **Analyze.** Read the directory. Collect `git diff --numstat` statistics and the disk usage and newest mtime of each sub-tree. Put every entry in the first column whose matchers accept it. Count the info-box variables. Sort each column.
- **Render.** Turn each group into grid columns: the added-lines, deleted-lines and disk-usage side columns, the indicator column and the name column. Names are escaped and cut to a maximum width. Render the info boxes from their format strings.
- **Display.** Fit the columns to the terminal width. Print them row by row, with ANSI styles when colours are on. Add a note for the columns that did not fit.

The build script is modelled too. It reads the freedesktop `shared-mime-info` data and builds the byte tree behind `MimeType::from_extension`.

Each source file has one Dafny module:

- Styles, Config and Files are the data model.
- Jobs holds the shared "resolve a background result once" state machine.
- Matchers, GitDiff, Sorting, TreeReader, DiskUsage, Analyzer, Info and Render are the summariser.
- Grid, Escapes, Strings and Display are the display layer.
- Build is the build script.
- Common and Utf8 hold shared helpers. Utf8 is Rust's `str::from_utf8` decoding step and its encoder, per RFC 3629 section 3.

Library code that is not part of this model becomes a function parameter:

- the `unicode-width` character width;
- the glob, regex and MIME oracles;
- `colorparse`;
- the `LS_COLORS` lookup;
- the ANSI prefix and suffix of a style, and whether stdout is a terminal;
- environment variables;
- the clock (`now`);
- `char::is_alphanumeric`.

The file system is a value: an entry listing, and a directory tree with device numbers and a readable flag. Background threads become the outcome of one receive: received, timed out, or disconnected.

State that the source changes in place is modelled with classes:

- `Grid.Row` and `Grid.Column`;
- `Files.FilesGroup`;
- `Info.Parser`;
- `Strings.QuotedString`;
- the job cells `TreeReader.TreeInfoJob` and `DiskUsage.DiskUsageJob`.

Loops become methods proved against a specification function. Each of those functions has its own lemmas.

## Model

| member | source | states |
|---|---|---|
| Styles.Combine | src/display/styles.rs:6-19 | each colour is the new one if set, else the old one; every attribute is set exactly when it is set in either style |
| Styles.CombineOpt | src/display/styles.rs:22-28 | a missing side leaves the other unchanged; two present styles are combined |
| Styles.CombineIdempotent | src/display/styles.rs:6-19 | combining a style with itself gives it back |
| Styles.CombinePlainIdentity | src/display/styles.rs:6-19 | the plain style is a left and right identity of combine |
| Styles.CombineAssociative | src/display/styles.rs:6-19 | combining is associative, so a chain of style rules can be folded in any grouping |
| Config.Indicator.Get | src/config/mod.rs:96-103 | the text is returned unchanged; a style is present exactly for the attribute form with a colour, and it is that colour's style |
| Config.InfoContent.Get | src/config/mod.rs:279-286 | same contract as the indicator accessor, for info-box contents |
| Config.GetAgree | src/config/mod.rs:96-103 | the indicator and info-content accessors agree on the same text and colour; the plain form never has a style |
| Config.ColorsOf | src/config/mod.rs:22 | with no colours section, the renderer uses the default colours; otherwise it uses the configured ones |
| Config.SortOf | src/config/mod.rs:357-361 | an unset column sort means by name ascending; a set one is used as is |
| Jobs.Flattened | src/summarizer/treereader.rs:114-118 | a value comes out only when a received message carries a value; a timeout or disconnect gives none |
| Jobs.Resolve | src/summarizer/treereader.rs:106-122 | after `get` the job is always Done with the value it returned; a Done job returns its cached value unchanged |
| Jobs.ResolveOnce | src/summarizer/diskusage.rs:89-105 | resolving twice gives the same value and state as resolving once, whatever the second outcome |
| Jobs.FailureCached | src/summarizer/treereader.rs:114-121 | a disconnect, or a timeout with a deadline, is cached as Done(None), so later calls return None too |
| Jobs.ResolveDelivers | src/summarizer/treereader.rs:90-97 | when the worker sends one value, `get` returns nothing or that value, and the cache only ever holds that value |
| Matchers.LastDot | src/summarizer/matchers.rs:75 | finds the last `.` of the name, or none exactly when there is no dot |
| Matchers.Extension | src/summarizer/matchers.rs:75 | `Path::extension`: none when there is no dot, for `..`, or when the only dot leads; otherwise the dot-free suffix after the last dot |
| Matchers.MimeOf | src/summarizer/matchers.rs:73-82 | no extension means no MIME type; otherwise it is the lookup of the extension |
| Matchers.IsMatch | src/summarizer/matchers.rs:14-127 | the loop returns the any-matcher-accepts specification and looks up the MIME type at most once (the cache at line 21) |
| Matchers.EmptyNeverMatches | src/summarizer/matchers.rs:126 | an empty matcher list accepts nothing |
| Matchers.HiddenRejected | src/summarizer/matchers.rs:23-29 | a dot-file is rejected unless hidden files are included; `Any` with hidden included accepts it |
| Matchers.AnyMatches | src/summarizer/matchers.rs:33-35 | a list containing `Any` accepts exactly the entries that the hidden-file rule does not reject |
| Matchers.AllAsSingletons | src/summarizer/matchers.rs:37-44 | `All(ms)` accepts iff each `ms[i]` accepts on its own; `All([])` always accepts |
| Matchers.ArmMeanings | src/summarizer/matchers.rs:46-106 | git changes match iff the entry has a change; a duration matches iff modified no later than now and less than the limit ago; executable means a regular file with an x bit; a MIME match needs an extension |
| Matchers.MatchesMonotone | src/summarizer/matchers.rs:31-127 | a concatenated matcher list accepts iff one of its two parts does |
| GitDiff.Sum | src/summarizer/gitdiff.rs:84-93 | each field of the sum is the total of that field over all changes, modulo 2^32 |
| GitDiff.Until | src/summarizer/gitdiff.rs:110-120 | fails iff the delimiter is absent; otherwise splits the input at its first delimiter, dropping it |
| GitDiff.TopLevel | src/summarizer/gitdiff.rs:124-128 | the key is the slash-free prefix of the path, up to its first `/` |
| GitDiff.TopLevelWhole | src/summarizer/gitdiff.rs:125-127 | a path without `/` is its own key |
| GitDiff.TopLevelFirst | src/summarizer/gitdiff.rs:125-126 | `dir/rest` is aggregated under `dir` |
| GitDiff.ParseCount | src/summarizer/gitdiff.rs:146-153 | a count is only read from valid UTF-8 |
| GitDiff.ParseCountEncoded | src/summarizer/gitdiff.rs:146-153 | `-` reads as 0, and a decimal count reads back as its value |
| GitDiff.AddChange | src/summarizer/gitdiff.rs:155-165 | a new key starts at the record's counts; an existing key adds to both counts with 32-bit wrap; no other key changes |
| GitDiff.Memchr | src/summarizer/gitdiff.rs:112 | returns the index of the first occurrence of the byte, or none when it is absent |
| GitDiff.SplitAt | src/summarizer/gitdiff.rs:110-120 | the `until!` step computes the splitting specification |
| GitDiff.ReadPath | src/summarizer/gitdiff.rs:122-144 | the `path!` step reads a NUL-terminated path and keeps its top-level part |
| GitDiff.ParseRecord | src/summarizer/gitdiff.rs:167-184 | one loop round consumes exactly one record and applies it to the map, or the parse fails |
| GitDiff.Parse | src/summarizer/gitdiff.rs:107-188 | the parser returns the record-by-record specification of the whole input |
| GitDiff.ParseEncoded | src/summarizer/gitdiff.rs:107-188 | round trip: parsing the `--numstat -z` encoding of any well-formed records gives the totals of applying them in order |
| GitDiff.ApplyAllKey | src/summarizer/gitdiff.rs:155-184 | a key is present iff some record touches it, and its value is the sum of the contributions of the records in order, with renames split between old and new path |
| GitDiff.ParseMalformedTail | src/summarizer/gitdiff.rs:110-118 | well-formed records followed by a malformed record make the whole parse fail |
| GitDiff.ParseWithoutTab | src/summarizer/gitdiff.rs:168 | non-empty input without a tab is rejected |
| GitDiff.ParseEmpty | src/summarizer/gitdiff.rs:187 | empty output parses to the empty map |
| GitDiff.SingleRecord | src/summarizer/gitdiff.rs:189-201 | one plain top-level record `10\t0\tname\0` gives that name ten insertions and no deletions |
| GitDiff.TestStreamTotals | src/summarizer/gitdiff.rs:189-209 | the module's sample stream, with plain files, nested paths and renames, gives the expected per-key totals |
| GitDiff.Collect | src/summarizer/gitdiff.rs:38-73 | none when collection is off, spawning fails or the timeout expires; a failed `git` or unparsable output gives the empty map; otherwise the parse |
| Sorting.ReadNumber | src/summarizer/sorting.rs:152-163 | reads the digit run as a number, failing iff it exceeds the usize range |
| Sorting.CompareVersions | src/summarizer/sorting.rs:104-168 | the byte loop computes the version-order specification |
| Sorting.VersionCmpReflexive | src/summarizer/sorting.rs:130-150 | a name is Equal to itself |
| Sorting.VersionCmpAntisymmetric | src/summarizer/sorting.rs:104-168 | swapping the names reverses the order |
| Sorting.ShorterIsLess | src/summarizer/sorting.rs:134 | a digit-free name is Less than any longer name it starts |
| Sorting.FirstRunsDecide | src/summarizer/sorting.rs:139-167 | after a common digit-free prefix, the first digit runs compare numerically; if either overflows, the order is lexicographic on the rest |
| Sorting.VersionTableDifferentLetters | src/summarizer/sorting.rs:183 | `aaa` < `bbb`: the first differing non-digit byte decides |
| Sorting.VersionTableShort | src/summarizer/sorting.rs:185-187 | `aaa` < `aaa0`, and `aaa` equals itself |
| Sorting.VersionTableNumeric | src/summarizer/sorting.rs:184-186 | `aaa100` > `aaa2` and `aaa10` > `aaa9` |
| Sorting.VersionTableDigitLetter | src/summarizer/sorting.rs:188 | `aaa9` < `aaaa1` |
| Sorting.VersionTableSuffix | src/summarizer/sorting.rs:189 | `aaa100` > `aaa10z` |
| Sorting.VersionTableLong | src/summarizer/sorting.rs:190 | long runs still compare numerically while they fit in usize |
| Sorting.VersionTableOverflow | src/summarizer/sorting.rs:191 | `aaa90000` > `aaa1000000000000000000000`: a run too long for usize falls back to comparing bytes, as lines 158-163 do |
| Sorting.GitOrder | src/summarizer/sorting.rs:24-36 | with git-changes-first on, changed files come first, reversed when descending; otherwise it never decides |
| Sorting.NameBreaksTies | src/summarizer/sorting.rs:58-86 | under every non-version key, two files are equal only if their names are |
| Sorting.CompareAntisymmetric | src/summarizer/sorting.rs:38-94 | the comparator is antisymmetric for every column configuration |
| Sorting.CompareTransitive | src/summarizer/sorting.rs:38-86 | for every key except `version`, the comparator is transitive |
| Sorting.AdjacentToSorted | src/summarizer/sorting.rs:40 | under a non-version key, a list whose neighbours are in order has every pair in order |
| Sorting.OverflowFallback | src/summarizer/sorting.rs:152-163 | when either first digit run exceeds usize::MAX, the version order is plain byte order |
| Sorting.OneZerosOverflow | src/summarizer/sorting.rs:160-162 | `1` followed by twenty or more zeros is a digit run that does not fit in a usize |
| Sorting.TwoBeforeTen | src/summarizer/sorting.rs:167 | `2` is less than `10` by value |
| Sorting.VersionCycle | src/summarizer/sorting.rs:152-167 | as written, the version order has a cycle: `2` < `10` < `1` followed by twenty zeros < `2` (see Findings) |
| Sorting.VersionCmpFits | src/summarizer/sorting.rs:152-167 | when both first digit runs fit in a usize, the written order equals the unbounded numeric order |
| Sorting.VersionCmpByKey | src/summarizer/sorting.rs:130-167 | the unbounded version order is the lexicographic order of the name's bytes up to its first digit, then its first run's value |
| Sorting.KeyCompareTransitive | src/summarizer/sorting.rs:130-167 | the lexicographic order of those keys is transitive |
| Sorting.VersionCmpUnboundedTransitive | src/summarizer/sorting.rs:104-167 | without the overflow fallback, the version order is transitive |
| Sorting.VersionCycleCorrected | src/summarizer/sorting.rs:152-167 | without the fallback, the three names of the cycle are ordered `2` < `10` < `1` followed by the zeros |
| Sorting.SortBy | src/summarizer/sorting.rs:40 | the sort returns a permutation of the files with no adjacent pair out of order; under every key except `version`, every pair is in order |
| Sorting.SortedChangesFirst | src/summarizer/sorting.rs:24-36 | in an ordered list, all changed files come before the unchanged ones, ascending or descending (given the final reverse) |
| Sorting.ReverseFiles | src/summarizer/sorting.rs:96-98 | reverses the file list |
| Sorting.Sort | src/summarizer/sorting.rs:18-99 | a group's files become a permutation of themselves with changed files first when configured. Reversed when descending, every pair is in order under a non-version key, and neighbours are in order under `version` |
| TreeReader.ReadPath | src/summarizer/treereader.rs:125-153 | a result exists iff the path is a readable directory on the expected device |
| TreeReader.ReadPathTotals | src/summarizer/treereader.rs:141-152 | the result is the sum of the lengths and the maximum mtime of the leaves reached, or the zero value when none are reached |
| TreeReader.EmptyDirectory | src/summarizer/treereader.rs:152 | a directory whose children are all skipped or unreadable reports zero usage and mtime 0 |
| TreeReader.OtherDeviceIgnored | src/summarizer/treereader.rs:126-131 | compared against its parent's device, a child directory on another device contributes nothing (`du -x`) |
| TreeReader.NestedMountCounted | src/summarizer/treereader.rs:145 | as written, a nested directory on another device is still counted (see Findings) |
| TreeReader.OwnCheckNeverStops | src/summarizer/treereader.rs:127 | checking a directory against its own metadata never stops the descent |
| TreeReader.New | src/summarizer/treereader.rs:54-71 | no reader when disk usage is off; the deadline is now plus the timeout, if a timeout is set |
| TreeReader.DefaultReader | src/config/mod.rs:341-349 | the default configuration gives a reader with a 100 ms deadline |
| TreeReader.TreeInfoJob.constructor | src/summarizer/treereader.rs:86-101 | a new job is Working with the reader's deadline, and its worker's value is `read_path` of the tree, checked against the parent's device |
| TreeReader.TreeInfoJob.Get | src/summarizer/treereader.rs:106-122 | `get` steps the job state machine; a Done job returns its cached value unchanged; any value returned is the one `read_path` computed |
| DiskUsage.ComputeDiskUsage | src/summarizer/diskusage.rs:108-138 | a result exists iff the path is a readable directory on the expected device |
| DiskUsage.ComputeDiskUsageTotals | src/summarizer/diskusage.rs:124-137 | the result is the sum of the reached leaves' lengths, equal to the tree reader's usage for the same tree |
| DiskUsage.EmptyOrUnreadable | src/summarizer/diskusage.rs:109-122 | an empty directory gives 0; an unreadable one, or one on another device, gives none |
| DiskUsage.NestedMountCounted | src/summarizer/diskusage.rs:129 | as written, a nested directory on another device is still counted (see Findings) |
| DiskUsage.OtherDeviceIgnored | src/summarizer/diskusage.rs:109-114 | compared against its parent's device, a child directory on another device adds nothing to the sum |
| DiskUsage.New | src/summarizer/diskusage.rs:42-60 | no collector when disk usage is off; the deadline is now plus the timeout, if a timeout is set |
| DiskUsage.DiskUsageJob.constructor | src/summarizer/diskusage.rs:69-84 | a new job is Working with the collector's deadline, and its worker's value is `compute_disk_usage` of the tree, checked against the parent's device |
| DiskUsage.DiskUsageJob.Get | src/summarizer/diskusage.rs:89-105 | `get` steps the job state machine; a Done job returns its cached value unchanged; any value returned is the one `compute_disk_usage` computed |
| Files.FilesGroup.constructor | src/summarizer/mod.rs:43-47 | a group starts with its column and no files |
| Files.FilesGroup.Push | src/summarizer/analyzer.rs:90-95 | appends one file to the group |
| Analyzer.GitChanges | src/summarizer/analyzer.rs:51 | an entry has git changes iff statistics exist and hold its name |
| Analyzer.TreeOutcome | src/summarizer/treereader.rs:90-120 | the receive of a directory's job can only carry what `read_path` sends for its tree, and times out only when the reader has a deadline |
| Analyzer.TreeInfoOf | src/summarizer/analyzer.rs:82-88 | tree information exists iff the entry is a directory, a reader exists, the job finished in time, and the tree is a readable directory on the listed directory's device; it is then the total length and newest mtime of the leaves the walk reaches |
| Analyzer.GroupOf | src/summarizer/analyzer.rs:64-98 | the group is the first column that does not exclude the entry and whose matchers accept it; none if no column does |
| Analyzer.DefaultGroups | src/summarizer/analyzer.rs:64-98 | under the default configuration, visible directories go to the first column and everything else to the second |
| Analyzer.SumValues | src/summarizer/analyzer.rs:111 | the summed change is the total of insertions and of deletions over all keys, modulo 2^32 |
| Analyzer.CountVariables | src/summarizer/analyzer.rs:55-61 | each variable whose matchers accept the entry gains one (starting from 0); others are unchanged |
| Analyzer.NewGroups | src/summarizer/analyzer.rs:32-39 | one fresh empty group per configured column, in order |
| Analyzer.Place | src/summarizer/analyzer.rs:64-98 | the entry is appended to exactly the group `GroupOf` picks, and to no other |
| Analyzer.SortAll | src/summarizer/analyzer.rs:103-105 | every group ends as a permutation of its files, in the order `sort` promises for its column |
| Analyzer.Analyze | src/summarizer/analyzer.rs:19-114 | each group holds exactly the readable entries assigned to it, sorted; variables count matching entries; disk usage sums regular-file lengths; changes are the modular sum of the statistics |
| Analyzer.AnalyzePath | src/summarizer/analyzer.rs:41 | an unreadable directory is an error; otherwise one group per column |
| Analyzer.UnreadableIgnored | src/summarizer/analyzer.rs:42-45 | an entry whose metadata fails changes neither groups, counts nor disk usage |
| Analyzer.Unplaced | src/summarizer/analyzer.rs:64-98 | when no column accepts any readable entry, every group stays empty |
| Analyzer.AssignedFiles | src/summarizer/analyzer.rs:64-98 | every file in a group comes from a readable entry assigned to it, and tree info only appears on directories |
| Analyzer.AssignedTreeKeys | src/summarizer/sorting.rs:58-81 | for a grouped directory with tree information, the `size` key (also the disk-usage cell's number) and the `deep modification time` key are the sum of lengths and newest mtime of the leaves its tree walk reaches |
| Info.ParseColor | src/summarizer/info.rs:71-79 | a colour specifier needs `C{` and a closing brace, and consumes up to it |
| Info.ParseVariable | src/summarizer/info.rs:82-86 | a variable specifier is `V{name}`, and it consumes through the brace |
| Info.Specifier | src/summarizer/info.rs:51-68 | a specifier starts with `%` and consumes at least two characters |
| Info.NextToken | src/summarizer/info.rs:101-125 | each token consumes a non-empty prefix of the format, and text tokens are never empty |
| Info.Parser.constructor | src/summarizer/info.rs:40-44 | the parser starts on the whole format string |
| Info.Parser.ParseSpecifier | src/summarizer/info.rs:51-68 | consumes a specifier exactly when one is at the front; otherwise nothing changes |
| Info.Parser.ConsumePending | src/summarizer/info.rs:89-95 | the rest of the format becomes one text token, or none if it is empty |
| Info.Parser.Next | src/summarizer/info.rs:101-125 | an iterator step yields the next token and leaves the rest of the format |
| Info.Parse | src/summarizer/info.rs:40-42 | collecting the iterator gives the token specification |
| Info.TextsNonEmpty | src/summarizer/info.rs:89-125 | no text token is ever empty |
| Info.PlainText | src/summarizer/info.rs:111-113 | a format without `%` is a single text token |
| Info.TrailingPercent | src/summarizer/info.rs:118-121 | a lone trailing `%` stays in the preceding text |
| Info.PercentPercent | src/summarizer/info.rs:62 | `%%` gives a literal `%` |
| Info.ResetSpecifier | src/summarizer/info.rs:73-74 | `%C{ reset }`, with any surrounding spaces, resets the style |
| Info.ColorSpecifier | src/summarizer/info.rs:73-78 | any other trimmed colour name that parses gives that style |
| Info.VariableSpecifier | src/summarizer/info.rs:82-86 | `%V{name}` gives the variable with the name untrimmed |
| Info.Unclosed | src/summarizer/info.rs:72 | a colour or variable specifier without a closing brace is not a specifier |
| Info.UnknownSpecifier | src/summarizer/info.rs:51-63 | `%` and an unknown character, followed by another `%` that is not the last character, form a text token of their own |
| Info.SimpleSpecifier | src/summarizer/info.rs:55-59 | `%P`, `%p`, `%S`, `%+` and `%-` give their tokens and consume two characters |
| Info.TextBefore | src/summarizer/info.rs:110-124 | text before a `%` that is not at the very end comes out as its own token |
| Info.ExampleTrailingPercent | src/summarizer/info.rs:162 | `aaa%` is one text token |
| Info.ExamplePathPercent | src/summarizer/info.rs:163 | `%P%` is the path, then `%` |
| Info.ExamplePlain | src/summarizer/info.rs:166 | `aaa` is one text token |
| Info.ExampleMultiByte | src/summarizer/info.rs:169 | `x%α` is `x`, then `%α` |
| Info.ExampleAllSpecifiers | src/summarizer/info.rs:142-159 | the format with every specifier gives its fifteen tokens, for whatever styles the colour parser gives `blue bold` and `red` |
| Render.ReduceScale | src/summarizer/render.rs:261-265 | the reduced size times 1024 to the number of steps brackets the original size |
| Render.ReduceSteps | src/summarizer/render.rs:261-268 | any u64 size needs at most five reductions, so the unit letter is never `?` |
| Render.RoundHalfEven | src/summarizer/render.rs:267-269 | the rounded quotient is within half a divisor of the exact one |
| Render.FormatSizeOf | src/summarizer/render.rs:256-270 | below 1024 the size is printed in decimal; otherwise a rounded number ends with the unit letter for the number of reductions |
| Render.FormatSize | src/summarizer/render.rs:256-270 | the reduction loop computes the formatting specification, and small sizes print in decimal |
| Render.FormatSizeSmall | src/summarizer/render.rs:351 | 900 prints as `900` |
| Render.FormatSizeKilo | src/summarizer/render.rs:352-354 | 1024, 1100 and 11111 print as `1K`, `1K` and `11K` |
| Render.FormatSizeMega | src/summarizer/render.rs:355 | 2^21 + 100 prints as `2M` |
| Render.LsColorsVar | src/summarizer/render.rs:107-112 | `false` disables `LS_COLORS`; `true` reads `LS_COLORS`; a name reads that variable |
| Render.LsColors | src/summarizer/render.rs:107-117 | a lookup exists only when the chosen variable is set |
| Render.StyleOf | src/summarizer/render.rs:119-123 | a configured colour yields its style; an absent one yields none |
| Render.Shown | src/summarizer/render.rs:67-74 | the column is cut only when max rows is below the length and there are more than two files; it then shows max rows minus one files and reports the rest (at least two) |
| Render.SideSpans | src/summarizer/render.rs:140-175 | a side cell is non-empty exactly when the file has data for it; `+n` and `-n` carry the counts |
| Render.IndicatorIff | src/summarizer/render.rs:190-209 | a file's indicator cell is non-empty iff some matching style rule has an indicator |
| Render.RulesStyleKeeps | src/summarizer/render.rs:181-201 | the name style keeps every attribute of the base style and of each matching rule's colour |
| Render.NameCellEscaped | src/summarizer/render.rs:211-222 | a name with no byte in 0x14..0x1F gets a cell with no control character, and without a width limit the cell is exactly the escaped name; the ellipsis follows only a cut name |
| Render.NameCellRawEscape | src/summarizer/render.rs:215 | as written, a file named by the byte 0x1B gets a name cell holding that raw escape character (see Findings) |
| Render.NamesBlockShape | src/summarizer/render.rs:125-138 | the name column has the label row when labels exist, one row per shown file, and the `+n entries` row when cut |
| Render.SideBlocksShape | src/summarizer/render.rs:236-244 | each present side column is right-aligned at the names' height and followed by a one-space padding column |
| Render.GroupColumnsLayout | src/summarizer/render.rs:232-254 | a group renders as its side columns with paddings, then the indicator column if any file is indicated, then the name column last |
| Render.AnyData | src/summarizer/render.rs:81 | the loop decides whether any shown file has data for the side |
| Render.RenderGroup | src/summarizer/render.rs:60-254 | the imperative renderer builds exactly the specified group columns |
| Render.TokenEffects | src/summarizer/render.rs:295-338 | an unknown variable prints `0`; a reset restores the base style; without statistics `%+` and `%-` print nothing |
| Render.PlainInfoRows | src/summarizer/render.rs:285-293 | a plain text box has one row per line |
| Render.RenderInfo | src/summarizer/render.rs:272-347 | the info-box renderer builds exactly the specified column |
| Render.AnyLabel | src/summarizer/render.rs:27 | labels are shown iff some group's column has a label |
| Render.NoColumns | src/summarizer/render.rs:30-33 | the screen has no columns iff every group is empty |
| Render.GroupsColumnsJoined | src/summarizer/render.rs:30-40 | the non-empty groups are joined by padding columns, with no padding before the first |
| Render.RenderGroups | src/summarizer/render.rs:24-58 | the screen is the joined group columns plus the three optional info boxes |
| Grid.Row.constructor | src/display/grid.rs:97-99 | a new row is empty with width 0 |
| Grid.Row.AddText | src/display/grid.rs:101-108 | appends a span and adds its display width, keeping the row's width equal to the sum of its spans |
| Grid.Row.IsEmpty | src/display/grid.rs:110-112 | a row is empty iff it has no spans |
| Grid.RowWidthExample | src/display/grid.rs:115-122 | `α = 0` followed by `(＠)` has width 9 |
| Grid.Column.New | src/display/grid.rs:46-55 | a new column is left-aligned, empty, unstyled and of width 0 |
| Grid.Column.Padding | src/display/grid.rs:58-67 | a padding column has the given width, height and style, and no rows |
| Grid.Column.AlignRight | src/display/grid.rs:73-75 | only the alignment changes |
| Grid.Column.SetStyle | src/display/grid.rs:77-79 | only the style changes |
| Grid.Column.SetHeight | src/display/grid.rs:81-84 | sets the height and truncates the rows to it, keeping the column valid |
| Grid.Column.Push | src/display/grid.rs:86-93 | appends a row, widens the column to fit it, adds one to the height, and keeps the column valid |
| Grid.MaxWidthBounds | src/display/grid.rs:86-93 | a column's width bounds every row and is reached by one |
| Grid.PushedValid | src/display/grid.rs:86-93 | pushing preserves "rows fit the width and no more rows than the height" |
| Escapes.WriteUnits | src/display/strings.rs:107-119 | writes the units that fit strictly within the width budget, stops exactly when one does not fit, and returns the budget left |
| Escapes.FitWithinBudget | src/display/strings.rs:93-105 | the written prefix is strictly narrower than the budget, and the next unit would reach it |
| Escapes.LimitCutsByUnits | src/display/strings.rs:93-105 | a width-limited string is a whole-unit prefix of the full rendering, cut exactly when it is shorter |
| Escapes.RenderNoControl | src/display/strings.rs:107-118 | escaping leaves no character below space |
| Strings.UnitOfChar | src/display/strings.rs:110-116 | characters below space become `\xNN` escapes; all others are shown as they are |
| Strings.QuotedString.constructor | src/display/strings.rs:28-34 | a new quoted string is not truncated |
| Strings.QuotedString.TryWriteUnquoted | src/display/strings.rs:57-80 | the fast path is taken iff every byte is in the range as written; it cuts to `max - 1` bytes and marks truncation when too long |
| Strings.QuotedString.Fmt | src/display/strings.rs:85-149 | formatting writes the specified text and sets the truncation flag when the text was cut |
| Strings.WriteSlow | src/display/strings.rs:90-148 | the decode-and-escape loop computes the slow-path specification |
| Strings.SlowFromUnits | src/display/strings.rs:93-146 | the slow path renders the UTF-8 units of the bytes (scalars, or escaped invalid bytes) cut to the width budget |
| Strings.FastPathCut | src/display/strings.rs:67-77 | within the limit the bytes are printed whole; over it, `max - 1` bytes are printed and truncation is reported |
| Strings.FormatNoControl | src/display/strings.rs:60 | with the intended fast-path range, no formatted name contains a control character |
| Strings.FormatIsEscaping | src/display/strings.rs:60 | with the intended range and no limit, formatting is exactly the escaped rendering |
| Strings.FastPathLetsEscapeThrough | src/display/strings.rs:60 | as written, the one-byte name ESC is printed raw instead of as `\x1B` |
| Strings.ExampleControls | src/display/strings.rs:200 | `a\n\0\x11b` prints as `a\x0A\x00\x11b` |
| Strings.ExampleIncomplete | src/display/strings.rs:198 | a truncated UTF-8 tail prints as escaped bytes |
| Strings.ExampleInvalid | src/display/strings.rs:199 | an invalid sequence in the middle is escaped and decoding resumes after it |
| Strings.ExampleFullWidth | src/display/strings.rs:197 | full-width letters print unchanged |
| Strings.ExampleFastPath | src/display/strings.rs:202-203 | `aaa` fits in 3; `bbbbb` cut to 3 prints `bb` and is truncated |
| Strings.ExampleIncompleteCut | src/display/strings.rs:204 | `α \xEF\xBC` cut to 3 prints `α ` and is truncated |
| Display.CheckedSub | src/display/mod.rs:35 | the subtraction succeeds iff it does not go below zero, and then gives the difference |
| Display.SaturatingSub | src/display/mod.rs:138 | gives the difference, or 0 when it would be negative |
| Display.WidthOr | src/display/mod.rs:33 | the terminal width, or 80 when it is unknown |
| Display.ComputeHeader | src/display/mod.rs:44-51 | there is no header iff neither info box exists |
| Display.HeaderLayout | src/display/mod.rs:44-64 | a lone left box is the header; with a right box that fits, a padding column makes the header exactly the terminal width and pushes the right box to the edge; if it does not fit, the boxes are placed side by side |
| Display.InfoColumnPlacement | src/display/mod.rs:32-39 | a fitting info column is right-aligned to the terminal width after a padding column; otherwise the columns are unchanged |
| Display.PlaceInfoColumn | src/display/mod.rs:32-39 | the placement step gives the columns whose layout Display.InfoColumnPlacement describes |
| Display.WriteRow | src/display/mod.rs:105-167 | the row loop writes, cell by cell, the concatenation of every column's cell for that row |
| Display.KeptLongest | src/display/mod.rs:73-90 | the kept columns are the longest prefix whose total width fits the terminal, or all of them when the width is unknown |
| Display.KeptCount | src/display/mod.rs:73-82 | the scan-and-take loop counts the kept columns |
| Display.MaxFileRowsBounds | src/display/mod.rs:92-97 | the number of printed rows is the longest file column's row count, or 0 |
| Display.UseColors | src/display/mod.rs:99-103 | colours follow `when`: auto or unset means stdout is a terminal; never and always are fixed |
| Display.SpacesWidth | src/display/mod.rs:119 | padding of n spaces has display width n |
| Display.WritePadding | src/display/mod.rs:107-129 | writes the padding specification: nothing for width 0, styled only when colours are on and the row is within the column's height |
| Display.WriteSpans | src/display/mod.rs:141-157 | each span is written in the column style combined with its own, wrapped in the escape codes only when colours are on |
| Display.WriteCell | src/display/mod.rs:131-161 | a cell is padding for a missing row, else the spans padded on the side opposite the alignment |
| Display.PlainCell | src/display/mod.rs:131-161 | without colours, a cell of a valid column is its text padded to exactly the column width |
| Display.PrintedRowsFit | src/display/mod.rs:73-161 | without colours, every printed line is exactly as wide as the kept columns, which fit the terminal |
| Display.PlainIgnoresEscapes | src/display/mod.rs:144-156 | without colours, the terminal's escape codes never reach the output |
| Display.MoreNoteShape | src/display/mod.rs:174-181 | no note for 0 dropped columns; `[1 more column]` for one; a plural note for more |
| Display.DroppedNote | src/display/mod.rs:169-181 | the note appears iff a dropped column holds files, after the kept rows |
| Display.PrintColumns | src/display/mod.rs:66-184 | the printer writes the specified lines for the columns |
| Display.Print | src/display/mod.rs:21-42 | the output is the header lines (if any) followed by the main columns with the info column placed |
| Build.ParseGlobElem | build.rs:149-157 | an extension is extracted iff the node is a `glob` with a `*.` pattern whose rest is alphanumeric |
| Build.MimeName | build.rs:123-126 | the MIME class is the part of `type` before the first `/`, kept only when alphanumeric |
| Build.MimeData | build.rs:113-116 | the data is rejected iff the root element is not `mime-info` |
| Build.MimeDataOwners | build.rs:118-141 | each extension belongs to exactly one MIME class, the first that lists it, and no class lists an extension twice |
| Build.MimeDataAlphanumeric | build.rs:126-156 | every collected extension is alphanumeric |
| Build.ParseMimeData | build.rs:92-144 | the nested loop computes the collection specification |
| Build.BuildValuesTree | build.rs:224-245 | the loop builds the specified byte tree, or fails where the source panics on a duplicate |
| Build.BuildTreeInv | build.rs:224-245 | for distinct, NUL-free extensions the tree never hits the duplicate panic and stores exactly the (class, extension bytes) pairs |
| Build.ArmsSorted | build.rs:255-278 | the generated match arms are in ascending byte order, with the end arm first |
| Build.LookupStored | build.rs:255-278 | the generated matcher answers a byte string with a class iff that pair is stored in the tree |
| Build.FromExtension | build.rs:208-213 | `from_extension` returns a class iff the bytes are the UTF-8 encoding of one of that class's extensions |
| Build.MimeLookup | build.rs:92-278 | end to end: from valid MIME data, an extension maps to the class that first listed it, and nothing else maps |
| Utf8.DecodeEncodeString | src/display/strings.rs:122-126 | decoding the UTF-8 encoding of a string gives the string back |
| Utf8.DecodeAscii | src/display/strings.rs:58-75 | ASCII bytes decode to the characters with the same codes |
| Common.LexCompareAntisymmetric | src/summarizer/sorting.rs:162 | the byte-wise fallback order reverses when its arguments swap |
| Common.LexCompareEqual | src/summarizer/sorting.rs:162 | the byte-wise order is Equal exactly for equal byte strings |

## Left out

- I/O: reading directories and metadata, running `git`, writing to stdout and reading the terminal size. Each of these becomes an input of the model: the listing, the tree, the `git` result, the `Terminal` value and `COLUMNS`.
- Threads, thread pools and channels. A job's receive is modelled as one outcome: received, timed out or disconnected. The clock (`Instant::now`, `SystemTime::now`) is a parameter.
- Floating point: the `format_size` tail divides by 1024.0 as f32. Sizes there are at most 2^20, so the quotient is exact in f32. The model uses exact rational rounding with ties to even, as `{:.0}` does.
- Library behaviour: `unicode-width`, `globset`, `regex`, `colorparse`, `lscolors` and the `ansi_term` escape codes are parameters of the model.
- `Matcher::Not` is declared in the configuration but has no arm in `is_match`, so it is not modelled.
- The non-unix branches are not modelled: `is_hidden_file` with Windows attributes, the Windows `QuotedString::fmt`, the `encode_wide` paths in `gitdiff.rs` and `sorting.rs`, and the build script's target-family switch.
- Sorting.SortBy: `sort_unstable_by` is modelled as an insertion sort. Under every key except `version`, the contract states permutation and full order. It does not fix the arrangement of equal elements, which the source leaves unspecified.
- Sorting.SortBy: under the `version` key, the comparator is not transitive (see Findings). `sort_unstable_by` then promises no order, and may panic. The model's result, with only neighbours in order, is the insertion sort's choice, not the program's behaviour.
- Sorting.Sort: for the `version` key, the order stated is only between neighbours, for the same reason.
- TreeReader.ReadPath: u64 overflow of the summed lengths is not modelled (sizes are unbounded naturals). DiskUsage.ComputeDiskUsage is the same.
- GitDiff.AddChange: the u32 additions wrap modulo 2^32, as in a release build. The debug-build overflow panic is not modelled.
- Analyzer.Analyze: the path canonicalisation at `analyzer.rs:108` is not modelled. The info box's path comes in as an input.
- Render.RenderInfo: the `HOME` lookup for `%p` and the path's `Display` text are inputs.
- Config: loading and validation (`src/config/loader.rs`), serde attributes, `main.rs` and `summarizer/mod.rs` glue are not part of this model. `exts.rs`'s `mtime` is an abstract field of the metadata.
- render.rs reads `config.colors` as a plain struct, while `config/mod.rs` declares it `Option<Colors>`. The renderer uses the configured colours, or the defaults when there are none.
- `summarizer/mod.rs` declares `File` with a `disk_usage` field, while `analyzer.rs` and `render.rs` use `tree_info`. The model follows the latter.
- Build: gzip decompression, XML parsing, identifier upper-casing, `quote!` code emission and `write_mime_types` file output are not modelled. The XML document is a value, and the generated `match` is modelled as the tree of arms it denotes.
- Render.NameCellEscaped: the promise of no control character holds only for names without a byte from 0x14 to 0x1F. The renderer formats names with the fast-path range as written (see Findings), which prints those bytes raw.
- Render.SideSpans: `render.rs:170` styles the disk-usage cell with `config.colors.disk_usage`, but the `Colors` struct in `config/mod.rs:39-60` has no such field. The style of that cell is an input of the renderer.
- The ellipsis written after a cut name is the three characters that `render.rs:219` spells out, kept as written.

## Findings

| source | as written | input that shows it | evidently intended | confidence | as-written member | corrected member |
|---|---|---|---|---|---|---|
| src/display/strings.rs:60 | the fast-path range `(20..128)` is decimal, so bytes 0x14 to 0x1F skip escaping and are printed raw | a file named by the single byte 0x1B (ESC) prints a raw escape character instead of `\x1B`, in `QuotedString` and so in the name cell `render.rs:215` builds | the range 0x20..0x80, where the fast path agrees with the escaping slow path | high, not executed | Strings.FastPathLetsEscapeThrough, Render.NameCellRawEscape | Strings.FormatNoControl |
| src/summarizer/treereader.rs:145 | the recursion passes the child's own metadata as its "parent" metadata, so below the top level the device check compares a directory with itself | the tree Dir(dev 1, [Dir(dev 2, [file of 5 bytes])]) reports 5 bytes, although the dev-2 directory is on another file system | `du -x` behaviour, as the module comment at lines 12-13 promises: pass the parent's metadata so that directories on other devices are skipped | high, not executed | TreeReader.NestedMountCounted | TreeReader.OtherDeviceIgnored |
| src/summarizer/diskusage.rs:129 | the same self-comparison in the older disk usage collector | the same tree gives 5 instead of 0 | the same parent-device check | high, not executed | DiskUsage.NestedMountCounted | DiskUsage.OtherDeviceIgnored |
| src/summarizer/sorting.rs:158-163 | when a digit run overflows usize, `compare_versions` falls back to byte order on the whole names, which makes the comparator given to `sort_unstable_by` intransitive | the names `2`, `10` and `1` followed by twenty zeros: `2` < `10` by value, `10` < the long one by bytes, and the long one < `2` by bytes | a total order, as `sort_unstable_by` requires: digit runs compared by value at any length. The test at sorting.rs:191 pins the written fallback for one pair, so this intent is inferred | medium, not executed | Sorting.VersionCycle | Sorting.VersionCmpUnboundedTransitive |
