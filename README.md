# once-only: the checksum cache check, modelled in Dafny

once-only runs a command only when its inputs or outputs have changed since the
last successful run. `lib/once-only/check.rb` holds the decision logic:

- it picks the arguments that name existing files, including the `-in=file` form;
- it filters those names by a regex or a glob;
- it fingerprints each remaining file with one hash record (`[type, hash, path]`).
  The record comes from a still-fresh precalculated `.md5` listing, from a PFFF
  tool for files over 20,000,000 bytes, or from md5sum;
- it names the manifest after the SHA1 of all records;
- it writes and reads the manifest, a tab-separated text file with an `# OUTPUT`
  section;
- at check time it reports the first output whose file is gone or whose hash
  changed;
- it rewrites the command line (`requote`, `drop_pbs_option`, `drop_dir_option`).

The model describes the filesystem as a value (`Environment.FileSystem`: existence,
mtime, size, contents, `dirname`, `expand_path`, the working directory). It
describes the external hash tools as functions from a path to the tool's standard
output (`Environment.Tools`). Ruby exceptions become `Environment.Error` values
inside a `Result`, and Ruby `nil` becomes `RubyText.Option`. The Ruby string
operations the code depends on are written out in `RubyText`:

- `String#split` with no argument splits on runs of whitespace (the awk-style split);
- `split` on a character drops trailing empty fields;
- `strip` also removes NUL;
- `each_line` keeps each line's `"\n"`;
- `Array#join` on nested arrays joins recursively;
- Ruby's line-anchored `$` in `/\.md5$/`.

The code that loops and accumulates has imperative models:

- `precalculated_checksums`, `output_missing`, `write_file`,
  `parse_once_only_metafile`, `requote`, `drop_pbs_option` and `drop_dir_option`
  are methods with loops;
- each method is proved equal to a specification function, and the lemmas are
  about those functions.

The map/compact code (`get_file_list`, the filters, `calc_file_checksums`,
`make_once_only_filename`) is modelled as functions.

Several specification functions carry no contract of their own. The lemma rows
below state their behaviour:

- `Checksums.FileChecksum` (check.rb:60-74): `FreshEntryUsed`, `StaleEntryIgnored`,
  `LargeFileThresholdRule` and `NoPfffMeansMd5`;
- `OutputCheck.CheckItem` and `OutputCheck.Recomputed` (check.rb:80-89):
  `CheckItemDiverges` and `Md5RecordIsFresh`;
- `Manifest.Step` (check.rb:157-165): `StepRecordLine` and `RoundTrip`;
- `Precalc.LineEntry` (check.rb:48-50): `ShortLineFails`, `LinesEntriesAt` and
  `IndexEntriesAreListed`;
- `ArgRewrite.IsPartOfPbsArg` and `ArgRewrite.IsPartOfDirArg` (check.rb:125-127 and
  135-137): `DropPbsOptionKeeps`, `DropDirOptionKeeps` and the concrete `DropPbs` lemmas;
- `CacheKey.Buffer` (check.rb:104): `BufferFlattens`, `EmptyRecordKeepsSeparator`
  and `BufferInjective`.

Where the code and its documentation differ, the model follows the code:

- `a=b=c` yields `b`, the second `=`-separated field, not everything after the
  first `=`;
- the regex filter is applied to the whole name as listed;
- precalculated records carry the type `MD5`;
- `write_file` always writes the `# OUTPUT` line, even with no outputs;
- `output_missing` returns `false` (modelled as `Ok(None)`) when nothing diverges.

## Model

| member | source | states |
|---|---|---|
| FileSelection.ExistingFilename | lib/once-only/check.rb:145-151 | an existing argument is returned as is; otherwise the second `=`-field is returned exactly when it exists; any result names an existing file |
| FileSelection.SecondFieldOfOption | lib/once-only/check.rb:148-149 | for `option=file` followed by nothing or by further `=` fields, the candidate is `file` |
| FileSelection.SecondFieldOfEmptyValue | lib/once-only/check.rb:148-149 | `x=` has no second field, because Ruby's split drops the trailing empty field |
| FileSelection.SecondFieldWithoutEquals | lib/once-only/check.rb:148-149 | an argument without `=` has no second field |
| FileSelection.GetFileList | lib/once-only/check.rb:17-19 | the result is no longer than the arguments; every element exists and comes from some argument; when every argument exists, the result is the argument list unchanged |
| FileSelection.GetFileListAppend | lib/once-only/check.rb:17-19 | order is kept: the list of a concatenation is the concatenation of the lists |
| FileSelection.GetFileListSingle | lib/once-only/check.rb:17-19 | one argument gives its existing filename, or nothing |
| FileSelection.CheckFilesExist | lib/once-only/check.rb:21-25 | success exactly when every file exists; otherwise the error names the first missing file |
| Filtering.FilterFileList | lib/once-only/check.rb:28-31 | kept holds exactly the names that do not match and excluded exactly those that do; together they are a permutation of the input |
| Filtering.PartitionFacts | lib/once-only/check.rb:29-30 | `list - list2` is the list of matching names in input order, and kept and excluded split the input's multiset |
| Filtering.FilterFileListAppend | lib/once-only/check.rb:28-31 | both outputs keep input order: the filter of a concatenation is the concatenation of the filters |
| Filtering.FilterFileListSingle | lib/once-only/check.rb:28-31 | a single name goes to excluded exactly when it matches |
| Filtering.FilterFileListGlob | lib/once-only/check.rb:35-38 | kept holds exactly the names outside the glob's result and excluded exactly those inside it; together they are a permutation of the input |
| Filtering.FilterFileListGlobAppend | lib/once-only/check.rb:35-38 | both outputs keep input order under concatenation |
| Filtering.FilterFileListGlobSingle | lib/once-only/check.rb:35-38 | a single name goes to excluded exactly when the glob lists it |
| Precalc.PrecalculatedChecksums | lib/once-only/check.rb:41-54 | the loops over listings and lines build the index that the listing specification gives, and fail with its first error |
| Precalc.AddListing | lib/once-only/check.rb:46-51 | the line loop of one listing adds that listing's assignments to the index, later lines winning, or fails at the first line with fewer than two words |
| Precalc.NonMd5ListingFails | lib/once-only/check.rb:45 | a listing name that does not end in `.md5` (at the end of a line) makes the whole call fail |
| Precalc.ShortLineFails | lib/once-only/check.rb:48-49 | a line with fewer than two words has a nil path, and expanding it fails the call |
| Precalc.LaterListingWins | lib/once-only/check.rb:47-50 | adding a listing overrides the earlier entries for the same paths and keeps the rest |
| Precalc.MapOfLastWins | lib/once-only/check.rb:50 | storing a sequence of assignments one after the other leaves, for each path, the value of the last assignment to it |
| Precalc.MapOfKeys | lib/once-only/check.rb:50 | storing a sequence of assignments one after the other defines exactly the paths assigned |
| Precalc.LinesEntriesAt | lib/once-only/check.rb:47-50 | when a listing loads, it yields one assignment per line, and the assignment at position `j` is what line `j` assigns |
| Precalc.IndexOfLast | lib/once-only/check.rb:43-51 | loading the listings succeeds only if loading all but the last does; the index is then the earlier index overridden by the last listing's assignments |
| Precalc.IndexHoldsEveryLine | lib/once-only/check.rb:41-54 | when loading succeeds, the path of every line of every listing is in the index |
| Precalc.IndexLastLineWins | lib/once-only/check.rb:43-51 | when loading succeeds, a path's entry is the one from the last line, over all listings in order, that names that path |
| Precalc.IndexEntriesAreListed | lib/once-only/check.rb:41-54 | every index entry comes from a line of one of the listings: the path is the line's second word expanded in the listing's directory, the hash is its first word, the type is `MD5` and the time is the listing's mtime |
| Checksums.CalcFileChecksums | lib/once-only/check.rb:59-75 | one record per file in order, exactly when every file can be fingerprinted; otherwise the first failure |
| Checksums.FreshEntryUsed | lib/once-only/check.rb:62-65 | a file strictly older than its listing gets the listed record, whatever the tools or the PFFF setting |
| Checksums.StaleEntryIgnored | lib/once-only/check.rb:63 | an entry whose time is not later than the file's mtime changes nothing |
| Checksums.LargeFileThresholdRule | lib/once-only/check.rb:67-71 | with PFFF configured, the record is PFFF exactly when the size exceeds 20,000,000 bytes, and MD5 otherwise |
| Checksums.NoPfffMeansMd5 | lib/once-only/check.rb:67-71 | without PFFF, the size is never read and md5sum is used |
| Checksums.DefaultRecordsInOrder | lib/once-only/check.rb:59-75 | with no index and no PFFF, every file gets its md5sum record, in list order |
| Checksums.PrecalculatedScenario | lib/once-only/check.rb:41-65 | a `hashes.md5` line `<hash>  <name>` for an older target makes the target's record `["MD5", hash, path]` |
| Manifest.WriteFile | lib/once-only/check.rb:108-114 | the text written is the input lines, the `# OUTPUT` line and the output lines, three tab-separated fields each |
| Manifest.ParseMetafile | lib/once-only/check.rb:153-168 | the line loop produces the two lists that the line-by-line specification gives |
| Manifest.StepRecordLine | lib/once-only/check.rb:157-165 | a written record line reads back as that record, in the current section |
| Manifest.RoundTrip | lib/once-only/check.rb:153-168 | reading back what `write_file` wrote returns both lists unchanged, when every record is writable |
| Manifest.InputOnlyRoundTrip | lib/once-only/check.rb:108-114 | a manifest written without outputs reads back with an empty output section |
| CacheKey.MakeOnceOnlyFilename | lib/once-only/check.rb:103-106 | the name is the prefix, `-`, the digest of the buffer and `.txt`, and each part can be read back off the name |
| CacheKey.SameNameIffSameDigest | lib/once-only/check.rb:103-106 | for one prefix, two names are equal exactly when their digests are |
| CacheKey.BufferFlattens | lib/once-only/check.rb:104 | for non-empty records, the buffer joins every field with `"\n"` |
| CacheKey.EmptyRecordKeepsSeparator | lib/once-only/check.rb:104 | an empty record still adds a separator to the buffer |
| CacheKey.BufferInjective | lib/once-only/check.rb:104 | two lists of three-field, newline-free records have the same buffer only when they are equal |
| OutputCheck.FirstDivergent | lib/once-only/check.rb:78-91 | nothing diverges exactly when every output record matches; otherwise the result is that of the first record that does not |
| OutputCheck.OutputMissing | lib/once-only/check.rb:77-92 | with the PFFF tool passed in, the loop with early returns computes the divergence of the manifest |
| OutputCheck.OutputMissingAsWritten | lib/once-only/check.rb:77-92 | the source, with `pfff` unbound, agrees with the corrected check unless it raises the NameError |
| OutputCheck.CheckItemDiverges | lib/once-only/check.rb:80-89 | a record reports its path exactly when its file is missing, or when its recomputed first word differs from the stored hash |
| OutputCheck.ShortCircuit | lib/once-only/check.rb:79-89 | once a prefix of the output section stops the loop, the rest is never examined |
| OutputCheck.ReportsFirstStop | lib/once-only/check.rb:79-89 | the reported result is that of the first record that does not match |
| OutputCheck.WrittenOutputsStillValid | lib/once-only/check.rb:77-92 | a manifest written with outputs whose files still hash to the stored values reports no divergence |
| OutputCheck.ChangedOutputReported | lib/once-only/check.rb:77-92 | in a written manifest, the first output whose file is gone or whose hash changed is the one reported |
| OutputCheck.CorrectedNeverUnbound | lib/once-only/check.rb:82-84 | the corrected check never raises the unbound-`pfff` error |
| OutputCheck.PfffOutputRaisesAsWritten | lib/once-only/check.rb:83-84 | a manifest whose first output is a PFFF record of an existing file raises NameError in the source, and does not in the corrected check |
| OutputCheck.Md5RecordIsFresh | lib/once-only/check.rb:70-71 | a record fingerprinted by md5sum, which prints `<hash> <path>`, matches its file on an unchanged disk |
| ArgRewrite.Requote | lib/once-only/check.rb:117-121 | the loop over pairs builds the specified requoted list |
| ArgRewrite.RequotedElements | lib/once-only/check.rb:117-121 | the length is kept (one nil element for an empty list); an element is changed only by wrapping it in single quotes, and exactly when it follows `--skip-glob` or `--skip-regex` |
| ArgRewrite.RequoteIdentity | lib/once-only/check.rb:117-121 | without any skip option, the list comes back unchanged |
| ArgRewrite.DropPbsOption | lib/once-only/check.rb:124-131 | the loop keeps the first argument and every later element whose pair `is_part_of_pbs_arg` does not drop |
| ArgRewrite.DropDirOption | lib/once-only/check.rb:134-141 | the loop keeps the first argument and every later element whose pair `is_part_of_arg` does not drop |
| ArgRewrite.PairsKeptElements | lib/once-only/check.rb:128-129 | the result starts with `list[0]`, and after it come exactly the elements whose pair is not dropped, at most one per later argument |
| ArgRewrite.PairsKeptPositions | lib/once-only/check.rb:128-129 | position by position: the result is the first argument followed by the element at each surviving position, in increasing order; a position survives exactly when it is not the first and its pair is not dropped |
| ArgRewrite.PairsKeptIdentity | lib/once-only/check.rb:128-129 | when no pair is dropped, the list is copied unchanged |
| ArgRewrite.DropPbsOptionKeeps | lib/once-only/check.rb:124-131 | no `--pbs` remains after the first argument; the argument at position `i` survives exactly when `i > 0`, it is not `--pbs`, and it is not a whitespace-holding argument of one; the result is the first argument followed by the survivors in order |
| ArgRewrite.DropPbsKeepsPlainArgument | lib/once-only/check.rb:126 | an argument of `--pbs` without whitespace stays |
| ArgRewrite.DropPbsDropsOptionString | lib/once-only/check.rb:126 | an argument of `--pbs` that holds whitespace is dropped with it |
| ArgRewrite.DropDirOptionKeeps | lib/once-only/check.rb:134-141 | no `-d` remains after the first argument; the argument at position `i` survives exactly when `i > 0`, it is not `-d`, and it does not follow one; the result is the first argument followed by the survivors in order |
| ArgRewrite.DropDirOptionIdentity | lib/once-only/check.rb:134-141 | with no `-d` anywhere, the list comes back unchanged |

## Left out

- `Check::which` (lines 13-15) reads `PATH` and probes the filesystem. It is environment I/O and is not modelled.
- `check_files_exist` and `exit_error` print to stderr and exit. The model returns an error that names the first missing file instead.
- The `$stderr.print "Precalculated ..."` trace line in `calc_file_checksums` is not modelled.
- `calc_checksum` (lines 94-100) and the load-time probe for `Digest::SHA1` that sets `$ruby_sha1` (lines 1-7) are not modelled. SHA1 is a `string -> string` parameter. Both implementations compute the same digest, and `Sha1::sha1` is not part of this model.
- The backtick calls to `/usr/bin/md5sum` and the PFFF tool are modelled as `Tools` functions from a path to standard output. The shell's own word splitting of `#{fqn}` is not modelled.
- `File.exist?`, `File.mtime`, `File.size`, `File.dirname`, `File.expand_path` and reading a file are fields of `FileSystem`. Path normalisation is not modelled.
- The regex engine is not modelled: `filter_file_list` takes the match test `name =~ /#{regex}/` as a predicate.
- `Dir.glob` is not modelled. `filter_file_list_glob` takes the glob's result as a list.
- `filter_file_list_glob` runs the glob once per name. The model evaluates it once, which is the same on an unchanged disk.
- Manifest.WriteFile: the model returns the text that would be written, and the file write is left out.
- Manifest.ParseMetafile works on the file's text rather than opening the file. `output_missing` reads the text through `FileSystem.contents`.
- Concurrency (two runs writing the same manifest) is not modelled.
- Text is a sequence of characters. In Ruby, a line that is not valid in its encoding makes `String#split` (check.rb:48) and the `=~` match (check.rb:158) raise ArgumentError. The model has no invalid characters, so such a line yields an entry or a record instead of an error.
- Timestamps are integers. Sub-second mtime resolution is not modelled.
- OutputCheck.OutputMissing: the corrected check treats a PFFF record without a configured PFFF tool as an error (`NoLargeFileHasher`). The source has no branch for this case.
- OutputCheck.Md5RecordIsFresh: it assumes md5sum prints exactly `<hash> <path>` for the expanded path. The md5sum output format itself is not modelled.

## Findings

| source | as written | input that shows it | evidently intended | confidence | as-written member | corrected member |
|---|---|---|---|---|---|---|
| lib/once-only/check.rb:84 | `output_missing(filename)` runs `` `#{pfff} #{fqn}` `` for a PFFF record, but `pfff` is neither a parameter nor a local of the method, so Ruby raises NameError | a manifest whose first output record is `PFFF<tab><hash><tab><path>` for an existing `<path>` (OutputCheck.PfffOutputRaisesAsWritten) | the PFFF record is re-hashed with the configured PFFF tool, as `calc_file_checksums` does when it produces the record | not executed | OutputCheck.OutputMissingAsWritten | OutputCheck.OutputMissing |
