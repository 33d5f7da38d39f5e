# s3uploader: file selection, argument splitting, prefix resolution and upload dispatch

s3uploader uploads files from a local directory tree to an object-storage bucket. It has four parts:

- It selects files with include and exclude glob patterns.
- It splits comma-separated pattern arguments.
- It resolves the key prefix from an explicit value or a configuration file.
- It hands each file to the storage client's `upload_file` operation.

The implementation module `src/s3uploader/s3uploader.py` is not part of this model. The test suite `test/test_s3upload.py` imports its functions (test/test_s3upload.py:7), and the model specifies the behaviour that suite fixes. Each covered test is restated as a lemma (or a method) that Dafny checks against the model.

Modules:

- `PatternMatcher` (`pattern_matcher.dfy`): whole-string glob matching.
  - A `*` matches any run of characters, including `/`.
  - Patterns are checked against an independent reference semantics: the strings obtained by filling in the stars.
  - `is_excluded` holds when some pattern in the list matches.
- `FileCollector` (`file_collector.dfy`): `get_files_matching_pattern` and `get_files_to_upload`.
  - `GetFilesMatchingPattern` loops over the entries a recursive walk yields.
  - `GetFilesToUpload` loops over the include patterns and runs that walk loop for each.
  - Each is proved equal to a set-comprehension specification.
  - Lemmas cover how inclusion, exclusion and directories interact.
- `PrefixResolver` (`prefix_resolver.dfy`): `construct_upload_prefix`. Precedence is the explicit prefix first, then the configuration text, then `""`.
- `Arguments` (`arguments.dfy`): `separate_arguments`. It splits on commas as Python's `str.split(',')` does, strips as `str.strip()` does, and drops empty tokens. The empty string is the exception: it yields `[""]`.
- `UploadDispatcher` (`upload_dispatcher.dfy`): `upload_file`. A recording client appends each request it receives to its call log.
- `TestedBehaviour` (`tested_behaviour.dfy`): the concrete test cases, with the two directory fixtures written out as trees.
  - Each covered test method is restated by one lemma, or by a method for the upload test. The four prefix tests share one lemma.
  - The other lemmas are helpers that establish the literal facts those restatements need.
- `Wrappers` (`wrappers.dfy`): the `Option` type.

## Model

| member | source | states |
|---|---|---|
| PatternMatcher.Matches | test/test_s3upload.py:137-175 | length bound of the whole-path glob match: an accepted path has at least one character per literal pattern character |
| PatternMatcher.FillMatches | test/test_s3upload.py:137-175 | completeness: replacing each `*` of a pattern by any strings (with `/` allowed) gives a path that `Matches` accepts |
| PatternMatcher.MatchesIsInstance | test/test_s3upload.py:137-175 | soundness: every accepted path is the pattern with its stars filled in |
| PatternMatcher.MatchesIffInstance | test/test_s3upload.py:137-175 | `Matches` holds exactly for the instances of the pattern, in both directions |
| PatternMatcher.LiteralMatchesItselfOnly | test/test_s3upload.py:147-155 | a pattern without `*` matches exactly the identical path, so matching is anchored and case-sensitive |
| PatternMatcher.StarThenLiteral | test/test_s3upload.py:137-155 | `*` followed by literal text matches exactly the paths that end with that text, at any directory depth |
| PatternMatcher.StarThenLiteralEnds | test/test_s3upload.py:137-155 | `*` followed by literal text accepts only paths ending with that text |
| PatternMatcher.EndsMatchesStarThenLiteral | test/test_s3upload.py:137-155 | `*` followed by literal text accepts every path ending with that text |
| PatternMatcher.OneStar | test/test_s3upload.py:221-229 | `head*tail` matches exactly the paths that start with `head` and end with `tail`, with the two not overlapping |
| PatternMatcher.MatchesConcat | test/test_s3upload.py:167-175 | if two paths match two patterns, their concatenation matches the concatenated pattern |
| PatternMatcher.StarMatchesEveryPath | test/test_s3upload.py:248-255 | a bare `*` matches every path, including nested ones |
| PatternMatcher.MatchesSome | test/test_s3upload.py:157-165 | true iff at least one pattern of the list matches, in both directions |
| PatternMatcher.IsExcluded | test/test_s3upload.py:127-165 | false for an empty list; otherwise true iff some exclude pattern matches the path |
| FileCollector.GetFilesMatchingPattern | test/test_s3upload.py:201-229 | the walk loop returns exactly the regular files that match the pattern and are not excluded |
| FileCollector.GetFilesToUpload | test/test_s3upload.py:248-299 | the loop over include patterns returns exactly the regular files that match some include pattern and no exclude pattern |
| FileCollector.SinglePatternUpload | test/test_s3upload.py:248-282 | with one include pattern, the upload set equals what `get_files_matching_pattern` finds for it |
| FileCollector.FilesToUploadAddPattern | test/test_s3upload.py:248-273 | each additional include pattern adds exactly the files that pattern selects (union) |
| FileCollector.SelectedAreRegularFiles | test/test_s3upload.py:211-219 | in a tree whose paths name one entry each, a directory is never selected; every selected path is a regular file of the tree |
| FileCollector.ExclusionAfterInclusion | test/test_s3upload.py:275-282 | a path is selected iff it is selected with no excludes and no exclude pattern matches it |
| FileCollector.UnmatchedExcludesRemoveNothing | test/test_s3upload.py:248-273 | exclude patterns that match no entry leave the selection unchanged |
| FileCollector.EmptyExcludeRemovesNothing | test/test_s3upload.py:248-273 | the empty exclude pattern removes nothing from a tree without an empty path |
| FileCollector.IncludeOrderIrrelevant | test/test_s3upload.py:248-273 | include patterns act as a set: the same patterns in any order or multiplicity select the same files |
| FileCollector.StarSelectsEveryFile | test/test_s3upload.py:248-255 | include `*` selects every regular file that is not excluded, at any depth |
| FileCollector.NoRegularFilesNothingToUpload | test/test_s3upload.py:284-299 | a tree without regular files (an empty directory) yields the empty set |
| PrefixResolver.ConstructUploadPrefix | test/test_s3upload.py:24-54 | a non-empty explicit prefix wins; otherwise the configuration text if a file is named; otherwise `""` |
| PrefixResolver.ExplicitPrefixIgnoresConfig | test/test_s3upload.py:48-54 | with a non-empty explicit prefix, the configuration makes no difference |
| Arguments.Strip | test/test_s3upload.py:117-123 | the result has no leading or trailing whitespace and is no longer than the input |
| Arguments.StripStripped | test/test_s3upload.py:85-91 | stripping an already stripped string changes nothing |
| Arguments.StripPadded | test/test_s3upload.py:117-123 | stripping removes exactly the surrounding whitespace, whatever its amount |
| Arguments.StripKeepsOut | test/test_s3upload.py:117-123 | stripping introduces no character, so stripped pieces stay comma-free |
| Arguments.Split | test/test_s3upload.py:109-115 | the pieces between commas: at least one, none containing a comma, and they join back to the input |
| Arguments.SplitJoin | test/test_s3upload.py:109-115 | splitting undoes joining a non-empty list of comma-free pieces (pieces may be empty); the empty list is the exception, see `BlankInputsRoundTrip` |
| Arguments.NonEmptyStripped | test/test_s3upload.py:109-123 | stripping pieces and dropping empty ones never yields more tokens than pieces |
| Arguments.NonEmptyStrippedAppend | test/test_s3upload.py:109-123 | dropping and stripping works piece by piece: it distributes over concatenation |
| Arguments.NonEmptyStrippedClean | test/test_s3upload.py:109-123 | comma-free pieces give only non-empty, stripped, comma-free tokens |
| Arguments.NonEmptyStrippedKeeps | test/test_s3upload.py:85-91 | pieces that are already non-empty and stripped are kept unchanged |
| Arguments.SeparateArguments | test/test_s3upload.py:85-123 | `""` gives `[""]`; any other input gives only non-empty, stripped, comma-free tokens |
| Arguments.SeparateJoin | test/test_s3upload.py:85-91 | joining a non-empty list of clean tokens with commas and separating it again gives the tokens back; the empty list is the exception, see `BlankInputsRoundTrip` |
| Arguments.SeparateArgumentsIdempotent | test/test_s3upload.py:85-123 | for any input whose separation is non-empty, re-joining the output with commas and separating again changes nothing |
| Arguments.DropRuleOnBlankInputs | test/test_s3upload.py:101-123 | a lone comma or a lone blank separates into `[]`, unlike `""`; a consequence of the model's split, strip and drop rules that no test fixes |
| Arguments.BlankInputsRoundTrip | test/test_s3upload.py:101-123 | where the round trips fail: the empty list joins to `""`, which splits and separates into `[""]`, not `[]`; so for `","` and `" "` re-joining and separating gives `[""]` instead of `[]`; a consequence of the model that no test fixes |
| UploadDispatcher.RecordingClient.constructor | test/test_s3upload.py:61-62 | a fresh client has an empty call log |
| UploadDispatcher.RecordingClient.UploadFile | test/test_s3upload.py:69 | the client appends exactly the received `(file_path, bucket, key)` request to its log |
| UploadDispatcher.Occurrences | test/test_s3upload.py:69 | a count bounded by the log length, and zero iff the call is absent |
| UploadDispatcher.UploadFile | test/test_s3upload.py:58-69 | `upload_file(client, bucket, file_path, key)` appends exactly one request `(file_path, bucket, key)` to the client's log and nothing else |
| UploadDispatcher.OccurrencesAppend | test/test_s3upload.py:69 | appending a record adds one occurrence of it and none of any other call |
| TestedBehaviour.ConstructUploadPrefixCases | test/test_s3upload.py:24-54 | the four prefix cases: `support`, the file text `test_output_path`, `""`, and `my-prefix` over the file |
| TestedBehaviour.UploadFileCase | test/test_s3upload.py:58-69 | the client's log is exactly one call `("/path/to/file", "test-bucket", "path/to/key")`, occurring once |
| TestedBehaviour.SeparateArgumentsPlain | test/test_s3upload.py:85-91 | `"1.txt,2.txt"` gives `["1.txt", "2.txt"]` |
| TestedBehaviour.SeparateArgumentsEmptyString | test/test_s3upload.py:101-107 | `""` gives `[""]` |
| TestedBehaviour.SeparateArgumentsExtraCommas | test/test_s3upload.py:109-115 | `"1.txt,,2.txt,"` gives `["1.txt", "2.txt"]` |
| TestedBehaviour.SeparateArgumentsSpaces | test/test_s3upload.py:117-123 | `" 1.txt , 2.txt "` gives `["1.txt", "2.txt"]` |
| TestedBehaviour.NoExcludePatterns | test/test_s3upload.py:127-135 | `test_file.txt` is not excluded by an empty list |
| TestedBehaviour.ExcludePatternMatches | test/test_s3upload.py:137-145 | `["*.txt"]` excludes `test_file.txt` |
| TestedBehaviour.ExcludePatternDoesNotMatch | test/test_s3upload.py:147-155 | `["*.pdf"]` does not exclude `test_file.txt` |
| TestedBehaviour.MultipleExcludePatterns | test/test_s3upload.py:157-165 | `["*.pdf", "*.txt"]` excludes `test_file.txt` |
| TestedBehaviour.SubdirectoryPatternMatches | test/test_s3upload.py:167-175 | `*dir/*.txt` matches `subdir/test_file.txt` |
| TestedBehaviour.ExcludePatternWithSubdirectory | test/test_s3upload.py:167-175 | `["*dir/*.txt"]` excludes `subdir/test_file.txt` |
| TestedBehaviour.FilesMatchingPatternCase | test/test_s3upload.py:201-209 | `*.txt` with no excludes finds exactly `test_file1.txt` and `test_file2.txt` |
| TestedBehaviour.FilesMatchingPatternWithExclusionsCase | test/test_s3upload.py:211-219 | `*` with excludes `*.txt`, `*.md`, `*.zip` finds exactly `test_file.pdf`, and not the `subdir` directory |
| TestedBehaviour.FilesMatchingPatternWithSubdirectoryCase | test/test_s3upload.py:221-229 | `subdir/*.zip` finds exactly `subdir/test_file.zip` |
| TestedBehaviour.AllFilesCase | test/test_s3upload.py:248-255 | include `*` yields all four files, nested ones included |
| TestedBehaviour.TxtFilesCase | test/test_s3upload.py:257-264 | include `*.txt` yields exactly `file1.txt` and `subdir/file3.txt` |
| TestedBehaviour.DirCase | test/test_s3upload.py:266-273 | include `subdir/*` yields exactly `subdir/file3.txt` and `subdir/file4.dat` |
| TestedBehaviour.WithExclusionsCase | test/test_s3upload.py:275-282 | include `*` with exclude `*.dat` yields exactly `file1.txt` and `subdir/file3.txt` |
| TestedBehaviour.EmptyDirectoryCase | test/test_s3upload.py:284-299 | an empty directory yields the empty set |

## Left out

- The implementation module `src/s3uploader/s3uploader.py` is not part of this model. Every contract states what the tests fix, plus the properties the tested behaviour implies.
- `parse_args` and argparse (test/test_s3upload.py:301-322) are command-line plumbing. Those tests patch the parser itself, so they fix nothing about the module.
- The upload error test (test/test_s3upload.py:71-81) calls `upload_file` without a client. Its `assertRaises` holds for the resulting argument error. So no error contract is modelled for uploads, and the network client is reduced to a call log.
- `separate_arguments` on a list argument (test/test_s3upload.py:93-99) is left out. That test inspects its own input, not the result.
- The filesystem is left out: temporary directories, `mkdir`, `touch`, file writes, walking the tree, and reading the prefix configuration file.
  - The tree is given as the sequence of entries a walk yields.
  - The configuration file is given as its text (`Option<string>`).
  - Results are root-relative paths, not absolute `pathlib` paths.
- Glob features no test exercises are left out: `?` and `[...]` character classes. Whether the module matches relative or absolute paths, or uses `rglob`, is not visible. Whole-string matching of root-relative paths agrees with every test.
- An exclude argument passed as the string `''` iterates as no pattern at all. It is modelled as the empty list. `EmptyExcludeRemovesNothing` covers the one-pattern reading `[""]` too.
- `upload_files_to_s3` and its key construction (`prefix` joined with the root-relative path) are not part of this model. The tests import that function but never exercise it.
- PrefixResolver.ConstructUploadPrefix: does not strip the configuration text and has no missing-file error; no test exercises either (the file is written without surrounding whitespace at test/test_s3upload.py:17 and always exists).
- Arguments.Strip: whitespace is the ASCII set of Python's `str.isspace`; Unicode spaces beyond it are not modelled.
- Arguments.SeparateArguments: the results for inputs such as `","` or `" "` (the empty list) follow from splitting, stripping and dropping empty tokens. No test fixes them; `DropRuleOnBlankInputs` states them as consequences of the model.
