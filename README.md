# cvc2git in Dafny

A model of the text and list logic of cvc2git, a set of Python 2 scripts that
convert the history of Conary (`cvc`) source packages into git. There are
three near-copies of the same logic:

- `cvc2git.py` converts many packages at once. For each package it reads the
  cached `cvc log`. It checks the `Name`/`Branch` metadata lines and cuts the
  log into commit blocks. A header is any line that starts with a non-blank.
  Each block becomes a `CvcCommit`: revision, author name and email, a
  `datetime`, and a tidied message. It keeps only the commits newer than the
  package's resume point and records the newest one in the `resume_info`
  dictionary. It then merges the packages' commits and sorts them stably by
  date. Between runs the dictionary is stored in a git note as `pkg=rev`
  pairs.
- `utils.py` converts the working copy of a single package. A header is a
  line that starts with a digit. Each header becomes a tuple
  `(revision, committer, date, message)`, with the date rewritten in the
  date-time layout of section 3.3 of RFC 5322. The tuples are replayed into
  git oldest first. Each git commit gets the author `name <email>` and a
  message that ends in `cvc revision: <rev>`.
- `clone.py` has the same parser as `utils.py`, and the same commits in
  the same order. Its replay differs: it runs `git init` first, it runs
  `git commit` as a shell command with single-quoted arguments, and it never
  stops on a failure. It adds the working directory of a checkout and
  `do_pull`, which replays only the revisions newer than the local one.

## Modules

- `Wrappers`: `Option`, `Result`, the error kinds, and `MapResult`, which maps
  a function over a list and stops at the first failure.
- `Text`: the Python 2 string primitives the scripts use: `isspace`, `strip`,
  `split()`, `split(c)`, `rsplit(c, 1)`, `join`, `replace(a, b, 1)`, and
  slicing with negative bounds. A Python 2 `str` is a byte string, so the
  blanks are the six ASCII whitespace characters.
- `LogParser`: the header rules, the scan to the next header, the blocks of a
  log, message reformatting, and the two ways of splitting a header.
  - The header rule is a parameter: `NonBlankStart` for `cvc2git.py`,
    `DigitStart` for `utils.py` and `clone.py`.
  - `ParseHeader` is the header split of `cvc2git.py`; `ParseHeaderRfc` is
    the one of `utils.py` and `clone.py`.
- `Timestamps`: a `datetime` as six bounded integers, ordered
  lexicographically. `ParseDate` reads `%a %b %d %H:%M:%S %Y`, and
  `FormatDate` writes it back.
- `Commits`: `CvcCommit` as a value, with the author blob matched against
  `^(.*) \((.*)\)$`.
- `Resume`: `get_commits`. `ResumeInfo` is a class whose `entries` field is
  the in/out dictionary. The loop is a method proved against the `Scan`
  function. `Scan` is in turn proved equal to "parse every block, then keep
  the prefix before the resume point" (`FilterNew`).
- `Merge`: the loop of `parse_logs`, and `sort_commits` as an in-place stable
  sort on an array.
- `Progress`: the text of the git note that `store_progress` writes and
  `get_resume_info` reads.
- `Utils`: `parse_history`, `locate_rev_in_log`, `commit_to_git`,
  `_get_file_list` and `read_local_version` of `utils.py`.
- `Clone`: the parts of `clone.py` that differ from `utils.py`.

`clone.py` repeats `utils.py` line for line in several places, so those
functions are modelled once, in `Utils` and `LogParser`:

| clone.py | modelled as |
|---|---|
| `start_with_version`, `find_next_commit` | `LogParser.IsHeader` and `LogParser.LocateNextCommit` with `DigitStart` |
| `parse_commit`, `format_commit_msg` | `LogParser.ParseHeaderRfc`, `LogParser.ReformatMsgBody` |
| `parse_history` | `Utils.ParseHistory` |
| `read_local_version`, `locate_rev_in_log` | `Utils.ReadLocalVersion`, `Utils.LocateRevInLog` |

Some members take a parser or formatter as a parameter: `Resume.CommitReader`,
and the `parseHeader` and `reformat` arguments of `Utils.ReadHistory`. This
keeps the loop proofs independent of the details of header and commit
parsing. Each such member is then instantiated with the real parser:

- `Resume.CommitParser` is `CvcCommit`;
- `Utils.ParseHistory` passes `ParseHeaderRfc` and `ReformatMsgBody`.

Processes, files and the clock are not modelled. Whatever the code reads
from them becomes a parameter:

- the lines of `cvc log`;
- the `ls` output;
- the CONARY lines before and after `cvc update`;
- whether `cvc checkout` and `cvc update` succeeded;
- the exit status of each `git commit`;
- the text of the git note and whether the repository has no commit yet.

A Python exception, or a `sys.exit` on malformed input, becomes a `Failure`
with an `Error` that says which input was malformed.

Some behaviour of the code is easy to miss, and the model follows it
as written:

- When a package's resume revision does not occur in its log, `get_commits`
  keeps every commit (cvc2git.py:139-142). `do_pull` does the same through
  `revisions[:None]` (clone.py:124-125). `Resume.FilterNewKeeps` and
  `Clone.PendingNewer` state this.
- Only a failed `git commit` stops the replay of `utils.py`
  (utils.py:96-98). A failed `cvc update` or `git add` is only printed
  (utils.py:82-89), even though the `git add` message says "exiting".
  `Utils.CommitToGit` states this. The replay of `clone.py` never stops
  (clone.py:70-80); `Clone.CommitToGit` states this.
- Only `utils.py` and `clone.py` end each replayed message with the source
  revision (utils.py:81, clone.py:69). The commits of `cvc2git.py` are
  written by `apply_commits`, which is not part of this model.

## Model

| member | source | states |
|---|---|---|
| `Wrappers.MapResultMeaning` | utils.py:55-60 | A loop that parses every element and raises on the first bad one succeeds exactly when every element parses. It then holds each element's result, in order; otherwise it fails with the error of the first element that does not parse. |
| `Wrappers.MapResultFailurePersists` | cvc2git.py:136-138 | Once an element has failed, the elements after it are never looked at. |
| `Text.Strip` | cvc2git.py:45 | The result has no blank at either end, and it is a slice of the input with only blanks around it. |
| `Text.RStrip` | cvc2git.py:46 | The result is a prefix of the input with no trailing blank, and only blanks were cut off. |
| `Text.SplitDecomposes` | cvc2git.py:32 | Every text is laid out as runs of blanks around the pieces `split()` returns, with a non-empty run between two pieces. So the pieces are the maximal runs of non-blanks, in order, and with the blanks between them they give the text back. |
| `Text.SplitWeave` | cvc2git.py:32 | Conversely, for any text made of tokens with blank runs around them and at least one blank between two tokens, `split()` returns exactly those tokens. |
| `Text.SplitJoin` | cvc2git.py:278 | Splitting a blank-joined list of tokens gives back the tokens. |
| `Text.SplitOn` | cvc2git.py:272 | `split(c)` gives at least one piece, none of them contains `c`, and joining the pieces with `c` gives the input back. |
| `Text.SplitOnJoin` | cvc2git.py:272 | Splitting on `c` inverts joining with `c` for pieces without `c`. |
| `Text.RSplitOnce` | utils.py:104 | `rsplit(c, 1)` has a second piece exactly when `c` occurs. The input is then front + `c` + back, with no `c` in the back. |
| `Text.RSplitOnceOf` | utils.py:104 | Whatever comes before it, a text with no `c` after the last `c` is the back piece of `rsplit(c, 1)`. |
| `Text.ReplaceFirstAt` | utils.py:80 | `replace(a, b, 1)` changes only the first `a`, and leaves a text without `a` unchanged. |
| `Text.IndexOf` | clone.py:125 | The position found is the first occurrence, or the length when there is none. |
| `Text.PyIndex` | cvc2git.py:34-35 | A slice bound in `0..n` is kept. A bound above `n` becomes `n`. A negative bound counts from the end, and one below `-n` becomes 0. |
| `LogParser.DigitRuleIsStricter` | utils.py:13 | `IsHeader` with the digit rule of utils.py and clone.py accepts only lines the non-blank rule of cvc2git.py (cvc2git.py:27) accepts too. The non-blank rule alone accepts `tip-1`. |
| `LogParser.NextHeader` | clone.py:10-17 | The scan stops at or after `begin` and within the list. No line it passes is a header, and it stops on a header unless it reached the end. |
| `LogParser.LocateNextCommit` | cvc2git.py:91-102 | The while loop returns the first header at or after `begin`, or the length of the list. A `begin` past the end is returned unchanged. |
| `LogParser.BlocksFrom` | utils.py:55-59 | Each block starts with a header line, and none of its other lines is a header. |
| `LogParser.BlocksStep` | cvc2git.py:136-143 | Proof step: the block read at header `i` runs to the next header, and reading goes on from there. |
| `LogParser.MapBlocksStep` | utils.py:55-60 | One pass of a loop that reads block by block either appends the block's result or ends the whole log with its failure. |
| `LogParser.BlocksFromCover` | utils.py:55-60 | The blocks from a header on read back the log from there, and there is one block per header line. |
| `LogParser.BlocksPartitionLog` | utils.py:52-61 | The blocks read back to back give exactly the log from its first header on. No line before that header is a header, and there is exactly one block per header line. |
| `LogParser.LinesHeaders` | cvc2git.py:136-143 | Among the lines of the blocks, the header lines are exactly the blocks' first lines. |
| `LogParser.HeaderOwnsBlock` | utils.py:53-57 | Every header line of the log opens one of its blocks. |
| `LogParser.DropTrailingEmpty` | cvc2git.py:46 | Only the empty lines at the end are dropped, and the last line kept is not empty. |
| `LogParser.RStripJoin` | utils.py:44-45 | Right-stripping lines joined by newlines, where each line ends in a non-blank or is empty, is the same as dropping the trailing empty lines before joining. |
| `LogParser.ReformatMsgBody` | cvc2git.py:39-46 | The message is every line stripped on its own (`StripAll`), up to the last non-empty one, joined by newlines. Blank lines inside the message survive, and the message does not end in a blank. |
| `LogParser.ParseHeader` | cvc2git.py:29-37 | Splitting a header fails exactly on a line with no token. Otherwise the revision is the first token. With seven tokens or more, the author is the tokens between the revision and the last five, and the date is the last five. With Python's slice clamping, six tokens or fewer give no author, and five or fewer give a date made of every token, the revision included. |
| `LogParser.HeaderTokens` | cvc2git.py:32-35 | For a header with at least seven tokens, the revision, the author's tokens and the five date tokens are exactly the line's tokens, in order. |
| `LogParser.ParseHeaderRfc` | utils.py:28-36 | Splitting a header fails exactly when the line has fewer than five tokens (`s[-5]` raises). Otherwise the revision is the first token, the author is the tokens between it and the last five (none with five tokens), and the date's tokens are the last five in the order 0, 2, 1, 4, 3, with a comma after the weekday and the zone `+0000`. |
| `LogParser.RfcDateLayout` | clone.py:19-25 | The rewritten date is `Wdy, DD Mon YYYY HH:MM:SS +0000`: the six tokens are the date tokens in the order 0, 2, 1, 4, 3, with a comma after the weekday and the zone `+0000`. The author is the tokens between the revision and the date. |
| `Timestamps.OrdinalOrder` | cvc2git.py:155 | The integer sort key orders two dates as `datetime` does, and two dates have the same key only when they are equal. |
| `Timestamps.Field` | cvc2git.py:79 | A numeric field is accepted exactly when it has an allowed number of digits, only digits, and a value within the bounds. Its value is then the decimal number it spells. |
| `Timestamps.ParseDate` | cvc2git.py:79 | `strptime` refuses a date with a blank at either end, without exactly five fields, or with a field it cannot read: an unknown weekday or month name, a day that is not one or two digits from 1 to 31, a clock that is not `H:M:S` within range, a year that is not four digits. Otherwise the month is the one the name stands for, and the day, the clock and the year are the values their fields spell. |
| `Timestamps.ParseFormatDate` | cvc2git.py:79 | Reading back a date written as `%a %b %d %H:%M:%S %Y` gives the same date. |
| `Timestamps.ParseLogDate` | cvc2git.py:79 | A date as `cvc log` prints it, such as `Mon Jan  5 18:02:31 2009`, reads back as the same date. This holds with a one-digit or a two-digit day and with any runs of blanks between the fields. |
| `Timestamps.ParseJoinedLogDate` | cvc2git.py:79 | The log's date fields, with a one- or two-digit day, read back as the same date once the header parser has re-joined them with single blanks. |
| `Timestamps.FieldsRoundTrip` | cvc2git.py:79 | The five written fields are tokens, and together they read back as the same date. |
| `Timestamps.ClockRoundTrip` | cvc2git.py:79 | `HH:MM:SS` written with two digits each is one token and reads back as the same time. |
| `Timestamps.NamesRoundTrip` | cvc2git.py:79 | Every written weekday and month abbreviation is recognised in any case, and the month name gives back its month. |
| `Timestamps.PaddedDecimal` | cvc2git.py:79 | A zero-padded number is all digits, and its value is the number when it fits the width. |
| `Commits.LastOpen` | cvc2git.py:78 | The position found is the last ` (` at or before the bound that leaves room for a `)`, or -1 when there is none. |
| `Commits.SplitAuthor` | cvc2git.py:78 | A matched blob is exactly `name (email)`, or that followed by a line break. Neither part has a line break, and the email has no ` (`. |
| `Commits.AuthorRoundTrip` | cvc2git.py:78 | A blob written as `name (email)` splits back into that name and email. |
| `Commits.ParseCommitFields` | cvc2git.py:73-80 | A parsed commit carries the package and branch it was given and the header's first token as revision. The author name and email are what the header's author blob matches as. The date is the one read from the header's last five tokens, and the message is the tidied one. |
| `Commits.ParseCommitErrors` | cvc2git.py:73-80 | `CvcCommit` (`ParseCommit`) fails exactly when the header has no token, the author blob does not match `name (email)`, or `strptime` refuses the date. The error says which, checked in that order. |
| `Commits.HeaderFromTokens` | cvc2git.py:29-37 | A header made of a revision, author tokens and five date tokens splits back into those three parts. |
| `Commits.HeaderLineFields` | cvc2git.py:29-37 | A header laid out as any runs of blanks around a revision, author tokens, `(email)` and five date tokens splits back into the revision, the blob `name (email)` and the date fields re-joined by single blanks. |
| `Commits.ParseHeaderLine` | cvc2git.py:73-80 | A block whose header is laid out as `cvc log` writes it parses to exactly its revision, author name, email and date, with the tidied message. This covers `Mon Jan  5 18:02:31 2009`, a one-digit day after two blanks, as well as a two-digit day and any blank runs between the tokens. |
| `Commits.ParseCommitOfParts` | cvc2git.py:73-80 | Proof step: a block whose header, author and date all parse becomes the commit made of those parts. |
| `Resume.ResumeInfo.constructor` | cvc2git.py:329-331 | A new dictionary holds the entries it was given. |
| `Resume.FilterNewKeeps` | cvc2git.py:132-143 | `FilterNew`: the kept commits are a prefix of the newest-first log, and none of them is the resume point. The commit right after them is the resume point. Everything is kept exactly when there is no resume point or it never occurs. |
| `Resume.FilterNewSnoc` | cvc2git.py:139-142 | An older commit is kept exactly when the resume point has not been met and it is not the resume point itself. |
| `Resume.PackageName` | cvc2git.py:126 | The package name is the last token of the `Name` line up to its first `:`, and contains no `:`. |
| `Resume.LastToken` | cvc2git.py:127 | The branch is the last piece `split()` returns for its line, which is a token. |
| `Resume.ReadLogShape` | cvc2git.py:119-127 | `ReadLog`: a log without the `Name` and `Branch` lines is rejected. One that reads gives a package without `:` and one commit per header line after the metadata. |
| `Resume.ReadLogCommits` | cvc2git.py:130-143 | The commits of a log are its blocks, each parsed by `CvcCommit`, in log order. |
| `Resume.NewCommitsSpec` | cvc2git.py:132-147 | `NewCommits`, the result of one `get_commits` call, with `Lookup` as `get(pkg, None)`: a log that does not read fails with its error. Otherwise the result is the commits before the resume point, and only the package's own entry can change. That entry then names the newest new commit, or the dictionary is untouched when nothing is new. |
| `Resume.ScanIsFilter` | cvc2git.py:134-143 | The loop's state after some blocks is the parse of all of them, filtered at the resume point, together with whether the resume point was seen. It fails with the first block that does not parse. |
| `Resume.ScanSnoc` | cvc2git.py:139-142 | Proof step: a block that parses advances the state by the two tests on its commit. |
| `Resume.ScanStopsAt` | cvc2git.py:137-138 | A block that does not parse is the failure of the whole log. |
| `Resume.KeepCommit` | cvc2git.py:139-142 | The two `if`s mark the resume point as seen when the commit is it, and keep the commit only while the resume point is unseen. |
| `Resume.ScanBlock` | cvc2git.py:137-143 | One pass at a header either ends the log with its failure, or moves to the next header with the state advanced by one block. |
| `Resume.CollectNew` | cvc2git.py:130-143 | The loop returns the commits the scan of all blocks keeps, or the scan's failure. |
| `Resume.GetCommits` | cvc2git.py:104-148 | `get_commits` returns what `NewCommits` yields and leaves that dictionary behind. On a failure it leaves the dictionary as it was. |
| `Merge.SameDateAppend` | cvc2git.py:155 | The commits of one date in a concatenation are those of each part, in order. |
| `Merge.SwapKeepsDates` | cvc2git.py:155 | Exchanging neighbours with different dates keeps the order among the commits of every date. |
| `Merge.SwapPermutes` | cvc2git.py:155 | Exchanging neighbours keeps the same commits. |
| `Merge.SwapNeighbours` | cvc2git.py:155 | The array after the exchange is the old one with the two neighbours swapped. It has the same commits and the same order within each date. |
| `Merge.InsertLast` | cvc2git.py:155 | Moving the next commit into the sorted prefix leaves the prefix one longer and sorted, with the same commits and the same order within each date. |
| `Merge.SortCommits` | cvc2git.py:150-155 | The sort leaves the array ascending by date, with the same commits, and keeps the original order among commits with the same date. |
| `Merge.GatherSnoc` | cvc2git.py:173-177 | Proof step: one more log appends its new commits and passes the dictionary on, or ends the gathering with its failure. |
| `Merge.GatherStopsAt` | cvc2git.py:177 | A log that fails is the failure of the whole gathering. |
| `Merge.GatherFailurePersists` | cvc2git.py:173-177 | Logs after a failed one change nothing. |
| `Merge.GatherLogs` | cvc2git.py:171-178 | The loop returns what `Gather` yields: every package's new commits, in package order, with the dictionary updated package by package, or the first failure. On a failure the dictionary holds the updates of every package before the failing one. |
| `Merge.ParseLogs` | cvc2git.py:157-181 | The result is the gathered commits sorted ascending by date. It is a permutation of them, stable for equal dates, and the dictionary ends as the gathering left it. On a failure the dictionary holds the updates of every package before the failing one. |
| `Progress.ParsePair` | cvc2git.py:272 | A note token reads as a pair exactly when it has one `=`. The pair then writes back as that token, and neither part has a `=`. |
| `Progress.ToMap` | cvc2git.py:272 | `dict(pairs)` has exactly the keys of the pairs, and the value of a key is the one its last pair gives. |
| `Progress.DecodeProgress` | cvc2git.py:272 | Reading a note fails exactly when some blank-separated token does not split into two at `=`. Otherwise the dictionary is built from the pairs. |
| `Progress.PairRoundTrip` | cvc2git.py:278 | A pair without blanks or `=` is written as one token that reads back as the pair. |
| `Progress.ProgressRoundTrip` | cvc2git.py:272-278 | Reading back the note `EncodeProgress` writes gives the dictionary of the written pairs. |
| `Progress.ToMapEnumerates` | cvc2git.py:272 | A list with one pair per entry of a dictionary rebuilds that dictionary. |
| `Progress.StoreThenGet` | cvc2git.py:264-280 | `GetResumeInfo`, on a repository with commits, reads back what `store_progress` stored, whatever the order of the dictionary's items, for keys and values without blanks or `=`. |
| `Utils.ReadEntry` | utils.py:56-60 | One pass returns the next header's position and the tuple of the block at `i`, or that block's header failure. |
| `Utils.ReadHistory` | clone.py:36-45 | The loop returns the result of reading every block, stopping at the first one whose header does not parse. |
| `Utils.ParseHistory` | utils.py:47-62 | `parse_history` is `History` of the given lines. |
| `Utils.HistoryEntries` | utils.py:47-62 | A parsed history has one tuple per header line, in log order, and the lines before the first header are dropped. Tuple `k` holds block `k`'s header fields and the reformatted lines between its header and the next. |
| `Utils.HistoryFails` | utils.py:56 | `parse_history` fails exactly when some header line has fewer than five tokens. |
| `Utils.FailureHasShortHeader` | utils.py:34 | A failed history has a header line with fewer than five tokens. |
| `Utils.ShortHeaderFails` | utils.py:34 | A header line with fewer than five tokens makes the history fail. |
| `Utils.LocateRevInLog` | utils.py:107-111 | The position returned is the least index whose revision is `rev`. `None` is returned exactly when no tuple has it. |
| `Utils.LocateAgreesWithIndex` | clone.py:102-106 | The position found is the first index of `rev` among the revision ids (`Ids`, the tuples' revisions in order), with `None` standing for the length of the list. |
| `Utils.GitAuthorOfCommitter` | utils.py:80 | `GitAuthor` turns a committer `name (email)` into the git author `name <email>`. |
| `Utils.GitAuthorPlain` | utils.py:80 | A committer without parentheses is passed on unchanged. |
| `Utils.MessageNamesRevision` | utils.py:81 | The git message `CommitMessage` builds starts with the cvc message, and its last word is the revision. |
| `Utils.ReplayPlan` | utils.py:75 | The replay makes one commit per tuple. |
| `Utils.ReplayOlderFirst` | utils.py:75 | Replaying a list commits all older revisions before the newer ones. |
| `Utils.ReplayPlanGrows` | utils.py:75 | Proof step: each replay step appends the commit of the next-older revision. |
| `Utils.CommitToGit` | utils.py:73-99 | The replay stops exactly when some `git commit` fails. The commits made are then the plan's commits before the one that failed. Otherwise it makes every commit of the plan, oldest first. |
| `Utils.FileList` | utils.py:64-71 | The kept names are a subsequence of the listing. Each name is kept as many times as it is listed when it occurs in the CONARY text, and never otherwise. |
| `Utils.ReadLocalVersion` | utils.py:101-105 | Reading fails exactly when CONARY has fewer than three lines or line 2 has no `:`. Otherwise the version is what follows the last `:` of the stripped line, and it has no `:`. |
| `Clone.WorkDir` | clone.py:47-56 | A failed checkout gives no directory. Otherwise the directory is `dest` when one was given, else the part of the trove spec before its first `=`. |
| `Clone.CloneFileList` | clone.py:58-62 | Each kept name is a single word of the `ls` output. The kept names are a subsequence of those words, and each word is kept as many times as it occurs in the output when it occurs in the CONARY text, and never otherwise. |
| `Clone.CommitToGit` | clone.py:64-80 | Every revision is replayed, oldest first, whatever fails. The commits made are those of the replay plan whose `git commit` succeeded, in plan order. |
| `Clone.CommandQuoting` | clone.py:77-78 | The single quotes of the `git commit` command enclose exactly the author, the date and the message when none of the three holds a `'`. With a `'` in any of them, the quoting no longer matches the fields. |
| `Clone.Accepted` | clone.py:79-80 | The commits made are a subsequence of the plan. They are the whole plan when every commit succeeds, and none when all fail. |
| `Clone.PendingNewer` | clone.py:123-125 | `Pending`, what a pull replays: a prefix of the log that stops right above the local revision and does not contain it. The whole log is replayed exactly when the local revision is missing from it. |
| `Clone.NewerRevisions` | clone.py:123-125 | The end of a pull fails exactly when the history does not parse. Otherwise it yields the revisions above the first entry of the local revision, found by `locate_rev_in_log`, or the whole history when there is none. |
| `Clone.DoPull` | clone.py:108-126 | A bad CONARY or a failed update stops the pull. An unchanged revision converts nothing. Otherwise the pull hands to `commit_to_git` the revisions newer than the old local one (`Pending`). |

## Left out

- Running `cvc` and `git` (log, checkout, update, add, commit, notes, init, status) is not modelled. These are separate processes. Their output and exit status are parameters.
- Files are not modelled: opening the cached logs and CONARY, `ls`, `os.chdir`, `shutil.rmtree`, `os.remove` and `/dev/null`. What the code reads from them is a parameter.
- The log text's own `strip().splitlines()` is not modelled. The parsers take the list of lines.
- `apply_commits` of cvc2git.py is not modelled, because it is process and file work. Its date formatting and environment setup would only be built for those processes.
- Progress printing and error messages are not modelled. They do not change any result.
- `get_git_branch`, `is_initial_repo` and `get_git_head` are not modelled, because they scrape git's human-readable output. `is_initial_repo`'s answer is the `initialRepo` parameter of `Progress.GetResumeInfo`.
- `add_options`, `main`, `assert_dir_exist` and `init_git_repo` are not modelled. They are command-line and start-up plumbing.
- `init_git_repository`, `is_cvc2git_repo_dir` and `is_conary_package_dir` of utils.py are not modelled, because they only test and create files.
- `do_clone` is not modelled as a member. It is `Clone.WorkDir`, then `Utils.ParseHistory`, then `Clone.CommitToGit`. In the same way `do_pull` ends by calling `commit_to_git` on the revisions `Clone.DoPull` returns.
- Clone.WorkDir: returns the directory as given or as cut from the trove spec, not `os.path.abspath` of it (clone.py:54). The process's current directory is not modelled.
- Clone.CommitToGit: the shell does not run the command text in the model. A `'` in the author, the date or the message breaks the quoting of `git commit` (`Clone.CommandQuoting`). An odd number of quotes fails the command, so that revision is not committed and its changes go into the next commit. An even number runs a command with other arguments. Whether each commit succeeds is the `accepted` parameter. The `git init` that starts the replay is not modelled either.
- `CvcCommit.expand` and `__str__` are not modelled. They only list or print the fields, which `Commits.Commit` already has.
- Calendar checks are not modelled. After `strptime` has matched the fields, `datetime` rejects a day that the month does not have, such as 30 February. `Timestamps.ParseDate` accepts any day from 1 to 31. Like `strptime`, it does not check the weekday name against the date.
- `Timestamps.FormatDate` takes the weekday as an argument, because it is calendar arithmetic.
- The order of a dictionary's items is not modelled. `Progress.StoreThenGet` holds for every order in which `items()` may list them.
- `Merge.SortCommits` is not Python's timsort. It is an insertion sort with the same result: stable and ascending by date.
- A log with fewer than two lines is not given its own error. Python raises `IndexError` on `history[0]` for an empty log. For a one-line log it raises `IndexError` on `history[1]` when the line starts with `Name`, and otherwise it exits through the metadata check. The model reports `MalformedMetadata` in all these cases, as for any other log without both metadata lines.
- `Utils.ReadHistory` and `Utils.ParseHistory` take the lines of `cvc log`, not the running process.
- pull.py is not part of this model. It calls a `utils.py` function that does not exist, and its slice is the one of `Clone.DoPull`.
