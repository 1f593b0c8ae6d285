# changeset_lifetime in Dafny

`changeset_lifetime` is a command-line tool. It measures how long changeset
files under `.changeset/` lived in a git repository. Here is what it does:

1. It asks git for every path under `.changeset` that was ever added or
   deleted.
2. For each distinct path, it reads the add history (`%H %aI` lines,
   newest first). It reads the delete history only when the path was not
   added after `--end`.
3. It keeps the files whose lifetime reaches into a window `[--start, --end]`
   and lasted at least `--days`.
4. It prints the kept files, longest-lived first, followed by their count
   and their mean age.

This project models the core of `src/main.rs` in Dafny and proves its
properties:

- **Text** (`text.dfy`) covers the post-processing that `run_git` applies to
  git's output: trim every line and drop the empty ones. It also covers
  `str::trim`, `str::split_whitespace`, and the file name of a path. Each one
  is proved against an independent definition, a round trip or an invariant.
- **History** (`history.dfy`) models `commit_created` and `commit_deleted`
  as functions over the normalised lines of a history. A record is split into
  hash and date. Every failure is kept: an empty add history, a missing
  token, a date that does not parse. Lemmas show what both functions return
  on a history written the way git writes it.
- **Lifetime** (`lifetime.dfy`) models the per-path rule of the loop in
  `main`:
  - skip a path created after `--end`;
  - skip a path deleted before `--start`;
  - take the age as deletion (or now) minus creation, truncated toward zero
    to whole minutes;
  - skip a zero age and an age below `--days`.

  Rust's truncating `/` and `Duration::num_minutes` are written out
  explicitly.
- **Report** (`report.dfy`) models the imperative part of `main`:
  - the window check;
  - a loop over the distinct paths that pushes the kept entries;
  - an in-place sort of an array by age, descending (an insertion sort);
  - a loop summing the ages;
  - the mean, which is the whole minutes of the sum divided by `max(n, 1)`.

  Each method is proved against a specification function. The
  specification functions carry their own lemmas: error propagation, what
  the entries are, permutation, sortedness, and order-independence of the
  sum.
- **Scenarios** (`scenarios.dfy`) gives worked examples. A file is added on
  1 January 2024 and deleted on 1 March 2024. It is checked against two
  windows. A second file is added on the same day and never deleted: its
  delete query prints only blank lines, so its age runs to the clock. A
  third example sorts two entries in place and checks their order and mean.

Inputs that the program reads from the outside world are passed in as
parameters:

- the stdout lines of each git query, as functions of the path;
- chrono's RFC 3339 date parser, as `string -> Option<int>` (seconds since
  the epoch);
- the clock reading `Utc::now()`, which is read each time a path without a
  deletion is evaluated.

A panic (`lines[0]` on an empty add history, `expect("two parts")`, or the
explicit `panic!` on a bad add date) is modelled as an error result that
ends the run. The same goes for the exit on `end <= start`.

The model follows the code, including where it differs from what a reader
might expect:

- `commit_created` is documented as the "oldest add commit" (`src/main.rs:43`).
  However, it takes `lines[0]`, which is the newest add, because git lists
  newest first. `History.CommitCreated` and `History.CreatedFromLog` take the
  first line.
- The comparison at `src/main.rs:150` drops only `age < min_days`, so an
  age of exactly `--days` is kept. `Lifetime.ThresholdInclusive` states this.
- `commit_deleted` returns `None` for an empty history or an unparseable
  date. A first delete line with fewer than two tokens still panics in
  `expect`, so `History.CommitDeleted` returns an error there, not `None`.

## Model

| member | source | states |
|---|---|---|
| Text.LeadingSpace | src/main.rs:31 | The whitespace run that `trim` drops from the front: everything before the result is whitespace, and the next character is not. |
| Text.TrailingSpace | src/main.rs:31 | The whitespace run that `trim` drops from the back: everything from the result on is whitespace, and the character before it is not. |
| Text.Trim | src/main.rs:31 | `str::trim` returns a slice of the line with only whitespace outside it, and no whitespace at either end. |
| Text.TrimUnique | src/main.rs:31 | Any slice with only whitespace outside it and none at its ends equals `Trim`, so `Trim` is the one such result. |
| Text.IsWhitespace | src/main.rs:31 | Space, tab, newline and carriage return count as whitespace for `trim` and `split_whitespace`; no printable ASCII character does. |
| Text.TrimTrimmed | src/main.rs:31 | Trimming a string with no whitespace at either end returns it unchanged. |
| Text.Normalise | src/main.rs:29-33 | The output of `run_git` is no longer than the input, and every line in it is non-empty and trimmed. |
| Text.NormaliseAppend | src/main.rs:29-33 | Normalisation works line by line: normalising a concatenation concatenates the normalised parts, so relative order is kept. |
| Text.NormaliseMembers | src/main.rs:29-33 | A line is in the output exactly when it is non-empty and is the trim of some input line (both directions). |
| Text.NormaliseEmpty | src/main.rs:29-33 | `run_git` returns no lines exactly when every line of git's output is blank. |
| Text.NormaliseIdempotent | src/main.rs:29-33 | Normalising output that is already normalised changes nothing. |
| Text.SplitWhitespace | src/main.rs:54 | `split_whitespace` yields only non-empty tokens with no whitespace in them. |
| Text.SplitLeadingToken | src/main.rs:54 | A token followed by whitespace or by nothing is split off as one piece, ahead of the split of the rest. |
| Text.SplitSkipsSpace | src/main.rs:54 | Any run of whitespace, of any kind, in front of a line does not change how `split_whitespace` splits it. |
| Text.SplitBlank | src/main.rs:54 | A line of whitespace only yields no tokens. |
| Text.SplitSpaced | src/main.rs:54-56 | Tokens separated by any non-empty runs of any whitespace, with any whitespace before and after, split back into exactly those tokens. |
| Text.SplitSpacedStep | src/main.rs:54 | A leading whitespace gap and the token after it split off as that one token. |
| Text.SplitMixedSpace | src/main.rs:54 | A run of a tab and a space separates two tokens just as a single space does. |
| Text.SplitUnwords | src/main.rs:54-56 | Splitting tokens joined by single spaces gives back exactly those tokens. |
| Text.NameStart | src/main.rs:156 | The file name starts just after the last `/`, or at 0, and no `/` follows that point. |
| Text.BaseNameSegment | src/main.rs:156 | `Path::file_name` of a path is its last `/`-separated segment: a suffix with no `/`, preceded by a `/` whenever it is not the whole path. |
| Text.BaseNameOfJoin | src/main.rs:156 | The file name of `dir/name` is `name` when `name` contains no `/`. |
| History.ParseRecord | src/main.rs:54-56 | A record fails with the `expect` panic exactly when it has fewer than two tokens. Otherwise it yields the first two tokens, which `trim` leaves unchanged. |
| History.TokenTrimmed | src/main.rs:55-56 | The `.trim()` applied to each token is a no-op. |
| History.ParseUnwords | src/main.rs:54-56 | A line of two or more tokens parses to its first two tokens, and the rest are ignored. |
| History.ParseLogLine | src/main.rs:50-56 | A `%H %aI` line parses back to that hash and that date. |
| History.LogIsNormal | src/main.rs:29-33 | Git's `%H %aI` history lines pass through `run_git`'s normalisation unchanged. |
| History.CommitCreated | src/main.rs:44-61 | An empty add history is fatal (`lines[0]`). Otherwise it fails exactly when the first line has fewer than two tokens or its date does not parse. A result is the first line's hash, a token, at its parsed date. |
| History.CommitDeleted | src/main.rs:64-85 | Fails exactly when the first line has fewer than two tokens. Returns `None` exactly when the history is empty or the first date does not parse. Otherwise it is the first line's hash, a token, at its parsed date. |
| History.CreatedFromTokens | src/main.rs:54-59 | When the first add line has two or more tokens, the result is the commit of the first token at the date the second parses to, or the bad-date panic; later tokens are ignored. |
| History.DeletedFromTokens | src/main.rs:78-84 | When the first delete line has two or more tokens, the result is the commit of the first token at the date the second parses to, or `None` when the date does not parse; later tokens are ignored. |
| History.CreatedFromLog | src/main.rs:54-59 | On a history as git writes it, the result is the first (newest) entry. An empty history is fatal, and so is a date that does not parse. |
| History.DeletedFromLog | src/main.rs:74-84 | On a history as git writes it, the result is the first (newest) entry. It is `None` when the history is empty or the date does not parse. |
| Lifetime.Quot | src/main.rs:173 | Rust's `/` with a positive divisor: the quotient rounded toward zero, bounded on both sides for either sign of the dividend. |
| Lifetime.NumMinutes | src/main.rs:149 | `Duration::num_minutes` truncates toward zero: the whole minutes of the span lie within one minute of it, on the side of zero. |
| Lifetime.TruncMinutes | src/main.rs:149 | `Duration::minutes(age.num_minutes())` gives a multiple of 60 seconds within a minute of the span, on the side of zero. |
| Lifetime.TruncMinutesUnique | src/main.rs:149 | Only one multiple of 60 lies within a minute of a span on the side of zero, and that one is `TruncMinutes`. |
| Lifetime.Created | src/main.rs:127 | Looking up a path's creation fails with the empty-history panic exactly when every line of its add query is blank; a result carries a token hash. |
| Lifetime.Deleted | src/main.rs:133 | A path whose delete query prints only blank lines was never deleted; the only failure is a missing token, and a deletion carries a token hash. |
| Lifetime.Assess | src/main.rs:127-160 | A kept entry is named by the file name and has a positive whole-minute age at least `--days`. The iteration fails exactly when `commit_created` fails, or when the path is not skipped as late and `commit_deleted` fails. |
| Lifetime.AssessKept | src/main.rs:129-152 | A kept path was created no later than `--end` and was not deleted before `--start`. Its age lies within a minute below the lifetime and is at least `--days`. Its commits are the add and delete hashes. |
| Lifetime.AssessKeeps | src/main.rs:129-152 | Conversely, a lifetime that reaches into the window and lasts at least a minute and at least `--days` (in whole minutes) is kept. |
| Lifetime.AssessCreatedLate | src/main.rs:129-131 | A path created after `--end` is skipped before its delete history is looked at. |
| Lifetime.ThresholdInclusive | src/main.rs:150-152 | An age of exactly `--days` is kept, and one second less is dropped. |
| Report.Survivors | src/main.rs:124-162 | The loop collects no more entries than there are paths, and every entry is reportable. |
| Report.SurvivorsLast | src/main.rs:126-161 | Processing one more path adds one entry when its iteration pushes and none otherwise. |
| Report.SurvivorsCount | src/main.rs:124-162 | The number of collected entries equals the number of paths whose iteration pushes an entry. |
| Report.SurvivorsErrExtends | src/main.rs:127 | Once one path's iteration panics, the run fails with that error. |
| Report.SurvivorsOk | src/main.rs:126-162 | The loop completes exactly when no path's iteration is fatal. |
| Report.SurvivorsMembers | src/main.rs:126-161 | An entry is collected exactly when some path's iteration pushes it. |
| Report.SurvivorsKept | src/main.rs:127-161 | Every collected entry comes from a path whose lifetime reaches into the window. It has that path's file name and commits, and its age is the lifetime truncated to whole minutes. |
| Report.InsertDescending | src/main.rs:165 | Inserting entry `i` extends the sorted prefix to `a[..i + 1]`, keeps the multiset of that prefix, and leaves `a[i + 1..]` unchanged. |
| Report.SortByAgeDescending | src/main.rs:165 | Sorting with the comparator `b.age.cmp(&a.age)` leaves ages non-increasing and the entries a permutation of the input. |
| Report.SumAges | src/main.rs:167-170 | The total of non-negative ages is non-negative and at least each single age. |
| Report.SumAgesPermutation | src/main.rs:167-170 | The total age is the same for any permutation of the entries. |
| Report.SumAgesNonNegative | src/main.rs:167-170 | The total age of reportable entries is at least zero, and positive when there is at least one entry. |
| Report.MeanMinutes | src/main.rs:173 | The mean is 0 for no entries. For a non-negative total it is the whole-minute total divided by the count, rounded down. |
| Report.Visit | src/main.rs:127-161 | One iteration of the loop body, with its early `continue`s and panics, computes `Step` for the path. |
| Report.Collect | src/main.rs:124-162 | The loop that pushes into `changesets` returns `Survivors` of the paths, or the first fatal error. |
| Report.TotalAge | src/main.rs:167-170 | The accumulating loop returns the total of the entries' ages. |
| Report.Run | src/main.rs:109-174 | `end <= start` stops the run. Otherwise the run fails exactly when the loop does. On success the report is a permutation of the collected entries, sorted by age descending, with their count (the number of paths whose iteration pushes) and `MeanMinutes` as the mean. |
| Scenarios.FooCreated | src/main.rs:44-61 | For a one-entry add history, `commit_created` yields that commit and its parsed date. |
| Scenarios.FooDeleted | src/main.rs:64-85 | For a one-entry delete history, `commit_deleted` yields that commit and its parsed date. |
| Scenarios.FooStep | src/main.rs:127-147 | The iteration for the example file sees its add, its delete and the clock. |
| Scenarios.DeletedAfterWindowEnd | src/main.rs:127-161 | A file deleted after the window's end is reported under its file name, with an age of 60 days. |
| Scenarios.DeletedBeforeWindowStart | src/main.rs:133-137 | The same file is skipped for a window that opens after its deletion. |
| Scenarios.TwoEntries | src/main.rs:165-173 | Ages of 90 and 45 days sort longest first, and their mean is 97200 minutes. |
| Scenarios.BarDeleted | src/main.rs:74-76 | Blank lines from the delete query normalise away, so the file counts as never deleted. |
| Scenarios.NeverDeleted | src/main.rs:144-161 | A file never deleted is aged up to the clock reading (121 days) and reported with no removing commit. |
| Scenarios.SortTwo | src/main.rs:165 | Sorting the array `[45 days, 90 days]` in place gives `[90 days, 45 days]`. |

## Left out

- Running git: spawning the process, stderr, the exit-status check, and `eprintln_exit` (`src/main.rs:8-27`). The model receives each query's stdout lines as a parameter. A failing git query is not modelled.
- `String::from_utf8_lossy` and `str::lines` (`src/main.rs:29-30`). Output arrives already split into lines, and strings are sequences of characters.
- chrono's RFC 3339 parsing (`src/main.rs:57`, `src/main.rs:81`) is a parameter that returns whole seconds since the epoch. Time zones and fractional seconds are not modelled.
- `Utc::now()` (`src/main.rs:145`) is a parameter with whole-second precision. A sub-second part would not change the whole-minute age of a non-negative span, and negative spans are dropped either way.
- The clap arguments (`src/main.rs:92-107`), humantime's `parse_duration` and `format_duration` (`src/main.rs:87-90`, `171`, `174`), and the `println!` text. `--days` is a whole number of seconds, at least zero.
- Git's `--follow` and the path query's filters. These belong to git.
- `HashSet` iteration order (`src/main.rs:125`). `Report.Run` accepts any duplicate-free order of the normalised path lines.
- Text.BaseName: takes the text after the last `/`. For a path ending in `/`, `Path::file_name` skips the trailing separator and returns the last component, while the model returns the empty string. For a path ending in `..`, or the root, the `unwrap` at `src/main.rs:156` panics, and the model does not represent that panic. Git prints none of these forms for a file.
- Report.SortByAgeDescending: proves a sorted permutation, but not that `sort_by` is stable. The order of equal ages is left open.
- 64-bit overflow of `i64` seconds and of the age sum is not modelled. Integers are unbounded.
- The `.to_std().unwrap()` at `src/main.rs:171` and `173` cannot panic. Kept ages are positive and the mean is at least zero, so the model does not represent that panic.
