# A verified model of the PDDL benchmark driver

`benchmark_pddl.py` runs the pyperplan planner over a tree of PDDL files.
It does the following:

- finds the domain directories under a benchmark directory;
- finds the problem files of each one by looking at their text;
- orders the problems by the first number in their name and keeps at most
  `--max-problems` of them;
- pairs each problem with its domain file through a chain of fallbacks;
- runs every allowed search and heuristic pair on it;
- collects one record per run, ready to be written as a CSV file.

This project models that core in Dafny and proves what it promises.

The model has eight modules, one file each:

- `text.dfy` (`Text`) — the string primitives the driver relies on:
  - `in` as a substring test;
  - `str.strip`;
  - digit runs and `int(...)` / `str(...)`;
  - `str.replace(".pddl", "")`;
  - ASCII lower-casing;
  - Python's string order.
- `search.dfy` (`Wrappers`, `Search`) — `Option`, "first index satisfying",
  and list filtering with its soundness, completeness and order lemmas.
- `fs.dfy` (`Fs`) — the file system the driver sees:
  - paths are component sequences;
  - each entry is a directory with an ordered listing, or a file whose text
    can or cannot be read;
  - `os.path` predicates;
  - `fnmatch` and `glob.glob` over one directory, in listing order.
- `classifier.dfy` (`Classifier`) — `is_problem_file` and the loop of
  `find_problem_files`.
- `resolver.dfy` (`Resolver`) — `read_domain_name_from_file` and the
  layered search of `find_domain_file_for_problem`.
- `runner.dfy` (`Runner`) — `run_benchmark` with the planner's answer given
  as input, the record and its eight fields, and reading the counters out
  of the planner's output.
- `ordering.dfy` (`Ordering`) — `problem_sort_key`, the stable sort (with
  a loop method proved against a functional specification), and the
  truncation to `--max-problems`.
- `walker.dfy` (`Walker`) — the rest of `main` before the CSV file:
  - the choice of domain directories;
  - the filter on search and heuristic pairs;
  - the nested loops that append to `results`, as methods proved equal to
    a functional specification of the walk.

## The planner

The planner is a function from an invocation to an observation.

- The invocation holds:
  - the command line;
  - the timeout;
  - the number of runs before this one, so that the same command may be
    answered differently from one run to the next.
- The observation holds how `subprocess.run` came back, and the elapsed
  seconds (non-negative).
- How it came back is one of three things:
  - completed, with the captured standard output;
  - `TimeoutExpired`;
  - any other exception, with its message.

## How a walk ends

The walk ends in one of four ways:

- `NotADirectory` — the benchmark directory is not a directory;
- `Crashed(UnorderableKeys(d))` — the directory `d` has problem names with
  digits and others without. Sorting then compares `int` with `str`, which
  raises `TypeError` in Python 3.
- `Crashed(UndefinedProblemDir(p))` — the problem `p` is unresolved and
  declares `blocksworld`. The fallback at `benchmark_pddl.py:282` names a
  variable `main` never defines, so it raises `NameError`.
- `Finished(results)` — the list of records.

## Where the code does less than its comments say

The model follows the code in each case:

- **The classifier reads only a prefix.** `is_problem_file` reads the
  first 2000 characters, with the comment "Read enough to check format"
  (`benchmark_pddl.py:180`). A problem whose goal section starts later is
  not recognised; `Classifier.LateGoalMissed` proves the false negative.
- **The parent-directory retry is narrower.** The comment "If still not
  found, try the parent directory" (`benchmark_pddl.py:167`) covers only
  the filename patterns. The synonym spelling (`blockworld`/`blocksworld`)
  is not tried one level up; only the declared name is, through its
  pattern.
- **Some problem lists stop the walk.** The comments "Try to create
  blocksworld file …" (`benchmark_pddl.py:280`) and "Sort problem files
  based on numeric identifiers if present" (`benchmark_pddl.py:260`)
  suggest a fallback and an ordering. Instead, an unresolved problem
  declaring `blocksworld`, and a problem list with keys of both kinds, stop
  the walk with an exception.

## Model

| member | source | states |
|---|---|---|
| Text.Take | benchmark_pddl.py:180 | `f.read(2000)` keeps the first 2000 characters, or all of a shorter text |
| Text.Strip | benchmark_pddl.py:103 | the stripped name neither starts nor ends with whitespace, and the input is the name with only whitespace before and after it |
| Text.NatTextRoundTrip | benchmark_pddl.py:61 | `int` of the decimal text `str` writes for `n` is `n` |
| Text.ReadNumberAt | benchmark_pddl.py:59-61 | a number written in the output, followed by a non-digit, is read back whole as the group `(\d+)` |
| Text.DigitRunLength | benchmark_pddl.py:263 | the digit run found at `i` is all digits, and is maximal |
| Text.RemoveTrailingMarker | benchmark_pddl.py:48-49 | `basename.replace(".pddl", "")` of a dot-free stem followed by `.pddl` is the stem |
| Text.RemoveAllAbsent | benchmark_pddl.py:48-49 | a name without `.pddl` is left unchanged by the replacement |
| Text.LowerIdempotent | benchmark_pddl.py:241 | lower-casing a lower-cased name changes nothing |
| Walker.WantedIgnoresCase | benchmark_pddl.py:239-242 | the `--domains` filter ignores case: a directory is wanted exactly when its lower-case name is, and a requested name selects the same directories in any case |
| Text.LexLeTotal | benchmark_pddl.py:266-268 | any two file names are ordered one way or the other |
| Text.LexLeTransitive | benchmark_pddl.py:266-268 | the string order on file names is transitive |
| Fs.Join | benchmark_pddl.py:132 | `os.path.join(d, n)` has directory `d` and basename `n` |
| Fs.ReadAll | benchmark_pddl.py:115-116 | reading succeeds only on a file |
| Fs.Selected | benchmark_pddl.py:150 | the names a wildcard selects are exactly the listed names that match it, with hidden names left out unless the pattern starts with `.`; they keep the listing order |
| Fs.Glob | benchmark_pddl.py:150 | every hit lies in the directory globbed; a pattern without wildcards yields just the joined path, exactly when it exists; a wildcard pattern yields every visible matching entry, in listing order |
| Fs.GlobHitsExist | benchmark_pddl.py:150-152 | in a tree whose listings name its entries, every glob hit exists |
| Fs.MatchLiteral | benchmark_pddl.py:138 | a pattern without wildcards matches exactly its own text |
| Fs.MatchStarSuffix | benchmark_pddl.py:195 | `*` followed by a literal matches exactly the names ending with the literal, in both directions |
| Fs.GlobStarSuffix | benchmark_pddl.py:195 | every hit of `*.pddl` is in the directory and ends with `.pddl` |
| Fs.StarInfixSubsumed | benchmark_pddl.py:140-141 | `*` + x + d + s matches nothing that `*` + d + `*` + s misses |
| Fs.DotDomainSubsumed | benchmark_pddl.py:140-141 | every name `*.domain.pddl` matches is matched by `*domain*.pddl`, which is tried first |
| Classifier.ProbeWithinText | benchmark_pddl.py:180-182 | a marker found in the first 2000 characters occurs in the whole file |
| Classifier.IsProblemFile | benchmark_pddl.py:176-186 | an accepted file is a readable file whose whole text holds `(:goal`, `(define` and `problem` |
| Classifier.ProbeIgnoresTail | benchmark_pddl.py:180-182 | two texts that agree on their first 2000 characters are classified alike |
| Classifier.LateGoalMissed | benchmark_pddl.py:180-182 | a problem with 2000 characters of header and no `(` is rejected whatever follows |
| Classifier.FindProblemFiles | benchmark_pddl.py:190-202 | the loop returns the `.pddl` glob filtered by the classifier; each file returned is accepted and in glob order |
| Classifier.ProblemFiles | benchmark_pddl.py:190-202 | each found file lies in the directory and is accepted by `is_problem_file`, and the found files keep the glob's order |
| Classifier.AcceptStep | benchmark_pddl.py:198-200 | one iteration keeps the file exactly when the classifier accepts it |
| Classifier.ProblemFilesArePddl | benchmark_pddl.py:195 | each found file is in the directory and ends with `.pddl` |
| Classifier.ProblemFilesComplete | benchmark_pddl.py:195-200 | every visible listed `.pddl` file that the classifier accepts is found |
| Resolver.DeclaredName | benchmark_pddl.py:101-103 | the name read contains no `)` |
| Resolver.DeclaredDomainName | benchmark_pddl.py:96-106 | a name is read exactly when the file is readable and the expression matches in it; the name contains no `)`; an unreadable file gives no name |
| Resolver.NameAfter | benchmark_pddl.py:103 | the group, stripped, stops before the first `)` |
| Resolver.DeclaredNameFound | benchmark_pddl.py:101-106 | a name is read exactly when `\(:domain\s+([^)]+)\)` matches somewhere |
| Resolver.LeftmostDomainMatch | benchmark_pddl.py:101 | the scan stops at a match with no match before it, or at the end when there is none |
| Resolver.DeclaredNameRoundTrip | benchmark_pddl.py:117-119 | a problem writing `(:domain NAME)` after a colon-free prefix is read as `NAME`, whatever follows |
| Resolver.Candidates | benchmark_pddl.py:124-128 | the declared name comes first, then its synonym in either direction; any other non-empty name is the only candidate; there are no candidates without a non-empty name |
| Resolver.Patterns | benchmark_pddl.py:137-146 | the patterns are, in order, `domain.pddl`, `<declared>.pddl` when a non-empty name was read, `*domain*.pddl`, `*.domain.pddl` and `<dirname>.pddl` |
| Resolver.FirstExisting | benchmark_pddl.py:131-134 | a path is returned exactly when some candidate's file exists; it is the path of the first candidate whose file exists |
| Resolver.FirstExistingAt | benchmark_pddl.py:131-134 | when candidate `k` is the first whose file exists, its path is returned |
| Resolver.IsDomainLike | benchmark_pddl.py:156-163 | a file other than the problem whose text reads, with `:action` and without `(:goal`; such a file is never accepted as a problem file |
| Resolver.FirstGlobHit | benchmark_pddl.py:149-152 | a hit is returned exactly when some pattern has one; it is the first hit of the first pattern that has any, and lies in the directory |
| Resolver.FirstDomainLike | benchmark_pddl.py:155-165 | a file is returned exactly when some `.pddl` file other than the problem has `:action` and no `(:goal`; it is the first such file in glob order |
| Resolver.FindDomainFile | benchmark_pddl.py:108-174 | a resolved file lies beside the problem or one directory up |
| Resolver.DeclaredNameWins | benchmark_pddl.py:130-134 | an existing `<declared>.pddl` beside the problem is returned before any other rule |
| Resolver.BlocksworldFindsBlockworld | benchmark_pddl.py:125-134 | a problem declaring `blocksworld` resolves to `blockworld.pddl` when only that spelling exists |
| Resolver.BlockworldFindsBlocksworld | benchmark_pddl.py:127-134 | and the other way round |
| Resolver.PatternsNext | benchmark_pddl.py:136-152 | with no candidate present and some pattern hit beside the problem, the result is the first hit of the first pattern that has one |
| Resolver.PatternHitDecides | benchmark_pddl.py:136-152 | with no candidate present, when pattern `k` (any of `domain.pddl`, `<declared>.pddl`, `*domain*.pddl`, `*.domain.pddl`, `<dirname>.pddl`) is the first with a hit, its first hit is the domain file |
| Resolver.ConventionalNameNext | benchmark_pddl.py:136-152 | with no candidate present, an existing `domain.pddl` beside the problem is chosen |
| Resolver.FirstGlobHitHead | benchmark_pddl.py:149-152 | the first pattern with a hit gives its first hit, whatever later patterns select |
| Resolver.ParentPatternsLast | benchmark_pddl.py:167-172 | when names, patterns and the scan fail beside the problem, the result is the first hit of the same patterns in the parent directory |
| Resolver.StructuralScanBeforeParent | benchmark_pddl.py:154-172 | when names and patterns fail beside the problem, the structural scan decides before the parent directory is tried |
| Resolver.UnresolvedMeansEveryLayerFailed | benchmark_pddl.py:130-174 | the result is None exactly when all four layers fail |
| Resolver.ResolvedFileExists | benchmark_pddl.py:130-174 | in a tree whose listings name its entries, a resolved domain file exists |
| Resolver.FirstGlobHitExists | benchmark_pddl.py:169-172 | a pattern hit, in the parent directory as well, exists |
| Runner.StemDropsExtension | benchmark_pddl.py:48-49 | the stem (`Runner.Stem`) of a dot-free `NAME.pddl` is `NAME`; a name without `.pddl` is kept; the stem is never longer than the basename |
| Runner.Command | benchmark_pddl.py:25-33 | the command line is `python -m pyperplan`, then `--search S` and `--heuristic H` only when they are non-empty, then the domain and problem paths |
| Runner.Or | benchmark_pddl.py:50-51 | `value or fallback`: a non-empty search or heuristic is shown as given, an empty one as `breadth_first_search` or `None` |
| Runner.FirstNodesMatch | benchmark_pddl.py:59 | `re.search` for `(\d+) Nodes expanded` finds the leftmost match |
| Runner.FirstLengthMatch | benchmark_pddl.py:64 | `re.search` for `Plan length: (\d+)` finds the leftmost match |
| Runner.ExpandedNodes | benchmark_pddl.py:58-61 | with no match the count stays 0 |
| Runner.PlanLength | benchmark_pddl.py:63-66 | with no match the length stays 0 |
| Runner.RunBenchmark | benchmark_pddl.py:23-94 | every record names the stems of the domain and problem files and the labelled search and heuristic, and carries the elapsed time |
| Runner.MetricField | benchmark_pddl.py:54-93 | a counter is stored as a number exactly when the run completed; otherwise as `timeout` or as text starting `error: ` |
| Runner.MetricFieldRoundTrip | benchmark_pddl.py:54-93 | the number and the two sentinels are told apart: each stored counter reads back as written |
| Runner.Entries | benchmark_pddl.py:47-56 | every record has the eight keys of the header, in its order |
| Runner.Keys | benchmark_pddl.py:352 | `results[0].keys()` lists the keys of the record in order |
| Runner.HeaderFitsEveryRow | benchmark_pddl.py:350-354 | the header taken from the first record fits every record: all have the same eight keys in the same order |
| Runner.EntriesReadBack | benchmark_pddl.py:74-94 | each value sits under its own key and reads back as the record's field |
| Runner.RunBenchmarkConsistent | benchmark_pddl.py:47-94 | both counters are numbers or both hold the same sentinel, success comes only with numbers, and numbers come exactly with completion |
| Runner.SameOutcomeSameRecord | benchmark_pddl.py:23-94 | two runs the planner answers alike give the same record up to runtime |
| Runner.CompletedRecord | benchmark_pddl.py:47-66 | a completed run succeeds exactly when stdout contains `Goal reached`, and stores the two counters read from stdout |
| Runner.SentinelRecord | benchmark_pddl.py:72-94 | a timed-out or failed run never succeeds and stores `timeout`, or `error: ` with the message, in both counters |
| Runner.NodesRoundTrip | benchmark_pddl.py:59-61 | `N Nodes expanded` after digit-free text is read back as `N` |
| Runner.ExpandedNodesAt | benchmark_pddl.py:59-61 | the leftmost match decides the node count |
| Runner.PlanLengthAt | benchmark_pddl.py:64-66 | the leftmost match decides the plan length |
| Runner.LengthRoundTrip | benchmark_pddl.py:64-66 | `Plan length: N` after text without `P`, followed by a non-digit, is read back as `N` |
| Runner.SilentOutputGivesZeros | benchmark_pddl.py:54-66 | output without either marker gives 0 and 0, not sentinels |
| Runner.SolvedLogCounters | benchmark_pddl.py:58-66 | the log `Goal reached…`, `42 Nodes expanded`, `Plan length: 7` gives 42 and 7 |
| Runner.SolvedRunRecord | benchmark_pddl.py:47-66 | that log gives a successful record with 42 expanded nodes and a plan of length 7 |
| Ordering.KeyOf | benchmark_pddl.py:261-266 | the key is a number exactly when the basename has a digit, and the basename otherwise |
| Ordering.KeyOfNumbered | benchmark_pddl.py:263-265 | a name with a digit-free head is keyed by the value of its first digit run |
| Ordering.KeyOfNumberedText | benchmark_pddl.py:263-265 | a name with the number `n` written after a digit-free head is keyed by `n` |
| Ordering.KeyLeTotal | benchmark_pddl.py:268 | any two keys compare one way or the other |
| Ordering.KeyLeTransitive | benchmark_pddl.py:268 | the key order is transitive |
| Ordering.MixedKeys | benchmark_pddl.py:261-268 | with `problem_sort_key` as the key, the sort raises `TypeError` exactly when two problems have keys Python cannot compare (a number and a name); such a list holds at least two problems |
| Ordering.Sort | benchmark_pddl.py:268 | the sort keeps the number of problems; its order, permutation and stability are SortSorts, SortPermutes and SortStable |
| Ordering.SortSorts | benchmark_pddl.py:268 | the sorted list has non-decreasing keys |
| Ordering.SortPermutes | benchmark_pddl.py:268 | the sort keeps every problem, as often as it occurs |
| Ordering.SortStable | benchmark_pddl.py:268 | problems with equal keys keep their listing order |
| Ordering.InsertKeepsSorted | benchmark_pddl.py:268 | inserting into a sorted list keeps it sorted |
| Ordering.InsertPermutes | benchmark_pddl.py:268 | inserting adds exactly the one element |
| Ordering.InsertStable | benchmark_pddl.py:268 | inserting places the element after those with its key |
| Ordering.InsertAt | benchmark_pddl.py:268 | insertion goes at the first position whose key is greater |
| Ordering.SortByKey | benchmark_pddl.py:268 | the insertion loop computes the stable sort |
| Ordering.WithKeyConcat | benchmark_pddl.py:268 | the elements with one key in a concatenation are those of each part, in order |
| Ordering.NoneWithKey | benchmark_pddl.py:268 | a sorted list starting above a key holds nothing with that key |
| Ordering.Truncate | benchmark_pddl.py:271 | `xs[:m]` is a prefix: `m` elements (or all) for `m >= 0`, and all but the last `-m` for `m < 0` |
| Ordering.TruncateBound | benchmark_pddl.py:271 | at most `m` problems are kept, and truncating again changes nothing |
| Ordering.TruncateNegative | benchmark_pddl.py:271 | a negative bound drops exactly that many problems from the end |
| Ordering.NumericOrder | benchmark_pddl.py:261-268 | `pb2`, `pb10`, `pb1` are run as `pb1`, `pb2`, `pb10` |
| Ordering.EqualNumbersKeepListingOrder | benchmark_pddl.py:261-268 | `p01` and `p1` share a key and keep the listing order, either way round |
| Walker.DefaultConfig | benchmark_pddl.py:20-21 | without options: searches `astar`, `gbf`; heuristics `hmax`, `hadd`, `hff`, `blind`; timeout 5; at most 10 problems; no `--test-invalid` |
| Walker.Subdirectories | benchmark_pddl.py:234-236 | each listed entry is a visible subdirectory of the benchmark directory, and they come in listing order |
| Walker.SelectDomainDirs | benchmark_pddl.py:227-245 | None exactly for a non-directory; the directory alone when it holds a `.pddl` file; else visible subdirectories, each wanted by `--domains` when given, in the order of the subdirectory listing |
| Walker.SelectDomainDirsComplete | benchmark_pddl.py:234-242 | every visible subdirectory that `--domains` asks for, or every one without it, is walked |
| Walker.RowPairs | benchmark_pddl.py:317-321 | every pair of a row has the row's search, a requested heuristic, and passes the filter |
| Walker.Pairs | benchmark_pddl.py:316-321 | every pair has a requested search and heuristic and passes the filter |
| Walker.RowPairsMembership | benchmark_pddl.py:317-321 | one search is run with exactly the allowed heuristics asked for |
| Walker.PairsMembership | benchmark_pddl.py:316-321 | a pair is run exactly when both parts were asked for and `blind` is not paired with a search other than `astar` (unless `--test-invalid`) |
| Walker.RowPairsCount | benchmark_pddl.py:317-321 | a search other than `astar` drops each `blind` unless `--test-invalid` |
| Walker.PairsCount | benchmark_pddl.py:316-321 | the number of pairs is the cross product minus the skipped blind pairs |
| Walker.DefaultPairs | benchmark_pddl.py:316-321 | the default options give seven pairs, searches outer and heuristics inner |
| Walker.RunsWellBehaved | benchmark_pddl.py:325-331 | whatever the planner answers, each run's record is labelled with its inputs and is consistent |
| Walker.Kept | benchmark_pddl.py:268-271 | the kept problems are ordered by key, come from the listing, and number `--max-problems` or all of them when fewer (for a non-negative bound) |
| Walker.KeptIsPrefix | benchmark_pddl.py:268-271 | the kept problems are the first ones of the stably sorted list |
| Walker.Benchmark | benchmark_pddl.py:204-332 | the walk ends with the not-a-directory outcome exactly when the benchmark path is not a directory; otherwise it crashes or finishes with the records |
| Walker.WalkProblems | benchmark_pddl.py:275-299 | the problem loop ends finished or crashed |
| Walker.WalkDirs | benchmark_pddl.py:249-271 | the directory loop ends finished or crashed |
| Walker.Walk | benchmark_pddl.py:227-332 | the nested loops of `main` compute the specified walk |
| Walker.WalkKept | benchmark_pddl.py:275-332 | the problem loop computes the specified problem walk |
| Walker.WalkProblemsStep | benchmark_pddl.py:277-299 | one problem step: skip, crash on `blocksworld`, or append its runs |
| Walker.RunAllPairs | benchmark_pddl.py:316-332 | the two inner loops append the runs of the allowed pairs, in pair order |
| Walker.RunRow | benchmark_pddl.py:317-332 | the heuristic loop appends the runs of one search's allowed pairs |
| Walker.RunPairsConcat | benchmark_pddl.py:316-332 | running two lists of pairs is running one after the other |
| Walker.RunPairs | benchmark_pddl.py:316-332 | the append loops over the pairs add one record per pair and keep the earlier records in front |
| Walker.RunPairsAt | benchmark_pddl.py:325-332 | the record after `k` of the problem's runs is the run of the `k`-th pair, with its serial number |
| Walker.RunPairsShape | benchmark_pddl.py:316-332 | each appended record names the problem, its domain file and the pair's search and heuristic |
| Walker.RunPairsGood | benchmark_pddl.py:316-332 | appending the runs of allowed pairs keeps every record consistent and allowed |
| Walker.WalkProblemsGood | benchmark_pddl.py:275-332 | a finished problem loop keeps every record consistent and allowed |
| Walker.WalkDirsGood | benchmark_pddl.py:249-332 | a finished directory loop keeps every record consistent and allowed |
| Walker.BenchmarkRecordsGood | benchmark_pddl.py:247-332 | every record of a finished walk is consistent, and is no blind run of a search other than `astar` without `--test-invalid` |
| Walker.ResolvedCount | benchmark_pddl.py:277-279 | at most every problem resolves |
| Walker.WalkProblemsCount | benchmark_pddl.py:275-332 | a finished problem loop adds one record per pair per resolved problem and none for the rest, after the earlier records |
| Walker.UnresolvedProblem | benchmark_pddl.py:279-299 | an unresolved problem adds nothing, unless it declares `blocksworld`, which stops the walk |

## Left out

- The subprocess, the clock and the float runtime. The planner's answer and
  the elapsed seconds (non-negative) are inputs. `print` output, including
  the standard error the planner wrote, is not modelled.
- Argument parsing. The options are a `Config` value.
- Writing the CSV file itself: opening, quoting, and rendering the runtime
  and the flag as text. The model keeps the record dictionary, its keys in
  order, and the text of the sentinels.
- The summary table after the CSV file is written (averages, `inf`,
  `N/A`): floating-point aggregation only.
- The copy of `blockworld.pddl` to `blocksworld.pddl`. It is never reached:
  the guard raises first, so it is modelled as the crash it causes.
- The `--debug` read of the declared name (`benchmark_pddl.py:305-311`).
  Its `f.read()` is not guarded. A file whose first 2000 characters read
  but whose rest does not (an undecodable tail, a file removed meanwhile)
  passes the classifier and then raises there, which stops `main`. The
  model has no `--debug` option.
- Fs.Node: a file's text is readable in full or not at all. The model
  cannot express a file whose prefix reads and whose rest does not. Such a
  file would pass `is_problem_file` (`benchmark_pddl.py:180`) while the
  full reads of the resolver (`benchmark_pddl.py:116` and `:161`) fail and
  are swallowed; the model reads it either way alike.
- The progress printing of each record's counters, which does not change
  the record.
- Text.IsSpace, Text.IsDigit and Text.Lower: `\d`, `\s` and `str.lower`
  are limited to ASCII digits, Python's whitespace characters and ASCII
  letters. Non-ASCII digits and case mappings are not modelled.
- Text.NatTextRoundTrip, Ordering.KeyOf, Runner.ExpandedNodes,
  Runner.PlanLength: no limit on the length of an integer's digits. Python
  refuses conversions of more than 4300 digits. In `run_benchmark`
  (`benchmark_pddl.py:61` and `:66`) that error is caught and the record
  gets the `error: ` sentinel in both counters; the model reads the number.
- Fs.Match: `[...]` character classes in patterns. None of the driver's
  patterns have one unless a directory or domain name supplies it.
- Fs.Glob: patterns are matched within one directory. Path spellings
  (`..`, trailing separators, names with `/`) are not modelled.
- Fs.Glob: a directory name holding `*`, `?` or `[` is taken literally.
  Python's `glob` treats it as a pattern, because it looks for wildcards
  in the whole joined path.
- Ordering.Sort: Python's sort is timsort; the model is an insertion
  sort. Both are stable sorts by the same key, so the result is the same.
  The comparisons Python makes between mixed keys are not modelled; that
  case is the crash.
- Fs.Listing, Walker.SelectDomainDirs, Classifier.ProblemFiles: every
  directory of the model can be listed. In Python, `os.listdir` on an
  unreadable benchmark directory (`benchmark_pddl.py:229` and `:235`)
  raises `PermissionError` and stops `main`, while `glob.glob` on an
  unreadable domain directory (`benchmark_pddl.py:195`) returns nothing,
  so its problems are skipped. Neither path is modelled.
- Fs.Exists: there are no symbolic links. The candidate test
  (`benchmark_pddl.py:133`) uses `os.path.exists`, which is false for a
  broken link, while a pattern without wildcards in `glob.glob` uses
  `os.path.lexists`, which is true for it; the model cannot tell the two
  apart.
- Runner.RunBenchmark: the `print` of the planner's standard error
  (`benchmark_pddl.py:68`) is inside the `try`. If it raises, a finished
  run is recorded with the `error: ` sentinel. The planner's observation
  is unconstrained, so `Failed(message)` covers that case, but the model
  does not derive it from the print.
- Runner.Consistent: the error sentinel is `"error: " + str(e)`; the
  exception's text is an input, not derived from an exception object.
