# modd: the filter package and the command's orchestration loop

modd watches a file tree and, when files change, runs each rule block's
"prep" commands and restarts the block's daemons. This project models two
parts of it in Dafny and proves properties of the model.

- **The filter package**, whose behaviour is fixed by its test table:
  - `Files` keeps the changed paths that match an include pattern and no
    exclude pattern;
  - `BasePath` and `GetBasePaths` compute the directories to watch;
  - `Find` walks a tree, pruning excluded directories, and returns the
    kept files in sorted order.
- **The `modd` command** (`cmd/modd/main.go`):
  - `prepsAndNotify` decides between "proceed", "skip this block" and
    "fatal error";
  - `run` first sets up each block: it adds the common excludes in place,
    runs the block's preps and starts its daemons;
  - `run` then dispatches every batch of changes to each block in order,
    or reloads the config when the config file itself changed;
  - `main` reads the config and calls `run` again after every reload.

Modules:

| file | module | contents |
|---|---|---|
| `paths.dfy` | `Paths` | splitting and joining `/`-separated paths, prefixes, "covers" (a path at or below a directory) |
| `glob.dfy` | `Glob` | the glob patterns the filter uses: parsing, "malformed", matching, and the match laws the filter relies on |
| `filter.dfy` | `Filter` | `Files`, `BasePath`, `GetBasePaths` and their laws |
| `sort.dfy` | `Sorting` | the string order of the result of `Find` and a sort proved to be a sorted permutation |
| `find.dfy` | `FindFiles` | `Find` over an in-memory tree and its relation to filtering all files |
| `examples.dfy` | `FilterExamples` | every row of the package's test tables, proved about the model: results, and the error column where the model has one |
| `modd.dfy` | `Orchestrator` | `prepsAndNotify`, setup, batch dispatch, one run and the reload loop |
| `modd_examples.dfy` | `OrchestratorExamples` | a two-block session proved end to end |

`Files` and `Find`, and the `run` and `main` loops, are `method`s with
loops. Each is proved equal to a specification function: `Kept`,
`SortStrings(Walk(...))`, `BatchFrom`, `DispatchFrom`, `RunSpec` and
`ModdSpec`. The lemmas state what those functions guarantee.

The config's rule blocks are a `Config` class holding an `array<Block>`.
Setup rewrites it in place, the way `run` assigns `cnf.Blocks[i]`.

The collaborators of `main.go` are oracles in `Orchestrator.Env`:
- reading the config file;
- `conf.Parse`;
- `modd.RunPreps`;
- `Config.WatchPaths`;
- whether `watch.Watch` fails to start;
- the list `watch.CommonExcludes`.

The watcher's channel is a finite sequence of batches, where `None` stands
for a nil batch, and the end of the sequence stands for the channel being
closed. The oracles that read the file system or run commands (reading
the config file, running preps, starting the watcher) receive the number
of batches received so far. Two such calls at different moments can
therefore answer differently, while the model stays a function of its
inputs. `conf.Parse`, `Config.WatchPaths` and `watch.CommonExcludes` take
no such argument: they depend only on what they are given.

On these points the code and its tests behave in ways one might not
expect, and the model follows them:
- A filter with no include patterns keeps nothing
  (`filter/filter_test.go:15-21`, `53-58`), not everything.
- `GetBasePaths` keeps `"."` beside absolute roots (`filter/filter_test.go:113`,
  `115`). `"."` covers only relative paths.
- In prep-only mode the command exits with status 0 even when a prep fails
  (`cmd/modd/main.go:94-98`, `112-114`); `Orchestrator.PrepOnlyExitsZero`.
- A prep error during setup that is not a failed command ends the whole
  command with status 0 (`return nil` at `cmd/modd/main.go:97`). It is not
  scoped to its block.
- A reload does not stop the old run's daemons: `run` returns without
  shutting its pens down.

## Model

| member | source | states |
|---|---|---|
| Filter.Files | filter/filter_test.go:69-82 | the result is exactly the input paths that match some include and no exclude, in input order; the error is the first malformed pattern among includes then excludes, and it comes beside the full result |
| Filter.MatchAny | filter/filter_test.go:69-82 | true exactly when some pattern of the list matches the path |
| Filter.FirstMalformed | filter/filter_test.go:36-44 | none exactly when every pattern parses; otherwise a malformed pattern of the list with no malformed pattern before it |
| Filter.KeptMember | filter/filter_test.go:22-35 | a path is in the result exactly when it is in the input, matches an include and matches no exclude |
| Filter.KeptConcat | filter/filter_test.go:22-35 | filtering a concatenation is the concatenation of the filtered parts: input order is preserved |
| Filter.KeptIdempotent | filter/filter_test.go:22-35 | filtering the result again with the same patterns changes nothing |
| Filter.KeptNoIncludes | filter/filter_test.go:15-21 | with no include pattern nothing is kept, whatever the excludes |
| Filter.MalformedExcludeIgnored | filter/filter_test.go:36-44 | a malformed exclude removes nothing (the result equals the one without it) and an error is reported |
| Filter.MalformedIncludeIgnored | filter/filter_test.go:36-44 | a malformed include adds nothing and an error is reported |
| Filter.FirstWild | filter/filter_test.go:84-96 | the index of the first segment holding a wildcard: every earlier segment is literal |
| Filter.BaseDepth | filter/filter_test.go:84-96 | the base directory's depth: its segments are literal, and it stops at the first wildcard segment or before the last segment |
| Filter.BasePathCoversMatches | filter/filter_test.go:84-96 | every path a pattern matches, relative or absolute like the pattern, lies at or below the pattern's base path |
| Filter.LiteralPrefixOfMatch | filter/filter_test.go:84-96 | the base-path segments of a pattern are the leading segments of every path it matches |
| Filter.BasePathIsLiteralPrefix | filter/filter_test.go:84-96 | the base path is "." or a prefix of the pattern, and has no wildcard |
| Filter.BasePath | filter/filter_test.go:84-105 | the base path is never empty: "." when the pattern has no literal directory in front |
| Filter.BasePathExamplesLiteral | filter/filter_test.go:88-91 | the base paths of "foo", "test/foo", "test/foo*" and "test/*.**" |
| Filter.BasePathExamplesWild | filter/filter_test.go:92-93 | the base paths of "**/*" and "foo*/bar" are "." |
| Filter.BasePathExamplesGlobstar | filter/filter_test.go:94 | the base path of "foo/**/bar" is "foo" |
| Filter.WatchBaseExamplesAbsolute | filter/filter_test.go:95 | the base path of "/voing/**" is "/voing" (and of "/bar/**" is "/bar") |
| Filter.AppendBase | filter/filter_test.go:118-126 | adding one root is `AddBase`: unchanged when an existing root covers it, otherwise it replaces the roots it covers or is appended |
| Filter.GetBasePaths | filter/filter_test.go:118-126 | the roots are the base paths of the patterns added in order to the given roots |
| Filter.AddBaseOrder | filter/filter_test.go:107-126 | adding a root keeps the order of the roots: unchanged when a root covers it; otherwise the new root takes the place of the first root it covers and the later covered roots are dropped, or, covering none, it is appended |
| Filter.DisplaceOrder | filter/filter_test.go:107-126 | where the new root goes: at the first root it covers, the roots before that one unchanged, or at the end |
| Filter.DisplaceAt | filter/filter_test.go:107-126 | when the new root covers some root, it takes the first one's place, the roots before it are unchanged and the later covered roots are dropped |
| Filter.FirstCovered | filter/filter_test.go:107-126 | the index of the first root the new base path covers: no root before it is covered |
| Filter.Uncovered | filter/filter_test.go:107-126 | the roots the new base path does not cover, and only those |
| Filter.AddBaseMinimal | filter/filter_test.go:107-126 | adding a root keeps the list free of a root that covers another |
| Filter.AddBaseCovers | filter/filter_test.go:107-126 | after adding a root it is covered, and every path covered before is still covered |
| Filter.AddBaseProvenance | filter/filter_test.go:107-126 | every root after adding was there before or is the new one |
| Filter.BasePathsOfMinimal | filter/filter_test.go:107-126 | no root of the result covers another |
| Filter.BasePathsOfKeepsCovered | filter/filter_test.go:107-126 | what the initial roots cover stays covered |
| Filter.BasePathsOfCoversBases | filter/filter_test.go:107-126 | the base path of every pattern is covered by the result |
| Filter.BasePathsOfProvenance | filter/filter_test.go:107-126 | every root of the result is an initial root or the base path of some pattern |
| Filter.RootAloneAmongRelative | filter/filter_test.go:113-115 | in a minimal list holding ".", every other root is absolute |
| Filter.GetBasePathsMinimal | filter/filter_test.go:107-126 | from no roots, the result is minimal and repeats nothing, and when a pattern has base "." every other root is absolute |
| Filter.WatchRootsCoverMatches | filter/filter_test.go:107-126 | every path a pattern matches on the pattern's own side, relative or absolute, lies at or below one of the computed watch roots |
| Filter.AddBaseExamples | filter/filter_test.go:111-115 | the single steps the test rows take: "." absorbs "foo", and "." and "/voing" coexist |
| Filter.GetBasePathsExamplesRelative | filter/filter_test.go:111-114 | ["foo"], ["foo","bar"] and ["foo/**","**"] give ["."] |
| Filter.GetBasePathsExamplesVoing | filter/filter_test.go:113 | ["foo","bar","/voing/**"] gives [".", "/voing"] |
| Filter.GetBasePathsExamplesBar | filter/filter_test.go:115 | ["foo/**","**","/bar/**"] gives [".", "/bar"] |
| Glob.MalformedSegments | filter/filter_test.go:36-44 | a pattern is malformed exactly when one of its segments fails to parse |
| Glob.ParseSegmentsNone | filter/filter_test.go:36-44 | a list of segments fails to parse exactly when one of them does |
| Glob.MatchSegmentCount | filter/filter_test.go:22-66 | only a well-formed pattern matches anything; without `**`, wildcards never cross a `/`, so an unanchored pattern matches only paths with as many segments, an anchored one only paths with at least as many |
| Glob.UnclosedClassIsMalformed | filter/filter_test.go:36-44 | a pattern with "[" and no "]" is malformed and matches no path |
| Glob.StarMatchesOneSegment | filter/filter_test.go:22-28 | "*" matches exactly the paths without a "/" |
| Glob.GlobstarStarMatchesAll | filter/filter_test.go:60-66 | "**/*" matches every path, relative or absolute |
| Glob.GlobstarMatchesAll | filter/filter_test.go:133-137 | "**" matches every path |
| Glob.LiteralMatchesItself | filter/filter_test.go:148-152 | a pattern without wildcards matches exactly the path equal to it |
| Glob.AnchoredLiteralMatchesSubtree | filter/filter_test.go:153-157 | "d/" matches d and everything below it |
| Glob.AffixMatches | filter/filter_test.go:46-52 | "pre*suf" matches exactly the one-segment paths that start with pre and end with suf, without overlap |
| Glob.GlobstarSuffixMatches | filter/filter_test.go:138-142 | "**/*suf" matches exactly the paths whose last segment ends with suf |
| Sorting.SortStringsSorts | filter/filter_test.go:165-178 | the sort returns a sorted permutation of its input |
| Sorting.SortedUnique | filter/filter_test.go:165-178 | two sorted permutations of the same strings are equal, so the result does not depend on walk order |
| Sorting.SortStringsSortedIdentity | filter/filter_test.go:165-178 | sorting a sorted list changes nothing |
| FindFiles.WalkEntries | filter/filter_test.go:165-178 | the explicit-stack walk returns exactly `Walk`: entries in order, excluded entries skipped, excluded directories not entered (`ExcludedDirPruned`), files an include matches emitted |
| FindFiles.Find | filter/filter_test.go:165-178 | the result is the walk's output sorted: sorted, and the same multiset of paths |
| FindFiles.WalkSound | filter/filter_test.go:128-163 | every path found is a file of the tree that matches an include and no exclude |
| FindFiles.WalkIsFilesOverLeaves | filter/filter_test.go:153-157 | when an excluded directory's contents are excluded too, the walk equals filtering all files of the tree |
| FindFiles.WalkWithoutPruning | filter/filter_test.go:143-147 | when no directory is excluded, the walk equals filtering all files of the tree |
| FindFiles.ExcludedDirPruned | filter/filter_test.go:148-152 | nothing below a directory an exclude matches is found, for any exclude, including one such as "a" that matches the directory and none of its files |
| FindFiles.WalkNoExcludedAncestor | filter/filter_test.go:148-157 | no directory between the walk's start and a path it emits is matched by an exclude |
| FindFiles.VisitNoExcludedAncestor | filter/filter_test.go:148-157 | the same for one entry and its subtree |
| FindFiles.WalkComplete | filter/filter_test.go:128-163 | the walk finds every file of the tree that passes the filter and lies in no excluded directory |
| FindFiles.VisitComplete | filter/filter_test.go:128-163 | the same for one entry and its subtree |
| FindFiles.FindExactly | filter/filter_test.go:165-178 | a path is in the result exactly when it is a file of the tree, an include and no exclude match it, and no directory above it is matched by an exclude |
| FindFiles.FindLiteralExclude | filter/filter_test.go:148-152 | excluding a plain name such as "a" omits exactly that entry and every path below it, and nothing else an include matches |
| FindFiles.FindAnchoredExclude | filter/filter_test.go:153-157 | excluding "d/" removes exactly the files at or below d |
| FindFiles.FindWithoutExcludes | filter/filter_test.go:133-142 | with no exclude, exactly the files an include matches are found |
| FilterExamples.FilesExamplesNoIncludes | filter/filter_test.go:15-21 | nil includes keep nothing, with or without excludes, and report no error (also the row at 53-58) |
| FilterExamples.FilesExampleStar | filter/filter_test.go:22-28 | "*" keeps all five files and reports no error |
| FilterExamples.FilesExampleExcludeGo | filter/filter_test.go:29-35 | excluding "*.go" keeps main.cpp, main.h and bar.py, with no error |
| FilterExamples.FilesExampleMalformedExclude | filter/filter_test.go:38-44 | the exclude "[[" removes nothing and is reported |
| FilterExamples.FilesExampleMainWithoutCpp | filter/filter_test.go:46-52 | "main.*" without "*.cpp" keeps main.go and main.h, with no error |
| FilterExamples.FilesExampleGlobstarStar | filter/filter_test.go:60-66 | "**/*" keeps foo, /test/foo and /test/foo.go, with no error |
| FilterExamples.FindExampleAll | filter/filter_test.go:133-137 | "**" finds all six files in sorted order |
| FilterExamples.FindExampleIncludeAnywhere | filter/filter_test.go:138-142 | "**/*.test1" finds a/a.test1, b/a.test1 and x.test1 |
| FilterExamples.FindExampleExcludeTopLevel | filter/filter_test.go:143-147 | excluding "*.test1" drops only x.test1 |
| FilterExamples.FindExampleExcludeDir | filter/filter_test.go:148-152 | excluding "a" drops directory a and its files |
| FilterExamples.FindExampleExcludeAnchored | filter/filter_test.go:153-157 | excluding "a/" drops directory a and its files |
| FilterExamples.FindExampleExcludeAnywhere | filter/filter_test.go:158-162 | excluding "**/*.test1" and "**/*.test2" leaves only x |
| Orchestrator.PrepsAndNotify | cmd/modd/main.go:57-76 | the block proceeds exactly when the preps succeed; the error is returned exactly when it is not a failed command, and it is that error |
| Orchestrator.Augment | cmd/modd/main.go:89-92 | only the excludes change, and they get the common excludes appended unless the block opts out |
| Orchestrator.AugmentNarrows | cmd/modd/main.go:89-92 | an augmented block keeps exactly the paths it kept before that no common exclude matches |
| Orchestrator.FirstFatal | cmd/modd/main.go:88-98 | the first block whose setup prep fails with a non-command error; none before it fails so |
| Orchestrator.Config.constructor | cmd/modd/main.go:186 | a config holds the parsed blocks in order |
| Orchestrator.Setup | cmd/modd/main.go:87-114 | blocks up to the first fatal one get the common excludes in place and the rest are untouched; the fatal error is returned exactly when there is one; daemons start exactly for the blocks before it, and never in prep-only mode |
| Orchestrator.StepBlockCases | cmd/modd/main.go:148-167 | a block restarts exactly when its patterns parse, the batch keeps some of its paths and its preps succeed; it is fatal exactly when those preps fail with a non-command error |
| Orchestrator.Steps | cmd/modd/main.go:148-167 | one step per block, step i being block i's `StepBlock` |
| Orchestrator.BatchFrom | cmd/modd/main.go:148-167 | the blocks restarted form a strictly increasing list of block indices |
| Orchestrator.BatchRestartIff | cmd/modd/main.go:148-167 | a block is restarted exactly when its own step restarts and no earlier block failed fatally |
| Orchestrator.BatchFatalIff | cmd/modd/main.go:158-162 | the batch is fatal exactly when some block is, with the first such block's error |
| Orchestrator.HandleBlock | cmd/modd/main.go:148-166 | one block's share of a batch (filter it, skip on a filter error or when nothing is left, otherwise run the preps and restart, skip or fail) is exactly the step `StepBlock` gives |
| Orchestrator.DispatchBatch | cmd/modd/main.go:148-167 | the loop over the blocks restarts and fails exactly as `BatchFrom` over the blocks' steps says |
| Orchestrator.DispatchFrom | cmd/modd/main.go:129-169 | the batches consumed stay within the stream; a reload consumes at least one batch; a run never exits the process while dispatching; every restart names a block |
| Orchestrator.NoReloadWithoutWatchedConfig | cmd/modd/main.go:130 | without a watched config file no batch reloads |
| Orchestrator.ConfigBatch | cmd/modd/main.go:130-143 | a batch holding the config path reloads when the file reads and parses, and no block sees it; otherwise the batch is dropped and the same blocks go on |
| Orchestrator.BlockBatch | cmd/modd/main.go:148-167 | any other batch restarts the blocks `BatchFrom` gives, and a fatal prep error ends the run after it |
| Orchestrator.HandleBatch | cmd/modd/main.go:130-167 | a received batch either ends the run where `DispatchFrom` ends it, with the same restarts, or leaves the rest of the run to the next batch after its own restarts |
| Orchestrator.Dispatch | cmd/modd/main.go:129-169 | the receive loop ends, restarts and consumes exactly as `DispatchFrom` says |
| Orchestrator.WatchList | cmd/modd/main.go:116-119 | the watched paths are the config's roots, plus the config file exactly when it is watched |
| Orchestrator.RunSpec | cmd/modd/main.go:78-170 | a run exits only with status 0 or 1, a reload consumes a batch, and in prep-only mode nothing restarts and nothing reloads |
| Orchestrator.SetupFatalStops | cmd/modd/main.go:94-98 | a fatal setup prep in any block ends the run with no restart and no reload |
| Orchestrator.Run | cmd/modd/main.go:78-170 | one run (listing, setup, prep-only exit, watcher start, dispatch) ends as `RunSpec` says of the blocks it started with |
| Orchestrator.ModdReloadStep | cmd/modd/main.go:195-200 | after a reload the command's status is the next run's, and its restarts are the reloading run's followed by the rest |
| Orchestrator.ModdSpec | cmd/modd/main.go:182-200 | the command exits with 0 or 1, and with 1 and no restart when the config cannot be read or parsed at start |
| Orchestrator.ModdFrom | cmd/modd/main.go:195-200 | the command's exit status is 0 or 1 |
| Orchestrator.ModdFromStep | cmd/modd/main.go:195-200 | a reload continues with the new blocks and keeps the restarts so far; any other end is the command's end |
| Orchestrator.Modd | cmd/modd/main.go:182-200 | reading, parsing and the loop over runs give exactly the status and restarts of `ModdSpec` |
| Orchestrator.PrepOnlyExitsZero | cmd/modd/main.go:107-114 | in prep-only mode, once the config is read, the command restarts nothing and exits with 0, even when a prep fails |
| Orchestrator.NoconfSingleRun | cmd/modd/main.go:190-193 | with --noconf the command is a single run |
| OrchestratorExamples.GoPythonBatch | cmd/modd/main.go:148-167 | a batch touching only x.go restarts the Go block alone |
| OrchestratorExamples.GoPythonSession | cmd/modd/main.go:182-200 | a whole session on that config and batch restarts the Go block once and exits with 0 |

## Left out

- The filter package's own source (`filter/filter.go`) is not part of this model. `Files`, `BasePath`, `GetBasePaths` and `Find` follow its tests (`filter/filter_test.go`).
- Glob matching: brace alternatives (`{a,b}`) and `\` escapes are not modelled; those characters match literally. `BasePath` still treats `{` and `}` as wildcards.
- Filter.BasePath: the path cleanup is limited to trailing slashes and the empty path; `.` and `..` segments and doubled slashes are not normalised.
- FindFiles.Find: the tree is an in-memory value, so file-system errors, symbolic links and the root path argument are left out. Paths are relative to the root.
- Filter.Files: which error it returns is the model's choice. The tests do not fix it: `filter/filter_test.go:72` only checks that no error comes when none is expected, and the row at 36-44 does not check that one comes. The model reports the first malformed pattern, includes before excludes, whatever the paths, even for an empty list. `Orchestrator.StepBlockCases` (a block restarts only when its patterns parse, `cmd/modd/main.go:149-153`) rests on this choice.
- FindFiles.Find: has no error result, while the source's `Find` returns one (`filter/filter_test.go:167-170`). A malformed include or exclude pattern is not reported there: it silently matches nothing.
- GetBasePaths: order is stated one step at a time (`AddBaseOrder`) and by the test rows; there is no closed form for the order after the whole fold.
- Sorting.SortStrings: the standard library's sort is modelled as an insertion sort with the same result, a sorted permutation, which is unique.
- The watcher (`watch.Watch`), its lull time and its channel: the stream of batches is given as a finite sequence. Its end is read as the channel being closed: the `range` loop ends, `run` returns nil (`cmd/modd/main.go:169`) and the command exits with 0. `OrchestratorExamples.GoPythonSession`'s exit status rests on this reading.
- Orchestrator.DispatchFrom: a batch's `Has` on a nil batch is taken as false, so a nil batch ends the run with `break` and the command with status 0.
- The daemon pens: processes are not modelled. Setup records which blocks' daemons were started, and dispatch records the restarted block indices. Shutdown on a signal and its `os.Exit(0)` goroutine are left out.
- Orchestrator.Run: listing the common excludes with `--ignores` exits with status 0, but the printing is left out.
- `kingpin` flag parsing, `--debug`, `--bell`, desktop notifications and all logging: the bell and the notifier only have output effects in `prepsAndNotify`.
- Block variables (`GetVariables`) are not passed to the prep oracle.
- `modd.RunPreps`, `conf.Parse`, `Config.WatchPaths` and `watch.CommonExcludes` are oracles: their code is not part of this model.
