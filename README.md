# Secure-check scanner: the rule-matching and pass/fail engine

This project models the core of `scanner.py`, a line-oriented security scanner that runs as a
pre-commit gate (local mode) and as a repository check (ci mode). The scanner loads a list of
rules. Each rule has an id, a regular-expression pattern, a language, a severity name and a message.
It applies the rules of a file's language to every line of every Python file. A line holding
`# nosec` is skipped. The run is blocked when some finding's severity ranks at or above the fail
level, and the process exits with status 1 when blocked and 0 otherwise.

Modules, one per component of the scanner:

- `Seqs`: `Option`, an order-preserving `Filter` and `ConcatMap`. `Filter` stands for the one list
  comprehension (the applicable rules) and for the two loops that append only some elements (the
  staged files and the matching rules).
- `Text`: Python's `needle in hay` (`Contains`) and `str.strip()` (`Strip`), and the marker `# nosec`.
- `Paths`: pathlib's `Path.name` and `Path.suffix` for POSIX paths, and `get_language`. The suffix
  follows pathlib up to Python 3.13: a name whose last dot is its first or its last character has
  no suffix. This decides no ".py" case.
- `Severity`: the table `SEVERITY_ORDER` and the fail levels the command line accepts.
- `Rules`: the rule record and the per-language selection of rules.
- `LineScanner`: `Finding`, the specification `Scan` of a file's findings, and `ScanFile`, the
  nested loop of `scan_file`, proved equal to it.
- `Policy`: the `blocked` fold of `main` as a function `DecideFrom`, the loop `FoldBlocked` proved
  equal to it, and the properties of the fold.
- `Run`: `get_staged_files` (`GetStagedFiles`) and `main` (`RunScan`), each proved equal to a
  specification function (`StagedFiles`, `RunOutcome`), with lemmas about the exit status.

Everything outside the process is a parameter. `re.search` becomes a relation `Matcher` on
(pattern, line). `Path.exists`, `Path.is_file`, `Path.is_dir`, the result of `rglob("*.py")` and
the lines of a file's text are fields of a `FileSystem` value. The output of `git diff --cached`
is a sequence of lines. `sys.exit(n)` becomes the result `Exit(n)`. The uncaught `KeyError` that
`SEVERITY_ORDER[severity]` raises for an unknown severity name becomes `Crash(name)`.

Determinism: `ScanFile`, `FoldBlocked` and `RunScan` are proved equal to functions of their
inputs. So scanning the same lines with the same rules twice gives the same findings. Two runs
that differ only in the fail level judge the same findings, because `AllFindings` does not take
the fail level.

Where the code and the design description of the scanner disagree, the model follows the code:

- Rules are not validated when they are loaded. A severity name outside LOW, MEDIUM and HIGH
  fails only when a finding of that rule is judged, with a `KeyError`. The run then ends at that
  finding, and Python exits with status 1, the same status as a blocked run.
- A file that cannot be read is not skipped with a warning. `read_text` raises, and nothing
  catches the exception.
- Candidate files are not deduplicated. Overlapping targets are scanned once per target.

## Model

| member | source | states |
|---|---|---|
| `Severity.Lookup` | scanner.py:9-13 | the table knows exactly LOW, MEDIUM and HIGH, with ranks between 1 and 3; any other name has no rank (the KeyError case) |
| `Severity.Rank` | scanner.py:117 | the threshold of a fail level is the table's rank for the level's name |
| `Severity.RankOrder` | scanner.py:9-13 | LOW ranks below MEDIUM, which ranks below HIGH; distinct levels have distinct ranks |
| `Severity.LookupLevels` | scanner.py:9-13 | a name has a rank exactly when it is the name of one of the three fail levels |
| `Paths.NameShape` | scanner.py:25 | `Path.name` is one segment: it contains no '/', is never ".", and is no longer than the path |
| `Paths.FinalSegmentShape` | scanner.py:25 | the last segment is the text after the last '/', preceded by '/' unless it is the whole path |
| `Paths.FinalSegmentAfterSlash` | scanner.py:25 | whatever precedes the last '/', the final segment is exactly the text after it |
| `Paths.Name` | scanner.py:25 | pathlib's `.name` as the last segment that is neither empty nor "."; no contract of its own: `NameShape`, `NameLastSegment`, `NameTrailingSlash` and `NameTrailingDot` characterise it |
| `Paths.NameLastSegment` | scanner.py:25 | the name of q/c is c for any q, when c is a segment other than "" and "." |
| `Paths.NameTrailingSlash` | scanner.py:25 | a trailing '/' does not change the name |
| `Paths.NameTrailingDot` | scanner.py:25 | a trailing "/." segment does not change the name |
| `Paths.LastIndexOf` | scanner.py:25 | the `rfind` inside pathlib's suffix: a position holding the character with no later occurrence, and None exactly when the character does not occur |
| `Paths.Suffix` | scanner.py:44 | pathlib's `.suffix`; no contract of its own: `SuffixShape`, `SuffixOfLastDot` and `SuffixIsPy` characterise it |
| `Paths.SuffixOfLastDot` | scanner.py:25 | given the position of the name's last dot, the suffix is the text from it when it is neither first nor last, and empty otherwise |
| `Paths.SuffixShape` | scanner.py:25 | the suffix is decided by the name's last dot: it is the text from that dot on when the dot is neither the name's first nor its last character, and empty otherwise or when the name has no dot; a non-empty suffix ends the name and holds no further dot |
| `Paths.SuffixIsPy` | scanner.py:25 | the suffix is ".py" exactly when the name ends in ".py" with at least one character before the dot |
| `Paths.NameNoSlash` | scanner.py:25 | a path that is a single segment other than "." is its own name |
| `Paths.GetLanguage` | scanner.py:24-27 | the only language ever returned is "python" |
| `Paths.GetLanguageIsPython` | scanner.py:24-27 | a path is "python" exactly when its name ends in ".py" after at least one character; every other path has no language |
| `Paths.PythonModuleExample` | scanner.py:24-27 | "app.py" is Python |
| `Paths.SourceModuleExample` | scanner.py:24-27 | "src/app.py" is Python |
| `Paths.TrailingDotExample` | scanner.py:24-27 | "pkg/m.py/." is Python, because pathlib drops the trailing "." segment |
| `Paths.TextFileExample` | scanner.py:24-27 | "notes.txt" has no language |
| `Paths.DotPyNameExample` | scanner.py:24-27 | "dir/.py" has no language, because a leading dot does not start a suffix |
| `Rules.ApplicableRules` | scanner.py:146-148 | every selected rule has the file's language, and there are no more of them than rules |
| `Rules.ApplicableRulesExactly` | scanner.py:146-148 | a rule is selected exactly when it has the file's language; the selection keeps the rules' relative order and takes every matching position |
| `Text.Strip` | scanner.py:72 | the stripped code is the line minus whitespace at both ends: it neither starts nor ends with whitespace, and all that was removed is whitespace |
| `Text.StripUnpadded` | scanner.py:72 | a line with no whitespace at either end is reported unchanged as the code |
| `Text.Contains` | scanner.py:64 | Python's `needle in hay`; no contract of its own: `ContainsInfix` and `NotContainsWithoutFirstChar` give both sides |
| `Text.ContainsInfix` | scanner.py:64 | the marker is found wherever it sits in the line, so code followed by "# nosec" is suppressed |
| `Text.NotContainsWithoutFirstChar` | scanner.py:64 | a line without the marker's first character ('#') does not contain the marker |
| `LineScanner.MatchingRules` | scanner.py:67-68 | every rule listed matches the line |
| `LineScanner.MatchingRulesExactly` | scanner.py:67-68 | a rule is listed exactly when its pattern matches the line; the list keeps the rules' relative order and takes every matching position |
| `LineScanner.RuleFindings` | scanner.py:67-74 | every finding names the file, the line number, the stripped line, and a rule of the list whose pattern matches the line |
| `LineScanner.LineFindings` | scanner.py:63-74 | all findings of a line carry that line's number |
| `LineScanner.Scan` | scanner.py:63-74 | every finding's line number is between 1 and the number of lines |
| `LineScanner.ScanFile` | scanner.py:59-76 | the nested loops return exactly `Scan` of the lines and rules, so rescanning gives the same sequence |
| `LineScanner.ScanReported` | scanner.py:63-74 | every finding names the scanned file, a line in range, that line's stripped text, and a rule from the list that matches the line; the line is not suppressed |
| `LineScanner.RuleFindingsFollowMatchingRules` | scanner.py:67-74 | an unsuppressed line gives one finding per matching rule, in rule order, and no early exit |
| `LineScanner.ScanOnLine` | scanner.py:63-74 | the findings reported on line n are exactly that line's own findings |
| `LineScanner.ScanBeyondEnd` | scanner.py:63 | nothing is reported on a line number past the end of the file |
| `LineScanner.LineFindingsOnLine` | scanner.py:63-74 | a line's findings are reported on that line and on no other |
| `LineScanner.SuppressedLineHasNoFindings` | scanner.py:64-65 | a line containing "# nosec" has no finding, however many rules match it |
| `LineScanner.UnsuppressedLineFindings` | scanner.py:67-74 | on any other line, the number of findings equals the number of matching rules, listed in rule order with the file, the line number and the stripped line |
| `LineScanner.ScanOrdered` | scanner.py:63 | findings come out in ascending line order |
| `Policy.DecideFrom` | scanner.py:152-164 | the fold of `blocked` over the findings; no contract of its own: `FoldBlocked` computes it, and `DecideWhenAllKnown`, `DecideWhenSomeUnknown`, `StaysBlocked` and `ThresholdMonotone` characterise it |
| `Policy.DecideAppend` | scanner.py:152-164 | judging two runs of findings one after the other is judging their concatenation |
| `Policy.UnknownPersists` | scanner.py:163 | once a KeyError is raised, later findings cannot change the result |
| `Policy.FoldBlocked` | scanner.py:152-164 | the loop over one file's findings computes the fold `DecideFrom` |
| `Policy.DecideWhenAllKnown` | scanner.py:163-164 | when all severities are known, the flag ends true exactly when it started true or some finding ranks at or above the threshold |
| `Policy.UnknownIffSomeUnknown` | scanner.py:163 | the fold raises a KeyError exactly when some finding's severity is not in the table |
| `Policy.UnknownNamesFirst` | scanner.py:152-163 | when the fold fails, it returns the position of the first finding with an unknown severity, and the error names that finding's severity |
| `Policy.DecideWhenSomeUnknown` | scanner.py:163 | the fold fails exactly when some severity is unknown, and it names the first such finding's severity |
| `Policy.StaysBlocked` | scanner.py:163-164 | once the flag is set, no later finding resets it |
| `Policy.ThresholdMonotone` | scanner.py:163 | a lower threshold never unblocks, and whether the fold fails does not depend on the threshold |
| `Run.Targets` | scanner.py:121-133 | the targets: the staged files in local mode, the command-line targets in ci mode; `LocalRunScansStagedFiles` gives what a local run scans |
| `Run.IterPythonFiles` | scanner.py:51-55 | a file target is itself, a directory target the paths `rglob` lists, anything else nothing; `CiCandidateFiles` states the files a ci run scans |
| `Run.TargetFiles` | scanner.py:135-139 | the files of one target: `iter_python_files` in ci mode, the target alone in local mode; `LocalCandidateFiles` and `CiCandidateFiles` characterise it |
| `Run.CiCandidateFiles` | scanner.py:135-139 | a ci run scans a file exactly when some target is that file, or is a directory (and not a file) under which `rglob` lists it |
| `Run.LocalCandidateFiles` | scanner.py:135-139 | in local mode the files scanned are the targets themselves, in order |
| `Run.LocalRunScansStagedFiles` | scanner.py:121-139 | a local run scans exactly the staged Python files, in the order git lists them |
| `Run.FileFindings` | scanner.py:141-150 | one file's findings; no contract of its own: `FileFindingsReported` and `JudgeFile` characterise it |
| `Run.FileFindingsReported` | scanner.py:141-150 | a file without a language has no findings; every finding of a file is one `scan_file` may report on its lines, for a Python rule of the list |
| `Run.RunOutcome` | scanner.py:114-171 | how `main` ends; the status of an exit is always 0 or 1, and `ExitStatus` says which |
| `Run.StagedFiles` | scanner.py:41-47 | every kept path exists and has suffix ".py" |
| `Run.GetStagedFiles` | scanner.py:41-47 | the loop returns exactly the staged-file filter of git's output |
| `Run.StagedFilesExactly` | scanner.py:41-47 | a path is kept exactly when it is listed, exists and has suffix ".py"; the kept paths keep their input order, and none is dropped |
| `Run.RunDecideAppend` | scanner.py:135-164 | judging the files a then b is judging a, then b from where a left the flag |
| `Run.JudgeFile` | scanner.py:141-164 | one file: skip it without a language, else scan it with its language's rules and judge the findings |
| `Run.JudgeFiles` | scanner.py:141-164 | the loop over one target's files computes the fold over their findings, stopping at a KeyError |
| `Run.JudgeTargets` | scanner.py:135-164 | the loop over the targets computes the fold over the findings of all their files, in target order, stopping at a KeyError |
| `Run.RunStopsAtUnknown` | scanner.py:163 | a KeyError in the findings of some files ends the run before any later file is judged |
| `Run.RunScan` | scanner.py:114-171 | `main` ends as `RunOutcome` says: exit 0 for an empty staged list, a crash on an unknown severity, otherwise exit 1 if blocked and 0 if not |
| `Run.ExitStatus` | scanner.py:166-171 | local mode with no staged Python file exits 0; otherwise the run crashes exactly when a severity is unknown, and else exits 1 exactly when some finding ranks at or above the fail level, 0 when none does |
| `Run.LowerFailLevelStillBlocks` | scanner.py:117 | a run blocked at one fail level is blocked at every lower one, and the fail level does not decide whether a run crashes |
| `Run.NonPythonFilesSkipped` | scanner.py:142-144 | files without a language contribute no findings |
| `Run.NonPythonRunPasses` | scanner.py:142-144 | a ci run whose candidate files all lack a language exits 0, whatever the rules say |
| `Run.EvalLineScan` | scanner.py:63-74 | the line `eval(user_input)` with one matching rule gives exactly one finding, on line 1 |
| `Run.EvalFileFindings` | scanner.py:141-150 | the file app.py holding that line, with one matching Python rule, gives that one finding |
| `Run.SingleBlockingFinding` | scanner.py:163-168 | a ci run whose only finding ranks at or above the fail level exits 1 |
| `Run.EvalExample` | scanner.py:114-171 | an `eval\(` rule of severity HIGH at fail level HIGH gives one finding and exit 1; a MEDIUM rule at fail level LOW also exits 1 |

## Left out

- The regular-expression engine behind `re.search` is not modelled. The scanner is parameterised
  by a matching relation, so an invalid pattern (which raises `re.error`) is not represented.
- `load_rules` (JSON parsing and the "rules" key) is not modelled. Rules are given as records that
  carry all five fields. A missing key raises `KeyError` in the source, and that is not represented.
- `read_text(errors="ignore")` and `splitlines()` are not modelled: a file is given as its lines.
  A read error, such as a directory whose name ends in ".py", raises and is not caught in the
  source. The model's `readLines` never fails.
- `iter_python_files` uses `rglob("*.py")`, whose order depends on the file system. Its result is
  the input `globPy`. `Path.exists`, `is_file` and `is_dir` are inputs too.
- The `git diff --cached` subprocess is not modelled. Its output lines are an input.
- `Path(line)` normalisation is not modelled: for example, "./a.py" prints as "a.py" in the source.
  Paths are kept as given, so a finding's file is the string as listed. `Path.name` follows the
  POSIX rules; Windows separators are not modelled.
- argparse is not modelled. Its `choices` become the `Severity.Level` and `Mode` datatypes, and its
  defaults (ci mode, fail level HIGH, target ".") are the caller's choice of arguments.
- All `print` output is not modelled. That includes the findings printed before a `KeyError`.
- `hash.py` is not part of this model. It wraps `hashlib` digests and has no scanning logic.
- `Paths.Suffix` follows pathlib up to Python 3.13, where a name ending in a dot (such as "a.") has
  no suffix. The behaviour of later pathlib versions for such names is not modelled. No name ending
  in ".py" is affected.
