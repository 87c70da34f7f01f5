/** `main` and `get_staged_files`: choosing the files to scan, scanning each
    Python file with the rules of its language, and turning the blocked flag
    into an exit status. */
module Run {
  import opened Seqs
  import Severity
  import opened Rules
  import opened Paths
  import opened Text
  import opened LineScanner
  import opened Policy

  /** `--mode`: local scans the staged files, ci the given targets. */
  datatype Mode = Local | Ci

  /** What the scanner asks of the file system and of `git`, taken as given:
      `Path.exists`, `Path.is_file`, `Path.is_dir`, the paths `rglob("*.py")`
      yields under a directory, and the lines of a file's text. */
  datatype FileSystem = FileSystem(
    pathExists: string -> bool,
    isFile: string -> bool,
    isDir: string -> bool,
    globPy: string -> seq<string>,
    readLines: string -> seq<string>)

  /** How the process ends: an exit status, or the uncaught KeyError raised
      when a finding's severity is not a key of the severity table. */
  datatype Outcome = Exit(code: nat) | Crash(severity: string)

  /** The staged-file filter: paths that exist and have suffix ".py". */
  predicate IsStagedPython(fs: FileSystem, p: string)
  {
    fs.pathExists(p) && Suffix(p) == ".py"
  }

  function StagedFiles(gitOutput: seq<string>, fs: FileSystem): (files: seq<string>)
    ensures forall k :: 0 <= k < |files| ==> IsStagedPython(fs, files[k])
  {
    Filter(gitOutput, (p: string) => IsStagedPython(fs, p))
  }

  /** `get_staged_files`, given the lines `git diff --cached --name-only` printed. */
  method GetStagedFiles(gitOutput: seq<string>, fs: FileSystem) returns (files: seq<string>)
    ensures files == StagedFiles(gitOutput, fs)
  {
    files := [];
    for i := 0 to |gitOutput|
      invariant files == StagedFiles(gitOutput[..i], fs)
    {
      assert gitOutput[..i + 1][..i] == gitOutput[..i];
      var path := gitOutput[i];
      if fs.pathExists(path) && Suffix(path) == ".py" {
        files := files + [path];
      }
    }
    assert gitOutput[..|gitOutput|] == gitOutput;
  }

  /** The staged filter keeps exactly the existing ".py" paths, in input order. */
  lemma StagedFilesExactly(gitOutput: seq<string>, fs: FileSystem) returns (idx: seq<nat>)
    ensures forall p :: p in StagedFiles(gitOutput, fs) <==> p in gitOutput && fs.pathExists(p) && Suffix(p) == ".py"
    ensures |idx| == |StagedFiles(gitOutput, fs)|
    ensures forall k :: 0 <= k < |idx| ==> idx[k] < |gitOutput| && StagedFiles(gitOutput, fs)[k] == gitOutput[idx[k]]
    ensures forall a, b :: 0 <= a < b < |idx| ==> idx[a] < idx[b]
    ensures forall j :: 0 <= j < |gitOutput| && IsStagedPython(fs, gitOutput[j]) ==> j in idx
  {
    var p := (x: string) => IsStagedPython(fs, x);
    forall x
      ensures x in StagedFiles(gitOutput, fs) <==> x in gitOutput && fs.pathExists(x) && Suffix(x) == ".py"
    {
      FilterMembership(gitOutput, p, x);
    }
    idx := FilterKeepsOrder(gitOutput, p);
  }

  /** `iter_python_files(target)`: the target itself if it is a file, the
      ".py" paths under it if it is a directory, nothing otherwise. */
  function IterPythonFiles(fs: FileSystem, target: string): seq<string>
  {
    if fs.isFile(target) then [target]
    else if fs.isDir(target) then fs.globPy(target)
    else []
  }

  /** The files `main` visits for one target. */
  function TargetFiles(mode: Mode, fs: FileSystem, target: string): seq<string>
  {
    if mode == Ci then IterPythonFiles(fs, target) else [target]
  }

  /** The files `main` visits for all targets, in order. */
  function CandidateFiles(mode: Mode, fs: FileSystem, targets: seq<string>): seq<string>
  {
    ConcatMap(targets, PerTarget(mode, fs))
  }

  function PerTarget(mode: Mode, fs: FileSystem): string -> seq<string>
  {
    (t: string) => TargetFiles(mode, fs, t)
  }

  /** The findings `main` gets for one file: none for a file without a language,
      otherwise those of `scan_file` with the rules of the file's language. */
  function FileFindings(file: string, rules: seq<Rule>, fs: FileSystem, matches: Matcher): seq<Finding>
  {
    match GetLanguage(file)
    case None => []
    case Some(lang) => Scan(file, fs.readLines(file), ApplicableRules(rules, lang), matches)
  }

  /** The findings of a sequence of files, file after file. */
  function RunFindings(files: seq<string>, rules: seq<Rule>, fs: FileSystem, matches: Matcher): seq<Finding>
  {
    ConcatMap(files, PerFile(rules, fs, matches))
  }

  function PerFile(rules: seq<Rule>, fs: FileSystem, matches: Matcher): string -> seq<Finding>
  {
    (file: string) => FileFindings(file, rules, fs, matches)
  }

  /** The targets of a run: the staged Python files in local mode, the command-line targets in ci mode. */
  function Targets(mode: Mode, gitOutput: seq<string>, ciTargets: seq<string>, fs: FileSystem): seq<string>
  {
    if mode == Local then StagedFiles(gitOutput, fs) else ciTargets
  }

  /** How a run ends. */
  function RunOutcome(mode: Mode, rules: seq<Rule>, failLevel: Severity.Level, gitOutput: seq<string>,
                      ciTargets: seq<string>, fs: FileSystem, matches: Matcher): (o: Outcome)
    ensures o.Exit? ==> o.code == 0 || o.code == 1
  {
    var targets := Targets(mode, gitOutput, ciTargets, fs);
    if mode == Local && targets == [] then Exit(0)
    else
      match DecideFrom(false, RunFindings(CandidateFiles(mode, fs, targets), rules, fs, matches), Severity.Rank(failLevel))
      case UnknownSeverity(s) => Crash(s)
      case Decided(b) => Exit(if b then 1 else 0)
  }

  /** In ci mode a file is scanned exactly when some target is that file, or is a
      directory (and not a file) under which `rglob` lists it. */
  lemma CiCandidateFiles(fs: FileSystem, targets: seq<string>, f: string)
    ensures f in CandidateFiles(Ci, fs, targets) <==>
      exists k :: 0 <= k < |targets| &&
        ((fs.isFile(targets[k]) && f == targets[k]) ||
         (!fs.isFile(targets[k]) && fs.isDir(targets[k]) && f in fs.globPy(targets[k])))
  {
    ConcatMapMembership(targets, PerTarget(Ci, fs), f);
    assert forall k :: 0 <= k < |targets| ==> PerTarget(Ci, fs)(targets[k]) == IterPythonFiles(fs, targets[k]);
  }

  /** In local mode every target is scanned as a file of its own, in order. */
  lemma {:induction false} LocalCandidateFiles(fs: FileSystem, targets: seq<string>)
    ensures CandidateFiles(Local, fs, targets) == targets
  {
    if targets != [] {
      var n := |targets| - 1;
      LocalCandidateFiles(fs, targets[..n]);
      assert PerTarget(Local, fs)(targets[n]) == [targets[n]];
      assert targets == targets[..n] + [targets[n]];
    }
  }

  /** A local run scans exactly the staged Python files, in the order git lists them. */
  lemma LocalRunScansStagedFiles(gitOutput: seq<string>, ciTargets: seq<string>, fs: FileSystem)
    ensures CandidateFiles(Local, fs, Targets(Local, gitOutput, ciTargets, fs)) == StagedFiles(gitOutput, fs)
  {
    LocalCandidateFiles(fs, StagedFiles(gitOutput, fs));
  }

  /** A file's findings: none without a language; otherwise each one is a
      finding `scan_file` may report on the file's lines, for a Python rule of the list. */
  lemma FileFindingsReported(file: string, rules: seq<Rule>, fs: FileSystem, matches: Matcher)
    ensures GetLanguage(file).None? ==> FileFindings(file, rules, fs, matches) == []
    ensures forall k :: 0 <= k < |FileFindings(file, rules, fs, matches)| ==>
      FileFindings(file, rules, fs, matches)[k].rule.language == "python" &&
      Reported(file, fs.readLines(file), rules, matches, FileFindings(file, rules, fs, matches)[k])
  {
    match GetLanguage(file)
    case None =>
    case Some(lang) =>
      var lines := fs.readLines(file);
      var applicable := ApplicableRules(rules, lang);
      var found := Scan(file, lines, applicable, matches);
      assert FileFindings(file, rules, fs, matches) == found;
      ScanReported(file, lines, applicable, matches);
      forall k | 0 <= k < |found|
        ensures found[k].rule.language == "python" && Reported(file, lines, rules, matches, found[k])
      {
        assert Reported(file, lines, applicable, matches, found[k]);
        var _ := ApplicableRulesExactly(rules, lang);
      }
  }

  /** The candidate files around the files of target i. */
  lemma CandidateFilesSplit(mode: Mode, fs: FileSystem, targets: seq<string>, i: nat)
    requires i < |targets|
    ensures CandidateFiles(mode, fs, targets) ==
      CandidateFiles(mode, fs, targets[..i]) + TargetFiles(mode, fs, targets[i]) + CandidateFiles(mode, fs, targets[i + 1..])
  {
    ConcatMapSplit(targets, i, PerTarget(mode, fs));
  }

  /** Judging the files a + b is judging a, then b from where a left the flag. */
  lemma RunDecideAppend(start: bool, a: seq<string>, b: seq<string>, rules: seq<Rule>, fs: FileSystem,
                        matches: Matcher, threshold: nat)
    ensures DecideFrom(start, RunFindings(a + b, rules, fs, matches), threshold) ==
      match DecideFrom(start, RunFindings(a, rules, fs, matches), threshold)
      case Decided(x) => DecideFrom(x, RunFindings(b, rules, fs, matches), threshold)
      case UnknownSeverity(s) => UnknownSeverity(s)
  {
    ConcatMapAppend(a, b, PerFile(rules, fs, matches));
    DecideAppend(start, RunFindings(a, rules, fs, matches), RunFindings(b, rules, fs, matches), threshold);
  }

  /** A KeyError in the findings of a stops the run before the files of b. */
  lemma RunStopsAtUnknown(start: bool, a: seq<string>, b: seq<string>, rules: seq<Rule>, fs: FileSystem,
                          matches: Matcher, threshold: nat)
    requires DecideFrom(start, RunFindings(a, rules, fs, matches), threshold).UnknownSeverity?
    ensures DecideFrom(start, RunFindings(a + b, rules, fs, matches), threshold) ==
      DecideFrom(start, RunFindings(a, rules, fs, matches), threshold)
  {
    RunDecideAppend(start, a, b, rules, fs, matches, threshold);
  }

  /** One more file: judging files[..j + 1] is judging files[j] from where files[..j] left the flag. */
  lemma JudgeStep(start: bool, files: seq<string>, j: nat, rules: seq<Rule>, fs: FileSystem,
                  matches: Matcher, threshold: nat, b: bool)
    requires j < |files|
    requires DecideFrom(start, RunFindings(files[..j], rules, fs, matches), threshold) == Decided(b)
    ensures DecideFrom(start, RunFindings(files[..j + 1], rules, fs, matches), threshold) ==
      DecideFrom(b, FileFindings(files[j], rules, fs, matches), threshold)
  {
    assert files[..j + 1] == files[..j] + [files[j]];
    RunDecideAppend(start, files[..j], [files[j]], rules, fs, matches, threshold);
    RunFindingsSingle(files[j], rules, fs, matches);
  }

  /** A KeyError among files[..j + 1] is the verdict of all of files. */
  lemma JudgeStop(start: bool, files: seq<string>, j: nat, rules: seq<Rule>, fs: FileSystem,
                  matches: Matcher, threshold: nat)
    requires j < |files|
    requires DecideFrom(start, RunFindings(files[..j + 1], rules, fs, matches), threshold).UnknownSeverity?
    ensures DecideFrom(start, RunFindings(files, rules, fs, matches), threshold) ==
      DecideFrom(start, RunFindings(files[..j + 1], rules, fs, matches), threshold)
  {
    assert files == files[..j + 1] + files[j + 1..];
    RunStopsAtUnknown(start, files[..j + 1], files[j + 1..], rules, fs, matches, threshold);
  }

  /** One more target: judging the files of targets[..i + 1] is judging the
      files of targets[i] from where those of targets[..i] left the flag. */
  lemma TargetStep(mode: Mode, fs: FileSystem, targets: seq<string>, i: nat, rules: seq<Rule>,
                   matches: Matcher, threshold: nat, b: bool)
    requires i < |targets|
    requires DecideFrom(false, RunFindings(CandidateFiles(mode, fs, targets[..i]), rules, fs, matches), threshold) == Decided(b)
    ensures DecideFrom(false, RunFindings(CandidateFiles(mode, fs, targets[..i + 1]), rules, fs, matches), threshold) ==
      DecideFrom(b, RunFindings(TargetFiles(mode, fs, targets[i]), rules, fs, matches), threshold)
  {
    CandidateFilesSplit(mode, fs, targets[..i + 1], i);
    assert targets[..i + 1][..i] == targets[..i] && targets[..i + 1][i + 1..] == [];
    assert CandidateFiles(mode, fs, []) == [];
    assert CandidateFiles(mode, fs, targets[..i + 1]) ==
      CandidateFiles(mode, fs, targets[..i]) + TargetFiles(mode, fs, targets[i]);
    RunDecideAppend(false, CandidateFiles(mode, fs, targets[..i]), TargetFiles(mode, fs, targets[i]), rules, fs, matches, threshold);
  }

  /** A KeyError among the files of targets[..i + 1] is the outcome of all targets. */
  lemma TargetStop(mode: Mode, fs: FileSystem, targets: seq<string>, i: nat, rules: seq<Rule>,
                   matches: Matcher, threshold: nat)
    requires i < |targets|
    requires DecideFrom(false, RunFindings(CandidateFiles(mode, fs, targets[..i + 1]), rules, fs, matches), threshold).UnknownSeverity?
    ensures DecideFrom(false, RunFindings(CandidateFiles(mode, fs, targets), rules, fs, matches), threshold) ==
      DecideFrom(false, RunFindings(CandidateFiles(mode, fs, targets[..i + 1]), rules, fs, matches), threshold)
  {
    assert targets == targets[..i + 1] + targets[i + 1..];
    ConcatMapAppend(targets[..i + 1], targets[i + 1..], PerTarget(mode, fs));
    RunStopsAtUnknown(false, CandidateFiles(mode, fs, targets[..i + 1]), CandidateFiles(mode, fs, targets[i + 1..]),
                      rules, fs, matches, threshold);
  }

  lemma RunFindingsSingle(file: string, rules: seq<Rule>, fs: FileSystem, matches: Matcher)
    ensures RunFindings([file], rules, fs, matches) == FileFindings(file, rules, fs, matches)
  {
    ConcatMapSingle(file, PerFile(rules, fs, matches));
  }

  /** The body of `main`'s loop over the files of a target: classify the file,
      scan it with the rules of its language and judge its findings. */
  method JudgeFile(file: string, rules: seq<Rule>, fs: FileSystem, matches: Matcher, blocked: bool, threshold: nat)
    returns (v: Verdict)
    ensures v == DecideFrom(blocked, FileFindings(file, rules, fs, matches), threshold)
  {
    var lang := GetLanguage(file);
    if lang.None? {
      return Decided(blocked);
    }
    var applicable := ApplicableRules(rules, lang.value);
    var findings := ScanFile(file, fs.readLines(file), applicable, matches);
    v := FoldBlocked(blocked, findings, threshold);
  }

  /** `main`'s loop over the files of one target. */
  method JudgeFiles(files: seq<string>, rules: seq<Rule>, fs: FileSystem, matches: Matcher, blocked: bool, threshold: nat)
    returns (v: Verdict)
    ensures v == DecideFrom(blocked, RunFindings(files, rules, fs, matches), threshold)
  {
    var b := blocked;
    for j := 0 to |files|
      invariant DecideFrom(blocked, RunFindings(files[..j], rules, fs, matches), threshold) == Decided(b)
    {
      JudgeStep(blocked, files, j, rules, fs, matches, threshold, b);
      v := JudgeFile(files[j], rules, fs, matches, b, threshold);
      if v.UnknownSeverity? {
        JudgeStop(blocked, files, j, rules, fs, matches, threshold);
        return;
      }
      b := v.blocked;
    }
    assert files[..|files|] == files;
    v := Decided(b);
  }

  /** `main`'s loop over its targets, each target's files in turn. */
  method JudgeTargets(mode: Mode, targets: seq<string>, rules: seq<Rule>, fs: FileSystem, matches: Matcher, threshold: nat)
    returns (v: Verdict)
    ensures v == DecideFrom(false, RunFindings(CandidateFiles(mode, fs, targets), rules, fs, matches), threshold)
  {
    var blocked := false;
    for i := 0 to |targets|
      invariant DecideFrom(false, RunFindings(CandidateFiles(mode, fs, targets[..i]), rules, fs, matches), threshold) == Decided(blocked)
    {
      TargetStep(mode, fs, targets, i, rules, matches, threshold, blocked);
      v := JudgeFiles(TargetFiles(mode, fs, targets[i]), rules, fs, matches, blocked, threshold);
      if v.UnknownSeverity? {
        TargetStop(mode, fs, targets, i, rules, matches, threshold);
        return;
      }
      blocked := v.blocked;
    }
    assert targets[..|targets|] == targets;
    v := Decided(blocked);
  }

  /** `main`, from the command-line arguments to the exit status. */
  method RunScan(mode: Mode, rules: seq<Rule>, failLevel: Severity.Level, gitOutput: seq<string>,
                 ciTargets: seq<string>, fs: FileSystem, matches: Matcher) returns (outcome: Outcome)
    ensures outcome == RunOutcome(mode, rules, failLevel, gitOutput, ciTargets, fs, matches)
  {
    var threshold := Severity.SeverityOrder[Severity.Label(failLevel)];
    assert threshold == Severity.Rank(failLevel);
    var targets: seq<string>;
    if mode == Local {
      targets := GetStagedFiles(gitOutput, fs);
      if targets == [] {
        return Exit(0);
      }
    } else {
      targets := ciTargets;
    }
    var v := JudgeTargets(mode, targets, rules, fs, matches, threshold);
    match v
    case UnknownSeverity(s) => outcome := Crash(s);
    case Decided(blocked) => outcome := Exit(if blocked then 1 else 0);
  }

  /** The findings a run judges once it gets past the staged-file check. */
  function AllFindings(mode: Mode, rules: seq<Rule>, gitOutput: seq<string>, ciTargets: seq<string>,
                       fs: FileSystem, matches: Matcher): seq<Finding>
  {
    RunFindings(CandidateFiles(mode, fs, Targets(mode, gitOutput, ciTargets, fs)), rules, fs, matches)
  }

  /** The exit status: 0 when local mode finds nothing staged; otherwise a KeyError
      exactly when some finding has an unknown severity, and else 1 exactly when
      some finding ranks at or above the fail level, 0 when none does. */
  lemma ExitStatus(mode: Mode, rules: seq<Rule>, failLevel: Severity.Level, gitOutput: seq<string>,
                   ciTargets: seq<string>, fs: FileSystem, matches: Matcher)
    ensures mode == Local && StagedFiles(gitOutput, fs) == [] ==>
      RunOutcome(mode, rules, failLevel, gitOutput, ciTargets, fs, matches) == Exit(0)
    ensures !(mode == Local && StagedFiles(gitOutput, fs) == []) ==>
      (RunOutcome(mode, rules, failLevel, gitOutput, ciTargets, fs, matches).Crash? <==>
       !AllKnown(AllFindings(mode, rules, gitOutput, ciTargets, fs, matches)))
    ensures !(mode == Local && StagedFiles(gitOutput, fs) == []) ==>
      AllKnown(AllFindings(mode, rules, gitOutput, ciTargets, fs, matches)) ==>
      RunOutcome(mode, rules, failLevel, gitOutput, ciTargets, fs, matches) ==
      Exit(if AnyBlocks(AllFindings(mode, rules, gitOutput, ciTargets, fs, matches), Severity.Rank(failLevel)) then 1 else 0)
  {
    var all := AllFindings(mode, rules, gitOutput, ciTargets, fs, matches);
    DecideWhenSomeUnknown(false, all, Severity.Rank(failLevel));
    if AllKnown(all) {
      DecideWhenAllKnown(false, all, Severity.Rank(failLevel));
    }
  }

  /** Lowering the fail level never turns a blocked run into a passing one,
      and the fail level has no say in whether a run crashes. */
  lemma LowerFailLevelStillBlocks(mode: Mode, rules: seq<Rule>, lo: Severity.Level, hi: Severity.Level,
                                  gitOutput: seq<string>, ciTargets: seq<string>, fs: FileSystem, matches: Matcher)
    requires Severity.Rank(lo) <= Severity.Rank(hi)
    ensures RunOutcome(mode, rules, hi, gitOutput, ciTargets, fs, matches) == Exit(1) ==>
            RunOutcome(mode, rules, lo, gitOutput, ciTargets, fs, matches) == Exit(1)
    ensures RunOutcome(mode, rules, lo, gitOutput, ciTargets, fs, matches).Crash? <==>
            RunOutcome(mode, rules, hi, gitOutput, ciTargets, fs, matches).Crash?
  {
    ThresholdMonotone(false, AllFindings(mode, rules, gitOutput, ciTargets, fs, matches), Severity.Rank(lo), Severity.Rank(hi));
  }

  /** Files without a language are skipped: they contribute no finding. */
  lemma {:induction false} NonPythonFilesSkipped(files: seq<string>, rules: seq<Rule>, fs: FileSystem, matches: Matcher)
    requires forall k :: 0 <= k < |files| ==> GetLanguage(files[k]).None?
    ensures RunFindings(files, rules, fs, matches) == []
  {
    if files != [] {
      NonPythonFilesSkipped(files[..|files| - 1], rules, fs, matches);
    }
  }

  /** A ci run whose candidate files all lack a language passes, whatever the rules say. */
  lemma NonPythonRunPasses(rules: seq<Rule>, failLevel: Severity.Level, ciTargets: seq<string>,
                           fs: FileSystem, matches: Matcher)
    requires forall k :: 0 <= k < |CandidateFiles(Ci, fs, ciTargets)| ==> GetLanguage(CandidateFiles(Ci, fs, ciTargets)[k]).None?
    ensures RunOutcome(Ci, rules, failLevel, [], ciTargets, fs, matches) == Exit(0)
  {
    NonPythonFilesSkipped(CandidateFiles(Ci, fs, ciTargets), rules, fs, matches);
  }

  /** A rule searching for "eval(" at the given severity. */
  function EvalRule(severity: string): Rule
  {
    Rule("PY001", "eval\\(", "python", severity, "Use of eval()")
  }

  /** The single line `eval(user_input)` scanned with one matching rule gives one finding. */
  lemma EvalLineScan(r: Rule, matches: Matcher)
    requires matches(r.pattern, "eval(user_input)")
    ensures Scan("app.py", ["eval(user_input)"], [r], matches) == [Finding("app.py", 1, "eval(user_input)", r)]
  {
    var line := "eval(user_input)";
    NotContainsWithoutFirstChar(line, NoSec);
    StripUnpadded(line);
    assert [line][..0] == [];
    assert [r][..0] == [];
    assert RuleFindings("app.py", 1, line, [r], matches) == [Finding("app.py", 1, line, r)];
    assert LineFindings("app.py", 1, line, [r], matches) == [Finding("app.py", 1, line, r)];
    assert Scan("app.py", [line], [r], matches) == Scan("app.py", [], [r], matches) + LineFindings("app.py", 1, line, [r], matches);
  }

  /** The file app.py holding that line, scanned with one Python rule that matches it. */
  lemma EvalFileFindings(r: Rule, fs: FileSystem, matches: Matcher)
    requires r.language == "python" && matches(r.pattern, "eval(user_input)")
    requires fs.readLines("app.py") == ["eval(user_input)"]
    ensures RunFindings(["app.py"], [r], fs, matches) == [Finding("app.py", 1, "eval(user_input)", r)]
  {
    PythonModuleExample();
    assert [r][..0] == [];
    assert ApplicableRules([r], "python") == [r];
    EvalLineScan(r, matches);
    RunFindingsSingle("app.py", [r], fs, matches);
  }

  /** A ci run over one file whose only finding ranks at or above the fail level is blocked. */
  lemma SingleBlockingFinding(f: Finding, r: Rule, failLevel: Severity.Level, target: string, fs: FileSystem, matches: Matcher)
    requires RunFindings(CandidateFiles(Ci, fs, [target]), [r], fs, matches) == [f]
    requires Blocks(f, Severity.Rank(failLevel))
    ensures RunOutcome(Ci, [r], failLevel, [], [target], fs, matches) == Exit(1)
  {
    assert [f][..0] == [];
    assert DecideFrom(false, [f][..0], Severity.Rank(failLevel)) == Decided(false);
    assert DecideFrom(false, [f], Severity.Rank(failLevel)) == Decided(true);
  }

  /** A file holding `eval(user_input)`, scanned with one rule that matches it:
      exactly one finding, on line 1; a HIGH rule blocks at fail level HIGH,
      and a MEDIUM rule blocks at fail level LOW. */
  lemma EvalExample(fs: FileSystem, matches: Matcher)
    requires fs.isFile("app.py") && fs.readLines("app.py") == ["eval(user_input)"]
    requires matches("eval\\(", "eval(user_input)")
    ensures RunFindings(["app.py"], [EvalRule("HIGH")], fs, matches) ==
            [Finding("app.py", 1, "eval(user_input)", EvalRule("HIGH"))]
    ensures RunOutcome(Ci, [EvalRule("HIGH")], Severity.High, [], ["app.py"], fs, matches) == Exit(1)
    ensures RunOutcome(Ci, [EvalRule("MEDIUM")], Severity.Low, [], ["app.py"], fs, matches) == Exit(1)
  {
    ConcatMapSingle("app.py", PerTarget(Ci, fs));
    assert CandidateFiles(Ci, fs, ["app.py"]) == ["app.py"];
    EvalFileFindings(EvalRule("HIGH"), fs, matches);
    EvalFileFindings(EvalRule("MEDIUM"), fs, matches);
    SingleBlockingFinding(Finding("app.py", 1, "eval(user_input)", EvalRule("HIGH")), EvalRule("HIGH"), Severity.High, "app.py", fs, matches);
    SingleBlockingFinding(Finding("app.py", 1, "eval(user_input)", EvalRule("MEDIUM")), EvalRule("MEDIUM"), Severity.Low, "app.py", fs, matches);
  }
}
