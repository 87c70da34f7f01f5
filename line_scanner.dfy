/** `scan_file`: rules applied to every line of one file, with `# nosec` suppression. */
module LineScanner {
  import opened Seqs
  import opened Text
  import opened Rules

  /** Whether `re.search(pattern, line)` finds a match. The regular-expression
      engine is not modelled: the scanner is parameterised by this relation. */
  type Matcher = (string, string) -> bool

  /** A match of `rule` on line number `line` (1-based) of `file`; `code` is the stripped line. */
  datatype Finding = Finding(file: string, line: nat, code: string, rule: Rule)

  /** The rules, in list order, whose pattern matches the line. */
  function MatchingRules(rules: seq<Rule>, line: string, matches: Matcher): (r: seq<Rule>)
    ensures forall k :: 0 <= k < |r| ==> matches(r[k].pattern, line)
  {
    Filter(rules, (x: Rule) => matches(x.pattern, line))
  }

  /** The matching rules are all the rules whose pattern matches the line, each
      as often as it occurs, in their original relative order. */
  lemma MatchingRulesExactly(rules: seq<Rule>, line: string, matches: Matcher) returns (idx: seq<nat>)
    ensures forall x :: x in MatchingRules(rules, line, matches) <==> x in rules && matches(x.pattern, line)
    ensures |idx| == |MatchingRules(rules, line, matches)|
    ensures forall k :: 0 <= k < |idx| ==> idx[k] < |rules| && MatchingRules(rules, line, matches)[k] == rules[idx[k]]
    ensures forall a, b :: 0 <= a < b < |idx| ==> idx[a] < idx[b]
    ensures forall j :: 0 <= j < |rules| && matches(rules[j].pattern, line) ==> j in idx
  {
    var p := (x: Rule) => matches(x.pattern, line);
    forall x
      ensures x in MatchingRules(rules, line, matches) <==> x in rules && matches(x.pattern, line)
    {
      FilterMembership(rules, p, x);
    }
    idx := FilterKeepsOrder(rules, p);
  }

  /** The findings one unsuppressed line produces: every rule is tried, in order. */
  function RuleFindings(path: string, n: nat, line: string, rules: seq<Rule>, matches: Matcher): (fs: seq<Finding>)
    ensures forall k :: 0 <= k < |fs| ==>
      fs[k].file == path && fs[k].line == n && fs[k].code == Strip(line) &&
      fs[k].rule in rules && matches(fs[k].rule.pattern, line)
  {
    if rules == [] then []
    else
      var last := rules[|rules| - 1];
      assert rules == rules[..|rules| - 1] + [last];
      RuleFindings(path, n, line, rules[..|rules| - 1], matches) +
      (if matches(last.pattern, line) then [Finding(path, n, Strip(line), last)] else [])
  }

  /** The findings of line number n: none when the line carries the suppression marker. */
  function LineFindings(path: string, n: nat, line: string, rules: seq<Rule>, matches: Matcher): (fs: seq<Finding>)
    ensures forall k :: 0 <= k < |fs| ==> fs[k].line == n
  {
    if Contains(line, NoSec) then [] else RuleFindings(path, n, line, rules, matches)
  }

  /** What the scanner may report about a file: a finding names the file, a line
      number within it, that line's stripped text and a rule of the list whose
      pattern matches the line, and the line is not suppressed. */
  predicate Reported(path: string, lines: seq<string>, rules: seq<Rule>, matches: Matcher, f: Finding)
  {
    1 <= f.line <= |lines| && f.file == path && f.code == Strip(lines[f.line - 1]) &&
    f.rule in rules && matches(f.rule.pattern, lines[f.line - 1]) && !Contains(lines[f.line - 1], NoSec)
  }

  /** The findings of a whole file, line by line in ascending order. */
  function Scan(path: string, lines: seq<string>, rules: seq<Rule>, matches: Matcher): (fs: seq<Finding>)
    ensures forall k :: 0 <= k < |fs| ==> 1 <= fs[k].line <= |lines|
  {
    if lines == [] then []
    else
      var m := |lines| - 1;
      Scan(path, lines[..m], rules, matches) + LineFindings(path, m + 1, lines[m], rules, matches)
  }

  /** Every finding of a scan is one the scanner may report: right file, a line
      within the file, that line's stripped text, and a matching rule of the list. */
  lemma {:induction false} ScanReported(path: string, lines: seq<string>, rules: seq<Rule>, matches: Matcher)
    ensures forall k :: 0 <= k < |Scan(path, lines, rules, matches)| ==>
      Reported(path, lines, rules, matches, Scan(path, lines, rules, matches)[k])
  {
    if lines != [] {
      var m := |lines| - 1;
      var front := Scan(path, lines[..m], rules, matches);
      var last := LineFindings(path, m + 1, lines[m], rules, matches);
      ScanReported(path, lines[..m], rules, matches);
      assert Scan(path, lines, rules, matches) == front + last;
      forall k | 0 <= k < |front + last|
        ensures Reported(path, lines, rules, matches, (front + last)[k])
      {
        if k < |front| {
          var f := front[k];
          assert Reported(path, lines[..m], rules, matches, f);
          assert lines[..m][f.line - 1] == lines[f.line - 1];
        } else {
          assert (front + last)[k] == last[k - |front|];
        }
      }
    }
  }

  /** `scan_file(path, rules)` on a file whose text splits into `lines`. */
  method ScanFile(path: string, lines: seq<string>, rules: seq<Rule>, matches: Matcher) returns (findings: seq<Finding>)
    ensures findings == Scan(path, lines, rules, matches)
  {
    findings := [];
    for i := 0 to |lines|
      invariant findings == Scan(path, lines[..i], rules, matches)
    {
      assert lines[..i + 1][..i] == lines[..i];
      var line := lines[i];
      if Contains(line, NoSec) {
        continue;
      }
      for j := 0 to |rules|
        invariant findings == Scan(path, lines[..i], rules, matches) + RuleFindings(path, i + 1, line, rules[..j], matches)
      {
        assert rules[..j + 1][..j] == rules[..j];
        if matches(rules[j].pattern, line) {
          findings := findings + [Finding(path, i + 1, Strip(line), rules[j])];
        }
      }
      assert rules[..|rules|] == rules;
    }
    assert lines[..|lines|] == lines;
  }

  /** The findings of an unsuppressed line are one per matching rule, in rule order. */
  lemma {:induction false} RuleFindingsFollowMatchingRules(path: string, n: nat, line: string, rules: seq<Rule>, matches: Matcher)
    ensures |RuleFindings(path, n, line, rules, matches)| == |MatchingRules(rules, line, matches)|
    ensures forall k :: 0 <= k < |RuleFindings(path, n, line, rules, matches)| ==>
      RuleFindings(path, n, line, rules, matches)[k] == Finding(path, n, Strip(line), MatchingRules(rules, line, matches)[k])
  {
    if rules != [] {
      RuleFindingsFollowMatchingRules(path, n, line, rules[..|rules| - 1], matches);
    }
  }

  /** The test "reported on line number n". */
  function OnLine(n: nat): Finding -> bool
  {
    (f: Finding) => f.line == n
  }

  /** The findings reported on line number n. */
  function FindingsOnLine(fs: seq<Finding>, n: nat): (r: seq<Finding>)
    ensures forall k :: 0 <= k < |r| ==> r[k].line == n
  {
    Filter(fs, OnLine(n))
  }

  lemma FindingsOnLineAppend(a: seq<Finding>, b: seq<Finding>, n: nat)
    ensures FindingsOnLine(a + b, n) == FindingsOnLine(a, n) + FindingsOnLine(b, n)
  {
    FilterAppend(a, b, OnLine(n));
  }

  lemma FindingsOnLineNone(fs: seq<Finding>, n: nat)
    requires forall k :: 0 <= k < |fs| ==> fs[k].line != n
    ensures FindingsOnLine(fs, n) == []
  {
    FilterAllOrNone(fs, OnLine(n));
  }

  lemma FindingsOnLineAll(fs: seq<Finding>, n: nat)
    requires forall k :: 0 <= k < |fs| ==> fs[k].line == n
    ensures FindingsOnLine(fs, n) == fs
  {
    FilterAllOrNone(fs, OnLine(n));
  }

  /** A scan is the scan of all lines but the last, then the last line's findings. */
  lemma ScanLastLine(path: string, lines: seq<string>, rules: seq<Rule>, matches: Matcher)
    requires lines != []
    ensures Scan(path, lines, rules, matches) ==
      Scan(path, lines[..|lines| - 1], rules, matches) + LineFindings(path, |lines|, lines[|lines| - 1], rules, matches)
  {
  }

  /** A line's findings all sit on that line, so on any other line there are none. */
  lemma LineFindingsOnLine(path: string, m: nat, line: string, rules: seq<Rule>, matches: Matcher, n: nat)
    ensures FindingsOnLine(LineFindings(path, m, line, rules, matches), n) ==
      if n == m then LineFindings(path, m, line, rules, matches) else []
  {
    var fs := LineFindings(path, m, line, rules, matches);
    if n == m {
      FindingsOnLineAll(fs, n);
    } else {
      FindingsOnLineNone(fs, n);
    }
  }

  /** A scan reports nothing beyond the file's last line. */
  lemma ScanBeyondEnd(path: string, lines: seq<string>, rules: seq<Rule>, matches: Matcher, n: nat)
    requires n > |lines|
    ensures FindingsOnLine(Scan(path, lines, rules, matches), n) == []
  {
    FindingsOnLineNone(Scan(path, lines, rules, matches), n);
  }

  /** The findings a scan reports on line n are exactly that line's own findings. */
  lemma {:induction false} ScanOnLine(path: string, lines: seq<string>, rules: seq<Rule>, matches: Matcher, n: nat)
    requires 1 <= n <= |lines|
    ensures FindingsOnLine(Scan(path, lines, rules, matches), n) == LineFindings(path, n, lines[n - 1], rules, matches)
  {
    var m := |lines| - 1;
    ScanLastLine(path, lines, rules, matches);
    FindingsOnLineAppend(Scan(path, lines[..m], rules, matches), LineFindings(path, m + 1, lines[m], rules, matches), n);
    LineFindingsOnLine(path, m + 1, lines[m], rules, matches, n);
    if n <= m {
      ScanOnLine(path, lines[..m], rules, matches, n);
      assert lines[..m][n - 1] == lines[n - 1];
    } else {
      ScanBeyondEnd(path, lines[..m], rules, matches, n);
    }
  }

  /** A line carrying the "# nosec" marker yields no finding, whatever rules match it. */
  lemma SuppressedLineHasNoFindings(path: string, lines: seq<string>, rules: seq<Rule>, matches: Matcher, n: nat)
    requires 1 <= n <= |lines| && Contains(lines[n - 1], NoSec)
    ensures FindingsOnLine(Scan(path, lines, rules, matches), n) == []
  {
    ScanOnLine(path, lines, rules, matches, n);
  }

  /** On an unsuppressed line there is exactly one finding per rule whose pattern
      matches the line, listed in rule order, each recording the file, the line
      number and the stripped line. */
  lemma UnsuppressedLineFindings(path: string, lines: seq<string>, rules: seq<Rule>, matches: Matcher, n: nat)
    requires 1 <= n <= |lines| && !Contains(lines[n - 1], NoSec)
    ensures |FindingsOnLine(Scan(path, lines, rules, matches), n)| == |MatchingRules(rules, lines[n - 1], matches)|
    ensures forall k :: 0 <= k < |FindingsOnLine(Scan(path, lines, rules, matches), n)| ==>
      FindingsOnLine(Scan(path, lines, rules, matches), n)[k] ==
      Finding(path, n, Strip(lines[n - 1]), MatchingRules(rules, lines[n - 1], matches)[k])
  {
    ScanOnLine(path, lines, rules, matches, n);
    RuleFindingsFollowMatchingRules(path, n, lines[n - 1], rules, matches);
  }

  /** Findings come out in ascending line order. */
  lemma {:induction false} ScanOrdered(path: string, lines: seq<string>, rules: seq<Rule>, matches: Matcher)
    ensures forall a, b :: 0 <= a < b < |Scan(path, lines, rules, matches)| ==>
      Scan(path, lines, rules, matches)[a].line <= Scan(path, lines, rules, matches)[b].line
  {
    if lines != [] {
      var m := |lines| - 1;
      ScanOrdered(path, lines[..m], rules, matches);
    }
  }
}
