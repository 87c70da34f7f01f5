/** The `blocked` fold of `main`: every finding's severity is looked up in the
    severity table and compared with the fail threshold. */
module Policy {
  import Severity
  import opened LineScanner

  /** Where the fold ends: a blocked flag, or the KeyError raised by the first
      finding whose rule carries a severity name the table does not know. */
  datatype Verdict = Decided(blocked: bool) | UnknownSeverity(severity: string)

  /** The finding's severity is a key of the severity table. */
  predicate Known(f: Finding)
  {
    Severity.Lookup(f.rule.severity).Some?
  }

  /** The finding's severity ranks at or above the threshold. */
  predicate Blocks(f: Finding, threshold: nat)
  {
    var k := Severity.Lookup(f.rule.severity);
    k.Some? && k.value >= threshold
  }

  /** Every finding's severity is a key of the severity table. */
  predicate AllKnown(fs: seq<Finding>)
  {
    forall k :: 0 <= k < |fs| ==> Known(fs[k])
  }

  /** Some finding ranks at or above the threshold. */
  predicate AnyBlocks(fs: seq<Finding>, threshold: nat)
  {
    exists k :: 0 <= k < |fs| && Blocks(fs[k], threshold)
  }

  /** Position k holds the first finding whose severity the table does not know. */
  predicate FirstUnknownAt(fs: seq<Finding>, k: nat)
  {
    k < |fs| && !Known(fs[k]) && forall j :: 0 <= j < k ==> Known(fs[j])
  }

  /** The flag after the findings `fs` have been judged, starting from `blocked`. */
  function DecideFrom(blocked: bool, fs: seq<Finding>, threshold: nat): Verdict
  {
    if fs == [] then Decided(blocked)
    else
      match DecideFrom(blocked, fs[..|fs| - 1], threshold)
      case UnknownSeverity(s) => UnknownSeverity(s)
      case Decided(b) =>
        var f := fs[|fs| - 1];
        match Severity.Lookup(f.rule.severity)
        case None => UnknownSeverity(f.rule.severity)
        case Some(k) => Decided(b || k >= threshold)
  }

  /** Judging x + y is judging x, then y from where x left the flag. */
  lemma {:induction false} DecideAppend(blocked: bool, x: seq<Finding>, y: seq<Finding>, threshold: nat)
    ensures DecideFrom(blocked, x + y, threshold) ==
      match DecideFrom(blocked, x, threshold)
      case Decided(b) => DecideFrom(b, y, threshold)
      case UnknownSeverity(s) => UnknownSeverity(s)
  {
    if y == [] {
      assert x + y == x;
    } else {
      var n := |y| - 1;
      DecideAppend(blocked, x, y[..n], threshold);
      assert (x + y)[..|x + y| - 1] == x + y[..n];
      assert (x + y)[|x + y| - 1] == y[n];
    }
  }

  /** A KeyError ends the fold: nothing judged after it changes the outcome. */
  lemma UnknownPersists(x: seq<Finding>, y: seq<Finding>, threshold: nat, s: string)
    requires DecideFrom(false, x, threshold) == UnknownSeverity(s)
    ensures DecideFrom(false, x + y, threshold) == UnknownSeverity(s)
  {
    DecideAppend(false, x, y, threshold);
  }

  /** The inner loop of `main` over one file's findings. */
  method FoldBlocked(blocked: bool, findings: seq<Finding>, threshold: nat) returns (v: Verdict)
    ensures v == DecideFrom(blocked, findings, threshold)
  {
    var b := blocked;
    for i := 0 to |findings|
      invariant DecideFrom(blocked, findings[..i], threshold) == Decided(b)
    {
      assert findings[..i + 1][..i] == findings[..i];
      var severity := findings[i].rule.severity;
      if severity !in Severity.SeverityOrder {
        DecideAppend(blocked, findings[..i + 1], findings[i + 1..], threshold);
        assert findings[..i + 1] + findings[i + 1..] == findings;
        return UnknownSeverity(severity);
      }
      if Severity.SeverityOrder[severity] >= threshold {
        b := true;
      }
    }
    assert findings[..|findings|] == findings;
    v := Decided(b);
  }

  /** When every severity is known, the run is blocked exactly when it started
      blocked or some finding ranks at or above the threshold. */
  lemma {:induction false} DecideWhenAllKnown(blocked: bool, fs: seq<Finding>, threshold: nat)
    requires forall k :: 0 <= k < |fs| ==> Known(fs[k])
    ensures DecideFrom(blocked, fs, threshold) ==
      Decided(blocked || exists k :: 0 <= k < |fs| && Blocks(fs[k], threshold))
  {
    if fs != [] {
      var n := |fs| - 1;
      DecideWhenAllKnown(blocked, fs[..n], threshold);
      if exists k :: 0 <= k < n && Blocks(fs[..n][k], threshold) {
        var k :| 0 <= k < n && Blocks(fs[..n][k], threshold);
        assert Blocks(fs[k], threshold);
      }
      if exists k :: 0 <= k < |fs| && Blocks(fs[k], threshold) {
        var k :| 0 <= k < |fs| && Blocks(fs[k], threshold);
        if k < n {
          assert Blocks(fs[..n][k], threshold);
        }
      }
    }
  }

  /** The fold fails exactly when some severity is unknown. */
  lemma {:induction false} UnknownIffSomeUnknown(blocked: bool, fs: seq<Finding>, threshold: nat)
    ensures DecideFrom(blocked, fs, threshold).UnknownSeverity? <==> exists k :: 0 <= k < |fs| && !Known(fs[k])
  {
    if fs != [] {
      var n := |fs| - 1;
      UnknownIffSomeUnknown(blocked, fs[..n], threshold);
      if exists k :: 0 <= k < n && !Known(fs[..n][k]) {
        var k :| 0 <= k < n && !Known(fs[..n][k]);
        assert !Known(fs[k]);
      }
      if exists k :: 0 <= k < |fs| && !Known(fs[k]) {
        var k :| 0 <= k < |fs| && !Known(fs[k]);
        if k < n {
          assert !Known(fs[..n][k]);
        }
      }
    }
  }

  /** A failed fold returns the position of the first unknown severity, which is the one it names. */
  lemma {:induction false} UnknownNamesFirst(blocked: bool, fs: seq<Finding>, threshold: nat) returns (k: nat)
    requires DecideFrom(blocked, fs, threshold).UnknownSeverity?
    ensures FirstUnknownAt(fs, k) && fs[k].rule.severity == DecideFrom(blocked, fs, threshold).severity
  {
    var n := |fs| - 1;
    if DecideFrom(blocked, fs[..n], threshold).UnknownSeverity? {
      k := UnknownNamesFirst(blocked, fs[..n], threshold);
      assert fs[..n][k] == fs[k];
      assert forall j :: 0 <= j < k ==> fs[..n][j] == fs[j];
    } else {
      UnknownIffSomeUnknown(blocked, fs[..n], threshold);
      assert forall j :: 0 <= j < n ==> fs[..n][j] == fs[j];
      k := n;
    }
  }

  /** The fold fails exactly when some severity is unknown, and then it names
      the severity of the first such finding. */
  lemma DecideWhenSomeUnknown(blocked: bool, fs: seq<Finding>, threshold: nat)
    ensures DecideFrom(blocked, fs, threshold).UnknownSeverity? <==> exists k :: 0 <= k < |fs| && !Known(fs[k])
    ensures DecideFrom(blocked, fs, threshold).UnknownSeverity? ==>
      exists k: nat :: FirstUnknownAt(fs, k) && fs[k].rule.severity == DecideFrom(blocked, fs, threshold).severity
  {
    UnknownIffSomeUnknown(blocked, fs, threshold);
    if DecideFrom(blocked, fs, threshold).UnknownSeverity? {
      var k := UnknownNamesFirst(blocked, fs, threshold);
    }
  }

  /** Once the flag is set it is never reset: a blocked prefix never ends clean. */
  lemma StaysBlocked(fs: seq<Finding>, i: nat, threshold: nat)
    requires i <= |fs| && DecideFrom(false, fs[..i], threshold) == Decided(true)
    ensures DecideFrom(false, fs, threshold) != Decided(false)
  {
    DecideAppend(false, fs[..i], fs[i..], threshold);
    assert fs[..i] + fs[i..] == fs;
    StartBlockedStaysBlocked(fs[i..], threshold);
  }

  lemma {:induction false} StartBlockedStaysBlocked(fs: seq<Finding>, threshold: nat)
    ensures DecideFrom(true, fs, threshold) != Decided(false)
  {
    if fs != [] {
      StartBlockedStaysBlocked(fs[..|fs| - 1], threshold);
    }
  }

  /** Lowering the threshold never un-blocks a run, and whether the fold fails
      on an unknown severity does not depend on the threshold at all. */
  lemma {:induction false} ThresholdMonotone(blocked: bool, fs: seq<Finding>, lo: nat, hi: nat)
    requires lo <= hi
    ensures DecideFrom(blocked, fs, hi) == Decided(true) ==> DecideFrom(blocked, fs, lo) == Decided(true)
    ensures DecideFrom(blocked, fs, lo).UnknownSeverity? <==> DecideFrom(blocked, fs, hi).UnknownSeverity?
  {
    if fs != [] {
      ThresholdMonotone(blocked, fs[..|fs| - 1], lo, hi);
    }
  }
}
