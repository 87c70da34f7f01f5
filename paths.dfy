/** Path classification: pathlib's `Path.name` and `Path.suffix` for POSIX paths,
    and the scanner's `get_language`. */
module Paths {
  import opened Seqs

  /** The text after the last '/' of p (empty when p ends in '/'). */
  function FinalSegment(p: string): (c: string)
    ensures |c| <= |p|
  {
    if p == [] || p[|p| - 1] == '/' then []
    else FinalSegment(p[..|p| - 1]) + [p[|p| - 1]]
  }

  /** The final segment is the text after the last '/': it ends p, holds no '/',
      and is preceded by a '/' unless it is the whole of p. */
  lemma {:induction false} FinalSegmentShape(p: string)
    ensures FinalSegment(p) == p[|p| - |FinalSegment(p)|..]
    ensures '/' !in FinalSegment(p)
    ensures |FinalSegment(p)| < |p| ==> p[|p| - |FinalSegment(p)| - 1] == '/'
  {
    if p != [] && p[|p| - 1] != '/' {
      FinalSegmentShape(p[..|p| - 1]);
    }
  }

  /** `Path(p).name`: pathlib drops empty and "." segments, so the name is the last
      segment that is neither; it is empty when there is none ("", "/", "."). */
  function Name(p: string): string
    decreases |p|
  {
    var c := FinalSegment(p);
    if c != [] && c != "." then c
    else if |c| == |p| then []
    else Name(p[..|p| - |c| - 1])
  }

  /** A name is a single segment, neither "." nor containing '/', and no longer than the path. */
  lemma {:induction false} NameShape(p: string)
    ensures '/' !in Name(p) && Name(p) != "."
    ensures |Name(p)| <= |p|
    decreases |p|
  {
    var c := FinalSegment(p);
    FinalSegmentShape(p);
    if !(c != [] && c != ".") && |c| != |p| {
      NameShape(p[..|p| - |c| - 1]);
    }
  }

  /** A path without '/' is its own final segment. */
  lemma {:induction false} FinalSegmentNoSlash(p: string)
    requires '/' !in p
    ensures FinalSegment(p) == p
  {
    if p != [] {
      assert p == p[..|p| - 1] + [p[|p| - 1]];
      FinalSegmentNoSlash(p[..|p| - 1]);
    }
  }

  /** A path that is one non-empty segment other than "." is its own name. */
  lemma NameNoSlash(p: string)
    requires '/' !in p && p != [] && p != "."
    ensures Name(p) == p
  {
    FinalSegmentNoSlash(p);
  }

  /** Whatever precedes the last '/', the final segment is what follows it. */
  lemma {:induction false} FinalSegmentAfterSlash(q: string, c: string)
    requires '/' !in c
    ensures FinalSegment(q + "/" + c) == c
    decreases |c|
  {
    var p := q + "/" + c;
    if c == [] {
      assert p[|p| - 1] == '/';
    } else {
      var front := c[..|c| - 1];
      assert p[..|p| - 1] == q + "/" + front;
      assert p[|p| - 1] == c[|c| - 1];
      assert c[|c| - 1] in c;
      FinalSegmentAfterSlash(q, front);
      assert c == front + [c[|c| - 1]];
    }
  }

  /** The name of a path is its last segment when that segment is neither empty nor ".". */
  lemma NameLastSegment(q: string, c: string)
    requires '/' !in c && c != [] && c != "."
    ensures Name(q + "/" + c) == c
  {
    FinalSegmentAfterSlash(q, c);
  }

  /** A trailing '/' does not change the name. */
  lemma NameTrailingSlash(p: string)
    ensures Name(p + "/") == Name(p)
  {
    FinalSegmentAfterSlash(p, []);
    assert p + "/" + [] == p + "/";
    assert (p + "/")[..|p|] == p;
  }

  /** A trailing "/." segment does not change the name. */
  lemma NameTrailingDot(p: string)
    ensures Name(p + "/.") == Name(p)
  {
    FinalSegmentAfterSlash(p, ".");
    assert p + "/" + "." == p + "/.";
    assert (p + "/.")[..|p|] == p;
  }

  /** Position of the last occurrence of c in s (Python's `s.rfind(c)`). */
  function LastIndexOf(s: string, c: char): (r: Option<nat>)
    ensures r.Some? ==> r.value < |s| && s[r.value] == c
    ensures r.Some? ==> forall k :: r.value < k < |s| ==> s[k] != c
    ensures r.None? ==> c !in s
  {
    if s == [] then None
    else if s[|s| - 1] == c then Some(|s| - 1)
    else
      var r := LastIndexOf(s[..|s| - 1], c);
      assert s == s[..|s| - 1] + [s[|s| - 1]];
      r
  }

  /** `Path(p).suffix`: from the last '.' of the name to its end, provided that
      dot is neither the name's first nor its last character; otherwise empty. */
  function Suffix(p: string): string
  {
    var n := Name(p);
    match LastIndexOf(n, '.')
    case Some(i) => if 0 < i < |n| - 1 then n[i..] else []
    case None => []
  }

  /** A non-empty suffix is a dot, then at least one character and no further dot,
      taken from the end of the name, which has something before it. */
  lemma SuffixShape(p: string)
    ensures Suffix(p) == [] ||
      (Suffix(p)[0] == '.' && 2 <= |Suffix(p)| < |Name(p)| && Suffix(p) == Name(p)[|Name(p)| - |Suffix(p)|..])
    ensures Suffix(p) != [] ==> '.' !in Suffix(p)[1..]
    ensures '.' !in Name(p) ==> Suffix(p) == []
    ensures forall i :: 0 <= i < |Name(p)| && Name(p)[i] == '.' && '.' !in Name(p)[i + 1..] ==>
      Suffix(p) == (if 0 < i < |Name(p)| - 1 then Name(p)[i..] else [])
  {
    var n := Name(p);
    forall i | 0 <= i < |n| && n[i] == '.' && '.' !in n[i + 1..]
      ensures Suffix(p) == (if 0 < i < |n| - 1 then n[i..] else [])
    {
      SuffixOfLastDot(p, i);
    }
  }

  /** The suffix is decided by the name's last dot: the text from that dot on,
      unless the dot opens or closes the name. */
  lemma SuffixOfLastDot(p: string, i: nat)
    requires i < |Name(p)| && Name(p)[i] == '.' && '.' !in Name(p)[i + 1..]
    ensures Suffix(p) == (if 0 < i < |Name(p)| - 1 then Name(p)[i..] else [])
  {
    var n := Name(p);
    var r := LastIndexOf(n, '.');
    assert n[i] in n;
    assert forall k :: i < k < |n| ==> n[k] == n[i + 1..][k - i - 1];
    assert r == Some(i);
  }

  /** A path has suffix ".py" exactly when its name ends in ".py" and has
      at least one character before that dot. */
  lemma SuffixIsPy(p: string)
    ensures Suffix(p) == ".py" <==> (|Name(p)| >= 4 && Name(p)[|Name(p)| - 3..] == ".py")
  {
    var n := Name(p);
    if |n| >= 4 && n[|n| - 3..] == ".py" {
      assert n[|n| - 3] == '.' && n[|n| - 2] == 'p' && n[|n| - 1] == 'y';
      var r := LastIndexOf(n, '.');
      assert r.Some?;
      assert r.value == |n| - 3;
    }
  }

  /** `get_language(path)`: "python" for a ".py" suffix, no language otherwise. */
  function GetLanguage(p: string): (lang: Option<string>)
    ensures lang.Some? ==> lang.value == "python"
  {
    if Suffix(p) == ".py" then Some("python") else None
  }

  /** A path is classified as Python exactly when its name ends in ".py" with
      at least one character before the dot; every other path has no language. */
  lemma GetLanguageIsPython(p: string)
    ensures GetLanguage(p) == Some("python") <==> |Name(p)| >= 4 && Name(p)[|Name(p)| - 3..] == ".py"
    ensures GetLanguage(p) != Some("python") ==> GetLanguage(p).None?
  {
    SuffixIsPy(p);
  }

  /** A module name is Python source. */
  lemma PythonModuleExample()
    ensures GetLanguage("app.py") == Some("python")
  {
    NameNoSlash("app.py");
    GetLanguageIsPython("app.py");
    assert "app.py"[3..] == ".py";
  }

  /** A module inside a directory is Python source. */
  lemma SourceModuleExample()
    ensures GetLanguage("src/app.py") == Some("python")
  {
    NameLastSegment("src", "app.py");
    assert "src" + "/" + "app.py" == "src/app.py";
    GetLanguageIsPython("src/app.py");
    assert "app.py"[3..] == ".py";
  }

  /** Trailing "/" and "/." segments do not hide the name. */
  lemma TrailingDotExample()
    ensures GetLanguage("pkg/m.py/.") == Some("python")
  {
    FinalSegmentShape("pkg/m.py/.");
    assert FinalSegment("pkg/m.py/.") == ".";
    assert "pkg/m.py/."[..8] == "pkg/m.py";
    FinalSegmentShape("pkg/m.py");
    assert FinalSegment("pkg/m.py") == "m.py";
    assert Name("pkg/m.py") == "m.py";
    assert Name("pkg/m.py/.") == "m.py";
  }

  /** A text file has no language. */
  lemma TextFileExample()
    ensures GetLanguage("notes.txt").None?
  {
    NameNoSlash("notes.txt");
    GetLanguageIsPython("notes.txt");
    assert "notes.txt"[6] == 't';
  }

  /** A name that is only ".py" has no suffix, hence no language. */
  lemma DotPyNameExample()
    ensures GetLanguage("dir/.py").None?
  {
    FinalSegmentShape("dir/.py");
    assert FinalSegment("dir/.py") == ".py";
  }
}
