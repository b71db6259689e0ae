/** The POSIX `os.path.split` and `os.path.splitext` that
    `load_module_form_file` applies to a plugin file path. */
module Paths {

  const Sep: char := '/'
  const ExtSep: char := '.'

  /** `s.rfind(c)`: the last position of `c` in `s`, or -1. */
  function RFind(s: string, c: char): (r: int)
    ensures -1 <= r < |s|
    ensures r >= 0 ==> s[r] == c
    ensures forall k :: r < k < |s| ==> s[k] != c
  {
    if s == [] then -1
    else if s[|s| - 1] == c then |s| - 1
    else RFind(s[..|s| - 1], c)
  }

  /** `s` consists of separators only. */
  predicate AllSep(s: string)
  {
    forall k :: 0 <= k < |s| ==> s[k] == Sep
  }

  /** `s.rstrip("/")`. */
  function RStripSep(s: string): (r: string)
    ensures |r| <= |s| && r == s[..|r|]
    ensures r == [] || r[|r| - 1] != Sep
    ensures AllSep(s[|r|..])
  {
    if s != [] && s[|s| - 1] == Sep then
      var r := RStripSep(s[..|s| - 1]);
      assert s[..|s| - 1][..|r|] == s[..|r|];
      assert forall k :: |r| <= k < |s| - 1 ==> s[k] == s[..|s| - 1][k];
      r
    else
      s
  }

  /** `os.path.split(p)`: the tail is everything after the last separator; the
      head is what precedes it, with its trailing separators removed unless it
      is made of separators only. */
  function Split(p: string): (r: (string, string))
    ensures Sep !in r.1
    ensures |r.1| <= |p| && p[|p| - |r.1|..] == r.1
    ensures |r.1| < |p| ==> p[|p| - |r.1| - 1] == Sep
    ensures var front := p[..|p| - |r.1|];
      if AllSep(front) then r.0 == front
      else
        && r.0 != [] && r.0[|r.0| - 1] != Sep
        && |r.0| <= |front| && r.0 == front[..|r.0|]
        && AllSep(front[|r.0|..])
  {
    var i := RFind(p, Sep) + 1;
    var head, tail := p[..i], p[i..];
    if head != [] && !AllSep(head) then
      var h := RStripSep(head);
      assert head[0..] == head;
      (h, tail)
    else
      (head, tail)
  }

  /** Some character of `s` is not a dot. */
  predicate HasNonDot(s: string)
  {
    exists k :: 0 <= k < |s| && s[k] != ExtSep
  }

  /** In a name without separator, the last dot starts an extension exactly
      when some dot has a non-dot character before it. */
  lemma LastDotDecides(p: string)
    ensures Sep !in p ==>
      var dotIndex := RFind(p, ExtSep);
      && RFind(p, Sep) == -1
      && (dotIndex > -1 && HasNonDot(p[0..dotIndex])
          <==> exists k :: 0 <= k < |p| && p[k] == ExtSep && HasNonDot(p[..k]))
  {
    if Sep !in p {
      RFindIs(p, Sep, -1);
      var dotIndex := RFind(p, ExtSep);
      forall k | 0 <= k < |p| && p[k] == ExtSep && HasNonDot(p[..k])
        ensures dotIndex >= 0 && HasNonDot(p[0..dotIndex])
      {
        var j :| 0 <= j < k && p[..k][j] != ExtSep;
        assert p[0..dotIndex][j] == p[j];
      }
      if dotIndex > -1 && HasNonDot(p[0..dotIndex]) {
        assert p[..dotIndex] == p[0..dotIndex];
      }
    }
  }

  /** `os.path.splitext(p)`: the extension runs from the last dot of the last
      path component to the end, unless only dots precede that dot within the
      component (a leading dot does not start an extension). */
  function SplitExt(p: string): (r: (string, string))
    ensures r.0 + r.1 == p
    ensures r.1 != [] ==> r.1[0] == ExtSep && ExtSep !in r.1[1..] && Sep !in r.1
    ensures Sep !in p ==>
      (r.1 != [] <==> exists k :: 0 <= k < |p| && p[k] == ExtSep && HasNonDot(p[..k]))
  {
    var sepIndex := RFind(p, Sep);
    var dotIndex := RFind(p, ExtSep);
    LastDotDecides(p);
    if dotIndex > sepIndex && HasNonDot(p[sepIndex + 1..dotIndex]) then
      assert p[..dotIndex] + p[dotIndex..] == p;
      (p[..dotIndex], p[dotIndex..])
    else
      (p, [])
  }

  /** `RFind` finds the occurrence of `c` after which no other follows. */
  lemma RFindIs(s: string, c: char, i: int)
    requires -1 <= i < |s|
    requires i >= 0 ==> s[i] == c
    requires forall k :: i < k < |s| ==> s[k] != c
    ensures RFind(s, c) == i
  {
  }

  /** A path `dir/file` splits back into `dir` and `file`. */
  lemma SplitJoin(dir: string, file: string)
    requires dir != [] && dir[|dir| - 1] != Sep
    requires Sep !in file
    ensures Split(dir + [Sep] + file) == (dir, file)
  {
    var p := dir + [Sep] + file;
    forall k | |dir| < k < |p| ensures p[k] != Sep {
      assert p[k] == file[k - |dir| - 1];
    }
    RFindIs(p, Sep, |dir|);
    var head := dir + [Sep];
    assert p[..|dir| + 1] == head;
    assert head[|dir| - 1] != Sep;
    assert head[..|dir|] == dir;
    assert p[|dir| + 1..] == file;
  }

  /** A file name `name.ext` splits back into `name` and `.ext`, provided
      `name` is not made of dots only. */
  lemma SplitExtJoin(name: string, ext: string)
    requires Sep !in name && HasNonDot(name)
    requires Sep !in ext && ExtSep !in ext
    ensures SplitExt(name + [ExtSep] + ext) == (name, [ExtSep] + ext)
  {
    var file := name + [ExtSep] + ext;
    forall k | |name| < k < |file| ensures file[k] != ExtSep {
      assert file[k] == ext[k - |name| - 1];
    }
    RFindIs(file, ExtSep, |name|);
    forall k | 0 <= k < |file| ensures file[k] != Sep {
      if k < |name| { assert file[k] == name[k]; }
      else if k > |name| { assert file[k] == ext[k - |name| - 1]; }
    }
    RFindIs(file, Sep, -1);
    assert file[0..|name|] == name;
    assert file[..|name|] == name && file[|name|..] == [ExtSep] + ext;
  }

  /** A file `name.ext` inside directory `dir` splits back into `dir`,
      `name` and `.ext`, provided `name` is not made of dots only. */
  lemma FilePathRoundTrip(dir: string, name: string, ext: string)
    requires dir != [] && dir[|dir| - 1] != Sep
    requires Sep !in name && HasNonDot(name)
    requires Sep !in ext && ExtSep !in ext
    ensures Split(dir + [Sep] + name + [ExtSep] + ext) == (dir, name + [ExtSep] + ext)
    ensures SplitExt(name + [ExtSep] + ext) == (name, [ExtSep] + ext)
  {
    var file := name + [ExtSep] + ext;
    assert Sep !in file by {
      forall k | 0 <= k < |file| ensures file[k] != Sep {
        if k < |name| { assert file[k] == name[k]; }
        else if k > |name| { assert file[k] == ext[k - |name| - 1]; }
      }
    }
    assert dir + [Sep] + name + [ExtSep] + ext == dir + [Sep] + file;
    SplitJoin(dir, file);
    SplitExtJoin(name, ext);
  }

  /** A path without separator has an empty head: `plugin.py` gives the
      directory `""`. */
  lemma {:induction false} SplitBareName(p: string)
    requires Sep !in p
    ensures Split(p) == ([], p)
  {
    RFindIs(p, Sep, -1);
    assert p[..0] == [] && p[0..] == p;
  }

  /** A file directly under the root keeps the root as head: `/plugin.py`
      gives the directory `"/"`. */
  lemma {:induction false} SplitUnderRoot(file: string)
    requires Sep !in file
    ensures Split([Sep] + file) == ([Sep], file)
  {
    var p := [Sep] + file;
    forall k | 0 < k < |p| ensures p[k] != Sep {
      assert p[k] == file[k - 1];
    }
    RFindIs(p, Sep, 0);
    assert p[..1] == [Sep] && AllSep([Sep]);
    assert p[1..] == file;
  }

  /** A file name whose dots all lead it has no extension: `.py` and `..py`
      both keep the whole name. */
  lemma LeadingDotIsNotExtension(dots: string, rest: string)
    requires dots != [] && !HasNonDot(dots)
    requires Sep !in dots && Sep !in rest && ExtSep !in rest
    ensures SplitExt(dots + rest) == (dots + rest, [])
  {
    var p := dots + rest;
    assert Sep !in p by {
      forall k | 0 <= k < |p| ensures p[k] != Sep {
        if k >= |dots| { assert p[k] == rest[k - |dots|]; }
        else { assert p[k] == dots[k]; }
      }
    }
    forall k | |dots| <= k < |p| ensures p[k] != ExtSep {
      assert p[k] == rest[k - |dots|];
    }
    forall k | 0 <= k < |dots| ensures !HasNonDot(p[..k]) {
      assert p[..k] == dots[..k];
    }
  }
}
