/**
 Path handling of `FSInject.c`, on ASCII paths: case-insensitive comparison, relative names,
 and the map from names under the target directory to names in the injection directory.
 */
module FsPaths {
  import opened Basics

  predicate Ascii(s: string) {
    forall i | 0 <= i < |s| :: '\0' < s[i] < 0x80 as char
  }

  function ToUpperChar(c: char): char {
    if 'a' <= c <= 'z' then (c as int - 32) as char else c
  }

  /** The character a C string shows at position i: its terminator at the end. */
  function CharAt(s: string, i: nat): char
    requires i <= |s|
  {
    if i < |s| then s[i] else '\0'
  }

  // ----- comparisons

  predicate SameIgnoringCase(s: string, t: string) {
    |s| == |t| && forall i | 0 <= i < |s| :: ToUpperChar(s[i]) == ToUpperChar(t[i])
  }

  predicate StartsIgnoringCase(s: string, prefix: string) {
    |prefix| <= |s| && SameIgnoringCase(s[..|prefix|], prefix)
  }

  /** Two ASCII characters agree ignoring case if they are equal or the two forms of one letter. */
  lemma {:induction false} UpperExactly(c: char, d: char)
    ensures ToUpperChar(c) == ToUpperChar(d) <==>
      || c == d
      || ('a' <= c <= 'z' && c as int == d as int + 32)
      || ('a' <= d <= 'z' && d as int == c as int + 32)
  {
  }

  /** Zero exactly when the strings agree ignoring case. */
  method StrCmpiBasic(s: string, t: string) returns (difference: int)
    requires Ascii(s) && Ascii(t)
    ensures difference == 0 <==> SameIgnoringCase(s, t)
  {
    if |s| == 0 && |t| == 0 {
      return 0;
    }
    if |s| == 0 || |t| == 0 {
      return 1;
    }
    var i := 0;
    var c1, c2 := ToUpperChar(s[0]), ToUpperChar(t[0]);
    while CharAt(s, i) != '\0' && c1 == c2
      invariant 0 <= i <= |s| && i <= |t|
      invariant c1 == ToUpperChar(CharAt(s, i)) && c2 == ToUpperChar(CharAt(t, i))
      invariant forall k | 0 <= k < i :: ToUpperChar(s[k]) == ToUpperChar(t[k])
      decreases |s| - i
    {
      i := i + 1;
      c1, c2 := ToUpperChar(CharAt(s, i)), ToUpperChar(CharAt(t, i));
    }
    return c1 as int - c2 as int;
  }

  /** Prefix test ignoring case; only the empty string starts with the empty string. */
  method StriStartsWithBasic(s: string, prefix: string) returns (starts: bool)
    requires Ascii(s) && Ascii(prefix)
    ensures starts <==> StartsIgnoringCase(s, prefix) && (prefix == "" ==> s == "")
  {
    if |s| == 0 && |prefix| == 0 {
      return true;
    }
    if |s| == 0 || |prefix| == 0 {
      return false;
    }
    var i := 0;
    var c1, c2 := ToUpperChar(s[0]), ToUpperChar(prefix[0]);
    while c1 != '\0' && c2 != '\0' && c1 == c2
      invariant 0 <= i <= |s| && i <= |prefix|
      invariant c1 == ToUpperChar(CharAt(s, i)) && c2 == ToUpperChar(CharAt(prefix, i))
      invariant forall k | 0 <= k < i :: ToUpperChar(s[k]) == ToUpperChar(prefix[k])
      decreases |s| - i
    {
      i := i + 1;
      c1, c2 := ToUpperChar(CharAt(s, i)), ToUpperChar(CharAt(prefix, i));
    }
    return (c1 == '\0' && c2 == '\0') || (c1 != '\0' && c2 == '\0');
  }

  // ----- last occurrences

  /** Position of the last c below n, or none. */
  function LastBelow(s: string, c: char, n: nat): (r: Option<nat>)
    requires n <= |s|
    ensures r.Some? ==> r.value < n && s[r.value] == c && forall k | r.value < k < n :: s[k] != c
    ensures r.None? ==> forall k | 0 <= k < n :: s[k] != c
  {
    if n == 0 then None else if s[n - 1] == c then Some(n - 1) else LastBelow(s, c, n - 1)
  }

  lemma {:induction false} LastIs(s: string, c: char, n: nat, at: nat)
    requires at < n <= |s| && s[at] == c && forall k | at < k < n :: s[k] != c
    ensures LastBelow(s, c, n) == Some(at)
  {
  }

  method GetStrLastCharOccurence(s: string, c: char) returns (r: Option<nat>)
    requires c != '\0'
    ensures r == LastBelow(s, c, |s|)
  {
    if |s| == 0 {
      return None;
    }
    var pos := 0;
    while pos < |s|
      invariant 0 <= pos <= |s|
    {
      pos := pos + 1;
    }
    while CharAt(s, pos) != c && pos != 0
      invariant 0 <= pos <= |s|
      invariant LastBelow(s, c, |s|) == LastBelow(s, c, if pos == |s| then |s| else pos + 1)
      decreases pos
    {
      pos := pos - 1;
    }
    return if CharAt(s, pos) == c then Some(pos) else None;
  }

  // ----- names

  /** A file name relative to its parent's name. */
  function Normalized(parent: string, fname: string): string {
    if fname != "" && fname[0] == '\\' then fname
    else if fname == "." then parent
    else if fname == ".." then
      var last := LastBelow(parent, '\\', |parent|);
      if last.Some? && last.value != 0 then parent[..last.value] else "\\"
    else parent + (if parent == "" || parent[|parent| - 1] != '\\' then "\\" else "") + fname
  }

  method GetNormalizedFName(parent: string, fname: string) returns (r: string)
    ensures r == Normalized(parent, fname)
  {
    if CharAt(fname, 0) == '\\' {
      r := fname;
    } else if |fname| == 1 && fname[0] == '.' {
      r := parent;
    } else if |fname| == 2 && fname[0] == '.' && fname[1] == '.' {
      var last := GetStrLastCharOccurence(parent, '\\');
      if last.Some? && last.value != 0 {
        r := parent[..last.value];
      } else {
        r := "\\";
      }
    } else {
      r := parent;
      if |parent| == 0 || parent[|parent| - 1] != '\\' {
        r := r + "\\";
      }
      r := r + fname;
    }
  }

  /** Absolute, and without a trailing backslash unless it is the root. */
  predicate IsNormalized(p: string) {
    p != "" && p[0] == '\\' && (|p| > 1 ==> p[|p| - 1] != '\\')
  }

  predicate IsComponent(n: string) {
    n != "" && n != "." && n != ".." && forall i | 0 <= i < |n| :: n[i] != '\\'
  }

  /** An absolute name stands for itself, "." for where one is, and ".." goes no higher than the root. */
  lemma {:induction false} NormalizedLaws(p: string, n: string)
    ensures Normalized(p, "\\" + n) == "\\" + n
    ensures Normalized(p, ".") == p
    ensures Normalized("\\", "..") == "\\"
    ensures IsComponent(n) && IsNormalized(p) ==> Normalized(p, n) == (if p == "\\" then "\\" else p + "\\") + n
  {
    assert LastBelow("\\", '\\', 1) == Some(0);
    if IsComponent(n) && IsNormalized(p) && p != "\\" {
      assert |p| > 1;
    }
  }

  /** Going into a component and back up returns to where one was. */
  lemma {:induction false} DownAndUp(p: string, n: string)
    requires IsNormalized(p) && IsComponent(n)
    ensures IsNormalized(Normalized(p, n))
    ensures Normalized(Normalized(p, n), "..") == p
  {
    var q := Normalized(p, n);
    var at := |q| - |n| - 1;
    assert q[at] == '\\' && q[at + 1..] == n;
    forall k | at < k < |q|
      ensures q[k] != '\\'
    {
      assert q[k] == q[at + 1..][k - at - 1];
    }
    LastIs(q, '\\', |q|, at);
    if p == "\\" {
      assert at == 0;
    } else {
      assert at == |p| && q[..at] == p;
    }
  }

  // ----- injection names

  /** The image in srcDir of a name under tgtDir. */
  function InjectionName(tgtDir: string, srcDir: string, fname: string): Option<string> {
    if StartsIgnoringCase(fname, tgtDir) && |fname| > |tgtDir| && fname[|tgtDir|] == '\\'
    then Some(srcDir + fname[|tgtDir|..])
    else None
  }

  lemma {:induction false} PrefixAt(s: string, prefix: string, i: nat)
    ensures StartsIgnoringCase(s, prefix) && i < |prefix| ==> ToUpperChar(s[i]) == ToUpperChar(prefix[i])
  {
  }

  /** Defined exactly on names that continue tgtDir, ignoring case, with a backslash. */
  method GetInjectionFName(tgtDir: string, srcDir: string, fname: string) returns (r: Option<string>)
    requires Ascii(tgtDir) && Ascii(fname)
    ensures r == InjectionName(tgtDir, srcDir, fname)
  {
    var i := 0;
    var c1, c2 := ToUpperChar(CharAt(tgtDir, 0)), ToUpperChar(CharAt(fname, 0));
    while CharAt(tgtDir, i) != '\0' && c1 == c2
      invariant 0 <= i <= |tgtDir| && i <= |fname|
      invariant c1 == ToUpperChar(CharAt(tgtDir, i)) && c2 == ToUpperChar(CharAt(fname, i))
      invariant forall k | 0 <= k < i :: ToUpperChar(tgtDir[k]) == ToUpperChar(fname[k])
      decreases |tgtDir| - i
    {
      i := i + 1;
      c1, c2 := ToUpperChar(CharAt(tgtDir, i)), ToUpperChar(CharAt(fname, i));
    }
    if CharAt(tgtDir, i) != '\0' {
      PrefixAt(fname, tgtDir, i);
      return None;
    }
    if CharAt(fname, i) != '\\' {
      return None;
    }
    r := Some(srcDir + fname[i..]);
  }

  /** Taking the image commutes with going into a component. */
  lemma {:induction false} InjectionCommutes(tgtDir: string, srcDir: string, p: string, n: string)
    requires IsComponent(n) && p != ""
    ensures InjectionName(tgtDir, srcDir, p).Some? ==>
      InjectionName(tgtDir, srcDir, Normalized(p, n)) == Some(Normalized(InjectionName(tgtDir, srcDir, p).value, n))
  {
    if InjectionName(tgtDir, srcDir, p).Some? {
      var q := InjectionName(tgtDir, srcDir, p).value;
      var m := Normalized(p, n);
      assert q[|q| - 1] == p[|p| - 1];
      assert m[..|tgtDir|] == p[..|tgtDir|];
      assert srcDir + m[|tgtDir|..] == Normalized(q, n);
    }
  }

  /** Going into a component gives a name with an image exactly from a name with one or from the target directory. */
  lemma {:induction false} InjectionDefined(tgtDir: string, srcDir: string, p: string, n: string)
    requires IsComponent(n) && IsNormalized(p)
    ensures InjectionName(tgtDir, srcDir, Normalized(p, n)).Some? <==>
      InjectionName(tgtDir, srcDir, p).Some? || (|p| > 1 && SameIgnoringCase(p, tgtDir))
  {
    var m, i := Normalized(p, n), |tgtDir|;
    var at := |m| - |n|;
    assert m[at..] == n && m[..at] == if |p| > 1 then p + "\\" else p;
    assert forall k | at <= k < |m| :: m[k] == n[k - at];
    if i < |p| {
      assert m[..i] == p[..i] && m[i] == p[i];
    } else if i == |p| && |p| > 1 {
      assert m[..i] == p;
    }
    SameSymmetric(p, tgtDir);
  }

  lemma {:induction false} SameSymmetric(s: string, t: string)
    ensures SameIgnoringCase(s, t) == SameIgnoringCase(t, s)
  {
  }

  /** Entries of the target directory itself map to entries of the injection directory. */
  lemma {:induction false} InjectionAtTarget(tgtDir: string, srcDir: string, p: string, n: string)
    requires IsComponent(n) && IsNormalized(p) && |p| > 1 && SameIgnoringCase(p, tgtDir)
    ensures InjectionName(tgtDir, srcDir, p).None?
    ensures InjectionName(tgtDir, srcDir, Normalized(p, n)) == Some(srcDir + "\\" + n)
  {
    var m := Normalized(p, n);
    assert m[..|tgtDir|] == p;
    assert m[|tgtDir|..] == "\\" + n;
    assert srcDir + ("\\" + n) == srcDir + "\\" + n;
  }
}
