/** The parts of Python's `ntpath` (Windows `os.path`) that the pack generator uses on strings:
    `splitdrive`, `basename`, `splitext` and two-argument `join`. */
module Paths {
  import opened Text

  predicate IsSep(c: char) {
    c == '\\' || c == '/'
  }

  /** `s.rfind(c)`: the last index of `c`, or -1. */
  function LastIndex(s: string, c: char): (r: int)
    ensures -1 <= r < |s|
    ensures r >= 0 ==> s[r] == c
    ensures forall k :: r < k < |s| ==> s[k] != c
    decreases |s|
  {
    if s == [] then -1
    else if s[|s| - 1] == c then |s| - 1
    else LastIndex(s[..|s| - 1], c)
  }

  /** The last index of a separator, or -1. */
  function LastSep(s: string): (r: int)
    ensures -1 <= r < |s|
    ensures r >= 0 ==> IsSep(s[r])
    ensures forall k :: r < k < |s| ==> !IsSep(s[k])
  {
    var a := LastIndex(s, '\\');
    var b := LastIndex(s, '/');
    if a < b then b else a
  }

  /** First separator at or after `from`, or -1. */
  function SepFrom(s: string, from: nat): (r: int)
    ensures r == -1 || (from <= r < |s| && IsSep(s[r]))
    decreases |s| - from
  {
    if from >= |s| then -1
    else if IsSep(s[from]) then from
    else SepFrom(s, from + 1)
  }

  /** The drive part of `splitdrive(p)`: `X:` for a drive letter, `\\server\share` for a UNC
      path (the whole path when it has no separator after the share name), else empty. */
  function SplitDrive(p: string): (d: string)
    ensures d <= p
  {
    if |p| >= 2 && IsSep(p[0]) && IsSep(p[1]) then
      var i := SepFrom(p, 2);
      if i == -1 then p
      else
        var j := SepFrom(p, i + 1);
        if j == -1 then p else p[..j]
    else if |p| >= 2 && p[1] == ':' then p[..2]
    else []
  }

  /** `basename(p)`: what follows the last separator of the part after the drive. */
  function Basename(p: string): (r: string)
    ensures forall k :: 0 <= k < |r| ==> !IsSep(r[k])
  {
    var rest := p[|SplitDrive(p)|..];
    rest[LastSep(rest) + 1..]
  }

  /** `splitext(p)`: the extension is the text from the last dot on, unless that dot is in a
      directory part or only dots precede it in the last component. */
  function SplitExt(p: string): (string, string) {
    var sep := LastSep(p);
    var dot := LastIndex(p, '.');
    if dot > sep && exists k :: sep + 1 <= k < dot && p[k] != '.' then (p[..dot], p[dot..])
    else (p, [])
  }

  /** `join(a, b)`: a second part with its own drive replaces the first; one that starts with a
      separator keeps only the drive of the first; otherwise a separator is put between them
      unless the first already ends in one or is a bare drive letter. A second part with a
      drive but no root (`C:foo`) is taken as replacing the first even when the drives match,
      where `ntpath.join` would append it; such parts are not modelled. */
  function Join(a: string, b: string): string {
    if SplitDrive(b) != [] then b
    else if b != [] && IsSep(b[0]) then SplitDrive(a) + b
    else
      var drive := SplitDrive(a);
      var rest := a[|drive|..];
      if rest == [] then
        if drive != [] && drive[|drive| - 1] != ':' && !IsSep(drive[|drive| - 1]) then a + "\\" + b
        else a + b
      else if IsSep(rest[|rest| - 1]) then a + b
      else a + "\\" + b
  }

  /** The last separator of `pre` + `\` + `name`, for a `name` without separators, is the
      one put between them. */
  lemma LastSepBeforeName(pre: string, name: string)
    requires forall k :: 0 <= k < |name| ==> !IsSep(name[k])
    ensures LastSep(pre + "\\" + name) == |pre|
  {
    var s := pre + "\\" + name;
    assert IsSep(s[|pre|]);
    forall k | |pre| < k < |s|
      ensures !IsSep(s[k])
    {
      assert s[k] == name[k - |pre| - 1];
    }
  }

  /** The basename of a drive-letter path is its last component. */
  lemma BasenameOfDrivePath(letter: char, dirs: string, name: string)
    requires forall k :: 0 <= k < |name| ==> !IsSep(name[k])
    ensures Basename([letter, ':'] + (dirs + "\\" + name)) == name
  {
    var rest := dirs + "\\" + name;
    var p := [letter, ':'] + rest;
    assert SplitDrive(p) == [letter, ':'];
    assert p[2..] == rest;
    LastSepBeforeName(dirs, name);
    assert rest[|dirs| + 1..] == name;
  }

  /** The two parts of `splitext` put together give the name back, and a non-empty extension
      is a dot followed by no further dot. */
  lemma SplitExtParts(p: string)
    ensures SplitExt(p).0 + SplitExt(p).1 == p
    ensures SplitExt(p).1 == [] || (SplitExt(p).1[0] == '.' && '.' !in SplitExt(p).1[1..])
  {
    var dot := LastIndex(p, '.');
    if SplitExt(p).1 != [] {
      assert SplitExt(p).1 == p[dot..];
      var tail := p[dot + 1..];
      forall k | 0 <= k < |tail|
        ensures tail[k] != '.'
      {
        assert tail[k] == p[dot + 1 + k];
      }
    }
  }
}
