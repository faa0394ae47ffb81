/** `DirectoryPickerComponent._truncatePath`: shortens an absolute Windows path for display to
    its drive, `\...` and its last `segCount` components. */
module Truncate {
  import Paths

  /** The number of backslashes in `s`. */
  function Backslashes(s: string): nat {
    multiset(s)['\\']
  }

  /** `s.rfind('\\', 0, end)`: Python clips a negative `end` by adding `len(s)` (and then at 0)
      and a large one at `len(s)`, then searches `s[0:end]`. */
  function PyRFind(s: string, end: int): (r: int)
    ensures -1 <= r < |s|
    ensures r >= 0 ==> s[r] == '\\'
  {
    var e := if end < 0 then (if end + |s| < 0 then 0 else end + |s|) else if end > |s| then |s| else end;
    Paths.LastIndex(s[..e], '\\')
  }

  /** `sepIndex` after `i` turns of the loop as written: each turn searches before the previous
      index, so a -1 searches everything but the last character. */
  function SepIndexAsWritten(s: string, i: int): (r: int)
    ensures -1 <= r <= |s|
    decreases i
  {
    if i <= 0 then |s| else PyRFind(s, SepIndexAsWritten(s, i - 1))
  }

  /** `sepIndex` after `i` turns of the intended loop: once no backslash is left it stays -1. */
  function SepIndex(s: string, i: int): (r: int)
    ensures -1 <= r <= |s|
    decreases i
  {
    if i <= 0 then |s|
    else
      var prev := SepIndex(s, i - 1);
      if prev == -1 then -1 else PyRFind(s, prev)
  }

  /** The final choice: the whole path when the loop ran out of backslashes or none is left
      before `sepIndex`, else the drive, `\...` and the path from `sepIndex` on. */
  function Shortened(s: string, sepIndex: int): string
    requires -1 <= sepIndex <= |s|
  {
    if sepIndex == -1 || PyRFind(s, sepIndex) == -1 then s
    else Paths.SplitDrive(s) + "\\" + "..." + s[sepIndex..]
  }

  /** The method as written in the source. */
  method TruncatePathAsWritten(fullPath: string, segCount: int) returns (r: string)
    ensures r == Shortened(fullPath, SepIndexAsWritten(fullPath, segCount))
  {
    var sepIndex := |fullPath|;
    var turns := if segCount < 0 then 0 else segCount;
    var i := 0;
    while i < turns
      invariant 0 <= i <= turns
      invariant sepIndex == SepIndexAsWritten(fullPath, i)
    {
      sepIndex := PyRFind(fullPath, sepIndex);
      i := i + 1;
    }
    if sepIndex == -1 || PyRFind(fullPath, sepIndex) == -1 {
      r := fullPath;
    } else {
      r := Paths.SplitDrive(fullPath) + "\\" + "..." + fullPath[sepIndex..];
    }
  }

  /** The method as intended: the loop stops moving once no backslash is left. */
  method TruncatePath(fullPath: string, segCount: int) returns (r: string)
    ensures r == Shortened(fullPath, SepIndex(fullPath, segCount))
  {
    var sepIndex := |fullPath|;
    var turns := if segCount < 0 then 0 else segCount;
    var i := 0;
    while i < turns
      invariant 0 <= i <= turns
      invariant sepIndex == SepIndex(fullPath, i)
    {
      if sepIndex != -1 {
        sepIndex := PyRFind(fullPath, sepIndex);
      }
      i := i + 1;
    }
    if sepIndex == -1 || PyRFind(fullPath, sepIndex) == -1 {
      r := fullPath;
    } else {
      r := Paths.SplitDrive(fullPath) + "\\" + "..." + fullPath[sepIndex..];
    }
  }

  lemma BackslashesSplit(s: string, k: int)
    requires 0 <= k <= |s|
    ensures Backslashes(s) == Backslashes(s[..k]) + Backslashes(s[k..])
  {
    assert s == s[..k] + s[k..];
  }

  /** One turn of the intended loop from a backslash-or-end index `prev`: the search lands on
      the previous backslash, one more backslash from there on, or finds none before `prev`. */
  lemma SepIndexStep(s: string, prev: int)
    requires 0 <= prev <= |s|
    ensures PyRFind(s, prev) >= 0 ==>
              PyRFind(s, prev) < prev && Backslashes(s[PyRFind(s, prev)..]) == 1 + Backslashes(s[prev..])
    ensures PyRFind(s, prev) == -1 ==> Backslashes(s) == Backslashes(s[prev..])
  {
    var t := s[..prev];
    var j := Paths.LastIndex(t, '\\');
    assert PyRFind(s, prev) == j;
    BackslashesSplit(s, prev);
    if j == -1 {
      assert '\\' !in t;
    } else {
      var between := s[j + 1..prev];
      assert '\\' !in between by {
        forall k | 0 <= k < |between|
          ensures between[k] != '\\'
        {
          assert between[k] == t[j + 1 + k];
        }
      }
      assert s[j..] == [s[j]] + between + s[prev..];
    }
  }

  /** Each turn of the intended loop moves `sepIndex` to the backslash before it, so after `i`
      turns the path from `sepIndex` on holds exactly `i` backslashes; -1 means the path holds
      fewer than `i`. */
  lemma {:induction false} SepIndexCounts(s: string, i: int)
    requires i >= 0
    ensures SepIndex(s, i) >= 0 ==> Backslashes(s[SepIndex(s, i)..]) == i
    ensures SepIndex(s, i) >= 0 && i >= 1 ==> s[SepIndex(s, i)] == '\\'
    ensures SepIndex(s, i) == -1 ==> Backslashes(s) < i
    decreases i
  {
    if i == 0 {
      assert s[|s|..] == [];
    } else {
      SepIndexCounts(s, i - 1);
      var prev := SepIndex(s, i - 1);
      if prev != -1 {
        SepIndexStep(s, prev);
      }
    }
  }

  /** A path with at most `segCount` backslashes is shown unchanged. */
  lemma TruncateShort(s: string, segCount: int)
    requires segCount >= 0 && Backslashes(s) <= segCount
    ensures Shortened(s, SepIndex(s, segCount)) == s
  {
    SepIndexCounts(s, segCount);
    var idx := SepIndex(s, segCount);
    if idx != -1 {
      BackslashesSplit(s, idx);
      SepIndexStep(s, idx);
    }
  }

  /** A path with more than `segCount` backslashes is shown as its drive, `\...` and a suffix
      of the path that starts with a backslash and holds exactly `segCount` backslashes. */
  lemma TruncateLong(s: string, segCount: int)
    requires segCount >= 1 && Backslashes(s) > segCount
    ensures var k := SepIndex(s, segCount);
            0 < k < |s| && s[k] == '\\' && Backslashes(s[k..]) == segCount &&
            Shortened(s, k) == Paths.SplitDrive(s) + "\\..." + s[k..]
  {
    SepIndexCounts(s, segCount);
    var k := SepIndex(s, segCount);
    SepIndexStep(s, k);
    var j := PyRFind(s, k);
    assert 0 <= j < k < |s|;
    assert Paths.SplitDrive(s) + "\\" + "..." + s[k..] == Paths.SplitDrive(s) + "\\..." + s[k..];
  }

  /** With at most two segments kept (the default is two), the loop as written and the
      intended loop end at the same index, so the two methods agree. */
  lemma AgreeUpToTwo(s: string, segCount: int)
    requires segCount <= 2
    ensures SepIndexAsWritten(s, segCount) == SepIndex(s, segCount)
  {
    if segCount == 2 {
      var first := SepIndex(s, 1);
      assert first == SepIndexAsWritten(s, 1);
      if first == -1 {
        assert '\\' !in s;
        var e := if |s| == 0 then 0 else |s| - 1;
        assert '\\' !in s[..e];
        assert PyRFind(s, -1) == -1;
      }
    }
  }

  /** The search ending at `end` (already within bounds) finds the backslash at `j` when no
      other backslash lies between it and `end`. */
  lemma PyRFindAt(s: string, end: int, j: int)
    requires 0 <= j < end <= |s| && s[j] == '\\'
    requires forall k :: j < k < end ==> s[k] != '\\'
    ensures PyRFind(s, end) == j
  {
    var t := s[..end];
    assert t[j] == '\\';
    assert forall k :: j < k < end ==> t[k] != '\\';
  }

  /** The search ending at `end` (already within bounds) finds nothing when there is no
      backslash before `end`. */
  lemma PyRFindNone(s: string, end: int)
    requires 0 <= end <= |s|
    requires forall k :: 0 <= k < end ==> s[k] != '\\'
    ensures PyRFind(s, end) == -1
  {
    var t := s[..end];
    assert forall k :: 0 <= k < end ==> t[k] != '\\';
  }

  /** With four segments kept, `C:\a\b` (two backslashes) is shown as `C:\...\b` by the loop as
      written: after the search before index 2 fails, the next search wraps round to the whole
      path but its last character. The intended loop shows it unchanged. */
  lemma WrapAroundCounterexample(s: string, segCount: int)
    requires s == "C:\\a\\b" && segCount == 4
    ensures Shortened(s, SepIndexAsWritten(s, segCount)) == "C:\\...\\b"
    ensures Shortened(s, SepIndex(s, segCount)) == s
  {
    assert |s| == 6 && s[2] == '\\' && s[4] == '\\';
    assert s[0] != '\\' && s[1] != '\\' && s[3] != '\\' && s[5] != '\\';
    PyRFindAt(s, 6, 4);
    PyRFindAt(s, 4, 2);
    PyRFindNone(s, 2);
    PyRFindAt(s, 5, 4);
    assert PyRFind(s, -1) == 4;
    assert SepIndexAsWritten(s, 1) == 4 && SepIndex(s, 1) == 4;
    assert SepIndexAsWritten(s, 2) == 2 && SepIndex(s, 2) == 2;
    assert SepIndexAsWritten(s, 3) == -1 && SepIndex(s, 3) == -1;
    assert SepIndexAsWritten(s, segCount) == 4 && SepIndex(s, segCount) == -1;
    assert Paths.SplitDrive(s) == "C:";
    assert s[4..] == "\\b";
  }
}
