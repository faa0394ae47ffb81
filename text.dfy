/** String operations of Python's `str` that the pack generator relies on, on `seq<char>`. */
module Text {

  /** `sep.join(parts)`. */
  function Join(parts: seq<string>, sep: string): string
    decreases |parts|
  {
    if parts == [] then ""
    else if |parts| == 1 then parts[0]
    else parts[0] + sep + Join(parts[1..], sep)
  }

  /** `s.split(c)` for a one-character separator: always at least one piece. */
  function SplitOn(s: string, c: char): (r: seq<string>)
    ensures |r| >= 1
    decreases |s|
  {
    if s == [] then [""]
    else
      var rest := SplitOn(s[1..], c);
      if s[0] == c then [""] + rest else [[s[0]] + rest[0]] + rest[1..]
  }

  lemma {:induction false} SplitOnAbsent(p: string, c: char)
    requires c !in p
    ensures SplitOn(p, c) == [p]
    decreases |p|
  {
    if p != [] {
      assert c !in p[1..] by {
        assert forall x :: x in p[1..] ==> x in p;
      }
      SplitOnAbsent(p[1..], c);
      assert [p[0]] + p[1..] == p;
    }
  }

  lemma {:induction false} SplitOnFirst(p: string, rest: string, c: char)
    requires c !in p
    ensures SplitOn(p + [c] + rest, c) == [p] + SplitOn(rest, c)
    decreases |p|
  {
    var s := p + [c] + rest;
    if p == [] {
      assert s[1..] == rest;
    } else {
      assert s[1..] == p[1..] + [c] + rest;
      SplitOnFirst(p[1..], rest, c);
      assert [p[0]] + p[1..] == p;
    }
  }

  /** Splitting a joined text on its one-character separator gives the pieces back,
      provided no piece contains the separator. */
  lemma {:induction false} SplitJoin(parts: seq<string>, c: char)
    requires |parts| >= 1
    requires forall i :: 0 <= i < |parts| ==> c !in parts[i]
    ensures SplitOn(Join(parts, [c]), c) == parts
    decreases |parts|
  {
    if |parts| == 1 {
      SplitOnAbsent(parts[0], c);
    } else {
      SplitJoin(parts[1..], c);
      SplitOnFirst(parts[0], Join(parts[1..], [c]), c);
      assert [parts[0]] + parts[1..] == parts;
    }
  }

  predicate StartsWith(s: string, prefix: string) {
    |prefix| <= |s| && s[..|prefix|] == prefix
  }

  predicate EndsWith(s: string, suffix: string) {
    |suffix| <= |s| && s[|s| - |suffix|..] == suffix
  }

  /** `target` occurs in `s` at index `i`. */
  predicate OccursAt(s: string, target: string, i: int) {
    0 <= i <= |s| - |target| && s[i..i + |target|] == target
  }

  /** `target in s`. */
  predicate Contains(s: string, target: string) {
    exists i :: 0 <= i <= |s| && OccursAt(s, target, i)
  }

  /** `s.find(c)`: the first index of `c`, or -1. */
  function Find(s: string, c: char): (r: int)
    ensures -1 <= r < |s|
    ensures r >= 0 ==> s[r] == c && c !in s[..r]
    ensures r == -1 <==> c !in s
    decreases |s|
  {
    if s == [] then -1
    else if s[0] == c then 0
    else
      var k := Find(s[1..], c);
      assert s[1..] == s[1..];
      if k == -1 then -1
      else
        assert s[..k + 1] == [s[0]] + s[1..][..k];
        k + 1
  }

  /** The first `c` in a text is found where it is. */
  lemma FindFirst(a: string, c: char, b: string)
    requires c !in a
    ensures Find(a + [c] + b, c) == |a|
  {
    var s := a + [c] + b;
    assert s[|a|] == c;
    assert s[..|a|] == a;
  }

  function UpperChar(c: char): char {
    if 'a' <= c <= 'z' then (c as int - 'a' as int + 'A' as int) as char else c
  }

  /** `s.upper()` on ASCII letters. */
  function Upper(s: string): (r: string)
    ensures |r| == |s|
    ensures forall i :: 0 <= i < |s| ==> r[i] == UpperChar(s[i])
  {
    seq(|s|, i requires 0 <= i < |s| => UpperChar(s[i]))
  }

  /** `s.replace(a, b)` for single characters. */
  function ReplaceChar(s: string, a: char, b: char): (r: string)
    ensures |r| == |s|
    ensures forall i :: 0 <= i < |s| ==> r[i] == if s[i] == a then b else s[i]
  {
    seq(|s|, i requires 0 <= i < |s| => if s[i] == a then b else s[i])
  }

  /** `s.replace("", replacement)`: the replacement before, between and after every character. */
  function InsertEverywhere(s: string, replacement: string): string
    decreases |s|
  {
    if s == [] then replacement else replacement + [s[0]] + InsertEverywhere(s[1..], replacement)
  }

  /** `s.replace(target, replacement)`: every non-overlapping occurrence, scanning left to right. */
  function ReplaceAll(s: string, target: string, replacement: string): string
    decreases |s|
  {
    if target == [] then InsertEverywhere(s, replacement)
    else if StartsWith(s, target) then replacement + ReplaceAll(s[|target|..], target, replacement)
    else if s == [] then []
    else [s[0]] + ReplaceAll(s[1..], target, replacement)
  }

  /** A text in which the target does not occur is left as it is. */
  lemma {:induction false} ReplaceAllAbsent(s: string, target: string, replacement: string)
    requires target != [] && !Contains(s, target)
    ensures ReplaceAll(s, target, replacement) == s
    decreases |s|
  {
    if s != [] {
      assert !OccursAt(s, target, 0);
      forall i | 0 <= i <= |s[1..]| - |target|
        ensures !OccursAt(s[1..], target, i)
      {
        assert !OccursAt(s, target, i + 1);
        assert s[1..][i..i + |target|] == s[i + 1..i + 1 + |target|];
      }
      ReplaceAllAbsent(s[1..], target, replacement);
    }
  }

  /** Replacing a text by itself changes nothing. */
  lemma {:induction false} ReplaceAllSelf(s: string, target: string)
    ensures ReplaceAll(s, target, target) == s
    decreases |s|
  {
    if target == [] {
      InsertEmpty(s);
    } else if StartsWith(s, target) {
      ReplaceAllSelf(s[|target|..], target);
      assert target + s[|target|..] == s;
    } else if s != [] {
      ReplaceAllSelf(s[1..], target);
    }
  }

  lemma {:induction false} InsertEmpty(s: string)
    ensures InsertEverywhere(s, []) == s
    decreases |s|
  {
    if s != [] {
      InsertEmpty(s[1..]);
    }
  }

  /** Prefixing a newline-joined pair of texts prefixes its first text. */
  lemma PrefixAcrossBreak(p: string, x: string, y: string)
    ensures p + (x + "\n" + y) == (p + x) + "\n" + y
  {
  }

  /** A target without a newline never straddles a line break: the replacement acts on the
      text before the break and the text after it separately. */
  lemma {:induction false} ReplaceAllAcrossBreak(a: string, b: string, target: string, replacement: string)
    requires target != [] && '\n' !in target
    ensures ReplaceAll(a + "\n" + b, target, replacement)
         == ReplaceAll(a, target, replacement) + "\n" + ReplaceAll(b, target, replacement)
    decreases |a|
  {
    var s := a + "\n" + b;
    if a == [] {
      assert s == "\n" + b;
      assert s[0] == '\n' && target[0] != '\n';
      assert s[1..] == b;
    } else if StartsWith(a, target) {
      var rest := a[|target|..];
      assert s[..|target|] == a[..|target|];
      assert s[|target|..] == rest + "\n" + b;
      ReplaceAllAcrossBreak(rest, b, target, replacement);
      var rr, rb := ReplaceAll(rest, target, replacement), ReplaceAll(b, target, replacement);
      assert ReplaceAll(s, target, replacement) == replacement + (rr + "\n" + rb);
      assert ReplaceAll(a, target, replacement) == replacement + rr;
      PrefixAcrossBreak(replacement, rr, rb);
    } else {
      if |target| <= |a| {
        assert s[..|target|] == a[..|target|];
      } else {
        assert s[|a|] == '\n' && target[|a|] != '\n';
      }
      assert s[1..] == a[1..] + "\n" + b;
      ReplaceAllAcrossBreak(a[1..], b, target, replacement);
      var rr, rb := ReplaceAll(a[1..], target, replacement), ReplaceAll(b, target, replacement);
      assert ReplaceAll(s, target, replacement) == [a[0]] + (rr + "\n" + rb);
      assert ReplaceAll(a, target, replacement) == [a[0]] + rr;
      PrefixAcrossBreak([a[0]], rr, rb);
    }
  }

  /** Replacing in a newline-joined text is replacing in each of its lines. */
  lemma {:induction false} ReplaceAllLinewise(lines: seq<string>, target: string, replacement: string)
    requires target != [] && '\n' !in target
    ensures ReplaceAll(Join(lines, "\n"), target, replacement)
         == Join(seq(|lines|, i requires 0 <= i < |lines| => ReplaceAll(lines[i], target, replacement)), "\n")
    decreases |lines|
  {
    var mapped := seq(|lines|, i requires 0 <= i < |lines| => ReplaceAll(lines[i], target, replacement));
    if |lines| > 1 {
      ReplaceAllLinewise(lines[1..], target, replacement);
      ReplaceAllAcrossBreak(lines[0], Join(lines[1..], "\n"), target, replacement);
      assert mapped[1..] == seq(|lines[1..]|, i requires 0 <= i < |lines[1..]| => ReplaceAll(lines[1..][i], target, replacement));
    } else if |lines| == 0 {
      assert ReplaceAll("", target, replacement) == "" by {
        assert !StartsWith("", target);
      }
    }
  }
}
