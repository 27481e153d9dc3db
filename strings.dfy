/** The few Python string operations the forest code relies on. */
module Strings {

  /** str.find(c): the first index of c, or -1. */
  function IndexOf(s: string, c: char): (i: int)
    ensures -1 <= i < |s|
    ensures i == -1 <==> c !in s
    ensures 0 <= i ==> s[i] == c && c !in s[..i]
  {
    if |s| == 0 then -1
    else if s[0] == c then 0
    else
      var j := IndexOf(s[1..], c);
      assert s[1..][..if j < 0 then 0 else j] == s[1..1 + if j < 0 then 0 else j];
      if j < 0 then -1 else j + 1
  }

  /** str.find(c, start). */
  function IndexFrom(s: string, c: char, start: nat): (i: int)
    ensures -1 <= i < |s|
    ensures i == -1 <==> start >= |s| || c !in s[start..]
    ensures 0 <= i ==> start <= i && s[i] == c && c !in s[start..i]
  {
    if start >= |s| then -1
    else
      var j := IndexOf(s[start..], c);
      assert 0 <= j ==> s[start..][..j] == s[start..start + j];
      if j < 0 then -1 else start + j
  }

  /** str.rfind(c): the last index of c, or -1. */
  function LastIndexOf(s: string, c: char): (i: int)
    ensures -1 <= i < |s|
    ensures i == -1 <==> c !in s
    ensures 0 <= i ==> s[i] == c && c !in s[i + 1..]
  {
    if |s| == 0 then -1
    else if s[|s| - 1] == c then |s| - 1
    else
      var j := LastIndexOf(s[..|s| - 1], c);
      LastIndexOfInit(s, c, j);
      j
  }

  /** What the last c of s without its last character says about s, when that character is not c. */
  lemma LastIndexOfInit(s: string, c: char, j: int)
    requires |s| > 0 && s[|s| - 1] != c && -1 <= j < |s| - 1
    requires j == -1 <==> c !in s[..|s| - 1]
    requires 0 <= j ==> s[j] == c && c !in s[..|s| - 1][j + 1..]
    ensures j == -1 <==> c !in s
    ensures 0 <= j ==> c !in s[j + 1..]
  {
    var init := s[..|s| - 1];
    assert s == init + [s[|s| - 1]];
    if 0 <= j {
      assert s[j + 1..] == init[j + 1..] + [s[|s| - 1]];
    }
  }

  /** str.split(c): the pieces between the occurrences of c; never empty. */
  function Split(s: string, c: char): (r: seq<string>)
    ensures |r| >= 1
    ensures forall k | 0 <= k < |r| :: c !in r[k]
  {
    if |s| == 0 then [""]
    else if s[0] == c then [""] + Split(s[1..], c)
    else
      var rest := Split(s[1..], c);
      [[s[0]] + rest[0]] + rest[1..]
  }

  /** sep.join(parts). */
  function Join(parts: seq<string>, sep: char): string
  {
    if |parts| == 0 then ""
    else if |parts| == 1 then parts[0]
    else parts[0] + [sep] + Join(parts[1..], sep)
  }

  /** s.rstrip(c): drop every trailing c. */
  function RStrip(s: string, c: char): (r: string)
    ensures |r| <= |s| && r == s[..|r|]
    ensures |r| == 0 || r[|r| - 1] != c
  {
    if |s| > 0 && s[|s| - 1] == c then RStrip(s[..|s| - 1], c) else s
  }

  function LowerChar(ch: char): char
  {
    if 'A' <= ch <= 'Z' then (ch as int - 'A' as int + 'a' as int) as char else ch
  }

  /** str.lower() on ASCII letters. */
  function Lower(s: string): (r: string)
    ensures |r| == |s|
    ensures forall k | 0 <= k < |s| :: r[k] == LowerChar(s[k])
  {
    if |s| == 0 then "" else [LowerChar(s[0])] + Lower(s[1..])
  }

  /** Only c's are stripped: every character cut off is c. */
  lemma {:induction false} RStripOnly(s: string, c: char)
    ensures forall k | |RStrip(s, c)| <= k < |s| :: s[k] == c
    decreases |s|
  {
    if |s| > 0 && s[|s| - 1] == c {
      RStripOnly(s[..|s| - 1], c);
    }
  }

  /** Stripping twice strips nothing more. */
  lemma RStripIdempotent(s: string, c: char)
    ensures RStrip(RStrip(s, c), c) == RStrip(s, c)
  {
  }

  /** A string whose last character is not c is left alone. */
  lemma RStripNoop(s: string, c: char)
    requires |s| == 0 || s[|s| - 1] != c
    ensures RStrip(s, c) == s
  {
  }

  /** Only the trailing run of c goes: stripping s + c's gives back s when s does not end in c. */
  lemma {:induction false} RStripTrailing(s: string, c: char, n: nat)
    requires |s| == 0 || s[|s| - 1] != c
    ensures RStrip(s + seq(n, _ => c), c) == s
  {
    if n > 0 {
      var t := s + seq(n, _ => c);
      assert t[..|t| - 1] == s + seq(n - 1, _ => c);
      RStripTrailing(s, c, n - 1);
    }
  }

  lemma LowerNoop(s: string)
    requires forall k | 0 <= k < |s| :: !('A' <= s[k] <= 'Z')
    ensures Lower(s) == s
  {
  }

  /** Finding c in a + b: in a when a holds c, otherwise shifted into b. */
  lemma IndexOfAppend(a: string, b: string, c: char)
    ensures IndexOf(a + b, c) ==
      if c in a then IndexOf(a, c)
      else if c in b then |a| + IndexOf(b, c)
      else -1
  {
    var s := a + b;
    if c in a {
      var j := IndexOf(a, c);
      assert s[j] == c && s[..j] == a[..j];
    } else if c in b {
      var j := IndexOf(b, c);
      assert s[|a| + j] == c && s[..|a| + j] == a + b[..j];
    }
  }

  /** A piece without c splits to itself. */
  lemma {:induction false} SplitNoSep(s: string, c: char)
    requires c !in s
    ensures Split(s, c) == [s]
  {
    if |s| > 0 {
      assert c !in s[1..];
      SplitNoSep(s[1..], c);
      assert [s[0]] + s[1..] == s;
    }
  }

  /** Splitting a + c + rest, when a has no c, yields a followed by the pieces of rest. */
  lemma {:induction false} SplitCons(a: string, rest: string, c: char)
    requires c !in a
    ensures Split(a + [c] + rest, c) == [a] + Split(rest, c)
  {
    var s := a + [c] + rest;
    if |a| == 0 {
      assert s[0] == c && s[1..] == rest;
    } else {
      assert s[0] == a[0] && s[1..] == a[1..] + [c] + rest;
      assert c !in a[1..];
      SplitCons(a[1..], rest, c);
      assert [a[0]] + a[1..] == a;
    }
  }

  /** Joining pieces that avoid the separator and splitting again gives the pieces back. */
  lemma {:induction false} SplitJoin(parts: seq<string>, c: char)
    requires |parts| >= 1
    requires forall k | 0 <= k < |parts| :: c !in parts[k]
    ensures Split(Join(parts, c), c) == parts
  {
    if |parts| == 1 {
      SplitNoSep(parts[0], c);
    } else {
      SplitJoin(parts[1..], c);
      SplitCons(parts[0], Join(parts[1..], c), c);
      assert [parts[0]] + parts[1..] == parts;
    }
  }
}
