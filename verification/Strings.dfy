/** Searching and splitting strings at a separator, as loops over strchr() do. */
module Strings {

  /** strchr(): the next `c` at or after `from`, or the end of the string. */
  function NextChar(s: string, from: nat, c: char): (i: nat)
    requires from <= |s|
    ensures from <= i <= |s| && c !in s[from..i] && (i < |s| ==> s[i] == c)
    decreases |s| - from
  {
    if from == |s| || s[from] == c then from
    else
      var i := NextChar(s, from + 1, c);
      assert s[from..i] == [s[from]] + s[from + 1..i];
      i
  }

  /** The parts between separators, from position `from` on. */
  function Split(s: string, from: nat, c: char): (r: seq<string>)
    requires from <= |s|
    ensures r != []
    decreases |s| - from
  {
    var i := NextChar(s, from, c);
    if i == |s| then [s[from..i]] else [s[from..i]] + Split(s, i + 1, c)
  }

  function Join(parts: seq<string>, c: char): string {
    if parts == [] then ""
    else if |parts| == 1 then parts[0]
    else parts[0] + [c] + Join(parts[1..], c)
  }

  /** The parts hold no separator, and joined by separators they give the string back. */
  lemma {:induction false} SplitJoins(s: string, from: nat, c: char)
    requires from <= |s|
    ensures Join(Split(s, from, c), c) == s[from..]
    ensures forall k :: 0 <= k < |Split(s, from, c)| ==> c !in Split(s, from, c)[k]
    decreases |s| - from
  {
    hide NextChar;
    var i := NextChar(s, from, c);
    if i < |s| {
      SplitJoins(s, i + 1, c);
      var r := Split(s, from, c);
      assert r[1..] == Split(s, i + 1, c);
      assert s[from..] == s[from..i] + [c] + s[i + 1..];
    }
  }

  lemma FirstPart(a: seq<string>, c: char)
    requires a != []
    ensures var s := Join(a, c);
            && |a[0]| <= |s| && s[..|a[0]|] == a[0]
            && (|a| == 1 ==> |s| == |a[0]|)
            && (|a| > 1 ==> |a[0]| < |s| && s[|a[0]|] == c && s[|a[0]| + 1..] == Join(a[1..], c))
  {
  }

  lemma FirstSeparator(s: string, from: nat, n: nat, c: char)
    requires from <= n <= |s| && c !in s[from..n] && (n < |s| ==> s[n] == c)
    ensures NextChar(s, from, c) == n
  {
    var i := NextChar(s, from, c);
    assert forall j :: from <= j < n ==> s[from..n][j - from] == s[j];
    assert forall j :: from <= j < i ==> s[from..i][j - from] == s[j];
  }

  /** A string around one of its characters. */
  lemma Cut(s: string, i: nat)
    requires i < |s|
    ensures s == s[..i] + [s[i]] + s[i + 1..]
  {
  }

  /** Only one list of separator-free strings joins to a given string. */
  lemma {:induction false} SplitIsUnique(a: seq<string>, b: seq<string>, c: char)
    requires a != [] && b != [] && Join(a, c) == Join(b, c)
    requires forall k :: 0 <= k < |a| ==> c !in a[k]
    requires forall k :: 0 <= k < |b| ==> c !in b[k]
    ensures a == b
    decreases |a|
  {
    FirstPart(a, c);
    FirstPart(b, c);
    assert Join(a, c)[0..|a[0]|] == a[0] && Join(b, c)[0..|b[0]|] == b[0];
    FirstSeparator(Join(a, c), 0, |a[0]|, c);
    FirstSeparator(Join(b, c), 0, |b[0]|, c);
    assert a[0] == b[0];
    if |a| > 1 && |b| > 1 {
      SplitIsUnique(a[1..], b[1..], c);
      assert a == [a[0]] + a[1..] && b == [b[0]] + b[1..];
    }
  }

  /** Walking the string from separator to separator yields the parts one by one. */
  lemma NextPart(s: string, from: nat, c: char, all: seq<string>, k: nat)
    requires from <= |s| && k < |all| && Split(s, from, c) == all[k..]
    ensures var end := NextChar(s, from, c);
            && all[k] == s[from..end]
            && if end == |s| then k + 1 == |all| else k + 1 < |all| && Split(s, end + 1, c) == all[k + 1..]
  {
    assert all[k] == all[k..][0] && all[k + 1..] == all[k..][1..];
    var end := NextChar(s, from, c);
    if end < |s| {
      assert Split(s, from, c)[1..] == Split(s, end + 1, c);
    } else {
      assert |all[k..]| == 1;
    }
  }
}
