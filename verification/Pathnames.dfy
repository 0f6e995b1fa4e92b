/** Pathname strings, and the prefix test that the directory cache performs on
    them with strncmp() followed by a look at the next character. */
module Pathnames {

  const NAME_MAX: nat := 255

  /** A directory entry name: nonempty, free of slashes, and not too long. */
  predicate ValidName(n: string) {
    n != "" && '/' !in n && |n| <= NAME_MAX
  }

  function Child(p: string, n: string): string {
    p + "/" + n
  }

  /** `q` is `p` itself or lies below it at a component boundary. A C string
      ends in a null byte, so the byte after a full match is the null byte
      exactly when the lengths agree. */
  predicate IsUnder(p: string, q: string) {
    |p| <= |q| && q[..|p|] == p && (|q| == |p| || q[|p|] == '/')
  }

  /** The path `q` after the directory `from` has been renamed to `to`. */
  function Rewrite(from: string, to: string, q: string): string {
    if IsUnder(from, q) then to + q[|from|..] else q
  }

  /** Below a child means at the child or below its parent, because the last
      component holds no slash. */
  lemma UnderChild(a: string, p: string, n: string)
    requires ValidName(n)
    ensures IsUnder(a, Child(p, n)) <==> a == Child(p, n) || IsUnder(a, p)
  {
    var c := Child(p, n);
    assert forall i :: |p| < i < |c| ==> c[i] == n[i - |p| - 1];
    if IsUnder(a, c) && a != c {
      assert a == c[..|p|][..|a|];
    }
    if IsUnder(a, p) {
      assert c[..|a|] == p[..|a|];
    }
  }

  lemma ChildInjective(p: string, n: string, p': string, n': string)
    requires ValidName(n) && ValidName(n') && Child(p, n) == Child(p', n')
    ensures p == p' && n == n'
  {
    var c := Child(p, n);
    assert c[|p|] == '/' && c[|p'|] == '/';
    assert forall i :: |p| < i < |c| ==> c[i] == n[i - |p| - 1];
    assert forall i :: |p'| < i < |c| ==> c[i] == n'[i - |p'| - 1];
    assert c[..|p|] == p && c[..|p'|] == p';
    assert c[|p| + 1..] == n && c[|p'| + 1..] == n';
  }

  lemma UnderTransitive(a: string, b: string, c: string)
    requires IsUnder(a, b) && IsUnder(b, c)
    ensures IsUnder(a, c)
  {
    assert c[..|a|] == c[..|b|][..|a|];
  }

  /** Two directories above the same path are comparable. */
  lemma UnderComparable(a: string, b: string, c: string)
    requires IsUnder(a, c) && IsUnder(b, c)
    ensures IsUnder(a, b) || IsUnder(b, a)
  {
    if |a| <= |b| {
      assert b[..|a|] == c[..|b|][..|a|] == c[..|a|];
    } else {
      assert a[..|b|] == c[..|a|][..|b|] == c[..|b|];
    }
  }

  lemma UnderAntisymmetric(a: string, b: string)
    requires IsUnder(a, b) && IsUnder(b, a)
    ensures a == b
  {
    assert a[..|a|] == a;
  }

  /** Renaming moves a path below the target and is undone by the renaming back. */
  lemma RewriteRoundTrip(from: string, to: string, q: string)
    requires IsUnder(from, q)
    ensures IsUnder(to, Rewrite(from, to, q))
    ensures Rewrite(to, from, Rewrite(from, to, q)) == q
  {
    var r := Rewrite(from, to, q);
    assert r[..|to|] == to;
    assert r[|to|..] == q[|from|..];
    assert q == q[..|from|] + q[|from|..];
  }

  /** Renaming keeps distinct paths distinct when nothing is cached at or
      below the target, except what moves. */
  lemma RewriteInjective(from: string, to: string, p: string, q: string)
    requires p != q
    requires !IsUnder(from, p) ==> !IsUnder(to, p)
    requires !IsUnder(from, q) ==> !IsUnder(to, q)
    ensures Rewrite(from, to, p) != Rewrite(from, to, q)
  {
    if IsUnder(from, p) {
      RewriteRoundTrip(from, to, p);
    }
    if IsUnder(from, q) {
      RewriteRoundTrip(from, to, q);
    }
  }
}
