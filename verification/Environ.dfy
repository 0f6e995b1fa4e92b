/** The environment list as a null-terminated array of "name=value" strings, and
    setenv() and unsetenv() on it. */
module Environ {
  import opened Options

  /** A name that setenv() and unsetenv() accept. */
  predicate ValidName(name: string) {
    name != "" && '=' !in name
  }

  /** strncmp(e, name, len) == 0 && e[len] == '=' */
  predicate Matches(e: string, name: string) {
    |name| < |e| && e[..|name|] == name && e[|name|] == '='
  }

  function Entry(name: string, value: string): string {
    name + "=" + value
  }

  function Unset(entries: seq<string>, name: string): (r: seq<string>)
    ensures |r| <= |entries|
  {
    if entries == [] then []
    else
      var last := entries[|entries| - 1];
      Unset(entries[..|entries| - 1], name) + if Matches(last, name) then [] else [last]
  }

  /** getenv() */
  function Lookup(entries: seq<string>, name: string): Option<string> {
    if entries == [] then None
    else if Matches(entries[0], name) then Some(entries[0][|name| + 1..])
    else Lookup(entries[1..], name)
  }

  // ----- A finite map -------------------------------------------------------

  /** The position of the first '=' of a string, or its length. */
  function FirstEquals(e: string): (i: nat)
    ensures i <= |e| && '=' !in e[..i] && (i < |e| ==> e[i] == '=')
  {
    if e == "" || e[0] == '=' then 0 else 1 + FirstEquals(e[1..])
  }

  lemma MatchesIsName(e: string, name: string)
    requires '=' !in name
    ensures Matches(e, name) <==> FirstEquals(e) < |e| && e[..FirstEquals(e)] == name
  {
    var i := FirstEquals(e);
    assert forall j :: 0 <= j < i ==> e[..i][j] == e[j];
    assert |name| <= |e| ==> forall j :: 0 <= j < |name| ==> e[..|name|][j] == e[j];
  }

  /** An entry for a name starts with it and an equals sign. */
  lemma MatchesIsPrefix(e: string, name: string)
    ensures Matches(e, name) <==> name + "=" <= e
  {
    if |name| < |e| {
      assert e[..|name| + 1] == e[..|name|] + [e[|name|]];
      assert name + "=" <= e <==> e[..|name| + 1] == name + "=";
      assert (name + "=")[|name|] == '=';
      assert (name + "=")[..|name|] == name;
    }
  }

  /** getenv() finds the first entry for the name, and what follows its equals sign. */
  lemma {:induction false} LookupIsFirst(entries: seq<string>, name: string) returns (i: nat)
    ensures i <= |entries| && forall j :: 0 <= j < i ==> !(name + "=" <= entries[j])
    ensures i < |entries| <==> Lookup(entries, name).Some?
    ensures i < |entries| ==> entries[i] == name + "=" + Lookup(entries, name).value
    decreases |entries|
  {
    if entries == [] {
      i := 0;
    } else {
      var e := entries[0];
      MatchesIsPrefix(e, name);
      if Matches(e, name) {
        i := 0;
        assert e == e[..|name|] + [e[|name|]] + e[|name| + 1..];
      } else {
        i := LookupIsFirst(entries[1..], name);
        assert forall j :: 0 < j < i + 1 ==> entries[j] == entries[1..][j - 1];
        i := i + 1;
      }
    }
  }

  /** The variables that an environment defines; an earlier entry hides later ones. */
  function Abs(entries: seq<string>): map<string, string> {
    if entries == [] then map[]
    else
      var rest, e := Abs(entries[1..]), entries[0];
      var i := FirstEquals(e);
      if i < |e| then rest[e[..i] := e[i + 1..]] else rest
  }

  lemma {:induction false} LookupIsAbs(entries: seq<string>, name: string)
    requires ValidName(name)
    ensures Lookup(entries, name) == if name in Abs(entries) then Some(Abs(entries)[name]) else None
    decreases |entries|
  {
    if entries != [] {
      MatchesIsName(entries[0], name);
      LookupIsAbs(entries[1..], name);
    }
  }

  lemma {:induction false} UnsetFront(entries: seq<string>, name: string)
    requires entries != []
    ensures Unset(entries, name) == (if Matches(entries[0], name) then [] else [entries[0]]) + Unset(entries[1..], name)
    decreases |entries|
  {
    var n := |entries| - 1;
    if n > 0 {
      UnsetFront(entries[..n], name);
      assert entries[..n][1..] == entries[1..][..n - 1];
    }
  }

  /** unsetenv() takes the variable out of the map, however often it was listed. */
  lemma {:induction false} UnsetRemoves(entries: seq<string>, name: string)
    requires ValidName(name)
    ensures Abs(Unset(entries, name)) == Abs(entries) - {name}
    decreases |entries|
  {
    if entries != [] {
      var e := entries[0];
      UnsetFront(entries, name);
      UnsetRemoves(entries[1..], name);
      MatchesIsName(e, name);
      if !Matches(e, name) {
        var u := [e] + Unset(entries[1..], name);
        assert u[0] == e && u[1..] == Unset(entries[1..], name);
      } else {
        assert [] + Unset(entries[1..], name) == Unset(entries[1..], name);
      }
    }
  }

  lemma {:induction false} AbsAppend(entries: seq<string>, name: string, value: string)
    requires ValidName(name) && name !in Abs(entries)
    ensures Abs(entries + [Entry(name, value)]) == Abs(entries)[name := value]
    decreases |entries|
  {
    var s := entries + [Entry(name, value)];
    if entries == [] {
      var e := Entry(name, value);
      assert s[0] == e && s[1..] == [];
      assert e[|name|] == '=' && e[..|name|] == name && e[|name| + 1..] == value;
      MatchesIsName(e, name);
      assert |e[..FirstEquals(e)]| == FirstEquals(e);
    } else {
      assert s[0] == entries[0] && s[1..] == entries[1..] + [Entry(name, value)];
      AbsAppend(entries[1..], name, value);
    }
  }

  /** setenv() with overwriting sets the variable and no other. */
  lemma SetUpdates(entries: seq<string>, name: string, value: string)
    requires ValidName(name)
    ensures Abs(Unset(entries, name) + [Entry(name, value)]) == Abs(entries)[name := value]
  {
    UnsetRemoves(entries, name);
    AbsAppend(Unset(entries, name), name, value);
    assert (Abs(entries) - {name})[name := value] == Abs(entries)[name := value];
  }

  /** Exactly the matching entries go; the others stay in their order. */
  lemma {:induction false} UnsetKeepsOthers(entries: seq<string>, name: string)
    ensures forall e :: e in Unset(entries, name) <==> e in entries && !Matches(e, name)
    ensures forall e :: !Matches(e, name) ==> multiset(Unset(entries, name))[e] == multiset(entries)[e]
    decreases |entries|
  {
    if entries != [] {
      var init := entries[..|entries| - 1];
      assert entries == init + [entries[|entries| - 1]];
      UnsetKeepsOthers(init, name);
    }
  }

  /** After setenv() with overwriting, the last entry is the only one for the name. */
  lemma OneEntryLeft(entries: seq<string>, name: string, value: string)
    requires ValidName(name)
    ensures var after := Unset(entries, name) + [Entry(name, value)];
            forall i :: 0 <= i < |after| ==> (Matches(after[i], name) <==> i == |after| - 1)
  {
    UnsetKeepsOthers(entries, name);
    var after := Unset(entries, name) + [Entry(name, value)];
    forall i | 0 <= i < |after| - 1 ensures !Matches(after[i], name) {
      assert after[i] in Unset(entries, name);
    }
    assert Entry(name, value)[..|name|] == name;
  }

  /** getenv() after setenv() and unsetenv(): the new value or none, and other variables as before. */
  lemma GetAfterSet(entries: seq<string>, name: string, value: string, other: string)
    requires ValidName(name) && ValidName(other)
    ensures Lookup(Unset(entries, name) + [Entry(name, value)], other) ==
            if other == name then Some(value) else Lookup(entries, other)
    ensures Lookup(Unset(entries, name), other) == if other == name then None else Lookup(entries, other)
  {
    SetUpdates(entries, name, value);
    UnsetRemoves(entries, name);
    LookupIsAbs(entries, other);
    LookupIsAbs(Unset(entries, name), other);
    LookupIsAbs(Unset(entries, name) + [Entry(name, value)], other);
  }

  // ----- The array ----------------------------------------------------------

  /** The first `n` elements of the array are strings, and the next is the terminator. */
  ghost predicate Terminated(a: seq<Option<string>>, n: nat) {
    n < |a| && a[n].None? && forall i :: 0 <= i < n ==> a[i].Some?
  }

  ghost function Values(a: seq<Option<string>>, n: nat): (r: seq<string>)
    requires Terminated(a, n)
    ensures |r| == n && forall i :: 0 <= i < n ==> r[i] == a[i].value
  {
    seq(n, i requires 0 <= i < n => a[i].value)
  }

  /** Closes the gap at `ep`: every later string, and the terminator, moves down by one. */
  method ShiftBack(a: array<Option<string>>, ep: nat, ghost n: nat)
    requires Terminated(a[..], n) && ep < n
    modifies a
    ensures Terminated(a[..], n - 1)
    ensures Values(a[..], n - 1) == Values(old(a[..]), n)[..ep] + Values(old(a[..]), n)[ep + 1..]
  {
    var sp := ep;
    while a[sp] != None
      invariant ep <= sp <= n
      invariant forall i :: 0 <= i < ep ==> a[i] == old(a[i])
      invariant forall i :: ep <= i < sp ==> a[i] == old(a[i + 1])
      invariant forall i :: sp <= i < a.Length ==> a[i] == old(a[i])
      decreases n - sp
    {
      a[sp] := a[sp + 1];
      sp := sp + 1;
    }
  }

  /** The first `p` entries of `was` have been dealt with: what is kept of them stands
      before `ep`, and the others follow. */
  ghost predicate Processed(cur: seq<string>, ep: nat, was: seq<string>, p: nat, name: string) {
    ep <= |cur| && p <= |was| && cur[..ep] == Unset(was[..p], name) && cur[ep..] == was[p..]
  }

  lemma KeepOne(cur: seq<string>, ep: nat, was: seq<string>, p: nat, name: string)
    requires Processed(cur, ep, was, p, name) && ep < |cur| && !Matches(cur[ep], name)
    ensures Processed(cur, ep + 1, was, p + 1, name)
  {
    assert cur[ep] == cur[ep..][0] && cur[ep + 1..] == cur[ep..][1..] && cur[..ep + 1] == cur[..ep] + [cur[ep]];
    assert was[..p + 1][..p] == was[..p] && was[p] == was[p..][0] && was[p..][1..] == was[p + 1..];
  }

  lemma DropOne(cur: seq<string>, ep: nat, was: seq<string>, p: nat, name: string)
    requires Processed(cur, ep, was, p, name) && ep < |cur| && Matches(cur[ep], name)
    ensures Processed(cur[..ep] + cur[ep + 1..], ep, was, p + 1, name)
  {
    var cur' := cur[..ep] + cur[ep + 1..];
    assert cur[ep] == cur[ep..][0] && cur'[..ep] == cur[..ep] && cur'[ep..] == cur[ep..][1..];
    assert was[..p + 1][..p] == was[..p] && was[p] == was[p..][0] && was[p..][1..] == was[p + 1..];
  }

  class Environment {
    var environ: array<Option<string>>
    ghost var n: nat

    ghost predicate Valid()
      reads this, environ
    {
      Terminated(environ[..], n)
    }

    ghost function Entries(): seq<string>
      reads this, environ
      requires Valid()
    {
      Values(environ[..], n)
    }

    /** Returns -1 for a name that is missing, empty or contains '='. */
    method Unsetenv(name: Option<string>) returns (ret: int)
      requires Valid()
      modifies this`n, environ
      ensures Valid()
      ensures ret == if name == None || name == Some("") || '=' in name.value then -1 else 0
      ensures Entries() == if ret == 0 then Unset(old(Entries()), name.value) else old(Entries())
    {
      if name.None? || name.value == "" || '=' in name.value {
        return -1;
      }
      var nm := name.value;
      var ep := 0;
      ghost var was := Entries();
      ghost var p := 0;
      assert Processed(was, 0, was, 0, nm);
      while environ[ep] != None
        invariant Valid() && environ == old(environ) && 0 <= ep <= n
        invariant Processed(Entries(), ep, was, p, nm)
        decreases n - ep
      {
        ghost var cur := Entries();
        if Matches(environ[ep].value, nm) {
          DropOne(cur, ep, was, p, nm);
          ShiftBack(environ, ep, n);
          n := n - 1;
        } else {
          KeepOne(cur, ep, was, p, nm);
          ep := ep + 1;
        }
        p := p + 1;
      }
      assert p == |was| && was[..p] == was && Entries()[..ep] == Entries();
      return 0;
    }

    method Getenv(name: string) returns (value: Option<string>)
      requires Valid()
      ensures value == Lookup(Entries(), name)
    {
      var j := 0;
      assert Entries()[0..] == Entries();
      while environ[j] != None
        invariant 0 <= j <= n
        invariant Lookup(Entries(), name) == Lookup(Entries()[j..], name)
        decreases n - j
      {
        var e := environ[j].value;
        assert Entries()[j..][0] == e && Entries()[j..][1..] == Entries()[j + 1..];
        if Matches(e, name) {
          return Some(e[|name| + 1..]);
        }
        j := j + 1;
      }
      return None;
    }

    /** putenv() of a variable that is not there: the list is copied to a larger one. */
    method Putenv(es: string)
      requires Valid()
      modifies this
      ensures Valid() && fresh(environ) && Entries() == old(Entries()) + [es]
    {
      var len := 0;
      while environ[len] != None
        modifies {}
        invariant 0 <= len <= n
        decreases n - len
      {
        len := len + 1;
      }
      var a := new Option<string>[len + 2](_ => None);
      for j := 0 to len
        modifies a
        invariant forall i :: 0 <= i < j ==> a[i] == environ[i]
        invariant a[len] == a[len + 1] == None
      {
        a[j] := environ[j];
      }
      a[len] := Some(es);
      environ := a;
      n := len + 1;
    }

    /** `memory` says whether malloc() finds room for the new string. When it does not,
        the variable has been removed already. */
    method Setenv(name: Option<string>, value: Option<string>, overwrite: int, memory: bool) returns (ret: int)
      requires Valid()
      modifies this, environ
      ensures Valid()
      ensures var was := old(Entries());
              if name == None || name == Some("") || '=' in name.value || value == None then
                ret == -1 && Entries() == was
              else if Lookup(was, name.value).Some? && overwrite == 0 then ret == 0 && Entries() == was
              else if !memory then ret == -1 && Entries() == Unset(was, name.value)
              else ret == 0 && Entries() == Unset(was, name.value) + [name.value + "=" + value.value]
    {
      if name.None? || name.value == "" || '=' in name.value || value.None? {
        return -1;
      }
      var present := Getenv(name.value);
      if present.Some? && overwrite == 0 {
        return 0;
      }
      var _ := Unsetenv(name);
      if !memory {
        return -1;
      }
      Putenv(name.value + "=" + value.value);
      return 0;
    }
  }
}
