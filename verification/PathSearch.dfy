/** execlp(): searching the prefixes of PATH for a program. */
module PathSearch {
  import opened Options
  import opened Strings

  const EACCES: nat := 13
  const ENOEXEC: nat := 8

  /** What execve() does with a pathname: it does not return, or returns an error. */
  type Exec = string -> Option<nat>

  /** The program was replaced by a new one, or by the shell run on it as a script, or
      the call failed. */
  datatype Result = Execed(pathname: string) | Script(pathname: string) | Failed(errno: nat)

  // ----- Pathnames ----------------------------------------------------------

  function Pathname(prefix: string, filename: string): string {
    (if prefix == "" then "." else prefix) + "/" + filename
  }

  function Attempts(prefixes: seq<string>, filename: string): (r: seq<string>)
    ensures |r| == |prefixes| && forall k :: 0 <= k < |r| ==> r[k] == Pathname(prefixes[k], filename)
  {
    seq(|prefixes|, k requires 0 <= k < |prefixes| => Pathname(prefixes[k], filename))
  }

  /** strcat(): copy a string into the buffer where the text so far ends. */
  method Strcat(buf: array<char>, at: nat, s: string) returns (end: nat)
    requires at + |s| < buf.Length
    modifies buf
    ensures end == at + |s| && buf[..at] == old(buf[..at]) && buf[at..end] == s && buf[end] == '\0'
  {
    for j := 0 to |s|
      invariant buf[..at] == old(buf[..at])
      invariant forall i :: 0 <= i < j ==> buf[at + i] == s[i]
    {
      buf[at + j] := s[j];
    }
    end := at + |s|;
    buf[end] := '\0';
  }

  /** The pathname and its terminator fill the allocated buffer to the last byte. */
  method BuildPathname(path: string, prStart: nat, prEnd: nat, filename: string) returns (buf: array<char>)
    requires prStart <= prEnd <= |path|
    ensures fresh(buf) && buf[..] == (if prStart == prEnd then "." else path[prStart..prEnd]) + "/" + filename + "\0"
    ensures 0 < buf.Length && buf[..buf.Length - 1] == Pathname(path[prStart..prEnd], filename)
  {
    var size := (if prEnd - prStart > 1 then prEnd - prStart else 1) + |filename| + 2;
    buf := new char[size](_ => '\0');
    var first := if prEnd == prStart then "." else path[prStart..prEnd];
    var end := Strcat(buf, 0, first);
    end := Strcat(buf, end, "/");
    assert buf[..end] == first + "/";
    ghost var mid := end;
    end := Strcat(buf, end, filename);
    assert buf[..end] == buf[..mid] + buf[mid..end];
    assert buf[..] == buf[..end] + [buf[end]];
  }

  // ----- The search ---------------------------------------------------------

  /** The attempt at `p` ends the search: a program was started. */
  predicate Ends(exec: Exec, shell: bool, p: string) {
    exec(p).None? || (exec(p) == Some(8) && shell)
  }

  /** What the search promises of the pathnames it tries: they are tried in order up to
      the first that starts a program; if none does, the error is EACCES when some
      attempt gave it, and otherwise that of the last attempt. */
  ghost predicate SearchResult(attempts: seq<string>, exec: Exec, shell: bool, tried: nat, r: Result) {
    && 0 < tried <= |attempts|
    && (forall k :: 0 <= k < tried - 1 ==> !Ends(exec, shell, attempts[k]))
    && var last := attempts[tried - 1];
       if Ends(exec, shell, last) then r == if exec(last).None? then Execed(last) else Script(last)
       else
         && tried == |attempts|
         && r.Failed?
         && (r.errno == 13 <==> exists k :: 0 <= k < tried && exec(attempts[k]) == Some(13))
         && (r.errno != 13 ==> exec(last) == Some(r.errno))
  }

  /** An unset or empty PATH stands for ".". */
  function EffectivePath(path: Option<string>): string {
    if path.None? || path.value == "" then "." else path.value
  }

  /** The pathnames that a call tries. */
  function Candidates(filename: string, path: Option<string>): seq<string> {
    if '/' in filename then [filename] else Attempts(Split(EffectivePath(path), 0, ':'), filename)
  }

  /** What a call tries, as texts: a name with a slash, alone; without PATH, the name in the
      current directory; and otherwise one text for each part of PATH, in order, in which the
      name follows the last slash, and the part, or a dot exactly if the part is empty,
      precedes it. */
  lemma CandidateTexts(filename: string, path: Option<string>)
    ensures '/' in filename ==> Candidates(filename, path) == [filename]
    ensures '/' !in filename && (path == None || path == Some("")) ==> Candidates(filename, path) == ["./" + filename]
    ensures '/' !in filename && path.Some? && path.value != "" ==>
              var cs, parts := Candidates(filename, path), Split(path.value, 0, ':');
              && |cs| == |parts|
              && forall k :: 0 <= k < |cs| ==>
                   var i := LastSlash(cs[k]);
                   && i < |cs[k]| && cs[k][i + 1..] == filename
                   && cs[k][..i] == if parts[k] == "" then "." else parts[k]
  {
    if '/' !in filename {
      if path == None || path == Some("") {
        assert Split(".", 0, ':') == ["."] by {
          FirstSeparator(".", 0, 1, ':');
          assert "."[0..1] == ".";
        }
        assert Candidates(filename, path) == ["." + "/" + filename];
        assert "." + "/" == "./";
      } else {
        var cs, parts := Candidates(filename, path), Split(path.value, 0, ':');
        forall k | 0 <= k < |cs|
          ensures var i := LastSlash(cs[k]);
                  i < |cs[k]| && cs[k][i + 1..] == filename && cs[k][..i] == if parts[k] == "" then "." else parts[k]
        {
          SlashBeforeName(if parts[k] == "" then "." else parts[k], filename);
        }
      }
    }
  }

  /** strrchr(): the last slash of a text, or its length if there is none. */
  function LastSlash(s: string): (i: nat)
    ensures i <= |s| && (i < |s| ==> s[i] == '/' && '/' !in s[i + 1..])
    ensures i == |s| ==> '/' !in s
  {
    if s == "" then 0
    else
      var n := |s| - 1;
      if s[n] == '/' then n
      else
        var i := LastSlash(s[..n]);
        if i == n then
          assert s == s[..n] + [s[n]];
          n + 1
        else
          assert s[i + 1..] == s[..n][i + 1..] + [s[n]];
          i
  }

  lemma SlashBeforeName(dir: string, filename: string)
    requires '/' !in filename
    ensures var a := dir + "/" + filename;
            LastSlash(a) < |a| && a[LastSlash(a) + 1..] == filename && a[..LastSlash(a)] == dir
  {
    var a, i := dir + "/" + filename, LastSlash(dir + "/" + filename);
    assert a[|dir|] == '/';
    assert forall j :: |dir| < j < |a| ==> a[j] == filename[j - |dir| - 1];
    assert i < |a| && forall j :: i < j < |a| ==> a[j] in a[i + 1..];
    assert i == |dir|;
  }

  /** Tries the candidates in order up to the first that starts a program. If none does, the
      error is 13, EACCES, exactly if some attempt gave it, and else that of the last. An error 8,
      ENOEXEC, makes the shell run the file as a script. */
  method Execlp(filename: string, path: Option<string>, exec: Exec, shell: bool) returns (r: Result, tried: nat)
    ensures SearchResult(Candidates(filename, path), exec, shell, tried, r)
    ensures var cs := Candidates(filename, path);
            && 0 < tried <= |cs|
            && (forall k :: 0 <= k < tried - 1 ==> exec(cs[k]).Some? && (exec(cs[k]) == Some(8) ==> !shell))
            && match r
               case Execed(p) => p == cs[tried - 1] && exec(p) == None
               case Script(p) => p == cs[tried - 1] && exec(p) == Some(8) && shell
               case Failed(errno) =>
                 && tried == |cs| && (exec(cs[tried - 1]) == Some(8) ==> !shell)
                 && (errno == 13 <==> exists k :: 0 <= k < |cs| && exec(cs[k]) == Some(13))
                 && (errno != 13 ==> exec(cs[tried - 1]) == Some(errno))
  {
    if '/' in filename {
      tried := 1;
      match exec(filename)
      case None => r := Execed(filename);
      case Some(errno) =>
        if errno == ENOEXEC && shell {
          r := Script(filename);
        } else {
          r := Failed(errno);
          assert Candidates(filename, path)[0] == filename;
        }
    } else {
      r, tried := SearchPath(filename, EffectivePath(path), exec, shell);
    }
  }

  method SearchPath(filename: string, path: string, exec: Exec, shell: bool) returns (r: Result, tried: nat)
    ensures SearchResult(Attempts(Split(path, 0, ':'), filename), exec, shell, tried, r)
  {
    hide Split, NextChar, Pathname;
    ghost var all := Split(path, 0, ':');
    ghost var attempts := Attempts(all, filename);
    var prStart, morePrefixes, fndEACCES, savedErrno := 0, true, false, 0;
    tried := 0;
    assert all[0..] == all;
    while morePrefixes
      invariant tried <= |all| && prStart <= |path|
      invariant morePrefixes ==> tried < |all| && Split(path, prStart, ':') == all[tried..]
      invariant !morePrefixes ==> tried == |all|
      invariant forall k :: 0 <= k < tried ==> !Ends(exec, shell, attempts[k])
      invariant fndEACCES <==> exists k :: 0 <= k < tried && exec(attempts[k]) == Some(EACCES)
      invariant 0 < tried ==> exec(attempts[tried - 1]) == Some(savedErrno)
      decreases morePrefixes, |path| - prStart
    {
      var prEnd := NextChar(path, prStart, ':');
      NextPart(path, prStart, ':', all, tried);
      var buf := BuildPathname(path, prStart, prEnd, filename);
      var pathname := buf[..buf.Length - 1];
      assert pathname == attempts[tried];
      if prEnd == |path| {
        morePrefixes := false;
      } else {
        prStart := prEnd + 1;
      }
      tried := tried + 1;
      match exec(pathname)
      case None =>
        return Execed(pathname), tried;
      case Some(errno) =>
        savedErrno := errno;
        if errno == EACCES {
          fndEACCES := true;
        } else if errno == ENOEXEC {
          if shell {
            return Script(pathname), tried;
          }
        }
    }
    r := Failed(if fndEACCES then EACCES else savedErrno);
  }
}
