/** Parsing the text form of an access control list:
    comma-separated entries tag:[qualifier][:[perms]]. */
module AclSpec {
  import opened Options
  import opened Strings

  datatype Tag = USER_OBJ | USER | GROUP_OBJ | GROUP | MASK | OTHER
  datatype Perm = READ | WRITE | EXECUTE

  datatype Ace = Ace(tag: Tag, qual: nat, perms: set<Perm>)

  const MAX_ENTRIES: nat := 10000

  /** userIdFromName() and groupIdFromName(): the number a name stands for, if any. */
  datatype Names = Names(users: string -> Option<nat>, groups: string -> Option<nat>)

  // ----- The grammar --------------------------------------------------------

  /** An entry text is a tag, a qualifier, and what follows a second colon, if there
      is one; tag and qualifier hold no colon. */
  ghost predicate Reads(s: string, tag: string, qual: string, perms: Option<string>) {
    && ':' !in tag && ':' !in qual
    && s == tag + ":" + qual + if perms.Some? then ":" + perms.value else ""
  }

  function TagOf(tag: string, hasQual: bool): Option<Tag> {
    if tag == "u" || tag == "user" then Some(if hasQual then USER else USER_OBJ)
    else if tag == "g" || tag == "group" then Some(if hasQual then GROUP else GROUP_OBJ)
    else if tag == "o" || tag == "other" then Some(OTHER)
    else if tag == "m" || tag == "mask" then Some(MASK)
    else None
  }

  predicate GoodPerms(p: string) {
    forall i :: 0 <= i < |p| ==> p[i] in "rwx-"
  }

  function PermsOf(p: string): set<Perm> {
    (if 'r' in p then {READ} else {}) + (if 'w' in p then {WRITE} else {}) + (if 'x' in p then {EXECUTE} else {})
  }

  function Qualifier(tag: Tag, qual: string, names: Names): Option<nat> {
    if tag == USER then names.users(qual) else if tag == GROUP then names.groups(qual) else Some(0)
  }

  /** What an entry text means. Permissions must be there when `permsReqd`, and must not
      be there otherwise. */
  function Meaning(tag: string, qual: string, perms: Option<string>, permsReqd: bool, names: Names): Option<Ace> {
    var hasPerms := perms.Some? && perms.value != "";
    if hasPerms != permsReqd || TagOf(tag, qual != "").None? then None
    else
      var t := TagOf(tag, qual != "").value;
      if Qualifier(t, qual, names).None? || (hasPerms && !GoodPerms(perms.value)) then None
      else Some(Ace(t, Qualifier(t, qual, names).value, if hasPerms then PermsOf(perms.value) else {}))
  }

  /** The positions of the first two colons give the one reading of a text. */
  lemma ReadingIsUnique(s: string, tag: string, qual: string, perms: Option<string>)
    requires Reads(s, tag, qual, perms)
    ensures var i := NextChar(s, 0, ':');
            && i < |s| && tag == s[..i]
            && var j := NextChar(s, i + 1, ':');
               qual == s[i + 1..j] && perms == if j == |s| then None else Some(s[j + 1..])
  {
    hide NextChar;
    var i, m := |tag|, |tag| + 1 + |qual|;
    var tail := if perms.Some? then ":" + perms.value else "";
    assert s[0..i] == tag && s[i] == ':' && s[i + 1..m] == qual && s[m..] == tail;
    FirstSeparator(s, 0, i, ':');
    assert m < |s| <==> perms.Some?;
    if perms.Some? {
      assert s[m] == tail[0] && s[m + 1..] == tail[1..] == perms.value;
    }
    FirstSeparator(s, i + 1, m, ':');
  }

  lemma ReadWithoutPerms(s: string, i: nat)
    requires i < |s| && s[i] == ':' && ':' !in s[..i] && ':' !in s[i + 1..]
    ensures Reads(s, s[..i], s[i + 1..], None)
  {
    Cut(s, i);
    assert s[..i] + ":" + s[i + 1..] + "" == s[..i] + ":" + s[i + 1..];
  }

  lemma ReadWithPerms(s: string, i: nat, j: nat)
    requires i < j < |s| && s[i] == ':' && ':' !in s[..i] && s[j] == ':' && ':' !in s[i + 1..j]
    ensures Reads(s, s[..i], s[i + 1..j], Some(s[j + 1..]))
  {
    Cut(s, j);
    Cut(s[..j], i);
    assert s[..j][..i] == s[..i] && s[..j][i + 1..] == s[i + 1..j];
    var a, b, c := s[..i] + ":", s[i + 1..j], ":" + s[j + 1..];
    assert s == s[..j] + c && s[..j] == a + b;
  }

  lemma ReadingExists(s: string)
    requires ':' in s
    ensures exists tag, qual, perms :: Reads(s, tag, qual, perms)
  {
    hide NextChar, Reads;
    var i := NextChar(s, 0, ':');
    assert s[0..i] == s[..i] && s[..|s|] == s;
    var j := NextChar(s, i + 1, ':');
    if j < |s| {
      ReadWithPerms(s, i, j);
    } else {
      assert s[i + 1..] == s[i + 1..j];
      ReadWithoutPerms(s, i);
    }
  }

  // ----- The parser ---------------------------------------------------------

  method ParsePerms(p: string) returns (perms: Option<set<Perm>>)
    ensures perms == if GoodPerms(p) then Some(PermsOf(p)) else None
    ensures perms.Some? <==> forall i :: 0 <= i < |p| ==> p[i] == 'r' || p[i] == 'w' || p[i] == 'x' || p[i] == '-'
    ensures perms.Some? ==>
              && (READ in perms.value <==> 'r' in p)
              && (WRITE in perms.value <==> 'w' in p)
              && (EXECUTE in perms.value <==> 'x' in p)
  {
    var acc: set<Perm> := {};
    for i := 0 to |p|
      invariant GoodPerms(p[..i]) && acc == PermsOf(p[..i])
    {
      assert p[..i + 1] == p[..i] + [p[i]];
      if p[i] == 'r' {
        acc := acc + {READ};
      } else if p[i] == 'w' {
        acc := acc + {WRITE};
      } else if p[i] == 'x' {
        acc := acc + {EXECUTE};
      } else if p[i] != '-' {
        assert !GoodPerms(p);
        return None;
      }
    }
    assert p[..|p|] == p;
    return Some(acc);
  }

  /** The entry is what its one reading means; a text without a colon is refused. */
  method ParseEntrySpec(entryStr: string, permsReqd: bool, names: Names) returns (ace: Option<Ace>)
    ensures ':' !in entryStr ==> ace == None
    ensures forall tag, qual, perms :: Reads(entryStr, tag, qual, perms) ==>
              ace == Meaning(tag, qual, perms, permsReqd, names)
  {
    hide NextChar, Meaning, GoodPerms, PermsOf;
    var colon1 := NextChar(entryStr, 0, ':');
    if colon1 == |entryStr| {
      forall tag, qual, perms | Reads(entryStr, tag, qual, perms) ensures false {
        ReadingIsUnique(entryStr, tag, qual, perms);
      }
      return None;
    }
    var colon2 := NextChar(entryStr, colon1 + 1, ':');
    var tag, qual := entryStr[..colon1], entryStr[colon1 + 1..colon2];
    var perms := if colon2 == |entryStr| then None else Some(entryStr[colon2 + 1..]);
    forall t, q, p | Reads(entryStr, t, q, p) ensures t == tag && q == qual && p == perms {
      ReadingIsUnique(entryStr, t, q, p);
    }
    ace := Interpret(tag, qual, perms, permsReqd, names);
  }

  method Interpret(tag: string, qual: string, perms: Option<string>, permsReqd: bool, names: Names)
    returns (ace: Option<Ace>)
    ensures ace == Meaning(tag, qual, perms, permsReqd, names)
  {
    var hasQual := qual != "";
    var hasPerms := perms.Some? && perms.value != "";
    if hasPerms && !permsReqd {
      return None;
    }
    if !hasPerms && permsReqd {
      return None;
    }
    var t: Tag;
    if tag == "u" || tag == "user" {
      t := if hasQual then USER else USER_OBJ;
    } else if tag == "g" || tag == "group" {
      t := if hasQual then GROUP else GROUP_OBJ;
    } else if tag == "o" || tag == "other" {
      t := OTHER;
    } else if tag == "m" || tag == "mask" {
      t := MASK;
    } else {
      return None;
    }
    var id := Some(0);
    if t == USER {
      id := names.users(qual);
    } else if t == GROUP {
      id := names.groups(qual);
    }
    if id.None? {
      return None;
    }
    var bits: set<Perm> := {};
    if hasPerms {
      var p := ParsePerms(perms.value);
      if p.None? {
        return None;
      }
      bits := p.value;
    }
    return Some(Ace(t, id.value, bits));
  }

  /** The entry that a text stands for, by its one reading. */
  ghost function EntryOf(s: string, permsReqd: bool, names: Names): Option<Ace> {
    if ':' !in s then None
    else
      ReadingExists(s);
      var tag, qual, perms :| Reads(s, tag, qual, perms);
      Meaning(tag, qual, perms, permsReqd, names)
  }

  lemma EntryOfReading(s: string, tag: string, qual: string, perms: Option<string>, permsReqd: bool, names: Names)
    requires Reads(s, tag, qual, perms)
    ensures EntryOf(s, permsReqd, names) == Meaning(tag, qual, perms, permsReqd, names)
  {
    hide Meaning, NextChar;
    assert s[|tag|] == ':';
    ReadingExists(s);
    forall t, q, p | Reads(s, t, q, p) ensures t == tag && q == qual && p == perms {
      ReadingIsUnique(s, t, q, p);
      ReadingIsUnique(s, tag, qual, perms);
    }
  }

  /** The short and the long word for a tag. */
  function Word(t: Tag, long: bool): string {
    match t
    case USER_OBJ => if long then "user" else "u"
    case USER => if long then "user" else "u"
    case GROUP_OBJ => if long then "group" else "g"
    case GROUP => if long then "group" else "g"
    case MASK => if long then "mask" else "m"
    case OTHER => if long then "other" else "o"
  }

  function ShowPerms(p: set<Perm>): string {
    (if READ in p then "r" else "-") + (if WRITE in p then "w" else "-") + (if EXECUTE in p then "x" else "-")
  }

  /** The text of a key whose qualifier, if it has one, is the number of `name`. */
  function FormatKey(ace: Ace, name: string, long: bool): string {
    Word(ace.tag, long) + ":" + (if ace.tag == USER || ace.tag == GROUP then name else "")
  }

  function Format(ace: Ace, name: string, long: bool): string {
    FormatKey(ace, name, long) + ":" + ShowPerms(ace.perms)
  }

  lemma ShownPerms(p: set<Perm>)
    ensures GoodPerms(ShowPerms(p)) && PermsOf(ShowPerms(p)) == p && |ShowPerms(p)| == 3
  {
    var s := ShowPerms(p);
    assert s[0] == (if READ in p then 'r' else '-') && s[1] == (if WRITE in p then 'w' else '-')
        && s[2] == (if EXECUTE in p then 'x' else '-');
    assert READ in PermsOf(s) <==> 'r' in s;
    assert WRITE in PermsOf(s) <==> 'w' in s;
    assert EXECUTE in PermsOf(s) <==> 'x' in s;
    forall x: Perm ensures x in PermsOf(s) <==> x in p {
      match x case READ => case WRITE => case EXECUTE =>
    }
  }

  /** `name` is a name for the qualifier of the entry, if that has one. */
  predicate NamedBy(ace: Ace, name: string, names: Names) {
    && (ace.tag == USER ==> names.users(name) == Some(ace.qual))
    && (ace.tag == GROUP ==> names.groups(name) == Some(ace.qual))
    && (ace.tag == USER || ace.tag == GROUP ==> name != "" && ':' !in name)
    && (ace.tag != USER && ace.tag != GROUP ==> ace.qual == 0)
  }

  /** Writing an entry, in short or long words, and parsing it gives the entry back. */
  lemma FormatParses(ace: Ace, name: string, long: bool, names: Names)
    requires NamedBy(ace, name, names)
    ensures EntryOf(Format(ace, name, long), true, names) == Some(ace)
  {
    hide ShowPerms, GoodPerms, PermsOf;
    var qual := if ace.tag == USER || ace.tag == GROUP then name else "";
    ShownPerms(ace.perms);
    var tag := Word(ace.tag, long);
    assert tag + ":" + qual + (":" + ShowPerms(ace.perms)) == Format(ace, name, long);
    EntryOfReading(Format(ace, name, long), tag, qual, Some(ShowPerms(ace.perms)), true, names);
  }

  /** So does writing a key for removal, with or without a second colon. */
  lemma FormatKeyParses(ace: Ace, name: string, long: bool, names: Names)
    requires NamedBy(ace, name, names) && ace.perms == {}
    ensures EntryOf(FormatKey(ace, name, long), false, names) == Some(ace)
    ensures EntryOf(FormatKey(ace, name, long) + ":", false, names) == Some(ace)
  {
    var qual := if ace.tag == USER || ace.tag == GROUP then name else "";
    var tag, text := Word(ace.tag, long), FormatKey(ace, name, long);
    assert tag + ":" + qual + "" == text;
    EntryOfReading(text, tag, qual, None, false, names);
    assert tag + ":" + qual + (":" + "") == text + ":";
    EntryOfReading(text + ":", tag, qual, Some(""), false, names);
  }

  /** When an entry text of three parts, or two parts if `rest` is missing, is good: only
      eight words are tags, a name must be known, and permissions must be there exactly if they
      are required, and consist of four letters. */
  lemma EntryAccepted(word: string, qual: string, rest: Option<string>, permsReqd: bool, names: Names)
    requires ':' !in word && ':' !in qual
    ensures var letters := if rest.Some? then rest.value else "";
            EntryOf(Text(word, qual, rest), permsReqd, names).Some? <==>
            && (letters != "" <==> permsReqd)
            && (forall i :: 0 <= i < |letters| ==> letters[i] in "rwx-")
            && (|| ((word == "u" || word == "user") && (qual == "" || names.users(qual).Some?))
                || ((word == "g" || word == "group") && (qual == "" || names.groups(qual).Some?))
                || word == "o" || word == "other" || word == "m" || word == "mask")
  {
    hide EntryOf, PermsOf;
    EntryOfReading(Text(word, qual, rest), word, qual, rest, permsReqd, names);
  }

  /** What it then stands for. */
  lemma EntryTable(word: string, qual: string, rest: Option<string>, permsReqd: bool, names: Names)
    requires ':' !in word && ':' !in qual && EntryOf(Text(word, qual, rest), permsReqd, names).Some?
    ensures var Ace(tag, id, perms) := EntryOf(Text(word, qual, rest), permsReqd, names).value;
            var letters := if rest.Some? then rest.value else "";
            && (READ in perms <==> 'r' in letters)
            && (WRITE in perms <==> 'w' in letters)
            && (EXECUTE in perms <==> 'x' in letters)
            && (word == "u" || word == "user" ==>
                  if qual == "" then tag == USER_OBJ && id == 0 else tag == USER && names.users(qual) == Some(id))
            && (word == "g" || word == "group" ==>
                  if qual == "" then tag == GROUP_OBJ && id == 0 else tag == GROUP && names.groups(qual) == Some(id))
            && (word == "o" || word == "other" ==> tag == OTHER && id == 0)
            && (word == "m" || word == "mask" ==> tag == MASK && id == 0)
  {
    hide EntryOf, GoodPerms, PermsOf;
    EntryOfReading(Text(word, qual, rest), word, qual, rest, permsReqd, names);
    if rest.Some? {
      LettersOf(rest.value);
    }
  }

  function Text(word: string, qual: string, rest: Option<string>): string {
    word + ":" + qual + if rest.Some? then ":" + rest.value else ""
  }

  lemma LettersOf(p: string)
    ensures var r := PermsOf(p); (READ in r <==> 'r' in p) && (WRITE in r <==> 'w' in p) && (EXECUTE in r <==> 'x' in p)
  {
  }

  /** Succeeds exactly if there are at most 10000 comma-separated parts and each is
      a good entry; the list then holds what they mean, in order. */
  method ParseACL(aclStr: string, permsReqd: bool, names: Names) returns (r: Option<seq<Ace>>)
    ensures var parts := Split(aclStr, 0, ',');
            if |parts| <= 10000 && (forall k :: 0 <= k < |parts| ==> EntryOf(parts[k], permsReqd, names).Some?)
            then r.Some? && |r.value| == |parts| &&
                 forall k :: 0 <= k < |parts| ==> Some(r.value[k]) == EntryOf(parts[k], permsReqd, names)
            else r.None?
  {
    hide NextChar, Split, Meaning, Reads;
    ghost var parts := Split(aclStr, 0, ',');
    var aclist: seq<Ace> := [];
    var nextEntry := 0;
    var more := true;
    assert parts[0..] == parts;
    while more
      invariant nextEntry <= |aclStr| && |aclist| <= |parts| && |aclist| <= MAX_ENTRIES
      invariant if more then |aclist| < |parts| && Split(aclStr, nextEntry, ',') == parts[|aclist|..]
                else |aclist| == |parts|
      invariant forall k :: 0 <= k < |aclist| ==> Some(aclist[k]) == EntryOf(parts[k], permsReqd, names)
      decreases more, |aclStr| - nextEntry
    {
      if |aclist| >= MAX_ENTRIES {
        return None;
      }
      var comma := NextChar(aclStr, nextEntry, ',');
      NextPart(aclStr, nextEntry, ',', parts, |aclist|);
      var entry := aclStr[nextEntry..comma];
      var ace := ParseEntrySpec(entry, permsReqd, names);
      assert ace == EntryOf(entry, permsReqd, names) by {
        if ':' in entry {
          ReadingExists(entry);
        }
      }
      if ace.None? {
        return None;
      }
      aclist := aclist + [ace.value];
      if comma == |aclStr| {
        more := false;
      } else {
        nextEntry := comma + 1;
      }
    }
    return Some(aclist);
  }
}
