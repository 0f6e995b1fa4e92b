/** Applying parsed entries to the access control list of a file. */
module AclUpdate {
  import opened AclSpec
  import opened Options

  /** What identifies an entry: its tag, and its qualifier where the tag has one. */
  datatype Key = Key(tag: Tag, qual: nat)

  function KeyOf(tag: Tag, qual: nat): Key {
    Key(tag, if tag == USER || tag == GROUP then qual else 0)
  }

  function EntryKey(e: Ace): Key {
    KeyOf(e.tag, e.qual)
  }

  const MASK_KEY := Key(MASK, 0)

  type Acl = seq<Ace>

  predicate UniqueKeys(acl: Acl) {
    forall i, j :: 0 <= i < j < |acl| ==> EntryKey(acl[i]) != EntryKey(acl[j])
  }

  /** An access control list as a map from keys to permissions. */
  type Rights = map<Key, set<Perm>>

  ghost function Abs(acl: Acl): (m: Rights)
    ensures forall i :: 0 <= i < |acl| ==> EntryKey(acl[i]) in m
    ensures forall k :: k in m ==> exists i :: 0 <= i < |acl| && EntryKey(acl[i]) == k
  {
    if acl == [] then map[]
    else
      var e := acl[|acl| - 1];
      var m := Abs(acl[..|acl| - 1])[EntryKey(e) := e.perms];
      assert EntryKey(acl[|acl| - 1]) == EntryKey(e);
      assert forall k :: k in m ==> exists i :: 0 <= i < |acl| && EntryKey(acl[i]) == k by {
        forall k | k in m ensures exists i :: 0 <= i < |acl| && EntryKey(acl[i]) == k {
          if k != EntryKey(e) {
            var i :| 0 <= i < |acl| - 1 && EntryKey(acl[..|acl| - 1][i]) == k;
            assert EntryKey(acl[i]) == k;
          }
        }
      }
      m
  }

  lemma {:induction false} AbsAt(acl: Acl, i: nat)
    requires UniqueKeys(acl) && i < |acl|
    ensures Abs(acl)[EntryKey(acl[i])] == acl[i].perms
    decreases |acl|
  {
    if i < |acl| - 1 {
      AbsAt(acl[..|acl| - 1], i);
    }
  }

  /** The map is determined by the entries. */
  lemma AbsIs(acl: Acl, m: Rights)
    requires UniqueKeys(acl)
    requires forall i :: 0 <= i < |acl| ==> EntryKey(acl[i]) in m && m[EntryKey(acl[i])] == acl[i].perms
    requires forall k :: k in m ==> exists i :: 0 <= i < |acl| && EntryKey(acl[i]) == k
    ensures Abs(acl) == m
  {
    hide Abs;
    forall k | k in Abs(acl) ensures k in m && m[k] == Abs(acl)[k] {
      var i :| 0 <= i < |acl| && EntryKey(acl[i]) == k;
      AbsAt(acl, i);
    }
    assert Abs(acl).Keys == m.Keys;
  }

  // ----- Single operations --------------------------------------------------

  /** Entries have the same key exactly if they have the same tag and, for users and groups, the
      same qualifier. */
  lemma KeyIdentifies(a: Ace, b: Ace)
    ensures EntryKey(a) == EntryKey(b) <==>
            a.tag == b.tag && (a.tag == USER || a.tag == GROUP ==> a.qual == b.qual)
  {
  }

  method FindEntry(acl: Acl, tag: Tag, qual: nat) returns (i: int)
    ensures -1 <= i < |acl|
    ensures 0 <= i ==> EntryKey(acl[i]) == KeyOf(tag, qual)
    ensures i == -1 <==> KeyOf(tag, qual) !in Abs(acl)
    ensures 0 <= i ==> acl[i].tag == tag && (tag == USER || tag == GROUP ==> acl[i].qual == qual)
    ensures i == -1 ==> forall j :: 0 <= j < |acl| ==>
              acl[j].tag != tag || ((tag == USER || tag == GROUP) && acl[j].qual != qual)
  {
    hide Abs;
    for j := 0 to |acl|
      invariant forall k :: 0 <= k < j ==> EntryKey(acl[k]) != KeyOf(tag, qual)
    {
      if acl[j].tag == tag {
        if tag == USER || tag == GROUP {
          if acl[j].qual == qual {
            return j;
          }
        } else {
          return j;
        }
      }
    }
    return -1;
  }

  lemma SetEntry(acl: Acl, i: nat, perms: set<Perm>)
    requires UniqueKeys(acl) && i < |acl|
    ensures var acl' := acl[i := acl[i].(perms := perms)];
            UniqueKeys(acl') && Abs(acl') == Abs(acl)[EntryKey(acl[i]) := perms]
  {
    hide Abs;
    var acl' := acl[i := acl[i].(perms := perms)];
    assert forall j :: 0 <= j < |acl| ==> EntryKey(acl'[j]) == EntryKey(acl[j]);
    var m := Abs(acl)[EntryKey(acl[i]) := perms];
    forall j | 0 <= j < |acl'| ensures EntryKey(acl'[j]) in m && m[EntryKey(acl'[j])] == acl'[j].perms {
      AbsAt(acl, j);
    }
    forall k | k in m ensures exists j :: 0 <= j < |acl'| && EntryKey(acl'[j]) == k {
      var j :| 0 <= j < |acl| && EntryKey(acl[j]) == k;
      assert EntryKey(acl'[j]) == k;
    }
    AbsIs(acl', m);
  }

  lemma AddEntry(acl: Acl, e: Ace)
    requires UniqueKeys(acl) && EntryKey(e) !in Abs(acl)
    ensures UniqueKeys(acl + [e]) && Abs(acl + [e]) == Abs(acl)[EntryKey(e) := e.perms]
  {
    assert (acl + [e])[..|acl|] == acl;
  }

  lemma DeleteEntry(acl: Acl, i: nat)
    requires UniqueKeys(acl) && i < |acl|
    ensures var acl' := acl[..i] + acl[i + 1..];
            UniqueKeys(acl') && Abs(acl') == Abs(acl) - {EntryKey(acl[i])}
  {
    hide Abs;
    var acl' := acl[..i] + acl[i + 1..];
    var m := Abs(acl) - {EntryKey(acl[i])};
    forall j | 0 <= j < |acl'| ensures EntryKey(acl'[j]) in m && m[EntryKey(acl'[j])] == acl'[j].perms {
      AbsAt(acl, if j < i then j else j + 1);
    }
    forall k | k in m ensures exists j :: 0 <= j < |acl'| && EntryKey(acl'[j]) == k {
      var j :| 0 <= j < |acl| && EntryKey(acl[j]) == k;
      assert acl'[if j < i then j else j - 1] == acl[j];
    }
    AbsIs(acl', m);
  }

  predicate GroupClass(tag: Tag) {
    tag == USER || tag == GROUP_OBJ || tag == GROUP
  }

  ghost predicate GroupMay(m: Rights, p: Perm) {
    exists k :: k in m && GroupClass(k.tag) && p in m[k]
  }

  /** The union of the permissions of the group class. */
  ghost function GroupPerms(m: Rights): set<Perm> {
    set p: Perm | GroupMay(m, p)
  }

  /** The changes to the map that one entry asks for. */
  ghost function Change(m: Rights, e: Ace, remove: bool): Rights {
    if remove then m - {EntryKey(e)} else m[EntryKey(e) := e.perms]
  }

  ghost function Masked(m: Rights, recalc: bool): Rights {
    if recalc then m[MASK_KEY := GroupPerms(m)] else m
  }

  ghost function ChangeAll(m: Rights, aces: seq<Ace>, remove: bool, recalc: bool): Rights {
    if aces == [] then m
    else Masked(Change(ChangeAll(m, aces[..|aces| - 1], remove, recalc), aces[|aces| - 1], remove), recalc)
  }

  /** acl_valid(): one entry for owner, group and other, and a mask where there are
      named users or groups. */
  ghost predicate ValidAcl(m: Rights) {
    && Key(USER_OBJ, 0) in m && Key(GROUP_OBJ, 0) in m && Key(OTHER, 0) in m
    && ((exists k :: k in m && (k.tag == USER || k.tag == GROUP)) ==> MASK_KEY in m)
  }

  /** Are there entries for named users or groups? */
  method HasNamed(acl: Acl) returns (named: bool)
    ensures named <==> exists k :: k in Abs(acl) && (k.tag == USER || k.tag == GROUP)
  {
    hide Abs;
    for j := 0 to |acl|
      invariant forall i :: 0 <= i < j ==> acl[i].tag != USER && acl[i].tag != GROUP
    {
      if acl[j].tag == USER || acl[j].tag == GROUP {
        assert EntryKey(acl[j]) in Abs(acl);
        return true;
      }
    }
    return false;
  }

  method IsValid(acl: Acl) returns (ok: bool)
    ensures ok <==> ValidAcl(Abs(acl))
  {
    hide Abs;
    var u := FindEntry(acl, USER_OBJ, 0);
    var g := FindEntry(acl, GROUP_OBJ, 0);
    var o := FindEntry(acl, OTHER, 0);
    var m := FindEntry(acl, MASK, 0);
    var named := HasNamed(acl);
    ok := u >= 0 && g >= 0 && o >= 0 && (named ==> m >= 0);
  }

  /** The ACL in memory, and the one stored with the file. */
  class FileAcl {
    var acl: Acl
    var stored: Acl

    constructor (onDisk: Acl)
      ensures acl == onDisk && stored == onDisk
    {
      acl := onDisk;
      stored := onDisk;
    }

    /** acl_calc_mask(): set the mask entry, or create one. */
    method CalcMask()
      requires UniqueKeys(acl)
      modifies this`acl
      ensures UniqueKeys(acl) && Abs(acl) == Abs(old(acl))[MASK_KEY := GroupPerms(Abs(old(acl)))]
    {
      var perms: set<Perm> := {};
      for j := 0 to |acl|
        modifies {}
        invariant forall p :: p in perms <==> exists i :: 0 <= i < j && GroupClass(acl[i].tag) && p in acl[i].perms
      {
        if GroupClass(acl[j].tag) {
          perms := perms + acl[j].perms;
        }
      }
      UnionIsGroupPerms(acl, perms);
      var i := FindEntry(acl, MASK, 0);
      if i >= 0 {
        SetEntry(acl, i, perms);
        acl := acl[i := acl[i].(perms := perms)];
      } else {
        AddEntry(acl, Ace(MASK, 0, perms));
        acl := acl + [Ace(MASK, 0, perms)];
      }
    }

    method ApplyEntry(e: Ace, removeACL: bool)
      requires UniqueKeys(acl)
      modifies this`acl
      ensures UniqueKeys(acl) && Abs(acl) == Change(Abs(old(acl)), e, removeACL)
    {
      var entry := FindEntry(acl, e.tag, e.qual);
      if removeACL {
        if entry >= 0 {
          DeleteEntry(acl, entry);
          acl := acl[..entry] + acl[entry + 1..];
        } else {
          assert Abs(acl) - {EntryKey(e)} == Abs(acl);
        }
      } else {
        if entry == -1 {
          AddEntry(acl, Ace(e.tag, e.qual, {}));
          entry := |acl|;
          acl := acl + [Ace(e.tag, e.qual, {})];
        }
        SetEntry(acl, entry, e.perms);
        acl := acl[entry := acl[entry].(perms := e.perms)];
      }
    }

    /** Applies the entries one after the other, storing the ACL after each. If one would
        leave an invalid ACL, the update stops there, and what was stored before stays. */
    method Update(aclist: seq<Ace>, removeACL: bool, recalcMask: bool) returns (done: nat)
      requires UniqueKeys(stored)
      modifies this
      ensures UniqueKeys(acl) && UniqueKeys(stored) && done <= |aclist|
      ensures Abs(stored) == ChangeAll(Abs(old(stored)), aclist[..done], removeACL, recalcMask)
      ensures forall n :: 0 < n <= done ==> ValidAcl(ChangeAll(Abs(old(stored)), aclist[..n], removeACL, recalcMask))
      ensures done < |aclist| ==> !ValidAcl(ChangeAll(Abs(old(stored)), aclist[..done + 1], removeACL, recalcMask))
      ensures ValidAcl(Abs(old(stored))) ==>
                && (forall i :: 0 <= i < done ==> !Stops(Abs(old(stored)), aclist, removeACL, recalcMask, i))
                && (done < |aclist| ==> Stops(Abs(old(stored)), aclist, removeACL, recalcMask, done))
    {
      hide ValidAcl, GroupPerms, Abs, UniqueKeys, Change, Stops;
      if ValidAcl(Abs(stored)) {
        ghost var _ := FirstStop(Abs(stored), aclist, removeACL, recalcMask);
      }
      acl := stored;
      ghost var m := Abs(acl);
      for en := 0 to |aclist|
        invariant UniqueKeys(acl) && stored == acl
        invariant Abs(acl) == ChangeAll(m, aclist[..en], removeACL, recalcMask)
        invariant forall n :: 0 < n <= en ==> ValidAcl(ChangeAll(m, aclist[..n], removeACL, recalcMask))
      {
        assert aclist[..en + 1][..en] == aclist[..en];
        ApplyEntry(aclist[en], removeACL);
        if recalcMask {
          CalcMask();
        }
        var ok := IsValid(acl);
        if !ok {
          return en;
        }
        stored := acl;
      }
      return |aclist|;
    }
  }

  lemma UnionIsGroupPerms(acl: Acl, perms: set<Perm>)
    requires UniqueKeys(acl)
    requires forall p :: p in perms <==> exists i :: 0 <= i < |acl| && GroupClass(acl[i].tag) && p in acl[i].perms
    ensures perms == GroupPerms(Abs(acl))
  {
    hide Abs;
    var m := Abs(acl);
    forall p | p in perms ensures p in GroupPerms(m) {
      var i :| 0 <= i < |acl| && GroupClass(acl[i].tag) && p in acl[i].perms;
      AbsAt(acl, i);
      assert EntryKey(acl[i]) in m && p in m[EntryKey(acl[i])];
    }
    forall p | p in GroupPerms(m) ensures p in perms {
      var k :| k in m && GroupClass(k.tag) && p in m[k];
      var i :| 0 <= i < |acl| && EntryKey(acl[i]) == k;
      AbsAt(acl, i);
    }
  }

  // ----- What a list of entries amounts to ----------------------------------

  /** The last entry of the list for a key. */
  ghost function LastFor(aces: seq<Ace>, k: Key): Option<set<Perm>> {
    if aces == [] then None
    else if EntryKey(aces[|aces| - 1]) == k then Some(aces[|aces| - 1].perms)
    else LastFor(aces[..|aces| - 1], k)
  }

  function Get(m: Rights, k: Key): Option<set<Perm>> {
    if k in m then Some(m[k]) else None
  }

  /** Modifying: every key but a recalculated mask ends with the permissions of its last
      specification, and keys that are not specified keep theirs. */
  lemma {:induction false} LastSpecificationWins(m: Rights, aces: seq<Ace>, recalc: bool, k: Key)
    requires k != MASK_KEY || !recalc
    ensures Get(ChangeAll(m, aces, false, recalc), k) == if LastFor(aces, k).Some? then LastFor(aces, k) else Get(m, k)
    decreases |aces|
  {
    if aces != [] {
      LastSpecificationWins(m, aces[..|aces| - 1], recalc, k);
    }
  }

  /** Removing: the keys specified are gone, and all others keep their permissions. */
  lemma {:induction false} SpecifiedAreRemoved(m: Rights, aces: seq<Ace>, recalc: bool, k: Key)
    requires k != MASK_KEY || !recalc
    ensures Get(ChangeAll(m, aces, true, recalc), k) == if LastFor(aces, k).Some? then None else Get(m, k)
    decreases |aces|
  {
    if aces != [] {
      SpecifiedAreRemoved(m, aces[..|aces| - 1], recalc, k);
    }
  }

  /** With recalculation, the mask ends as the union of the group class as it ends. */
  lemma MaskIsUnion(m: Rights, aces: seq<Ace>, remove: bool)
    requires aces != []
    ensures var m' := ChangeAll(m, aces, remove, true);
            && Get(m', MASK_KEY) == Some(GroupPerms(m')) && Key(MASK, 0) in m'
            && forall p :: p in m'[Key(MASK, 0)] <==>
                 exists k :: k in m' && (k.tag == USER || k.tag == GROUP_OBJ || k.tag == GROUP) && p in m'[k]
  {
    var before := Change(ChangeAll(m, aces[..|aces| - 1], remove, true), aces[|aces| - 1], remove);
    var after := Masked(before, true);
    forall p: Perm ensures p in GroupPerms(after) <==> p in GroupPerms(before) {
      if p in GroupPerms(after) {
        var k :| k in after && GroupClass(k.tag) && p in after[k];
        assert k in before && p in before[k];
      }
      if p in GroupPerms(before) {
        var k :| k in before && GroupClass(k.tag) && p in before[k];
        assert k in after && p in after[k];
      }
    }
    assert GroupPerms(after) == GroupPerms(before);
  }

  // ----- When an update is refused ------------------------------------------

  predicate Named(tag: Tag) {
    tag == USER || tag == GROUP
  }

  predicate Required(tag: Tag) {
    tag == USER_OBJ || tag == GROUP_OBJ || tag == OTHER
  }

  ghost predicate Specified(aces: seq<Ace>, k: Key) {
    exists i :: 0 <= i < |aces| && EntryKey(aces[i]) == k
  }

  lemma {:induction false} LastForSpecified(aces: seq<Ace>, k: Key)
    ensures LastFor(aces, k).Some? <==> Specified(aces, k)
    decreases |aces|
  {
    if aces != [] {
      var front := aces[..|aces| - 1];
      LastForSpecified(front, k);
      if Specified(front, k) {
        var i :| 0 <= i < |front| && EntryKey(front[i]) == k;
        assert EntryKey(aces[i]) == k;
      }
    }
  }

  lemma KeysAfter(m: Rights, aces: seq<Ace>, remove: bool, recalc: bool, k: Key)
    requires k != MASK_KEY || !recalc
    ensures k in ChangeAll(m, aces, remove, recalc) <==>
            if remove then k in m && !Specified(aces, k) else k in m || Specified(aces, k)
  {
    hide ChangeAll, LastFor, Specified;
    LastForSpecified(aces, k);
    if remove {
      SpecifiedAreRemoved(m, aces, recalc, k);
    } else {
      LastSpecificationWins(m, aces, recalc, k);
    }
  }

  /** The list after all modifications is valid unless it got a named entry and no mask. */
  lemma ModifyValid(m: Rights, aces: seq<Ace>, recalc: bool)
    requires ValidAcl(m) && aces != []
    ensures ValidAcl(ChangeAll(m, aces, false, recalc)) <==>
            || recalc || MASK_KEY in m
            || (exists i :: 0 <= i < |aces| && aces[i].tag == MASK)
            || (forall i :: 0 <= i < |aces| ==> !Named(aces[i].tag))
  {
    hide ChangeAll;
    var m' := ChangeAll(m, aces, false, recalc);
    forall k | k != MASK_KEY || !recalc ensures k in m' <==> k in m || Specified(aces, k) {
      KeysAfter(m, aces, false, recalc, k);
    }
    if recalc {
      MaskIsUnion(m, aces, false);
    } else if !forall i :: 0 <= i < |aces| ==> !Named(aces[i].tag) {
      var i :| 0 <= i < |aces| && Named(aces[i].tag);
      assert EntryKey(aces[i]) in m';
      if j :| 0 <= j < |aces| && aces[j].tag == MASK {
        assert EntryKey(aces[j]) == MASK_KEY;
      }
    }
  }

  /** The list after all removals is valid unless it lost a required entry, or its mask
      but not all named entries. */
  lemma RemoveValid(m: Rights, aces: seq<Ace>, recalc: bool)
    requires ValidAcl(m) && aces != []
    ensures ValidAcl(ChangeAll(m, aces, true, recalc)) <==>
            && (forall i :: 0 <= i < |aces| ==> !Required(aces[i].tag))
            && (|| recalc
                || (forall i :: 0 <= i < |aces| ==> aces[i].tag != MASK)
                || (forall k :: k in m && Named(k.tag) ==> Specified(aces, k)))
  {
    hide ChangeAll;
    var m' := ChangeAll(m, aces, true, recalc);
    forall k | k != MASK_KEY || !recalc ensures k in m' <==> k in m && !Specified(aces, k) {
      KeysAfter(m, aces, true, recalc, k);
    }
    forall i | 0 <= i < |aces| ensures Specified(aces, EntryKey(aces[i])) {}
    if recalc {
      MaskIsUnion(m, aces, true);
    }
  }

  /** Modifying stops at the first entry for a named user or group while there is no mask,
      unless the mask is recalculated. */
  ghost predicate ModifyStops(m: Rights, aces: seq<Ace>, recalc: bool, i: nat)
    requires i < |aces|
  {
    && !recalc && MASK_KEY !in m && Named(aces[i].tag)
    && forall j :: 0 <= j < i ==> aces[j].tag != MASK
  }

  /** Removing stops at the first required entry, or at the mask while some named entry
      has not been removed, unless the mask is recalculated. */
  ghost predicate RemoveStops(m: Rights, aces: seq<Ace>, recalc: bool, i: nat)
    requires i < |aces|
  {
    || Required(aces[i].tag)
    || (!recalc && aces[i].tag == MASK && exists k :: k in m && Named(k.tag) && !Specified(aces[..i], k))
  }

  ghost predicate Stops(m: Rights, aces: seq<Ace>, remove: bool, recalc: bool, i: nat)
    requires i < |aces|
  {
    if remove then RemoveStops(m, aces, recalc, i) else ModifyStops(m, aces, recalc, i)
  }

  lemma ModifyRefused(m: Rights, aces: seq<Ace>, recalc: bool, i: nat)
    requires ValidAcl(m) && i < |aces| && forall j :: 0 <= j < i ==> !ModifyStops(m, aces, recalc, j)
    ensures ValidAcl(ChangeAll(m, aces[..i + 1], false, recalc)) <==> !ModifyStops(m, aces, recalc, i)
    ensures ModifyStops(m, aces, recalc, i) <==>
            && !recalc && Key(MASK, 0) !in m && (aces[i].tag == USER || aces[i].tag == GROUP)
            && forall j :: 0 <= j < i ==> aces[j].tag != MASK
  {
    hide ValidAcl, ChangeAll;
    var done := aces[..i + 1];
    ModifyValid(m, done, recalc);
    assert forall j :: 0 <= j <= i ==> done[j] == aces[j];
    if j :| 0 <= j < i && aces[j].tag == MASK {
      assert done[j].tag == MASK;
    } else if !recalc && MASK_KEY !in m {
      forall j | 0 <= j < i ensures !Named(done[j].tag) {
        assert !ModifyStops(m, aces, recalc, j);
      }
      assert done[i] == aces[i];
    }
  }

  lemma RemoveRefused(m: Rights, aces: seq<Ace>, recalc: bool, i: nat)
    requires ValidAcl(m) && i < |aces| && forall j :: 0 <= j < i ==> !RemoveStops(m, aces, recalc, j)
    ensures ValidAcl(ChangeAll(m, aces[..i + 1], true, recalc)) <==> !RemoveStops(m, aces, recalc, i)
    ensures RemoveStops(m, aces, recalc, i) <==>
            || aces[i].tag == USER_OBJ || aces[i].tag == GROUP_OBJ || aces[i].tag == OTHER
            || (&& !recalc && aces[i].tag == MASK
                && exists k :: k in m && (k.tag == USER || k.tag == GROUP) && !Specified(aces[..i], k))
  {
    hide ValidAcl, ChangeAll;
    var done := aces[..i + 1];
    RemoveValid(m, done, recalc);
    assert forall j :: 0 <= j <= i ==> done[j] == aces[j];
    assert done == aces[..i] + [aces[i]];
    forall j, k | 0 <= j <= i && Specified(aces[..j], k) ensures Specified(done, k) {
      var x :| 0 <= x < j && EntryKey(aces[..j][x]) == k;
      assert EntryKey(done[x]) == k;
    }
    forall k: Key | Named(k.tag) && Specified(done, k) && aces[i].tag == MASK ensures Specified(aces[..i], k) {
      var x :| 0 <= x <= i && EntryKey(done[x]) == k;
      assert EntryKey(aces[..i][x]) == k;
    }
    if RemoveStops(m, aces, recalc, i) {
      assert done[i] == aces[i];
    } else {
      forall j | 0 <= j < |done| ensures !Required(done[j].tag) {
        assert !RemoveStops(m, aces, recalc, j);
      }
      if j :| 0 <= j < |done| && done[j].tag == MASK && !recalc {
        assert !RemoveStops(m, aces, recalc, j);
        assert forall k :: k in m && Named(k.tag) ==> Specified(aces[..j], k);
      }
    }
  }

  /** As long as no entry before it stopped the update, an entry leaves an invalid list
      exactly if it stops the update. */
  lemma Refused(m: Rights, aces: seq<Ace>, remove: bool, recalc: bool, i: nat)
    requires ValidAcl(m) && i < |aces| && forall j :: 0 <= j < i ==> !Stops(m, aces, remove, recalc, j)
    ensures ValidAcl(ChangeAll(m, aces[..i + 1], remove, recalc)) <==> !Stops(m, aces, remove, recalc, i)
  {
    hide ValidAcl, ChangeAll, ModifyStops, RemoveStops;
    if remove {
      assert forall j :: 0 <= j < i ==> !RemoveStops(m, aces, recalc, j) by {
        forall j | 0 <= j < i ensures !RemoveStops(m, aces, recalc, j) {
          assert !Stops(m, aces, remove, recalc, j);
        }
      }
      RemoveRefused(m, aces, recalc, i);
    } else {
      assert forall j :: 0 <= j < i ==> !ModifyStops(m, aces, recalc, j) by {
        forall j | 0 <= j < i ensures !ModifyStops(m, aces, recalc, j) {
          assert !Stops(m, aces, remove, recalc, j);
        }
      }
      ModifyRefused(m, aces, recalc, i);
    }
  }

  /** Every list stored on the way is valid exactly if no entry stops the update. */
  lemma AcceptedIff(m: Rights, aces: seq<Ace>, remove: bool, recalc: bool)
    requires ValidAcl(m)
    ensures (forall n :: 0 < n <= |aces| ==> ValidAcl(ChangeAll(m, aces[..n], remove, recalc))) <==>
            (forall i :: 0 <= i < |aces| ==> !Stops(m, aces, remove, recalc, i))
  {
    var n := FirstStop(m, aces, remove, recalc);
  }

  /** Where an update of a valid list stops: before the first entry that stops it. */
  lemma FirstStop(m: Rights, aces: seq<Ace>, remove: bool, recalc: bool) returns (n: nat)
    requires ValidAcl(m)
    ensures n <= |aces| && (forall i :: 0 <= i < n ==> !Stops(m, aces, remove, recalc, i))
    ensures forall i :: 0 < i <= n ==> ValidAcl(ChangeAll(m, aces[..i], remove, recalc))
    ensures n < |aces| ==>
              Stops(m, aces, remove, recalc, n) && !ValidAcl(ChangeAll(m, aces[..n + 1], remove, recalc))
  {
    hide ValidAcl, ChangeAll, Stops;
    n := 0;
    while n < |aces|
      invariant n <= |aces| && forall i :: 0 <= i < n ==> !Stops(m, aces, remove, recalc, i)
      invariant forall i :: 0 < i <= n ==> ValidAcl(ChangeAll(m, aces[..i], remove, recalc))
    {
      Refused(m, aces, remove, recalc, n);
      if Stops(m, aces, remove, recalc, n) {
        return;
      }
      n := n + 1;
    }
  }
}
