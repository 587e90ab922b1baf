/** The access control list as an object that is updated in place, with its printers and
    parsers as loops. */
module AccessControlLists {
  import opened Common
  import opened Bits
  import opened Packed
  import opened AclValues
  import opened AclText
  import opened AclXattr

  // ----- bits of rights ------------------------------------------------------------------------

  predicate Bit(x: nat, k: nat)
    requires k < 4
  {
    if k == 0 then x % 2 == 1 else if k == 1 then x / 2 % 2 == 1
    else if k == 2 then x / 4 % 2 == 1 else x / 8 % 2 == 1
  }

  function FromBits(a: bool, b: bool, c: bool, d: bool): (r: nat)
    ensures r < 16 && Bit(r, 0) == a && Bit(r, 1) == b && Bit(r, 2) == c && Bit(r, 3) == d
  {
    (if a then 1 else 0) + (if b then 2 else 0) + (if c then 4 else 0) + (if d then 8 else 0)
  }

  function Or(x: nat, y: nat): (r: nat)
    ensures r < 16 && forall k | 0 <= k < 4 :: Bit(r, k) <==> Bit(x, k) || Bit(y, k)
  {
    FromBits(Bit(x, 0) || Bit(y, 0), Bit(x, 1) || Bit(y, 1), Bit(x, 2) || Bit(y, 2), Bit(x, 3) || Bit(y, 3))
  }

  function And(x: nat, y: nat): (r: nat)
    ensures r < 16 && forall k | 0 <= k < 4 :: Bit(r, k) <==> Bit(x, k) && Bit(y, k)
  {
    FromBits(Bit(x, 0) && Bit(y, 0), Bit(x, 1) && Bit(y, 1), Bit(x, 2) && Bit(y, 2), Bit(x, 3) && Bit(y, 3))
  }

  // ----- effective rights ------------------------------------------------------------------------

  /** The mask, if there is one, limits what it is applied to. */
  predicate Masked(a: Acl, k: nat)
    requires k < 4
  {
    Rights(a.perms, MASK) == MASK_UNSET || Bit(Rights(a.perms, MASK), k)
  }

  /** A group of the user has an entry: its own, or that of the owning group. */
  predicate Matches(a: Acl, ownerGroup: Word, groups: seq<Word>) {
    ownerGroup in groups || exists i | 0 <= i < |groups| :: Found(a.list, NAMED_GROUP, groups[i])
  }

  predicate GroupGrants(a: Acl, ownerGroup: Word, groups: seq<Word>, k: nat)
    requires k < 4
  {
    (ownerGroup in groups && Bit(Rights(a.perms, GROUP), k)) || NamedGrants(a, groups, k)
  }

  predicate NamedGrants(a: Acl, groups: seq<Word>, k: nat)
    requires k < 4
  {
    exists i | 0 <= i < |groups| ::
      Found(a.list, NAMED_GROUP, groups[i]) && Bit(GetEntry(a, NAMED_GROUP, groups[i]).rights, k)
  }

  /** Whether a user has a right. */
  predicate Grants(a: Acl, owner: Word, ownerGroup: Word, user: Word, groups: seq<Word>, k: nat)
    requires k < 4
  {
    if user == owner then Bit(Rights(a.perms, USER), k)
    else if Found(a.list, NAMED_USER, user) then Bit(GetEntry(a, NAMED_USER, user).rights, k) && Masked(a, k)
    else if Matches(a, ownerGroup, groups) then GroupGrants(a, ownerGroup, groups, k) && Masked(a, k)
    else Bit(Rights(a.perms, OTHER), k)
  }

  // ----- the object --------------------------------------------------------------------------------

  class AccessControlList {
    var list: seq<Entry>
    var basicPermissions: nat

    ghost function View(): Acl
      reads this
    {
      Acl(list, basicPermissions)
    }

    constructor ()
      ensures View() == EmptyAcl()
    {
      list, basicPermissions := [], 0xF000;
    }

    method FindEntry(kind: nat, id: Word) returns (k: nat, found: bool)
      ensures k == LowerBound(list, kind, id) && found == Found(list, kind, id)
    {
      k := 0;
      while k < |list| && !(Before(kind, id, list[k]) || (list[k].kind == kind && list[k].id == id))
        invariant k <= LowerBound(list, kind, id)
      {
        k := k + 1;
      }
      found := k < |list| && list[k].kind == kind && list[k].id == id;
    }

    method SetEntry(kind: nat, id: Word, rights: nat)
      requires kind < INVALID
      modifies this
      ensures View() == AclValues.SetEntry(old(View()), kind, id, rights)
      ensures old(IsAcl(View())) && rights <= 7 ==> IsAcl(View())
    {
      if IsAcl(View()) && rights <= 7 {
        SetKeepsAcl(View(), kind, id, rights);
      }
      if kind == NAMED_USER || kind == NAMED_GROUP {
        var k, found := FindEntry(kind, id);
        if found {
          list := list[k := Entry(kind, id, rights)];
        } else if |list| < MAX_ENTRIES {
          list := list[..k] + [Entry(kind, id, rights)] + list[k..];
        }
      } else {
        basicPermissions := WithRights(basicPermissions, kind, rights);
      }
    }

    method RemoveEntry(kind: nat, id: Word)
      requires kind < INVALID
      modifies this
      ensures View() == AclValues.RemoveEntry(old(View()), kind, id)
      ensures old(IsAcl(View())) ==> IsAcl(View())
    {
      if IsAcl(View()) {
        RemoveKeepsAcl(View(), kind, id);
      }
      if kind == NAMED_USER || kind == NAMED_GROUP {
        var k, found := FindEntry(kind, id);
        if found {
          list := list[..k] + list[k + 1..];
        }
      } else {
        basicPermissions := WithRights(basicPermissions, kind, if kind == MASK then MASK_UNSET else 0);
      }
    }

    method GetEntry(kind: nat, id: Word) returns (e: Entry)
      requires kind < INVALID
      ensures e == AclValues.GetEntry(View(), kind, id)
    {
      if kind == NAMED_USER || kind == NAMED_GROUP {
        var k, found := FindEntry(kind, id);
        if found {
          return list[k];
        }
        return Entry(INVALID, NO_ID, 0);
      }
      if kind == MASK && Rights(basicPermissions, MASK) == MASK_UNSET {
        return Entry(INVALID, NO_ID, 0);
      }
      return Entry(kind, NO_ID, Rights(basicPermissions, kind));
    }

    /** The rights of the owner, of the mask or the owning group, and of others, as the
        entries have them. */
    method GetMode() returns (mode: nat)
      requires IsAcl(View())
      ensures mode == ModeOf(View()) && mode < 512
      ensures mode / 64 == AclValues.GetEntry(View(), USER, 0).rights
      ensures mode % 8 == AclValues.GetEntry(View(), OTHER, 0).rights
      ensures var mask := AclValues.GetEntry(View(), MASK, 0);
              mode / 8 % 8 == if mask.kind == MASK then mask.rights else AclValues.GetEntry(View(), GROUP, 0).rights
    {
      var middle := if Rights(basicPermissions, MASK) != MASK_UNSET then MASK else GROUP;
      var o, m, u := Rights(basicPermissions, OTHER), Rights(basicPermissions, middle), Rights(basicPermissions, USER);
      DigitsOfMode(o, m, u);
      mode := o % 8 + m % 8 * 8 + u % 8 * 64;
    }

    /** The mode that was set is the mode that is read, and named entries stay. */
    method SetMode(mode: nat)
      requires IsAcl(View())
      modifies `basicPermissions
      ensures IsAcl(View()) && ModeOf(View()) == mode % 512
      ensures Rights(basicPermissions, MASK) == MASK_UNSET <==> old(Rights(basicPermissions, MASK)) == MASK_UNSET
      ensures old(Rights(basicPermissions, MASK)) != MASK_UNSET
              ==> Rights(basicPermissions, GROUP) == old(Rights(basicPermissions, GROUP))
    {
      var p := basicPermissions;
      var middle := if Rights(p, MASK) == MASK_UNSET then GROUP else MASK;
      var q := WithRights(p, OTHER, mode % 8);
      var r := WithRights(q, USER, mode / 64 % 8);
      var s := WithRights(r, middle, mode / 8 % 8);
      ModeSet(p, q, r, s, middle, mode % 8, mode / 8 % 8, mode / 64 % 8);
      ModeDigits(mode);
      basicPermissions := s;
    }

    /** The rights of a user, bit for bit. */
    method GetEffectiveRights(owner: Word, ownerGroup: Word, user: Word, groups: seq<Word>) returns (rights: nat)
      ensures forall k | 0 <= k < 4 :: Bit(rights, k) <==> Grants(View(), owner, ownerGroup, user, groups, k)
    {
      if user == owner {
        return Rights(basicPermissions, USER);
      }
      var entry := GetEntry(NAMED_USER, user);
      var _, named := FindEntry(NAMED_USER, user);
      if named {
        rights := ApplyMask(entry.rights);
        return;
      }
      rights := 0;
      var found := false;
      if ownerGroup in groups {
        rights, found := Rights(basicPermissions, GROUP), true;
      }
      rights, found := AddNamedGroups(groups, rights, found);
      if found {
        rights := ApplyMask(rights);
        return;
      }
      rights := Rights(basicPermissions, OTHER);
    }

    /** The rights that the entries of named groups add. */
    method AddNamedGroups(groups: seq<Word>, base: nat, own: bool) returns (rights: nat, found: bool)
      ensures found == (own || exists i | 0 <= i < |groups| :: Found(list, NAMED_GROUP, groups[i]))
      ensures forall k | 0 <= k < 4 :: Bit(rights, k) <==> Bit(base, k) || NamedGrants(View(), groups, k)
    {
      rights, found := base, own;
      for i := 0 to |groups|
        invariant found == (own || exists j | 0 <= j < i :: Found(list, NAMED_GROUP, groups[j]))
        invariant forall k | 0 <= k < 4 :: Bit(rights, k) <==> Bit(base, k) || NamedGrants(View(), groups[..i], k)
      {
        var _, there := FindEntry(NAMED_GROUP, groups[i]);
        NextGroup(View(), groups, i);
        if there {
          var e := GetEntry(NAMED_GROUP, groups[i]);
          rights := Or(rights, e.rights);
          found := true;
        }
      }
      assert groups[..|groups|] == groups;
    }

    method ApplyMask(rights: nat) returns (r: nat)
      ensures forall k | 0 <= k < 4 :: Bit(r, k) <==> Bit(rights, k) && Masked(View(), k)
    {
      if Rights(basicPermissions, MASK) != MASK_UNSET {
        return And(rights, Rights(basicPermissions, MASK));
      }
      return rights;
    }

    method ToString() returns (s: string)
      ensures s == Print(View())
    {
      s := ['A', RightsChar(Rights(basicPermissions, USER)), RightsChar(Rights(basicPermissions, GROUP)),
            RightsChar(Rights(basicPermissions, OTHER))];
      ghost var head := s;
      for i := 0 to |list|
        invariant s == head + PrintEntries(list[..i])
      {
        PrintNext(list, i);
        if list[i].kind == NAMED_USER || list[i].kind == NAMED_GROUP {
          s := s + PrintEntry(list[i]);
        }
      }
      assert list[..|list|] == list;
      if Rights(basicPermissions, MASK) != MASK_UNSET {
        s := s + ("/m::" + [RightsChar(Rights(basicPermissions, MASK))]);
      }
    }

    /** The entries of one kind are appended to a buffer. */
    method StoreNamed(kind: nat, buffer: seq<Byte>) returns (r: seq<Byte>)
      requires IsAcl(View())
      ensures (forall i | 0 <= i < |list| :: list[i].rights < 16) && r == buffer + StoredNamed(list, kind)
    {
      r := buffer;
      for i := 0 to |list|
        invariant forall k | 0 <= k < |list| :: list[k].rights < 16
        invariant r == buffer + StoredNamed(list[..i], kind)
      {
        StoredNext(list, i, kind);
        if list[i].kind == kind {
          r := r + StoredEntry(list[i]);
        }
      }
      assert list[..|list|] == list;
    }

    method ToXattr() returns (buffer: seq<Byte>)
      requires IsAcl(View())
      ensures (forall i | 0 <= i < |list| :: list[i].rights < 16) && buffer == Stored(View())
    {
      buffer := AclXattr.Put32(XATTR_VERSION);
      var e := GetEntry(USER, 0);
      buffer := buffer + StoredEntry(e);
      buffer := StoreNamed(NAMED_USER, buffer);
      e := GetEntry(GROUP, 0);
      buffer := buffer + StoredEntry(e);
      buffer := StoreNamed(NAMED_GROUP, buffer);
      e := GetEntry(MASK, 0);
      buffer := buffer + StoredEntry(e);
      e := GetEntry(OTHER, 0);
      buffer := buffer + StoredEntry(e);
    }

    /** One entry of a text is read and set. */
    method ReadItem(s: string) returns (ok: bool, rest: string)
      requires s != []
      modifies this
      ensures !ok <==> ParseItem(s).None? || !Acceptable(old(View()), ParseItem(s).value)
      ensures ok ==> rest == ParseItem(s).value.rest
                     && View() == AclValues.SetEntry(old(View()), ParseItem(s).value.kind, ParseItem(s).value.id,
                                                     ParseItem(s).value.rights)
    {
      rest := s;
      if s[0] != '/' || |s| < 3 || s[2] != ':' {
        return false, s;
      }
      var kind := KindOf(s[1]);
      var id, t := NO_ID, s[3..];
      if t == [] || t[0] != ':' {
        var number := Strtol(t);
        if number.None? {
          return false, s;
        }
        id, t := number.value.0 % 0x1_0000_0000, number.value.1;
      }
      if |t| < 2 || t[0] != ':' || !IsRights(t[1]) {
        return false, s;
      }
      if kind == INVALID {
        return false, s;
      }
      var known := GetEntry(kind, id);
      if known.kind != INVALID || (id == NO_ID && (kind == NAMED_USER || kind == NAMED_GROUP)) {
        return false, s;
      }
      SetEntry(kind, id, RightsOf(t[1]));
      ok, rest := true, t[2..];
    }
  }

  // ----- mode -----------------------------------------------------------------------------------------

  function ModeOf(a: Acl): nat {
    var middle := if Rights(a.perms, MASK) != MASK_UNSET then MASK else GROUP;
    Rights(a.perms, OTHER) % 8 + Rights(a.perms, middle) % 8 * 8 + Rights(a.perms, USER) % 8 * 64
  }

  lemma ModeSet(p: nat, q: nat, r: nat, s: nat, middle: nat, o: nat, m: nat, u: nat)
    requires GoodPermissions(p) && middle == (if Rights(p, MASK) == MASK_UNSET then GROUP else MASK)
    requires o <= 7 && m <= 7 && u <= 7
    requires q == WithRights(p, OTHER, o) && r == WithRights(q, USER, u) && s == WithRights(r, middle, m)
    ensures GoodPermissions(s) && ModeOf(Acl([], s)) == o + m * 8 + u * 64
    ensures Rights(s, MASK) == MASK_UNSET <==> Rights(p, MASK) == MASK_UNSET
    ensures Rights(p, MASK) != MASK_UNSET ==> Rights(s, GROUP) == Rights(p, GROUP)
  {
    TwoRightsSet(p, q, r, o, u);
    if middle == GROUP {
      OneRightSet(r, GROUP, m, s);
    } else {
      MaskRightSet(r, m, s);
    }
    ModeRead(s, middle, o, m, u);
  }

  lemma TwoRightsSet(p: nat, q: nat, r: nat, o: nat, u: nat)
    requires p < 0x1_0000 && o <= 7 && u <= 7 && q == WithRights(p, OTHER, o) && r == WithRights(q, USER, u)
    ensures r < 0x1_0000 && Rights(r, OTHER) == o && Rights(r, USER) == u
    ensures Rights(r, GROUP) == Rights(p, GROUP) && Rights(r, MASK) == Rights(p, MASK)
  {
    OneRightSet(p, OTHER, o, q);
    OneRightSet(q, USER, u, r);
  }

  lemma ModeRead(s: nat, middle: nat, o: nat, m: nat, u: nat)
    requires s < 0x1_0000 && o <= 7 && m <= 7 && u <= 7
    requires middle == if Rights(s, MASK) != MASK_UNSET then MASK else GROUP
    requires Rights(s, OTHER) == o && Rights(s, USER) == u && Rights(s, middle) == m && Rights(s, GROUP) <= 7
    ensures GoodPermissions(s) && ModeOf(Acl([], s)) == o + m * 8 + u * 64
  {
    DigitsOfMode(o, m, u);
    assert ModeOf(Acl([], s)) == o % 8 + m % 8 * 8 + u % 8 * 64;
  }

  lemma DigitsOfMode(o: nat, m: nat, u: nat)
    requires o <= 7 && m <= 7 && u <= 7
    ensures o % 8 == o && m % 8 == m && u % 8 == u
    ensures var mode := o + m * 8 + u * 64;
            mode < 512 && mode / 64 == u && mode / 8 % 8 == m && mode % 8 == o
  {
    var mode := o + m * 8 + u * 64;
    assert mode / 8 == m + u * 8;
  }

  lemma ModeDigits(mode: nat)
    ensures mode % 8 + mode / 8 % 8 * 8 + mode / 64 % 8 * 64 == mode % 512
  {
    var a, b, c := mode / 8, mode / 64, mode / 512;
    assert b == a / 8 && c == b / 8;
    assert mode == 8 * a + mode % 8 && a == 8 * b + a % 8 && b == 8 * c + b % 8;
  }

  // ----- loops ----------------------------------------------------------------------------------------

  lemma NextGroup(a: Acl, groups: seq<Word>, i: nat)
    requires i < |groups|
    ensures forall k | 0 <= k < 4 ::
              NamedGrants(a, groups[..i + 1], k)
              <==> NamedGrants(a, groups[..i], k)
                   || (Found(a.list, NAMED_GROUP, groups[i])
                       && Bit(AclValues.GetEntry(a, NAMED_GROUP, groups[i]).rights, k))
  {
    var before, after := groups[..i], groups[..i + 1];
    assert after[i] == groups[i] && forall j | 0 <= j < i :: after[j] == before[j];
    forall k | 0 <= k < 4 && NamedGrants(a, before, k)
      ensures NamedGrants(a, after, k)
    {
      var j :| 0 <= j < |before| && Found(a.list, NAMED_GROUP, before[j])
               && Bit(AclValues.GetEntry(a, NAMED_GROUP, before[j]).rights, k);
      assert after[j] == before[j];
    }
  }

  lemma {:induction false} PrintNext(list: seq<Entry>, i: nat)
    requires i < |list|
    ensures PrintEntries(list[..i + 1])
         == PrintEntries(list[..i])
            + (if list[i].kind in {NAMED_USER, NAMED_GROUP} then PrintEntry(list[i]) else "")
    decreases i
  {
    if i == 0 {
      assert list[..1][1..] == [];
    } else {
      assert list[..i + 1][1..] == list[1..][..i] && list[..i][1..] == list[1..][..i - 1];
      PrintNext(list[1..], i - 1);
    }
  }

  lemma {:induction false} StoredNext(list: seq<Entry>, i: nat, kind: nat)
    requires i < |list| && forall k | 0 <= k < |list| :: list[k].rights < 16
    ensures StoredNamed(list[..i + 1], kind)
         == StoredNamed(list[..i], kind) + (if list[i].kind == kind then StoredEntry(list[i]) else [])
    decreases i
  {
    if i == 0 {
      assert list[..1][1..] == [];
    } else {
      assert list[..i + 1][1..] == list[1..][..i] && list[..i][1..] == list[1..][..i - 1];
      StoredNext(list[1..], i - 1, kind);
    }
  }

  // ----- new lists from text and from attributes -----------------------------------------------------

  /** A text that is not well-formed gives no list. */
  method FromString(s: string) returns (r: AccessControlList?)
    ensures r == null <==> Parse(s).None?
    ensures r != null ==> fresh(r) && r.View() == Parse(s).value
  {
    if |s| < 4 || s[0] != 'A' || !IsRights(s[1]) || !IsRights(s[2]) || !IsRights(s[3]) {
      return null;
    }
    var acl := new AccessControlList();
    acl.SetEntry(USER, 0, RightsOf(s[1]));
    acl.SetEntry(GROUP, 0, RightsOf(s[2]));
    acl.SetEntry(OTHER, 0, RightsOf(s[3]));
    var rest := s[4..];
    while rest != []
      invariant fresh(acl) && Parse(s) == ParseEntries(rest, acl.View())
      decreases |rest|
    {
      ItemShorter(rest);
      var ok, more := acl.ReadItem(rest);
      if !ok {
        return null;
      }
      rest := more;
    }
    r := acl;
  }

  /** An attribute that is not well-formed gives no list. */
  method FromXattr(buffer: seq<Byte>) returns (r: AccessControlList?)
    ensures r == null <==> Extract(buffer).None?
    ensures r != null ==> fresh(r) && r.View() == Extract(buffer).value
  {
    if |buffer| < 4 || AclXattr.Get32(buffer) != XATTR_VERSION {
      return null;
    }
    var acl := new AccessControlList();
    var seen: set<nat> := {};
    var rest := buffer[4..];
    ghost var whole := ReadEntries(rest, EmptyAcl(), {});
    while rest != []
      invariant fresh(acl) && ReadEntries(rest, acl.View(), seen) == whole
      decreases |rest|
    {
      var e := ReadEntry(rest);
      if e.None? {
        return null;
      }
      acl.SetEntry(e.value.kind, e.value.id, e.value.rights);
      if e.value.kind >= USER && e.value.kind in seen {
        return null;
      }
      seen := seen + {e.value.kind};
      rest := rest[8..];
    }
    if USER !in seen || GROUP !in seen || OTHER !in seen {
      return null;
    }
    r := acl;
  }
}
