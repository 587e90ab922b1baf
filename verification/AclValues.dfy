/** Access control lists: basic permissions in four digits of four bits, and a sorted list
    of named users and groups. */
module AclValues {
  import opened Bits
  import opened Division
  import opened Packed

  const NAMED_USER: nat := 0
  const NAMED_GROUP: nat := 1
  const USER: nat := 2
  const GROUP: nat := 3
  const OTHER: nat := 4
  const MASK: nat := 5
  const INVALID: nat := 6

  const MASK_UNSET: nat := 0xF
  const NO_ID: Word := 0xFFFF_FFFF
  const MAX_ENTRIES: nat := 0xFFFF

  datatype Entry = Entry(kind: nat, id: Word, rights: nat)

  datatype Acl = Acl(list: seq<Entry>, perms: nat)

  // ----- basic permissions ---------------------------------------------------------------------

  /** The place of a kind in the basic permissions. */
  function Place(kind: nat): nat
    requires kind in {USER, GROUP, OTHER, MASK}
  {
    if kind == OTHER then 0 else if kind == GROUP then 1 else if kind == USER then 2 else 3
  }

  function Rights(perms: nat, kind: nat): (r: nat)
    requires kind in {USER, GROUP, OTHER, MASK}
    ensures r < 16
  {
    Digits(perms, 16, 4)[Place(kind)]
  }

  function WithRights(perms: nat, kind: nat, rights: nat): nat
    requires kind in {USER, GROUP, OTHER, MASK}
  {
    PutDigit(perms, 16, Place(kind), rights % 16)
  }

  /** Setting the rights of one kind changes those of no other. */
  lemma RightsSet(perms: nat, kind: nat, rights: nat, other: nat)
    requires kind in {USER, GROUP, OTHER, MASK} && other in {USER, GROUP, OTHER, MASK}
    ensures Rights(WithRights(perms, kind, rights), other)
         == if other == kind then rights % 16 else Rights(perms, other)
    ensures perms < 0x1_0000 ==> WithRights(perms, kind, rights) < 0x1_0000
  {
    DigitsPut(perms, 16, Place(kind), rights % 16, 4);
    BeyondPut(perms, 16, Place(kind), rights % 16, 4);
    FourDigits(perms);
    FourDigits(WithRights(perms, kind, rights));
  }

  lemma FourDigits(x: nat)
    ensures Beyond(x, 16, 4) == x / 0x1_0000
    ensures var d := Digits(x, 16, 4);
            x < 0x1_0000 ==> x == d[0] + 16 * (d[1] + 16 * (d[2] + 16 * d[3]))
  {
  }

  /** Basic permissions with the same rights are the same. */
  lemma SamePermissions(p: nat, q: nat)
    requires p < 0x1_0000 && q < 0x1_0000
    requires forall kind | kind in {USER, GROUP, OTHER, MASK} :: Rights(p, kind) == Rights(q, kind)
    ensures p == q
  {
    FourDigits(p);
    FourDigits(q);
    assert Rights(p, OTHER) == Rights(q, OTHER) && Rights(p, GROUP) == Rights(q, GROUP);
    assert Rights(p, USER) == Rights(q, USER) && Rights(p, MASK) == Rights(q, MASK);
  }

  // ----- the sorted list ---------------------------------------------------------------------------

  predicate Before(kind: nat, id: Word, e: Entry) {
    kind < e.kind || (kind == e.kind && id < e.id)
  }

  ghost predicate Sorted(list: seq<Entry>) {
    forall i, j | 0 <= i < j < |list| :: Before(list[i].kind, list[i].id, list[j])
  }

  predicate IsNamed(e: Entry) {
    e.kind in {NAMED_USER, NAMED_GROUP} && e.rights <= 7
  }

  ghost predicate IsList(list: seq<Entry>) {
    Sorted(list) && |list| <= MAX_ENTRIES && forall i | 0 <= i < |list| :: IsNamed(list[i])
  }

  /** Rights of three bits; the mask may be missing. */
  predicate GoodPermissions(perms: nat) {
    && perms < 0x1_0000
    && Rights(perms, USER) <= 7 && Rights(perms, GROUP) <= 7 && Rights(perms, OTHER) <= 7
    && (Rights(perms, MASK) <= 7 || Rights(perms, MASK) == MASK_UNSET)
  }

  ghost predicate IsAcl(a: Acl) {
    IsList(a.list) && GoodPermissions(a.perms)
  }

  lemma RightsKeepPermissions(perms: nat, kind: nat, rights: nat)
    requires GoodPermissions(perms) && kind in {USER, GROUP, OTHER, MASK}
    requires rights <= 7 || (kind == MASK && rights == MASK_UNSET)
    ensures GoodPermissions(WithRights(perms, kind, rights))
  {
    RightsSet(perms, kind, rights, USER);
    RightsSet(perms, kind, rights, GROUP);
    RightsSet(perms, kind, rights, OTHER);
    RightsSet(perms, kind, rights, MASK);
  }

  /** The first entry that is not before a key. */
  function LowerBound(list: seq<Entry>, kind: nat, id: Word): (k: nat)
    ensures k <= |list|
    ensures forall i | 0 <= i < k :: !Before(kind, id, list[i]) && !(list[i].kind == kind && list[i].id == id)
    ensures k < |list| ==> Before(kind, id, list[k]) || (list[k].kind == kind && list[k].id == id)
  {
    if list == [] || Before(kind, id, list[0]) || (list[0].kind == kind && list[0].id == id) then 0
    else 1 + LowerBound(list[1..], kind, id)
  }

  predicate Found(list: seq<Entry>, kind: nat, id: Word) {
    var k := LowerBound(list, kind, id);
    k < |list| && list[k].kind == kind && list[k].id == id
  }

  function EmptyAcl(): Acl {
    Acl([], 0xF000)
  }

  function SetEntry(a: Acl, kind: nat, id: Word, rights: nat): Acl
    requires kind < INVALID
  {
    if kind in {NAMED_USER, NAMED_GROUP} then
      var k := LowerBound(a.list, kind, id);
      if Found(a.list, kind, id) then a.(list := a.list[k := Entry(kind, id, rights)])
      else if |a.list| < MAX_ENTRIES then a.(list := a.list[..k] + [Entry(kind, id, rights)] + a.list[k..])
      else a
    else a.(perms := WithRights(a.perms, kind, rights))
  }

  function RemoveEntry(a: Acl, kind: nat, id: Word): Acl
    requires kind < INVALID
  {
    if kind in {NAMED_USER, NAMED_GROUP} then
      var k := LowerBound(a.list, kind, id);
      if Found(a.list, kind, id) then a.(list := a.list[..k] + a.list[k + 1..]) else a
    else a.(perms := WithRights(a.perms, kind, if kind == MASK then MASK_UNSET else 0))
  }

  function GetEntry(a: Acl, kind: nat, id: Word): Entry
    requires kind < INVALID
  {
    if kind in {NAMED_USER, NAMED_GROUP} then
      if Found(a.list, kind, id) then a.list[LowerBound(a.list, kind, id)] else Entry(INVALID, NO_ID, 0)
    else if kind == MASK && Rights(a.perms, MASK) == MASK_UNSET then Entry(INVALID, NO_ID, 0)
    else Entry(kind, NO_ID, Rights(a.perms, kind))
  }

  // ----- the list stands for a map --------------------------------------------------------------------

  datatype Key = Key(kind: nat, id: Word)

  function KeyOf(e: Entry): Key { Key(e.kind, e.id) }

  lemma FoundIff(list: seq<Entry>, kind: nat, id: Word)
    requires Sorted(list)
    ensures Found(list, kind, id) <==> exists i | 0 <= i < |list| :: KeyOf(list[i]) == Key(kind, id)
    ensures forall i | 0 <= i < |list| && KeyOf(list[i]) == Key(kind, id) :: i == LowerBound(list, kind, id)
  {
  }

  lemma InsertSorted(list: seq<Entry>, e: Entry)
    requires Sorted(list) && !Found(list, e.kind, e.id)
    ensures var k := LowerBound(list, e.kind, e.id);
            Sorted(list[..k] + [e] + list[k..])
  {
  }

  lemma SetKeepsList(list: seq<Entry>, e: Entry)
    requires IsList(list) && IsNamed(e)
    ensures IsList(SetEntry(Acl(list, 0), e.kind, e.id, e.rights).list)
  {
    if !Found(list, e.kind, e.id) {
      InsertSorted(list, e);
    }
  }

  /** Setting an entry keeps the list sorted with one entry for each key. */
  lemma SetKeepsAcl(a: Acl, kind: nat, id: Word, rights: nat)
    requires IsAcl(a) && kind < INVALID && rights <= 7
    ensures IsAcl(SetEntry(a, kind, id, rights))
  {
    if kind in {NAMED_USER, NAMED_GROUP} {
      SetKeepsList(a.list, Entry(kind, id, rights));
    } else {
      RightsKeepPermissions(a.perms, kind, rights);
    }
  }

  lemma RemoveKeepsAcl(a: Acl, kind: nat, id: Word)
    requires IsAcl(a) && kind < INVALID
    ensures IsAcl(RemoveEntry(a, kind, id))
  {
    if kind !in {NAMED_USER, NAMED_GROUP} {
      RightsKeepPermissions(a.perms, kind, if kind == MASK then MASK_UNSET else 0);
    }
  }

  /** A named entry that is in the list is the one that is found. */
  lemma Lookup(list: seq<Entry>, e: Entry)
    requires Sorted(list) && e in list
    ensures Found(list, e.kind, e.id) && list[LowerBound(list, e.kind, e.id)] == e
  {
  }

  lemma ReplacedMembers(list: seq<Entry>, k: nat, e: Entry, x: Entry)
    requires k < |list|
    ensures x in list[k := e] <==> x == e || exists i | 0 <= i < |list| && i != k :: list[i] == x
  {
    var now := list[k := e];
    assert now[k] == e;
    if i :| 0 <= i < |list| && i != k && list[i] == x {
      assert now[i] == x;
    }
  }

  lemma InsertedMembers(list: seq<Entry>, k: nat, e: Entry, x: Entry)
    requires k <= |list|
    ensures x in list[..k] + [e] + list[k..] <==> x == e || x in list
  {
    assert list[..k] + list[k..] == list;
  }

  lemma DroppedMembers(list: seq<Entry>, k: nat, x: Entry)
    requires k < |list|
    ensures x in list[..k] + list[k + 1..] <==> exists i | 0 <= i < |list| && i != k :: list[i] == x
  {
    var now := list[..k] + list[k + 1..];
    if i :| 0 <= i < |list| && i != k && list[i] == x {
      assert now[if i < k then i else i - 1] == x;
    }
  }

  /** What a list holds after an entry has been set. */
  lemma MembersAfterSet(list: seq<Entry>, e: Entry, x: Entry)
    requires Sorted(list) && IsNamed(e) && (Found(list, e.kind, e.id) || |list| < MAX_ENTRIES)
    ensures x in SetEntry(Acl(list, 0), e.kind, e.id, e.rights).list
       <==> x == e || (x in list && KeyOf(x) != KeyOf(e))
  {
    var k := LowerBound(list, e.kind, e.id);
    FoundIff(list, e.kind, e.id);
    if Found(list, e.kind, e.id) {
      ReplacedMembers(list, k, e, x);
    } else {
      InsertedMembers(list, k, e, x);
    }
  }

  lemma NamedAfterSet(list: seq<Entry>, e: Entry, key: Key)
    requires IsList(list) && IsNamed(e) && (Found(list, e.kind, e.id) || |list| < MAX_ENTRIES)
    ensures var now := SetEntry(Acl(list, 0), e.kind, e.id, e.rights).list;
            if key == KeyOf(e) then Found(now, key.kind, key.id) && now[LowerBound(now, key.kind, key.id)] == e
            else && (Found(now, key.kind, key.id) <==> Found(list, key.kind, key.id))
                 && (Found(list, key.kind, key.id)
                     ==> now[LowerBound(now, key.kind, key.id)] == list[LowerBound(list, key.kind, key.id)])
  {
    var now := SetEntry(Acl(list, 0), e.kind, e.id, e.rights).list;
    SetKeepsList(list, e);
    MembersAfterSet(list, e, e);
    if key == KeyOf(e) {
      Lookup(now, e);
    } else {
      if Found(list, key.kind, key.id) {
        var x := list[LowerBound(list, key.kind, key.id)];
        MembersAfterSet(list, e, x);
        Lookup(now, x);
      }
      if Found(now, key.kind, key.id) {
        var x := now[LowerBound(now, key.kind, key.id)];
        MembersAfterSet(list, e, x);
        Lookup(list, x);
      }
    }
  }

  predicate SameKey(kind: nat, id: Word, kind': nat, id': Word) {
    kind == kind' && (kind !in {NAMED_USER, NAMED_GROUP} || id == id')
  }

  /** There is a place for the entry: a new named entry needs one in the list. */
  predicate HasRoom(a: Acl, kind: nat, id: Word) {
    kind in {NAMED_USER, NAMED_GROUP} ==> Found(a.list, kind, id) || |a.list| < MAX_ENTRIES
  }

  /** After setting one entry it has its new rights, unless it is new and the list is full,
      and every other entry has its old ones. */
  lemma SetThenGet(a: Acl, kind: nat, id: Word, rights: nat, kind': nat, id': Word)
    requires IsAcl(a) && kind < INVALID && kind' < INVALID && rights <= 7
    ensures GetEntry(SetEntry(a, kind, id, rights), kind', id')
         == if SameKey(kind, id, kind', id') && HasRoom(a, kind, id)
            then Entry(kind, if kind in {NAMED_USER, NAMED_GROUP} then id else NO_ID, rights)
            else GetEntry(a, kind', id')
  {
    if kind !in {NAMED_USER, NAMED_GROUP} {
      SetBasicThenGet(a, kind, id, rights, kind', id');
    } else if HasRoom(a, kind, id) {
      SetNamedThenGet(a, Entry(kind, id, rights), kind', id');
    }
  }

  /** What a list holds after an entry has been removed. */
  lemma MembersAfterRemove(list: seq<Entry>, kind: nat, id: Word, x: Entry)
    requires Sorted(list) && kind in {NAMED_USER, NAMED_GROUP}
    ensures x in RemoveEntry(Acl(list, 0), kind, id).list <==> x in list && KeyOf(x) != Key(kind, id)
  {
    FoundIff(list, kind, id);
    if Found(list, kind, id) {
      DroppedMembers(list, LowerBound(list, kind, id), x);
    }
  }

  lemma NamedAfterRemove(list: seq<Entry>, kind: nat, id: Word, key: Key)
    requires IsList(list) && kind in {NAMED_USER, NAMED_GROUP}
    ensures var now := RemoveEntry(Acl(list, 0), kind, id).list;
            && (Found(now, key.kind, key.id) <==> Found(list, key.kind, key.id) && key != Key(kind, id))
            && (Found(now, key.kind, key.id)
                ==> now[LowerBound(now, key.kind, key.id)] == list[LowerBound(list, key.kind, key.id)])
  {
    var now := RemoveEntry(Acl(list, 0), kind, id).list;
    if Found(list, key.kind, key.id) {
      var x := list[LowerBound(list, key.kind, key.id)];
      MembersAfterRemove(list, kind, id, x);
      if key != Key(kind, id) {
        Lookup(now, x);
      }
    }
    if Found(now, key.kind, key.id) {
      var x := now[LowerBound(now, key.kind, key.id)];
      MembersAfterRemove(list, kind, id, x);
      Lookup(list, x);
    }
  }

  /** After removing one entry it is not found, or has no rights where it is always there,
      and every other entry has its old rights. */
  lemma RemoveThenGet(a: Acl, kind: nat, id: Word, kind': nat, id': Word)
    requires IsAcl(a) && kind < INVALID && kind' < INVALID
    ensures GetEntry(RemoveEntry(a, kind, id), kind', id')
         == if SameKey(kind, id, kind', id')
            then if kind in {USER, GROUP, OTHER} then Entry(kind, NO_ID, 0) else Entry(INVALID, NO_ID, 0)
            else GetEntry(a, kind', id')
  {
    if kind in {NAMED_USER, NAMED_GROUP} {
      if kind' in {NAMED_USER, NAMED_GROUP} {
        NamedAfterRemove(a.list, kind, id, Key(kind', id'));
      }
    } else if kind' !in {NAMED_USER, NAMED_GROUP} {
      RightsSet(a.perms, kind, if kind == MASK then MASK_UNSET else 0, kind');
    }
  }

  lemma SetNamedThenGet(a: Acl, e: Entry, kind': nat, id': Word)
    requires IsAcl(a) && IsNamed(e) && kind' < INVALID && (Found(a.list, e.kind, e.id) || |a.list| < MAX_ENTRIES)
    ensures GetEntry(SetEntry(a, e.kind, e.id, e.rights), kind', id')
         == if Key(kind', id') == KeyOf(e) then e else GetEntry(a, kind', id')
  {
    if kind' in {NAMED_USER, NAMED_GROUP} {
      NamedAfterSet(a.list, e, Key(kind', id'));
    }
  }

  lemma SetBasicThenGet(a: Acl, kind: nat, id: Word, rights: nat, kind': nat, id': Word)
    requires kind in {USER, GROUP, OTHER, MASK} && kind' < INVALID && rights <= 7
    ensures GetEntry(SetEntry(a, kind, id, rights), kind', id')
         == if kind == kind' then Entry(kind, NO_ID, rights) else GetEntry(a, kind', id')
  {
    if kind' !in {NAMED_USER, NAMED_GROUP} {
      RightsSet(a.perms, kind, rights, kind');
    }
  }

  /** An entry that comes after all others is appended. */
  lemma SetLast(a: Acl, e: Entry)
    requires IsNamed(e) && |a.list| < MAX_ENTRIES
    requires forall i | 0 <= i < |a.list| :: Before(a.list[i].kind, a.list[i].id, e)
    ensures SetEntry(a, e.kind, e.id, e.rights) == a.(list := a.list + [e])
    ensures GetEntry(a, e.kind, e.id).kind == INVALID
  {
  }
}
