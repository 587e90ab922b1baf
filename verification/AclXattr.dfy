/** Access control lists in the format of extended attributes: a version, then eight bytes for
    every entry, little-endian. */
module AclXattr {
  import opened Common
  import opened Bits
  import opened Packed
  import opened AclValues
  import opened AclText

  const XATTR_VERSION: Word := 2

  // ----- bytes ---------------------------------------------------------------------------------

  function Put16(x: nat): (s: seq<Byte>)
    requires x < 0x1_0000
    ensures |s| == 2
  {
    [x % 0x100, x / 0x100]
  }

  function Get16(s: seq<Byte>): (x: nat)
    requires |s| >= 2
    ensures x < 0x1_0000
  {
    var a: nat, b: nat := s[0], s[1];
    a + 0x100 * b
  }

  function Put32(x: Word): (s: seq<Byte>)
    ensures |s| == 4
  {
    Put16(x % 0x1_0000) + Put16(x / 0x1_0000)
  }

  function Get32(s: seq<Byte>): (x: Word)
    requires |s| >= 4
  {
    Get16(s) + 0x1_0000 * Get16(s[2..])
  }

  lemma NumbersComeBack(x: nat, y: Word, rest: seq<Byte>)
    requires x < 0x1_0000
    ensures Get16(Put16(x) + rest) == x && Get32(Put32(y) + rest) == y
  {
  }

  // ----- entries -----------------------------------------------------------------------------------

  function TagOf(kind: nat): nat
    requires kind < INVALID
  {
    if kind == NAMED_USER then 0x02 else if kind == NAMED_GROUP then 0x08
    else if kind == USER then 0x01 else if kind == GROUP then 0x04
    else if kind == OTHER then 0x20 else 0x10
  }

  function KindOfTag(tag: nat): nat {
    if tag == 0x01 then USER else if tag == 0x02 then NAMED_USER
    else if tag == 0x04 then GROUP else if tag == 0x08 then NAMED_GROUP
    else if tag == 0x10 then MASK else if tag == 0x20 then OTHER else INVALID
  }

  function StoredEntry(e: Entry): seq<Byte>
    requires e.rights < 16
  {
    if e.kind >= INVALID then [] else Put16(TagOf(e.kind)) + Put16(e.rights) + Put32(e.id)
  }

  /** The entries of one kind, in the order of the list. */
  function StoredNamed(list: seq<Entry>, kind: nat): seq<Byte>
    requires forall i | 0 <= i < |list| :: list[i].rights < 16
  {
    if list == [] then []
    else (if list[0].kind == kind then StoredEntry(list[0]) else []) + StoredNamed(list[1..], kind)
  }

  function Stored(a: Acl): seq<Byte>
    requires forall i | 0 <= i < |a.list| :: a.list[i].rights < 16
  {
    Put32(XATTR_VERSION)
    + StoredEntry(GetEntry(a, USER, 0)) + StoredNamed(a.list, NAMED_USER)
    + StoredEntry(GetEntry(a, GROUP, 0)) + StoredNamed(a.list, NAMED_GROUP)
    + StoredEntry(GetEntry(a, MASK, 0)) + StoredEntry(GetEntry(a, OTHER, 0))
  }

  /** Permissions are kept in four bits, and only three of them may be set; entries that are
      not named have no identifier. */
  function ReadEntry(s: seq<Byte>): Option<Entry> {
    if |s| < 8 then None
    else
      var e := Entry(KindOfTag(Get16(s)), Get32(s[4..]), Get16(s[2..]) % 16);
      if e.rights > 7 || e.kind == INVALID || (e.kind >= USER && e.id != NO_ID) then None else Some(e)
  }

  /** The entries up to the end; entries that are not named come once. */
  function ReadEntries(s: seq<Byte>, a: Acl, seen: set<nat>): Option<(Acl, set<nat>)>
    decreases |s|
  {
    if s == [] then Some((a, seen))
    else
      var e := ReadEntry(s);
      if e.None? || (e.value.kind >= USER && e.value.kind in seen) then None
      else ReadEntries(s[8..], SetEntry(a, e.value.kind, e.value.id, e.value.rights), seen + {e.value.kind})
  }

  function Extract(s: seq<Byte>): Option<Acl> {
    if |s| < 4 || Get32(s) != XATTR_VERSION then None
    else
      var r := ReadEntries(s[4..], EmptyAcl(), {});
      if r.None? || !({USER, GROUP, OTHER} <= r.value.1) then None else Some(r.value.0)
  }

  // ----- round trip -----------------------------------------------------------------------------------

  predicate Storable(e: Entry) {
    e.kind < INVALID && e.rights <= 7 && (e.kind >= USER ==> e.id == NO_ID)
  }

  lemma EntryComesBack(e: Entry, rest: seq<Byte>)
    requires Storable(e)
    ensures |StoredEntry(e)| == 8 && (StoredEntry(e) + rest)[8..] == rest
    ensures ReadEntry(StoredEntry(e) + rest) == Some(e)
  {
  }

  lemma EntryStep(e: Entry, rest: seq<Byte>, a: Acl, seen: set<nat>)
    requires Storable(e) && (e.kind >= USER ==> e.kind !in seen)
    ensures ReadEntries(StoredEntry(e) + rest, a, seen)
         == ReadEntries(rest, SetEntry(a, e.kind, e.id, e.rights), seen + {e.kind})
  {
    EntryComesBack(e, rest);
  }

  /** The entries of one kind. */
  function OfKind(list: seq<Entry>, kind: nat): seq<Entry> {
    if list == [] then [] else (if list[0].kind == kind then [list[0]] else []) + OfKind(list[1..], kind)
  }

  lemma {:induction false} StoredOfKind(list: seq<Entry>, kind: nat)
    requires forall i | 0 <= i < |list| :: list[i].rights < 16
    ensures forall i | 0 <= i < |OfKind(list, kind)| :: OfKind(list, kind)[i].rights < 16
    ensures StoredNamed(list, kind) == StoredNamed(OfKind(list, kind), kind)
    decreases |list|
  {
    if list != [] {
      StoredOfKind(list[1..], kind);
      if list[0].kind == kind {
        assert OfKind(list, kind)[1..] == OfKind(list[1..], kind);
      } else {
        assert OfKind(list, kind) == OfKind(list[1..], kind);
      }
    }
  }

  /** In a sorted list the users come before the groups. */
  lemma {:induction false} UsersThenGroups(list: seq<Entry>)
    requires Sorted(list) && forall i | 0 <= i < |list| :: IsNamed(list[i])
    ensures OfKind(list, NAMED_USER) + OfKind(list, NAMED_GROUP) == list
    ensures forall i | 0 <= i < |OfKind(list, NAMED_USER)| :: OfKind(list, NAMED_USER)[i].kind == NAMED_USER
    ensures forall i | 0 <= i < |OfKind(list, NAMED_GROUP)| :: OfKind(list, NAMED_GROUP)[i].kind == NAMED_GROUP
    decreases |list|
  {
    if list != [] {
      UsersThenGroups(list[1..]);
      if list[0].kind == NAMED_GROUP {
        OnlyGroups(list[1..]);
      }
    }
  }

  lemma {:induction false} OnlyGroups(list: seq<Entry>)
    requires forall i | 0 <= i < |list| :: list[i].kind == NAMED_GROUP
    ensures OfKind(list, NAMED_USER) == []
    decreases |list|
  {
    if list != [] {
      OnlyGroups(list[1..]);
    }
  }

  /** Named entries are read back one by one and appended. */
  lemma {:induction false} NamedComeBack(list: seq<Entry>, kind: nat, rest: seq<Byte>, a: Acl, seen: set<nat>,
                                         more: set<nat>)
    requires kind in {NAMED_USER, NAMED_GROUP} && Follows(a, list)
    requires forall i | 0 <= i < |list| :: list[i].kind == kind && list[i].rights < 16
    requires more == if list == [] then seen else seen + {kind}
    ensures ReadEntries(StoredNamed(list, kind) + rest, a, seen)
         == ReadEntries(rest, a.(list := a.list + list), more)
    decreases |list|
  {
    if list == [] {
      assert StoredNamed(list, kind) + rest == rest && a.list + list == a.list;
    } else {
      FollowsNext(a, list);
      var tail := StoredNamed(list[1..], kind) + rest;
      assert StoredNamed(list, kind) + rest == StoredEntry(list[0]) + tail;
      EntryStep(list[0], tail, a, seen);
      NamedComeBack(list[1..], kind, rest, a.(list := a.list + [list[0]]), seen + {kind}, more);
      AppendStep(a.list, list);
    }
  }

  /** The permissions that come back from the entries that are not named. */
  lemma PermissionsRebuilt(a: nat, p: nat, q: nat, r: nat, s: nat, t: nat)
    requires GoodPermissions(a) && p == 0xF000
    requires q == WithRights(p, USER, Rights(a, USER)) && r == WithRights(q, GROUP, Rights(a, GROUP))
    requires s == if Rights(a, MASK) == MASK_UNSET then r else WithRights(r, MASK, Rights(a, MASK))
    requires t == WithRights(s, OTHER, Rights(a, OTHER))
    ensures t == a
  {
    EmptyRights();
    OneRightSet(p, USER, Rights(a, USER), q);
    OneRightSet(q, GROUP, Rights(a, GROUP), r);
    if Rights(a, MASK) != MASK_UNSET {
      MaskRightSet(r, Rights(a, MASK), s);
    }
    OneRightSet(s, OTHER, Rights(a, OTHER), t);
    SamePermissions(t, a);
  }

  /** The entries that follow the named ones: the mask, if there is one, and the others. */
  lemma EndComesBack(a: Acl, b: Acl, seen: set<nat>)
    requires IsAcl(a) && MASK !in seen && OTHER !in seen
    ensures ReadEntries(StoredEntry(GetEntry(a, MASK, 0)) + StoredEntry(GetEntry(a, OTHER, 0)), b, seen)
         == var m := Rights(a.perms, MASK);
            var c := if m == MASK_UNSET then b else SetEntry(b, MASK, NO_ID, m);
            Some((SetEntry(c, OTHER, NO_ID, Rights(a.perms, OTHER)),
                  seen + (if m == MASK_UNSET then {} else {MASK}) + {OTHER}))
  {
    var mask, other := GetEntry(a, MASK, 0), GetEntry(a, OTHER, 0);
    var m := Rights(a.perms, MASK);
    if m == MASK_UNSET {
      assert StoredEntry(mask) + StoredEntry(other) == StoredEntry(other) + [];
      EntryStep(other, [], b, seen);
      assert seen + {} + {OTHER} == seen + {OTHER};
    } else {
      EntryStep(mask, StoredEntry(other), b, seen);
      assert StoredEntry(other) == StoredEntry(other) + [];
      EntryStep(other, [], SetEntry(b, MASK, NO_ID, m), seen + {MASK});
    }
  }

  function Seen(list: seq<Entry>, kind: nat, seen: set<nat>): set<nat> {
    if list == [] then seen else seen + {kind}
  }

  /** The first half: the owner and the named users. */
  lemma UsersComeBack(a: Acl, users: seq<Entry>, rest: seq<Byte>, p: nat)
    requires IsAcl(a) && IsList(users)
    requires forall i | 0 <= i < |users| :: users[i].kind == NAMED_USER && users[i].rights < 16
    requires p == 0xF000
    ensures ReadEntries(StoredEntry(GetEntry(a, USER, 0)) + (StoredNamed(users, NAMED_USER) + rest), Acl([], p), {})
         == ReadEntries(rest, Acl(users, WithRights(p, USER, Rights(a.perms, USER))), Seen(users, NAMED_USER, {USER}))
  {
    var e := GetEntry(a, USER, 0);
    EntryStep(e, StoredNamed(users, NAMED_USER) + rest, Acl([], p), {});
    assert {} + {USER} == {USER};
    var b := Acl([], WithRights(p, USER, Rights(a.perms, USER)));
    assert b.list + users == users;
    NamedComeBack(users, NAMED_USER, rest, b, {USER}, Seen(users, NAMED_USER, {USER}));
  }

  /** The second half: the owning group and the named groups. */
  lemma GroupsComeBack(a: Acl, b: Acl, groups: seq<Entry>, rest: seq<Byte>, seen: set<nat>)
    requires IsAcl(a) && GROUP !in seen && Follows(b, groups)
    requires forall i | 0 <= i < |groups| :: groups[i].kind == NAMED_GROUP && groups[i].rights < 16
    ensures ReadEntries(StoredEntry(GetEntry(a, GROUP, 0)) + (StoredNamed(groups, NAMED_GROUP) + rest), b, seen)
         == ReadEntries(rest, Acl(b.list + groups, WithRights(b.perms, GROUP, Rights(a.perms, GROUP))),
                        Seen(groups, NAMED_GROUP, seen + {GROUP}))
  {
    var e := GetEntry(a, GROUP, 0);
    EntryStep(e, StoredNamed(groups, NAMED_GROUP) + rest, b, seen);
    var c := SetEntry(b, GROUP, NO_ID, Rights(a.perms, GROUP));
    NamedComeBack(groups, NAMED_GROUP, rest, c, seen + {GROUP}, Seen(groups, NAMED_GROUP, seen + {GROUP}));
  }

  lemma StoredShape(a: Acl, users: seq<Entry>, groups: seq<Entry>)
    requires IsAcl(a) && users == OfKind(a.list, NAMED_USER) && groups == OfKind(a.list, NAMED_GROUP)
    ensures forall i | 0 <= i < |users| :: users[i].rights < 16
    ensures forall i | 0 <= i < |groups| :: groups[i].rights < 16
    ensures var end := StoredEntry(GetEntry(a, MASK, 0)) + StoredEntry(GetEntry(a, OTHER, 0));
            var second := StoredEntry(GetEntry(a, GROUP, 0)) + (StoredNamed(groups, NAMED_GROUP) + end);
            && |Stored(a)| >= 4 && Get32(Stored(a)) == XATTR_VERSION
            && Stored(a)[4..] == StoredEntry(GetEntry(a, USER, 0)) + (StoredNamed(users, NAMED_USER) + second)
  {
    StoredOfKind(a.list, NAMED_USER);
    StoredOfKind(a.list, NAMED_GROUP);
    var v := Put32(XATTR_VERSION);
    Regrouped(v, StoredEntry(GetEntry(a, USER, 0)), StoredNamed(a.list, NAMED_USER),
              StoredEntry(GetEntry(a, GROUP, 0)), StoredNamed(a.list, NAMED_GROUP),
              StoredEntry(GetEntry(a, MASK, 0)), StoredEntry(GetEntry(a, OTHER, 0)));
    NumbersComeBack(0, XATTR_VERSION, Stored(a)[4..]);
  }

  lemma Regrouped(v: seq<Byte>, u: seq<Byte>, us: seq<Byte>, g: seq<Byte>, gs: seq<Byte>, m: seq<Byte>, o: seq<Byte>)
    requires |v| == 4
    ensures (v + u + us + g + gs + m + o)[4..] == u + (us + (g + (gs + (m + o))))
    ensures v + u + us + g + gs + m + o == v + (v + u + us + g + gs + m + o)[4..]
  {
  }

  /** Extracting undoes storing, for every access control list. */
  lemma XattrRoundTrip(a: Acl)
    requires IsAcl(a)
    ensures (forall i | 0 <= i < |a.list| :: a.list[i].rights < 16) && Extract(Stored(a)) == Some(a)
  {
    var users, groups := OfKind(a.list, NAMED_USER), OfKind(a.list, NAMED_GROUP);
    UsersThenGroups(a.list);
    StoredShape(a, users, groups);
    Rebuilt(a, users, groups, 0xF000);
  }

  /** Reading the entries after those already seen completes the list. */
  predicate ReadsAs(data: seq<Byte>, b: Acl, seen: set<nat>, a: Acl) {
    var r := ReadEntries(data, b, seen);
    r.Some? && r.value.0 == a && {USER, GROUP, OTHER} <= r.value.1
  }

  /** Up to the named groups. */
  lemma NamedRebuilt(a: Acl, users: seq<Entry>, groups: seq<Entry>, p: nat, end: seq<Byte>, seen: set<nat>)
    requires IsAcl(a) && p == 0xF000 && users + groups == a.list
    requires forall i | 0 <= i < |users| :: users[i].kind == NAMED_USER && users[i].rights < 16
    requires forall i | 0 <= i < |groups| :: groups[i].kind == NAMED_GROUP && groups[i].rights < 16
    requires seen == Seen(groups, NAMED_GROUP, Seen(users, NAMED_USER, {USER}) + {GROUP})
    ensures var second := StoredEntry(GetEntry(a, GROUP, 0)) + (StoredNamed(groups, NAMED_GROUP) + end);
            var q := WithRights(p, USER, Rights(a.perms, USER));
            ReadsAs(end, Acl(a.list, WithRights(q, GROUP, Rights(a.perms, GROUP))), seen, a)
            ==> ReadsAs(StoredEntry(GetEntry(a, USER, 0)) + (StoredNamed(users, NAMED_USER) + second), Acl([], p),
                        {}, a)
  {
    var second := StoredEntry(GetEntry(a, GROUP, 0)) + (StoredNamed(groups, NAMED_GROUP) + end);
    PrefixIsList(users, groups);
    UsersComeBack(a, users, second, p);
    GroupsComeBack(a, Acl(users, WithRights(p, USER, Rights(a.perms, USER))), groups, end,
                   Seen(users, NAMED_USER, {USER}));
  }

  lemma Rebuilt(a: Acl, users: seq<Entry>, groups: seq<Entry>, p: nat)
    requires IsAcl(a) && p == 0xF000 && users + groups == a.list
    requires forall i | 0 <= i < |users| :: users[i].kind == NAMED_USER && users[i].rights < 16
    requires forall i | 0 <= i < |groups| :: groups[i].kind == NAMED_GROUP && groups[i].rights < 16
    ensures var end := StoredEntry(GetEntry(a, MASK, 0)) + StoredEntry(GetEntry(a, OTHER, 0));
            var second := StoredEntry(GetEntry(a, GROUP, 0)) + (StoredNamed(groups, NAMED_GROUP) + end);
            ReadsAs(StoredEntry(GetEntry(a, USER, 0)) + (StoredNamed(users, NAMED_USER) + second), Acl([], p), {}, a)
  {
    var end := StoredEntry(GetEntry(a, MASK, 0)) + StoredEntry(GetEntry(a, OTHER, 0));
    var seen := Seen(groups, NAMED_GROUP, Seen(users, NAMED_USER, {USER}) + {GROUP});
    NamedRebuilt(a, users, groups, p, end, seen);
    EndRebuilt(a, p, seen);
  }

  lemma EndRebuilt(a: Acl, p: nat, seen: set<nat>)
    requires IsAcl(a) && p == 0xF000 && MASK !in seen && OTHER !in seen && USER in seen && GROUP in seen
    ensures var end := StoredEntry(GetEntry(a, MASK, 0)) + StoredEntry(GetEntry(a, OTHER, 0));
            var q := WithRights(p, USER, Rights(a.perms, USER));
            ReadsAs(end, Acl(a.list, WithRights(q, GROUP, Rights(a.perms, GROUP))), seen, a)
  {
    var q := WithRights(p, USER, Rights(a.perms, USER));
    var r := WithRights(q, GROUP, Rights(a.perms, GROUP));
    var m := Rights(a.perms, MASK);
    var s := if m == MASK_UNSET then r else WithRights(r, MASK, m);
    var t := WithRights(s, OTHER, Rights(a.perms, OTHER));
    EndComesBack(a, Acl(a.list, r), seen);
    PermissionsRebuilt(a.perms, p, q, r, s, t);
  }

  lemma PrefixIsList(users: seq<Entry>, groups: seq<Entry>)
    requires IsList(users + groups)
    ensures IsList(users)
  {
    assert forall i | 0 <= i < |users| :: (users + groups)[i] == users[i];
  }
}
