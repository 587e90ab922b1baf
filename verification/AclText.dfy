/** Access control lists as text, like A770/u:123:7/g:166:4/m::6, and back. */
module AclText {
  import opened Common
  import opened Bits
  import opened Packed
  import opened AclValues

  // ----- numbers -----------------------------------------------------------------------------

  function Digit(d: nat): char
    requires d < 10
  {
    '0' + d as char
  }

  predicate IsDigit(c: char) { '0' <= c <= '9' }

  function DigitValue(c: char): nat
    requires IsDigit(c)
  {
    (c - '0') as nat
  }

  function Decimal(n: nat): (s: string)
    ensures |s| > 0 && forall i | 0 <= i < |s| :: IsDigit(s[i])
  {
    if n < 10 then [Digit(n)] else Decimal(n / 10) + [Digit(n % 10)]
  }

  function TakeDigits(s: string, value: nat): (nat, string) {
    if s == [] || !IsDigit(s[0]) then (value, s) else TakeDigits(s[1..], value * 10 + DigitValue(s[0]))
  }

  predicate IsSpace(c: char) {
    c == ' ' || ('\t' <= c <= '\r')
  }

  function SkipSpaces(s: string): string {
    if s != [] && IsSpace(s[0]) then SkipSpaces(s[1..]) else s
  }

  const LONG_MAX: int := 0x7FFF_FFFF_FFFF_FFFF

  function Clamped(x: int): int {
    if x > LONG_MAX then LONG_MAX else if x < -LONG_MAX - 1 then -LONG_MAX - 1 else x
  }

  /** A number in the C format: blanks, a sign, digits; too large numbers are clamped. */
  function Strtol(s: string): Option<(int, string)> {
    var t := SkipSpaces(s);
    var negative := t != [] && t[0] == '-';
    var u := if t != [] && (t[0] == '-' || t[0] == '+') then t[1..] else t;
    if u == [] || !IsDigit(u[0]) then None
    else
      var (value, rest) := TakeDigits(u, 0);
      Some((Clamped(if negative then 0 - value else value), rest))
  }

  lemma {:induction false} DecimalTaken(n: nat, rest: string)
    ensures TakeDigits(Decimal(n) + rest, 0) == TakeDigits(rest, n)
    decreases n
  {
    if n < 10 {
      assert Decimal(n) + rest == [Digit(n)] + rest;
      assert ([Digit(n)] + rest)[1..] == rest;
      assert DigitValue(Digit(n)) == n;
    } else {
      var more := [Digit(n % 10)] + rest;
      assert Decimal(n) + rest == Decimal(n / 10) + more;
      DecimalTaken(n / 10, more);
      assert more[1..] == rest && DigitValue(Digit(n % 10)) == n % 10;
    }
  }

  lemma NumberComesBack(n: Word, rest: string)
    requires rest == [] || !IsDigit(rest[0])
    ensures Strtol(Decimal(n) + rest) == Some((n as int, rest))
  {
    var s := Decimal(n) + rest;
    assert IsDigit(s[0]) && s[0] == Decimal(n)[0];
    DecimalTaken(n, rest);
  }

  // ----- printing ------------------------------------------------------------------------------

  function RightsChar(rights: nat): char {
    if rights > 7 then '?' else '0' + rights as char
  }

  function PrintEntry(e: Entry): string {
    (if e.kind == NAMED_USER then "/u:" else "/g:") + Decimal(e.id) + ":" + [RightsChar(e.rights)]
  }

  function PrintEntries(list: seq<Entry>): string {
    if list == [] then ""
    else (if list[0].kind in {NAMED_USER, NAMED_GROUP} then PrintEntry(list[0]) else "") + PrintEntries(list[1..])
  }

  function PrintMask(a: Acl): string {
    if Rights(a.perms, MASK) != MASK_UNSET then "/m::" + [RightsChar(Rights(a.perms, MASK))] else ""
  }

  function PrintBasics(perms: nat): (s: string)
    ensures |s| == 4
  {
    ['A', RightsChar(Rights(perms, USER)), RightsChar(Rights(perms, GROUP)), RightsChar(Rights(perms, OTHER))]
  }

  function Print(a: Acl): string {
    PrintBasics(a.perms) + PrintEntries(a.list) + PrintMask(a)
  }

  // ----- parsing --------------------------------------------------------------------------------

  predicate IsRights(c: char) { '0' <= c <= '7' }

  function RightsOf(c: char): nat
    requires IsRights(c)
  {
    (c - '0') as nat
  }

  function KindOf(c: char): nat {
    if c == 'u' then NAMED_USER else if c == 'g' then NAMED_GROUP else if c == 'm' then MASK else INVALID
  }

  datatype Item = Item(kind: nat, id: Word, rights: nat, rest: string)

  /** The identifier between two colons; a missing one is the largest number. */
  function ParseId(s: string): Option<(Word, string)> {
    if s != [] && s[0] == ':' then Some((NO_ID, s))
    else
      var r := Strtol(s);
      if r.None? then None else Some((r.value.0 % 0x1_0000_0000, r.value.1))
  }

  /** One entry of the text. */
  function ParseItem(s: string): Option<Item> {
    if s == [] || s[0] != '/' then None
    else if |s| < 3 || s[2] != ':' then None
    else
      var id := ParseId(s[3..]);
      if id.None? then None
      else
        var t := id.value.1;
        if |t| < 2 || t[0] != ':' || !IsRights(t[1]) then None
        else Some(Item(KindOf(s[1]), id.value.0, RightsOf(t[1]), t[2..]))
  }

  predicate Acceptable(a: Acl, i: Item) {
    && i.kind < INVALID && GetEntry(a, i.kind, i.id).kind == INVALID
    && !(i.id == NO_ID && i.kind in {NAMED_USER, NAMED_GROUP})
  }

  lemma {:induction false} TakeDigitsShorter(s: string, value: nat)
    ensures |TakeDigits(s, value).1| <= |s|
    decreases |s|
  {
    if s != [] && IsDigit(s[0]) {
      TakeDigitsShorter(s[1..], value * 10 + DigitValue(s[0]));
    }
  }

  lemma {:induction false} SkipSpacesShorter(s: string)
    ensures |SkipSpaces(s)| <= |s|
    decreases |s|
  {
    if s != [] && IsSpace(s[0]) {
      SkipSpacesShorter(s[1..]);
    }
  }

  lemma ItemShorter(s: string)
    ensures ParseItem(s).Some? ==> |ParseItem(s).value.rest| < |s|
  {
    if ParseItem(s).Some? {
      var t := s[3..];
      SkipSpacesShorter(t);
      var u := SkipSpaces(t);
      TakeDigitsShorter(u, 0);
      if u != [] {
        TakeDigitsShorter(u[1..], 0);
      }
    }
  }

  /** The entries of the text, up to its end. */
  function ParseEntries(s: string, a: Acl): Option<Acl>
    decreases |s|
  {
    ItemShorter(s);
    if s == [] then Some(a)
    else
      var i := ParseItem(s);
      if i.None? || !Acceptable(a, i.value) then None
      else ParseEntries(i.value.rest, SetEntry(a, i.value.kind, i.value.id, i.value.rights))
  }

  function Parse(s: string): Option<Acl> {
    if |s| < 4 || s[0] != 'A' || !IsRights(s[1]) || !IsRights(s[2]) || !IsRights(s[3]) then None
    else
      var a := SetEntry(EmptyAcl(), USER, 0, RightsOf(s[1]));
      var b := SetEntry(a, GROUP, 0, RightsOf(s[2]));
      ParseEntries(s[4..], SetEntry(b, OTHER, 0, RightsOf(s[3])))
  }

  // ----- round trip ---------------------------------------------------------------------------------

  lemma RightsComeBack(rights: nat)
    requires rights <= 7
    ensures IsRights(RightsChar(rights)) && RightsOf(RightsChar(rights)) == rights
  {
  }

  lemma EntryComesBack(e: Entry, rest: string)
    requires IsNamed(e)
    ensures ParseItem(PrintEntry(e) + rest) == Some(Item(e.kind, e.id, e.rights, rest))
  {
    var s := PrintEntry(e) + rest;
    var tail := [':', RightsChar(e.rights)] + rest;
    assert s[3..] == Decimal(e.id) + tail;
    NumberComesBack(e.id, tail);
    RightsComeBack(e.rights);
    assert Decimal(e.id)[0] != ':';
    assert ParseId(s[3..]) == Some((e.id, tail));
    assert tail[2..] == rest;
  }

  lemma MaskComesBack(rights: nat)
    requires rights <= 7
    ensures ParseItem("/m::" + [RightsChar(rights)]) == Some(Item(MASK, NO_ID, rights, ""))
  {
    var s := "/m::" + [RightsChar(rights)];
    RightsComeBack(rights);
    assert s[3..] == [':', RightsChar(rights)];
    assert ParseId(s[3..]) == Some((NO_ID, s[3..]));
    assert s[3..][2..] == "";
  }

  /** No named user or group has the number that stands for a missing one. */
  predicate NoReservedId(list: seq<Entry>) {
    forall i | 0 <= i < |list| :: list[i].id != NO_ID
  }

  ghost predicate Follows(a: Acl, list: seq<Entry>) {
    IsList(a.list + list)
  }

  lemma FollowsNext(a: Acl, list: seq<Entry>)
    requires Follows(a, list) && list != []
    ensures IsNamed(list[0])
    ensures SetEntry(a, list[0].kind, list[0].id, list[0].rights) == a.(list := a.list + [list[0]])
    ensures GetEntry(a, list[0].kind, list[0].id).kind == INVALID
    ensures Follows(a.(list := a.list + [list[0]]), list[1..])
  {
    var all := a.list + list;
    var n := |a.list|;
    assert all[n] == list[0] && forall i | 0 <= i < n :: all[i] == a.list[i];
    assert forall i | 0 <= i < n :: Before(all[i].kind, all[i].id, all[n]);
    SetLast(a, list[0]);
    assert a.list + [list[0]] + list[1..] == all;
  }

  lemma PrintStep(list: seq<Entry>, rest: string)
    requires list != [] && IsNamed(list[0])
    ensures PrintEntries(list) + rest == PrintEntry(list[0]) + (PrintEntries(list[1..]) + rest)
  {
  }

  lemma AppendStep(before: seq<Entry>, list: seq<Entry>)
    requires list != []
    ensures before + [list[0]] + list[1..] == before + list
  {
  }

  lemma EntryStep(a: Acl, e: Entry, more: string)
    requires IsNamed(e) && GetEntry(a, e.kind, e.id).kind == INVALID
    ensures ParseEntries(PrintEntry(e) + more, a)
         == if e.id == NO_ID then None else ParseEntries(more, SetEntry(a, e.kind, e.id, e.rights))
  {
    EntryComesBack(e, more);
  }

  /** Printed entries are parsed back one by one, exactly if none has the reserved number. */
  lemma {:induction false} EntriesComeBack(a: Acl, list: seq<Entry>, rest: string)
    requires Follows(a, list)
    ensures NoReservedId(list)
            ==> ParseEntries(PrintEntries(list) + rest, a) == ParseEntries(rest, a.(list := a.list + list))
    ensures !NoReservedId(list) ==> ParseEntries(PrintEntries(list) + rest, a).None?
    decreases |list|
  {
    if list == [] {
      assert PrintEntries(list) + rest == rest && a.list + list == a.list;
    } else {
      FollowsNext(a, list);
      PrintStep(list, rest);
      EntryStep(a, list[0], PrintEntries(list[1..]) + rest);
      EntriesComeBack(a.(list := a.list + [list[0]]), list[1..], rest);
      AppendStep(a.list, list);
      ReservedFirst(list);
    }
  }

  lemma ReservedFirst(list: seq<Entry>)
    requires list != []
    ensures NoReservedId(list) <==> list[0].id != NO_ID && NoReservedId(list[1..])
  {
    if list[0].id != NO_ID && NoReservedId(list[1..]) {
      forall i | 0 <= i < |list|
        ensures list[i].id != NO_ID
      {
        assert i > 0 ==> list[i] == list[1..][i - 1];
      }
    }
    if NoReservedId(list) {
      assert forall i | 0 <= i < |list[1..]| :: list[1..][i] == list[i + 1];
    }
  }

  lemma MaskParsed(a: Acl, rights: nat)
    requires rights <= 7 && Rights(a.perms, MASK) == MASK_UNSET
    ensures ParseEntries("/m::" + [RightsChar(rights)], a) == Some(SetEntry(a, MASK, NO_ID, rights))
  {
    MaskComesBack(rights);
    assert ParseEntries("", SetEntry(a, MASK, NO_ID, rights)) == Some(SetEntry(a, MASK, NO_ID, rights));
  }

  lemma EmptyRights()
    ensures GoodPermissions(0xF000) && Rights(0xF000, MASK) == MASK_UNSET
  {
    FourDigits(0xF000);
    var d := Digits(0xF000, 16, 4);
    assert 0xF000 == d[0] + 16 * (d[1] + 16 * (d[2] + 16 * d[3]));
  }

  lemma OneRightSet(p: nat, kind: nat, r: nat, q: nat)
    requires p < 0x1_0000 && kind in {USER, GROUP, OTHER} && r <= 7 && q == WithRights(p, kind, r)
    ensures q < 0x1_0000 && Rights(q, kind) == r && Rights(q, MASK) == Rights(p, MASK)
    ensures kind != USER ==> Rights(q, USER) == Rights(p, USER)
    ensures kind != GROUP ==> Rights(q, GROUP) == Rights(p, GROUP)
    ensures kind != OTHER ==> Rights(q, OTHER) == Rights(p, OTHER)
  {
    RightsSet(p, kind, r, USER);
    RightsSet(p, kind, r, GROUP);
    RightsSet(p, kind, r, OTHER);
    RightsSet(p, kind, r, MASK);
  }

  lemma BasicsSet(user: nat, group: nat, other: nat, p: nat)
    requires user <= 7 && group <= 7 && other <= 7 && p == 0xF000
    ensures var b := Basics(user, group, other);
            && b.list == [] && b.perms < 0x1_0000 && Rights(b.perms, MASK) == MASK_UNSET
            && Rights(b.perms, USER) == user && Rights(b.perms, GROUP) == group && Rights(b.perms, OTHER) == other
  {
    EmptyRights();
    var q := WithRights(p, USER, user);
    var r := WithRights(q, GROUP, group);
    var s := WithRights(r, OTHER, other);
    OneRightSet(p, USER, user, q);
    OneRightSet(q, GROUP, group, r);
    OneRightSet(r, OTHER, other, s);
    assert Basics(user, group, other) == Acl([], s);
  }

  /** The basic permissions that the first four characters give. */
  lemma HeaderParsed(a: Acl)
    requires IsAcl(a)
    ensures var b := Basics(Rights(a.perms, USER), Rights(a.perms, GROUP), Rights(a.perms, OTHER));
            && b.list == [] && b.perms < 0x1_0000 && Rights(b.perms, MASK) == MASK_UNSET
            && Rights(b.perms, USER) == Rights(a.perms, USER) && Rights(b.perms, GROUP) == Rights(a.perms, GROUP)
            && Rights(b.perms, OTHER) == Rights(a.perms, OTHER)
  {
    BasicsSet(Rights(a.perms, USER), Rights(a.perms, GROUP), Rights(a.perms, OTHER), 0xF000);
  }

  function Basics(user: nat, group: nat, other: nat): Acl {
    SetEntry(SetEntry(SetEntry(EmptyAcl(), USER, 0, user), GROUP, 0, group), OTHER, 0, other)
  }

  /** The permissions are complete once the mask is set. */
  lemma MaskCompletes(a: Acl, b: Acl)
    requires IsAcl(a) && b.perms < 0x1_0000 && Rights(b.perms, MASK) == MASK_UNSET
    requires Rights(b.perms, USER) == Rights(a.perms, USER) && Rights(b.perms, GROUP) == Rights(a.perms, GROUP)
    requires Rights(b.perms, OTHER) == Rights(a.perms, OTHER)
    ensures a.perms == if Rights(a.perms, MASK) == MASK_UNSET then b.perms
                       else WithRights(b.perms, MASK, Rights(a.perms, MASK))
  {
    var m := Rights(a.perms, MASK);
    if m == MASK_UNSET {
      SamePermissions(a.perms, b.perms);
    } else {
      var c := WithRights(b.perms, MASK, m);
      MaskRightSet(b.perms, m, c);
      SamePermissions(a.perms, c);
    }
  }

  lemma MaskRightSet(p: nat, m: nat, q: nat)
    requires p < 0x1_0000 && m <= 7 && q == WithRights(p, MASK, m)
    ensures q < 0x1_0000 && Rights(q, MASK) == m && Rights(q, USER) == Rights(p, USER)
    ensures Rights(q, GROUP) == Rights(p, GROUP) && Rights(q, OTHER) == Rights(p, OTHER)
  {
    RightsSet(p, MASK, m, USER);
    RightsSet(p, MASK, m, GROUP);
    RightsSet(p, MASK, m, OTHER);
    RightsSet(p, MASK, m, MASK);
  }

  lemma PrintedHeader(a: Acl)
    requires IsAcl(a)
    ensures var s := Print(a);
            && |s| >= 4 && s[0] == 'A' && IsRights(s[1]) && IsRights(s[2]) && IsRights(s[3])
            && RightsOf(s[1]) == Rights(a.perms, USER) && RightsOf(s[2]) == Rights(a.perms, GROUP)
            && RightsOf(s[3]) == Rights(a.perms, OTHER)
            && s[4..] == PrintEntries(a.list) + PrintMask(a)
  {
    RightsComeBack(Rights(a.perms, USER));
    RightsComeBack(Rights(a.perms, GROUP));
    RightsComeBack(Rights(a.perms, OTHER));
    var head, tail := PrintBasics(a.perms), PrintEntries(a.list) + PrintMask(a);
    assert Print(a) == head + tail && (head + tail)[4..] == tail;
  }

  /** Parsing undoes printing exactly if no named user or group has the reserved number. */
  lemma TextRoundTrip(a: Acl)
    requires IsAcl(a)
    ensures NoReservedId(a.list) ==> Parse(Print(a)) == Some(a)
    ensures !NoReservedId(a.list) ==> Parse(Print(a)).None?
  {
    PrintedHeader(a);
    HeaderParsed(a);
    var b := Basics(Rights(a.perms, USER), Rights(a.perms, GROUP), Rights(a.perms, OTHER));
    assert b.list + a.list == a.list;
    EntriesComeBack(b, a.list, PrintMask(a));
    assert Parse(Print(a)) == ParseEntries(PrintEntries(a.list) + PrintMask(a), b);
    if NoReservedId(a.list) {
      var c := b.(list := a.list);
      MaskCompletes(a, b);
      if Rights(a.perms, MASK) == MASK_UNSET {
        assert ParseEntries("", c) == Some(c);
      } else {
        MaskParsed(c, Rights(a.perms, MASK));
      }
    }
  }
}
