/** The file in which charts are kept: a header with the clock of the shortest range, and
    for every statistic its name and the windows of its four ranges, oldest bucket first. */
module ChartsFile {
  import opened Bits
  import opened DataPack
  import opened Rings

  const FILE_VERSION: Word := 0x0001_0000
  const NAME_SIZE: nat := 100
  const RANGES: nat := 4

  type Tab = seq<Long>

  /** The tables of one statistic, one for each range. */
  type Row = seq<Tab>

  ghost predicate IsRow(row: Row) {
    |row| == RANGES && forall k | 0 <= k < RANGES :: |row[k]| == LENG
  }

  /** The buckets of a ring in the order of time. */
  function Window(tab: Tab, ptr: nat): (w: Tab)
    requires |tab| == LENG && ptr < LENG
    ensures |w| == LENG
  {
    seq(LENG, s requires 0 <= s < LENG => tab[(ptr + 1 + s) % LENG])
  }

  // ----- writing -----------------------------------------------------------------------------

  function Zeros(n: nat): (s: seq<Byte>)
    ensures |s| == n && forall i | 0 <= i < n :: s[i] == 0
  {
    if n == 0 then [] else [0] + Zeros(n - 1)
  }

  function NameHeader(name: seq<Byte>): (s: seq<Byte>)
    ensures |s| == NAME_SIZE
  {
    if |name| > NAME_SIZE then name[..NAME_SIZE] else name + Zeros(NAME_SIZE - |name|)
  }

  function Windows(row: Row): seq<Byte> {
    if row == [] then [] else Put64s(row[0]) + Windows(row[1..])
  }

  function Records(names: seq<seq<Byte>>, rows: seq<Row>): seq<Byte>
    requires |names| == |rows|
  {
    if names == [] then []
    else NameHeader(names[0]) + Windows(rows[0]) + Records(names[1..], rows[1..])
  }

  function Header(leng: Word, charts: Word, clock: Word): (s: seq<Byte>)
    ensures |s| == 16
  {
    Put32(FILE_VERSION) + Put32(leng) + Put32(charts) + Put32(clock)
  }

  // ----- reading ------------------------------------------------------------------------------

  /** The name in a header ends at the first zero byte. */
  function CString(s: seq<Byte>): seq<Byte> {
    if s == [] || s[0] == 0 then [] else [s[0]] + CString(s[1..])
  }

  function Lookup(names: seq<seq<Byte>>, name: seq<Byte>): (j: nat)
    ensures j <= |names| && (j < |names| ==> names[j] == name)
    ensures forall i | 0 <= i < j :: names[i] != name
  {
    if names == [] || names[0] == name then 0 else 1 + Lookup(names[1..], name)
  }

  /** Seeking forward, possibly past the end. */
  function Skip(s: seq<Byte>, n: nat): seq<Byte> {
    if n <= |s| then s[n..] else []
  }

  /** The tables of a statistic, counted in 32 bits. */
  function RecordSize(fleng: Word): nat {
    RANGES * fleng * 8 % 0x1_0000_0000
  }

  datatype TabResult = TabResult(ok: bool, tab: Tab, rest: seq<Byte>)

  /** A table of another length keeps its newest buckets. */
  function LoadTab(s: seq<Byte>, fleng: Word, tab: Tab): (r: TabResult)
    requires |tab| == LENG
    ensures |r.tab| == LENG
  {
    var t := if fleng > LENG then Skip(s, (fleng - LENG) * 8) else s;
    var n := if fleng < LENG then fleng else LENG;
    if |t| < 8 * n then TabResult(false, tab, [])
    else TabResult(true, tab[..LENG - n] + Get64s(t, n), t[8 * n..])
  }

  datatype RowResult = RowResult(ok: bool, row: Row, rest: seq<Byte>)

  function LoadRow(s: seq<Byte>, fleng: Word, row: Row, k: nat): (r: RowResult)
    requires IsRow(row) && k <= RANGES
    ensures IsRow(r.row)
    decreases RANGES - k
  {
    if k == RANGES then RowResult(true, row, s)
    else
      var t := LoadTab(s, fleng, row[k]);
      if t.ok then LoadRow(t.rest, fleng, row[k := t.tab], k + 1) else RowResult(false, row, [])
  }

  /** The records are read until they are all read or the file ends. */
  function LoadRecords(s: seq<Byte>, fleng: Word, n: nat, names: seq<seq<Byte>>, rows: seq<Row>)
    : (r: seq<Row>)
    requires |names| == |rows| && forall i | 0 <= i < |rows| :: IsRow(rows[i])
    ensures |r| == |rows| && forall i | 0 <= i < |r| :: IsRow(r[i])
    decreases n
  {
    if n == 0 || |s| < NAME_SIZE then rows
    else
      var j := Lookup(names, CString(s[..NAME_SIZE]));
      var t := s[NAME_SIZE..];
      if j == |names| then LoadRecords(Skip(t, RecordSize(fleng)), fleng, n - 1, names, rows)
      else
        var r := LoadRow(t, fleng, rows[j], 0);
        if r.ok then LoadRecords(r.rest, fleng, n - 1, names, rows[j := r.row]) else rows[j := r.row]
  }

  // ----- round trip -----------------------------------------------------------------------------

  /** C strings that fit, and no two the same. */
  ghost predicate GoodNames(names: seq<seq<Byte>>) {
    && (forall i | 0 <= i < |names| :: |names[i]| <= NAME_SIZE && forall k | 0 <= k < |names[i]| :: names[i][k] != 0)
    && (forall i, j | 0 <= i < j < |names| :: names[i] != names[j])
  }

  lemma {:induction false} NameComesBack(name: seq<Byte>, n: nat)
    requires forall k | 0 <= k < |name| :: name[k] != 0
    ensures CString(name + Zeros(n)) == name
    decreases |name|
  {
    if name == [] {
      assert name + Zeros(n) == Zeros(n);
    } else {
      assert (name + Zeros(n))[1..] == name[1..] + Zeros(n);
      NameComesBack(name[1..], n);
    }
  }

  lemma {:induction false} NameFound(names: seq<seq<Byte>>, i: nat)
    requires i < |names| && forall j, k | 0 <= j < k < |names| :: names[j] != names[k]
    ensures Lookup(names, names[i]) == i
    decreases i
  {
    if i > 0 {
      NameFound(names[1..], i - 1);
    }
  }

  lemma FullTab(s: seq<Byte>, w: Tab, tab: Tab, rest: seq<Byte>, leng: Word)
    requires |w| == LENG && |tab| == LENG && leng == LENG
    requires |s| >= 8 * LENG && Get64s(s, LENG) == w && s[8 * LENG..] == rest
    ensures LoadTab(s, leng, tab) == TabResult(true, w, rest)
  {
    assert tab[..0] + w == w;
  }

  lemma TabComesBack(w: Tab, tab: Tab, rest: seq<Byte>, leng: Word)
    requires |w| == LENG && |tab| == LENG && leng == LENG
    ensures LoadTab(Put64s(w) + rest, leng, tab) == TabResult(true, w, rest)
  {
    GetPut64s(w, rest);
    FullTab(Put64s(w) + rest, w, tab, rest, leng);
  }

  lemma RowStep(w: Tab, more: seq<Byte>, row: Row, k: nat, leng: Word)
    requires IsRow(row) && k < RANGES && |w| == LENG && leng == LENG
    ensures IsRow(row[k := w])
    ensures LoadRow(Put64s(w) + more, leng, row, k) == LoadRow(more, leng, row[k := w], k + 1)
  {
    TabComesBack(w, row[k], more, leng);
  }

  lemma WindowsStep(row: Row, k: nat, rest: seq<Byte>)
    requires k < |row|
    ensures Windows(row[k..]) + rest == Put64s(row[k]) + (Windows(row[k + 1..]) + rest)
  {
    assert row[k..][0] == row[k] && row[k..][1..] == row[k + 1..];
  }

  lemma {:induction false} RowComesBack(row: Row, now: Row, k: nat, rest: seq<Byte>, leng: Word)
    requires IsRow(row) && IsRow(now) && k <= RANGES && leng == LENG
    requires forall j | 0 <= j < k :: now[j] == row[j]
    ensures LoadRow(Windows(row[k..]) + rest, leng, now, k) == RowResult(true, row, rest)
    decreases RANGES - k
  {
    if k == RANGES {
      assert row[k..] == [] && now == row;
      assert [] + rest == rest;
    } else {
      WindowsStep(row, k, rest);
      RowStep(row[k], Windows(row[k + 1..]) + rest, now, k, leng);
      RowComesBack(row, now[k := row[k]], k + 1, rest, leng);
    }
  }

  lemma RecordStep(s: seq<Byte>, leng: Word, n: nat, names: seq<seq<Byte>>, now: seq<Row>, i: nat,
                   row: Row, more: seq<Byte>)
    requires |names| == |now| && (forall j | 0 <= j < |now| :: IsRow(now[j])) && i < |names| && n > 0
    requires |s| >= NAME_SIZE && Lookup(names, CString(s[..NAME_SIZE])) == i
    requires IsRow(row) && LoadRow(s[NAME_SIZE..], leng, now[i], 0) == RowResult(true, row, more)
    ensures LoadRecords(s, leng, n, names, now) == LoadRecords(more, leng, n - 1, names, now[i := row])
  {
  }

  lemma RecordsStep(names: seq<seq<Byte>>, rows: seq<Row>, i: nat)
    requires |names| == |rows| && i < |names|
    ensures Records(names[i..], rows[i..])
         == NameHeader(names[i]) + (Windows(rows[i]) + Records(names[i + 1..], rows[i + 1..]))
  {
    assert names[i..][1..] == names[i + 1..] && rows[i..][1..] == rows[i + 1..];
  }

  lemma RecordComesBack(names: seq<seq<Byte>>, rows: seq<Row>, now: seq<Row>, i: nat, leng: Word, n: nat)
    requires GoodNames(names) && |names| == |rows| == |now| && i < |names| && leng == LENG && n > 0
    requires (forall j | 0 <= j < |now| :: IsRow(now[j])) && IsRow(rows[i])
    ensures LoadRecords(Records(names[i..], rows[i..]), leng, n, names, now)
         == LoadRecords(Records(names[i + 1..], rows[i + 1..]), leng, n - 1, names, now[i := rows[i]])
  {
    var more := Records(names[i + 1..], rows[i + 1..]);
    var all := Records(names[i..], rows[i..]);
    RecordsStep(names, rows, i);
    assert all[..NAME_SIZE] == NameHeader(names[i]) && all[NAME_SIZE..] == Windows(rows[i]) + more;
    HeaderFound(names, i);
    assert rows[i][0..] == rows[i];
    RowComesBack(rows[i], now[i], 0, more, leng);
    RecordStep(all, leng, n, names, now, i, rows[i], more);
  }

  ghost predicate Restored(rows: seq<Row>, now: seq<Row>, i: nat) {
    && |rows| == |now| && i <= |rows|
    && (forall j | 0 <= j < |rows| :: IsRow(rows[j]) && IsRow(now[j]))
    && (forall j | 0 <= j < i :: now[j] == rows[j])
  }

  lemma RestoreNext(rows: seq<Row>, now: seq<Row>, i: nat)
    requires Restored(rows, now, i) && i < |rows|
    ensures Restored(rows, now[i := rows[i]], i + 1)
  {
  }

  lemma RestoreEnd(names: seq<seq<Byte>>, rows: seq<Row>, now: seq<Row>, leng: Word, s: seq<Byte>)
    requires |names| == |rows| && Restored(rows, now, |rows|)
    ensures LoadRecords(s, leng, 0, names, now) == rows
  {
    assert now == rows;
  }

  /** Every record finds its statistic and restores all its windows. */
  lemma {:induction false} RecordsComeBack(names: seq<seq<Byte>>, rows: seq<Row>, now: seq<Row>, i: nat,
                                           leng: Word, n: nat)
    requires GoodNames(names) && |names| == |rows| && Restored(rows, now, i) && leng == LENG
    requires n == |names| - i
    ensures LoadRecords(Records(names[i..], rows[i..]), leng, n, names, now) == rows
    decreases n
  {
    if n == 0 {
      RestoreEnd(names, rows, now, leng, Records(names[i..], rows[i..]));
    } else {
      RecordComesBack(names, rows, now, i, leng, n);
      RestoreNext(rows, now, i);
      RecordsComeBack(names, rows, now[i := rows[i]], i + 1, leng, n - 1);
    }
  }

  lemma HeaderName(name: seq<Byte>)
    requires |name| <= NAME_SIZE && forall k | 0 <= k < |name| :: name[k] != 0
    ensures CString(NameHeader(name)) == name
  {
    var n := NAME_SIZE - |name|;
    NameComesBack(name, n);
    assert NameHeader(name) == name + Zeros(n);
  }

  lemma HeaderFound(names: seq<seq<Byte>>, i: nat)
    requires GoodNames(names) && i < |names|
    ensures Lookup(names, CString(NameHeader(names[i]))) == i
  {
    HeaderName(names[i]);
    NameFound(names, i);
  }
}
