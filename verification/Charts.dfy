/** The charts: a ring for every statistic and every range, updated in place. */
module Charts {
  import opened Common
  import opened Bits
  import opened DataPack
  import opened Division
  import opened Rings
  import opened ChartsFile

  const SHORT: nat := 0

  /** The length of a time bucket of a range, in seconds. */
  function Period(range: nat): (p: nat)
    requires range < RANGES
    ensures p > 0
  {
    if range == 0 then 60 else if range == 1 then 60 * 6 else if range == 2 then 60 * 30 else 60 * 60 * 24
  }

  /** How many of the shortest buckets make one of a range. */
  function Factor(range: nat): (k: nat)
    requires range < RANGES
    ensures k > 0 && Period(range) == Period(SHORT) * k
  {
    if range == 0 then 1 else if range == 1 then 6 else if range == 2 then 30 else 1440
  }

  function Bucket(local: Local, range: nat): (b: Word)
    requires range < RANGES
    ensures b == local / Period(range)
  {
    Recompose(local, Period(range));
    local / Period(range)
  }

  function SampleOf(data: Option<seq<Long>>, j: nat): Option<Long>
    requires data.Some? ==> j < |data.value|
  {
    if data.Some? then Some(data.value[j]) else None
  }

  /** Seconds of local time, in a signed 32-bit number. */
  type Local = n: nat | n < 0x8000_0000

  /** The last minute that local time can be in. */
  const LAST_MINUTE: nat := 0x7FFF_FFFF / 60

  // ----- clocks from a saved minute ------------------------------------------------------------

  /** The seconds of a saved minute: multiplied in 32 bits, and taken for a signed number. */
  function SavedTime(minutes: Word): (local: int)
    ensures -0x8000_0000 <= local < 0x8000_0000
  {
    var now := minutes * 60 % 0x1_0000_0000;
    if now < 0x8000_0000 then now else now - 0x1_0000_0000
  }

  /** The bucket of a signed time: the quotient is cut off towards zero and stored without
      its sign. */
  function SignedBucket(local: int, range: nat): Word
    requires range < RANGES && -0x8000_0000 <= local < 0x8000_0000
  {
    if local >= 0 then Bucket(local, range)
    else
      Recompose(-local, Period(range));
      (0x1_0000_0000 - -local / Period(range)) % 0x1_0000_0000
  }

  lemma SmallMinutes(minutes: Word)
    requires minutes <= LAST_MINUTE
    ensures SavedTime(minutes) == minutes * 60 && SignedBucket(minutes * 60, SHORT) == minutes
  {
  }

  /** A minute beyond the range of local time does not survive in all clocks. */
  lemma LargeMinutes(minutes: Word)
    requires minutes > LAST_MINUTE
    ensures SignedBucket(SavedTime(minutes), SHORT) != minutes
         || SignedBucket(SavedTime(minutes), 1) != minutes / Factor(1)
  {
    var local := SavedTime(minutes);
    if local >= 0 {
      SmallBucket(local);
    } else {
      NegativeBucket(local);
      assert 0 < minutes / Factor(1) < 0x8000_0000;
    }
  }

  lemma SmallBucket(local: Local)
    ensures SignedBucket(local, SHORT) <= LAST_MINUTE
  {
  }

  lemma NegativeBucket(local: int)
    requires -0x8000_0000 <= local < 0
    ensures SignedBucket(local, 1) == 0 || SignedBucket(local, 1) >= 0x8000_0000
  {
    Recompose(-local, Period(1));
    var q := -local / Period(1);
    assert 0 <= q < 0x8000_0000;
    assert SignedBucket(local, 1) == (0x1_0000_0000 - q) % 0x1_0000_0000;
  }

  // ----- tables and bytes ----------------------------------------------------------------------

  /** The buckets of a ring, oldest first, as bytes. */
  method PutWindow(tab: Tab, ptr: nat) returns (data: seq<Byte>)
    requires |tab| == LENG && ptr < LENG
    ensures data == Put64s(Window(tab, ptr))
  {
    data := [];
    ghost var w := Window(tab, ptr);
    for s := 0 to LENG
      invariant data == Put64s(w[..s])
    {
      assert w[..s + 1] == w[..s] + [w[s]];
      PutAppend(w[..s], w[s]);
      data := data + Put64(tab[(ptr + 1 + s) % LENG]);
    }
    assert w[..LENG] == w;
  }

  /** Numbers are read into the end of a table. */
  method GetTable(data: seq<Byte>, n: nat, tab: Tab) returns (r: Tab)
    requires |tab| == LENG && n <= LENG && |data| >= 8 * n
    ensures r == tab[..LENG - n] + Get64s(data, n)
  {
    r := tab[..LENG - n];
    for l := 0 to n
      invariant r == tab[..LENG - n] + Get64s(data, l)
    {
      GetAppend(data, l);
      r := r + [Get64(data[8 * l..])];
    }
  }

  /** One table from the file; a file that ends too early leaves the table alone. */
  method ReadTable(s: seq<Byte>, fleng: Word, tab: Tab) returns (r: TabResult)
    requires |tab| == LENG
    ensures r == LoadTab(s, fleng, tab)
  {
    var t := s;
    if fleng > LENG {
      t := Skip(s, (fleng - LENG) * 8);
    }
    var n := if fleng < LENG then fleng else LENG;
    if |t| < 8 * n {
      return TabResult(false, tab, []);
    }
    var now := GetTable(t, n, tab);
    r := TabResult(true, now, t[8 * n..]);
  }

  class Charts {
    const names: seq<seq<Byte>>
    const modes: seq<Mode>
    const series: array2<seq<Long>>     // by statistic and range
    const pointers: array<Word>
    const timepoint: array<Word>

    ghost predicate Shaped()
    {
      && |names| == |modes| < 0x1_0000_0000
      && series.Length0 == |modes| && series.Length1 == RANGES
      && pointers.Length == RANGES && timepoint.Length == RANGES
      && pointers != timepoint
    }

    ghost predicate Valid()
      reads series, pointers
    {
      && Shaped()
      && (forall j, r | 0 <= j < |modes| && 0 <= r < RANGES :: |series[j, r]| == LENG)
      && (forall r | 0 <= r < RANGES :: pointers[r] < LENG)
    }

    ghost function RingOf(j: nat, r: nat): (ring: Ring)
      requires Shaped() && j < |modes| && r < RANGES
      reads series, pointers, timepoint
    {
      Ring(series[j, r], pointers[r], timepoint[r])
    }

    /** The clock of every range is the floor of the shortest one. */
    ghost predicate Synchronous()
      requires Shaped()
      reads timepoint
    {
      forall r | 0 <= r < RANGES :: timepoint[r] == timepoint[SHORT] / Factor(r)
    }

    /** Empty charts, with the clocks set to a local time. */
    constructor (names: seq<seq<Byte>>, modes: seq<Mode>, local: Local)
      requires |names| == |modes| < 0x1_0000_0000
      ensures Valid() && this.modes == modes && this.names == names
      ensures fresh(series) && fresh(pointers) && fresh(timepoint)
      ensures forall j, r | 0 <= j < |modes| && 0 <= r < RANGES :: RingOf(j, r) == Empty(local / Period(r))
      ensures Synchronous() && forall r | 0 <= r < RANGES :: timepoint[r] == local / Period(r)
    {
      this.names, this.modes := names, modes;
      series := new seq<Long>[|modes|, RANGES]((_, _) => seq(LENG, _ => NODATA));
      pointers := new Word[RANGES](_ => 0);
      timepoint := new Word[RANGES]((r: nat) => if r < RANGES then Bucket(local, r) else 0);
      new;
      forall r | 0 <= r < RANGES
        ensures timepoint[r] == timepoint[SHORT] / Factor(r)
      {
        DivideTwice(local, Period(SHORT), Factor(r));
      }
    }

    /** Other ranges are not touched. */
    twostate predicate OnlyRange(r: nat)
      requires Shaped()
      reads series, pointers, timepoint
    {
      && (forall j, q | 0 <= j < |modes| && 0 <= q < RANGES && q != r :: series[j, q] == old(series[j, q]))
      && (forall q | 0 <= q < RANGES && q != r :: pointers[q] == old(pointers[q]))
      && (forall q | 0 <= q < RANGES && q != r :: timepoint[q] == old(timepoint[q]))
    }

    method TurnAll(r: nat)
      requires Valid() && r < RANGES
      modifies series, pointers
      ensures Valid() && OnlyRange(r)
      ensures forall j | 0 <= j < |modes| :: RingOf(j, r) == Turn(old(RingOf(j, r)))
    {
      pointers[r] := (pointers[r] + 1) % LENG;
      for i := 0 to |modes|
        invariant Valid() && OnlyRange(r) && pointers[r] == (old(pointers[r]) + 1) % LENG
        invariant forall j | 0 <= j < i :: series[j, r] == old(series[j, r])[pointers[r] := NODATA]
        invariant forall j | i <= j < |modes| :: series[j, r] == old(series[j, r])
      {
        series[i, r] := series[i, r][pointers[r] := NODATA];
      }
    }

    method Advance(r: nat, steps: nat)
      requires Valid() && r < RANGES
      modifies series, pointers
      ensures Valid() && OnlyRange(r)
      ensures forall j | 0 <= j < |modes| :: RingOf(j, r) == Turned(old(RingOf(j, r)), steps)
    {
      var delta := steps;
      while delta > 0
        invariant Valid() && OnlyRange(r)
        invariant forall j | 0 <= j < |modes| :: Turned(RingOf(j, r), delta) == Turned(old(RingOf(j, r)), steps)
      {
        TurnAll(r);
        delta := delta - 1;
      }
    }

    method PutAll(r: nat, age: nat, data: seq<Long>)
      requires Valid() && r < RANGES && age < LENG && |data| == |modes|
      modifies series
      ensures Valid() && OnlyRange(r)
      ensures forall j | 0 <= j < |modes| :: RingOf(j, r) == Put(old(RingOf(j, r)), age, modes[j], data[j])
    {
      var i := (pointers[r] + LENG - age) % LENG;
      assert i == Slot(pointers[r], age);
      for j := 0 to |modes|
        invariant Valid() && OnlyRange(r)
        invariant forall k | 0 <= k < j :: RingOf(k, r) == Put(old(RingOf(k, r)), age, modes[k], data[k])
        invariant forall k | j <= k < |modes| :: series[k, r] == old(series[k, r])
      {
        if series[j, r][i] == NODATA {
          series[j, r] := series[j, r][i := data[j]];
        } else if modes[j] == Add {
          series[j, r] := series[j, r][i := Sum64(series[j, r][i], data[j])];
        } else if data[j] > series[j, r][i] {
          series[j, r] := series[j, r][i := data[j]];
        } else {
          assert series[j, r][i := series[j, r][i]] == series[j, r];
        }
      }
    }

    /** A later bucket turns the rings; otherwise the bucket is so many buckets old. */
    method AdvanceTo(r: nat, nowtime: Word) returns (age: nat)
      requires Valid() && r < RANGES
      modifies series, pointers, timepoint
      ensures Valid() && OnlyRange(r)
      ensures forall j | 0 <= j < |modes| :: RingOf(j, r) == AdvancedTo(old(RingOf(j, r)), nowtime)
      ensures timepoint[r] == Clocked(old(timepoint[r]), nowtime) && age == AgeOf(old(timepoint[r]), nowtime)
    {
      var delta := Delta(nowtime, timepoint[r]);
      if delta > 0 {
        Advance(r, if delta > LENG then LENG else delta);
        timepoint[r] := nowtime;
        delta := 0;
      }
      age := -delta;
    }

    method AddToRange(r: nat, nowtime: Word, data: Option<seq<Long>>)
      requires Valid() && r < RANGES && (data.Some? ==> |data.value| == |modes|)
      modifies series, pointers, timepoint
      ensures Valid() && OnlyRange(r)
      ensures forall j | 0 <= j < |modes| ::
                RingOf(j, r) == AddTo(old(RingOf(j, r)), nowtime, SampleOf(data, j), modes[j])
      ensures timepoint[r] == Clocked(old(timepoint[r]), nowtime)
    {
      var age := AdvanceTo(r, nowtime);
      if age < LENG && data.Some? {
        PutAll(r, age, data.value);
      }
    }

    /** One call updates all four ranges. */
    method AddSamples(local: Local, data: Option<seq<Long>>)
      requires Valid() && (data.Some? ==> |data.value| == |modes|)
      modifies series, pointers, timepoint
      ensures Valid()
      ensures forall j, r | 0 <= j < |modes| && 0 <= r < RANGES ::
                RingOf(j, r) == AddTo(old(RingOf(j, r)), local / Period(r), SampleOf(data, j), modes[j])
      ensures forall r | 0 <= r < RANGES :: timepoint[r] == Clocked(old(timepoint[r]), local / Period(r))
      ensures old(Synchronous()) && old(timepoint[SHORT]) <= HALF ==> Synchronous() && timepoint[SHORT] <= HALF
    {
      AddToRange(0, local / 60, data);
      AddToRange(1, local / (60 * 6), data);
      AddToRange(2, local / (60 * 30), data);
      AddToRange(3, local / (60 * 60 * 24), data);
      if old(Synchronous()) && old(timepoint[SHORT]) <= HALF {
        forall r | 0 <= r < RANGES
          ensures timepoint[r] == timepoint[SHORT] / Factor(r)
        {
          ClocksStep(old(timepoint[SHORT]), old(timepoint[r]), local, r);
        }
      }
    }

    // ----- the file ------------------------------------------------------------------------------

    ghost function TableRow(j: nat): (row: Row)
      requires Valid() && j < |modes|
      reads series, pointers
      ensures IsRow(row)
    {
      [series[j, 0], series[j, 1], series[j, 2], series[j, 3]]
    }

    ghost function WindowRow(j: nat): (row: Row)
      requires Valid() && j < |modes|
      reads series, pointers
      ensures IsRow(row)
    {
      [Window(series[j, 0], pointers[0]), Window(series[j, 1], pointers[1]),
       Window(series[j, 2], pointers[2]), Window(series[j, 3], pointers[3])]
    }

    ghost function Tables(): (rows: seq<Row>)
      requires Valid()
      reads series, pointers
      ensures |rows| == |modes| && forall j | 0 <= j < |rows| :: IsRow(rows[j]) && rows[j] == TableRow(j)
    {
      seq(|modes|, j requires 0 <= j < |modes| && Valid() reads series, pointers => TableRow(j))
    }

    /** What the charts show: for every statistic the windows of its ranges. */
    ghost function Shown(): (rows: seq<Row>)
      requires Valid()
      reads series, pointers
      ensures |rows| == |modes| && forall j | 0 <= j < |rows| :: IsRow(rows[j]) && rows[j] == WindowRow(j)
    {
      seq(|modes|, j requires 0 <= j < |modes| && Valid() reads series, pointers => WindowRow(j))
    }

    method StoreRow(j: nat) returns (data: seq<Byte>)
      requires Valid() && j < |modes|
      ensures data == Windows(WindowRow(j))
    {
      data := [];
      ghost var row := WindowRow(j);
      for r := 0 to RANGES
        invariant data == Windows(row[..r])
      {
        WindowsAppend(row, r);
        var bytes := PutWindow(series[j, r], pointers[r]);
        data := data + bytes;
      }
      assert row[..RANGES] == row;
    }

    method StoreRecords() returns (data: seq<Byte>)
      requires Valid()
      ensures data == Records(names, Shown())
    {
      data := [];
      ghost var shown := Shown();
      for i := 0 to |modes|
        invariant data == Records(names[..i], shown[..i])
      {
        RecordsAppend(names, shown, i);
        var row := StoreRow(i);
        assert row == Windows(shown[i]);
        data := data + (NameHeader(names[i]) + row);
      }
      assert names[..|modes|] == names && shown[..|modes|] == shown;
    }

    method Store() returns (file: seq<Byte>)
      requires Valid()
      ensures file == Header(LENG, |modes|, timepoint[SHORT]) + Records(names, Shown())
    {
      file := Header(LENG, |modes|, timepoint[SHORT]);
      var records := StoreRecords();
      file := file + records;
    }

    /** One table; a file that ends too early leaves it alone. */
    method LoadTableInto(j: nat, k: nat, s: seq<Byte>, fleng: Word) returns (ok: bool, rest: seq<Byte>)
      requires Valid() && j < |modes| && k < RANGES
      modifies series
      ensures Valid()
      ensures var t := LoadTab(s, fleng, old(TableRow(j))[k]);
              && ok == t.ok && rest == (if ok then t.rest else [])
              && TableRow(j) == (if ok then old(TableRow(j))[k := t.tab] else old(TableRow(j)))
      ensures forall i, r | 0 <= i < |modes| && 0 <= r < RANGES && i != j :: series[i, r] == old(series[i, r])
    {
      var t := ReadTable(s, fleng, series[j, k]);
      if !t.ok {
        return false, [];
      }
      series[j, k] := t.tab;
      ok, rest := true, t.rest;
    }

    /** The tables of one statistic, as far as the file goes. */
    method LoadRowInto(j: nat, s: seq<Byte>, fleng: Word) returns (ok: bool, rest: seq<Byte>)
      requires Valid() && j < |modes|
      modifies series
      ensures Valid()
      ensures LoadRow(s, fleng, old(TableRow(j)), 0) == RowResult(ok, TableRow(j), rest)
      ensures forall i, r | 0 <= i < |modes| && 0 <= r < RANGES && i != j :: series[i, r] == old(series[i, r])
    {
      rest := s;
      for k := 0 to RANGES
        invariant Valid()
        invariant LoadRow(rest, fleng, TableRow(j), k) == LoadRow(s, fleng, old(TableRow(j)), 0)
        invariant forall i, r | 0 <= i < |modes| && 0 <= r < RANGES && i != j :: series[i, r] == old(series[i, r])
      {
        RowNext(rest, fleng, TableRow(j), k);
        ok, rest := LoadTableInto(j, k, rest, fleng);
        if !ok {
          return;
        }
      }
      ok := true;
    }

    /** The clock and the tables are read from a file of this format; other files change
        nothing. */
    method Load(file: seq<Byte>)
      requires Valid()
      modifies series, pointers, timepoint
      ensures Valid()
      ensures |file| < 16 || Get32(file) != FILE_VERSION
              ==> Tables() == old(Tables()) && pointers[..] == old(pointers[..])
                  && timepoint[..] == old(timepoint[..])
      ensures |file| >= 16 && Get32(file) == FILE_VERSION
              ==> && (forall r | 0 <= r < RANGES :: pointers[r] == LENG - 1)
                  && timepoint[SHORT] == Get32(file[12..])
                  && Tables() == LoadRecords(file[16..], Get32(file[4..]), Get32(file[8..]), names, old(Tables()))
    {
      if |file| < 16 || Get32(file) != FILE_VERSION {
        return;
      }
      var fleng, fcharts := Get32(file[4..]), Get32(file[8..]);
      timepoint[SHORT] := Get32(file[12..]);
      ResetPointers();
      LoadTables(file[16..], fleng, fcharts);
    }

    method ResetPointers()
      requires Valid()
      modifies pointers
      ensures Valid() && Tables() == old(Tables())
      ensures forall r | 0 <= r < RANGES :: pointers[r] == LENG - 1
    {
      pointers[0] := LENG - 1;
      pointers[1] := LENG - 1;
      pointers[2] := LENG - 1;
      pointers[3] := LENG - 1;
      assert forall j | 0 <= j < |modes| :: TableRow(j) == old(TableRow(j));
    }

    method LoadTables(file: seq<Byte>, fleng: Word, fcharts: Word)
      requires Valid()
      modifies series
      ensures Valid()
      ensures Tables() == LoadRecords(file, fleng, fcharts, names, old(Tables()))
    {
      var rest := file;
      for i := 0 to fcharts
        invariant Valid()
        invariant LoadRecords(rest, fleng, fcharts - i, names, Tables())
               == LoadRecords(file, fleng, fcharts, names, old(Tables()))
      {
        if |rest| < NAME_SIZE {
          return;
        }
        var j := Lookup(names, CString(rest[..NAME_SIZE]));
        rest := rest[NAME_SIZE..];
        if j == |names| {
          rest := Skip(rest, RecordSize(fleng));
        } else {
          label before:
          var ok;
          ok, rest := LoadRowInto(j, rest, fleng);
          RowChanged@before(j);
          if !ok {
            return;
          }
        }
      }
    }

    /** Only one row differs. */
    twostate lemma RowChanged(j: nat)
      requires old(Valid()) && Valid() && j < |modes|
      requires forall i, r | 0 <= i < |modes| && 0 <= r < RANGES && i != j :: series[i, r] == old(series[i, r])
      ensures Tables() == old(Tables())[j := TableRow(j)]
    {
    }

    /** The clocks follow from the shortest one, or from the wall clock if that is zero. All
        four are what they were, as far as that is the floor of the shortest, exactly if the
        shortest is a minute of local time and not zero; or is zero in the first minute. */
    method InitTimePointers(wall: Local)
      requires Shaped()
      modifies timepoint
      ensures old(timepoint[SHORT]) <= LAST_MINUTE ==> Synchronous()
      ensures (forall r | 0 <= r < RANGES :: timepoint[r] == old(timepoint[SHORT]) / Factor(r))
         <==> ClockSurvives(old(timepoint[SHORT]), wall)
    {
      var minutes := timepoint[SHORT];
      var local := if minutes == 0 then wall else SavedTime(minutes);
      for r := 0 to RANGES
        invariant forall q | 0 <= q < r :: timepoint[q] == SignedBucket(local, q)
      {
        timepoint[r] := SignedBucket(local, r);
      }
      StartedClocks(minutes, wall, local);
    }

    /** What is sent of one ring: the time of its newest bucket, and its window. */
    method MakeData(number: nat) returns (data: seq<Byte>)
      requires Valid()
      ensures number % 10 < RANGES && number / 10 < |modes|
              ==> var r := number % 10;
                  data == Put32(timepoint[r] * Period(r) % 0x1_0000_0000)
                          + Put64s(Window(series[number / 10, r], pointers[r]))
      ensures !(number % 10 < RANGES && number / 10 < |modes|) ==> data == []
    {
      var j, r := number / 10, number % 10;
      if r >= RANGES || j >= |modes| {
        return [];
      }
      var time := timepoint[r] * Period(r) % 0x1_0000_0000;
      var window := PutWindow(series[j, r], pointers[r]);
      data := Put32(time) + window;
    }

    /** A run of calls: every ring goes through the run of its own samples. */
    method Replay(calls: seq<Input>)
      requires Valid() && GoodInputs(calls, |modes|)
      modifies series, pointers, timepoint
      ensures Valid() && (old(Synchronous()) && old(timepoint[SHORT]) <= HALF ==> Synchronous())
      ensures old(timepoint[SHORT]) <= LAST_MINUTE ==> timepoint[SHORT] <= LAST_MINUTE
      ensures forall j, r | 0 <= j < |modes| && 0 <= r < RANGES ::
                RingOf(j, r) == Run(old(RingOf(j, r)), CallsOf(calls, j), Period(r), modes[j])
    {
      for i := 0 to |calls|
        invariant Valid()
        invariant old(Synchronous()) && old(timepoint[SHORT]) <= HALF ==> Synchronous() && timepoint[SHORT] <= HALF
        invariant old(timepoint[SHORT]) <= LAST_MINUTE ==> timepoint[SHORT] <= LAST_MINUTE
        invariant forall j, r | 0 <= j < |modes| && 0 <= r < RANGES ::
                    RingOf(j, r) == Run(old(RingOf(j, r)), CallsOf(calls[..i], j), Period(r), modes[j])
      {
        label before:
        AddSamples(calls[i].local, calls[i].data);
        forall j, r | 0 <= j < |modes| && 0 <= r < RANGES
          ensures RingOf(j, r) == Run(old(RingOf(j, r)), CallsOf(calls[..i + 1], j), Period(r), modes[j])
        {
          NextRing(old(RingOf(j, r)), calls, i, j, |modes|, Period(r), modes[j]);
        }
      }
      assert calls[..|calls|] == calls;
    }
  }

  lemma ClocksStep(short: Word, clock: Word, local: Local, r: nat)
    requires r < RANGES && short <= HALF && clock == short / Factor(r)
    ensures Clocked(clock, local / Period(r)) == Clocked(short, local / Period(SHORT)) / Factor(r)
  {
    DivideLess(short, Factor(r));
    NearBucket(clock, local, Period(r));
    NearBucket(short, local, Period(SHORT));
    NearTimes(local / Period(r), clock);
    NearTimes(local / Period(SHORT), short);
    DivideTwice(local, Period(SHORT), Factor(r));
    ClockStep(short, clock, local / Period(SHORT), local / Period(r), Factor(r));
  }

  /** The saved clock is taken as it is. */
  predicate ClockSurvives(minutes: Word, wall: Local) {
    if minutes == 0 then wall < 60 else minutes <= LAST_MINUTE
  }

  lemma StartedClocks(minutes: Word, wall: Local, local: int)
    requires local == if minutes == 0 then wall else SavedTime(minutes)
    ensures (forall r | 0 <= r < RANGES :: SignedBucket(local, r) == minutes / Factor(r))
       <==> ClockSurvives(minutes, wall)
    ensures minutes <= LAST_MINUTE
            ==> forall r | 0 <= r < RANGES :: SignedBucket(local, r) == SignedBucket(local, SHORT) / Factor(r)
  {
    if minutes > LAST_MINUTE {
      LargeMinutes(minutes);
    } else {
      SmallMinutes(minutes);
      forall r | 0 <= r < RANGES
        ensures SignedBucket(local, r) == SignedBucket(local, SHORT) / Factor(r)
      {
        DivideTwice(local, Period(SHORT), Factor(r));
      }
      assert SignedBucket(local, SHORT) == local / 60;
      assert Factor(SHORT) == 1;
    }
  }

  /** The arguments of one call. */
  datatype Input = Input(local: Local, data: Option<seq<Long>>)

  predicate GoodInputs(calls: seq<Input>, stats: nat) {
    forall i | 0 <= i < |calls| :: calls[i].data.Some? ==> |calls[i].data.value| == stats
  }

  function CallOf(c: Input, j: nat): Call
    requires c.data.Some? ==> j < |c.data.value|
  {
    Call(c.local, SampleOf(c.data, j))
  }

  /** The calls as one statistic sees them. */
  function CallsOf(calls: seq<Input>, j: nat): (r: seq<Call>)
    requires forall i | 0 <= i < |calls| :: calls[i].data.Some? ==> j < |calls[i].data.value|
    ensures |r| == |calls|
  {
    seq(|calls|, i requires 0 <= i < |calls| => CallOf(calls[i], j))
  }

  lemma NextCall(calls: seq<Input>, i: nat, j: nat, stats: nat)
    requires i < |calls| && j < stats && GoodInputs(calls, stats)
    ensures CallsOf(calls[..i + 1], j) == CallsOf(calls[..i], j) + [CallOf(calls[i], j)]
  {
  }

  lemma NextRing(r: Ring, calls: seq<Input>, i: nat, j: nat, stats: nat, period: nat, mode: Mode)
    requires i < |calls| && j < stats && GoodInputs(calls, stats) && IsRing(r) && period > 0
    ensures Run(r, CallsOf(calls[..i + 1], j), period, mode)
         == AddCall(Run(r, CallsOf(calls[..i], j), period, mode), CallOf(calls[i], j), period, mode)
  {
    var before, c := CallsOf(calls[..i], j), CallOf(calls[i], j);
    assert CallsOf(calls[..i + 1], j) == before + [c] by {
      NextCall(calls, i, j, stats);
    }
    RunNext(r, before, c, period, mode);
  }

  lemma RunNext(r: Ring, calls: seq<Call>, c: Call, period: nat, mode: Mode)
    requires IsRing(r) && period > 0
    ensures Run(r, calls + [c], period, mode) == AddCall(Run(r, calls, period, mode), c, period, mode)
  {
  }

  /** All samples that one ring is given. */
  ghost function History(calls: seq<Input>, j: nat, r: nat): seq<Sample>
    requires r < RANGES && forall i | 0 <= i < |calls| :: calls[i].data.Some? ==> j < |calls[i].data.value|
  {
    Samples(CallsOf(calls, j), Period(r))
  }

  /** Every ring of the charts holds a history of its own. */
  ghost predicate Holds(charts: Charts, h: (nat, nat) -> seq<Sample>)
    requires charts.Valid()
    reads charts.series, charts.pointers, charts.timepoint
  {
    forall j, r | 0 <= j < |charts.modes| && 0 <= r < RANGES ::
      Represents(charts.RingOf(j, r), h(j, r), charts.modes[j])
  }

  /** Charts that were empty and have gone through any calls: every slot in the window of
      every range says the sum or the maximum of all samples ever added for its bucket,
      exactly if that is less than the number for missing data. */
  method Collect(names: seq<seq<Byte>>, modes: seq<Mode>, local: Local, calls: seq<Input>)
    returns (charts: Charts)
    requires |names| == |modes| < 0x1_0000_0000 && GoodInputs(calls, |modes|)
    ensures fresh(charts) && charts.Valid() && charts.names == names && charts.modes == modes
    ensures charts.Synchronous() && charts.timepoint[SHORT] <= LAST_MINUTE
    ensures forall j, r | 0 <= j < |modes| && 0 <= r < RANGES ::
              && Represents(charts.RingOf(j, r), History(calls, j, r), modes[j])
              && Shows(charts.RingOf(j, r), History(calls, j, r), modes[j])
  {
    charts := new Charts(names, modes, local);
    charts.Replay(calls);
    forall j, r | 0 <= j < |modes| && 0 <= r < RANGES
      ensures Represents(charts.RingOf(j, r), History(calls, j, r), modes[j])
      ensures Shows(charts.RingOf(j, r), History(calls, j, r), modes[j])
    {
      Started(local / Period(r), CallsOf(calls, j), Period(r), modes[j]);
    }
  }

  lemma Started(clock: nat, calls: seq<Call>, period: nat, mode: Mode)
    requires period > 0 && Timely(clock, calls)
    ensures Represents(Run(Empty(clock), calls, period, mode), Samples(calls, period), mode)
    ensures Shows(Run(Empty(clock), calls, period, mode), Samples(calls, period), mode)
  {
    assert Represents(Empty(clock), [], mode);
    RunRepresents(Empty(clock), [], calls, period, mode);
    assert [] + Samples(calls, period) == Samples(calls, period);
    RunShows(clock, calls, period, mode);
  }

  // ----- restart ---------------------------------------------------------------------------------

  lemma HeaderComesBack(leng: Word, charts: Word, clock: Word, rest: seq<Byte>)
    ensures var file := Header(leng, charts, clock) + rest;
            && |file| >= 16 && Get32(file) == FILE_VERSION
            && Get32(file[4..]) == leng && Get32(file[8..]) == charts && Get32(file[12..]) == clock
            && file[16..] == rest
  {
    var file := Header(leng, charts, clock) + rest;
    GetPut32(FILE_VERSION, file[4..]);
    GetPut32(leng, file[8..]);
    GetPut32(charts, file[12..]);
    GetPut32(clock, rest);
    assert file == Put32(FILE_VERSION) + file[4..];
    assert file[4..] == Put32(leng) + file[8..];
    assert file[8..] == Put32(charts) + file[12..];
    assert file[12..] == Put32(clock) + rest;
  }

  /** Charts from a file that was stored. */
  method Restore(names: seq<seq<Byte>>, modes: seq<Mode>, file: seq<Byte>, ghost shown: seq<Row>, ghost clock: Word)
    returns (restored: Charts)
    requires |names| == |modes| == |shown| < 0x1_0000_0000 && GoodNames(names)
    requires forall j | 0 <= j < |shown| :: IsRow(shown[j])
    requires file == Header(LENG, |modes|, clock) + Records(names, shown)
    ensures fresh(restored) && restored.Valid()
    ensures fresh(restored.series) && fresh(restored.pointers) && fresh(restored.timepoint)
    ensures restored.names == names && restored.modes == modes
    ensures restored.Shown() == shown && restored.timepoint[SHORT] == clock
  {
    restored := new Charts(names, modes, 0);
    HeaderComesBack(LENG, |modes|, clock, Records(names, shown));
    AllComeBack(names, shown, restored.Tables(), LENG);
    restored.Load(file);
    SameShown(restored, shown);
  }

  /** Storing the charts, and loading them into new ones after a restart, brings back every
      window of every statistic. All four clocks come back exactly if the stored one is a
      minute of local time and not zero, or is zero in the first minute of all time. */
  method Restart(charts: Charts, wall: Local) returns (restored: Charts)
    requires charts.Valid() && charts.Synchronous() && GoodNames(charts.names)
    ensures fresh(restored) && restored.Valid()
    ensures fresh(restored.series) && fresh(restored.pointers) && fresh(restored.timepoint)
    ensures restored.names == charts.names && restored.modes == charts.modes
    ensures restored.Shown() == charts.Shown()
    ensures (forall r | 0 <= r < RANGES :: restored.timepoint[r] == charts.timepoint[r])
       <==> ClockSurvives(charts.timepoint[SHORT], wall)
    ensures charts.timepoint[SHORT] <= LAST_MINUTE ==> restored.Synchronous()
  {
    var file := charts.Store();
    restored := Restore(charts.names, charts.modes, file, charts.Shown(), charts.timepoint[SHORT]);
    restored.InitTimePointers(wall);
  }

  /** Charts with the same windows and the same clocks hold the same histories. */
  lemma SameHistory(a: Ring, b: Ring, h: seq<Sample>, mode: Mode)
    requires Represents(a, h, mode) && IsRing(b) && b.clock == a.clock
    requires Window(a.tab, a.ptr) == Window(b.tab, b.ptr)
    ensures Represents(b, h, mode)
  {
    forall age | 0 <= age < LENG
      ensures Aged(b, age) == Aged(a, age)
    {
      AgedInWindow(a, age);
      AgedInWindow(b, age);
    }
  }

  lemma AgedInWindow(r: Ring, age: nat)
    requires IsRing(r) && age < LENG
    ensures Aged(r, age) == Window(r.tab, r.ptr)[LENG - 1 - age]
  {
  }

  /** A restart whose clocks survive loses nothing: after it, and after any further calls,
      every ring holds its old history and then the new samples. */
  method Resume(charts: Charts, wall: Local, calls: seq<Input>, ghost h: (nat, nat) -> seq<Sample>)
    returns (restored: Charts)
    requires charts.Valid() && charts.Synchronous() && GoodNames(charts.names)
    requires GoodInputs(calls, |charts.modes|) && Holds(charts, h)
    requires ClockSurvives(charts.timepoint[SHORT], wall)
    ensures fresh(restored) && restored.Valid() && restored.Synchronous() && restored.modes == charts.modes
    ensures forall j, r | 0 <= j < |charts.modes| && 0 <= r < RANGES ::
              Represents(restored.RingOf(j, r), h(j, r) + History(calls, j, r), charts.modes[j])
  {
    restored := Restart(charts, wall);
    Restored(charts, restored, h);
    label before:
    restored.Replay(calls);
    forall j, r | 0 <= j < |charts.modes| && 0 <= r < RANGES
      ensures Represents(restored.RingOf(j, r), h(j, r) + History(calls, j, r), charts.modes[j])
    {
      RunRepresents(old@before(restored.RingOf(j, r)), h(j, r), CallsOf(calls, j), Period(r), charts.modes[j]);
    }
  }

  lemma Restored(charts: Charts, restored: Charts, h: (nat, nat) -> seq<Sample>)
    requires charts.Valid() && restored.Valid() && restored.modes == charts.modes && Holds(charts, h)
    requires restored.Shown() == charts.Shown()
    requires forall r | 0 <= r < RANGES :: restored.timepoint[r] == charts.timepoint[r]
    ensures Holds(restored, h)
  {
    forall j, r | 0 <= j < |charts.modes| && 0 <= r < RANGES
      ensures Represents(restored.RingOf(j, r), h(j, r), charts.modes[j])
    {
      assert restored.Shown()[j] == charts.Shown()[j];
      assert restored.WindowRow(j)[r] == charts.WindowRow(j)[r];
      SameHistory(charts.RingOf(j, r), restored.RingOf(j, r), h(j, r), charts.modes[j]);
    }
  }

  lemma AllComeBack(names: seq<seq<Byte>>, rows: seq<Row>, now: seq<Row>, leng: Word)
    requires GoodNames(names) && |names| == |rows| == |now| && leng == LENG
    requires forall j | 0 <= j < |rows| :: IsRow(rows[j]) && IsRow(now[j])
    ensures LoadRecords(Records(names, rows), leng, |names|, names, now) == rows
  {
    assert names[0..] == names && rows[0..] == rows;
    RecordsComeBack(names, rows, now, 0, leng, |names|);
  }

  lemma WholeWindow(tab: Tab)
    requires |tab| == LENG
    ensures Window(tab, LENG - 1) == tab
  {
  }

  lemma SameShown(c: Charts, shown: seq<Row>)
    requires c.Valid() && c.Tables() == shown && forall r | 0 <= r < RANGES :: c.pointers[r] == LENG - 1
    ensures c.Shown() == shown
  {
    forall j | 0 <= j < |c.modes|
      ensures c.WindowRow(j) == c.TableRow(j)
    {
      WholeWindow(c.series[j, 0]);
      WholeWindow(c.series[j, 1]);
      WholeWindow(c.series[j, 2]);
      WholeWindow(c.series[j, 3]);
    }
    assert c.Shown() == c.Tables();
  }

  lemma RowNext(s: seq<Byte>, fleng: Word, row: Row, k: nat)
    requires IsRow(row) && k < RANGES
    ensures var t := LoadTab(s, fleng, row[k]);
            LoadRow(s, fleng, row, k)
            == if t.ok then LoadRow(t.rest, fleng, row[k := t.tab], k + 1) else RowResult(false, row, [])
  {
  }

  lemma {:induction false} WindowsAppend(row: Row, r: nat)
    requires r < |row|
    ensures Windows(row[..r + 1]) == Windows(row[..r]) + Put64s(row[r])
    decreases r
  {
    if r == 0 {
      assert row[..1][1..] == [] && Windows([]) == [];
      assert Put64s(row[0]) + [] == [] + Put64s(row[0]);
    } else {
      assert row[..r + 1][1..] == row[1..][..r] && row[..r][1..] == row[1..][..r - 1];
      WindowsAppend(row[1..], r - 1);
    }
  }

  lemma {:induction false} RecordsAppend(names: seq<seq<Byte>>, rows: seq<Row>, i: nat)
    requires |names| == |rows| && i < |names|
    ensures Records(names[..i + 1], rows[..i + 1])
         == Records(names[..i], rows[..i]) + (NameHeader(names[i]) + Windows(rows[i]))
    decreases i
  {
    if i == 0 {
      assert names[..1][1..] == [] && rows[..1][1..] == [];
    } else {
      assert names[..i + 1][1..] == names[1..][..i] && names[..i][1..] == names[1..][..i - 1];
      assert rows[..i + 1][1..] == rows[1..][..i] && rows[..i][1..] == rows[1..][..i - 1];
      RecordsAppend(names[1..], rows[1..], i - 1);
    }
  }
}
