/** Captured files: records, the loss report over neighbouring records, and the split of errors
    at buffer boundaries. */
module LfsrReport {
  import opened Words
  import opened Lfsr

  type Byte = bv8

  const WORD_SIZE := 32
  const SEARCH_STEPS := 64

  datatype Sample = Sample(lfsr: Word, counter: nat, sin: int, cos: int)

  /** Little-endian fields of a record. */
  function Le16(s: seq<Byte>, at: nat): (r: nat)
    requires at + 2 <= |s|
    ensures r < 0x1_0000
  {
    var lo: nat, hi: nat := s[at] as nat, s[at + 1] as nat;
    lo + 0x100 * hi
  }

  function Le32(s: seq<Byte>, at: nat): (r: nat)
    requires at + 4 <= |s|
    ensures r < 0x1_0000_0000
  {
    Le16(s, at) + 0x1_0000 * Le16(s, at + 2)
  }

  function Word32(s: seq<Byte>, at: nat): Word
    requires at + 4 <= |s|
  {
    Word((s[at] as bv32) | ((s[at + 1] as bv32) << 8) | ((s[at + 2] as bv32) << 16) | ((s[at + 3] as bv32) << 24))
  }

  /** _u32_to_signed: only values above 2^30 are taken as negative. */
  function Signed(value: nat): int {
    if value == 0x4000_0000 then value
    else if value > 0x4000_0000 then value - 0x1_0000_0000
    else value
  }

  /** The signed value is the word modulo 2^32, from a window of 2^32 values; it is the two's
      complement value exactly up to 2^30 and from 2^31 on. */
  lemma SignedFaithful(value: nat)
    requires value < 0x1_0000_0000
    ensures U32(Signed(value)) == value && -0xC000_0000 < Signed(value) <= 0x4000_0000
    ensures Signed(value) == (if value < 0x8000_0000 then value else value - 0x1_0000_0000) <==>
              value <= 0x4000_0000 || value >= 0x8000_0000
  {
  }

  /** decode_sample. */
  function Decode(chunk: seq<Byte>): (r: Sample)
    requires |chunk| == 32
    ensures r.counter < 0x1_0000
  {
    Sample(Word32(chunk, 0), Le16(chunk, 14), Signed(Le32(chunk, 16)), Signed(Le32(chunk, 20)))
  }

  /** The bytes of the fields: the register is at 0, the counter at 14, sine at 16 and cosine at 20,
      all little-endian. The signed fields are the values of their words modulo 2^32 in (-3 * 2^30, 2^30]. */
  lemma DecodeBytes(chunk: seq<Byte>)
    requires |chunk| == 32
    ensures var w := Decode(chunk).lfsr.bits;
            && w & 0xFF == chunk[0] as bv32 && (w >> 8) & 0xFF == chunk[1] as bv32
            && (w >> 16) & 0xFF == chunk[2] as bv32 && (w >> 24) & 0xFF == chunk[3] as bv32
    ensures Decode(chunk).counter == chunk[14] as nat + 0x100 * chunk[15] as nat
    ensures var sin, cos := Decode(chunk).sin, Decode(chunk).cos;
            && -0xC000_0000 < sin <= 0x4000_0000 && -0xC000_0000 < cos <= 0x4000_0000
            && U32(sin) == chunk[16] as nat + 0x100 * chunk[17] as nat
                           + 0x1_0000 * chunk[18] as nat + 0x100_0000 * chunk[19] as nat
            && U32(cos) == chunk[20] as nat + 0x100 * chunk[21] as nat
                           + 0x1_0000 * chunk[22] as nat + 0x100_0000 * chunk[23] as nat
  {
    hide Le16, Le32, Word32, Signed;
    WordBytes(chunk, 0);
    HalfBytes(chunk, 14);
    FullBytes(chunk, 16);
    FullBytes(chunk, 20);
    SignedFaithful(Le32(chunk, 16));
    SignedFaithful(Le32(chunk, 20));
  }

  lemma WordBytes(s: seq<Byte>, at: nat)
    requires at + 4 <= |s|
    ensures var w := Word32(s, at).bits;
            && w & 0xFF == s[at] as bv32 && (w >> 8) & 0xFF == s[at + 1] as bv32
            && (w >> 16) & 0xFF == s[at + 2] as bv32 && (w >> 24) & 0xFF == s[at + 3] as bv32
  {
    FourBytes(s[at], s[at + 1], s[at + 2], s[at + 3]);
  }

  lemma FourBytes(a: bv8, b: bv8, c: bv8, d: bv8)
    ensures var w := (a as bv32) | ((b as bv32) << 8) | ((c as bv32) << 16) | ((d as bv32) << 24);
            && w & 0xFF == a as bv32 && (w >> 8) & 0xFF == b as bv32
            && (w >> 16) & 0xFF == c as bv32 && (w >> 24) & 0xFF == d as bv32
  {
  }

  lemma HalfBytes(s: seq<Byte>, at: nat)
    requires at + 2 <= |s|
    ensures Le16(s, at) == s[at] as nat + 0x100 * s[at + 1] as nat
  {
  }

  lemma FullBytes(s: seq<Byte>, at: nat)
    requires at + 4 <= |s|
    ensures Le32(s, at) == s[at] as nat + 0x100 * s[at + 1] as nat
                           + 0x1_0000 * s[at + 2] as nat + 0x100_0000 * s[at + 3] as nat
  {
    hide Le16;
    HalfBytes(s, at);
    HalfBytes(s, at + 2);
  }

  function Record(data: seq<Byte>, i: nat): seq<Byte>
    requires 32 * i + 32 <= |data|
  {
    data[32 * i..32 * i + 32]
  }

  /** The whole records of a file. */
  function Samples(data: seq<Byte>): (r: seq<Sample>)
    ensures |r| == |data| / 32
  {
    seq(|data| / 32, i requires 0 <= i < |data| / 32 => Decode(Record(data, i)))
  }

  function Values(s: seq<Sample>): (r: seq<Word>)
    ensures |r| == |s|
  {
    seq(|s|, i requires 0 <= i < |s| => s[i].lfsr)
  }

  /** The 16-bit and 32-bit little-endian words that start at byte `at` of a file. */
  function FileWord16(data: seq<Byte>, at: nat): nat
    requires at + 2 <= |data|
  {
    data[at] as nat + 0x100 * data[at + 1] as nat
  }

  function FileWord32(data: seq<Byte>, at: nat): nat
    requires at + 4 <= |data|
  {
    data[at] as nat + 0x100 * data[at + 1] as nat + 0x1_0000 * data[at + 2] as nat + 0x100_0000 * data[at + 3] as nat
  }

  /** A register value with these four bytes, lowest first. */
  predicate RegisterAt(data: seq<Byte>, at: nat, w: bv32)
    requires at + 4 <= |data|
  {
    && w & 0xFF == data[at] as bv32 && (w >> 8) & 0xFF == data[at + 1] as bv32
    && (w >> 16) & 0xFF == data[at + 2] as bv32 && (w >> 24) & 0xFF == data[at + 3] as bv32
  }

  lemma SampleBytes(data: seq<Byte>, i: nat)
    requires 32 * i + 32 <= |data|
    ensures i < |Samples(data)|
    ensures var s := Samples(data)[i];
            && RegisterAt(data, 32 * i, s.lfsr.bits) && s.counter == FileWord16(data, 32 * i + 14) < 0x1_0000
            && U32(s.sin) == FileWord32(data, 32 * i + 16) && -0xC000_0000 < s.sin <= 0x4000_0000
            && U32(s.cos) == FileWord32(data, 32 * i + 20) && -0xC000_0000 < s.cos <= 0x4000_0000
  {
    hide Decode, U32;
    SampleAt(data, i);
    DecodeBytes(data[32 * i..32 * i + 32]);
  }

  /** parse_bytes: entry i of each list is the field of record i, byte for byte. */
  method ParseBytes(data: seq<Byte>)
    returns (lfsrValues: seq<Word>, sinValues: seq<int>, cosValues: seq<int>, counterValues: seq<nat>)
    ensures lfsrValues == Values(Samples(data))
    ensures |sinValues| == |cosValues| == |counterValues| == |data| / 32
    ensures forall i :: 0 <= i < |data| / 32 ==>
              Samples(data)[i] == Sample(lfsrValues[i], counterValues[i], sinValues[i], cosValues[i])
    ensures forall i :: 0 <= i < |data| / 32 ==> RegisterAt(data, 32 * i, lfsrValues[i].bits)
    ensures forall i :: 0 <= i < |data| / 32 ==>
              counterValues[i] == data[32 * i + 14] as nat + 0x100 * data[32 * i + 15] as nat
    ensures forall i :: 0 <= i < |data| / 32 ==>
              U32(sinValues[i]) == FileWord32(data, 32 * i + 16) && -0xC000_0000 < sinValues[i] <= 0x4000_0000
    ensures forall i :: 0 <= i < |data| / 32 ==>
              U32(cosValues[i]) == FileWord32(data, 32 * i + 20) && -0xC000_0000 < cosValues[i] <= 0x4000_0000
  {
    hide Decode, RegisterAt, U32, FileWord32;
    lfsrValues, sinValues, cosValues, counterValues := [], [], [], [];
    var usableLen := |data| - |data| % WORD_SIZE;
    var offset: nat := 0;
    while offset < usableLen
      invariant offset % 32 == 0 && offset <= usableLen
      invariant |lfsrValues| == |sinValues| == |cosValues| == |counterValues| == offset / 32
      invariant forall i :: 0 <= i < offset / 32 ==>
                  Samples(data)[i] == Sample(lfsrValues[i], counterValues[i], sinValues[i], cosValues[i])
    {
      var s := Decode(data[offset..offset + WORD_SIZE]);
      assert Samples(data)[offset / 32] == s;
      lfsrValues, sinValues := lfsrValues + [s.lfsr], sinValues + [s.sin];
      cosValues, counterValues := cosValues + [s.cos], counterValues + [s.counter];
      offset := offset + WORD_SIZE;
    }
    forall i | 0 <= i < |data| / 32
      ensures RegisterAt(data, 32 * i, lfsrValues[i].bits)
      ensures counterValues[i] == data[32 * i + 14] as nat + 0x100 * data[32 * i + 15] as nat
      ensures U32(sinValues[i]) == FileWord32(data, 32 * i + 16) && -0xC000_0000 < sinValues[i] <= 0x4000_0000
      ensures U32(cosValues[i]) == FileWord32(data, 32 * i + 20) && -0xC000_0000 < cosValues[i] <= 0x4000_0000
    {
      SampleBytes(data, i);
    }
  }

  // ---------------------------------------------------------------- the loss report

  datatype Row = Row(errorNumber: nat, currentIndex: nat, nextIndex: nat, currentOffset: nat, nextOffset: nat,
                     counterCurrent: nat, counterNext: nat, counterDelta: nat, counterMissing: Option<nat>,
                     lfsrCurrent: Word, lfsrExpected: Word, lfsrReceived: Word,
                     lfsrSteps: Option<nat>, lfsrMissing: Option<nat>, atBoundary: bool)

  function Delta(a: Sample, b: Sample): nat { (b.counter - a.counter) % 0x1_0000 }

  predicate CounterError(a: Sample, b: Sample) { Delta(a, b) != 1 }

  predicate Bad(a: Sample, b: Sample) { CounterError(a, b) || b.lfsr != Next(a.lfsr) }

  /** A row describes the transition from record i to the next. */
  ghost predicate RowFor(row: Row, a: Sample, b: Sample, i: nat, number: nat) {
    && row.errorNumber == number && row.currentIndex == i && row.nextIndex == i + 1
    && row.currentOffset == 32 * i && row.nextOffset == 32 * (i + 1)
    && row.atBoundary == ((32 * (i + 1)) % 4096 == 0)
    && row.counterCurrent == a.counter && row.counterNext == b.counter && row.counterDelta == Delta(a, b)
    && row.counterMissing == (if 1 < Delta(a, b) < 0x8000 then Some(Delta(a, b) - 1) else None)
    && row.lfsrCurrent == a.lfsr && row.lfsrExpected == Next(a.lfsr) && row.lfsrReceived == b.lfsr
    && LeastSteps(a.lfsr, b.lfsr, SEARCH_STEPS, row.lfsrSteps)
    && row.lfsrMissing == (if row.lfsrSteps.Some? && row.lfsrSteps.value > 0 then Some(row.lfsrSteps.value - 1)
                           else None)
  }

  predicate Agrees(row: Row) { row.counterMissing.Some? && row.counterMissing == row.lfsrMissing }

  predicate BadAt(s: seq<Sample>, i: nat) { i + 1 < |s| && Bad(s[i], s[i + 1]) }

  predicate CounterBadAt(s: seq<Sample>, i: nat) { i + 1 < |s| && CounterError(s[i], s[i + 1]) }

  /** The bad transitions among the first n, in order. */
  function BadOnes(s: seq<Sample>, n: nat): seq<nat> {
    if n == 0 then [] else BadOnes(s, n - 1) + if BadAt(s, n - 1) then [n - 1] else []
  }

  lemma {:induction false} BadOnesMeaning(s: seq<Sample>, n: nat)
    ensures forall i: nat :: i in BadOnes(s, n) <==> i < n && BadAt(s, i)
    ensures forall p, q :: 0 <= p < q < |BadOnes(s, n)| ==> BadOnes(s, n)[p] < BadOnes(s, n)[q]
    decreases n
  {
    hide BadAt;
    if n > 0 {
      BadOnesMeaning(s, n - 1);
      var before, now := BadOnes(s, n - 1), BadOnes(s, n);
      forall p, q | 0 <= p < q < |now|
        ensures now[p] < now[q]
      {
        assert before[p] in before;
      }
    }
  }

  ghost function CounterBreaks(s: seq<Sample>, n: nat): set<nat> {
    set i: nat | i < n && CounterBadAt(s, i)
  }

  ghost function Agreeing(rows: seq<Row>): set<nat> {
    set p: nat | p < |rows| && Agrees(rows[p])
  }

  /** The totals of the report. */
  datatype Totals = Totals(errors: nat, counterErrors: nat, lfsrErrors: nat, matching: nat, samples: nat)

  /** The report over the first n transitions. */
  ghost predicate Reported(s: seq<Sample>, n: nat, rows: seq<Row>, t: Totals) {
    && t.samples == n + 1
    && t.errors == |rows| && RowsDescribe(s, n, rows)
    && t.counterErrors == |CounterBreaks(s, n)|
    && t.lfsrErrors == |BreaksBefore(Values(s), TAPS, n)|
    && t.matching == |Agreeing(rows)|
  }

  /** One row for each bad transition, in order. */
  ghost predicate RowsDescribe(s: seq<Sample>, n: nat, rows: seq<Row>) {
    |rows| == |BadOnes(s, n)| && forall p :: 0 <= p < |rows| ==> RowOf(s, n, rows, p)
  }

  ghost predicate RowOf(s: seq<Sample>, n: nat, rows: seq<Row>, p: nat)
    requires p < |rows| == |BadOnes(s, n)|
  {
    var i := BadOnes(s, n)[p];
    i + 1 < |s| && RowFor(rows[p], s[i], s[i + 1], i, p + 1)
  }

  /** The row of one bad transition. */
  method MakeRow(previous: Sample, current: Sample, sampleCount: nat, number: nat) returns (row: Row)
    requires sampleCount > 0
    ensures RowFor(row, previous, current, sampleCount - 1, number)
  {
    hide NextWith;
    var expected := LfsrNext(previous.lfsr, TAPS);
    var delta := (current.counter - previous.counter) % 0x1_0000;
    var steps := FindLfsrSteps(previous.lfsr, current.lfsr, SEARCH_STEPS);
    var counterMissing := if 1 < delta < 0x8000 then Some(delta - 1) else None;
    var lfsrMissing := if steps.Some? then Some(steps.value - 1) else None;
    var nextOffset := sampleCount * WORD_SIZE;
    row := Row(number, sampleCount - 1, sampleCount, nextOffset - WORD_SIZE, nextOffset,
               previous.counter, current.counter, delta, counterMissing,
               previous.lfsr, expected, current.lfsr, steps, lfsrMissing, nextOffset % 4096 == 0);
  }

  lemma ReportNothing(s: seq<Sample>)
    ensures Reported(s, 0, [], Totals(0, 0, 0, 0, 1))
  {
    NoBreaks(Values(s), TAPS);
    hide NextWith, Bad, CounterError;
    assert CounterBreaks(s, 0) == {} && Agreeing([]) == {};
  }

  lemma CounterBreaksNext(s: seq<Sample>, n: nat)
    ensures CounterBreaks(s, n + 1) == CounterBreaks(s, n) + if CounterBadAt(s, n) then {n} else {}
    ensures n !in CounterBreaks(s, n)
  {
    hide CounterBadAt;
  }

  lemma AgreeingNext(rows: seq<Row>, row: Row)
    ensures Agreeing(rows + [row]) == Agreeing(rows) + if Agrees(row) then {|rows|} else {}
    ensures |rows| !in Agreeing(rows)
  {
    hide Agrees;
    var now := rows + [row];
    assert forall p: nat :: p < |rows| ==> now[p] == rows[p];
  }

  lemma RowsGood(s: seq<Sample>, n: nat, rows: seq<Row>)
    requires RowsDescribe(s, n, rows) && !BadAt(s, n)
    ensures RowsDescribe(s, n + 1, rows)
  {
    hide RowFor, BadAt;
    var n' := n + 1;
    assert BadOnes(s, n') == BadOnes(s, n);
    forall p | 0 <= p < |rows|
      ensures RowOf(s, n', rows, p)
    {
      assert RowOf(s, n, rows, p);
    }
  }

  lemma RowsBad(s: seq<Sample>, n: nat, rows: seq<Row>, row: Row)
    requires RowsDescribe(s, n, rows) && BadAt(s, n) && n + 1 < |s| && RowFor(row, s[n], s[n + 1], n, |rows| + 1)
    ensures RowsDescribe(s, n + 1, rows + [row])
  {
    hide RowFor, BadAt;
    var rows', n' := rows + [row], n + 1;
    assert BadOnes(s, n') == BadOnes(s, n) + [n];
    forall p | 0 <= p < |rows'|
      ensures RowOf(s, n', rows', p)
    {
      if p < |rows| {
        assert RowOf(s, n, rows, p);
      }
    }
  }

  /** One more transition without a row. */
  lemma ReportGood(s: seq<Sample>, n: nat, rows: seq<Row>, t: Totals)
    requires Reported(s, n, rows, t) && n + 1 < |s| && !Bad(s[n], s[n + 1])
    ensures Reported(s, n + 1, rows, t.(samples := t.samples + 1))
  {
    hide RowsDescribe, NextWith, Agreeing, BreaksBefore, CounterBreaks;
    RowsGood(s, n, rows);
    BreaksNext(Values(s), TAPS, n);
    CounterBreaksNext(s, n);
  }

  /** One more transition with its row. */
  lemma ReportBad(s: seq<Sample>, n: nat, rows: seq<Row>, t: Totals, row: Row)
    requires Reported(s, n, rows, t) && n + 1 < |s| && Bad(s[n], s[n + 1])
    requires RowFor(row, s[n], s[n + 1], n, t.errors + 1)
    ensures Reported(s, n + 1, rows + [row],
                     Totals(t.errors + 1, t.counterErrors + if CounterError(s[n], s[n + 1]) then 1 else 0,
                            t.lfsrErrors + if s[n + 1].lfsr != Next(s[n].lfsr) then 1 else 0,
                            t.matching + if Agrees(row) then 1 else 0, t.samples + 1))
  {
    hide RowsDescribe, RowFor, NextWith, Agreeing, BreaksBefore, CounterBreaks, Agrees;
    RowsBad(s, n, rows, row);
    BreaksNext(Values(s), TAPS, n);
    CounterBreaksNext(s, n);
    AgreeingNext(rows, row);
  }

  /** write_skip_report's row generator over a file: records are read one by one, an incomplete
      last record is dropped. */
  method SkipReport(data: seq<Byte>) returns (rows: seq<Row>, t: Totals)
    ensures |data| < 32 ==> rows == [] && t == Totals(0, 0, 0, 0, 0)
    ensures |data| >= 32 ==> t.samples == |data| / 32 && Reported(Samples(data), t.samples - 1, rows, t)
    ensures forall p :: 0 <= p < |rows| ==>
              var i := rows[p].currentIndex;
              && rows[p].nextIndex == i + 1 && 32 * (i + 2) <= |data|
              && rows[p].counterCurrent == FileWord16(data, 32 * i + 14)
              && rows[p].counterNext == FileWord16(data, 32 * (i + 1) + 14)
              && RegisterAt(data, 32 * i, rows[p].lfsrCurrent.bits)
              && RegisterAt(data, 32 * (i + 1), rows[p].lfsrReceived.bits)
  {
    hide *;
    rows, t := [], Totals(0, 0, 0, 0, 0);
    if |data| < 32 {
      return;
    }
    SampleAt(data, 0);
    var previous := Decode(data[0..32]);
    t := Totals(0, 0, 0, 0, 1);
    ReportNothing(Samples(data));
    while 32 * t.samples + 32 <= |data|
      invariant 1 <= t.samples <= |data| / 32 && previous == Samples(data)[t.samples - 1]
      invariant Reported(Samples(data), t.samples - 1, rows, t)
      decreases |data| - 32 * t.samples
    {
      previous, t, rows := NextRecord(data, previous, rows, t);
    }
    forall p | 0 <= p < |rows|
      ensures var i := rows[p].currentIndex;
              && rows[p].nextIndex == i + 1 && 32 * (i + 2) <= |data|
              && rows[p].counterCurrent == FileWord16(data, 32 * i + 14)
              && rows[p].counterNext == FileWord16(data, 32 * (i + 1) + 14)
              && RegisterAt(data, 32 * i, rows[p].lfsrCurrent.bits)
              && RegisterAt(data, 32 * (i + 1), rows[p].lfsrReceived.bits)
    {
      RowBytes(data, t.samples - 1, rows, t, p);
    }
  }

  /** A row's counters and register values are those of its two records in the file. */
  lemma RowBytes(data: seq<Byte>, n: nat, rows: seq<Row>, t: Totals, p: nat)
    requires Reported(Samples(data), n, rows, t) && p < |rows|
    ensures var i := rows[p].currentIndex;
            && rows[p].nextIndex == i + 1 && 32 * (i + 2) <= |data|
            && rows[p].counterCurrent == FileWord16(data, 32 * i + 14)
            && rows[p].counterNext == FileWord16(data, 32 * (i + 1) + 14)
            && RegisterAt(data, 32 * i, rows[p].lfsrCurrent.bits)
            && RegisterAt(data, 32 * (i + 1), rows[p].lfsrReceived.bits)
  {
    hide Reported, Samples, RegisterAt, FileWord16, FileWord32, U32;
    var i := rows[p].currentIndex;
    RowSamples(Samples(data), n, rows, t, p);
    RecordsFit(data, i + 1);
    SampleBytes(data, i);
    SampleBytes(data, i + 1);
  }

  lemma RecordsFit(data: seq<Byte>, i: nat)
    requires i < |Samples(data)|
    ensures 32 * i + 32 <= |data|
  {
  }

  lemma RowSamples(s: seq<Sample>, n: nat, rows: seq<Row>, t: Totals, p: nat)
    requires Reported(s, n, rows, t) && p < |rows|
    ensures var i := rows[p].currentIndex;
            && rows[p].nextIndex == i + 1 && i + 1 < |s|
            && rows[p].counterCurrent == s[i].counter && rows[p].counterNext == s[i + 1].counter
            && rows[p].lfsrCurrent == s[i].lfsr && rows[p].lfsrReceived == s[i + 1].lfsr
  {
    hide BadOnes, LeastSteps, Next;
    assert RowOf(s, n, rows, p);
  }

  /** A transition of the file has a row exactly when its counters do not follow each other modulo 2^16
      or its second register value is not the next one. */
  lemma ReportedExactly(data: seq<Byte>, n: nat, rows: seq<Row>, t: Totals, i: nat)
    requires Reported(Samples(data), n, rows, t) && i < n && 32 * (i + 2) <= |data|
    ensures |Samples(data)| >= i + 2
    ensures var a, b := Samples(data)[i].lfsr, Samples(data)[i + 1].lfsr;
            && RegisterAt(data, 32 * i, a.bits) && RegisterAt(data, 32 * (i + 1), b.bits)
            && ((exists p :: 0 <= p < |rows| && rows[p].currentIndex == i)
                <==> (FileWord16(data, 32 * (i + 1) + 14) != (FileWord16(data, 32 * i + 14) + 1) % 0x1_0000
                      || b != Next(a)))
  {
    hide Samples, RegisterAt, FileWord16, FileWord32, U32, Next, Reported, BadOnes;
    var s := Samples(data);
    SampleBytes(data, i);
    SampleBytes(data, i + 1);
    BadOnesMeaning(s, n);
    OneApart(s[i].counter, s[i + 1].counter);
    RowIndices(s, n, rows, t);
    assert BadAt(s, i) <==> (s[i + 1].counter != (s[i].counter + 1) % 0x1_0000 || s[i + 1].lfsr != Next(s[i].lfsr));
    hide BadAt;
    if BadAt(s, i) {
      var p :| 0 <= p < |BadOnes(s, n)| && BadOnes(s, n)[p] == i;
      assert rows[p].currentIndex == i;
    }
  }

  /** What the totals of a report count. */
  lemma TotalsMeaning(s: seq<Sample>, n: nat, rows: seq<Row>, t: Totals)
    requires Reported(s, n, rows, t) && n + 1 == |s|
    ensures t.samples == |s| && t.errors == |rows|
    ensures t.counterErrors
         == |set i: nat {:trigger s[i]} | i + 1 < |s| && (s[i + 1].counter - s[i].counter) % 0x1_0000 != 1|
    ensures t.lfsrErrors == |set i: nat {:trigger s[i]} | i + 1 < |s| && s[i + 1].lfsr != Next(s[i].lfsr)|
    ensures t.matching
         == |set p: nat | p < |rows| && rows[p].counterMissing.Some? && rows[p].lfsrMissing == rows[p].counterMissing|
  {
    hide NextWith, RowsDescribe;
    assert CounterBreaks(s, n)
        == set i: nat {:trigger s[i]} | i + 1 < |s| && (s[i + 1].counter - s[i].counter) % 0x1_0000 != 1;
    assert BreaksBefore(Values(s), TAPS, n)
        == set i: nat {:trigger s[i]} | i + 1 < |s| && s[i + 1].lfsr != Next(s[i].lfsr);
    assert Agreeing(rows)
        == set p: nat | p < |rows| && rows[p].counterMissing.Some? && rows[p].lfsrMissing == rows[p].counterMissing;
  }

  lemma OneApart(a: nat, b: nat)
    requires a < 0x1_0000 && b < 0x1_0000
    ensures (b - a) % 0x1_0000 == 1 <==> b == (a + 1) % 0x1_0000
  {
  }

  lemma RowIndices(s: seq<Sample>, n: nat, rows: seq<Row>, t: Totals)
    requires Reported(s, n, rows, t)
    ensures |rows| == |BadOnes(s, n)|
    ensures forall p :: 0 <= p < |rows| ==> rows[p].currentIndex == BadOnes(s, n)[p]
  {
    forall p | 0 <= p < |rows|
      ensures rows[p].currentIndex == BadOnes(s, n)[p]
    {
      assert RowOf(s, n, rows, p);
    }
  }

  /** One turn of the generator: the next record against the previous one. */
  method NextRecord(data: seq<Byte>, previous: Sample, rows: seq<Row>, t: Totals)
    returns (current: Sample, t': Totals, rows': seq<Row>)
    requires 1 <= t.samples && 32 * t.samples + 32 <= |data| && previous == Samples(data)[t.samples - 1]
    requires Reported(Samples(data), t.samples - 1, rows, t)
    ensures t'.samples == t.samples + 1 && current == Samples(data)[t.samples]
    ensures Reported(Samples(data), t'.samples - 1, rows', t')
  {
    hide Samples, Reported, RowsDescribe, Decode, Bad, RowFor, Agrees, Record;
    var at: nat := 32 * t.samples;
    SampleAt(data, t.samples);
    current := Decode(data[at..at + 32]);
    t', rows' := Transition(Samples(data), previous, current, rows, t);
  }

  lemma SampleAt(data: seq<Byte>, n: nat)
    requires 32 * n + 32 <= |data|
    ensures n < |Samples(data)| && Samples(data)[n] == Decode(data[32 * n..32 * n + 32])
  {
    hide Decode;
  }

  /** What one transition adds to the report. */
  method Transition(ghost s: seq<Sample>, previous: Sample, current: Sample, rows: seq<Row>, t: Totals)
    returns (t': Totals, rows': seq<Row>)
    requires 1 <= t.samples < |s| && previous == s[t.samples - 1] && current == s[t.samples]
    requires Reported(s, t.samples - 1, rows, t)
    ensures t'.samples == t.samples + 1 && Reported(s, t.samples, rows', t')
  {
    hide Reported, RowsDescribe, RowFor, Agrees, NextWith;
    var expected := LfsrNext(previous.lfsr, TAPS);
    var counterError := (current.counter - previous.counter) % 0x1_0000 != 1;
    var lfsrError := current.lfsr != expected;
    t', rows' := t, rows;
    if counterError || lfsrError {
      var row := MakeRow(previous, current, t.samples, t.errors + 1);
      ReportBad(s, t.samples - 1, rows, t, row);
      t' := Totals(t.errors + 1, t.counterErrors + if counterError then 1 else 0,
                   t.lfsrErrors + if lfsrError then 1 else 0,
                   t.matching + if Agrees(row) then 1 else 0, t.samples);
      rows' := rows + [row];
    } else {
      ReportGood(s, t.samples - 1, rows, t);
    }
    t' := t'.(samples := t'.samples + 1);
  }

  // ---------------------------------------------------------------- what a loss looks like

  /** Record i of an ideal stream: the register and the counter advance together. */
  ghost predicate IdealAt(s: Sample, x0: Word, c0: nat, i: nat) {
    s.lfsr == Iter(i, x0) && s.counter == (c0 + i) % 0x1_0000
  }

  lemma DeltaAfterLoss(c0: nat, i: nat, m: nat)
    ensures ((c0 + i + m + 1) % 0x1_0000 - (c0 + i) % 0x1_0000) % 0x1_0000 == (m + 1) % 0x1_0000
  {
  }

  /** m records lost between neighbours. The counter gives m exactly for 1 to 0x7FFE lost records,
      across any wrap; up to 63, the register gives a step count of at most m + 1, and m exactly
      when its value does not return to itself within m steps. */
  lemma LossReported(a: Sample, b: Sample, x0: Word, c0: nat, i: nat, m: nat, row: Row, at: nat, number: nat)
    requires IdealAt(a, x0, c0, i) && IdealAt(b, x0, c0, i + m + 1) && RowFor(row, a, b, at, number)
    ensures row.counterMissing == Some(m) <==> 1 <= m <= 0x7FFE
    ensures m < SEARCH_STEPS ==>
              && row.lfsrSteps.Some? && row.lfsrSteps.value <= m + 1
              && (row.lfsrMissing == Some(m) <==> forall d: nat :: 1 <= d <= m ==> Iter(d, a.lfsr) != a.lfsr)
  {
    hide Next, LeastSteps;
    DeltaAfterLoss(c0, i, m);
    if m < SEARCH_STEPS {
      IterAdd(m + 1, i, x0);
      StepsAfterLoss(a.lfsr, m, SEARCH_STEPS, row.lfsrSteps);
      LeastPositive(a.lfsr, b.lfsr, SEARCH_STEPS, row.lfsrSteps);
    }
  }

  lemma LeastPositive(a: Word, b: Word, n: nat, r: Option<nat>)
    requires LeastSteps(a, b, n, r)
    ensures r.Some? ==> r.value >= 1
  {
  }

  lemma SmallRemainder(m: nat)
    ensures (m + 1) % 0x1_0000 == 1 <==> m % 0x1_0000 == 0
  {
  }

  /** A loss is seen as a bad transition unless both the counter and the register came round. */
  lemma LossSeen(a: Sample, b: Sample, x0: Word, c0: nat, i: nat, m: nat)
    requires IdealAt(a, x0, c0, i) && IdealAt(b, x0, c0, i + m + 1)
    ensures Bad(a, b) <==> m % 0x1_0000 != 0 || Iter(m, a.lfsr) != a.lfsr
  {
    hide Next;
    DeltaAfterLoss(c0, i, m);
    IterAdd(m + 1, i, x0);
    assert b.lfsr == Next(Iter(m, a.lfsr));
    NextBijective(Iter(m, a.lfsr));
    NextBijective(a.lfsr);
    SmallRemainder(m);
  }

  // ---------------------------------------------------------------- errors at buffer boundaries

  ghost function AtBoundary(v: seq<Word>, n: nat, perBuffer: nat): set<nat>
    requires perBuffer > 0
  {
    set i: nat | i in BreaksBefore(v, TAPS, n) && Divides(perBuffer, i + 1)
  }

  predicate Divides(d: nat, x: nat)
    requires d > 0
  {
    x % d == 0
  }

  lemma AtBoundaryNext(v: seq<Word>, n: nat, perBuffer: nat)
    requires perBuffer > 0 && n + 1 < |v|
    ensures AtBoundary(v, n + 1, perBuffer)
         == AtBoundary(v, n, perBuffer) + if v[n + 1] != Next(v[n]) && Divides(perBuffer, n + 1) then {n} else {}
    ensures n !in AtBoundary(v, n, perBuffer)
  {
    hide NextWith, Divides;
    BreaksNext(v, TAPS, n);
    hide BreaksBefore;
  }

  lemma AtBoundaryStart(v: seq<Word>, perBuffer: nat)
    requires perBuffer > 0
    ensures AtBoundary(v, 0, perBuffer) == {}
  {
    NoBreaks(v, TAPS);
  }

  /** check_buffer_boundaries. None stands for the division error that a buffer of less than one
      record causes at the first broken transition. */
  method CheckBufferBoundaries(values: seq<Word>, bufSize: nat) returns (r: Option<(nat, nat)>)
    ensures r.None? <==> bufSize / 32 == 0 && Breaks(values, TAPS) != {}
    ensures r.Some? ==> r.value.0 + r.value.1 == |Breaks(values, TAPS)|
    ensures r.Some? && bufSize / 32 > 0 ==> r.value.0 == |AtBoundary(values, |values|, bufSize / 32)|
    ensures r.Some? && bufSize / 32 > 0 ==>
              r.value.0
              == |set i: nat | i + 1 < |values| && values[i + 1] != Next(values[i]) && (i + 1) % (bufSize / 32) == 0|
  {
    hide NextWith, BreaksBefore, AtBoundary, Divides;
    var perBuffer := bufSize / 32;
    var boundary: nat, inner: nat := 0, 0;
    NoBreaks(values, TAPS);
    if perBuffer > 0 {
      AtBoundaryStart(values, perBuffer);
    }
    var n := if |values| == 0 then 0 else |values| - 1;
    for i := 0 to n
      invariant boundary + inner == |BreaksBefore(values, TAPS, i)|
      invariant perBuffer > 0 ==> boundary == |AtBoundary(values, i, perBuffer)|
      invariant perBuffer == 0 ==> boundary == inner == 0
    {
      BreaksNext(values, TAPS, i);
      if perBuffer > 0 {
        AtBoundaryNext(values, i, perBuffer);
      }
      var expected := LfsrNext(values[i], TAPS);
      if values[i + 1] != expected {
        if perBuffer == 0 {
          BreakStays(values, i);
          return None;
        }
        if Divides(perBuffer, i + 1) {
          boundary := boundary + 1;
        } else {
          inner := inner + 1;
        }
      }
    }
    if perBuffer > 0 {
      BoundaryAll(values, perBuffer);
      BoundaryMeaning(values, perBuffer);
    }
    return Some((boundary, inner));
  }

  /** The broken transitions whose second value begins a buffer. */
  lemma BoundaryMeaning(v: seq<Word>, perBuffer: nat)
    requires perBuffer > 0
    ensures AtBoundary(v, |v|, perBuffer)
         == set i: nat | i + 1 < |v| && v[i + 1] != Next(v[i]) && (i + 1) % perBuffer == 0
  {
    hide NextWith;
  }

  lemma BreakStays(v: seq<Word>, i: nat)
    requires i + 1 < |v| && v[i + 1] != Next(v[i])
    ensures Breaks(v, TAPS) != {}
  {
    hide NextWith;
    assert i in Breaks(v, TAPS);
  }

  lemma BoundaryAll(v: seq<Word>, perBuffer: nat)
    requires perBuffer > 0
    ensures AtBoundary(v, |v|, perBuffer) == AtBoundary(v, if |v| == 0 then 0 else |v| - 1, perBuffer)
  {
    hide NextWith, Divides;
    assert BreaksBefore(v, TAPS, |v|) == BreaksBefore(v, TAPS, if |v| == 0 then 0 else |v| - 1);
  }

  /** On a file of at least two whole records the report's register errors, verify_lfsr over the
      parsed values, and the boundary and inner errors together are one number. */
  method ThreeCounts(data: seq<Byte>, bufSize: nat) returns (report: nat, verified: nat, split: Option<(nat, nat)>)
    requires |data| >= 64
    ensures report == verified
    ensures split.Some? ==> split.value.0 + split.value.1 == report
    ensures split.None? <==> bufSize < 32 && report > 0
  {
    hide Samples, NextWith, BreaksBefore, RowsDescribe, Agreeing, CounterBreaks, AtBoundary;
    var lfsrValues, _, _, _ := ParseBytes(data);
    var rows, totals := SkipReport(data);
    verified := VerifyLfsr(lfsrValues, TAPS);
    split := CheckBufferBoundaries(lfsrValues, bufSize);
    report := totals.lfsrErrors;
    NoBreaks(lfsrValues, TAPS);
  }
}
