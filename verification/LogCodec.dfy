/** The delta codec of the data logger: quantised samples, log entries, and their packed byte layout. */
module LogCodec {
  import opened Seqs
  import opened Words

  const BASE_TYPE: byte := 0xB0
  const DELTA_TYPE: byte := 0xD0
  const BASE_SIZE: nat := 29
  const DELTA_SIZE: nat := 27
  const CHANNEL_VALUES: nat := 12
  const MAX_DELTA: nat := 32760
  const MAX_GAP_MS: nat := 60000

  // v[0..4], i[0..4], p[0..4] in the order in which both entry layouts store them.
  type Values = s: seq<int16> | |s| == CHANNEL_VALUES witness [0, 0, 0, 0, 0, 0, 0, 0, 0, 0, 0, 0]

  datatype Sample = Sample(time: uint32, values: Values)

  datatype Entry =
    | Base(time: uint32, values: Values)
    | Delta(gap: uint16, changes: Values)

  // ---------------------------------------------------------------- encoder

  // last_ts and last_v/i/p once have_base is set.
  datatype Codec = Empty | Last(sample: Sample)

  function Difference(now: Values, before: Values): (d: Values) {
    seq(CHANNEL_VALUES, k requires 0 <= k < CHANNEL_VALUES => Sub16(now[k], before[k]))
  }

  predicate Overflows(changes: Values) {
    exists k :: 0 <= k < CHANNEL_VALUES && Abs(changes[k]) > MAX_DELTA
  }

  function Encode(c: Codec, s: Sample): Entry {
    if c.Empty? then Base(s.time, s.values)
    else
      var changes := Difference(s.values, c.sample.values);
      var gap := Sub32(s.time, c.sample.time);
      if Overflows(changes) || gap > MAX_GAP_MS then Base(s.time, s.values) else Delta(gap, changes)
  }

  // What the logger appends over a whole run, starting from codec state c.
  function EncodeAll(c: Codec, samples: seq<Sample>): (es: seq<Entry>)
    ensures |es| == |samples|
    decreases samples
  {
    if samples == [] then []
    else [Encode(c, samples[0])] + EncodeAll(Last(samples[0]), samples[1..])
  }

  // ---------------------------------------------------------------- decoder

  function Applied(before: Values, changes: Values): Values {
    seq(CHANNEL_VALUES, k requires 0 <= k < CHANNEL_VALUES => Add16(before[k], changes[k]))
  }

  // A base entry resets the decoder; a delta entry moves it, and is lost when there is nothing to move from.
  function Decode(c: Codec, e: Entry): Codec {
    match e
    case Base(t, v) => Last(Sample(t, v))
    case Delta(gap, changes) =>
      if c.Empty? then Empty
      else Last(Sample(Add32(c.sample.time, gap), Applied(c.sample.values, changes)))
  }

  function DecodeAll(c: Codec, es: seq<Entry>): seq<Sample>
    decreases es
  {
    if es == [] then []
    else
      var next := Decode(c, es[0]);
      (if next.Empty? then [] else [next.sample]) + DecodeAll(next, es[1..])
  }

  lemma DecodeOne(c: Codec, s: Sample)
    ensures Decode(c, Encode(c, s)) == Last(s)
  {
    var e := Encode(c, s);
    if e.Delta? {
      forall k | 0 <= k < CHANNEL_VALUES
        ensures Add16(c.sample.values[k], e.changes[k]) == s.values[k]
      {
      }
      assert Applied(c.sample.values, e.changes) == s.values;
    }
  }

  // Round trip: decoding the appended history gives back every sample and 32-bit timestamp, through value jumps that
  // wrap int16 before the range check and through a wrap of millis().
  lemma {:induction false} RoundTrip(c: Codec, samples: seq<Sample>)
    ensures DecodeAll(c, EncodeAll(c, samples)) == samples
    decreases samples
  {
    if samples != [] {
      DecodeOne(c, samples[0]);
      RoundTrip(Last(samples[0]), samples[1..]);
      var es := EncodeAll(c, samples);
      assert es[0] == Encode(c, samples[0]) && es[1..] == EncodeAll(Last(samples[0]), samples[1..]);
    }
  }

  // The codec state before the k-th sample of a run.
  function StateBefore(c: Codec, samples: seq<Sample>, k: nat): Codec
    requires k <= |samples|
  {
    if k == 0 then c else Last(samples[k - 1])
  }

  lemma {:induction false} EncodeAllSplit(c: Codec, samples: seq<Sample>, k: nat)
    requires k <= |samples|
    ensures EncodeAll(c, samples)[..k] == EncodeAll(c, samples[..k])
    ensures EncodeAll(c, samples)[k..] == EncodeAll(StateBefore(c, samples, k), samples[k..])
    decreases samples
  {
    if k > 0 {
      var rest := samples[1..];
      EncodeAllSplit(Last(samples[0]), rest, k - 1);
      var es := EncodeAll(c, samples);
      assert es[1..] == EncodeAll(Last(samples[0]), rest);
      assert es[k..] == es[1..][k - 1..];
      assert samples[k..] == rest[k - 1..];
      assert samples[..k][1..] == rest[..k - 1];
      assert es[..k] == [es[0]] + es[1..][..k - 1];
    }
  }

  lemma EncodeAllAt(c: Codec, samples: seq<Sample>, k: nat)
    requires k < |samples|
    ensures EncodeAll(c, samples)[k] == Encode(StateBefore(c, samples, k), samples[k])
  {
    EncodeAllSplit(c, samples, k);
    assert EncodeAll(c, samples)[k] == EncodeAll(c, samples)[k..][0];
  }

  // Which samples of a run are stored as deltas: exactly those that follow another sample by at most a minute of
  // 32-bit clock with no 16-bit change beyond the limit. The stored gap is that 32-bit difference, so at most 60000 ms.
  lemma DeltaExactly(samples: seq<Sample>, k: nat)
    requires k < |samples|
    ensures var e := EncodeAll(Empty, samples)[k];
            e.Delta? <==>
            && k > 0
            && Sub32(samples[k].time, samples[k - 1].time) <= 60000
            && forall j :: 0 <= j < CHANNEL_VALUES ==>
                 Abs(Sub16(samples[k].values[j], samples[k - 1].values[j])) <= 32760
    ensures var e := EncodeAll(Empty, samples)[k];
            e.Delta? ==> e.gap == Sub32(samples[k].time, samples[k - 1].time) <= 60000
  {
    EncodeAllAt(Empty, samples, k);
    if k > 0 {
      var changes := Difference(samples[k].values, samples[k - 1].values);
      assert forall j :: 0 <= j < CHANNEL_VALUES ==>
          changes[j] == Sub16(samples[k].values[j], samples[k - 1].values[j]);
    }
  }

  lemma DecodeAllLength(c: Codec, es: seq<Entry>)
    ensures |DecodeAll(c, es)| <= |es|
    ensures es != [] && Decode(c, es[0]).Empty? ==> |DecodeAll(c, es)| < |es|
    decreases es
  {
    if es != [] {
      DecodeAllLength(Decode(c, es[0]), es[1..]);
    }
  }

  // A reader that joins in the middle (after a drop, say) recovers the remaining samples exactly when the first entry
  // it sees is a base entry.
  lemma SuffixDecodesExactly(c: Codec, samples: seq<Sample>, k: nat)
    requires k < |samples|
    ensures DecodeAll(Empty, EncodeAll(c, samples)[k..]) == samples[k..] <==> EncodeAll(c, samples)[k].Base?
  {
    var es := EncodeAll(c, samples)[k..];
    var s := StateBefore(c, samples, k);
    EncodeAllSplit(c, samples, k);
    assert es[0] == EncodeAll(c, samples)[k];
    if es[0].Base? {
      RoundTrip(s, samples[k..]);
      assert DecodeAll(Empty, es) == DecodeAll(s, es);
    } else {
      DecodeAllLength(Empty, es);
    }
  }

  // ---------------------------------------------------------------- packed bytes (little endian)

  function Size(e: Entry): nat { if e.Base? then BASE_SIZE else DELTA_SIZE }

  function ValueByte(vs: Values, j: nat): byte
    requires j < 2 * CHANNEL_VALUES
  {
    var word := ToUint16(vs[j / 2]);
    if j % 2 == 0 then word % 0x100 else word / 0x100
  }

  function TimeByte(t: uint32, j: nat): byte
    requires j < 4
  {
    if j == 0 then t % 0x100
    else if j == 1 then t / 0x100 % 0x100
    else if j == 2 then t / 0x1_0000 % 0x100
    else t / 0x100_0000
  }

  function EntryByte(e: Entry, j: nat): byte
    requires j < Size(e)
  {
    match e
    case Base(t, v) =>
      if j == 0 then BASE_TYPE else if j < 5 then TimeByte(t, j - 1) else ValueByte(v, j - 5)
    case Delta(gap, d) =>
      if j == 0 then DELTA_TYPE
      else if j == 1 then gap % 0x100
      else if j == 2 then gap / 0x100
      else ValueByte(d, j - 3)
  }

  function EntryBytes(e: Entry): (b: seq<byte>)
    ensures |b| == Size(e)
  {
    seq(Size(e), j requires 0 <= j < Size(e) => EntryByte(e, j))
  }

  function Serialise(es: seq<Entry>): seq<byte> {
    if es == [] then [] else EntryBytes(es[0]) + Serialise(es[1..])
  }

  function ReadValues(b: seq<byte>, at: nat): Values
    requires at + 2 * CHANNEL_VALUES <= |b|
  {
    seq(CHANNEL_VALUES, k requires 0 <= k < CHANNEL_VALUES => ToInt16(Word16(b[at + 2 * k], b[at + 2 * k + 1])))
  }

  function EntrySize(b: seq<byte>): nat
    requires |b| > 0
  {
    if b[0] == BASE_TYPE then BASE_SIZE else DELTA_SIZE
  }

  function ReadEntry(b: seq<byte>): Entry
    requires |b| > 0 && |b| >= EntrySize(b)
  {
    if b[0] == BASE_TYPE then
      Base(Word32(b[1], b[2], b[3], b[4]), ReadValues(b, 5))
    else
      Delta(Word16(b[1], b[2]), ReadValues(b, 3))
  }

  // The k-th value stands at `at + 2 * k`, low byte first, in two's complement.
  predicate ValueAt(b: seq<byte>, at: nat, v: Values, k: nat)
    requires k < 12 && at + 24 <= |b|
  {
    (b[at + 2 * k] as int + 0x100 * b[at + 2 * k + 1] as int - v[k] as int) % 0x1_0000 == 0
  }

  lemma WordSum(x: int16)
    ensures ((ToUint16(x) % 0x100) as int + 0x100 * (ToUint16(x) / 0x100) as int - x as int) % 0x1_0000 == 0
  {
    var w := ToUint16(x);
    assert w % 0x100 + 0x100 * (w / 0x100) == w;
  }

  lemma ValuesLaidOut(b: seq<byte>, at: nat, v: Values)
    requires at + 24 <= |b| && forall j :: 0 <= j < 24 ==> b[at + j] == ValueByte(v, j)
    ensures forall k :: 0 <= k < 12 ==> ValueAt(b, at, v, k)
  {
    forall k | 0 <= k < 12
      ensures ValueAt(b, at, v, k)
    {
      assert b[at + 2 * k] == ValueByte(v, 2 * k) && b[at + (2 * k + 1)] == ValueByte(v, 2 * k + 1);
      HalfOfDouble(k);
      WordSum(v[k]);
    }
  }

  // The layouts of data_logger.h: a type byte, the time or gap with its low byte first, and the twelve values.
  lemma BaseLayout(t: uint32, v: Values)
    ensures var b := EntryBytes(Base(t, v));
            && |b| == 29 && b[0] == 0xB0
            && b[1] as int + 0x100 * b[2] as int + 0x1_0000 * b[3] as int + 0x100_0000 * b[4] as int == t
            && forall k :: 0 <= k < 12 ==> ValueAt(b, 5, v, k)
  {
    ReadTimeBack(t);
    ValuesLaidOut(EntryBytes(Base(t, v)), 5, v);
  }

  lemma DeltaLayout(gap: uint16, d: Values)
    ensures var b := EntryBytes(Delta(gap, d));
            && |b| == 27 && b[0] == 0xD0
            && b[1] as int + 0x100 * b[2] as int == gap
            && forall k :: 0 <= k < 12 ==> ValueAt(b, 3, d, k)
  {
    ValuesLaidOut(EntryBytes(Delta(gap, d)), 3, d);
  }

  // Reads whole entries until the bytes run out.
  function Parse(b: seq<byte>): seq<Entry> {
    if |b| == 0 || |b| < EntrySize(b) then []
    else [ReadEntry(b)] + Parse(b[EntrySize(b)..])
  }

  lemma ReadValueBack(x: int16)
    ensures ToInt16(Word16(ToUint16(x) % 0x100, ToUint16(x) / 0x100)) == x
  {
    var w := ToUint16(x);
    assert Word16(w % 0x100, w / 0x100) == w;
  }

  lemma HalfOfDouble(k: nat)
    ensures 2 * k / 2 == k && (2 * k + 1) / 2 == k
    ensures 2 * k % 2 == 0 && (2 * k + 1) % 2 == 1
  {
  }

  lemma ValueBytesBack(vs: Values, k: nat)
    requires k < CHANNEL_VALUES
    ensures ToInt16(Word16(ValueByte(vs, 2 * k), ValueByte(vs, 2 * k + 1))) == vs[k]
  {
    HalfOfDouble(k);
    ReadValueBack(vs[k]);
  }

  lemma ReadValuesBack(vs: Values, b: seq<byte>, at: nat)
    requires at + 2 * CHANNEL_VALUES <= |b|
    requires forall j :: 0 <= j < 2 * CHANNEL_VALUES ==> b[at + j] == ValueByte(vs, j)
    ensures ReadValues(b, at) == vs
  {
    hide ValueByte, ToInt16, Word16;
    forall k | 0 <= k < CHANNEL_VALUES
      ensures ReadValues(b, at)[k] == vs[k]
    {
      assert b[at + 2 * k] == ValueByte(vs, 2 * k);
      assert b[at + (2 * k + 1)] == ValueByte(vs, 2 * k + 1);
      ValueBytesBack(vs, k);
    }
  }

  lemma ReadTimeBack(t: uint32)
    ensures Word32(TimeByte(t, 0), TimeByte(t, 1), TimeByte(t, 2), TimeByte(t, 3)) == t
  {
    assert t / 0x1_0000 == t / 0x100 / 0x100;
    assert t / 0x100_0000 == t / 0x100 / 0x100 / 0x100;
  }

  lemma ReadEntryBack(e: Entry, b: seq<byte>)
    requires |b| >= Size(e) && forall j :: 0 <= j < Size(e) ==> b[j] == EntryByte(e, j)
    ensures EntrySize(b) == Size(e) && ReadEntry(b) == e
  {
    assert b[0] == EntryByte(e, 0) && b[1] == EntryByte(e, 1) && b[2] == EntryByte(e, 2);
    match e
    case Base(t, v) =>
      assert b[3] == EntryByte(e, 3) && b[4] == EntryByte(e, 4);
      ReadTimeBack(t);
      forall j | 0 <= j < 2 * CHANNEL_VALUES
        ensures b[5 + j] == ValueByte(v, j)
      {
        assert b[5 + j] == EntryByte(e, 5 + j);
      }
      ReadValuesBack(v, b, 5);
    case Delta(gap, d) =>
      forall j | 0 <= j < 2 * CHANNEL_VALUES
        ensures b[3 + j] == ValueByte(d, j)
      {
        assert b[3 + j] == EntryByte(e, 3 + j);
      }
      ReadValuesBack(d, b, 3);
  }

  lemma SerialiseFirst(es: seq<Entry>)
    requires es != []
    ensures var b, n := Serialise(es), Size(es[0]);
            && n <= |b|
            && b[..n] == EntryBytes(es[0])
            && b[n..] == Serialise(es[1..])
            && forall j :: 0 <= j < n ==> b[j] == EntryByte(es[0], j)
  {
    ConcatParts(EntryBytes(es[0]), Serialise(es[1..]));
  }

  // The packed entries of a run can be told apart again.
  lemma {:induction false} ParseBack(es: seq<Entry>)
    ensures Parse(Serialise(es)) == es
  {
    if es != [] {
      SerialiseFirst(es);
      ReadEntryBack(es[0], Serialise(es));
      ParseBack(es[1..]);
    }
  }

  lemma {:induction false} SerialiseConcat(a: seq<Entry>, b: seq<Entry>)
    ensures Serialise(a + b) == Serialise(a) + Serialise(b)
  {
    if a == [] {
      assert a + b == b;
    } else {
      assert (a + b)[1..] == a[1..] + b;
      SerialiseConcat(a[1..], b);
      Assoc(EntryBytes(a[0]), Serialise(a[1..]), Serialise(b));
    }
  }

  lemma {:induction false} SerialiseSize(es: seq<Entry>)
    ensures DELTA_SIZE * |es| <= |Serialise(es)| <= BASE_SIZE * |es|
  {
    if es != [] {
      SerialiseSize(es[1..]);
    }
  }
}
