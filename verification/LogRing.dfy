/** The 16 KB circular log buffer: whole entries in, whole entries out, flushed or dropped when full. */
module LogRing {
  import opened Seqs
  import opened Words
  import opened LogCodec

  const CAPACITY: nat := 16 * 1024

  // ---------------------------------------------------------------- the log as a sequence of entries

  datatype Removal =
    | Popped(entries: seq<Entry>)   // handed to the publisher
    | Flushed(entries: seq<Entry>)  // copied to the SD scratch buffer
    | Dropped(entries: seq<Entry>)  // discarded: network up, or no card

  datatype Log = Log(codec: Codec, entries: seq<Entry>, removed: seq<Removal>)

  const EMPTY_LOG := Log(Empty, [], [])

  datatype Op = Append(sample: Sample, toCard: bool) | Pop(room: nat)

  // can_fit: one byte stays free so that head == tail means empty, and the comparison is strict.
  predicate Fits(used: nat, size: nat) { used + size + 1 < CAPACITY }

  // How many whole entries a batch of `room` bytes takes.
  function BatchCount(es: seq<Entry>, room: nat): (k: nat)
    ensures k <= |es|
  {
    if es == [] || Size(es[0]) > room then 0 else 1 + BatchCount(es[1..], room - Size(es[0]))
  }

  // One entry goes in; when it does not fit, the whole ring goes out first.
  function Put(l: Log, e: Entry, toCard: bool): Log {
    if Fits(|Serialise(l.entries)|, Size(e)) then
      l.(entries := l.entries + [e])
    else
      l.(entries := [e], removed := l.removed + [if toCard then Flushed(l.entries) else Dropped(l.entries)])
  }

  function Step(l: Log, op: Op): Log {
    match op
    case Append(x, toCard) =>
      Put(l, Encode(l.codec, x), toCard).(codec := Last(x))
    case Pop(room) =>
      var k := BatchCount(l.entries, room);
      Log(l.codec, l.entries[k..], l.removed + [Popped(l.entries[..k])])
  }

  function Run(l: Log, ops: seq<Op>): Log {
    if ops == [] then l else Step(Run(l, ops[..|ops| - 1]), ops[|ops| - 1])
  }

  function Logged(ops: seq<Op>): seq<Sample> {
    if ops == [] then []
    else
      var op := ops[|ops| - 1];
      var before := Logged(ops[..|ops| - 1]);
      if op.Append? then before + [op.sample] else before
  }

  function Taken(removed: seq<Removal>): seq<Entry> {
    if removed == [] then [] else Taken(removed[..|removed| - 1]) + removed[|removed| - 1].entries
  }

  lemma TakenPlus(removed: seq<Removal>, r: Removal)
    ensures Taken(removed + [r]) == Taken(removed) + r.entries
  {
    assert (removed + [r])[..|removed|] == removed;
  }

  lemma EncodeAllPlus(samples: seq<Sample>, x: Sample)
    ensures EncodeAll(Empty, samples + [x])
         == EncodeAll(Empty, samples) + [Encode(StateBefore(Empty, samples, |samples|), x)]
  {
    var all, k := samples + [x], |samples|;
    EncodeAllSplit(Empty, all, k);
    EncodeAllAt(Empty, all, k);
    assert all[..k] == samples;
    SplitLast(EncodeAll(Empty, all));
  }

  lemma PutConserves(l: Log, e: Entry, toCard: bool)
    ensures Taken(Put(l, e, toCard).removed) + Put(l, e, toCard).entries == Taken(l.removed) + l.entries + [e]
  {
    if Put(l, e, toCard).removed == l.removed {
      Assoc(Taken(l.removed), l.entries, [e]);
    } else {
      TakenPlus(l.removed, Put(l, e, toCard).removed[|l.removed|]);
    }
  }

  lemma PopConserves(l: Log, room: nat)
    ensures Taken(Step(l, Pop(room)).removed) + Step(l, Pop(room)).entries == Taken(l.removed) + l.entries
  {
    var k := BatchCount(l.entries, room);
    TakenPlus(l.removed, Popped(l.entries[..k]));
    SplitAt(l.entries, k);
    Assoc(Taken(l.removed), l.entries[..k], l.entries[k..]);
  }

  // Conservation over every interleaving: what was taken out, in order of removal, followed by what is still in the
  // ring, is everything ever appended.
  lemma {:induction false} RunConserves(ops: seq<Op>)
    ensures var l := Run(EMPTY_LOG, ops);
            && l.codec == StateBefore(Empty, Logged(ops), |Logged(ops)|)
            && Taken(l.removed) + l.entries == EncodeAll(Empty, Logged(ops))
  {
    if ops != [] {
      var before, op := ops[..|ops| - 1], ops[|ops| - 1];
      RunConserves(before);
      match op
      case Append(x, toCard) =>
        PutConserves(Run(EMPTY_LOG, before), Encode(Run(EMPTY_LOG, before).codec, x), toCard);
        EncodeAllPlus(Logged(before), x);
      case Pop(room) =>
        PopConserves(Run(EMPTY_LOG, before), room);
        assert Logged(ops) == Logged(before);
    }
  }

  // ... and so no sample is lost or altered by the encoding: decoding the same entries gives every sample logged.
  lemma RunDecodes(ops: seq<Op>)
    ensures var l := Run(EMPTY_LOG, ops);
            DecodeAll(Empty, Taken(l.removed) + l.entries) == Logged(ops)
  {
    RunConserves(ops);
    RoundTrip(Empty, Logged(ops));
  }

  // The newest sample is always stored, whatever the occupancy, and the ring is never filled to the last byte.
  lemma {:induction false} NewestStored(ops: seq<Op>)
    ensures var l := Run(EMPTY_LOG, ops);
            |Serialise(l.entries)| + 1 < CAPACITY
    ensures ops != [] && ops[|ops| - 1].Append? ==>
              var l := Run(EMPTY_LOG, ops);
              && l.entries != []
              && l.entries[|l.entries| - 1] == Encode(Run(EMPTY_LOG, ops[..|ops| - 1]).codec, ops[|ops| - 1].sample)
  {
    if ops != [] {
      var before, op := ops[..|ops| - 1], ops[|ops| - 1];
      NewestStored(before);
      var l := Run(EMPTY_LOG, before);
      match op
      case Append(x, toCard) => PutFits(l, Encode(l.codec, x), toCard);
      case Pop(room) =>
        var k := BatchCount(l.entries, room);
        SerialiseConcat(l.entries[..k], l.entries[k..]);
        SplitAt(l.entries, k);
    }
  }

  lemma PutFits(l: Log, e: Entry, toCard: bool)
    ensures |Serialise(Put(l, e, toCard).entries)| + 1 < CAPACITY
  {
    SerialiseConcat(l.entries, [e]);
    SerialiseOne(e);
  }

  // An entry goes behind those in the ring if and only if their bytes, its own and one more stay short of 16384;
  // otherwise it is alone in the ring, and all that was there has left in one piece, to the card or nowhere.
  lemma PutExactly(l: Log, e: Entry, toCard: bool)
    ensures |Serialise(l.entries)| + |EntryBytes(e)| + 1 < 16384 <==>
            Put(l, e, toCard).removed == l.removed && Put(l, e, toCard).entries == l.entries + [e]
    ensures |Serialise(l.entries)| + |EntryBytes(e)| + 1 >= 16384 ==>
              && Put(l, e, toCard).entries == [e]
              && Put(l, e, toCard).removed ==
                 l.removed + [if toCard then Flushed(l.entries) else Dropped(l.entries)]
  {
    var l' := Put(l, e, toCard);
    assert l'.removed == l.removed || |l'.removed| == |l.removed| + 1;
  }

  ghost predicate LeftFull(removed: seq<Removal>) {
    forall k :: 0 <= k < |removed| && !removed[k].Popped? ==> |Serialise(removed[k].entries)| >= 16384 - 30
  }

  lemma PutLeftFull(l: Log, e: Entry, toCard: bool)
    requires LeftFull(l.removed)
    ensures LeftFull(Put(l, e, toCard).removed)
  {
    PutExactly(l, e, toCard);
  }

  // Over every interleaving: entries leave the ring other than by a pop only when it is full to its last 30 bytes.
  lemma {:induction false} OnlyFullRingsLeave(ops: seq<Op>)
    ensures LeftFull(Run(EMPTY_LOG, ops).removed)
  {
    if ops != [] {
      var before := ops[..|ops| - 1];
      OnlyFullRingsLeave(before);
      var l := Run(EMPTY_LOG, before);
      match ops[|ops| - 1]
      case Append(x, toCard) => PutLeftFull(l, Encode(l.codec, x), toCard);
      case Pop(_) =>
    }
  }

  lemma SerialiseOne(e: Entry)
    ensures Serialise([e]) == EntryBytes(e)
  {
    assert Serialise([e]) == EntryBytes(e) + Serialise([]);
  }

  // A batch is the longest run of whole entries from the oldest on that fits.
  lemma {:induction false} BatchIsLongest(es: seq<Entry>, room: nat, k: nat)
    requires k <= |es|
    ensures |Serialise(es[..k])| <= room <==> k <= BatchCount(es, room)
  {
    if k == 0 {
      assert es[..k] == [];
    } else {
      assert es[..k][1..] == es[1..][..k - 1];
      if Size(es[0]) <= room {
        BatchIsLongest(es[1..], room - Size(es[0]), k - 1);
      }
    }
  }

  // ---------------------------------------------------------------- entries that were cut short

  lemma ParseFirst(e: Entry, b: seq<byte>)
    ensures Parse(EntryBytes(e) + b) == [e] + Parse(b)
  {
    var all := EntryBytes(e) + b;
    ConcatParts(EntryBytes(e), b);
    assert forall j :: 0 <= j < Size(e) ==> all[j] == EntryByte(e, j);
    hide EntryBytes, EntryByte, ReadEntry;
    ReadEntryBack(e, all);
  }

  lemma {:induction false} ParseOn(es: seq<Entry>, b: seq<byte>)
    ensures Parse(Serialise(es) + b) == es + Parse(b)
  {
    hide Parse, EntryBytes;
    if es == [] {
      assert Serialise(es) + b == b && es + Parse(b) == Parse(b);
    } else {
      Assoc(EntryBytes(es[0]), Serialise(es[1..]), b);
      ParseFirst(es[0], Serialise(es[1..]) + b);
      ParseOn(es[1..], b);
      SplitFirst(es);
      Assoc([es[0]], es[1..], Parse(b));
    }
  }

  // The bytes of `es` cut after w, with whole entries appended later: a reader finds the entries before the cut and all
  // the later ones.
  predicate ReadsOn(es: seq<Entry>, w: nat, more: seq<Entry>)
    requires w <= |Serialise(es)|
  {
    Parse(Serialise(es)[..w] + Serialise(more)) == es[..BatchCount(es, w)] + more
  }

  // The cut falls between two entries.
  predicate AtBoundary(es: seq<Entry>, w: nat) { |Serialise(es[..BatchCount(es, w)])| == w }

  // What a cut leaves: whole entries, and the first c bytes of the next.
  lemma CutParts(es: seq<Entry>, w: nat) returns (c: nat)
    requires w <= |Serialise(es)|
    ensures var j := BatchCount(es, w);
            && w == |Serialise(es[..j])| + c
            && (c > 0 ==> j < |es| && c < Size(es[j]))
            && (c > 0 ==> Serialise(es)[..w] == Serialise(es[..j]) + EntryBytes(es[j])[..c])
            && (c == 0 ==> Serialise(es)[..w] == Serialise(es[..j]))
  {
    var j := BatchCount(es, w);
    BatchIsLongest(es, w, j);
    SplitAt(es, j);
    SerialiseConcat(es[..j], es[j..]);
    c := w - |Serialise(es[..j])|;
    if c > 0 {
      NextCut(es, w);
      SerialiseFirst(es[j..]);
      hide Serialise, EntryBytes, BatchCount;
      CutBehind(Serialise(es[..j]), Serialise(es[j..]), c);
      CutTwice(Serialise(es[j..]), Size(es[j]), c);
    } else {
      hide Serialise, EntryBytes, BatchCount;
      ConcatParts(Serialise(es[..j]), Serialise(es[j..]));
    }
  }

  lemma CutBehind(a: seq<byte>, b: seq<byte>, c: nat)
    requires c <= |b|
    ensures (a + b)[..|a| + c] == a + b[..c]
  {
  }

  lemma CutTwice(b: seq<byte>, n: nat, c: nat)
    requires c <= n <= |b|
    ensures b[..n][..c] == b[..c]
  {
  }

  lemma NextCut(es: seq<Entry>, w: nat)
    requires |Serialise(es[..BatchCount(es, w)])| < w <= |Serialise(es)|
    ensures var j := BatchCount(es, w);
            j < |es| && w < |Serialise(es[..j])| + Size(es[j])
  {
    var j := BatchCount(es, w);
    assert es[..|es|] == es;
    if j < |es| {
      BatchIsLongest(es, w, j + 1);
      assert es[..j + 1] == es[..j] + [es[j]];
      SerialiseConcat(es[..j], [es[j]]);
      SerialiseOne(es[j]);
    }
  }

  const ZEROS: Values := [0, 0, 0, 0, 0, 0, 0, 0, 0, 0, 0, 0]

  function OtherKind(e: Entry): Entry { if e.Base? then Delta(0, ZEROS) else Base(0, ZEROS) }

  lemma FirstKind(b: seq<byte>)
    requires Parse(b) != []
    ensures |b| > 0 && (Parse(b)[0].Base? <==> b[0] == BASE_TYPE)
  {
    hide ReadValues;
  }

  // The torn start of an entry makes one of the other kind that follows it unreadable.
  lemma TornHides(e: Entry, c: nat)
    requires 0 < c < Size(e)
    ensures Parse(EntryBytes(e)[..c] + EntryBytes(OtherKind(e))) != [OtherKind(e)]
  {
    var b := EntryBytes(e)[..c] + EntryBytes(OtherKind(e));
    assert b[0] == EntryByte(e, 0);
    hide Parse, EntryBytes;
    if Parse(b) != [] {
      FirstKind(b);
    }
  }

  // Everything appended after a cut can be read, whatever it is, if and only if the cut falls between two entries.
  lemma TornExactly(es: seq<Entry>, w: nat)
    requires w <= |Serialise(es)|
    ensures (forall more :: ReadsOn(es, w, more)) <==> AtBoundary(es, w)
  {
    var j := BatchCount(es, w);
    var c := CutParts(es, w);
    if c == 0 {
      forall more
        ensures ReadsOn(es, w, more)
      {
        ParseOn(es[..j], Serialise(more));
        ParseBack(more);
      }
    } else {
      var other := OtherKind(es[j]);
      SerialiseOne(other);
      Assoc(Serialise(es[..j]), EntryBytes(es[j])[..c], EntryBytes(other));
      ParseOn(es[..j], EntryBytes(es[j])[..c] + EntryBytes(other));
      TornHides(es[j], c);
      ConcatParts(es[..j], [other]);
      ConcatParts(es[..j], Parse(EntryBytes(es[j])[..c] + EntryBytes(other)));
      assert !ReadsOn(es, w, [other]);
    }
  }

  // ---------------------------------------------------------------- the bytes of the ring

  function NextPos(pos: nat, n: nat): nat {
    var np := pos + n;
    if np >= CAPACITY then np - CAPACITY else np
  }

  function FreeSpace(head: nat, tail: nat): int {
    if head >= tail then CAPACITY - (head - tail) - 1 else tail - head - 1
  }

  // The remainder form of next_pos that log_sample uses.
  function Advanced(pos: nat, n: nat): (p: nat)
    requires pos < CAPACITY && n < CAPACITY
    ensures p == NextPos(pos, n)
  {
    (pos + n) % CAPACITY
  }

  predicate CanFit(head: nat, tail: nat, n: nat) {
    n < CAPACITY && FreeSpace(head, tail) > n
  }

  // The circular stretch from tail to head.
  ghost function Stretch(b: seq<byte>, tail: nat, head: nat): (s: seq<byte>)
    requires |b| == CAPACITY && tail < CAPACITY && head < CAPACITY
    ensures |s| == CAPACITY - 1 - FreeSpace(head, tail)
    ensures forall k :: 0 <= k < |s| ==> s[k] == b[NextPos(tail, k)]
  {
    if tail <= head then b[tail..head] else b[tail..] + b[..head]
  }

  lemma StretchSuffix(b: seq<byte>, tail: nat, head: nat, n: nat)
    requires |b| == CAPACITY && tail < CAPACITY && head < CAPACITY && n <= |Stretch(b, tail, head)|
    ensures Stretch(b, NextPos(tail, n), head) == Stretch(b, tail, head)[n..]
  {
  }

  lemma StretchDrop(b: seq<byte>, tail: nat, head: nat)
    requires |b| == CAPACITY && tail < CAPACITY && head < CAPACITY && tail != head
    ensures Stretch(b, NextPos(tail, 1), head) == Stretch(b, tail, head)[1..]
    ensures Stretch(b, tail, head)[0] == b[tail]
  {
  }

  // What memcpy(dst + at, src, |src|) leaves in dst.
  ghost function Copied(dst: seq<byte>, at: nat, src: seq<byte>): (s: seq<byte>)
    requires at + |src| <= |dst|
    ensures |s| == |dst|
    ensures forall k :: 0 <= k < |s| ==> s[k] == if at <= k < at + |src| then src[k - at] else dst[k]
  {
    dst[..at] + src + dst[at + |src|..]
  }

  // Two copies, one on each side of the wrap.
  ghost function Stored(b: seq<byte>, head: nat, e: seq<byte>): (s: seq<byte>)
    requires |b| == CAPACITY && head < CAPACITY && |e| < CAPACITY
    ensures |s| == CAPACITY
  {
    var first := if head + |e| >= CAPACITY then CAPACITY - head else |e|;
    var b' := Copied(b, head, e[..first]);
    if |e| > first then Copied(b', 0, e[first..]) else b'
  }

  lemma StoredAt(b: seq<byte>, head: nat, e: seq<byte>, p: nat)
    requires |b| == CAPACITY && head < CAPACITY && |e| < CAPACITY && p < CAPACITY
    ensures var i := if p >= head then p - head else p + CAPACITY - head;
            Stored(b, head, e)[p] == if i < |e| then e[i] else b[p]
  {
  }

  // Storing bytes from head on extends the stretch by exactly those bytes.
  lemma StretchStored(b: seq<byte>, tail: nat, head: nat, e: seq<byte>)
    requires |b| == CAPACITY && tail < CAPACITY && head < CAPACITY && |e| < CAPACITY
    requires FreeSpace(head, tail) >= |e|
    ensures Stretch(Stored(b, head, e), tail, NextPos(head, |e|)) == Stretch(b, tail, head) + e
  {
    var old', new' := Stretch(b, tail, head), Stretch(Stored(b, head, e), tail, NextPos(head, |e|));
    assert |new'| == |old'| + |e|;
    forall k | 0 <= k < |new'|
      ensures new'[k] == (old' + e)[k]
    {
      hide Stretch, Stored;
      StoredAt(b, head, e, NextPos(tail, k));
      if k >= |old'| {
        assert NextPos(tail, k) == NextPos(head, k - |old'|);
      }
    }
  }

  method CopyInto(dst: array<byte>, at: nat, src: seq<byte>)
    requires at + |src| <= dst.Length
    modifies dst
    ensures dst[..] == Copied(old(dst[..]), at, src)
  {
    forall k | 0 <= k < |src| {
      dst[at + k] := src[k];
    }
  }

  class DataLogger {
    const buffer: array<byte>
    const flushBuffer: array<byte>
    var head: nat
    var tail: nat
    var entryCount: nat
    var haveBase: bool
    var last: Values
    var lastTime: uint32
    ghost var log: Log  // the entries in the buffer and everything that has left it

    ghost predicate Valid()
      reads this, buffer
    {
      && buffer != flushBuffer
      && buffer.Length == flushBuffer.Length == CAPACITY
      && head < CAPACITY && tail < CAPACITY
      && FreeSpace(head, tail) > 0
      && Stretch(buffer[..], tail, head) == Serialise(log.entries)
      && entryCount == |log.entries|
      && log.codec == (if haveBase then Last(Sample(lastTime, last)) else Empty)
    }

    // init_data_logger.
    constructor ()
      ensures Valid() && fresh(buffer) && fresh(flushBuffer)
      ensures log == EMPTY_LOG
    {
      buffer := new byte[CAPACITY](_ => 0);
      flushBuffer := new byte[CAPACITY](_ => 0);
      head, tail, entryCount := 0, 0, 0;
      haveBase, last, lastTime := false, seq(CHANNEL_VALUES, _ => 0), 0;
      log := EMPTY_LOG;
    }

    // The two memcpy calls on either side of the wrap.
    method Store(e: seq<byte>)
      requires buffer.Length == CAPACITY && head < CAPACITY && 0 < |e| < CAPACITY
      modifies buffer, `head
      ensures head == NextPos(old(head), |e|)
      ensures buffer[..] == Stored(old(buffer[..]), old(head), e)
    {
      var first := if head + |e| >= CAPACITY then CAPACITY - head else |e|;
      CopyInto(buffer, head, e[..first]);
      head := Advanced(head, first);
      if |e| > first {
        CopyInto(buffer, head, e[first..]);
        head := Advanced(head, |e| - first);
      }
    }

    // Copies the ring, in order, to the start of flushBuffer.
    method StashRing() returns (n: nat)
      requires buffer != flushBuffer && buffer.Length == flushBuffer.Length == CAPACITY
      requires head < CAPACITY && tail < CAPACITY
      modifies flushBuffer
      ensures n <= CAPACITY && flushBuffer[..n] == Stretch(buffer[..], tail, head)
    {
      if head >= tail {
        n := head - tail;
        CopyInto(flushBuffer, 0, buffer[tail..head]);
      } else {
        var n1 := CAPACITY - tail;
        CopyInto(flushBuffer, 0, buffer[tail..]);
        assert flushBuffer[..n1] == buffer[tail..];
        if head > 0 {
          CopyInto(flushBuffer, n1, buffer[..head]);
        }
        n := n1 + head;
        assert flushBuffer[..n] == flushBuffer[..n1] + flushBuffer[n1..n];
      }
    }

    // The locked part of log_sample: store the entry, emptying the ring first when it does not fit.
    method Write(bytes: seq<byte>, toCard: bool, ghost e: Entry) returns (flushed: nat)
      requires Valid() && bytes == EntryBytes(e)
      modifies buffer, flushBuffer, `head, `tail, `entryCount, `log
      ensures Valid() && log == Put(old(log), e, toCard)
      ensures flushed <= CAPACITY
      ensures flushBuffer[..flushed] ==
              if toCard && !Fits(|Serialise(old(log).entries)|, Size(e)) then Serialise(old(log).entries) else []
    {
      flushed := 0;
      if CanFit(head, tail, |bytes|) {
        Push(bytes, e);
      } else {
        if toCard {
          flushed := StashRing();
        }
        tail := head;
        entryCount := 0;
        log := log.(entries := [], removed := Put(log, e, toCard).removed);
        if CanFit(head, tail, |bytes|) {
          Push(bytes, e);
        }
      }
    }

    method Push(bytes: seq<byte>, ghost e: Entry)
      requires Valid() && bytes == EntryBytes(e) && CanFit(head, tail, |bytes|)
      modifies buffer, `head, `entryCount, `log
      ensures Valid() && log == old(log).(entries := old(log).entries + [e])
    {
      StretchStored(buffer[..], tail, head, bytes);
      Store(bytes);
      entryCount := entryCount + 1;
      SerialiseConcat(log.entries, [e]);
      SerialiseOne(e);
      log := log.(entries := log.entries + [e]);
    }

    // log_sample: encode against the previous sample, then store. The result is the number of bytes left in
    // flushBuffer for the card.
    method LogSample(x: Sample, networkDown: bool, cardPresent: bool) returns (flushed: nat)
      requires Valid()
      modifies this, buffer, flushBuffer
      ensures Valid()
      ensures log == Step(old(log), Append(x, networkDown && cardPresent))
      ensures flushed <= CAPACITY
      ensures flushBuffer[..flushed] ==
              if networkDown && cardPresent && |log.removed| > |old(log).removed|
              then Serialise(old(log).entries) else []
    {
      var e := Encode(if haveBase then Last(Sample(lastTime, last)) else Empty, x);
      flushed := Write(EntryBytes(e), networkDown && cardPresent, e);
      haveBase, last, lastTime := true, x.values, x.time;
      log := log.(codec := Last(x));
    }

    // The body of pop_ring's loop: the oldest entry, byte by byte.
    method PopEntry(out: array<byte>, start: nat, size: nat)
      requires Valid() && out != buffer && log.entries != []
      requires size == Size(log.entries[0]) && start + size <= out.Length
      modifies out, `tail, `entryCount, `log
      ensures Valid() && log == old(log).(entries := old(log).entries[1..])
      ensures out[..start + size] == old(out[..start]) + EntryBytes(old(log).entries[0])
    {
      SerialiseFirst(log.entries);
      CopyBytes(out, start, size);
      if entryCount > 0 {
        entryCount := entryCount - 1;
      }
      log := log.(entries := log.entries[1..]);
    }

    method CopyBytes(out: array<byte>, start: nat, size: nat)
      requires out != buffer && buffer.Length == CAPACITY && tail < CAPACITY && head < CAPACITY
      requires start + size <= out.Length && size <= |Stretch(buffer[..], tail, head)|
      modifies out, `tail
      ensures tail < CAPACITY
      ensures Stretch(buffer[..], tail, head) == old(Stretch(buffer[..], tail, head)[size..])
      ensures out[..start + size] == old(out[..start]) + old(Stretch(buffer[..], tail, head)[..size])
    {
      ghost var was, ring, from := out[..start], Stretch(buffer[..], tail, head), tail;
      for i := 0 to size
        invariant tail == NextPos(from, i)
        invariant out[..start] == was
        invariant forall j :: 0 <= j < i ==> out[start + j] == ring[j]
      {
        out[start + i] := buffer[tail];
        tail := NextPos(tail, 1);
      }
      StretchSuffix(buffer[..], from, head, size);
      assert out[start..start + size] == ring[..size];
      SplitAt(out[..start + size], start);
    }

    // pop_ring: whole entries while they fit.
    method PopRing(out: array<byte>, room: nat) returns (written: nat, ghost done: seq<Entry>)
      requires Valid() && room <= out.Length && out != buffer
      modifies out, `tail, `entryCount, `log
      ensures Valid() && log == old(log).(entries := log.entries)
      ensures written <= room
      ensures Progress(old(log).entries, done, log.entries, out[..written])
      ensures log.entries == [] || Size(log.entries[0]) > room - written || DELTA_SIZE > room - written
    {
      written, done := 0, [];
      while written + DELTA_SIZE <= room && tail != head
        invariant Valid() && log == old(log).(entries := log.entries)
        invariant written <= room
        invariant Progress(old(log).entries, done, log.entries, out[..written])
        decreases |log.entries|
      {
        var size := OldestSize();
        if written + size > room {
          return;
        }
        ProgressStep(old(log).entries, done, log.entries, out[..written]);
        done := done + [log.entries[0]];
        PopEntry(out, written, size);
        written := written + size;
      }
    }

    // log_pop_batch.
    method PopBatch(out: array<byte>, room: nat) returns (written: nat)
      requires Valid() && room <= out.Length && out != buffer
      modifies this, out
      ensures Valid()
      ensures log == Step(old(log), Pop(room))
      ensures written <= room
      ensures out[..written] == Serialise(old(log).entries[..BatchCount(old(log).entries, room)])
    {
      ghost var done;
      written, done := PopRing(out, room);
      ProgressEnd(old(log).entries, done, log.entries, out[..written], room);
      log := log.(removed := log.removed + [Popped(done)]);
    }

    method OldestSize() returns (size: nat)
      requires Valid() && tail != head
      ensures log.entries != [] && size == Size(log.entries[0])
    {
      StretchDrop(buffer[..], tail, head);
      size := if buffer[tail] == BASE_TYPE then BASE_SIZE else DELTA_SIZE;
    }
  }

  // A batch in the making: `bytes` holds the entries in `done`, taken from the front of `all`.
  ghost predicate Progress(all: seq<Entry>, done: seq<Entry>, rest: seq<Entry>, bytes: seq<byte>) {
    all == done + rest && bytes == Serialise(done)
  }

  lemma ProgressStep(all: seq<Entry>, done: seq<Entry>, rest: seq<Entry>, bytes: seq<byte>)
    requires Progress(all, done, rest, bytes) && rest != []
    ensures Progress(all, done + [rest[0]], rest[1..], bytes + EntryBytes(rest[0]))
  {
    SerialiseConcat(done, [rest[0]]);
    SerialiseOne(rest[0]);
    SplitFirst(rest);
    Assoc(done, [rest[0]], rest[1..]);
  }

  lemma ProgressEnd(all: seq<Entry>, done: seq<Entry>, rest: seq<Entry>, bytes: seq<byte>, room: nat)
    requires Progress(all, done, rest, bytes) && |bytes| <= room
    requires rest == [] || Size(rest[0]) > room - |bytes| || DELTA_SIZE > room - |bytes|
    ensures var k := BatchCount(all, room);
            done == all[..k] && rest == all[k..]
  {
    ConcatParts(done, rest);
    BatchIsLongest(all, room, |done|);
    if rest != [] {
      ProgressStep(all, done, rest, bytes);
      ConcatParts(done + [rest[0]], rest[1..]);
      BatchIsLongest(all, room, |done| + 1);
    }
  }
}
