/** The log publisher: batches out of the ring, retried until the broker takes them, then the card's overflow file. */
module LogPublisher {
  import opened Options
  import opened Seqs
  import opened Words
  import opened LogCodec
  import opened LogRing
  import opened Base64

  const BATCH_BYTES: nat := 512
  const ENCODED_BYTES: nat := 700
  const FILE_LIMIT: nat := 1024 * 1024

  // A payload the broker has taken.
  datatype Message = Message(text: string, fromCard: bool)

  // The broker's answer to each publish call of one tick, in order.
  type Broker = nat -> bool

  // What the card does with an append: whether the file opens, how many bytes it takes, and whether a file at its limit
  // can be looked at and removed first.
  datatype CardWrite = CardWrite(opens: bool, written: nat, wipes: bool)

  // What the card does with a read: whether the file opens, after how many bytes read() starts to return 0, and whether
  // the file can be removed afterwards.
  datatype CardRead = CardRead(opens: bool, readable: nat, removes: bool)

  datatype Node = Node(log: Log, pending: seq<byte>, card: Option<seq<byte>>, accepted: seq<Message>)

  // At boot: the overflow file may be there from before.
  function Booted(card: Option<seq<byte>>): Node { Node(EMPTY_LOG, [], card, []) }

  datatype Event =
    | Sampled(sample: Sample, networkDown: bool, cardPresent: bool, write: CardWrite)
    | Ticked(up: bool, broker: Broker, read: CardRead)

  // ---------------------------------------------------------------- one event

  function Min(a: nat, b: nat): nat { if a < b then a else b }

  // flush_buffer_to_sd: a file at its limit is wiped before the append.
  function Spilled(card: Option<seq<byte>>, data: seq<byte>, w: CardWrite): Option<seq<byte>> {
    if data == [] then card
    else
      var kept := if card.Some? && |card.value| >= FILE_LIMIT && w.wipes then None else card;
      if !w.opens then kept
      else Some((if kept.Some? then kept.value else []) + data[..Min(w.written, |data|)])
  }

  function AfterSample(n: Node, x: Sample, networkDown: bool, cardPresent: bool, w: CardWrite): Node {
    var toCard := networkDown && cardPresent;
    var l := Step(n.log, Append(x, toCard));
    var data := if toCard && |l.removed| > |n.log.removed| then Serialise(n.log.entries) else [];
    n.(log := l, card := Spilled(n.card, data, w))
  }

  function Sent(n: Node, data: seq<byte>, fromCard: bool): Node {
    n.(accepted := n.accepted + [Message(Encoded(data), fromCard)])
  }

  function Retried(n: Node, broker: Broker): (n': Node)
    ensures |n'.accepted| >= |n.accepted|
  {
    if n.pending != [] && broker(0) then Sent(n, n.pending, false).(pending := []) else n
  }

  function NextBatch(l: Log): seq<byte> {
    Serialise(l.entries[..BatchCount(l.entries, BATCH_BYTES)])
  }

  function AfterBatch(n: Node, broker: Broker, call: nat): (after: Node)
    ensures |after.accepted| >= |n.accepted|
  {
    var batch := NextBatch(n.log);
    var n' := n.(log := Step(n.log, Pop(BATCH_BYTES)));
    if batch == [] then n' else if broker(call) then Sent(n', batch, false) else n'.(pending := batch)
  }

  function Chunk(file: seq<byte>): seq<byte> { file[..Min(BATCH_BYTES, |file|)] }

  function Readable(file: seq<byte>, r: CardRead): seq<byte> { file[..Min(r.readable, |file|)] }

  // Reads and publishes the bytes of a file chunk by chunk; when the next read returns 0 the file is deleted, if it can
  // be.
  function Drained(n: Node, file: seq<byte>, broker: Broker, call: nat, removes: bool): Node
    decreases |file|
  {
    if |file| == 0 then if removes then n.(card := None) else n
    else if !broker(call) then n
    else Drained(Sent(n, Chunk(file), true), file[|Chunk(file)|..], broker, call + 1, removes)
  }

  // One turn of the drain loop, with the file read up to `at`.
  lemma DrainTurn(n: Node, file: seq<byte>, at: nat, broker: Broker, call: nat, removes: bool)
    requires at <= |file|
    ensures var c := Min(BATCH_BYTES, |file| - at);
            Drained(n, file[at..], broker, call, removes) ==
            if c == 0 then if removes then n.(card := None) else n
            else if !broker(call) then n
            else Drained(Sent(n, file[at..at + c], true), file[at + c..], broker, call + 1, removes)
  {
    var c := Min(BATCH_BYTES, |file| - at);
    assert Chunk(file[at..]) == file[at..at + c] && file[at..][c..] == file[at + c..];
  }

  // The waiting batch first; a new one is popped only once that is through.
  function RingPart(n: Node, broker: Broker): (n': Node)
    ensures |n'.accepted| >= |n.accepted|
  {
    var r := Retried(n, broker);
    BatchPart(r, |r.accepted| - |n.accepted|, broker)
  }

  function BatchPart(r: Node, call: nat, broker: Broker): (n': Node)
    ensures |n'.accepted| >= |r.accepted|
  {
    if r.pending != [] then r else AfterBatch(r, broker, call)
  }

  // Then the file, if there is one, once nothing is waiting.
  function CardPart(p: Node, call: nat, broker: Broker, read: CardRead): Node {
    if p.pending != [] || !read.opens || p.card.None? then p
    else Drained(p, Readable(p.card.value, read), broker, call, read.removes)
  }

  function AfterTick(n: Node, broker: Broker, read: CardRead): Node {
    var p := RingPart(n, broker);
    CardPart(p, |p.accepted| - |n.accepted|, broker, read)
  }

  function After(n: Node, e: Event): Node {
    match e
    case Sampled(x, networkDown, cardPresent, w) => AfterSample(n, x, networkDown, cardPresent, w)
    case Ticked(up, broker, read) => if up then AfterTick(n, broker, read) else n
  }

  ghost function RunNode(first: Option<seq<byte>>, events: seq<Event>): Node {
    if |events| == 0 then Booted(first)
    else After(RunNode(first, events[..|events| - 1]), events[|events| - 1])
  }

  ghost function SamplesOf(events: seq<Event>): seq<Sample> {
    if |events| == 0 then []
    else
      var e := events[|events| - 1];
      var before := SamplesOf(events[..|events| - 1]);
      if e.Sampled? then before + [e.sample] else before
  }

  // ---------------------------------------------------------------- exactly once

  // How entries leave the ring.
  datatype Way = ToBroker | ToCard | Lost

  function WayOf(r: Removal): Way {
    match r
    case Popped(_) => ToBroker
    case Flushed(_) => ToCard
    case Dropped(_) => Lost
  }

  // Everything that ever left that way, in order.
  function Gone(removed: seq<Removal>, way: Way): seq<Entry> {
    if removed == [] then []
    else
      var r := removed[|removed| - 1];
      var before := Gone(removed[..|removed| - 1], way);
      if WayOf(r) == way then before + r.entries else before
  }

  // What a subscriber reads out of the messages that came from the ring.
  function RingPayload(accepted: seq<Message>): seq<byte> {
    if accepted == [] then []
    else
      var m := accepted[|accepted| - 1];
      var before := RingPayload(accepted[..|accepted| - 1]);
      if m.fromCard || Decoded(m.text).None? then before else before + Decoded(m.text).value
  }

  ghost predicate OnceInOrder(n: Node) {
    && |n.pending| <= BATCH_BYTES
    && RingPayload(n.accepted) + n.pending == Serialise(Gone(n.log.removed, ToBroker))
  }

  lemma PayloadPlus(accepted: seq<Message>, data: seq<byte>, fromCard: bool)
    ensures RingPayload(accepted + [Message(Encoded(data), fromCard)])
         == if fromCard then RingPayload(accepted) else RingPayload(accepted) + data
  {
    DecodeEncoded(data);
    assert (accepted + [Message(Encoded(data), fromCard)])[..|accepted|] == accepted;
  }

  lemma GonePlus(removed: seq<Removal>, r: Removal, way: Way)
    ensures Gone(removed + [r], way)
         == if WayOf(r) == way then Gone(removed, way) + r.entries else Gone(removed, way)
  {
    assert (removed + [r])[..|removed|] == removed;
  }

  lemma BatchBound(l: Log)
    ensures |NextBatch(l)| <= BATCH_BYTES
  {
    BatchIsLongest(l.entries, BATCH_BYTES, BatchCount(l.entries, BATCH_BYTES));
  }

  lemma SampleKeepsOnce(n: Node, x: Sample, networkDown: bool, cardPresent: bool, w: CardWrite)
    requires OnceInOrder(n)
    ensures OnceInOrder(AfterSample(n, x, networkDown, cardPresent, w))
  {
    var l := Step(n.log, Append(x, networkDown && cardPresent));
    if |l.removed| > |n.log.removed| {
      GonePlus(n.log.removed, l.removed[|n.log.removed|], ToBroker);
    }
  }

  lemma RetryKeepsOnce(n: Node, broker: Broker)
    requires OnceInOrder(n)
    ensures OnceInOrder(Retried(n, broker))
  {
    PayloadPlus(n.accepted, n.pending, false);
    RightUnit(RingPayload(Retried(n, broker).accepted));
  }

  lemma PopKeepsOnce(n: Node, broker: Broker, call: nat)
    requires OnceInOrder(n) && n.pending == []
    ensures OnceInOrder(AfterBatch(n, broker, call))
  {
    var es, batch := n.log.entries[..BatchCount(n.log.entries, BATCH_BYTES)], NextBatch(n.log);
    BatchBound(n.log);
    GonePlus(n.log.removed, Removal.Popped(es), ToBroker);
    SerialiseConcat(Gone(n.log.removed, ToBroker), es);
    RightUnit(RingPayload(n.accepted));
    if batch != [] && broker(call) {
      PayloadPlus(n.accepted, batch, false);
      RightUnit(RingPayload(Sent(n, batch, false).accepted));
    }
  }

  lemma {:induction false} DrainKeepsRing(n: Node, file: seq<byte>, broker: Broker, call: nat, removes: bool)
    ensures var d := Drained(n, file, broker, call, removes);
            d.log == n.log && d.pending == n.pending && RingPayload(d.accepted) == RingPayload(n.accepted)
    decreases |file|
  {
    if |file| > 0 && broker(call) {
      PayloadPlus(n.accepted, Chunk(file), true);
      DrainKeepsRing(Sent(n, Chunk(file), true), file[|Chunk(file)|..], broker, call + 1, removes);
    }
  }

  lemma RingPartKeepsOnce(n: Node, broker: Broker)
    requires OnceInOrder(n)
    ensures OnceInOrder(RingPart(n, broker))
  {
    hide Retried, BatchPart, OnceInOrder;
    RetryKeepsOnce(n, broker);
    BatchPartKeepsOnce(Retried(n, broker), |Retried(n, broker).accepted| - |n.accepted|, broker);
  }

  lemma BatchPartKeepsOnce(r: Node, call: nat, broker: Broker)
    requires OnceInOrder(r)
    ensures OnceInOrder(BatchPart(r, call, broker))
  {
    if r.pending == [] {
      PopKeepsOnce(r, broker, call);
    }
  }

  lemma CardPartKeepsOnce(p: Node, call: nat, broker: Broker, read: CardRead)
    requires OnceInOrder(p)
    ensures OnceInOrder(CardPart(p, call, broker, read))
  {
    if p.card.Some? {
      DrainKeepsRing(p, Readable(p.card.value, read), broker, call, read.removes);
    }
  }

  lemma TickKeepsOnce(n: Node, broker: Broker, read: CardRead)
    requires OnceInOrder(n)
    ensures OnceInOrder(AfterTick(n, broker, read))
  {
    hide RingPart, CardPart, OnceInOrder;
    RingPartKeepsOnce(n, broker);
    CardPartKeepsOnce(RingPart(n, broker), |RingPart(n, broker).accepted| - |n.accepted|, broker, read);
  }

  // Whatever the broker answers, batches popped from the ring reach it exactly once and in pop order: what it has
  // taken, followed by the batch still waiting, is everything popped.
  lemma {:induction false} PublishedOnce(first: Option<seq<byte>>, events: seq<Event>)
    ensures OnceInOrder(RunNode(first, events))
  {
    if |events| > 0 {
      PublishedOnce(first, events[..|events| - 1]);
      var n := RunNode(first, events[..|events| - 1]);
      match events[|events| - 1]
      case Sampled(x, networkDown, cardPresent, w) => SampleKeepsOnce(n, x, networkDown, cardPresent, w);
      case Ticked(up, broker, read) => TickKeepsOnce(n, broker, read);
    }
  }

  // ---------------------------------------------------------------- every tick publishes what the broker takes

  // The first k entries are the longest run of whole ones that fits 512 bytes.
  predicate LongestBatch(es: seq<Entry>, k: nat) {
    && k <= |es| && |Serialise(es[..k])| <= 512
    && (k < |es| ==> |Serialise(es[..k + 1])| > 512)
  }

  lemma NextIsLongest(es: seq<Entry>) returns (k: nat)
    ensures k == BatchCount(es, BATCH_BYTES) && LongestBatch(es, k)
    ensures k == 0 <==> es == []
    ensures Serialise(es[..k]) == [] <==> k == 0
  {
    k := BatchCount(es, BATCH_BYTES);
    BatchIsLongest(es, BATCH_BYTES, k);
    if k < |es| {
      BatchIsLongest(es, BATCH_BYTES, k + 1);
    }
    SerialiseSize(es[..k]);
  }

  // Which of a tick's calls carries the batch from the ring: the second when one was waiting, else the first.
  function BatchCall(n: Node): nat { if n.pending != [] then 1 else 0 }

  // What a connected tick does with the ring, by the broker's answers: a waiting batch that is refused stays, and
  // nothing else happens; otherwise subscribers have it, the longest batch that fits leaves the ring, and is published
  // or waits.
  ghost predicate Published(n: Node, n': Node, broker: Broker, k: nat) {
    if n.pending != [] && !broker(0) then n' == n
    else
      && LongestBatch(n.log.entries, k)
      && n'.log.entries == n.log.entries[k..]
      && var batch := Serialise(n.log.entries[..k]);
         if batch == [] || broker(BatchCall(n)) then
           RingPayload(n'.accepted) == RingPayload(n.accepted) + n.pending + batch && n'.pending == []
         else
           RingPayload(n'.accepted) == RingPayload(n.accepted) + n.pending && n'.pending == batch
  }

  lemma RetriedPayload(n: Node, broker: Broker)
    ensures var r := Retried(n, broker);
            && r.log == n.log
            && (n.pending != [] && !broker(0) ==> r == n)
            && (n.pending == [] || broker(0) ==>
                  && r.pending == [] && RingPayload(r.accepted) == RingPayload(n.accepted) + n.pending
                  && |r.accepted| - |n.accepted| == BatchCall(n))
  {
    RightUnit(RingPayload(n.accepted));
    PayloadPlus(n.accepted, n.pending, false);
  }

  lemma BatchPayload(r: Node, call: nat, broker: Broker) returns (k: nat)
    requires r.pending == []
    ensures LongestBatch(r.log.entries, k)
    ensures var n', batch := AfterBatch(r, broker, call), Serialise(r.log.entries[..k]);
            && n'.log.entries == r.log.entries[k..]
            && if batch == [] || broker(call) then
                 RingPayload(n'.accepted) == RingPayload(r.accepted) + batch && n'.pending == []
               else RingPayload(n'.accepted) == RingPayload(r.accepted) && n'.pending == batch
  {
    k := NextIsLongest(r.log.entries);
    RightUnit(RingPayload(r.accepted));
    PayloadPlus(r.accepted, NextBatch(r.log), false);
  }

  lemma RingPartPublishes(n: Node, broker: Broker) returns (k: nat)
    ensures Published(n, RingPart(n, broker), broker, k)
  {
    hide Retried, AfterBatch, Serialise, RingPayload;
    RetriedPayload(n, broker);
    var r := Retried(n, broker);
    if r.pending == [] {
      k := BatchPayload(r, |r.accepted| - |n.accepted|, broker);
    } else {
      k := 0;
    }
  }

  lemma TickPublishes(n: Node, broker: Broker, read: CardRead) returns (k: nat)
    ensures Published(n, AfterTick(n, broker, read), broker, k)
  {
    hide RingPart, Drained, Serialise, RingPayload;
    var p := RingPart(n, broker);
    k := RingPartPublishes(n, broker);
    if p.card.Some? {
      DrainKeepsRing(p, Readable(p.card.value, read), broker, |p.accepted| - |n.accepted|, read.removes);
    }
  }

  // A connected tick with a broker that takes everything.
  ghost predicate Accepting(e: Event) { e.Ticked? && e.up && forall k: nat :: e.broker(k) }

  lemma AcceptedTick(n: Node, e: Event)
    requires Accepting(e)
    ensures After(n, e).pending == []
    ensures |After(n, e).log.entries| < |n.log.entries| || After(n, e).log.entries == n.log.entries == []
  {
    hide AfterTick, Serialise, RingPayload;
    assert e.broker(0) && e.broker(BatchCall(n));
    var k := TickPublishes(n, e.broker, e.read);
    if k == 0 {
      if |n.log.entries| > 0 {
        OneFits(n.log.entries);
      }
    }
  }

  lemma OneFits(es: seq<Entry>)
    requires |es| > 0
    ensures |Serialise(es[..1])| <= 512
  {
    SerialiseSize(es[..1]);
  }

  // From any state, once the broker takes everything, as many ticks as there are entries (and one for a waiting batch)
  // leave nothing waiting and the ring empty: then subscribers have all that was ever popped.
  lemma {:induction false} EverythingGoesOut(first: Option<seq<byte>>, events: seq<Event>, k: nat)
    requires k <= |events| && forall j :: k <= j < |events| ==> Accepting(events[j])
    ensures var before, n := RunNode(first, events[..k]), RunNode(first, events);
            && (|events| > k ==> n.pending == [])
            && (|n.log.entries| <= |before.log.entries| - (|events| - k) || n.log.entries == [])
    decreases |events|
  {
    hide After;
    if |events| == k {
      assert events[..k] == events;
    } else {
      var shorter := events[..|events| - 1];
      assert shorter[..k] == events[..k];
      EverythingGoesOut(first, shorter, k);
      AcceptedTick(RunNode(first, shorter), events[|events| - 1]);
    }
  }

  // ---------------------------------------------------------------- nothing lost

  // The same log, with entries moved from the ring to the taken part at most.
  predicate Conserves(l: Log, l': Log) {
    l'.codec == l.codec && Taken(l'.removed) + l'.entries == Taken(l.removed) + l.entries
  }

  lemma BatchPartConserves(r: Node, call: nat, broker: Broker)
    ensures Conserves(r.log, BatchPart(r, call, broker).log)
  {
    PopConserves(r.log, BATCH_BYTES);
  }

  lemma RingPartConserves(n: Node, broker: Broker)
    ensures Conserves(n.log, RingPart(n, broker).log)
  {
    hide BatchPart, Conserves;
    var r := Retried(n, broker);
    BatchPartConserves(r, |r.accepted| - |n.accepted|, broker);
  }

  lemma TickConserves(n: Node, broker: Broker, read: CardRead)
    ensures Conserves(n.log, AfterTick(n, broker, read).log)
  {
    hide RingPart, CardPart, Conserves;
    RingPartConserves(n, broker);
    CardPartKeepsLog(RingPart(n, broker), |RingPart(n, broker).accepted| - |n.accepted|, broker, read);
  }

  lemma CardPartKeepsLog(p: Node, call: nat, broker: Broker, read: CardRead)
    ensures CardPart(p, call, broker, read).log == p.log
  {
    if p.card.Some? {
      DrainKeepsRing(p, Readable(p.card.value, read), broker, call, read.removes);
    }
  }

  lemma {:induction false} NodeConserves(first: Option<seq<byte>>, events: seq<Event>)
    ensures var l, xs := RunNode(first, events).log, SamplesOf(events);
            && l.codec == StateBefore(Empty, xs, |xs|)
            && Taken(l.removed) + l.entries == EncodeAll(Empty, xs)
  {
    if |events| > 0 {
      var before := events[..|events| - 1];
      NodeConserves(first, before);
      var n := RunNode(first, before);
      match events[|events| - 1]
      case Sampled(x, networkDown, cardPresent, _) =>
        PutConserves(n.log, Encode(n.log.codec, x), networkDown && cardPresent);
        EncodeAllPlus(SamplesOf(before), x);
      case Ticked(up, broker, read) =>
        if up {
          TickConserves(n, broker, read);
        }
    }
  }

  // What subscribers have received, then the waiting batch, then the ring, can be read as the entries popped and those
  // still stored, whatever the broker refused along the way and whatever left the ring another way. When nothing did,
  // they decode to exactly the samples logged.
  lemma SubscribersGetEveryEntry(first: Option<seq<byte>>, events: seq<Event>)
    ensures var n := RunNode(first, events);
            var read := Parse(RingPayload(n.accepted) + n.pending + Serialise(n.log.entries));
            && read == Gone(n.log.removed, ToBroker) + n.log.entries
            && (AllTo(n.log.removed, ToBroker) ==> DecodeAll(Empty, read) == SamplesOf(events))
  {
    var n := RunNode(first, events);
    PublishedOnce(first, events);
    SerialiseConcat(Gone(n.log.removed, ToBroker), n.log.entries);
    ParseBack(Gone(n.log.removed, ToBroker) + n.log.entries);
    if AllTo(n.log.removed, ToBroker) {
      NodeConserves(first, events);
      OneWay(n.log.removed, ToBroker);
      RoundTrip(Empty, SamplesOf(events));
    }
  }

  predicate AllTo(removed: seq<Removal>, way: Way) { forall k :: 0 <= k < |removed| ==> WayOf(removed[k]) == way }

  lemma {:induction false} OneWay(removed: seq<Removal>, way: Way)
    requires AllTo(removed, way)
    ensures Gone(removed, way) == Taken(removed)
  {
    if removed != [] {
      OneWay(removed[..|removed| - 1], way);
    }
  }

  // ---------------------------------------------------------------- the overflow file

  function CardPayload(accepted: seq<Message>): seq<byte> {
    if accepted == [] then []
    else
      var m := accepted[|accepted| - 1];
      var before := CardPayload(accepted[..|accepted| - 1]);
      if !m.fromCard || Decoded(m.text).None? then before else before + Decoded(m.text).value
  }

  lemma CardPayloadPlus(accepted: seq<Message>, data: seq<byte>, fromCard: bool)
    ensures CardPayload(accepted + [Message(Encoded(data), fromCard)])
         == if fromCard then CardPayload(accepted) + data else CardPayload(accepted)
  {
    DecodeEncoded(data);
    assert (accepted + [Message(Encoded(data), fromCard)])[..|accepted|] == accepted;
  }

  // How much of the file one drain gets across.
  function DrainedBytes(file: seq<byte>, broker: Broker, call: nat): (k: nat)
    ensures k <= |file|
    decreases |file|
  {
    if |file| == 0 || !broker(call) then 0
    else |Chunk(file)| + DrainedBytes(file[|Chunk(file)|..], broker, call + 1)
  }

  lemma {:induction false} DrainSends(n: Node, file: seq<byte>, broker: Broker, call: nat, removes: bool)
    ensures var d, k := Drained(n, file, broker, call, removes), DrainedBytes(file, broker, call);
            && CardPayload(d.accepted) == CardPayload(n.accepted) + file[..k]
            && d.card == if k == |file| && removes then None else n.card
    decreases |file|
  {
    var k := DrainedBytes(file, broker, call);
    if |file| == 0 || !broker(call) {
      RightUnit(CardPayload(n.accepted));
    } else {
      var c := Chunk(file);
      var rest := file[|c|..];
      CardPayloadPlus(n.accepted, c, true);
      DrainSends(Sent(n, c, true), rest, broker, call + 1, removes);
      Assoc(CardPayload(n.accepted), c, rest[..k - |c|]);
      SliceSplit(file, |c|, k);
    }
  }

  lemma SliceSplit<T>(s: seq<T>, a: nat, b: nat)
    requires a <= b <= |s|
    ensures s[..a] + s[a..][..b - a] == s[..b]
  {
  }

  lemma RetryLeavesCard(n: Node, broker: Broker)
    ensures CardPayload(Retried(n, broker).accepted) == CardPayload(n.accepted) && Retried(n, broker).card == n.card
  {
    if n.pending != [] && broker(0) {
      CardPayloadPlus(n.accepted, n.pending, false);
    }
  }

  lemma PopLeavesCard(n: Node, broker: Broker, call: nat)
    ensures CardPayload(AfterBatch(n, broker, call).accepted) == CardPayload(n.accepted)
    ensures AfterBatch(n, broker, call).card == n.card
  {
    if NextBatch(n.log) != [] && broker(call) {
      CardPayloadPlus(n.accepted, NextBatch(n.log), false);
    }
  }

  lemma RingPartLeavesCard(n: Node, broker: Broker)
    ensures CardPayload(RingPart(n, broker).accepted) == CardPayload(n.accepted)
    ensures RingPart(n, broker).card == n.card
  {
    var r := Retried(n, broker);
    RetryLeavesCard(n, broker);
    PopLeavesCard(r, broker, |r.accepted| - |n.accepted|);
  }

  // Between two states of the publisher, the first k bytes of the overflow file got across.
  ghost predicate CardProgress(n: Node, n': Node, k: nat, readable: nat, removes: bool)
    requires n.card.Some? && k <= |n.card.value|
  {
    && CardPayload(n'.accepted) == CardPayload(n.accepted) + n.card.value[..k]
    && k <= readable
    && (n'.card.None? ==> k == readable && removes)
    && (k == readable > 0 && removes ==> n'.card.None?)
    && (n'.card.Some? ==> n'.card == n.card)
    && (k > 0 || n'.card.None? ==> n'.pending == [])
  }

  // The file is deleted only in a tick that has published, in order, all the bytes it could read; any other tick leaves
  // it whole, whatever part of it got across. It is not touched before the ring's own batches are through.
  lemma CardDeletedWhenRead(n: Node, broker: Broker, read: CardRead) returns (k: nat)
    requires n.card.Some?
    ensures k <= |n.card.value|
    ensures CardProgress(n, AfterTick(n, broker, read), k, |Readable(n.card.value, read)|, read.removes)
  {
    hide RingPart, Drained, CardPayload;
    var p := RingPart(n, broker);
    RingPartLeavesCard(n, broker);
    if p.pending == [] && read.opens {
      k := DrainProgress(n, p, broker, read, |p.accepted| - |n.accepted|);
    } else {
      k := 0;
      RightUnit(CardPayload(n.accepted));
    }
  }

  lemma DrainProgress(n: Node, p: Node, broker: Broker, read: CardRead, call: nat) returns (k: nat)
    requires n.card.Some? && p.card == n.card && p.pending == [] && CardPayload(p.accepted) == CardPayload(n.accepted)
    ensures var file := Readable(n.card.value, read);
            && k <= |n.card.value|
            && CardProgress(n, Drained(p, file, broker, call, read.removes), k, |file|, read.removes)
  {
    hide Drained, DrainedBytes, CardPayload, RingPayload;
    var file := Readable(n.card.value, read);
    DrainKeepsRing(p, file, broker, call, read.removes);
    DrainSends(p, file, broker, call, read.removes);
    k := DrainedBytes(file, broker, call);
    assert file[..k] == n.card.value[..k];
  }

  // A tick that deletes the file has published all of it exactly when every read worked: a read that fails half-way
  // looks like the end of the file, and the rest is deleted unpublished.
  lemma DeletedExactly(n: Node, broker: Broker, read: CardRead)
    requires n.card.Some? && AfterTick(n, broker, read).card.None?
    ensures CardPayload(AfterTick(n, broker, read).accepted) == CardPayload(n.accepted) + n.card.value <==>
            read.readable >= |n.card.value|
  {
    var k := CardDeletedWhenRead(n, broker, read);
    assert k == |n.card.value| ==> n.card.value[..k] == n.card.value;
  }

  // ---------------------------------------------------------------- the file over whole runs

  lemma {:induction false} RingBounded(first: Option<seq<byte>>, events: seq<Event>)
    ensures |Serialise(RunNode(first, events).log.entries)| + 1 < CAPACITY
  {
    if |events| > 0 {
      var n := RunNode(first, events[..|events| - 1]);
      RingBounded(first, events[..|events| - 1]);
      match events[|events| - 1]
      case Sampled(x, networkDown, cardPresent, _) =>
        PutFits(n.log, Encode(n.log.codec, x), networkDown && cardPresent);
      case Ticked(up, broker, read) =>
        if up {
          TickShrinks(n, broker, read);
        }
    }
  }

  lemma BatchShrinks(n: Node, broker: Broker, call: nat)
    ensures |Serialise(AfterBatch(n, broker, call).log.entries)| <= |Serialise(n.log.entries)|
  {
    var k := BatchCount(n.log.entries, BATCH_BYTES);
    SplitAt(n.log.entries, k);
    SerialiseConcat(n.log.entries[..k], n.log.entries[k..]);
    assert AfterBatch(n, broker, call).log.entries == n.log.entries[k..];
  }

  lemma TickShrinks(n: Node, broker: Broker, read: CardRead)
    ensures |Serialise(AfterTick(n, broker, read).log.entries)| <= |Serialise(n.log.entries)|
  {
    hide Serialise;
    var r := Retried(n, broker);
    if r.pending == [] {
      BatchShrinks(r, broker, |r.accepted| - |n.accepted|);
    }
    CardPartKeepsLog(RingPart(n, broker), |RingPart(n, broker).accepted| - |n.accepted|, broker, read);
  }

  // The sample does not fit and the ring goes to the card.
  predicate Spills(n: Node, x: Sample, toCard: bool) {
    toCard && |Serialise(n.log.entries)| + |EntryBytes(Encode(n.log.codec, x))| + 1 >= 16384
  }

  // No byte of the file is lost.
  predicate Survives(card: Option<seq<byte>>, card': Option<seq<byte>>) {
    card.Some? ==> card'.Some? && card.value <= card'.value
  }

  // The old file survives a sample, as the start of the new one, exactly when nothing is spilled, the file is below its
  // limit, or the card does not let it be removed: else a spill onto a file of 1 MiB or more wipes it, unpublished.
  lemma SpillKeepsExactly(
      first: Option<seq<byte>>, events: seq<Event>, x: Sample, networkDown: bool, cardPresent: bool, w: CardWrite)
    requires RunNode(first, events).card.Some?
    ensures var n := RunNode(first, events);
            Survives(n.card, AfterSample(n, x, networkDown, cardPresent, w).card) <==>
            !Spills(n, x, networkDown && cardPresent) || |n.card.value| < 1024 * 1024 || !w.wipes
  {
    var n := RunNode(first, events);
    RingBounded(first, events);
    var n' := AfterSample(n, x, networkDown, cardPresent, w);
    if !Spills(n, x, networkDown && cardPresent) {
      assert n'.card == n.card;
    } else {
      SpillContents(n, x, networkDown, cardPresent, w);
    }
  }

  lemma SpillContents(n: Node, x: Sample, networkDown: bool, cardPresent: bool, w: CardWrite)
    requires Spills(n, x, networkDown && cardPresent)
    ensures AfterSample(n, x, networkDown, cardPresent, w).card == Spilled(n.card, Serialise(n.log.entries), w)
    ensures Serialise(n.log.entries) != []
  {
  }

  // What a spill finds in the file once a file at its limit is out of the way.
  function Kept(card: Option<seq<byte>>, w: CardWrite): seq<byte> {
    if card.Some? && |card.value| >= FILE_LIMIT && w.wipes then [] else Contents(card)
  }

  // The flushed batch reaches the card whole, after what was there, if and only if the file opens and takes all of it.
  lemma SpillReachesExactly(n: Node, x: Sample, networkDown: bool, cardPresent: bool, w: CardWrite)
    requires Spills(n, x, networkDown && cardPresent)
    ensures var data := Serialise(n.log.entries);
            Contents(AfterSample(n, x, networkDown, cardPresent, w).card) == Kept(n.card, w) + data <==>
            w.opens && w.written >= |data|
  {
    SpillContents(n, x, networkDown, cardPresent, w);
    AppendExactly(n.card, Serialise(n.log.entries), w);
  }

  lemma AppendExactly(card: Option<seq<byte>>, data: seq<byte>, w: CardWrite)
    requires data != []
    ensures Contents(Spilled(card, data, w)) == Kept(card, w) + data <==> w.opens && w.written >= |data|
    ensures w.opens ==> Contents(Spilled(card, data, w)) == Kept(card, w) + data[..Min(w.written, |data|)]
  {
    var c := Contents(Spilled(card, data, w));
    if w.opens && w.written >= |data| {
      assert data[..|data|] == data;
    } else if w.opens {
      assert |c| < |Kept(card, w) + data|;
    } else {
      assert |c| == |Kept(card, w)|;
    }
  }

  // The broker refuses the k-th publish call.
  predicate RefusedAt(broker: Broker, k: nat) { !broker(k) }

  function Chunks(file: seq<byte>): nat { (|file| + 511) / 512 }

  lemma ChunksRest(file: seq<byte>)
    requires |file| > 0
    ensures Chunks(file) == 1 + Chunks(file[|Chunk(file)|..])
  {
  }

  // A drain stops short exactly when the broker refuses one of its chunks.
  lemma {:induction false} StopsAtRefusal(file: seq<byte>, broker: Broker, call: nat)
    ensures DrainedBytes(file, broker, call) < |file| <==>
            exists k: nat :: call <= k < call + Chunks(file) && RefusedAt(broker, k)
    decreases |file|
  {
    if |file| > 0 {
      ChunksRest(file);
      if !broker(call) {
        assert RefusedAt(broker, call);
      } else {
        StopsAtRefusal(file[|Chunk(file)|..], broker, call + 1);
        assert !RefusedAt(broker, call);
      }
    }
  }

  // The file survives a tick exactly when the tick does not delete it: a drain that never starts, that the broker stops
  // at one of its chunks, or whose file the card does not let be removed.
  lemma TickKeepsExactly(n: Node, broker: Broker, read: CardRead)
    requires n.card.Some?
    ensures var p := RingPart(n, broker);
            var call, chunks := |p.accepted| - |n.accepted|, Chunks(Readable(n.card.value, read));
            Survives(n.card, AfterTick(n, broker, read).card) <==>
            || p.pending != [] || !read.opens || !read.removes
            || exists k: nat :: call <= k < call + chunks && RefusedAt(broker, k)
  {
    hide RingPart, DrainedBytes, Drained, CardPayload, Chunks;
    var p, file := RingPart(n, broker), Readable(n.card.value, read);
    RingPartLeavesCard(n, broker);
    DrainSends(p, file, broker, |p.accepted| - |n.accepted|, read.removes);
    StopsAtRefusal(file, broker, |p.accepted| - |n.accepted|);
  }

  // With a broker that takes everything and a card that fails nothing, one tick gets the whole file across and deletes
  // it.
  lemma AcceptedDrain(n: Node, e: Event)
    requires Accepting(e) && n.card.Some?
    requires e.read.opens && e.read.removes && e.read.readable >= |n.card.value|
    ensures After(n, e).card.None? && CardPayload(After(n, e).accepted) == CardPayload(n.accepted) + n.card.value
  {
    hide RingPart, AfterTick, Drained, CardPayload, RingPayload, Serialise;
    assert e.broker(0) && e.broker(BatchCall(n));
    var k := RingPartPublishes(n, e.broker);
    TickKeepsExactly(n, e.broker, e.read);
    var progress := CardDeletedWhenRead(n, e.broker, e.read);
    DeletedExactly(n, e.broker, e.read);
  }

  // An event in which the card fails nothing: appends are whole, none wipes the file, and no drain deletes it without
  // reading all of it.
  predicate CardWorks(n: Node, e: Event) {
    match e
    case Sampled(x, networkDown, cardPresent, w) =>
      Spills(n, x, networkDown && cardPresent) ==>
        && w.opens && w.written >= |Serialise(n.log.entries)|
        && (n.card.Some? ==> |n.card.value| < FILE_LIMIT || !w.wipes)
    case Ticked(_, _, read) => read.opens && read.removes && n.card.Some? ==> read.readable >= |n.card.value|
  }

  ghost predicate CardAlwaysWorks(first: Option<seq<byte>>, events: seq<Event>) {
    |events| == 0 ||
    (var before := events[..|events| - 1];
     CardAlwaysWorks(first, before) && CardWorks(RunNode(first, before), events[|events| - 1]))
  }

  function Contents(card: Option<seq<byte>>): seq<byte> { if card.Some? then card.value else [] }

  // The files deleted by ticks, in order.
  ghost function Deleted(first: Option<seq<byte>>, events: seq<Event>): seq<seq<byte>> {
    if |events| == 0 then []
    else
      var before, e := events[..|events| - 1], events[|events| - 1];
      if e.Ticked? && RunNode(first, before).card.Some? && RunNode(first, events).card.None?
      then Deleted(first, before) + [RunNode(first, before).card.value] else Deleted(first, before)
  }

  function Joined(files: seq<seq<byte>>): seq<byte> {
    if |files| == 0 then [] else Joined(files[..|files| - 1]) + files[|files| - 1]
  }

  // The files lie in the payload whole, one after the other.
  ghost predicate LieIn(files: seq<seq<byte>>, payload: seq<byte>)
    decreases |files|, 1
  {
    |files| == 0 || exists at: nat :: LiesAt(files, payload, at)
  }

  ghost predicate LiesAt(files: seq<seq<byte>>, payload: seq<byte>, at: nat)
    requires |files| > 0
    decreases |files|, 0
  {
    var file := files[|files| - 1];
    at + |file| <= |payload| && payload[at..at + |file|] == file && LieIn(files[..|files| - 1], payload[..at])
  }

  lemma LieInMore(files: seq<seq<byte>>, payload: seq<byte>, more: seq<byte>)
    requires LieIn(files, payload)
    ensures LieIn(files, payload + more)
  {
    if |files| > 0 {
      var at: nat :| LiesAt(files, payload, at);
      var file := files[|files| - 1];
      assert (payload + more)[..at] == payload[..at];
      assert (payload + more)[at..at + |file|] == payload[at..at + |file|];
      assert LiesAt(files, payload + more, at);
    }
  }

  lemma LieInPlus(files: seq<seq<byte>>, payload: seq<byte>, file: seq<byte>)
    requires LieIn(files, payload)
    ensures LieIn(files + [file], payload + file)
  {
    var all := files + [file];
    assert all[..|all| - 1] == files;
    ConcatParts(payload, file);
    assert (payload + file)[|payload|..|payload| + |file|] == file;
    assert LiesAt(all, payload + file, |payload|);
  }

  lemma JoinedPlus(files: seq<seq<byte>>, file: seq<byte>)
    ensures Joined(files + [file]) == Joined(files) + file
  {
    assert (files + [file])[..|files|] == files;
  }

  // What was on the card at boot and everything flushed is in the deleted files, which subscribers received whole and
  // in order, or still on the card.
  ghost predicate CardHolds(first: Option<seq<byte>>, n: Node, deleted: seq<seq<byte>>) {
    && Joined(deleted) + Contents(n.card) == Contents(first) + Serialise(Gone(n.log.removed, ToCard))
    && LieIn(deleted, CardPayload(n.accepted))
  }

  lemma SampleGone(n: Node, x: Sample, networkDown: bool, cardPresent: bool, w: CardWrite)
    ensures var n' := AfterSample(n, x, networkDown, cardPresent, w);
            var spills := Spills(n, x, networkDown && cardPresent);
            && n'.accepted == n.accepted
            && (!spills ==> n'.card == n.card)
            && Gone(n'.log.removed, ToCard) ==
               if spills then Gone(n.log.removed, ToCard) + n.log.entries else Gone(n.log.removed, ToCard)
  {
    hide Serialise, Encode;
    var n' := AfterSample(n, x, networkDown, cardPresent, w);
    if |n'.log.removed| > |n.log.removed| {
      GonePlus(n.log.removed, n'.log.removed[|n.log.removed|], ToCard);
    }
  }

  lemma SpillHolds(
      first: Option<seq<byte>>, n: Node, deleted: seq<seq<byte>>,
      x: Sample, networkDown: bool, cardPresent: bool, w: CardWrite)
    requires CardHolds(first, n, deleted) && CardWorks(n, Sampled(x, networkDown, cardPresent, w))
    ensures CardHolds(first, AfterSample(n, x, networkDown, cardPresent, w), deleted)
  {
    hide AfterSample, Serialise, Encode, LieIn, CardPayload, Gone, Joined, Fits;
    SampleGone(n, x, networkDown, cardPresent, w);
    if Spills(n, x, networkDown && cardPresent) {
      var data := Serialise(n.log.entries);
      SpillContents(n, x, networkDown, cardPresent, w);
      AppendExactly(n.card, data, w);
      SerialiseConcat(Gone(n.log.removed, ToCard), n.log.entries);
      Assoc(Joined(deleted), Contents(n.card), data);
      Assoc(Contents(first), Serialise(Gone(n.log.removed, ToCard)), data);
    }
  }

  lemma TickGone(n: Node, broker: Broker, read: CardRead)
    ensures Gone(AfterTick(n, broker, read).log.removed, ToCard) == Gone(n.log.removed, ToCard)
  {
    hide Serialise;
    var r := Retried(n, broker);
    var es := n.log.entries[..BatchCount(n.log.entries, BATCH_BYTES)];
    GonePlus(n.log.removed, Removal.Popped(es), ToCard);
    CardPartKeepsLog(RingPart(n, broker), |RingPart(n, broker).accepted| - |n.accepted|, broker, read);
  }

  lemma TickOpens(n: Node, broker: Broker, read: CardRead)
    ensures n.card.None? ==>
              AfterTick(n, broker, read).card.None?
              && CardPayload(AfterTick(n, broker, read).accepted) == CardPayload(n.accepted)
    ensures n.card.Some? && AfterTick(n, broker, read).card.None? ==> read.opens && read.removes
  {
    hide RingPart, CardPayload, Drained;
    RingPartLeavesCard(n, broker);
    if n.card.Some? {
      var p := RingPart(n, broker);
      DrainSends(p, Readable(n.card.value, read), broker, |p.accepted| - |n.accepted|, read.removes);
    }
  }

  lemma TickHolds(first: Option<seq<byte>>, n: Node, deleted: seq<seq<byte>>, broker: Broker, read: CardRead)
    requires CardHolds(first, n, deleted) && CardWorks(n, Ticked(true, broker, read))
    ensures var n' := AfterTick(n, broker, read);
            CardHolds(first, n', if n.card.Some? && n'.card.None? then deleted + [n.card.value] else deleted)
  {
    hide Serialise, AfterTick, RingPart, LieIn, CardPayload, Gone, Joined;
    var n' := AfterTick(n, broker, read);
    TickGone(n, broker, read);
    TickOpens(n, broker, read);
    if n.card.Some? {
      var file := n.card.value;
      var k := CardDeletedWhenRead(n, broker, read);
      if n'.card.None? {
        assert file[..k] == file;
        LieInPlus(deleted, CardPayload(n.accepted), file);
        JoinedPlus(deleted, file);
        RightUnit(Joined(deleted) + file);
      } else {
        LieInMore(deleted, CardPayload(n.accepted), file[..k]);
      }
    }
  }

  // Over any run in which the card fails nothing: the files deleted, in order, followed by the one on the card, are
  // what was there at boot and what was flushed, byte for byte, and subscribers received each deleted file whole.
  lemma {:induction false} FlushedIsKept(first: Option<seq<byte>>, events: seq<Event>)
    requires CardAlwaysWorks(first, events)
    ensures CardHolds(first, RunNode(first, events), Deleted(first, events))
  {
    if |events| > 0 {
      var before := events[..|events| - 1];
      var n := RunNode(first, before);
      FlushedIsKept(first, before);
      match events[|events| - 1]
      case Sampled(x, networkDown, cardPresent, w) =>
        SpillHolds(first, n, Deleted(first, before), x, networkDown, cardPresent, w);
      case Ticked(up, broker, read) =>
        if up {
          TickHolds(first, n, Deleted(first, before), broker, read);
        }
    }
  }

  // ---------------------------------------------------------------- where every sample is

  lemma {:induction false} TakenAt(removed: seq<Removal>, k: nat) returns (r: nat, i: nat)
    requires k < |Taken(removed)|
    ensures r < |removed| && i < |removed[r].entries| && k == |Taken(removed[..r])| + i
    ensures removed[r].entries[i] == Taken(removed)[k]
  {
    var before := removed[..|removed| - 1];
    if k < |Taken(before)| {
      r, i := TakenAt(before, k);
      assert removed[..r] == before[..r];
    } else {
      r, i := |removed| - 1, k - |Taken(before)|;
    }
  }

  lemma {:induction false} GoneAt(removed: seq<Removal>, way: Way, r: nat, i: nat)
    requires r < |removed| && i < |removed[r].entries| && WayOf(removed[r]) == way
    ensures EntryAt(Gone(removed, way), |Gone(removed[..r], way)| + i, removed[r].entries[i])
  {
    var before := removed[..|removed| - 1];
    if r < |removed| - 1 {
      assert removed[..r] == before[..r];
      GoneAt(before, way, r, i);
    }
  }

  predicate EntryAt(es: seq<Entry>, k: nat, e: Entry) { k < |es| && es[k] == e }

  // What subscribers can read, with the batch that waits; and what the deleted files and the card hold.
  function BrokerSide(n: Node): seq<Entry> { Parse(RingPayload(n.accepted) + n.pending) }

  // (after what was on the card at boot).
  function CardSide(first: Option<seq<byte>>, n: Node, deleted: seq<seq<byte>>): seq<Entry> {
    var bytes := Joined(deleted) + Contents(n.card);
    Parse(bytes[Min(|Contents(first)|, |bytes|)..])
  }

  // Where the entry that left with removal r, at place i, can be read now.
  ghost predicate Located(first: Option<seq<byte>>, events: seq<Event>, e: Entry, r: nat, i: nat)
    requires r < |RunNode(first, events).log.removed|
  {
    var n := RunNode(first, events);
    var way, before := WayOf(n.log.removed[r]), n.log.removed[..r];
    && (way == ToBroker ==> EntryAt(BrokerSide(n), |Gone(before, ToBroker)| + i, e))
    && (way == ToCard && CardAlwaysWorks(first, events) ==>
          EntryAt(CardSide(first, n, Deleted(first, events)), |Gone(before, ToCard)| + i, e))
  }

  // The k-th sample of any run, by its entry (which decodes to it, RoundTrip): it is in the ring; or it left with the
  // r-th removal, and is then with the broker or in the waiting batch, or in a deleted file or on the card, at the
  // place given, unless that removal discarded it.
  lemma SampleLocated(first: Option<seq<byte>>, events: seq<Event>, k: nat) returns (r: nat, i: nat)
    requires k < |SamplesOf(events)|
    ensures var l, e := RunNode(first, events).log, EncodeAll(Empty, SamplesOf(events))[k];
            if r == |l.removed| then k == |Taken(l.removed)| + i && EntryAt(l.entries, i, e)
            else
              && r < |l.removed| && k == |Taken(l.removed[..r])| + i
              && EntryAt(l.removed[r].entries, i, e) && Located(first, events, e, r, i)
  {
    var l := RunNode(first, events).log;
    NodeConserves(first, events);
    if k < |Taken(l.removed)| {
      r, i := TakenAt(l.removed, k);
      RemovedLocated(first, events, r, i);
    } else {
      r, i := |l.removed|, k - |Taken(l.removed)|;
    }
  }

  lemma RemovedLocated(first: Option<seq<byte>>, events: seq<Event>, r: nat, i: nat)
    requires r < |RunNode(first, events).log.removed| && i < |RunNode(first, events).log.removed[r].entries|
    ensures Located(first, events, RunNode(first, events).log.removed[r].entries[i], r, i)
  {
    hide RunNode, BrokerSide, CardSide, CardAlwaysWorks, Gone, Deleted;
    var n := RunNode(first, events);
    GoneAt(n.log.removed, WayOf(n.log.removed[r]), r, i);
    BrokerHas(first, events);
    if CardAlwaysWorks(first, events) {
      CardHas(first, events);
    }
  }

  lemma BrokerHas(first: Option<seq<byte>>, events: seq<Event>)
    ensures BrokerSide(RunNode(first, events)) == Gone(RunNode(first, events).log.removed, ToBroker)
  {
    PublishedOnce(first, events);
    ParseBack(Gone(RunNode(first, events).log.removed, ToBroker));
  }

  lemma CardHas(first: Option<seq<byte>>, events: seq<Event>)
    requires CardAlwaysWorks(first, events)
    ensures var n := RunNode(first, events);
            CardSide(first, n, Deleted(first, events)) == Gone(n.log.removed, ToCard)
  {
    FlushedIsKept(first, events);
    ParseBack(Gone(RunNode(first, events).log.removed, ToCard));
    ConcatParts(Contents(first), Serialise(Gone(RunNode(first, events).log.removed, ToCard)));
  }

  // ---------------------------------------------------------------- publish_log_batch

  class Publisher {
    const logger: DataLogger
    const pending: array<byte>
    var pendingLength: nat
    var card: Option<seq<byte>>  // the overflow file on the card
    ghost var accepted: seq<Message>

    ghost predicate Valid()
      reads this, logger, logger.buffer
    {
      && logger.Valid()
      && pending != logger.buffer && pending != logger.flushBuffer
      && pending.Length == BATCH_BYTES && pendingLength <= BATCH_BYTES
    }

    ghost function State(): Node
      requires pendingLength <= pending.Length
      reads this, logger, pending
    {
      Node(logger.log, pending[..pendingLength], card, accepted)
    }

    constructor (card: Option<seq<byte>>)
      ensures Valid() && State() == Booted(card)
      ensures fresh(logger) && fresh(logger.buffer) && fresh(logger.flushBuffer) && fresh(pending)
    {
      logger := new DataLogger();
      pending := new byte[BATCH_BYTES](_ => 0);
      pendingLength, this.card, accepted := 0, card, [];
    }

    // log_sample with its flush_buffer_to_sd.
    method LogSample(x: Sample, networkDown: bool, cardPresent: bool, w: CardWrite)
      requires Valid()
      modifies `card, logger, logger.buffer, logger.flushBuffer
      ensures Valid()
      ensures State() == AfterSample(old(State()), x, networkDown, cardPresent, w)
    {
      var n := logger.LogSample(x, networkDown, cardPresent);
      card := Spilled(card, logger.flushBuffer[..n], w);
    }

    // base64_encode and mqtt.publish; the text always fits the 700-byte buffer.
    method Send(data: seq<byte>, encoded: array<char>, fromCard: bool, answer: bool)
      requires |data| <= BATCH_BYTES && encoded.Length == ENCODED_BYTES
      modifies `accepted, encoded
      ensures accepted == if answer then old(accepted) + [Message(Encoded(data), fromCard)] else old(accepted)
    {
      var n := Base64Encode(data, encoded);
      if answer {
        accepted := accepted + [Message(encoded[..n], fromCard)];
      }
    }

    // The drain loop, over the readable bytes of the file: deleted when a read returns nothing.
    method DrainFile(file: seq<byte>, encoded: array<char>, broker: Broker, call: nat, removes: bool)
      requires pendingLength <= pending.Length && encoded.Length == ENCODED_BYTES
      modifies `accepted, `card, encoded
      ensures State() == Drained(old(State()), file, broker, call, removes)
    {
      hide Drained, Encoded;
      ghost var goal := Drained(State(), file, broker, call, removes);
      var at, k := 0, call;
      assert file[0..] == file;
      while true
        invariant at <= |file| && card == old(card)
        invariant goal == Drained(State(), file[at..], broker, k, removes)
        decreases |file| - at
      {
        var n := Min(BATCH_BYTES, |file| - at);
        DrainTurn(State(), file, at, broker, k, removes);
        if n == 0 {
          break;
        }
        Send(file[at..at + n], encoded, true, broker(k));
        if !broker(k) {
          return;
        }
        at, k := at + n, k + 1;
      }
      if removes {
        card := None;
      }
    }

    method RetryPending(encoded: array<char>, broker: Broker) returns (call: nat)
      requires Valid() && encoded.Length == ENCODED_BYTES
      modifies `accepted, `pendingLength, encoded
      ensures Valid()
      ensures State() == Retried(old(State()), broker)
      ensures call == |accepted| - |old(accepted)|
    {
      call := 0;
      if pendingLength > 0 {
        Send(pending[..pendingLength], encoded, false, broker(0));
        if broker(0) {
          pendingLength := 0;
          call := 1;
        }
      }
    }

    method SendBatch(encoded: array<char>, broker: Broker, call: nat) returns (call': nat)
      requires Valid() && pendingLength == 0 && encoded.Length == ENCODED_BYTES
      modifies `accepted, `pendingLength, pending, logger, encoded
      ensures Valid()
      ensures State() == AfterBatch(old(State()), broker, call)
      ensures call' == call + |accepted| - |old(accepted)|
    {
      var batch := new byte[BATCH_BYTES];
      call' := call;
      var n := logger.PopBatch(batch, BATCH_BYTES);
      if n > 0 {
        Send(batch[..n], encoded, false, broker(call));
        if broker(call) {
          call' := call + 1;
        } else {
          CopyInto(pending, 0, batch[..n]);
          pendingLength := n;
          assert pending[..n] == batch[..n];
        }
      }
    }

    method PublishRing(encoded: array<char>, broker: Broker) returns (call: nat)
      requires Valid() && encoded.Length == ENCODED_BYTES
      modifies `accepted, `pendingLength, pending, logger, encoded
      ensures Valid()
      ensures State() == RingPart(old(State()), broker)
      ensures call == |accepted| - |old(accepted)|
    {
      hide Retried, AfterBatch;
      call := RetryPending(encoded, broker);
      if pendingLength == 0 {
        call := SendBatch(encoded, broker, call);
      }
    }

    method PublishTick(encoded: array<char>, broker: Broker, read: CardRead)
      requires Valid() && encoded.Length == ENCODED_BYTES
      modifies `accepted, `card, `pendingLength, pending, logger, encoded
      ensures Valid()
      ensures State() == AfterTick(old(State()), broker, read)
    {
      hide RingPart, Drained;
      var call := PublishRing(encoded, broker);
      if pendingLength == 0 && read.opens && card.Some? {
        DrainFile(Readable(card.value, read), encoded, broker, call, read.removes);
      }
    }

    method PublishLogBatch(up: bool, broker: Broker, read: CardRead)
      requires Valid()
      modifies this, pending, logger
      ensures Valid()
      ensures State() == After(old(State()), Ticked(up, broker, read))
    {
      if up {
        var encoded := new char[ENCODED_BYTES];
        PublishTick(encoded, broker, read);
      }
    }
  }
}
