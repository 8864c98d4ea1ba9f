/** The firmware update client: poll, download in chunks, verify, set the boot partition. */
module OtaClient {
  import opened Options
  import opened Seqs
  import opened Words

  const CHUNK_SIZE: nat := 1024
  const TIMEOUT_MS: nat := 300000
  const INTERVAL_MIN: nat := 60
  const INTERVAL_MAX: nat := 86400

  datatype Phase = Idle | Checking | Downloading | Applying | Rebooting | Failed

  // One resource: how often it was taken and given back, and whether it was always taken while free, and used and
  // given back while held.
  datatype Ledger = Ledger(taken: nat, returned: nat, sound: bool) {
    predicate Held() { taken == returned + 1 }

    predicate Free() { taken == returned }

    function Take(): Ledger { Ledger(taken + 1, returned, sound && Free()) }

    function Use(): Ledger { this.(sound := sound && Held()) }

    function Return(): Ledger { Ledger(taken, returned + 1, sound && Held()) }
  }

  // A boot partition that was set: the bytes in it, and the size and hash it was offered with.
  datatype Image = Image(bytes: seq<byte>, size: uint32, sha: string)

  // The world outside the client: its resources, the size of the partition and what was written to it, what went
  // through the hash, the boot settings made.
  datatype Device = Device(
    tls: Ledger, http: Ledger, ota: Ledger, digest: Ledger,
    room: uint32, slot: seq<byte>, digested: seq<byte>, boots: seq<Image>)

  datatype Client = Client(
    phase: Phase,
    tls: bool, http: bool, handle: bool, partition: bool, hashing: bool,
    version: string, sha: string, size: uint32, total: uint32, progress: nat,
    start: uint32, lastPoll: uint32, interval: uint32,
    device: Device)

  // ---------------------------------------------------------------- what a tick finds

  datatype Offer = Offer(available: bool, version: string, sha: string, size: uint32, interval: uint32, url: string)

  datatype Reply = NoBackend | NoConnection | Status(code: int) | Unreadable | Answer(offer: Offer)

  // Whether each step of starting a download works.
  datatype Opening = Opening(begins: bool, code: int, partition: bool, begun: bool)

  type Chunk = s: seq<byte> | |s| <= CHUNK_SIZE

  datatype Tick = Tick(
    wifi: bool, now: uint32, later: uint32, reply: Reply, opening: Opening,
    stream: bool, chunk: Chunk, connected: bool, written: bool, ended: bool, bootSet: bool)

  datatype Input = Loop(tick: Tick) | Trigger | SetInterval(seconds: uint32)

  // ---------------------------------------------------------------- one call

  function Clip(s: string, n: nat): string { if |s| <= n then s else s[..n] }

  function Clamped(seconds: uint32): uint32 {
    if seconds < INTERVAL_MIN then INTERVAL_MIN else if seconds > INTERVAL_MAX then INTERVAL_MAX else seconds
  }

  function Lower(c: char): char { if 'A' <= c <= 'Z' then c + 32 as char else c }

  // strcasecmp(s, t) == 0.
  predicate SameFolded(s: string, t: string) { |s| == |t| && forall i :: 0 <= i < |s| ==> Lower(s[i]) == Lower(t[i]) }

  // The progress shown: the percentage goes through uint8_t before it is capped.
  function Percent(total: uint32, size: uint32): nat
    requires size > 0
  {
    var low := total * 100 / size % 0x100;
    if low > 100 then 100 else low
  }

  function Closed(l: Ledger, held: bool): Ledger { if held then l.Return() else l }

  function CleanedUp(c: Client): Client {
    c.(tls := false, http := false, handle := false, partition := false, hashing := false,
       version := "", sha := "", size := 0, total := 0, progress := 0, start := 0, device := Released(c))
  }

  function Released(c: Client): Device {
    var d := c.device;
    d.(http := Closed(d.http, c.http), tls := Closed(d.tls, c.tls), ota := Closed(d.ota, c.handle),
       digest := Closed(d.digest, c.hashing))
  }

  function GivenUp(c: Client): Client { CleanedUp(c).(phase := Idle) }

  function Interval(c: Client, seconds: uint32): Client {
    if seconds > 0 then c.(interval := Clamped(seconds)) else c
  }

  function Connected(c: Client): Client {
    c.(tls := true, http := true, device := c.device.(tls := c.device.tls.Take(), http := c.device.http.Take()))
  }

  function Begun(c: Client, now: uint32): Client {
    var d := c.device;
    c.(phase := Downloading, handle := true, hashing := true, total := 0, start := now,
       device := d.(ota := d.ota.Take(), digest := d.digest.Take(), slot := [], digested := []))
  }

  // The image is about to be fetched: connect, find a partition, open it and start the hash.
  function Opened(c: Client, o: Opening, now: uint32): Client {
    var c := Connected(c);
    if !o.begins || o.code != 200 || !o.partition then GivenUp(c)
    else
      var c := c.(partition := true);
      if o.begun then Begun(c, now) else GivenUp(c)
  }

  predicate Complete(o: Offer) { o.version != "" && o.sha != "" && o.size != 0 }

  function Offered(c: Client, o: Offer): Client {
    Interval(c.(version := Clip(o.version, 15), sha := Clip(o.sha, 64), size := o.size, progress := 0), o.interval)
  }

  function Checked(c: Client, t: Tick): Client {
    if !t.reply.Answer? then c.(phase := Idle)
    else
      var o := t.reply.offer;
      if !o.available then Interval(c, o.interval).(phase := Idle)
      else if !Complete(o) then c.(phase := Idle)
      else if o.url == "" then Offered(c, o).(phase := Idle)
      else Opened(Offered(c, o), t.opening, t.later)
  }

  predicate Due(c: Client, now: uint32) { Sub32(now, c.lastPoll) >= ToUint32(c.interval * 1000) }

  function Polled(c: Client, t: Tick): Client {
    if Due(c, t.now) then Checked(c.(phase := Checking, lastPoll := t.now), t) else c
  }

  predicate TimedOut(c: Client, now: uint32) { Sub32(now, c.start) > TIMEOUT_MS }

  // A chunk that arrived: into the partition and the hash.
  function Stored(c: Client, chunk: Chunk): Client {
    var d := c.device;
    var total := Add32(c.total, |chunk|);
    c.(total := total, phase := if total >= c.size then Applying else c.phase,
       device := d.(http := d.http.Use(), ota := d.ota.Use(), digest := d.digest.Use(),
                    slot := d.slot + chunk, digested := d.digested + chunk))
  }

  // A download under way never has size 0 (Counted).
  function Reported(c: Client): Client { if c.size == 0 then c else c.(progress := Percent(c.total, c.size)) }

  // A write works if the flash does and the bytes are within the partition.
  predicate Writes(d: Device, t: Tick) { t.written && |d.slot| + |t.chunk| <= d.room }

  function Read(c: Client, t: Tick): Client {
    var d := c.device;
    var used := c.(device := d.(http := d.http.Use()));
    if TimedOut(c, t.now) then GivenUp(c)
    else if !t.stream then GivenUp(used)
    else if t.chunk == [] then
      if t.connected then used
      else if c.total >= c.size then used.(phase := Applying)
      else GivenUp(used)
    else if !Writes(d, t) then GivenUp(used.(device := used.device.(ota := d.ota.Use())))
    else Reported(Stored(c, t.chunk))
  }

  // The hash is finished and freed; the handle is closed on every path that follows.
  function Finished(c: Client): Client {
    var d := c.device;
    c.(hashing := false, handle := false, device := d.(digest := d.digest.Return(), ota := d.ota.Return()))
  }

  predicate Verified(hash: seq<byte> -> string, c: Client) {
    c.total == c.size && SameFolded(hash(c.device.digested), c.sha)
  }

  function Installed(c: Client): Client {
    var d := c.device;
    CleanedUp(c.(device := d.(boots := d.boots + [Image(d.slot, c.size, c.sha)]))).(phase := Rebooting)
  }

  function Applied(hash: seq<byte> -> string, c: Client, t: Tick): Client {
    if !Verified(hash, c) || !t.ended || !t.bootSet then GivenUp(Finished(c)) else Installed(Finished(c))
  }

  function Looped(hash: seq<byte> -> string, c: Client, t: Tick): Client {
    if !t.wifi then c
    else match c.phase
      case Idle => Polled(c, t)
      case Checking => Checked(c, t)
      case Downloading => Read(c, t)
      case Applying => Applied(hash, c, t)
      case Rebooting => c
      case Failed => if Due(c, t.now) then c.(lastPoll := t.now, phase := Checking) else c
  }

  function Triggered(c: Client): Client {
    if c.phase != Idle && c.phase != Failed then c else c.(lastPoll := 0, phase := Checking)
  }

  const FRESH := Ledger(0, 0, true)

  function Initial(now: uint32, interval: uint32, room: uint32): Client {
    Client(Idle, false, false, false, false, false, "", "", 0, 0, 0, 0, now, interval,
           Device(FRESH, FRESH, FRESH, FRESH, room, [], [], []))
  }

  // ---------------------------------------------------------------- what every state keeps

  predicate Tracks(l: Ledger, held: bool) { l.sound && (if held then l.Held() else l.Free()) }

  predicate Fetching(c: Client) { c.phase == Downloading || c.phase == Applying }

  predicate Resources(c: Client) {
    && Tracks(c.device.tls, Fetching(c)) && c.tls == Fetching(c)
    && Tracks(c.device.http, Fetching(c)) && c.http == Fetching(c)
    && Tracks(c.device.ota, Fetching(c)) && c.handle == Fetching(c)
    && Tracks(c.device.digest, Fetching(c)) && c.hashing == Fetching(c)
    && c.partition == Fetching(c)
  }

  predicate Counted(c: Client) {
    Fetching(c) ==>
      && c.size > 0
      && c.device.digested == c.device.slot
      && c.total == |c.device.slot| <= c.device.room
      && |c.device.slot| < c.size + CHUNK_SIZE
      && (c.phase == Downloading <==> c.total < c.size)
      && c.progress == Percent(c.total, c.size)
  }

  predicate Sealed(hash: seq<byte> -> string, i: Image) {
    SameFolded(hash(i.bytes), i.sha) && i.size == |i.bytes|
  }

  predicate Booted(hash: seq<byte> -> string, c: Client) {
    if c.phase == Rebooting then |c.device.boots| == 1 && Sealed(hash, c.device.boots[0]) else c.device.boots == []
  }

  predicate Ok(hash: seq<byte> -> string, c: Client) {
    c.phase != Failed && Resources(c) && Counted(c) && Booted(hash, c)
  }

  lemma CleanedUpKeeps(c: Client)
    requires Tracks(c.device.tls, c.tls) && Tracks(c.device.http, c.http)
    requires Tracks(c.device.ota, c.handle) && Tracks(c.device.digest, c.hashing)
    ensures Resources(GivenUp(c)) && Counted(GivenUp(c)) && GivenUp(c).device.boots == c.device.boots
    ensures GivenUp(c).phase == Idle
  {
  }

  lemma OpenedKeeps(hash: seq<byte> -> string, c: Client, o: Opening, now: uint32)
    requires Ok(hash, c) && c.phase == Checking && c.size > 0 && c.progress == 0
    ensures Ok(hash, Opened(c, o, now))
  {
    NothingShown(c.size);
  }

  lemma NothingShown(size: uint32)
    requires size > 0
    ensures Percent(0, size) == 0
  {
    QuotientBelow(0, size, 1);
  }

  lemma CheckedKeeps(hash: seq<byte> -> string, c: Client, t: Tick)
    requires Ok(hash, c) && c.phase == Checking
    ensures Ok(hash, Checked(c, t))
  {
    if t.reply.Answer? {
      var o := t.reply.offer;
      if o.available && Complete(o) && o.url != "" {
        OpenedKeeps(hash, Offered(c, o), t.opening, t.later);
      }
    }
  }

  lemma StoredKeeps(hash: seq<byte> -> string, c: Client, chunk: Chunk)
    requires Ok(hash, c) && c.phase == Downloading && |c.device.slot| + |chunk| <= c.device.room
    ensures Ok(hash, Reported(Stored(c, chunk)))
  {
    hide Percent;
    var d := Stored(c, chunk).device;
    assert |d.slot| == |c.device.slot| + |chunk|;
    Untruncated(c.total + |chunk|);
  }

  lemma Untruncated(x: nat)
    requires x < TWO_32
    ensures ToUint32(x) == x
  {
  }

  lemma ReadKeeps(hash: seq<byte> -> string, c: Client, t: Tick)
    requires Ok(hash, c) && c.phase == Downloading
    ensures Ok(hash, Read(c, t))
  {
    hide Percent, GivenUp;
    var d := c.device;
    var used := c.(device := d.(http := d.http.Use()));
    CleanedUpKeeps(c);
    CleanedUpKeeps(used);
    CleanedUpKeeps(used.(device := used.device.(ota := d.ota.Use())));
    if !TimedOut(c, t.now) && t.stream && t.chunk != [] && Writes(d, t) {
      StoredKeeps(hash, c, t.chunk);
    }
  }

  lemma AppliedKeeps(hash: seq<byte> -> string, c: Client, t: Tick)
    requires Ok(hash, c) && c.phase == Applying
    ensures Ok(hash, Applied(hash, c, t))
  {
    hide Percent, GivenUp;
    CleanedUpKeeps(Finished(c));
  }

  lemma LoopedKeeps(hash: seq<byte> -> string, c: Client, t: Tick)
    requires Ok(hash, c)
    ensures Ok(hash, Looped(hash, c, t))
  {
    if t.wifi {
      match c.phase
      case Idle =>
        if Due(c, t.now) {
          CheckedKeeps(hash, c.(phase := Checking, lastPoll := t.now), t);
        }
      case Checking => CheckedKeeps(hash, c, t);
      case Downloading => ReadKeeps(hash, c, t);
      case Applying => AppliedKeeps(hash, c, t);
      case _ =>
    }
  }

  // ---------------------------------------------------------------- runs

  function Step(hash: seq<byte> -> string, c: Client, x: Input): Client {
    match x
    case Loop(t) => Looped(hash, c, t)
    case Trigger => Triggered(c)
    case SetInterval(seconds) => c.(interval := Clamped(seconds))
  }

  // From client c, after the first n inputs.
  function After(hash: seq<byte> -> string, c: Client, xs: seq<Input>, n: nat): Client
    requires n <= |xs|
  {
    if n == 0 then c else Step(hash, After(hash, c, xs, n - 1), xs[n - 1])
  }

  lemma {:induction false} AlwaysOk(hash: seq<byte> -> string, c: Client, xs: seq<Input>, n: nat)
    requires n <= |xs| && Ok(hash, c)
    ensures Ok(hash, After(hash, c, xs, n))
  {
    if n > 0 {
      AlwaysOk(hash, c, xs, n - 1);
      StepKeeps(hash, After(hash, c, xs, n - 1), xs[n - 1]);
    }
  }

  lemma StepKeeps(hash: seq<byte> -> string, c: Client, x: Input)
    requires Ok(hash, c)
    ensures Ok(hash, Step(hash, c, x))
  {
    if x.Loop? {
      LoopedKeeps(hash, c, x.tick);
    }
  }

  predicate AllReturned(d: Device) { d.tls.Free() && d.http.Free() && d.ota.Free() && d.digest.Free() }

  predicate AllSound(d: Device) { d.tls.sound && d.http.sound && d.ota.sound && d.digest.sound }

  // In every reachable state: nothing was ever used or given back without being held, nothing taken twice, and outside
  // a download everything taken has been given back; what was hashed is what was written, and counted; the boot
  // partition has been set at most once, and then to an image with the offered size and hash.
  lemma Safe(hash: seq<byte> -> string, now: uint32, interval: uint32, room: uint32, xs: seq<Input>, n: nat)
    requires n <= |xs|
    ensures var c := After(hash, Initial(now, interval, room), xs, n);
            && c.phase != Failed
            && AllSound(c.device)
            && (c.phase != Downloading && c.phase != Applying ==> AllReturned(c.device))
            && (c.phase == Downloading || c.phase == Applying ==>
                  c.device.digested == c.device.slot && c.total == |c.device.slot|)
            && |c.device.boots| == (if c.phase == Rebooting then 1 else 0)
            && forall i :: i in c.device.boots ==> Sealed(hash, i)
  {
    var c := After(hash, Initial(now, interval, room), xs, n);
    AlwaysOk(hash, Initial(now, interval, room), xs, n);
    forall i | i in c.device.boots
      ensures Sealed(hash, i)
    {
      assert i == c.device.boots[0];
    }
  }

  // ---------------------------------------------------------------- a whole delivery

  predicate Reads(x: Input) { x.Loop? && x.tick.wifi }

  function Payload(x: Input): seq<byte> { if Reads(x) then x.tick.chunk else [] }

  // What the first n inputs bring.
  function Received(xs: seq<Input>, n: nat): seq<byte>
    requires n <= |xs|
  {
    if n == 0 then [] else Received(xs, n - 1) + Payload(xs[n - 1])
  }

  lemma {:induction false} ReceivedGrows(xs: seq<Input>, n: nat, m: nat)
    requires n <= m <= |xs|
    ensures |Received(xs, n)| <= |Received(xs, m)|
  {
    if n < m {
      ReceivedGrows(xs, n, m - 1);
    }
  }

  // An input that fails nothing: a tick with WiFi comes in time, and finds nothing yet on a connection that holds, or a
  // chunk that can be written. Ticks without WiFi, triggers and interval changes may come at any time.
  predicate Fine(start: uint32, x: Input) {
    Reads(x) ==>
      && Sub32(x.tick.now, start) <= 300000 && x.tick.stream
      && (if x.tick.chunk == [] then x.tick.connected else x.tick.written)
  }

  // ... and only ticks without WiFi come once all bytes are there.
  predicate FineAt(c: Client, xs: seq<Input>, k: nat)
    requires k < |xs|
  {
    Fine(c.start, xs[k]) && (|c.device.slot| + |Received(xs, k)| < c.size || !Reads(xs[k]))
  }

  // The inputs bring exactly the bytes that are missing.
  predicate Delivery(c: Client, xs: seq<Input>) {
    && c.phase == Downloading && c.size <= c.device.room
    && (forall k :: 0 <= k < |xs| ==> FineAt(c, xs, k))
    && |c.device.slot| + |Received(xs, |xs|)| == c.size
  }

  predicate Delivered(c: Client, c': Client, bytes: seq<byte>) {
    && c'.device.slot == c.device.slot + bytes
    && c'.size == c.size && c'.sha == c.sha && c'.start == c.start && c'.device.room == c.device.room
    && c'.phase == (if |c.device.slot| + |bytes| < c.size then Downloading else Applying)
  }

  lemma ChunkStored(hash: seq<byte> -> string, c: Client, x: Input)
    requires Ok(hash, c) && c.phase == Downloading && Reads(x) && Fine(c.start, x)
    requires |c.device.slot| + |x.tick.chunk| <= c.size <= c.device.room
    ensures Delivered(c, Step(hash, c, x), x.tick.chunk)
  {
    hide Percent;
    Untruncated(c.total + |x.tick.chunk|);
    RightUnit(c.device.slot);
  }

  lemma NothingRead(hash: seq<byte> -> string, c: Client, x: Input)
    requires Fetching(c) && !Reads(x)
    ensures var c' := Step(hash, c, x); c' == c.(interval := c'.interval)
  {
  }

  lemma DeliveredOn(hash: seq<byte> -> string, c: Client, b: Client, b': Client, bytes: seq<byte>, x: Input)
    requires Ok(hash, b) && Delivered(c, b, bytes) && b' == Step(hash, b, x) && Fine(c.start, x)
    requires |c.device.slot| + |bytes| < c.size || !Reads(x)
    requires |c.device.slot| + |bytes| + |Payload(x)| <= c.size <= c.device.room
    ensures Delivered(c, b', bytes + Payload(x))
  {
    hide Step, Ok;
    if Reads(x) {
      ChunkStored(hash, b, x);
      Assoc(c.device.slot, bytes, x.tick.chunk);
    } else {
      NothingRead(hash, b, x);
      RightUnit(bytes);
    }
  }

  lemma {:induction false} Delivers(hash: seq<byte> -> string, c: Client, xs: seq<Input>, n: nat)
    requires Ok(hash, c) && Delivery(c, xs) && n <= |xs|
    ensures Delivered(c, After(hash, c, xs, n), Received(xs, n))
  {
    hide Step, Ok, Delivered, Fine;
    if n == 0 {
      DeliveredNone(hash, c);
    } else {
      Delivers(hash, c, xs, n - 1);
      AlwaysOk(hash, c, xs, n - 1);
      ReceivedGrows(xs, n, |xs|);
      assert FineAt(c, xs, n - 1);
      DeliveredOn(hash, c, After(hash, c, xs, n - 1), After(hash, c, xs, n), Received(xs, n - 1), xs[n - 1]);
    }
  }

  lemma DeliveredNone(hash: seq<byte> -> string, c: Client)
    requires Ok(hash, c) && c.phase == Downloading
    ensures Delivered(c, c, [])
  {
    RightUnit(c.device.slot);
  }

  // When exactly the offered bytes arrive in time on a connection that holds, whatever ticks find nothing or no WiFi in
  // between, and no write fails, the client boots them if and only if their hash is the offered one; otherwise it is
  // back to waiting with nothing set.
  lemma InstalledExactly(hash: seq<byte> -> string, c: Client, xs: seq<Input>, last: Tick)
    requires Ok(hash, c) && Delivery(c, xs)
    requires last.wifi && last.ended && last.bootSet
    ensures var image := c.device.slot + Received(xs, |xs|);
            var c' := Step(hash, After(hash, c, xs, |xs|), Loop(last));
            if SameFolded(hash(image), c.sha) then
              c'.phase == Rebooting && c'.device.boots == [Image(image, c.size, c.sha)]
            else c'.phase == Idle && c'.device.boots == []
  {
    Delivers(hash, c, xs, |xs|);
    AlwaysOk(hash, c, xs, |xs|);
    Applies(hash, After(hash, c, xs, |xs|), last);
  }

  lemma Applies(hash: seq<byte> -> string, c: Client, last: Tick)
    requires Ok(hash, c) && c.phase == Applying && c.size == |c.device.slot|
    requires last.wifi && last.ended && last.bootSet
    ensures var c' := Step(hash, c, Loop(last));
            if SameFolded(hash(c.device.slot), c.sha) then
              c'.phase == Rebooting && c'.device.boots == [Image(c.device.slot, c.size, c.sha)]
            else c'.phase == Idle && c'.device.boots == []
  {
    hide Percent;
  }

  // ---------------------------------------------------------------- from the server's offer

  // The first n characters of t, or all of a shorter one.
  predicate IsStart(s: string, t: string, n: nat) { if |t| <= n then s == t else s == t[..n] }

  // This input carries an available offer of an image of that size and hash.
  predicate OffersImage(x: Input, size: uint32, sha: string) {
    && x.Loop? && x.tick.wifi && x.tick.reply.Answer?
    && x.tick.reply.offer.available && x.tick.reply.offer.url != ""
    && x.tick.reply.offer.size == size && IsStart(sha, x.tick.reply.offer.sha, 64)
  }

  predicate Offers(x: Input, version: string, size: uint32, sha: string) {
    OffersImage(x, size, sha) && IsStart(version, x.tick.reply.offer.version, 15)
  }

  predicate WasOffered(xs: seq<Input>, n: nat, size: uint32, sha: string) {
    exists k :: 0 <= k < n && k < |xs| && OffersImage(xs[k], size, sha)
  }

  // What a download under way and an image that was booted go by was offered by the server before.
  ghost predicate FromOffers(c: Client, xs: seq<Input>, n: nat) {
    && (Fetching(c) ==> exists k :: 0 <= k < n && k < |xs| && Offers(xs[k], c.version, c.size, c.sha))
    && (forall i :: 0 <= i < |c.device.boots| ==>
          WasOffered(xs, n, c.device.boots[i].size, c.device.boots[i].sha))
  }

  lemma OpenedOffer(c: Client, o: Opening, now: uint32)
    ensures var c' := Opened(c, o, now);
            && c'.device.boots == c.device.boots
            && (Fetching(c') ==> c'.version == c.version && c'.size == c.size && c'.sha == c.sha)
  {
    hide GivenUp;
    GivenUpOffer(Connected(c));
    GivenUpOffer(Connected(c).(partition := true));
  }

  lemma GivenUpOffer(c: Client)
    ensures GivenUp(c).phase == Idle && GivenUp(c).device.boots == c.device.boots
  {
  }

  lemma CheckedOffer(c: Client, t: Tick)
    requires t.wifi
    ensures var c' := Checked(c, t);
            && c'.device.boots == c.device.boots
            && (Fetching(c') ==> Offers(Loop(t), c'.version, c'.size, c'.sha))
  {
    if t.reply.Answer? && t.reply.offer.available && Complete(t.reply.offer) && t.reply.offer.url != "" {
      hide Opened;
      OpenedOffer(Offered(c, t.reply.offer), t.opening, t.later);
    } else {
      hide Opened, Interval;
      NotFetching(c, t);
    }
  }

  lemma NotFetching(c: Client, t: Tick)
    requires !(t.reply.Answer? && t.reply.offer.available && Complete(t.reply.offer) && t.reply.offer.url != "")
    ensures Checked(c, t).phase == Idle && Checked(c, t).device == c.device
  {
    hide Opened;
  }

  // The offer the client goes by is that of this input, or the one it went by before.
  predicate GoesBy(c: Client, x: Input, c': Client) {
    Offers(x, c'.version, c'.size, c'.sha)
    || (Fetching(c) && c'.version == c.version && c'.size == c.size && c'.sha == c.sha)
  }

  // What a step does to the offer a client goes by, and to the images booted.
  lemma StepOffer(hash: seq<byte> -> string, c: Client, x: Input)
    ensures var c' := Step(hash, c, x);
            && (Fetching(c') ==> GoesBy(c, x, c'))
            && (c'.device.boots == c.device.boots
                || (Fetching(c) && c'.device.boots == c.device.boots + [Image(c.device.slot, c.size, c.sha)]))
  {
    hide Checked, Read, Applied, Due, Offers;
    if x.Loop? && x.tick.wifi {
      match c.phase
      case Idle => CheckedOffer(c.(phase := Checking, lastPoll := x.tick.now), x.tick);
      case Checking => CheckedOffer(c, x.tick);
      case Downloading => ReadOffer(c, x.tick);
      case Applying => AppliedOffer(hash, c, x.tick);
      case _ =>
    }
  }

  // No image was booted, and a download under way goes by the same offer.
  predicate SameOffer(c: Client, c': Client) {
    && c'.device.boots == c.device.boots
    && (Fetching(c') ==> c'.version == c.version && c'.size == c.size && c'.sha == c.sha)
  }

  lemma StoredOffer(c: Client, chunk: Chunk)
    ensures SameOffer(c, Reported(Stored(c, chunk)))
  {
    hide Percent;
  }

  lemma ReadOffer(c: Client, t: Tick)
    ensures SameOffer(c, Read(c, t))
  {
    hide TimedOut, Writes, GivenUp, Stored, Reported;
    var d := c.device;
    var used := c.(device := d.(http := d.http.Use()));
    if TimedOut(c, t.now) {
      GivenUpOffer(c);
    } else if !t.stream || t.chunk == [] {
      GivenUpOffer(used);
    } else if !Writes(d, t) {
      GivenUpOffer(used.(device := used.device.(ota := d.ota.Use())));
    } else {
      StoredOffer(c, t.chunk);
    }
  }

  lemma AppliedOffer(hash: seq<byte> -> string, c: Client, t: Tick)
    ensures var c' := Applied(hash, c, t);
            && !Fetching(c')
            && (c'.device.boots == c.device.boots
                || c'.device.boots == c.device.boots + [Image(c.device.slot, c.size, c.sha)])
  {
    hide Verified, GivenUp;
    GivenUpOffer(Finished(c));
  }

  // Over every run: a download goes by the version, size and hash of an offer the server made before it, and every
  // image booted has the size and hash of one.
  lemma {:induction false} AlwaysFromOffers(
      hash: seq<byte> -> string, now: uint32, interval: uint32, room: uint32, xs: seq<Input>, n: nat)
    requires n <= |xs|
    ensures FromOffers(After(hash, Initial(now, interval, room), xs, n), xs, n)
  {
    hide Step;
    if n > 0 {
      var c := Initial(now, interval, room);
      AlwaysFromOffers(hash, now, interval, room, xs, n - 1);
      StepFromOffers(hash, After(hash, c, xs, n - 1), xs, n);
    }
  }

  lemma FetchedWasOffered(c: Client, xs: seq<Input>, n: nat)
    requires n <= |xs| && FromOffers(c, xs, n) && Fetching(c)
    ensures WasOffered(xs, n, c.size, c.sha)
  {
    var k :| 0 <= k < n && Offers(xs[k], c.version, c.size, c.sha);
    assert OffersImage(xs[k], c.size, c.sha);
  }

  lemma StepFromOffers(hash: seq<byte> -> string, c: Client, xs: seq<Input>, n: nat)
    requires 0 < n <= |xs| && FromOffers(c, xs, n - 1)
    ensures FromOffers(Step(hash, c, xs[n - 1]), xs, n)
  {
    hide Step, Offers, OffersImage;
    var c' := Step(hash, c, xs[n - 1]);
    StepOffer(hash, c, xs[n - 1]);
    if Fetching(c) {
      FetchedWasOffered(c, xs, n - 1);
    }
    forall i | 0 <= i < |c'.device.boots|
      ensures WasOffered(xs, n, c'.device.boots[i].size, c'.device.boots[i].sha)
    {
      if i < |c.device.boots| {
        assert WasOffered(xs, n - 1, c.device.boots[i].size, c.device.boots[i].sha);
      }
    }
  }

  // Letter case aside, the two texts are the same.
  lemma FoldedExactly(s: string, t: string)
    ensures SameFolded(s, t) <==> |s| == |t| && forall i :: 0 <= i < |s| ==> SameLetter(s[i], t[i])
  {
    if |s| == |t| {
      forall i | 0 <= i < |s|
        ensures Lower(s[i]) == Lower(t[i]) <==> SameLetter(s[i], t[i])
      {
      }
    }
  }

  predicate SameLetter(a: char, b: char) {
    a == b || ('A' <= a <= 'Z' && b as int == a as int + 32) || ('A' <= b <= 'Z' && a as int == b as int + 32)
  }

  function First(s: string, n: nat): string { if |s| <= n then s else s[..n] }

  // The server's answer is a usable offer, and everything it takes to start fetching it works.
  predicate Starts(t: Tick) {
    && t.wifi && t.reply.Answer? && t.reply.offer.available
    && t.reply.offer.version != "" && t.reply.offer.sha != "" && t.reply.offer.size > 0 && t.reply.offer.url != ""
    && t.opening.begins && t.opening.code == 200 && t.opening.partition && t.opening.begun
  }

  lemma OfferStarts(hash: seq<byte> -> string, c: Client, t: Tick)
    requires Ok(hash, c) && c.phase == Idle && Starts(t)
    ensures var c', o := Step(hash, Step(hash, c, Trigger), Loop(t)), t.reply.offer;
            && c'.phase == Downloading && c'.start == t.later
            && c'.size == o.size && c'.sha == First(o.sha, 64) && c'.version == First(o.version, 15)
            && c'.device.slot == [] && c'.device.room == c.device.room
  {
  }

  // The inputs after an offer of `size` bytes bring exactly these.
  predicate Brings(size: uint32, start: uint32, xs: seq<Input>) {
    && (forall k :: 0 <= k < |xs| ==> BringsAt(size, start, xs, k))
    && |Received(xs, |xs|)| == size
  }

  predicate BringsAt(size: uint32, start: uint32, xs: seq<Input>, k: nat)
    requires k < |xs|
  {
    Fine(start, xs[k]) && (|Received(xs, k)| < size || !Reads(xs[k]))
  }

  lemma BringsIsDelivery(c: Client, xs: seq<Input>)
    requires c.phase == Downloading && c.device.slot == [] && c.size <= c.device.room && Brings(c.size, c.start, xs)
    ensures Delivery(c, xs)
  {
    forall k | 0 <= k < |xs|
      ensures FineAt(c, xs, k)
    {
      assert BringsAt(c.size, c.start, xs, k);
    }
  }

  // From the server's offer to the boot: an idle client that is triggered, is offered an image that fits the partition,
  // and receives exactly the offered bytes, boots them if and only if their hash is the one in the offer (its first 64
  // characters, letter case aside); otherwise it is idle again with nothing set.
  lemma OfferInstalled(hash: seq<byte> -> string, c: Client, t: Tick, xs: seq<Input>, last: Tick)
    requires Ok(hash, c) && c.phase == Idle && Starts(t)
    requires t.reply.offer.size <= c.device.room && Brings(t.reply.offer.size, t.later, xs)
    requires last.wifi && last.ended && last.bootSet
    ensures var o, image := t.reply.offer, Received(xs, |xs|);
            var fetching := Step(hash, Step(hash, c, Trigger), Loop(t));
            var c' := Step(hash, After(hash, fetching, xs, |xs|), Loop(last));
            if SameFolded(hash(image), First(o.sha, 64)) then
              c'.phase == Rebooting && c'.device.boots == [Image(image, o.size, First(o.sha, 64))]
            else c'.phase == Idle && c'.device.boots == []
  {
    hide Step, Ok, SameFolded;
    var fetching := Step(hash, Step(hash, c, Trigger), Loop(t));
    OfferStarts(hash, c, t);
    StepKeeps(hash, c, Trigger);
    StepKeeps(hash, Step(hash, c, Trigger), Loop(t));
    BringsIsDelivery(fetching, xs);
    InstalledExactly(hash, fetching, xs, last);
    assert [] + Received(xs, |xs|) == Received(xs, |xs|);
  }

  // ---------------------------------------------------------------- the progress shown

  function Capped(count: nat, size: nat): nat
    requires size > 0
  {
    if count * 100 / size > 100 then 100 else count * 100 / size
  }

  predicate ShowsAt(c: Client, size: uint32)
    requires size > 0
  {
    Fetching(c) && c.size == size ==> c.progress == Capped(|c.device.slot|, size)
  }

  // In every run the progress of a download of that size is the true percentage, at most 100.
  ghost predicate AlwaysShows(hash: seq<byte> -> string, size: uint32)
    requires size > 0
  {
    forall now: uint32, interval: uint32, room: uint32, xs: seq<Input>, n: nat | n <= |xs| ::
      ShowsAt(After(hash, Initial(now, interval, room), xs, n), size)
  }

  lemma QuotientBelow(x: nat, y: nat, q: nat)
    requires y > 0 && x < q * y
    ensures x / y < q
  {
    assert x == y * (x / y) + x % y;
    if x / y >= q {
      MultiplyUp(y, q, x / y);
    }
  }

  lemma QuotientAtLeast(x: nat, y: nat, q: nat)
    requires y > 0 && x >= q * y
    ensures x / y >= q
  {
    assert x == y * (x / y) + x % y;
    if x / y + 1 <= q {
      MultiplyUp(y, x / y + 1, q);
    }
  }

  lemma MultiplyUp(y: nat, a: nat, b: nat)
    requires a <= b
    ensures y * a <= y * b
  {
  }

  // From 656 bytes on, no count of a download makes 256 per cent.
  lemma PercentTrue(count: uint32, size: uint32)
    requires size >= 656 && count < size + CHUNK_SIZE
    ensures Percent(count, size) == Capped(count, size)
  {
    QuotientBelow(count * 100, size, 256);
  }

  // Below, this many bytes are within reach and do.
  function Overflowing(size: uint32): uint32
    requires 0 < size < 656
  {
    (256 * size + 99) / 100
  }

  lemma PercentFalse(size: uint32)
    requires 0 < size < 656
    ensures var count := Overflowing(size);
            size <= count < size + CHUNK_SIZE && Percent(count, size) != Capped(count, size)
  {
    var x := Overflowing(size) * 100;
    QuotientAtLeast(x, size, 256);
    QuotientBelow(x, size, 356);
  }

  // An offer of `size` bytes, all but one of them in a first chunk, and then more than the last one.
  const PARTITION: uint32 := 0x14_0000
  const TICK := Tick(true, 0, 0, NoBackend, Opening(true, 200, true, true), true, [], true, true, true, true)

  function Zeros(n: nat): (s: seq<byte>)
    ensures |s| == n
  {
    seq(n, _ => 0)
  }

  function Surplus(size: uint32): seq<Input>
    requires 0 < size < 656
  {
    PercentFalse(size);
    [Trigger,
     Loop(TICK.(reply := Answer(Offer(true, "v", "h", size, 0, "u")))),
     Loop(TICK.(chunk := Zeros(size - 1))),
     Loop(TICK.(chunk := Zeros(Overflowing(size) - (size - 1))))]
  }

  predicate Fetched(c: Client, size: uint32, count: nat) {
    c.phase == Downloading && c.size == size && c.start == 0 && c.device.room == PARTITION && |c.device.slot| == count
  }

  lemma SurplusStarts(hash: seq<byte> -> string, size: uint32)
    requires 0 < size < 656
    ensures Fetched(After(hash, Initial(0, 0, PARTITION), Surplus(size), 2), size, 0)
  {
    hide Percent, Overflowing;
    var c, xs := Initial(0, 0, PARTITION), Surplus(size);
    assert After(hash, c, xs, 0) == c;
    assert After(hash, c, xs, 1) == Triggered(c);
  }

  lemma SurplusGoesOn(hash: seq<byte> -> string, c: Client, size: uint32)
    requires 0 < size < 656 && Ok(hash, c) && Fetched(c, size, 0)
    ensures Fetched(Step(hash, c, Surplus(size)[2]), size, size - 1)
  {
    hide Percent, Overflowing;
    ChunkStored(hash, c, Surplus(size)[2]);
  }

  lemma SurplusEnds(hash: seq<byte> -> string, c: Client, size: uint32)
    requires 0 < size < 656 && Ok(hash, c) && Fetched(c, size, size - 1)
    ensures var c' := Step(hash, c, Surplus(size)[3]);
            Fetching(c') && c'.size == size && |c'.device.slot| == Overflowing(size)
  {
    hide Percent;
    PercentFalse(size);
    Untruncated(Overflowing(size));
  }

  lemma SurplusShows(hash: seq<byte> -> string, size: uint32)
    requires 0 < size < 656
    ensures !ShowsAt(After(hash, Initial(0, 0, PARTITION), Surplus(size), 4), size)
  {
    hide Percent, Step, Overflowing, Capped;
    var c, xs := Initial(0, 0, PARTITION), Surplus(size);
    SurplusStarts(hash, size);
    AlwaysOk(hash, c, xs, 2);
    SurplusGoesOn(hash, After(hash, c, xs, 2), size);
    assert After(hash, c, xs, 3) == Step(hash, After(hash, c, xs, 2), xs[2]);
    AlwaysOk(hash, c, xs, 3);
    SurplusEnds(hash, After(hash, c, xs, 3), size);
    assert After(hash, c, xs, 4) == Step(hash, After(hash, c, xs, 3), xs[3]);
    AlwaysOk(hash, c, xs, 4);
    PercentFalse(size);
  }

  // The progress of an update is right in every run if and only if the update has at least 656 bytes.
  lemma ProgressExactly(hash: seq<byte> -> string, size: uint32)
    requires size > 0
    ensures AlwaysShows(hash, size) <==> size >= 656
  {
    if size < 656 {
      SurplusShows(hash, size);
    } else {
      forall now: uint32, interval: uint32, room: uint32, xs: seq<Input>, n: nat | n <= |xs|
        ensures ShowsAt(After(hash, Initial(now, interval, room), xs, n), size)
      {
        AlwaysOk(hash, Initial(now, interval, room), xs, n);
        var c := After(hash, Initial(now, interval, room), xs, n);
        if Fetching(c) && c.size == size {
          PercentTrue(c.total, size);
        }
      }
    }
  }

  // Once the time is over, the next tick gives everything back.
  lemma LateTick(hash: seq<byte> -> string, c: Client, t: Tick)
    requires Ok(hash, c) && c.phase == Downloading && t.wifi && Sub32(t.now, c.start) > 300000
    ensures var c' := Step(hash, c, Loop(t)); c'.phase == Idle && AllReturned(c'.device) && c'.device.boots == []
  {
  }

  // ---------------------------------------------------------------- polling

  predicate IntervalOk(c: Client) { INTERVAL_MIN <= c.interval <= INTERVAL_MAX }

  lemma OpenedInterval(c: Client, o: Opening, now: uint32)
    ensures Opened(c, o, now).interval == c.interval && Opened(c, o, now).lastPoll == c.lastPoll
  {
    hide Released;
  }

  lemma CheckedInterval(c: Client, t: Tick)
    ensures IntervalOk(c) ==> IntervalOk(Checked(c, t))
    ensures Checked(c, t).lastPoll == c.lastPoll
  {
    hide Opened;
    if t.reply.Answer? && t.reply.offer.available && Complete(t.reply.offer) && t.reply.offer.url != "" {
      OpenedInterval(Offered(c, t.reply.offer), t.opening, t.later);
    }
  }

  lemma GivenUpInterval(c: Client)
    ensures GivenUp(c).interval == c.interval && GivenUp(c).lastPoll == c.lastPoll
  {
  }

  lemma ReadInterval(c: Client, t: Tick)
    ensures Read(c, t).interval == c.interval && Read(c, t).lastPoll == c.lastPoll
  {
    hide Percent, GivenUp, TimedOut, Writes;
    var d := c.device;
    var used := c.(device := d.(http := d.http.Use()));
    GivenUpInterval(c);
    GivenUpInterval(used);
    GivenUpInterval(used.(device := used.device.(ota := d.ota.Use())));
  }

  lemma AppliedInterval(hash: seq<byte> -> string, c: Client, t: Tick)
    ensures Applied(hash, c, t).interval == c.interval && Applied(hash, c, t).lastPoll == c.lastPoll
  {
    hide Released, Verified;
  }

  lemma StepKeepsInterval(hash: seq<byte> -> string, c: Client, x: Input)
    requires IntervalOk(c)
    ensures IntervalOk(Step(hash, c, x))
  {
    if x.Loop? {
      var t := x.tick;
      ReadInterval(c, t);
      AppliedInterval(hash, c, t);
      CheckedInterval(c, t);
      CheckedInterval(c.(phase := Checking, lastPoll := t.now), t);
    }
  }

  // Whatever servers and users ask for, the poll interval stays between a minute and a day.
  lemma {:induction false} IntervalKept(hash: seq<byte> -> string, c: Client, xs: seq<Input>, n: nat)
    requires n <= |xs| && IntervalOk(c)
    ensures IntervalOk(After(hash, c, xs, n))
  {
    if n > 0 {
      IntervalKept(hash, c, xs, n - 1);
      StepKeepsInterval(hash, After(hash, c, xs, n - 1), xs[n - 1]);
    }
  }

  lemma ClampedWritten(seconds: uint32)
    ensures Clamped(seconds) == if seconds < 60 then 60 else if seconds > 86400 then 86400 else seconds
  {
  }

  lemma CheckedAsked(c: Client, t: Tick)
    requires t.reply.Answer?
    ensures var o := t.reply.offer;
            Checked(c, t).interval ==
            if o.interval == 0 || (o.available && (o.version == "" || o.sha == "" || o.size == 0)) then c.interval
            else if o.interval < 60 then 60 else if o.interval > 86400 then 86400 else o.interval
  {
    hide Opened, Clamped;
    var o := t.reply.offer;
    ClampedWritten(o.interval);
    if o.available && Complete(o) && o.url != "" {
      OpenedInterval(Offered(c, o), t.opening, t.later);
    }
  }

  // A poll interval asked for directly, or by the server along with "no update" or with a usable offer, is kept within
  // a minute and a day; other answers, and an interval of 0, leave the old one.
  lemma IntervalExactly(hash: seq<byte> -> string, c: Client, x: Input)
    requires c.phase == Checking && (x.Loop? ==> x.tick.wifi && x.tick.reply.Answer?) && !x.Trigger?
    ensures var asked :=
              if x.SetInterval? then Some(x.seconds)
              else
                var o := x.tick.reply.offer;
                if o.interval > 0 && (!o.available || (o.version != "" && o.sha != "" && o.size > 0))
                then Some(o.interval) else None;
            Step(hash, c, x).interval ==
            match asked
            case None => c.interval
            case Some(seconds) => if seconds < 60 then 60 else if seconds > 86400 then 86400 else seconds
  {
    hide Checked, Clamped;
    if x.Loop? {
      CheckedAsked(c, x.tick);
    } else {
      ClampedWritten(x.seconds);
    }
  }

  lemma ElapsedModulo(now: nat, last: nat)
    ensures Sub32(ToUint32(now), ToUint32(last)) == ToUint32(now - last)
  {
    assert now - last == TWO_32 * (now / TWO_32 - last / TWO_32) + (now % TWO_32 - last % TWO_32);
  }

  // What the poll timer counts from: boot or the last poll it made; a trigger that starts a check makes it forget.
  datatype Reference = SincePoll(time: nat) | SinceTrigger

  // The timer starts a check.
  predicate Polls(c: Client, x: Input) { Reads(x) && c.phase == Idle && Due(c, x.tick.now) }

  function ReferenceAt(
      hash: seq<byte> -> string, c: Client, boot: nat, xs: seq<Input>, times: seq<nat>, n: nat): Reference
    requires n <= |xs| == |times|
  {
    if n == 0 then SincePoll(boot)
    else
      var before := After(hash, c, xs, n - 1);
      if xs[n - 1].Trigger? && (before.phase == Idle || before.phase == Failed) then SinceTrigger
      else if Polls(before, xs[n - 1]) then SincePoll(times[n - 1])
      else ReferenceAt(hash, c, boot, xs, times, n - 1)
  }

  // Every tick carries its true time, cut to 32 bits.
  ghost predicate Timed(xs: seq<Input>, times: seq<nat>) {
    |xs| == |times| && forall k :: 0 <= k < |xs| && xs[k].Loop? ==> xs[k].tick.now == ToUint32(times[k])
  }

  function Encoded(r: Reference): uint32 { if r.SincePoll? then ToUint32(r.time) else 0 }

  lemma StepTimer(hash: seq<byte> -> string, c: Client, x: Input)
    requires c.phase != Failed
    ensures Step(hash, c, x).lastPoll ==
            if Polls(c, x) then x.tick.now else if x.Trigger? && c.phase == Idle then 0 else c.lastPoll
  {
    hide Checked, Read, Applied, Due;
    if x.Loop? {
      var t := x.tick;
      CheckedInterval(c, t);
      CheckedInterval(c.(phase := Checking, lastPoll := t.now), t);
      ReadInterval(c, t);
      AppliedInterval(hash, c, t);
    }
  }

  // The timer field holds that reference in every reachable state.
  lemma {:induction false} TimerHolds(
      hash: seq<byte> -> string, boot: nat, interval: uint32, room: uint32, xs: seq<Input>, times: seq<nat>, n: nat)
    requires Timed(xs, times) && n <= |xs|
    ensures var c := Initial(ToUint32(boot), interval, room);
            After(hash, c, xs, n).lastPoll == Encoded(ReferenceAt(hash, c, boot, xs, times, n))
  {
    hide Step, Ok, Due, ToUint32;
    var c := Initial(ToUint32(boot), interval, room);
    if n > 0 {
      TimerHolds(hash, boot, interval, room, xs, times, n - 1);
      InitialOk(hash, ToUint32(boot), interval, room);
      AlwaysOk(hash, c, xs, n - 1);
      OkNotFailed(hash, After(hash, c, xs, n - 1));
      StepTimer(hash, After(hash, c, xs, n - 1), xs[n - 1]);
    }
  }

  lemma InitialOk(hash: seq<byte> -> string, now: uint32, interval: uint32, room: uint32)
    ensures Ok(hash, Initial(now, interval, room))
  {
  }

  lemma OkNotFailed(hash: seq<byte> -> string, c: Client)
    requires Ok(hash, c)
    ensures c.phase != Failed
  {
  }

  // In every reachable state, in true time: as long as no trigger has started a check since the timer's last poll (or
  // boot), an idle client polls at a tick if and only if the interval has passed since then (seen modulo 2^32); after
  // such a trigger, if and only if the 32-bit clock itself reads at least the interval. A tick that does not poll
  // changes nothing.
  lemma PollsWhenDue(
      hash: seq<byte> -> string, boot: nat, interval: uint32, room: uint32, xs: seq<Input>, times: seq<nat>, n: nat)
    requires Timed(xs, times) && n < |xs| && INTERVAL_MIN <= interval <= INTERVAL_MAX
    requires var c := After(hash, Initial(ToUint32(boot), interval, room), xs, n); c.phase == Idle && Reads(xs[n])
    ensures var c := Initial(ToUint32(boot), interval, room);
            var here, r := After(hash, c, xs, n), ReferenceAt(hash, c, boot, xs, times, n);
            && (Polls(here, xs[n]) <==>
                  match r
                  case SincePoll(last) => (times[n] - last) % TWO_32 >= here.interval * 1000
                  case SinceTrigger => times[n] % TWO_32 >= here.interval * 1000)
            && After(hash, c, xs, n + 1) ==
               if Polls(here, xs[n])
               then Checked(here.(phase := Checking, lastPoll := xs[n].tick.now), xs[n].tick) else here
  {
    var c := Initial(ToUint32(boot), interval, room);
    var here, r := After(hash, c, xs, n), ReferenceAt(hash, c, boot, xs, times, n);
    TimerHolds(hash, boot, interval, room, xs, times, n);
    IntervalKept(hash, c, xs, n);
    DueExactly(here, if r.SincePoll? then r.time else 0, times[n]);
    PolledStep(hash, here, xs[n].tick);
    assert After(hash, c, xs, n + 1) == Step(hash, here, xs[n]);
  }

  lemma PolledStep(hash: seq<byte> -> string, c: Client, t: Tick)
    requires c.phase == Idle && t.wifi
    ensures Step(hash, c, Loop(t)) ==
            if Due(c, t.now) then Checked(c.(phase := Checking, lastPoll := t.now), t) else c
  {
    hide Checked, Due;
  }

  // Booted at 0 and polling every minute: a poll when the minute is over, a trigger, its check, and the timer polls
  // again one millisecond after that check.
  const TWICE := [
    Loop(TICK.(now := 60_000)),
    Trigger,
    Loop(TICK.(now := 60_001)),
    Loop(TICK.(now := 60_002))]

  lemma PollsTwice(hash: seq<byte> -> string)
    ensures var c := Initial(0, 60, PARTITION);
            && Polls(c, TWICE[0]) && After(hash, c, TWICE, 1).phase == Idle
            && After(hash, c, TWICE, 2).phase == Checking && After(hash, c, TWICE, 3).phase == Idle
            && Polls(After(hash, c, TWICE, 3), TWICE[3])
  {
    var c := Initial(0, 60, PARTITION);
    assert After(hash, c, TWICE, 0) == c;
    assert After(hash, c, TWICE, 1) == c.(lastPoll := 60_000);
    assert After(hash, c, TWICE, 2) == c.(lastPoll := 0, phase := Checking);
    assert After(hash, c, TWICE, 3) == c;
  }

  lemma DueExactly(c: Client, last: nat, now: nat)
    requires IntervalOk(c) && c.lastPoll == ToUint32(last)
    ensures Due(c, ToUint32(now)) <==> (now - last) % TWO_32 >= c.interval * 1000
  {
    ElapsedModulo(now, last);
    Untruncated(c.interval * 1000);
  }

  // ---------------------------------------------------------------- the client

  class Updater {
    const hash: seq<byte> -> string  // SHA-256 as lower-case hex
    var phase: Phase
    var tls: bool
    var http: bool
    var handle: bool
    var partition: bool
    var hashing: bool
    var version: string
    var sha: string
    var size: uint32
    var total: uint32
    var progress: nat
    var start: uint32
    var lastPoll: uint32
    var interval: uint32
    var device: Device

    ghost function Now(): Client
      reads this
    {
      Client(phase, tls, http, handle, partition, hashing, version, sha, size, total, progress, start, lastPoll,
             interval, device)
    }

    ghost predicate Valid()
      reads this
    {
      Ok(hash, Now())
    }

    constructor (hash: seq<byte> -> string, now: uint32, interval: uint32, room: uint32)
      ensures Valid() && Now() == Initial(now, interval, room) && this.hash == hash
    {
      this.hash := hash;
      phase := Idle;
      tls, http, handle, partition, hashing := false, false, false, false, false;
      version, sha, size, total, progress, start := "", "", 0, 0, 0, 0;
      lastPoll, this.interval := now, interval;
      device := Device(FRESH, FRESH, FRESH, FRESH, room, [], [], []);
    }

    method CloseConnection()
      modifies `http, `tls, `device
      ensures !http && !tls
      ensures var d := old(device); device == d.(http := Closed(d.http, old(http)), tls := Closed(d.tls, old(tls)))
    {
      if http {
        device := device.(http := device.http.Return());
        http := false;
      }
      if tls {
        device := device.(tls := device.tls.Return());
        tls := false;
      }
    }

    method CloseImage()
      modifies `handle, `hashing, `device
      ensures !handle && !hashing
      ensures var d := old(device);
              device == d.(ota := Closed(d.ota, old(handle)), digest := Closed(d.digest, old(hashing)))
    {
      if handle {
        device := device.(ota := device.ota.Return());
        handle := false;
      }
      if hashing {
        device := device.(digest := device.digest.Return());
        hashing := false;
      }
    }

    method CleanUp()
      modifies this
      ensures Now() == CleanedUp(old(Now()))
    {
      CloseConnection();
      CloseImage();
      partition, total, start := false, 0, 0;
      version, sha, size, progress := "", "", 0, 0;
    }

    method GiveUp()
      modifies this
      ensures Now() == GivenUp(old(Now()))
    {
      CleanUp();
      phase := Idle;
    }

    method SetPollInterval(seconds: uint32)
      modifies this
      ensures Now() == old(Now()).(interval := Clamped(seconds))
    {
      var s := seconds;
      if s < INTERVAL_MIN {
        s := INTERVAL_MIN;
      }
      if s > INTERVAL_MAX {
        s := INTERVAL_MAX;
      }
      interval := s;
    }

    method Connect()
      modifies `tls, `http, `device
      ensures Now() == Connected(old(Now()))
    {
      tls, http := true, true;
      device := device.(tls := device.tls.Take(), http := device.http.Take());
    }

    method BeginImage(now: uint32)
      modifies this
      ensures Now() == Begun(old(Now()), now)
    {
      handle := true;
      device := device.(ota := device.ota.Take(), slot := []);
      hashing := true;
      device := device.(digest := device.digest.Take(), digested := []);
      total, start := 0, now;
      phase := Downloading;
    }

    method StartDownload(o: Opening, now: uint32)
      modifies this
      ensures Now() == Opened(old(Now()), o, now)
    {
      Connect();
      if !o.begins {
        GiveUp();
        return;
      }
      if o.code != 200 {
        GiveUp();
        return;
      }
      if !o.partition {
        GiveUp();
        return;
      }
      partition := true;
      if !o.begun {
        GiveUp();
        return;
      }
      BeginImage(now);
    }

    method TakeOffer(o: Offer)
      modifies this
      ensures Now() == Offered(old(Now()), o)
    {
      version, sha, size, progress := Clip(o.version, 15), Clip(o.sha, 64), o.size, 0;
      if o.interval > 0 {
        SetPollInterval(o.interval);
      }
    }

    method Check(t: Tick)
      modifies this
      ensures Now() == Checked(old(Now()), t)
    {
      if !t.reply.Answer? {
        phase := Idle;
        return;
      }
      var o := t.reply.offer;
      if !o.available {
        if o.interval > 0 {
          SetPollInterval(o.interval);
        }
        phase := Idle;
        return;
      }
      if o.version == "" || o.sha == "" || o.size == 0 {
        phase := Idle;
        return;
      }
      TakeOffer(o);
      if o.url == "" {
        phase := Idle;
        return;
      }
      StartDownload(t.opening, t.later);
    }

    method Store(chunk: Chunk)
      requires size > 0
      modifies this
      ensures Now() == Reported(Stored(old(Now()), chunk))
    {
      device := device.(http := device.http.Use(), ota := device.ota.Use(), slot := device.slot + chunk);
      device := device.(digest := device.digest.Use(), digested := device.digested + chunk);
      total := Add32(total, |chunk|);
      progress := Percent(total, size);
      if total >= size {
        phase := Applying;
      }
    }

    method ReadChunk(t: Tick)
      requires size > 0
      modifies this
      ensures Now() == Read(old(Now()), t)
    {
      if Sub32(t.now, start) > TIMEOUT_MS {
        GiveUp();
        return;
      }
      if !t.stream {
        device := device.(http := device.http.Use());
        GiveUp();
        return;
      }
      if t.chunk == [] {
        device := device.(http := device.http.Use());
        if !t.connected {
          if total >= size {
            phase := Applying;
            return;
          }
          GiveUp();
        }
        return;
      }
      if !t.written || |device.slot| + |t.chunk| > device.room {
        device := device.(http := device.http.Use(), ota := device.ota.Use());
        GiveUp();
        return;
      }
      Store(t.chunk);
    }

    // The hash context and the handle are given back whatever the outcome: by esp_ota_abort or by esp_ota_end.
    method Finish()
      modifies `hashing, `handle, `device
      ensures Now() == Finished(old(Now()))
    {
      device := device.(digest := device.digest.Return());
      hashing := false;
      device := device.(ota := device.ota.Return());
      handle := false;
    }

    method Install()
      modifies this
      ensures Now() == Installed(old(Now()))
    {
      device := device.(boots := device.boots + [Image(device.slot, size, sha)]);
      CleanUp();
      phase := Rebooting;
    }

    method Apply(t: Tick)
      modifies this
      ensures Now() == Applied(hash, old(Now()), t)
    {
      var computed := hash(device.digested);
      Finish();
      if total != size {
        GiveUp();
        return;
      }
      if !SameFolded(computed, sha) {
        GiveUp();
        return;
      }
      if !t.ended {
        GiveUp();
        return;
      }
      if !t.bootSet {
        GiveUp();
        return;
      }
      Install();
    }

    method Loop(t: Tick)
      requires Valid()
      modifies this
      ensures Valid() && Now() == Step(hash, old(Now()), Input.Loop(t))
    {
      StepKeeps(hash, Now(), Input.Loop(t));
      if !t.wifi {
        return;
      }
      match phase
      case Idle =>
        if Sub32(t.now, lastPoll) >= ToUint32(interval * 1000) {
          lastPoll, phase := t.now, Checking;
          Check(t);
        }
      case Checking => Check(t);
      case Downloading => ReadChunk(t);
      case Applying => Apply(t);
      case Rebooting =>
      case Failed =>
        assert false;
    }

    method TriggerCheck()
      requires Valid()
      modifies this
      ensures Valid() && Now() == Triggered(old(Now()))
    {
      if phase != Idle && phase != Failed {
        return;
      }
      lastPoll, phase := 0, Checking;
    }
  }
}
