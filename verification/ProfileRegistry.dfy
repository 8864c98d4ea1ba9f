/** The battery profile registry: a sparse table with a high-water mark and its persisted image. */
module ProfileRegistry {
  import opened Options

  const MAX_PROFILES: nat := 16
  const BUILTIN_COUNT: nat := 4
  const BLOB_VERSION: nat := 1

  // A profile; the electrical limits are carried along as they are.
  datatype Profile = Profile(id: int, name: string, chemistry: int, capacity: real, limits: seq<real>)

  // A slot of zero bytes.
  const EMPTY := Profile(0, "", 0, 0.0, [])

  // profile_slot_valid.
  predicate IsValid(p: Profile) { p.name != "" && p.capacity > 0.001 }

  type Table = s: seq<Profile> | |s| == MAX_PROFILES witness seq(MAX_PROFILES, _ => EMPTY)

  type Builtins = s: seq<Profile> |
    |s| == BUILTIN_COUNT && forall i :: 0 <= i < BUILTIN_COUNT ==> IsValid(s[i]) && s[i].id == i
    witness seq(BUILTIN_COUNT, i => Profile(i, "x", 0, 1.0, []))

  // The registry in RAM, and what flash holds: the version key and the blob, each possibly missing.
  datatype Registry = Registry(profiles: Table, populated: nat)

  datatype Flash = Flash(version: Option<nat>, blob: Option<Table>)

  // ---------------------------------------------------------------- the operations on values

  function Defaults(builtins: Builtins): Table {
    seq(MAX_PROFILES, i requires 0 <= i < MAX_PROFILES => if i < BUILTIN_COUNT then builtins[i] else EMPTY)
  }

  predicate Honoured(p: Profile, i: nat) { p.id == i && IsValid(p) }

  // One past the highest valid custom slot among the first n, 4 when there is none.
  function HighWater(t: seq<Profile>, n: nat): nat
    requires n <= |t|
  {
    if n <= BUILTIN_COUNT then BUILTIN_COUNT
    else if IsValid(t[n - 1]) then n else HighWater(t, n - 1)
  }

  function Overlaid(builtins: Builtins, image: Table): Table {
    seq(MAX_PROFILES, i requires 0 <= i < MAX_PROFILES =>
      if Honoured(image[i], i) then image[i] else Defaults(builtins)[i])
  }

  // What init_battery_profiles makes of the flash contents.
  function Loaded(builtins: Builtins, f: Flash): Registry {
    if f.version == Some(BLOB_VERSION) && f.blob.Some? then
      var t := Overlaid(builtins, f.blob.value);
      Registry(t, HighWater(t, MAX_PROFILES))
    else
      Registry(Defaults(builtins), BUILTIN_COUNT)
  }

  predicate Acceptable(p: Profile) { 0 <= p.id < MAX_PROFILES && IsValid(p) }

  function WithSet(r: Registry, p: Profile): Registry
    requires Acceptable(p)
  {
    Registry(r.profiles[p.id := p], if p.id + 1 > r.populated then p.id + 1 else r.populated)
  }

  predicate Deletable(r: Registry, id: nat) { BUILTIN_COUNT <= id < MAX_PROFILES && id < r.populated }

  function WithDelete(r: Registry, id: nat): Registry
    requires Deletable(r, id) && r.populated <= MAX_PROFILES
  {
    var t := r.profiles[id := EMPTY];
    Registry(t, if id + 1 == r.populated then HighWater(t, r.populated) else r.populated)
  }

  function WithReset(r: Registry, builtins: Builtins, id: nat): Registry
    requires id < BUILTIN_COUNT
  {
    r.(profiles := r.profiles[id := builtins[id]])
  }

  // battery_profile_get.
  function Lookup(r: Registry, id: nat): Option<Profile> {
    if id < MAX_PROFILES && id < r.populated && IsValid(r.profiles[id]) then Some(r.profiles[id]) else None
  }

  // ---------------------------------------------------------------- what always holds

  // The built-in slots are valid; every valid slot carries its own index; every other slot is blank; the high-water
  // mark is 4 or one past a valid slot, and no slot from it on is valid.
  predicate SlotOk(t: Table, i: nat)
    requires i < MAX_PROFILES
  {
    && (IsValid(t[i]) ==> t[i].id == i)
    && (!IsValid(t[i]) ==> t[i] == EMPTY && i >= BUILTIN_COUNT)
  }

  ghost predicate Ok(r: Registry) {
    && BUILTIN_COUNT <= r.populated <= MAX_PROFILES
    && (forall i :: 0 <= i < MAX_PROFILES ==> SlotOk(r.profiles, i))
    && (r.populated == BUILTIN_COUNT || IsValid(r.profiles[r.populated - 1]))
    && (forall i :: r.populated <= i < MAX_PROFILES ==> !IsValid(r.profiles[i]))
  }

  lemma {:induction false} HighWaterMark(t: seq<Profile>, n: nat)
    requires n <= |t|
    ensures var h := HighWater(t, n); BUILTIN_COUNT <= h && (h <= n || h == BUILTIN_COUNT)
    ensures var h := HighWater(t, n); h == BUILTIN_COUNT || IsValid(t[h - 1])
    ensures forall i :: HighWater(t, n) <= i < n ==> !IsValid(t[i])
  {
    if n > BUILTIN_COUNT && !IsValid(t[n - 1]) {
      HighWaterMark(t, n - 1);
    }
  }

  lemma HighWaterIs(t: seq<Profile>, n: nat, h: nat)
    requires BUILTIN_COUNT <= h <= n <= |t|
    requires h == BUILTIN_COUNT || IsValid(t[h - 1])
    requires forall i :: h <= i < n ==> !IsValid(t[i])
    ensures HighWater(t, n) == h
  {
    HighWaterMark(t, n);
  }

  lemma LoadedOk(builtins: Builtins, f: Flash)
    ensures Ok(Loaded(builtins, f))
  {
    HighWaterMark(Loaded(builtins, f).profiles, MAX_PROFILES);
  }

  lemma SetOk(r: Registry, p: Profile)
    requires Ok(r) && Acceptable(p)
    ensures Ok(WithSet(r, p))
  {
    var t := WithSet(r, p).profiles;
    assert forall i :: 0 <= i < MAX_PROFILES && i != p.id ==> SlotOk(r.profiles, i) && t[i] == r.profiles[i];
  }

  lemma DeleteOk(r: Registry, id: nat)
    requires Ok(r) && Deletable(r, id)
    ensures Ok(WithDelete(r, id))
  {
    var t := WithDelete(r, id).profiles;
    HighWaterMark(t, r.populated);
    assert forall i :: 0 <= i < MAX_PROFILES && i != id ==> SlotOk(r.profiles, i) && t[i] == r.profiles[i];
  }

  lemma ResetOk(r: Registry, builtins: Builtins, id: nat)
    requires Ok(r) && id < BUILTIN_COUNT
    ensures Ok(WithReset(r, builtins, id))
  {
    var t := WithReset(r, builtins, id).profiles;
    assert forall i :: 0 <= i < MAX_PROFILES && i != id ==> SlotOk(r.profiles, i) && t[i] == r.profiles[i];
  }

  // Saving and loading a registry is the identity.
  lemma LoadSaved(builtins: Builtins, r: Registry)
    requires Ok(r)
    ensures Loaded(builtins, Flash(Some(BLOB_VERSION), Some(r.profiles))) == r
  {
    var t := Overlaid(builtins, r.profiles);
    forall i | 0 <= i < MAX_PROFILES
      ensures t[i] == r.profiles[i]
    {
      assert SlotOk(r.profiles, i);
    }
    assert t == r.profiles;
    HighWaterIs(t, MAX_PROFILES, r.populated);
  }

  // ---------------------------------------------------------------- runs

  datatype Request = Set(p: Profile) | Delete(id: nat) | ResetBuiltin(slot: nat)

  // A call, and whether the two flash writes it may make work.
  datatype Call = Call(req: Request, blobOk: bool, versionOk: bool)

  datatype State = State(r: Registry, f: Flash)

  predicate Taken(r: Registry, req: Request) {
    match req
    case Set(p) => Acceptable(p)
    case Delete(id) => Deletable(r, id)
    case ResetBuiltin(slot) => slot < BUILTIN_COUNT
  }

  function Changed(builtins: Builtins, r: Registry, req: Request): Registry
    requires Taken(r, req) && r.populated <= MAX_PROFILES
  {
    match req
    case Set(p) => WithSet(r, p)
    case Delete(id) => WithDelete(r, id)
    case ResetBuiltin(slot) => WithReset(r, builtins, slot)
  }

  // persist_profiles_locked: the version key follows a written blob, and its own outcome is not looked at.
  function Persisted(r: Registry, f: Flash, blobOk: bool, versionOk: bool): Flash {
    if !blobOk then f else Flash(if versionOk then Some(BLOB_VERSION) else f.version, Some(r.profiles))
  }

  function Step(builtins: Builtins, s: State, c: Call): (s': State)
    requires Ok(s.r)
    ensures Ok(s'.r)
  {
    if Taken(s.r, c.req) then
      ChangedOk(builtins, s.r, c.req);
      var r := Changed(builtins, s.r, c.req);
      State(r, Persisted(r, s.f, c.blobOk, c.versionOk))
    else s
  }

  lemma ChangedOk(builtins: Builtins, r: Registry, req: Request)
    requires Ok(r) && Taken(r, req)
    ensures Ok(Changed(builtins, r, req))
  {
    match req
    case Set(p) => SetOk(r, p);
    case Delete(id) => DeleteOk(r, id);
    case ResetBuiltin(slot) => ResetOk(r, builtins, slot);
  }

  // Booted from flash f, after the first n calls.
  function After(builtins: Builtins, f: Flash, calls: seq<Call>, n: nat): (s: State)
    requires n <= |calls|
    ensures Ok(s.r)
  {
    if n == 0 then LoadedOk(builtins, f); State(Loaded(builtins, f), f)
    else Step(builtins, After(builtins, f, calls, n - 1), calls[n - 1])
  }

  predicate WritesBlob(builtins: Builtins, f: Flash, calls: seq<Call>, k: nat)
    requires k < |calls|
  {
    Taken(After(builtins, f, calls, k).r, calls[k].req) && calls[k].blobOk
  }

  // The registry as the last call that wrote the blob left it; the booted one when none did.
  function LastWritten(builtins: Builtins, f: Flash, calls: seq<Call>, n: nat): Registry
    requires n <= |calls|
  {
    if n == 0 then Loaded(builtins, f)
    else if WritesBlob(builtins, f, calls, n - 1) then After(builtins, f, calls, n).r
    else LastWritten(builtins, f, calls, n - 1)
  }

  predicate WritesVersion(builtins: Builtins, f: Flash, calls: seq<Call>, k: nat)
    requires k < |calls|
  {
    WritesBlob(builtins, f, calls, k) && calls[k].versionOk
  }

  predicate VersionStored(builtins: Builtins, f: Flash, calls: seq<Call>, n: nat)
    requires n <= |calls|
  {
    f.version == Some(BLOB_VERSION) || exists k :: 0 <= k < n && WritesVersion(builtins, f, calls, k)
  }

  lemma StoredGrows(builtins: Builtins, f: Flash, calls: seq<Call>, n: nat)
    requires 0 < n <= |calls|
    ensures VersionStored(builtins, f, calls, n) <==>
            VersionStored(builtins, f, calls, n - 1) || WritesVersion(builtins, f, calls, n - 1)
  {
    if VersionStored(builtins, f, calls, n) && f.version != Some(BLOB_VERSION) {
      var k :| 0 <= k < n && WritesVersion(builtins, f, calls, k);
      assert k == n - 1 || k < n - 1;
    }
  }

  // One call: the version key, and what a reboot would bring back.
  lemma StepSaves(builtins: Builtins, s: State, c: Call)
    requires Ok(s.r)
    ensures var s' := Step(builtins, s, c); var wrote := Taken(s.r, c.req) && c.blobOk;
            && (s'.f.version == Some(BLOB_VERSION) <==> s.f.version == Some(BLOB_VERSION) || (wrote && c.versionOk))
            && (!wrote ==> s'.f == s.f)
            && (wrote && s'.f.version == Some(BLOB_VERSION) ==> Loaded(builtins, s'.f) == s'.r)
  {
    var s' := Step(builtins, s, c);
    LoadSaved(builtins, s'.r);
  }

  lemma {:induction false} VersionAfter(builtins: Builtins, f: Flash, calls: seq<Call>, n: nat)
    requires n <= |calls|
    ensures After(builtins, f, calls, n).f.version == Some(BLOB_VERSION) <==> VersionStored(builtins, f, calls, n)
  {
    if n > 0 {
      VersionAfter(builtins, f, calls, n - 1);
      StoredGrows(builtins, f, calls, n);
      StepSaves(builtins, After(builtins, f, calls, n - 1), calls[n - 1]);
    }
  }

  // Whatever writes fail, a reboot brings back the registry of the last written blob once the version key has been
  // stored, and the factory defaults until then.
  lemma {:induction false} RebootAfter(builtins: Builtins, f: Flash, calls: seq<Call>, n: nat)
    requires n <= |calls|
    ensures Loaded(builtins, After(builtins, f, calls, n).f) ==
            if VersionStored(builtins, f, calls, n) then LastWritten(builtins, f, calls, n)
            else Registry(Defaults(builtins), BUILTIN_COUNT)
  {
    VersionAfter(builtins, f, calls, n);
    if VersionStored(builtins, f, calls, n) && n > 0 {
      StepSaves(builtins, After(builtins, f, calls, n - 1), calls[n - 1]);
      if !WritesBlob(builtins, f, calls, n - 1) {
        StoredGrows(builtins, f, calls, n);
        RebootAfter(builtins, f, calls, n - 1);
      }
    }
  }

  ghost predicate AllWritesWork(calls: seq<Call>) {
    forall k :: 0 <= k < |calls| ==> calls[k].blobOk && calls[k].versionOk
  }

  // As long as every write works, a reboot at any moment changes nothing.
  lemma {:induction false} RebootChangesNothing(builtins: Builtins, f: Flash, calls: seq<Call>, n: nat)
    requires n <= |calls| && AllWritesWork(calls)
    ensures Loaded(builtins, After(builtins, f, calls, n).f) == After(builtins, f, calls, n).r
  {
    if n > 0 {
      RebootChangesNothing(builtins, f, calls, n - 1);
      LoadSaved(builtins, After(builtins, f, calls, n).r);
    }
  }

  // An update reported as saved can be read back after a reboot exactly when the version key is there, or was written
  // along with it, or the update is a factory default.
  lemma SavedExactly(builtins: Builtins, s: State, p: Profile, versionOk: bool)
    requires Ok(s.r) && Acceptable(p)
    ensures Lookup(Loaded(builtins, Step(builtins, s, Call(Set(p), true, versionOk)).f), p.id) == Some(p) <==>
            versionOk || s.f.version == Some(BLOB_VERSION) || (p.id < BUILTIN_COUNT && p == builtins[p.id])
  {
    var s' := Step(builtins, s, Call(Set(p), true, versionOk));
    if s'.f.version == Some(BLOB_VERSION) {
      LoadSaved(builtins, s'.r);
    }
  }

  // Each request changes the answer for the id it names, and for no other: a set for an id below 16, with a name and a
  // capacity above 0.001 Ah; a delete from id 4 on; a reset below id 4.
  lemma LookupAfter(builtins: Builtins, s: State, c: Call, id: nat)
    requires Ok(s.r)
    ensures Lookup(Step(builtins, s, c).r, id) ==
            match c.req
            case Set(p) =>
              if id == p.id < 16 && p.name != "" && p.capacity > 0.001 then Some(p) else Lookup(s.r, id)
            case Delete(gone) => if id == gone && gone >= 4 then None else Lookup(s.r, id)
            case ResetBuiltin(slot) => if id == slot < 4 then Some(builtins[slot]) else Lookup(s.r, id)
  {
    if id < MAX_PROFILES {
      assert SlotOk(s.r.profiles, id) && SlotOk(Step(builtins, s, c).r.profiles, id);
    }
  }

  // A request is refused, and changes neither RAM nor flash, exactly when its id or its profile is not acceptable: a
  // delete also from the high-water mark on. Any other writes the whole table, and then the version 1, as far as the
  // writes work.
  lemma RefusedExactly(builtins: Builtins, s: State, c: Call)
    requires Ok(s.r)
    ensures var s' := Step(builtins, s, c);
            var refused :=
              match c.req
              case Set(p) => p.id < 0 || p.id >= 16 || p.name == "" || p.capacity <= 0.001
              case Delete(id) => id < 4 || id >= s.r.populated
              case ResetBuiltin(slot) => slot >= 4;
            if refused then s' == s
            else if !c.blobOk then s'.f == s.f
            else s'.f.blob == Some(s'.r.profiles) && s'.f.version == if c.versionOk then Some(1) else s.f.version
  {
  }

  // What a boot answers, from any flash contents: a stored slot counts under version 1, if it carries its own id, a
  // name and a capacity above 0.001 Ah; failing that there are the four built-ins and nothing else.
  lemma BootAnswers(builtins: Builtins, f: Flash, id: nat)
    ensures Lookup(Loaded(builtins, f), id) ==
            if && id < 16 && f.version == Some(1) && f.blob.Some?
               && var p := f.blob.value[id]; p.id == id && p.name != "" && p.capacity > 0.001
            then Some(f.blob.value[id])
            else if id < 4 then Some(builtins[id]) else None
  {
    if id < 16 && f.version == Some(1) && f.blob.Some? {
      var t := Overlaid(builtins, f.blob.value);
      HighWaterMark(t, MAX_PROFILES);
      assert t[id] == if Honoured(f.blob.value[id], id) then f.blob.value[id] else Defaults(builtins)[id];
    }
  }

  // ---------------------------------------------------------------- the registry

  class ProfileStore {
    const builtins: Builtins
    const profiles: array<Profile>
    var populated: nat
    var version: Option<nat>
    var blob: Option<Table>

    ghost predicate Valid()
      reads this, profiles
    {
      profiles.Length == MAX_PROFILES && Ok(Content())
    }

    ghost function Content(): Registry
      requires profiles.Length == MAX_PROFILES
      reads this, profiles
    {
      Registry(profiles[..], populated)
    }

    ghost function Stored(): Flash
      reads this
    {
      Flash(version, blob)
    }

    ghost function Now(): State
      requires profiles.Length == MAX_PROFILES
      reads this, profiles
    {
      State(Content(), Stored())
    }

    // init_battery_profiles, on a device whose flash holds f.
    constructor (builtins: Builtins, f: Flash)
      ensures Valid() && Now() == After(builtins, f, [], 0)
      ensures this.builtins == builtins && fresh(profiles)
    {
      this.builtins := builtins;
      var a := new Profile[MAX_PROFILES](_ => EMPTY);
      profiles := a;
      populated := BUILTIN_COUNT;
      version, blob := f.version, f.blob;
      new;
      LoadedOk(builtins, f);
      LoadDefaults();
      if version == Some(BLOB_VERSION) && blob.Some? {
        Overlay(blob.value);
      }
    }

    method LoadDefaults()
      requires profiles.Length == MAX_PROFILES
      modifies this`populated, profiles
      ensures Content() == Registry(Defaults(builtins), BUILTIN_COUNT)
    {
      for i := 0 to MAX_PROFILES
        invariant forall k :: 0 <= k < i ==> profiles[k] == Defaults(builtins)[k]
      {
        profiles[i] := if i < BUILTIN_COUNT then builtins[i] else EMPTY;
      }
      populated := BUILTIN_COUNT;
    }

    method Overlay(image: Table)
      requires profiles.Length == MAX_PROFILES && profiles[..] == Defaults(builtins)
      modifies this`populated, profiles
      ensures Content() == Loaded(builtins, Flash(Some(BLOB_VERSION), Some(image)))
    {
      ghost var t := Overlaid(builtins, image);
      var newPop := BUILTIN_COUNT;
      for i := 0 to MAX_PROFILES
        invariant newPop == HighWater(t, i)
        invariant forall k :: 0 <= k < i ==> profiles[k] == t[k]
        invariant forall k :: i <= k < MAX_PROFILES ==> profiles[k] == Defaults(builtins)[k]
      {
        HighWaterMark(t, i);
        if Honoured(image[i], i) {
          profiles[i] := image[i];
          if i >= BUILTIN_COUNT && i + 1 > newPop {
            newPop := i + 1;
          }
        }
      }
      populated := newPop;
    }

    method Persist(blobOk: bool, versionOk: bool) returns (ok: bool)
      requires Valid()
      modifies this`version, this`blob
      ensures ok == blobOk && Stored() == Persisted(Content(), old(Stored()), blobOk, versionOk)
    {
      if blobOk {
        blob := Some(profiles[..]);
        if versionOk {
          version := Some(BLOB_VERSION);
        }
      }
      ok := blobOk;
    }

    method Get(id: nat) returns (p: Option<Profile>)
      requires Valid()
      ensures p == Lookup(Content(), id)
    {
      if id >= MAX_PROFILES {
        return None;
      }
      p := None;
      if id < populated && IsValid(profiles[id]) {
        p := Some(profiles[id]);
      }
    }

    method SetProfile(p: Profile, blobOk: bool, versionOk: bool) returns (ok: bool)
      requires Valid()
      modifies this, profiles
      ensures Valid() && Now() == Step(builtins, old(Now()), Call(Set(p), blobOk, versionOk))
      ensures ok <==> Acceptable(p) && blobOk
    {
      if p.id < 0 || p.id >= MAX_PROFILES || p.name == "" || p.capacity <= 0.001 {
        return false;
      }
      SetOk(Content(), p);
      profiles[p.id] := p;
      if p.id + 1 > populated {
        populated := p.id + 1;
      }
      assert Content() == WithSet(old(Content()), p);
      ok := Persist(blobOk, versionOk);
    }

    method ClearSlot(id: nat)
      requires Valid() && Deletable(Content(), id)
      modifies this`populated, profiles
      ensures Valid() && Content() == WithDelete(old(Content()), id)
    {
      ghost var r := Content();
      ghost var t := r.profiles[id := EMPTY];
      DeleteOk(r, id);
      profiles[id] := EMPTY;
      assert profiles[..] == t;
      if id + 1 == populated {
        while populated > BUILTIN_COUNT
          invariant BUILTIN_COUNT <= populated <= r.populated
          invariant profiles[..] == t
          invariant HighWater(t, populated) == HighWater(t, r.populated)
        {
          if IsValid(profiles[populated - 1]) {
            break;
          }
          populated := populated - 1;
        }
      }
      assert Content() == WithDelete(r, id);
    }

    method DeleteProfile(id: nat, blobOk: bool, versionOk: bool) returns (ok: bool)
      requires Valid()
      modifies this, profiles
      ensures Valid() && Now() == Step(builtins, old(Now()), Call(Delete(id), blobOk, versionOk))
      ensures ok <==> Deletable(old(Content()), id) && blobOk
    {
      if id < BUILTIN_COUNT || id >= MAX_PROFILES || id >= populated {
        return false;
      }
      ClearSlot(id);
      ok := Persist(blobOk, versionOk);
    }

    method ResetProfile(id: nat, blobOk: bool, versionOk: bool)
      requires Valid()
      modifies this, profiles
      ensures Valid() && Now() == Step(builtins, old(Now()), Call(ResetBuiltin(id), blobOk, versionOk))
    {
      if id >= BUILTIN_COUNT {
        return;
      }
      ResetOk(Content(), builtins, id);
      profiles[id] := builtins[id];
      assert Content() == WithReset(old(Content()), builtins, id);
      var _ := Persist(blobOk, versionOk);
    }
  }
}
