/** nanopb field descriptors: the packing macros of pb.h and the unpacking in load_descriptor_values. */
module FieldInfo {

  // One field of a message, as the generator passes it to the macros: every argument is a C expression of 32 bits.
  datatype Field = Field(
    tag: bv32, ty: bv32, dataOffset: bv32, dataSize: bv32, sizeOffset: bv32, arraySize: bv32)

  datatype Width = One | Two | Four | Eight

  // ---------------------------------------------------------------- PB_FIELDINFO_n

  // (uint32_t)(int_least8_t)(x)
  function SignExtend8(x: bv32): bv32 {
    if x & 0x80 == 0 then x & 0xFF else (x & 0xFF) | 0xFFFF_FF00
  }

  function FirstWord(code: bv32, f: Field): bv32 { code | ((f.tag << 2) & 0xFF) | (f.ty << 8) }

  function TagWord(f: Field): bv32 { SignExtend8(f.sizeOffset) | ((f.tag << 2) & 0xFFFF_FF00) }

  function Pack1(f: Field): seq<bv32> {
    [FirstWord(0, f) | ((f.dataOffset & 0xFF) << 16) | ((f.sizeOffset & 0x0F) << 24) | ((f.dataSize & 0x0F) << 28)]
  }

  function Pack2(f: Field): seq<bv32> {
    [FirstWord(1, f) | ((f.arraySize & 0xFFF) << 16) | ((f.sizeOffset & 0x0F) << 28),
     (f.dataOffset & 0xFFFF) | ((f.dataSize & 0xFFF) << 16) | ((f.tag & 0x3c0) << 22)]
  }

  function Pack4(f: Field): seq<bv32> {
    [FirstWord(2, f) | ((f.arraySize & 0xFFFF) << 16), TagWord(f), f.dataOffset, f.dataSize]
  }

  function Pack8(f: Field): seq<bv32> {
    [FirstWord(3, f), TagWord(f), f.dataOffset, f.dataSize, f.arraySize, 0, 0, 0]
  }

  function Pack(w: Width, f: Field): (ws: seq<bv32>)
    ensures |ws| == Words(w)
  {
    match w
    case One => Pack1(f)
    case Two => Pack2(f)
    case Four => Pack4(f)
    case Eight => Pack8(f)
  }

  function Words(w: Width): nat {
    match w
    case One => 1
    case Two => 2
    case Four => 4
    case Eight => 8
  }

  // ---------------------------------------------------------------- PB_FIELDINFO_ASSERT_n (16-bit pb_size_t)

  predicate Fits(value: bv32, bits: bv6)
    requires bits < 32
  {
    value < (1 as bv32) << bits
  }

  predicate Asserted(w: Width, f: Field) {
    match w
    case One =>
      Fits(f.tag, 6) && Fits(f.dataOffset, 8) && Fits(f.sizeOffset, 4) && Fits(f.dataSize, 4) && Fits(f.arraySize, 1)
    case Two =>
      && Fits(f.tag, 10) && Fits(f.dataOffset, 16) && Fits(f.sizeOffset, 4) && Fits(f.dataSize, 12)
      && Fits(f.arraySize, 12)
    case Four =>
      Fits(f.tag, 16) && Fits(f.dataOffset, 16) && Fits(SignExtend8(f.sizeOffset), 8) && Fits(f.dataSize, 16)
      && Fits(f.arraySize, 16)
    case Eight =>
      Fits(f.tag, 16) && Fits(f.dataOffset, 16) && Fits(SignExtend8(f.sizeOffset), 8) && Fits(f.dataSize, 16)
      && Fits(f.arraySize, 16)
  }

  // pb_type_t is a byte.
  predicate IsType(ty: bv32) { ty < 0x100 }

  // A field within these ranges passes its assertion, and its words are sums: each part at the bit at which the formats
  // of the header place it.
  lemma Layout1(f: Field)
    requires f.tag < 0x40 && f.ty < 0x100 && f.dataOffset < 0x100 && f.sizeOffset < 0x10 && f.dataSize < 0x10
    requires f.arraySize < 2
    ensures Asserted(One, f)
    ensures Pack(One, f) ==
            [0 + 0x4 * f.tag + 0x100 * f.ty + 0x1_0000 * f.dataOffset + 0x100_0000 * f.sizeOffset +
             0x1000_0000 * f.dataSize]
  {
  }

  lemma Layout2(f: Field)
    requires f.tag < 0x400 && f.ty < 0x100 && f.dataOffset < 0x1_0000 && f.sizeOffset < 0x10
    requires f.dataSize < 0x1000 && f.arraySize < 0x1000
    ensures Asserted(Two, f)
    ensures Pack(Two, f) ==
            [1 + 0x4 * (f.tag % 0x40) + 0x100 * f.ty + 0x1_0000 * f.arraySize + 0x1000_0000 * f.sizeOffset,
             f.dataOffset + 0x1_0000 * f.dataSize + 0x1000_0000 * (f.tag / 0x40)]
  {
  }

  lemma Layout4(f: Field)
    requires f.tag < 0x1_0000 && f.ty < 0x100 && f.dataOffset < 0x1_0000 && f.sizeOffset < 0x80
    requires f.dataSize < 0x1_0000 && f.arraySize < 0x1_0000
    ensures Asserted(Four, f)
    ensures Pack(Four, f) ==
            [2 + 0x4 * (f.tag % 0x40) + 0x100 * f.ty + 0x1_0000 * f.arraySize,
             f.sizeOffset + 0x100 * (f.tag / 0x40), f.dataOffset, f.dataSize]
  {
    hide Asserted;
    FitsLong(f);
  }

  lemma Layout8(f: Field)
    requires f.tag < 0x1_0000 && f.ty < 0x100 && f.dataOffset < 0x1_0000 && f.sizeOffset < 0x80
    requires f.dataSize < 0x1_0000 && f.arraySize < 0x1_0000
    ensures Asserted(Eight, f)
    ensures Pack(Eight, f) ==
            [3 + 0x4 * (f.tag % 0x40) + 0x100 * f.ty,
             f.sizeOffset + 0x100 * (f.tag / 0x40), f.dataOffset, f.dataSize, f.arraySize, 0, 0, 0]
  {
    hide Asserted;
    FitsLong(f);
  }

  lemma FitsLong(f: Field)
    requires f.tag < 0x1_0000 && f.dataOffset < 0x1_0000 && f.sizeOffset < 0x80
    requires f.dataSize < 0x1_0000 && f.arraySize < 0x1_0000
    ensures Asserted(Four, f) && Asserted(Eight, f)
  {
  }

  // ---------------------------------------------------------------- load_descriptor_values

  // (pb_size_t)(x)
  function Size16(x: bv32): bv32 { x & 0xFFFF }

  function WidthCode(word: bv32): Width {
    var code := word & 3;
    if code == 0 then One else if code == 1 then Two else if code == 2 then Four else Eight
  }

  function Unpack1(w0: bv32): Field {
    Field((w0 >> 2) & 0x3F, (w0 >> 8) & 0xFF, (w0 >> 16) & 0xFF, (w0 >> 28) & 0x0F, (w0 >> 24) & 0x0F, 1)
  }

  function Unpack2(w0: bv32, w1: bv32): Field {
    Field(Size16(((w0 >> 2) & 0x3F) | ((w1 >> 28) << 6)), (w0 >> 8) & 0xFF,
          w1 & 0xFFFF, (w1 >> 16) & 0x0FFF, (w0 >> 28) & 0x0F, (w0 >> 16) & 0x0FFF)
  }

  function LongTag(w0: bv32, w1: bv32): bv32 { Size16(((w0 >> 2) & 0x3F) | ((w1 >> 8) << 6)) }

  function Unpack4(w0: bv32, w1: bv32, w2: bv32, w3: bv32): Field {
    Field(LongTag(w0, w1), (w0 >> 8) & 0xFF, w2, Size16(w3), SignExtend8(w1 & 0xFF), Size16(w0 >> 16))
  }

  function Unpack8(w0: bv32, w1: bv32, w2: bv32, w3: bv32, w4: bv32): Field {
    Field(LongTag(w0, w1), (w0 >> 8) & 0xFF, w2, Size16(w3), SignExtend8(w1 & 0xFF), Size16(w4))
  }

  // The descriptor that starts at word `at`.
  function Unpack(info: seq<bv32>, at: nat): Field
    requires at < |info| && at + Words(WidthCode(info[at])) <= |info|
  {
    match WidthCode(info[at])
    case One => Unpack1(info[at])
    case Two => Unpack2(info[at], info[at + 1])
    case Four => Unpack4(info[at], info[at + 1], info[at + 2], info[at + 3])
    case Eight => Unpack8(info[at], info[at + 1], info[at + 2], info[at + 3], info[at + 4])
  }

  // ---------------------------------------------------------------- round trips

  // What unpacking gives back for a field that passed its assertion.
  function Stored(w: Width, f: Field): Field {
    match w
    case One => f.(arraySize := 1)
    case Two => f
    case _ => f.(sizeOffset := f.sizeOffset & 0x7F)
  }

  datatype Descriptor = Descriptor(width: Width, field: Field)

  // The words from `at` on are read as this descriptor.
  predicate Reads(info: seq<bv32>, at: nat, d: Descriptor) {
    && at + Words(d.width) <= |info|
    && WidthCode(info[at]) == d.width
    && Unpack(info, at) == Stored(d.width, d.field)
  }

  lemma Back1(f: Field)
    requires Asserted(One, f) && IsType(f.ty)
    ensures Reads(Pack1(f), 0, Descriptor(One, f))
  {
  }

  lemma Back2(f: Field)
    requires Asserted(Two, f) && IsType(f.ty)
    ensures Reads(Pack2(f), 0, Descriptor(Two, f))
  {
  }

  lemma Back4(f: Field)
    requires Asserted(Four, f) && IsType(f.ty)
    ensures Reads(Pack4(f), 0, Descriptor(Four, f))
  {
  }

  lemma Back8(f: Field)
    requires Asserted(Eight, f) && IsType(f.ty)
    ensures Reads(Pack8(f), 0, Descriptor(Eight, f))
  {
  }

  predicate PackedIn(info: seq<bv32>, at: nat, d: Descriptor) {
    && at + Words(d.width) <= |info|
    && forall j :: 0 <= j < Words(d.width) ==> info[at + j] == Pack(d.width, d.field)[j]
  }

  // A packed descriptor found anywhere in an array of words unpacks to what was stored.
  lemma UnpackAt(info: seq<bv32>, at: nat, d: Descriptor)
    requires Asserted(d.width, d.field) && IsType(d.field.ty)
    requires PackedIn(info, at, d)
    ensures Reads(info, at, d)
  {
    var ws := info[at..at + Words(d.width)];
    assert ws == Pack(d.width, d.field);
    assert info[at] == ws[0];
    UnpackPacked(d);
    UnpackSlice(info, at, d.width);
  }

  // Unpacking looks at the descriptor's own words only.
  lemma UnpackSlice(info: seq<bv32>, at: nat, w: Width)
    requires at + Words(w) <= |info| && WidthCode(info[at]) == w
    ensures WidthCode(info[at..at + Words(w)][0]) == w
    ensures Unpack(info, at) == Unpack(info[at..at + Words(w)], 0)
  {
  }

  lemma UnpackPacked(d: Descriptor)
    requires Asserted(d.width, d.field) && IsType(d.field.ty)
    ensures Reads(Pack(d.width, d.field), 0, d)
  {
    match d.width
    case One => Back1(d.field);
    case Two => Back2(d.field);
    case Four => Back4(d.field);
    case Eight => Back8(d.field);
  }

  lemma StoredOne(f: Field)
    ensures Stored(One, f) == f <==> f.arraySize == 1
  {
  }

  lemma StoredWide(w: Width, f: Field)
    requires w.Four? || w.Eight?
    ensures Stored(w, f) == f <==> f.sizeOffset < 0x80
  {
    LowBits(f.sizeOffset);
  }

  lemma StoredTwo(f: Field)
    ensures Stored(Two, f) == f
  {
  }

  lemma StoredExactly(w: Width, f: Field)
    ensures Stored(w, f) == f <==>
            && (w.One? ==> f.arraySize == 1)
            && (w.Four? || w.Eight? ==> f.sizeOffset < 0x80)
  {
    hide Stored;
    match w
    case One => StoredOne(f);
    case Two => StoredTwo(f);
    case _ => StoredWide(w, f);
  }

  lemma LowBits(x: bv32)
    ensures x & 0x7F == x <==> x < 0x80
  {
  }

  // The assertions are not quite enough: a field that passes comes back unchanged exactly when its array size is one
  // (one-word format) or its size offset is at most 127 (four and eight words).
  lemma RoundTripExactly(w: Width, f: Field)
    requires Asserted(w, f) && IsType(f.ty)
    ensures WidthCode(Pack(w, f)[0]) == w
    ensures Unpack(Pack(w, f), 0) == f <==>
            && (w.One? ==> f.arraySize == 1)
            && (w.Four? || w.Eight? ==> f.sizeOffset < 0x80)
  {
    StoredExactly(w, f);
    UnpackPacked(Descriptor(w, f));
  }

  // ---------------------------------------------------------------- descriptor arrays

  predicate PackableAt(fs: seq<Descriptor>, k: nat)
    requires k < |fs|
  {
    Asserted(fs[k].width, fs[k].field) && IsType(fs[k].field.ty)
  }

  predicate Packable(fs: seq<Descriptor>) {
    forall k :: 0 <= k < |fs| ==> PackableAt(fs, k)
  }

  // field_info: the descriptors one after the other, whatever their widths.
  function Table(fs: seq<Descriptor>): seq<bv32> {
    if fs == [] then []
    else
      var d := fs[|fs| - 1];
      Table(fs[..|fs| - 1]) + Pack(d.width, d.field)
  }

  // Where the k-th descriptor starts.
  function Start(fs: seq<Descriptor>, k: nat): nat
    requires k <= |fs|
  {
    if k == 0 then 0 else Start(fs, k - 1) + Words(fs[k - 1].width)
  }

  lemma {:induction false} StartPrefix(fs: seq<Descriptor>, n: nat, k: nat)
    requires k <= n <= |fs|
    ensures Start(fs[..n], k) == Start(fs, k)
  {
    if k > 0 {
      StartPrefix(fs, n, k - 1);
    }
  }

  lemma {:induction false} TableLength(fs: seq<Descriptor>)
    ensures |Table(fs)| == Start(fs, |fs|)
  {
    hide Pack, Words;
    if fs != [] {
      TableLength(fs[..|fs| - 1]);
      StartPrefix(fs, |fs| - 1, |fs| - 1);
    }
  }

  lemma {:induction false} TableWords(fs: seq<Descriptor>, k: nat, j: nat)
    requires k < |fs| && j < Words(fs[k].width)
    ensures Start(fs, k) + j < |Table(fs)| && Table(fs)[Start(fs, k) + j] == Pack(fs[k].width, fs[k].field)[j]
  {
    hide Pack, Words;
    var n := |fs| - 1;
    TableLength(fs[..n]);
    StartPrefix(fs, n, k);
    if k < n {
      TableWords(fs[..n], k, j);
    }
  }

  lemma {:induction false} StartMonotone(fs: seq<Descriptor>, k: nat, m: nat)
    requires k <= m <= |fs|
    ensures Start(fs, k) + (m - k) <= Start(fs, m)
  {
    if k < m {
      StartMonotone(fs, k, m - 1);
    }
  }

  lemma PackedAt(fs: seq<Descriptor>, k: nat)
    requires k < |fs|
    ensures PackedIn(Table(fs), Start(fs, k), fs[k])
  {
    hide Table, Start, Pack1, Pack2, Pack4, Pack8;
    var n := Words(fs[k].width);
    forall j | 0 <= j < n
      ensures Start(fs, k) + j < |Table(fs)|
      ensures Table(fs)[Start(fs, k) + j] == Pack(fs[k].width, fs[k].field)[j]
    {
      TableWords(fs, k, j);
    }
    TableWords(fs, k, n - 1);
  }

  // Walking the words from descriptor to descriptor finds the fields of the original list, in order.
  lemma Enumerates(fs: seq<Descriptor>, k: nat)
    requires Packable(fs) && k < |fs|
    ensures Reads(Table(fs), Start(fs, k), fs[k])
  {
    assert PackableAt(fs, k);
    PackedAt(fs, k);
    UnpackAt(Table(fs), Start(fs, k), fs[k]);
  }
}
