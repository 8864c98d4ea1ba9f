/** nanopb's field iterator: stepping through a descriptor array of mixed widths, and the cyclic search by tag. */
module FieldIter {
  import opened FieldInfo

  const SIZE_LIMIT: nat := 0x1_0000  // pb_size_t has 16 bits

  const LTYPE_EXTENSION: bv32 := 0x0A

  predicate IsRequired(ty: bv32) { ty & 0x30 == 0x00 }

  predicate IsSubmessage(ty: bv32) { ty & 0x0F == 0x08 || ty & 0x0F == 0x09 }

  predicate IsExtension(ty: bv32) { ty & 0x0F == LTYPE_EXTENSION }

  predicate IsFixedCount(ty: bv32) { ty & 0x30 == 0x20 && (ty & 0xC0 == 0x00 || ty & 0xC0 == 0x80) }

  // ---------------------------------------------------------------- positions in a field list

  function RequiredBefore(fs: seq<Descriptor>, k: nat): nat
    requires k <= |fs|
  {
    if k == 0 then 0 else RequiredBefore(fs, k - 1) + if IsRequired(fs[k - 1].field.ty) then 1 else 0
  }

  function SubmessagesBefore(fs: seq<Descriptor>, k: nat): (n: nat)
    requires k <= |fs|
    ensures n <= k
  {
    if k == 0 then 0 else SubmessagesBefore(fs, k - 1) + if IsSubmessage(fs[k - 1].field.ty) then 1 else 0
  }

  lemma {:induction false} SubmessageBound(fs: seq<Descriptor>, k: nat, m: nat)
    requires k <= m <= |fs|
    ensures SubmessagesBefore(fs, k) <= SubmessagesBefore(fs, m)
  {
    if k < m {
      SubmessageBound(fs, k, m - 1);
    }
  }

  lemma {:induction false} RequiredBound(fs: seq<Descriptor>, k: nat)
    requires k <= |fs|
    ensures RequiredBefore(fs, k) <= k
  {
    if k > 0 {
      RequiredBound(fs, k - 1);
    }
  }

  // Fields are in tag number order.
  ghost predicate Sorted(fs: seq<Descriptor>) {
    forall j, k :: 0 <= j < k < |fs| ==> InOrder(fs, j, k)
  }

  ghost predicate InOrder(fs: seq<Descriptor>, j: nat, k: nat)
    requires j < |fs| && k < |fs|
  {
    fs[j].field.tag < fs[k].field.tag
  }

  // The first word alone gives the width, the type and the low bits of the tag.
  lemma FirstWordFacts(info: seq<bv32>, at: nat, d: Descriptor)
    requires Reads(info, at, d)
    ensures (info[at] >> 8) & 0xFF == d.field.ty
    ensures (info[at] >> 2) & 0x3F == d.field.tag & 0x3F
  {
    match d.width
    case One => LowTag1(info[at]);
    case Two => LowTag2(info[at], info[at + 1]);
    case Four => LowTag4(info[at], info[at + 1]);
    case Eight => LowTag4(info[at], info[at + 1]);
  }

  lemma LowTag1(w0: bv32)
    ensures Unpack1(w0).tag & 0x3F == (w0 >> 2) & 0x3F
  {
  }

  lemma LowTag2(w0: bv32, w1: bv32)
    ensures Unpack2(w0, w1).tag & 0x3F == (w0 >> 2) & 0x3F
  {
  }

  lemma LowTag4(w0: bv32, w1: bv32)
    ensures LongTag(w0, w1) & 0x3F == (w0 >> 2) & 0x3F
  {
  }

  // ---------------------------------------------------------------- the iterator

  // Where the field's count or presence flag lives.
  datatype SizeRef = NoSize | AtAddress(address: bv32) | OwnArraySize

  // So many bytes behind, or before, an address.
  function Behind(address: bv32, bytes: bv32): bv32 { address + bytes }

  function Before(address: bv32, bytes: bv32): bv32 { address - bytes }

  lemma AddressSums(address: bv32, bytes: bv32)
    ensures Behind(address, bytes) == address + bytes && Before(address, bytes) == address - bytes
  {
  }

  function SizeOf(f: Field, pField: bv32): SizeRef {
    if f.sizeOffset != 0 then AtAddress(Before(pField, f.sizeOffset))
    else if IsFixedCount(f.ty) then OwnArraySize
    else NoSize
  }

  // (pb_size_t)(x)
  function PbSize(x: nat): (y: nat)
    ensures x < SIZE_LIMIT ==> y == x
  {
    x % SIZE_LIMIT
  }

  // What load_descriptor_values fills in.
  datatype Values = Values(field: Field, pField: bv32, pSize: SizeRef, submsg: int)

  function ValuesOf(f: Field, message: bv32, submsg: int): Values {
    var pField := if message == 0 then 0 else Behind(message, f.dataOffset);
    Values(f, pField, if message == 0 then NoSize else SizeOf(f, pField), submsg)
  }

  // The submessage descriptor of field k, -1 when it is not a submessage.
  ghost function SubmessageOf(fs: seq<Descriptor>, submsgInfo: seq<nat>, k: nat): int
    requires k < |fs|
  {
    var n := SubmessagesBefore(fs, k);
    if IsSubmessage(fs[k].field.ty) && n < |submsgInfo| then submsgInfo[n] else -1
  }

  // A field type is the sum of its data type, its repetition rule and its allocation kind.
  predicate Sums(ty: bv32, data: bv32, rule: bv32, kind: bv32) {
    && ty == data + rule + kind
    && data < 0x10 && rule in {0x00, 0x10, 0x20, 0x30} && kind in {0x00, 0x40, 0x80}
  }

  lemma TypeBits(ty: bv32, data: bv32, rule: bv32, kind: bv32)
    requires Sums(ty, data, rule, kind)
    ensures IsRequired(ty) <==> rule == 0x00
    ensures IsSubmessage(ty) <==> data == 0x08 || data == 0x09
    ensures IsExtension(ty) <==> data == 0x0A
    ensures IsFixedCount(ty) <==> rule == 0x20 && kind != 0x40
  {
  }

  // Where the loaded values of a described field point, in a structure at the given address: at the field, and so many
  // bytes before it at its count or flag. A repeated field with neither has the fixed count of its descriptor, unless
  // it is decoded by a callback. In a null structure nothing is pointed at.
  lemma Located(d: Descriptor, data: bv32, rule: bv32, kind: bv32, message: bv32, submsg: int)
    requires d.field.sizeOffset < 0x80 && Sums(d.field.ty, data, rule, kind)
    ensures var f, v := d.field, ValuesOf(Stored(d.width, d.field), message, submsg);
            && v.pField == (if message == 0 then 0 else Behind(message, f.dataOffset))
            && (v.pSize.AtAddress? <==> message != 0 && f.sizeOffset != 0)
            && (v.pSize.AtAddress? ==> v.pSize.address == Before(Behind(message, f.dataOffset), f.sizeOffset))
            && (v.pSize.OwnArraySize? <==> message != 0 && f.sizeOffset == 0 && rule == 0x20 && kind != 0x40)
            && (v.pSize.OwnArraySize? ==> v.field.arraySize == if d.width == One then 1 else f.arraySize)
            && v.submsg == submsg
  {
    hide Stored, IsFixedCount, Sums, ValuesOf, Before, Behind;
    StoredKeeps(d);
    TypeBits(d.field.ty, data, rule, kind);
    LoadedAt(Stored(d.width, d.field), message, submsg);
  }

  lemma LoadedAt(f: Field, message: bv32, submsg: int)
    ensures var v := ValuesOf(f, message, submsg);
            && v.field == f && v.submsg == submsg
            && v.pField == (if message == 0 then 0 else Behind(message, f.dataOffset))
            && v.pSize ==
               if message == 0 then NoSize
               else if f.sizeOffset != 0 then AtAddress(Before(Behind(message, f.dataOffset), f.sizeOffset))
               else if IsFixedCount(f.ty) then OwnArraySize else NoSize
  {
    hide IsFixedCount, Before, Behind;
  }

  lemma StoredKeeps(d: Descriptor)
    requires d.field.sizeOffset < 0x80
    ensures var f, s := d.field, Stored(d.width, d.field);
            && s.ty == f.ty && s.dataOffset == f.dataOffset && s.sizeOffset == f.sizeOffset
            && s.arraySize == if d.width == One then 1 else f.arraySize
  {
  }

  // Reads the descriptor of field k.
  method ReadDescriptor(info: seq<bv32>, at: nat, ghost fs: seq<Descriptor>, ghost k: nat) returns (f: Field)
    requires Packable(fs) && k < |fs| && info == Table(fs) && at == Start(fs, k)
    ensures f == Stored(fs[k].width, fs[k].field) && f.ty == fs[k].field.ty
  {
    Enumerates(fs, k);
    f := Unpack(info, at);
  }

  // Reads what the first word of field k says: the descriptor's length, its type, the low bits of its tag.
  method ReadFirstWord(info: seq<bv32>, at: nat, ghost fs: seq<Descriptor>, ghost k: nat)
    returns (words: nat, ty: bv32, lowTag: bv32)
    requires Packable(fs) && k < |fs| && info == Table(fs) && at == Start(fs, k)
    ensures words == Words(fs[k].width) && ty == fs[k].field.ty && lowTag == fs[k].field.tag & 0x3F
  {
    Enumerates(fs, k);
    FirstWordFacts(info, at, fs[k]);
    var word := info[at];
    words, ty, lowTag := Words(WidthCode(word)), (word >> 8) & 0xFF, (word >> 2) & 0x3F;
  }

  class Iterator {
    const info: seq<bv32>        // descriptor->field_info
    const submsgInfo: seq<nat>   // descriptor->submsg_info, descriptors named by number
    const fieldCount: nat
    const largestTag: bv32
    var message: bv32            // address of the structure, 0 for a null pointer
    var index: nat
    var infoIndex: nat
    var requiredIndex: nat
    var submsgIndex: nat
    var values: Values

    // The descriptor describes the fields fs, as the generator emits it.
    ghost predicate Describes(fs: seq<Descriptor>) {
      && info == Table(fs) && (fs != [] ==> Start(fs, |fs| - 1) < SIZE_LIMIT)
      && fieldCount == |fs| && |fs| < SIZE_LIMIT - 1
      && Packable(fs) && Sorted(fs)
      && largestTag == (if |fs| == 0 then 0 else fs[|fs| - 1].field.tag)
      && |submsgInfo| == SubmessagesBefore(fs, |fs|)
    }

    // The indexes stand at field k.
    ghost predicate Indexed(fs: seq<Descriptor>, k: nat)
      reads this
    {
      && k < |fs|
      && index == k
      && infoIndex == Start(fs, k)
      && requiredIndex == RequiredBefore(fs, k)
      && submsgIndex == SubmessagesBefore(fs, k)
    }

    // ... and the values of field k are loaded.
    ghost predicate At(fs: seq<Descriptor>, k: nat)
      reads this
    {
      && Indexed(fs, k)
      && values == ValuesOf(Stored(fs[k].width, fs[k].field), message, SubmessageOf(fs, submsgInfo, k))
    }

    constructor (info: seq<bv32>, submsgInfo: seq<nat>, fieldCount: nat, largestTag: bv32)
      ensures this.info == info && this.submsgInfo == submsgInfo
      ensures this.fieldCount == fieldCount && this.largestTag == largestTag
    {
      this.info, this.submsgInfo, this.fieldCount, this.largestTag := info, submsgInfo, fieldCount, largestTag;
      message, index, infoIndex, requiredIndex, submsgIndex := 0, 0, 0, 0, 0;
      values := Values(Field(0, 0, 0, 0, 0, 0), 0, NoSize, -1);
    }

    method FindSubmessage(ty: bv32, ghost fs: seq<Descriptor>) returns (submsg: int)
      requires index < |fs| && submsgIndex == SubmessagesBefore(fs, index) && ty == fs[index].field.ty
      requires |submsgInfo| == SubmessagesBefore(fs, |fs|)
      ensures submsg == SubmessageOf(fs, submsgInfo, index)
    {
      SubmessageBound(fs, index + 1, |fs|);
      submsg := -1;
      if IsSubmessage(ty) {
        submsg := submsgInfo[submsgIndex];
      }
    }

    // load_descriptor_values.
    method Load(ghost fs: seq<Descriptor>) returns (ok: bool)
      requires Describes(fs) && (index < fieldCount ==> Indexed(fs, index))
      modifies `values
      ensures ok <==> index < fieldCount
      ensures ok ==> At(fs, index)
    {
      if index >= fieldCount {
        return false;
      }
      var f := ReadDescriptor(info, infoIndex, fs, index);
      var submsg := FindSubmessage(f.ty, fs);
      values := ValuesOf(f, message, submsg);
      ok := true;
    }

    method StepIndexes(ghost fs: seq<Descriptor>)
      requires Describes(fs) && 0 < index < |fs|
      requires infoIndex == Start(fs, index - 1)
      requires requiredIndex == RequiredBefore(fs, index - 1) && submsgIndex == SubmessagesBefore(fs, index - 1)
      modifies `infoIndex, `requiredIndex, `submsgIndex
      ensures Indexed(fs, index)
    {
      IndexBounds(fs);
      assert IndexesFit(fs, index);
      var words, ty, _ := ReadFirstWord(info, infoIndex, fs, index - 1);
      infoIndex := PbSize(infoIndex + words);
      requiredIndex := PbSize(requiredIndex + if IsRequired(ty) then 1 else 0);
      submsgIndex := PbSize(submsgIndex + if IsSubmessage(ty) then 1 else 0);
    }

    // advance_iterator: to the next field, or around to the first one.
    method Advance(ghost fs: seq<Descriptor>)
      requires Describes(fs) && |fs| > 0
      requires index == fieldCount || Indexed(fs, index)
      modifies `index, `infoIndex, `requiredIndex, `submsgIndex
      ensures Indexed(fs, if old(index) + 1 < |fs| then old(index) + 1 else 0)
    {
      index := PbSize(index + 1);
      if index >= fieldCount {
        index, infoIndex, submsgIndex, requiredIndex := 0, 0, 0, 0;
      } else {
        StepIndexes(fs);
      }
    }

    method Begin(message: bv32, ghost fs: seq<Descriptor>) returns (ok: bool)
      requires Describes(fs)
      modifies this
      ensures ok <==> |fs| > 0
      ensures ok ==> At(fs, 0) && this.message == message
    {
      index, infoIndex, requiredIndex, submsgIndex := 0, 0, 0, 0;
      this.message := message;
      ok := Load(fs);
    }

    // False when the step went around to the first field.
    method Next(ghost fs: seq<Descriptor>) returns (more: bool)
      requires Describes(fs) && At(fs, index)
      modifies this
      ensures message == old(message)
      ensures At(fs, if old(index) + 1 < |fs| then old(index) + 1 else 0)
      ensures more <==> old(index) + 1 < |fs|
    {
      Advance(fs);
      var _ := Load(fs);
      more := index != 0;
    }

    // pb_field_iter_find, from any field: true exactly when the tag is there (or is the tag of the field the iterator
    // stands on; extension fields are otherwise not found). It ends on that field, or where it started.
    method Find(tag: bv32, ghost fs: seq<Descriptor>) returns (found: bool)
      requires Describes(fs) && At(fs, index)
      modifies `index, `infoIndex, `requiredIndex, `submsgIndex, `values
      ensures At(fs, index)
      ensures found ==> Hit(fs, old(index), tag, index)
      ensures !found ==> index == old(index) && NoHit(fs, index, tag)
    {
      var here := CurrentTag(fs);
      if here == tag {
        return true;
      }
      if tag > largestTag {
        NoneBeyond(fs, index, tag);
        return false;
      }
      found := Search(tag, fs);
    }

    method CurrentTag(ghost fs: seq<Descriptor>) returns (tag: bv32)
      requires At(fs, index)
      ensures tag == fs[index].field.tag
    {
      StoredTag(fs, index);
      tag := values.field.tag;
    }

    // Looks at the field the indexes stand on: a fast check on the first word, then the full one.
    method Candidate(tag: bv32, ghost fs: seq<Descriptor>) returns (hit: bool)
      requires Describes(fs) && Indexed(fs, index)
      modifies `values
      ensures hit <==> fs[index].field.tag == tag && !IsExtension(fs[index].field.ty)
      ensures hit ==> At(fs, index)
    {
      var _, _, lowTag := ReadFirstWord(info, infoIndex, fs, index);
      hit := false;
      if lowTag == tag & 0x3F {
        var _ := Load(fs);
        StoredTag(fs, index);
        hit := values.field.tag == tag && !IsExtension(values.field.ty);
      }
    }

    // One turn of the search loop.
    method SearchStep(tag: bv32, ghost fs: seq<Descriptor>, ghost start: nat, ghost from: int) returns (found: bool)
      requires Describes(fs) && start < |fs| && -1 <= from < |fs|
      requires index == (if from == -1 then fieldCount else from) && (from >= 0 ==> Indexed(fs, index))
      requires Missed(fs, start, tag, from)
      modifies `index, `infoIndex, `requiredIndex, `submsgIndex, `values
      ensures index == Following(|fs|, from) && Indexed(fs, index)
      ensures found ==> At(fs, index) && Hit(fs, start, tag, index)
      ensures !found && index == start && fs[start].field.tag != tag ==> NoHit(fs, start, tag)
      ensures !found && index != start ==> Missed(fs, start, tag, index)
    {
      Advance(fs);
      found := Candidate(tag, fs);
      if !found && (index != start || fs[start].field.tag != tag) {
        MissedNext(fs, start, tag, from);
      }
    }

    // The search loop, from `from` around to the start.
    method SearchLoop(tag: bv32, ghost fs: seq<Descriptor>, start: nat, ghost first: int) returns (found: bool)
      requires Describes(fs) && start < |fs| && -1 <= first < |fs| && fs[start].field.tag != tag
      requires index == (if first == -1 then fieldCount else first) && (first >= 0 ==> Indexed(fs, index))
      requires Missed(fs, start, tag, first)
      modifies `index, `infoIndex, `requiredIndex, `submsgIndex, `values
      ensures found ==> At(fs, index) && Hit(fs, start, tag, index)
      ensures !found ==> index == start && Indexed(fs, index) && NoHit(fs, start, tag)
    {
      ghost var from := first;
      while true
        invariant -1 <= from < |fs|
        invariant index == (if from == -1 then fieldCount else from) && (from >= 0 ==> Indexed(fs, index))
        invariant Missed(fs, start, tag, from)
        decreases Left(|fs|, start, from)
      {
        found := SearchStep(tag, fs, start, from);
        if found || index == start {
          return;
        }
        from := index;
      }
    }

    // ... ending with the values of the field it stopped at.
    method SearchAndLoad(tag: bv32, ghost fs: seq<Descriptor>, start: nat, ghost first: int) returns (found: bool)
      requires Describes(fs) && start < |fs| && -1 <= first < |fs| && fs[start].field.tag != tag
      requires index == (if first == -1 then fieldCount else first) && (first >= 0 ==> Indexed(fs, index))
      requires Missed(fs, start, tag, first)
      modifies `index, `infoIndex, `requiredIndex, `submsgIndex, `values
      ensures At(fs, index)
      ensures found ==> Hit(fs, start, tag, index)
      ensures !found ==> index == start && NoHit(fs, start, tag)
    {
      found := SearchLoop(tag, fs, start, first);
      if !found {
        var _ := Load(fs);
      }
    }

    // The search proper: once around, from the field after the start, or from the first field when the tag is smaller.
    method Search(tag: bv32, ghost fs: seq<Descriptor>) returns (found: bool)
      requires Describes(fs) && At(fs, index) && fs[index].field.tag != tag
      modifies `index, `infoIndex, `requiredIndex, `submsgIndex, `values
      ensures At(fs, index)
      ensures found ==> Hit(fs, old(index), tag, index)
      ensures !found ==> index == old(index) && NoHit(fs, index, tag)
    {
      var start := index;
      ghost var first := Place(tag, fs);
      found := SearchAndLoad(tag, fs, start, first);
    }

    // Where to search from: after the present field, or from the first one, which is where a smaller tag must be.
    method Place(tag: bv32, ghost fs: seq<Descriptor>) returns (ghost first: int)
      requires Describes(fs) && At(fs, index)
      modifies `index
      ensures -1 <= first < |fs| && Missed(fs, old(index), tag, first)
      ensures index == (if first == -1 then fieldCount else first) && (first >= 0 ==> Indexed(fs, index))
    {
      first := index;
      var here := CurrentTag(fs);
      if tag < here {
        MissedAfter(fs, index, tag);
        first := -1;
        index := fieldCount;
      }
    }
  }

  ghost predicate Hit(fs: seq<Descriptor>, start: nat, tag: bv32, k: nat) {
    k < |fs| && fs[k].field.tag == tag && (k == start || !IsExtension(fs[k].field.ty))
  }

  ghost predicate NoHit(fs: seq<Descriptor>, start: nat, tag: bv32) {
    forall k :: !Hit(fs, start, tag, k)
  }

  // The fields looked at on the way from `start` around to `from`.
  predicate Visited(start: nat, from: int, k: nat) {
    if from < start then k > start || k <= from else start < k <= from
  }

  ghost predicate Missed(fs: seq<Descriptor>, start: nat, tag: bv32, from: int) {
    forall k: nat :: k < |fs| && Visited(start, from, k) ==> !Hit(fs, start, tag, k)
  }

  function Left(n: nat, start: nat, from: int): int {
    if from < start then start - from else n - from + start + 1
  }

  function Following(n: nat, from: int): int { if from + 1 < n then from + 1 else 0 }

  // Nothing with a smaller tag can come after the start.
  lemma MissedAfter(fs: seq<Descriptor>, start: nat, tag: bv32)
    requires start < |fs| && Sorted(fs) && tag < fs[start].field.tag
    ensures Missed(fs, start, tag, -1)
  {
    forall k: nat | k < |fs| && Visited(start, -1, k)
      ensures !Hit(fs, start, tag, k)
    {
      assert InOrder(fs, start, k);
    }
  }

  lemma MissedNext(fs: seq<Descriptor>, start: nat, tag: bv32, from: int)
    requires start < |fs| && -1 <= from < |fs| && Missed(fs, start, tag, from)
    requires var next := Following(|fs|, from);
             !Hit(fs, start, tag, next)
    ensures var next := Following(|fs|, from);
            if next == start then NoHit(fs, start, tag) else Missed(fs, start, tag, next)
  {
    var next := Following(|fs|, from);
    forall k: nat | k < |fs| && (next == start || Visited(start, next, k))
      ensures !Hit(fs, start, tag, k)
    {
      assert k == next || Visited(start, from, k);
    }
  }

  lemma NoneBeyond(fs: seq<Descriptor>, start: nat, tag: bv32)
    requires |fs| > 0 && Sorted(fs) && tag > fs[|fs| - 1].field.tag
    ensures NoHit(fs, start, tag)
  {
    forall k: nat
      ensures !Hit(fs, start, tag, k)
    {
      if k < |fs| {
        BeyondTag(fs, k, tag);
      }
    }
  }

  lemma BeyondTag(fs: seq<Descriptor>, k: nat, tag: bv32)
    requires Sorted(fs) && k < |fs| && tag > fs[|fs| - 1].field.tag
    ensures fs[k].field.tag != tag
  {
    if k < |fs| - 1 {
      assert InOrder(fs, k, |fs| - 1);
    }
  }

  lemma StoredTag(fs: seq<Descriptor>, k: nat)
    requires k < |fs|
    ensures var f := Stored(fs[k].width, fs[k].field);
            f.tag == fs[k].field.tag && f.ty == fs[k].field.ty
  {
  }

  // None of the three indexes wraps around at any field, exactly when the last descriptor starts within 16 bits.
  lemma IndexBounds(fs: seq<Descriptor>)
    requires 0 < |fs| < SIZE_LIMIT
    ensures (forall k :: 0 <= k < |fs| ==> IndexesFit(fs, k)) <==> Start(fs, |fs| - 1) < SIZE_LIMIT
  {
    if Start(fs, |fs| - 1) < SIZE_LIMIT {
      forall k | 0 <= k < |fs|
        ensures IndexesFit(fs, k)
      {
        StartMonotone(fs, k, |fs| - 1);
        RequiredBound(fs, k);
      }
    } else {
      assert !IndexesFit(fs, |fs| - 1);
    }
  }

  predicate IndexesFit(fs: seq<Descriptor>, k: nat)
    requires k < |fs|
  {
    Start(fs, k) < SIZE_LIMIT && RequiredBefore(fs, k) < SIZE_LIMIT && SubmessagesBefore(fs, k) < SIZE_LIMIT
  }
}
