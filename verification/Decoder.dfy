/** The decoder as it runs: streams are consumed, the destination struct is filled in place. */
module Decoder {
  import opened Bits
  import opened Varint
  import opened Schema
  import opened Wrappers
  import opened DecodeSpec
  import opened DecodeSteps
  import opened Input
  import opened FieldIterator
  import opened Allocation
  import opened FieldsSeen

  // ----- Numbers, bytes and strings -----

  /** Assignment to a signed struct member of `size` bytes. */
  function CastSigned(size: nat, v: int): int
  {
    if size == 8 then ToInt64(v)
    else if size == 4 then ToInt32(v)
    else if size == 2 then (if v % 0x1_0000 < 0x8000 then v % 0x1_0000 else v % 0x1_0000 - 0x1_0000)
    else (if v % 0x100 < 0x80 then v % 0x100 else v % 0x100 - 0x100)
  }

  function CastUnsigned(size: nat, v: int): int
  {
    if size == 8 then v % TWO_64
    else if size == 4 then v % TWO_32
    else if size == 2 then v % 0x1_0000
    else v % 0x100
  }

  lemma CastKeeps(size: nat, v: int)
    requires IntegerSize(size)
    ensures CastSigned(size, v) == v <==> -Half(size) <= v < Half(size)
    ensures CastUnsigned(size, v) == v <==> 0 <= v < 2 * Half(size)
  {
  }

  /** The integer a varint stands for, computed as the field decoders do. */
  method ReadAs(f: Field, value: nat) returns (svalue: int)
    requires f.lt in {VARINT, UVARINT, SVARINT} && value < TWO_64
    ensures svalue == Integer(f, value)
  {
    if f.lt == UVARINT {
      svalue := value;
    } else if f.lt == SVARINT {
      // pb_decode_svarint: complement of the half for odd values.
      svalue := if value % 2 == 1 then ToInt64(TWO_64 - 1 - value / 2) else ToInt64(value / 2);
    } else {
      svalue := if f.dataSize == 8 then ToInt64(value) else ToInt32(value);
    }
  }

  /** pb_dec_varint, pb_dec_uvarint and pb_dec_svarint: store, read back, compare. */
  method DecodeNumber(stream: IStream, f: Field) returns (ok: bool, v: Value)
    requires stream.Valid() && f.lt in {VARINT, UVARINT, SVARINT}
    modifies stream
    ensures Delivers(old(stream.Now()), stream.Now(), DecNumber(f, old(stream.Rest())), ok, v)
  {
    hide DecVarint64, CastSigned, CastUnsigned, Integer;
    var value;
    v := Null;
    ok, value := DecodeVarint(stream);
    if !ok {
      return;
    }
    var svalue := ReadAs(f, value);
    if !IntegerSize(f.dataSize) {
      return false, v;
    }
    var clamped := if f.lt == UVARINT then CastUnsigned(f.dataSize, svalue) else CastSigned(f.dataSize, svalue);
    CastKeeps(f.dataSize, svalue);
    if clamped != svalue {
      return false, v;
    }
    v := Num(clamped);
  }

  function Word(b0: int, b1: int, b2: int, b3: int): int
  {
    b0 + 0x100 * b1 + 0x1_0000 * b2 + 0x100_0000 * b3
  }

  lemma LittleFour(s: Bytes)
    requires |s| == 4
    ensures Little(s) == Word(s[0], s[1], s[2], s[3])
  {
    LittleTail(s, 0); LittleTail(s, 1); LittleTail(s, 2); LittleTail(s, 3);
    assert s[0..] == s && s[4..] == [];
  }

  lemma LittleEight(s: Bytes)
    requires |s| == 8
    ensures Little(s) == Little(s[..4]) + TWO_32 * Little(s[4..])
  {
    LittleTail(s, 0); LittleTail(s, 1); LittleTail(s, 2); LittleTail(s, 3);
    assert s[0..] == s;
    LittleFour(s[..4]);
    assert s[..4][0] == s[0] && s[..4][1] == s[1] && s[..4][2] == s[2] && s[..4][3] == s[3];
  }

  lemma LittleTail(s: Bytes, i: nat)
    requires i < |s|
    ensures Little(s[i..]) == s[i] + 256 * Little(s[i + 1..])
  {
    assert s[i..][1..] == s[i + 1..];
  }

  /** pb_decode_fixed32. */
  method DecodeFixed32(stream: IStream) returns (ok: bool, v: Value)
    requires stream.Valid()
    modifies stream
    ensures Delivers(old(stream.Now()), stream.Now(), DecFixed(4, old(stream.Rest())), ok, v)
  {
    hide Little;
    var b;
    v := Null;
    ok, b := stream.Read(4);
    if ok {
      LittleFour(b);
      v := Num(Word(b[0], b[1], b[2], b[3]));
    }
  }

  /** pb_decode_fixed64. */
  method DecodeFixed64(stream: IStream) returns (ok: bool, v: Value)
    requires stream.Valid()
    modifies stream
    ensures Delivers(old(stream.Now()), stream.Now(), DecFixed(8, old(stream.Rest())), ok, v)
  {
    hide Little;
    var b;
    v := Null;
    ok, b := stream.Read(8);
    if ok {
      LittleEight(b);
      LittleFour(b[..4]);
      LittleFour(b[4..]);
      v := Num(Word(b[0], b[1], b[2], b[3]) + TWO_32 * Word(b[4], b[5], b[6], b[7]));
    }
  }

  /** The size checks of pb_dec_bytes, pb_dec_string and pb_dec_fixed_length_bytes. */
  method AcceptSize(f: Field, size: nat, bytesLeft: nat) returns (ok: bool)
    requires f.lt in {BYTES, STRING, FIXED_LENGTH_BYTES} && size < TWO_32
    ensures ok ==> Fits(f, size)
    ensures !ok ==> !Fits(f, size) || bytesLeft < size
  {
    if f.lt == FIXED_LENGTH_BYTES {
      return size == 0 || size == f.dataSize;
    }
    // The terminator of a string is added in 32-bit arithmetic.
    var allocSize := if f.lt == BYTES then size + BYTES_HEADER else (size + 1) % TWO_32;
    if allocSize < size {
      return false;
    }
    if f.at == PTR {
      if bytesLeft < size {
        return false;
      }
      ok := AllocateField(allocSize, 1);
    } else {
      ok := allocSize <= f.dataSize;
    }
  }

  /** pb_dec_bytes, pb_dec_string and pb_dec_fixed_length_bytes. */
  method DecodeBlob(stream: IStream, f: Field) returns (ok: bool, v: Value)
    requires stream.Valid() && f.lt in {BYTES, STRING, FIXED_LENGTH_BYTES} && 1 <= f.dataSize
    modifies stream
    ensures Delivers(old(stream.Now()), stream.Now(), DecBlob(f, old(stream.Rest())), ok, v)
  {
    hide DecVarint32, Fits;
    ghost var a := stream.Now();
    var size, data;
    v := Null;
    ok, size := DecodeVarint32(stream);
    if !ok {
      return;
    }
    ghost var n := DecVarint32(a.Rest()).n;
    TookRest(a, stream.Now(), n);
    ok := AcceptSize(f, size, stream.bytesLeft);
    if !ok {
      return;
    }
    if f.lt == FIXED_LENGTH_BYTES && size == 0 {
      v := Blob(Zeros(f.dataSize));
      return;
    }
    ok, data := stream.Read(size);
    assert ok ==> data == a.Rest()[n..][..size] == a.Rest()[n..n + size];
    v := Blob(data);
  }

  /** Calling through PB_DECODERS for anything but a submessage. */
  method DecodeBasic(stream: IStream, f: Field) returns (ok: bool, v: Value)
    requires stream.Valid() && f.lt != SUBMESSAGE && 1 <= f.dataSize
    modifies stream
    ensures Delivers(old(stream.Now()), stream.Now(), DecBasic(f, old(stream.Rest())), ok, v)
  {
    hide DecVarint32, DecNumber, DecBlob, DecFixed;
    v := Null;
    if f.lt == BOOL {
      var n;
      ok, n := DecodeVarint32(stream);
      v := Num(if n != 0 then 1 else 0);
    } else if f.lt == FIXED32 {
      ok, v := DecodeFixed32(stream);
    } else if f.lt == FIXED64 {
      ok, v := DecodeFixed64(stream);
    } else if Packable(f.lt) {
      ok, v := DecodeNumber(stream, f);
    } else {
      ok, v := DecodeBlob(stream, f);
    }
  }

  // ----- Packed arrays -----

  /** The packed branch of decode_static_field, on the substream that holds the payload. */
  method PackedStatic(sub: IStream, f: Field, room: nat) returns (ok: bool, vs: seq<Value>)
    requires sub.Valid() && Packable(f.lt) && 1 <= f.dataSize
    modifies sub
    ensures Within(old(sub.Now()), sub.Now())
    ensures match DecItems(f, old(sub.Rest()), room)
            case Some(ws) => ok && vs == ws && Took(old(sub.Now()), sub.Now(), old(sub.bytesLeft))
            case None => !ok
  {
    hide DecBasic, DecItems, Prepend;
    ghost var a := sub.Now();
    ghost var done: nat := 0;
    var status := true;
    vs := [];
    PrependEnds(f, a.Rest(), room, []);
    while sub.bytesLeft > 0 && |vs| < room
      invariant sub.Valid() && status && Took(a, sub.Now(), done) && |vs| <= room
      invariant DecItems(f, a.Rest(), room) == Prepend(vs, DecItems(f, sub.Rest(), room - |vs|))
      decreases sub.bytesLeft
    {
      ghost var b := sub.Now();
      PrependStep(f, b.Rest(), room - |vs|, vs);
      var v;
      status, v := DecodeBasic(sub, f);
      if !status {
        break;
      }
      TookRest(b, sub.Now(), DecBasic(f, b.Rest()).n);
      done := done + DecBasic(f, b.Rest()).n;
      vs := vs + [v];
    }
    if status {
      PrependEnds(f, sub.Rest(), room - |vs|, vs);
    }
    if sub.bytesLeft != 0 {
      return false, vs;
    }
    ok := status;
  }

  /** One item of a packed payload decoded into a dynamic array: grow, decode, count. */
  method PackedNext(sub: IStream, f: Field, was: array<Value>, size: nat) returns (ok: bool, block: array<Value>, v: Value)
    requires sub.Valid() && sub.bytesLeft > 0 && Packable(f.lt) && 1 <= f.dataSize <= PB_SIZE_MAX
    requires size <= was.Length <= PB_SIZE_MAX && size < PB_SIZE_MAX
    modifies sub, was
    ensures Delivers(old(sub.Now()), sub.Now(), DecBasic(f, old(sub.Rest())), ok, v)
    ensures size < block.Length <= PB_SIZE_MAX && (block == was || fresh(block))
    ensures ok ==> block[..size + 1] == old(was[..size]) + [v]
  {
    hide DecBasic, Delivers;
    ok, block := Grow(was, size, sub.bytesLeft, f.dataSize);
    ok, v := DecodeBasic(sub, f);
    if ok {
      block[size] := v;
    }
  }

  /** The packed branch of decode_pointer_field. The block grows by a guess of what is still to come;
      each item is written inside it, and its capacity stays within pb_size_t. */
  method PackedPointer(sub: IStream, f: Field, held: seq<Value>) returns (ok: bool, items: seq<Value>)
    requires sub.Valid() && Packable(f.lt) && 1 <= f.dataSize <= PB_SIZE_MAX && |held| <= PB_SIZE_MAX
    modifies sub
    ensures Within(old(sub.Now()), sub.Now())
    ensures match DecItems(f, old(sub.Rest()), PB_SIZE_MAX - |held|)
            case Some(ws) => ok && items == held + ws && Took(old(sub.Now()), sub.Now(), old(sub.bytesLeft))
            case None => !ok
  {
    hide DecBasic, DecItems, Prepend, Took;
    ghost var a := sub.Now();
    ghost var done: nat := 0;
    ghost var vs: seq<Value> := [];
    var size: nat := |held|;
    var block := new Value[size](i requires 0 <= i < size => held[i]);
    items := [];
    PrependEnds(f, a.Rest(), PB_SIZE_MAX - |held|, []);
    TookNothing(a);
    assert block[..] == held + [];
    while sub.bytesLeft > 0
      invariant sub.Valid() && Took(a, sub.Now(), done) && fresh(block)
      invariant size <= block.Length <= PB_SIZE_MAX
      invariant size == |held| + |vs| && block[..size] == held + vs
      invariant DecItems(f, a.Rest(), PB_SIZE_MAX - |held|) == Prepend(vs, DecItems(f, sub.Rest(), PB_SIZE_MAX - size))
      decreases sub.bytesLeft
    {
      ghost var b := sub.Now();
      PrependEnds(f, b.Rest(), PB_SIZE_MAX - size, vs);
      TookWithin(a, b, done);
      if size == PB_SIZE_MAX {
        return false, items;
      }
      PrependStep(f, b.Rest(), PB_SIZE_MAX - size, vs);
      var v;
      ok, block, v := PackedNext(sub, f, block, size);
      if !ok {
        WithinBoth(a, b, sub.Now(), done);
        return;
      }
      ghost var n := DecBasic(f, b.Rest()).n;
      TookRest(b, sub.Now(), n);
      TookWithin(b, sub.Now(), n);
      TookBoth(a, b, sub.Now(), done, n);
      assert (held + vs) + [v] == held + (vs + [v]);
      done, vs, size := done + n, vs + [v], size + 1;
    }
    PrependEnds(f, sub.Rest(), PB_SIZE_MAX - size, vs);
    TookWithin(a, sub.Now(), done);
    return true, block[..size];
  }

  // ----- Defaults -----

  /** The data part of pb_field_set_to_default. */
  method FieldDefault(env: Env, id: nat, f: Field) returns (v: Value)
    requires ValidEnv(env) && SharedSizes(env) && id < |env| && f in env[id]
    ensures v == DefaultValue(env, id, f)
    decreases id, 0
  {
    assert ValidMessage(env, id) && ValidField(env, id, f);
    if f.at == PTR {
      v := Null;
    } else if f.lt == SUBMESSAGE {
      var slots := MessageDefaults(env, f.sub);
      v := Msg(slots);
    } else if f.dflt.Some? {
      v := f.dflt.value;
    } else {
      v := ZeroValue(f);
    }
  }

  /** pb_message_set_to_defaults: one lap of the iterator. */
  method MessageDefaults(env: Env, id: nat) returns (slots: seq<Slot>)
    requires ValidEnv(env) && SharedSizes(env) && id < |env|
    ensures slots == Defaults(env, id)
    decreases id, 2
  {
    hide DefaultSlot, ValidEnv;
    var F := env[id];
    slots := seq(|F|, _ => Shared);
    var iter := new FieldIter(F);
    if |F| == 0 {
      return;
    }
    ghost var k := 0;
    var more := true;
    while more
      invariant iter.Valid() && fresh(iter) && iter.start == F && |slots| == |F|
      invariant k <= |F| && (if more then iter.pos == k < |F| else k == |F|)
      invariant forall i :: 0 <= i < k ==> slots[i] == DefaultSlot(env, id, i)
      decreases |F| - k
    {
      var slot := SlotDefault(env, id, iter.pos);
      slots := slots[iter.pos := slot];
      more := iter.Next();
      k := k + 1;
    }
  }

  /** pb_field_set_to_default: has_, _count and which_ are cleared, and the data set where it is not
      governed by a count. */
  method SlotDefault(env: Env, id: nat, k: nat) returns (slot: Slot)
    requires ValidEnv(env) && SharedSizes(env) && id < |env| && k < |env[id]|
    ensures slot == DefaultSlot(env, id, k)
    decreases id, 1
  {
    var f := env[id][k];
    if UnionTail(env[id], k) {
      return Shared;
    }
    if f.ht == REPEATED {
      return Arr(if FixedCount(f) then seq(f.arraySize, _ => ZeroValue(f)) else []);
    }
    if f.ht == ONEOF {
      return Union(0, Null);
    }
    var v := FieldDefault(env, id, f);
    slot := if HasField(f) then Opt(false, v) else Plain(v);
  }


  // ----- Fields and messages -----

  /** The destination struct. */
  class Struct {
    var slots: seq<Slot>

    constructor (slots: seq<Slot>)
      ensures this.slots == slots
    {
      this.slots := slots;
    }
  }

  /** The table of one message with everything the decoder relies on. */
  ghost predicate Ready(env: Env, id: nat)
  {
    ValidEnv(env) && SharedSizes(env) && id < |env|
  }

  lemma TableReady(env: Env, id: nat)
    requires Ready(env, id)
    ensures ValidMessage(env, id) && SharedSize(env[id])
    ensures forall f :: f in env[id] ==> ValidField(env, id, f)
  {
  }

  /** pb_dec_submessage, or the table entry for any other type. */
  method DecodeValue(stream: IStream, env: Env, id: nat, f: Field, base: Value) returns (ok: bool, v: Value)
    requires stream.Valid() && Ready(env, id) && f in env[id]
    requires f.lt == SUBMESSAGE && f.ht == REPEATED ==> base == Msg(Defaults(env, f.sub))
    modifies stream
    ensures Delivers(old(stream.Now()), stream.Now(), DecValue(env, f, base, old(stream.Rest())), ok, v)
    decreases stream.bytesLeft, 0, 1
  {
    hide DecVarint32, DecBasic, DecMsg, SharedSizes, Defaults, ValidEnv;
    TableReady(env, id);
    v := Null;
    if f.lt != SUBMESSAGE {
      ok, v := DecodeBasic(stream, f);
    } else if !base.Msg? {
      ok := false;
    } else {
      ok, v := DecodeSubmessage(stream, env, id, f, base.slots);
    }
  }

  /** The nested call of pb_dec_submessage: an array element is set to its defaults first. */
  method DecodeNested(sub: IStream, env: Env, f: Field, slots: seq<Slot>) returns (ok: bool, r: seq<Slot>)
    requires sub.Valid() && Ready(env, f.sub) && (f.ht == REPEATED ==> slots == Defaults(env, f.sub))
    modifies sub
    ensures Within(old(sub.Now()), sub.Now())
    ensures match DecMsg(env, f.sub, slots, old(sub.Rest()))
            case Ok(q, n) => ok && r == q && Took(old(sub.Now()), sub.Now(), n)
            case Err => !ok
    decreases sub.bytesLeft, 8
  {
    hide DecMsg, Defaults, Ready, Took, Within;
    var dest := new Struct(slots);
    if f.ht == REPEATED {
      ok := DecodeMessage(sub, env, f.sub, dest);
    } else {
      ok := DecodeNoinit(sub, env, f.sub, dest);
    }
    r := dest.slots;
  }

  /** pb_dec_submessage on a struct that holds `slots`. */
  method DecodeSubmessage(stream: IStream, env: Env, id: nat, f: Field, slots: seq<Slot>) returns (ok: bool, v: Value)
    requires stream.Valid() && Ready(env, id) && f in env[id] && f.lt == SUBMESSAGE
    requires f.ht == REPEATED ==> slots == Defaults(env, f.sub)
    modifies stream
    ensures Delivers(old(stream.Now()), stream.Now(), DecValue(env, f, Msg(slots), old(stream.Rest())), ok, v)
    decreases stream.bytesLeft, 0, 0
  {
    hide DecVarint32, DecMsg, DecValue, Defaults, Took, Ready, Tape.Rest, Tape.Advance;
    v := Null;
    ghost var a := stream.Now();
    NestedValue(env, f, slots, a.Rest());
    RestLength(a);
    var sub;
    ok, sub := MakeSubstream(stream);
    if !ok {
      return;
    }
    ghost var h := DecVarint32(a.Rest());
    SubstreamRest(a, h.n, h.v);
    SubReady(env, id, f);
    var status, r;
    status, r := DecodeNested(sub, env, f, slots);
    ghost var inner := sub.Now();
    ok := CloseSubstream(stream, sub);
    ClosedWithin(a, h.n, h.v, inner);
    if status {
      SubstreamConservation(a, h.n, h.v, inner, DecMsg(env, f.sub, slots, a.Rest()[h.n..h.n + h.v]).n);
    }
    ok, v := status, Msg(r);
  }

  lemma SubReady(env: Env, id: nat, f: Field)
    requires Ready(env, id) && f in env[id] && f.lt == SUBMESSAGE
    ensures Ready(env, f.sub)
  {
    TableReady(env, id);
  }

  /** pb_decode. */
  method DecodeMessage(stream: IStream, env: Env, id: nat, dest: Struct) returns (ok: bool)
    requires stream.Valid() && Ready(env, id)
    modifies stream, dest
    ensures Within(old(stream.Now()), stream.Now())
    ensures match Decode(env, id, old(stream.Rest()))
            case Ok(slots, n) => ok && dest.slots == slots && Took(old(stream.Now()), stream.Now(), n)
            case Err => !ok
    decreases stream.bytesLeft, 7
  {
    hide DecMsg, Defaults, ValidEnv, SharedSizes;
    dest.slots := MessageDefaults(env, id);
    ok := DecodeNoinit(stream, env, id, dest);
  }

  /** The count member of a repeated field, or the counter that stands in for it. */
  function CountAt(iter: FieldIter, slot: Slot, fixedSize: nat): nat
    reads iter
  {
    if iter.pSize == Counter then fixedSize else if slot.Arr? then |slot.items| else 0
  }

  /** A field decoder's promise: what DecField says happens to the struct and the counter. */
  ghost predicate Stores(a: Tape, b: Tape, r: Parse<Progress>, ok: bool, slots: seq<Slot>, size: nat)
  {
    && Within(a, b)
    && match r
       case Ok(q, n) => ok && Took(a, b, n) && slots == q.slots && size == q.fixedSize
       case Err => !ok
  }

  /** The packed branches of decode_static_field and decode_pointer_field: the whole new array, and
      what was added to it. */
  method PackedItems(stream: IStream, f: Field, slot: Slot, fixedSize: nat, count: nat)
    returns (ok: bool, items: seq<Value>, vs: seq<Value>)
    requires stream.Valid() && f.ht == REPEATED && Packable(f.lt) && 1 <= f.dataSize <= PB_SIZE_MAX && Shaped(f, slot)
    requires count == Count(f, slot, fixedSize)
    requires (FixedCount(f) ==> f.at == STATIC && fixedSize <= f.arraySize) && f.arraySize <= PB_SIZE_MAX
    modifies stream
    ensures Delivers(old(stream.Now()), stream.Now(), PackedRun(f, Room(f, slot, fixedSize), old(stream.Rest())), ok, vs)
    ensures ok ==> Arr(items) == Stored(f, slot, fixedSize, vs)
  {
    hide DecVarint32, DecItems;
    items, vs := [], [];
    ghost var a := stream.Now();
    var sub;
    ok, sub := MakeSubstream(stream);
    if !ok {
      return;
    }
    ghost var h := DecVarint32(a.Rest());
    SubstreamRest(a, h.n, h.v);
    if f.at == STATIC {
      ok, vs := PackedStatic(sub, f, if count <= f.arraySize then f.arraySize - count else 0);
      items := if FixedCount(f) && ok then slot.items[..count] + vs + slot.items[count + |vs|..] else slot.items + vs;
    } else {
      ok, items := PackedPointer(sub, f, slot.items);
      vs := if ok then items[|slot.items|..] else [];
    }
    if ok {
      ok := CloseSubstream(stream, sub);
    }
  }

  method DecodePacked(stream: IStream, env: Env, id: nat, iter: FieldIter, dest: Struct, fixedSize: nat, ghost p: Progress)
    returns (ok: bool, size: nat)
    requires stream.Valid() && Ready(env, id) && iter.Valid() && iter.start == env[id] && iter.pos < |env[id]|
    requires iter.pSize == Counter <==> FixedCount(env[id][iter.pos])
    requires p.slots == dest.slots && p.fixedSize == fixedSize && |p.slots| == |env[id]|
    requires FixedCount(env[id][iter.pos]) ==> fixedSize <= env[id][iter.pos].arraySize
    requires var f := env[id][iter.pos];
             f.ht == REPEATED && Packable(f.lt) && Shaped(f, dest.slots[Loc(env[id], iter.pos)])
    modifies stream, dest
    ensures Stores(old(stream.Now()), stream.Now(),
                    DecField(env, id, p, old(iter.pos), WT_STRING, old(stream.Rest())), ok, dest.slots, size)
  {
    hide DecField, PackedRun, Shaped, Room, SharedSizes, Stored;
    var F, k := iter.start, iter.pos;
    var f, slot := F[k], dest.slots[k];
    assert ValidMessage(env, id) && ValidField(env, id, f);
    var count := CountAt(iter, slot, fixedSize);
    assert count == Count(f, slot, fixedSize);
    size := fixedSize;
    PackedField(env, id, p, k, stream.Rest());
    var items, vs;
    ok, items, vs := PackedItems(stream, f, slot, fixedSize, count);
    if ok {
      dest.slots := dest.slots[k := Arr(items)];
      if FixedCount(f) {
        size := fixedSize + |vs|;
      }
    }
  }

  /** There is room for one more item, and the block that is to hold it can be asked for. */
  method MakeRoom(f: Field, slot: Slot, fixedSize: nat, count: nat) returns (ok: bool)
    requires 1 <= f.dataSize <= PB_SIZE_MAX && f.arraySize <= PB_SIZE_MAX && Shaped(f, slot)
    requires f.ht == REPEATED ==> count == Count(f, slot, fixedSize)
    ensures ok == (f.ht == REPEATED ==> Room(f, slot, fixedSize) >= 1)
  {
    if f.ht == REPEATED && count >= (if f.at == STATIC then f.arraySize else PB_SIZE_MAX) {
      return false;
    }
    ok := true;
    if f.at == PTR && f.lt != STRING && f.lt != BYTES {
      SmallFactors(f.dataSize, if f.ht == REPEATED then count + 1 else 1);
      ok := AllocateField(f.dataSize, if f.ht == REPEATED then count + 1 else 1);
    }
  }

  /** What the data holds before the decoder of the field starts on it. */
  method Prepare(env: Env, f: Field, slot: Slot) returns (base: Value)
    requires ValidEnv(env) && SharedSizes(env) && (f.lt == SUBMESSAGE ==> f.sub < |env|) && Shaped(f, slot)
    ensures f.lt == SUBMESSAGE ==> base == Base(env, f, slot)
  {
    hide ValidEnv, SharedSizes, Defaults;
    base := Null;
    if f.lt == SUBMESSAGE {
      if f.at == PTR || f.ht == REPEATED || (slot.Union? && slot.which != f.tag) {
        var slots := MessageDefaults(env, f.sub);
        base := Msg(slots);
      } else {
        base := match slot case Plain(v) => v case Opt(_, v) => v case Union(_, u) => u case _ => Null;
      }
    }
  }

  /** The member after the item has been decoded, with its companion. */
  method StoreSingle(f: Field, was: Slot, counted: bool, fixedSize: nat, v: Value) returns (slot: Slot, size: nat)
    requires Shaped(f, was) && (counted <==> FixedCount(f)) && (counted ==> fixedSize < f.arraySize)
    ensures slot == Stored(f, was, fixedSize, [v])
    ensures size == if FixedCount(f) then fixedSize + 1 else fixedSize
  {
    slot, size := was, fixedSize;
    match f.ht {
      case REQUIRED => slot := Plain(v);
      case OPTIONAL => slot := if HasField(f) then Opt(true, v) else Plain(v);
      case ONEOF => slot := Union(f.tag, v);
      case REPEATED =>
        if counted {
          StoreFixed(was.items, fixedSize, v);
          slot := Arr(was.items[fixedSize := v]);
          size := fixedSize + 1;
        } else {
          slot := Arr(was.items + [v]);
        }
    }
  }

  /** A single item: decode_static_field and decode_pointer_field outside packed arrays. */
  method DecodeSingle(stream: IStream, env: Env, id: nat, iter: FieldIter, wt: nat, dest: Struct, fixedSize: nat,
                      ghost p: Progress)
    returns (ok: bool, size: nat)
    requires stream.Valid() && Ready(env, id) && iter.Valid() && iter.start == env[id] && iter.pos < |env[id]|
    requires iter.pSize == Counter <==> FixedCount(env[id][iter.pos])
    requires p.fixedSize == fixedSize && |p.slots| == |env[id]| && dest.slots == Cleared(env, env[id], p, iter.pos).slots
    requires FixedCount(env[id][iter.pos]) ==> fixedSize <= env[id][iter.pos].arraySize
    requires var F, f, slot := env[id], env[id][iter.pos], dest.slots[Loc(env[id], iter.pos)];
             && Shaped(f, slot) && !(f.ht == REPEATED && wt == WT_STRING && Packable(f.lt))
             && (f.ht == ONEOF ==> Admits(F, f, slot, fixedSize))
    modifies stream, dest
    ensures Stores(old(stream.Now()), stream.Now(),
                    DecField(env, id, p, old(iter.pos), wt, old(stream.Rest())), ok, dest.slots, size)
    decreases stream.bytesLeft, 1
  {
    hide DecValue, DecField, SharedSizes, Defaults, FindTag, Stored, Base, Shaped, Room, Took, Cleared;
    var F, k := iter.start, iter.pos;
    var f, l := F[k], Loc(F, k);
    var slot := dest.slots[l];
    assert ValidMessage(env, id) && ValidField(env, id, f);
    SingleField(env, id, p, k, wt, stream.Rest());
    var count := CountAt(iter, slot, fixedSize);
    assert f.ht == REPEATED ==> count == Count(f, slot, fixedSize);
    size := fixedSize;
    ok := MakeRoom(f, slot, fixedSize, count);
    if !ok {
      return;
    }
    var base := Prepare(env, f, slot);
    BaseUnused(env, f, base, Base(env, f, slot), stream.Rest());
    BaseItem(env, f, slot);
    var v;
    ok, v := DecodeValue(stream, env, id, f, base);
    if !ok {
      return;
    }
    RoomLeft(f, slot, fixedSize);
    slot, size := StoreSingle(f, slot, iter.pSize == Counter, fixedSize, v);
    dest.slots := dest.slots[l := slot];
  }

  lemma BaseItem(env: Env, f: Field, slot: Slot)
    ensures f.ht == REPEATED ==> Base(env, f, slot) == Msg(Defaults(env, f.sub))
  {
  }

  lemma RoomLeft(f: Field, slot: Slot, fixedSize: nat)
    ensures FixedCount(f) && f.at == STATIC && Room(f, slot, fixedSize) >= 1 ==> fixedSize < f.arraySize
  {
  }

  lemma StoreFixed(items: seq<Value>, c: nat, v: Value)
    requires c < |items|
    ensures items[..c] + [v] + items[c + 1..] == items[c := v]
  {
  }

  /** pb_release_union_field: the field that which_ names has to be found, it is released, and then the
      iterator has to find its way back. */
  method ReleaseUnion(iter: FieldIter, env: Env, id: nat, dest: Struct, ghost p: Progress) returns (ok: bool)
    requires Ready(env, id) && iter.Valid() && iter.start == env[id] && iter.pos < |env[id]| && |dest.slots| == |env[id]|
    requires env[id][iter.pos].ht == ONEOF && dest.slots[Loc(env[id], iter.pos)].Union? && p.slots == dest.slots
    modifies iter, dest
    ensures iter.Valid()
    ensures ok == Admits(env[id], env[id][old(iter.pos)], p.slots[Loc(env[id], old(iter.pos))], 0)
    ensures ok ==> iter.pos == old(iter.pos) && iter.pSize != Counter
    ensures ok ==> dest.slots == Cleared(env, env[id], p, iter.pos).slots
  {
    hide Offset, ReleasedSlot, FindTag, Loc, SharedSizes, ValidEnv, ValidField;
    TableReady(env, id);
    var k := iter.pos;
    var newTag := iter.start[iter.pos].tag;
    var oldTag := dest.slots[Loc(iter.start, iter.pos)].which;
    FindUnique(env, id, k);
    if oldTag == 0 || oldTag == newTag {
      return true;
    }
    ok := iter.Find(oldTag);
    if !ok {
      return;
    }
    ReleaseField(iter, env, id, dest, k);
    ok := iter.Find(newTag);
    assert SharedSize(env[id]);
  }

  /** pb_release_single_field on the field the iterator stands at, on behalf of union member `k`: the
      storage the two share is left to the decoder that is about to fill it. */
  method ReleaseField(iter: FieldIter, env: Env, id: nat, dest: Struct, k: nat)
    requires id < |env| && iter.Valid() && iter.start == env[id] && iter.pos < |env[id]| && k < |dest.slots| == |env[id]|
    modifies dest
    ensures var F, l := env[id], Loc(env[id], iter.pos);
            var slot := old(dest.slots)[l];
            dest.slots ==
            if l == Loc(F, k) || (F[iter.pos].ht == ONEOF && slot.Union? && slot.which != F[iter.pos].tag) then old(dest.slots)
            else old(dest.slots)[l := ReleasedSlot(env, F, l, slot)]
  {
    hide ReleasedSlot;
    var F := iter.start;
    var l := Loc(F, iter.pos);
    var slot := dest.slots[l];
    if F[iter.pos].ht == ONEOF && slot.Union? && slot.which != F[iter.pos].tag {
      return;
    }
    if l != Loc(F, k) {
      dest.slots := dest.slots[l := ReleasedSlot(env, F, l, slot)];
    }
  }

  /** decode_field. */
  method DecodeField(stream: IStream, env: Env, id: nat, iter: FieldIter, wt: nat, dest: Struct, fixedSize: nat,
                      ghost p: Progress)
    returns (ok: bool, size: nat)
    requires stream.Valid() && Ready(env, id) && iter.Valid() && iter.start == env[id] && iter.pos < |env[id]|
    requires iter.pSize == Counter <==> FixedCount(env[id][iter.pos])
    requires p.slots == dest.slots && p.fixedSize == fixedSize && |p.slots| == |env[id]|
    requires FixedCount(env[id][iter.pos]) ==> fixedSize <= env[id][iter.pos].arraySize
    modifies stream, dest, iter
    ensures iter.Valid()
    ensures ok ==> iter.pos == old(iter.pos)
    ensures Stores(old(stream.Now()), stream.Now(),
                    DecField(env, id, p, old(iter.pos), wt, old(stream.Rest())), ok, dest.slots, size)
    decreases stream.bytesLeft, 2
  {
    hide DecValue, SharedSizes, DecItems, DecVarint32, Base, Stored, FindTag, Offset;
    var F, k := iter.start, iter.pos;
    var f := F[k];
    size := fixedSize;
    // Typed storage: a struct member always has the shape of its descriptor.
    if !Shaped(f, dest.slots[Loc(F, k)]) {
      return false, size;
    }
    if f.ht == ONEOF {
      ok := ReleaseUnion(iter, env, id, dest, p);
      if !ok {
        return;
      }
    }
    if f.ht == REPEATED && wt == WT_STRING && Packable(f.lt) {
      ok, size := DecodePacked(stream, env, id, iter, dest, fixedSize, p);
    } else {
      ok, size := DecodeSingle(stream, env, id, iter, wt, dest, fixedSize, p);
    }
  }

  /** The loop's own variables agree with the specification's progress. */
  ghost predicate Tracks(F: Fields, p: Progress, dest: Struct, words: array<nat>, fixedField: Option<nat>, fixedSize: nat)
    reads dest, words
  {
    && p.slots == dest.slots && |p.slots| == |F|
    && p.fixedField == fixedField && p.fixedSize == fixedSize
    && (fixedField.Some? ==>
          fixedField.value < |F| && FixedCount(F[fixedField.value]) && fixedSize <= F[fixedField.value].arraySize)
    && words.Length == 2 && (F != [] ==> Holds(words, p.seen))
    && forall r :: r in p.seen ==> r < PB_MAX_REQUIRED_FIELDS && r < RequiredBefore(F, |F|)
  }

  lemma FixedStays(env: Env, id: nat, p: Progress, k: nat, wt: nat, s: Bytes)
    requires id < |env| && k < |env[id]| && |p.slots| == |env[id]| && DecField(env, id, p, k, wt, s).Ok?
    requires FixedCount(env[id][k]) ==> env[id][k].at == STATIC && p.fixedSize <= env[id][k].arraySize
    ensures var q := DecField(env, id, p, k, wt, s).v;
            && q.fixedField == p.fixedField && q.seen == p.seen
            && q.fixedSize >= p.fixedSize
            && (if FixedCount(env[id][k]) then q.fixedSize <= env[id][k].arraySize else q.fixedSize == p.fixedSize)
  {
    hide DecValue, DecVarint32, Base, Shaped, Stored;
  }

  lemma RequiredInside(F: Fields, k: nat)
    requires k < |F| && F[k].ht == REQUIRED
    ensures RequiredBefore(F, k) < RequiredBefore(F, |F|)
  {
    RequiredMonotone(F, k + 1, |F|);
  }

  /** The loop body for a tag that is in the table: fixed-count tracking, the required bit, the field. */
  method DecodeKnown(stream: IStream, env: Env, id: nat, iter: FieldIter, wt: nat, dest: Struct, words: array<nat>,
                     fixedField: Option<nat>, fixedSize: nat, ghost p: Progress)
    returns (ok: bool, field: Option<nat>, size: nat, ghost q: Progress)
    requires stream.Valid() && Ready(env, id) && iter.Valid() && iter.start == env[id] && iter.pos < |env[id]|
    requires Tracks(env[id], p, dest, words, fixedField, fixedSize)
    requires iter.pSize == Counter ==> fixedField == Some(iter.pos)
    modifies stream, dest, iter, words
    ensures Within(old(stream.Now()), stream.Now())
    ensures ok ==> iter.Valid() && iter.pos == old(iter.pos) && Tracks(env[id], q, dest, words, field, size)
    ensures ok ==> (iter.pSize == Counter ==> field == Some(iter.pos))
    ensures match Enter(env[id], p, old(iter.pos))
            case None => !ok
            case Some(e) =>
              match DecField(env, id, e, old(iter.pos), wt, old(stream.Rest()))
              case Ok(r, n) => ok && q == r && Took(old(stream.Now()), stream.Now(), n)
              case Err => !ok
    decreases stream.bytesLeft, 3
  {
    hide DecValue, SharedSizes, DecField, Offset, RequiredBefore, WordOf, ValidEnv, ValidMessage;
    var F, k := iter.start, iter.pos;
    var f := F[k];
    TableReady(env, id);
    field, size, q := fixedField, fixedSize, p;
    if f.ht == REPEATED && iter.pSize == InStruct(iter.pData) {
      if fixedField != Some(k) {
        if fixedField.Some? && fixedSize != F[fixedField.value].arraySize {
          return false, field, size, q;
        }
        field, size := Some(k), 0;
      }
      iter.pSize := Counter;
    }
    if f.ht == REQUIRED && iter.requiredFieldIndex < PB_MAX_REQUIRED_FIELDS {
      RequiredInside(F, k);
      MarkSeen(words, iter.requiredFieldIndex, p.seen);
    }
    ghost var e := Enter(F, p, k).value;
    assert e.slots == dest.slots && e.fixedField == field && e.fixedSize == size;
    ok, size := DecodeField(stream, env, id, iter, wt, dest, size, e);
    if ok {
      FixedStays(env, id, e, k, wt, old(stream.Rest()));
      q := DecField(env, id, e, k, wt, old(stream.Rest())).v;
    }
  }

  /** The loop body after the tag has been read. */
  method DecodeRecord(stream: IStream, env: Env, id: nat, iter: FieldIter, tag: nat, wt: nat, dest: Struct,
                      words: array<nat>, fixedField: Option<nat>, fixedSize: nat, ghost p: Progress)
    returns (ok: bool, field: Option<nat>, size: nat, ghost q: Progress)
    requires stream.Valid() && Ready(env, id) && iter.Valid() && iter.start == env[id]
    requires Tracks(env[id], p, dest, words, fixedField, fixedSize)
    requires iter.pSize == Counter ==> fixedField == Some(iter.pos)
    modifies stream, dest, iter, words
    ensures Within(old(stream.Now()), stream.Now())
    ensures ok ==> iter.Valid() && Tracks(env[id], q, dest, words, field, size)
    ensures ok ==> (iter.pSize == Counter ==> field == Some(iter.pos))
    ensures match Step(env, id, p, tag, wt, old(stream.Rest()))
            case Ok(r, n) => ok && q == r && Took(old(stream.Now()), stream.Now(), n)
            case Err => !ok
    decreases stream.bytesLeft, 4
  {
    hide DecValue, SharedSizes, DecField, Offset, Enter, Skip, DecVarint32, RequiredBefore, WordOf;
    var F := env[id];
    TableReady(env, id);
    field, size, q := fixedField, fixedSize, p;
    ok := iter.Find(tag);
    if !ok {
      ok := SkipField(stream, wt);
    } else if |F| == 0 {
      // The terminator entry: a bool is read, and an empty struct has no member to keep it in.
      var unused;
      ok, unused := DecodeVarint32(stream);
    } else {
      FindUnique(env, id, iter.pos);
      ok, field, size, q := DecodeKnown(stream, env, id, iter, wt, dest, words, fixedField, fixedSize, p);
    }
  }

  /** One turn of the main loop: read a tag, stop at a zero, decode a record otherwise. */
  method DecodeTurn(stream: IStream, env: Env, id: nat, iter: FieldIter, dest: Struct, words: array<nat>,
                    fixedField: Option<nat>, fixedSize: nat, ghost p: Progress)
    returns (ok: bool, ended: bool, field: Option<nat>, size: nat, ghost q: Progress, ghost n: nat)
    requires stream.Valid() && stream.bytesLeft > 0 && Ready(env, id) && iter.Valid() && iter.start == env[id]
    requires Tracks(env[id], p, dest, words, fixedField, fixedSize)
    requires iter.pSize == Counter ==> fixedField == Some(iter.pos)
    modifies stream, dest, iter, words
    ensures Within(old(stream.Now()), stream.Now())
    ensures ok ==> iter.Valid() && Tracks(env[id], q, dest, words, field, size)
    ensures ok ==> (iter.pSize == Counter ==> field == Some(iter.pos))
    ensures ok ==> n >= 1 && Took(old(stream.Now()), stream.Now(), n)
    ensures var all := DecFields(env, id, p, old(stream.Rest()));
            if !ok then all.Err?
            else if ended then all == Ok(Outcome(q, true), n)
            else all == Later(DecFields(env, id, q, stream.Rest()), n)
    decreases stream.bytesLeft, 4
  {
    hide DecFields, Step, DecVarint32, Tracks;
    ghost var b := stream.Now();
    ghost var h := DecVarint32(b.Rest());
    assert |p.slots| == |env[id]| by {
      Tracked(env[id], p, dest, words, fixedField, fixedSize);
    }
    LoopTurn(env, id, p, b.Rest());
    field, size, q, n, ended := fixedField, fixedSize, p, 0, false;
    var wt, tag, eof;
    ok, wt, tag, eof := DecodeTag(stream);
    if !ok {
      if !eof {
        return;
      }
      return true, true, field, size, q, h.n;
    }
    ghost var c := stream.Now();
    TookRest(b, c, h.n);
    ok, field, size, q := DecodeRecord(stream, env, id, iter, tag, wt, dest, words, fixedField, fixedSize, p);
    if ok {
      ghost var m := Step(env, id, p, tag, wt, c.Rest()).n;
      TookRest(c, stream.Now(), m);
      TookBoth(b, c, stream.Now(), h.n, m);
      n := h.n + m;
    }
  }

  lemma Tracked(F: Fields, p: Progress, dest: Struct, words: array<nat>, fixedField: Option<nat>, fixedSize: nat)
    requires Tracks(F, p, dest, words, fixedField, fixedSize)
    ensures |p.slots| == |F| && p.slots == dest.slots && words.Length == 2
    ensures fixedField.Some? ==> fixedField.value < |F|
    ensures FixedDone(F, p) == (fixedField.Some? ==> fixedSize == F[fixedField.value].arraySize)
    ensures F != [] ==> Holds(words, p.seen)
    ensures forall r :: r in p.seen ==> r < PB_MAX_REQUIRED_FIELDS && r < RequiredBefore(F, |F|)
  {
    hide RequiredBefore, Holds;
  }

  /** The main loop of pb_decode_noinit. */
  method DecodeLoop(stream: IStream, env: Env, id: nat, iter: FieldIter, dest: Struct, words: array<nat>)
    returns (ok: bool, fixedField: Option<nat>, fixedSize: nat, ghost p: Progress)
    requires stream.Valid() && Ready(env, id) && iter.Valid() && iter.start == env[id] && iter.pSize != Counter
    requires Tracks(env[id], Start(dest.slots), dest, words, None, 0)
    modifies stream, iter, dest, words
    ensures Within(old(stream.Now()), stream.Now())
    ensures match DecFields(env, id, Start(old(dest.slots)), old(stream.Rest()))
            case Ok(o, n) => ok && p == o.p && Took(old(stream.Now()), stream.Now(), n)
            case Err => !ok
    ensures ok ==> iter.Valid() && Tracks(env[id], p, dest, words, fixedField, fixedSize)
    decreases stream.bytesLeft, 5
  {
    hide DecFields, SharedSizes, Tracks, RequiredBefore, Took, Offset, ValidEnv;
    ghost var a, s := stream.Now(), stream.Rest();
    ghost var p0, done: nat, n: nat := Start(dest.slots), 0, 0;
    p, fixedField, fixedSize := p0, None, 0;
    Tracked(env[id], p, dest, words, None, 0);
    TookNothing(a);
    var ended := false;
    ok := true;
    while stream.bytesLeft > 0 && !ended
      invariant ok && stream.Valid() && iter.Valid() && iter.start == env[id]
      invariant Tracks(env[id], p, dest, words, fixedField, fixedSize) && |p.slots| == |env[id]|
      invariant iter.pSize == Counter ==> fixedField == Some(iter.pos)
      invariant Took(a, stream.Now(), done)
      invariant if ended then DecFields(env, id, p0, s) == Ok(Outcome(p, true), done)
                else DecFields(env, id, p0, s) == Later(DecFields(env, id, p, stream.Rest()), done)
      decreases stream.bytesLeft, !ended
    {
      ghost var before := stream.Now();
      ok, ended, fixedField, fixedSize, p, n := DecodeTurn(stream, env, id, iter, dest, words, fixedField, fixedSize, p);
      if !ok {
        WithinBoth(a, before, stream.Now(), done);
        return;
      }
      TookWithin(before, stream.Now(), n);
      TookBoth(a, before, stream.Now(), done, n);
      TookRest(a, stream.Now(), done + n);
      Tracked(env[id], p, dest, words, fixedField, fixedSize);
      done := done + n;
    }
    TookWithin(a, stream.Now(), done);
    NothingLeft(env, id, p);
  }

  /** pb_decode_noinit. */
  method DecodeNoinit(stream: IStream, env: Env, id: nat, dest: Struct) returns (ok: bool)
    requires stream.Valid() && Ready(env, id)
    modifies stream, dest
    ensures Within(old(stream.Now()), stream.Now())
    ensures match DecMsg(env, id, old(dest.slots), old(stream.Rest()))
            case Ok(slots, n) => ok && dest.slots == slots && Took(old(stream.Now()), stream.Now(), n)
            case Err => !ok
    decreases stream.bytesLeft, 6
  {
    hide DecFields, SharedSizes, AllRequired, Tracks, RequiredBefore, Holds, Took, Offset, ValidEnv;
    var F := env[id];
    // Typed storage: the struct has the members of its table.
    if |dest.slots| != |F| {
      return false;
    }
    TableReady(env, id);
    var words := new nat[2](_ => 0);
    TracksNothing(F, dest, words);
    var iter := new FieldIter(F);
    var fixedField: Option<nat>, fixedSize: nat;
    ghost var p: Progress;
    ok, fixedField, fixedSize, p := DecodeLoop(stream, env, id, iter, dest, words);
    if !ok {
      return;
    }
    Tracked(F, p, dest, words, fixedField, fixedSize);
    if fixedField.Some? && fixedSize != F[fixedField.value].arraySize {
      return false;
    }
    ok := CheckRequired(iter, words, p.seen);
  }

  lemma TracksNothing(F: Fields, dest: Struct, words: array<nat>)
    requires |dest.slots| == |F| && words.Length == 2 && words[0] == words[1] == 0
    ensures Tracks(F, Start(dest.slots), dest, words, None, 0)
  {
    HoldsNothing(words);
  }

  lemma HoldsNothing(words: array<nat>)
    requires words.Length == 2 && words[0] == words[1] == 0
    ensures Holds(words, {})
  {
    WordEmpty({}, 0, 32);
    WordEmpty({}, 32, 32);
  }

  /** pb_decode_delimited. */
  method DecodeDelimited(stream: IStream, env: Env, id: nat, dest: Struct) returns (ok: bool)
    requires stream.Valid() && Ready(env, id)
    modifies stream, dest
    ensures match DecDelimited(env, id, old(stream.Rest()))
            case Ok(slots, n) => ok && dest.slots == slots && Took(old(stream.Now()), stream.Now(), n)
            case Err => !ok
  {
    hide DecVarint32, Decode, Ready;
    ghost var a := stream.Now();
    var sub;
    ok, sub := MakeSubstream(stream);
    if !ok {
      return;
    }
    ghost var h := DecVarint32(a.Rest());
    SubstreamRest(a, h.n, h.v);
    var status := DecodeMessage(sub, env, id, dest);
    ok := CloseSubstream(stream, sub);
    ok := status;
  }
}
