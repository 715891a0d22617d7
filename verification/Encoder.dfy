/** The encoder as it runs: output streams, sizing passes and in-place writes. */
module Encoder {
  import opened Bits
  import opened Varint
  import opened Schema
  import opened Wrappers
  import opened DecodeSpec
  import opened EncodeSpec
  import opened FieldIterator

  datatype Status = Done | StreamFull | ArrayTooLong | BytesTooLong | BadSize | MissingRequired
                  | SizeChanged | BadField

  /** A stream at one moment: its buffer, where the next byte goes, its limit and its count. */
  datatype Moment = Moment(sizing: bool, bytes: Bytes, at: nat, max: nat, written: nat)
  {
    predicate Valid()
    {
      sizing || (written <= max && Limit() <= |bytes|)
    }

    /** End of the part of the buffer this stream may write. */
    function Limit(): int
    {
      at + max - written
    }
  }

  /** Writing `e` took the stream from `a` to `b`. Sizing only counts. Writing succeeds exactly when
      there is something to write and it fits; it then leaves every byte outside what was written as
      it was, and it never touches a byte outside the stream's own part of the buffer. */
  predicate Emits(a: Moment, b: Moment, e: Option<Bytes>, ok: bool)
    requires a.Valid() && b.Valid()
  {
    && b.sizing == a.sizing && b.max == a.max && |b.bytes| == |a.bytes|
    && if a.sizing then
         && b.bytes == a.bytes && b.at == a.at
         && ok == e.Some? && (ok ==> b.written == a.written + |e.value|)
       else
         && a.written <= b.written && b.Limit() == a.Limit()
         && b.bytes[..a.at] == a.bytes[..a.at] && b.bytes[a.Limit()..] == a.bytes[a.Limit()..]
         && ok == (e.Some? && a.written + |e.value| <= a.max)
         && (ok ==> b.written == a.written + |e.value| && b.bytes == a.bytes[..a.at] + e.value + a.bytes[b.at..])
  }

  lemma Chain(a: Moment, b: Moment, c: Moment, e: Option<Bytes>, f: Option<Bytes>, ok: bool)
    requires a.Valid() && b.Valid() && c.Valid() && Emits(a, b, e, true) && Emits(b, c, f, ok)
    ensures Emits(a, c, Append(e, f), ok)
  {
    if !a.sizing {
      assert c.bytes[..a.at] == c.bytes[..b.at][..a.at];
      assert b.bytes[..b.at][..a.at] == b.bytes[..a.at];
      if ok {
        assert b.bytes[..b.at] == a.bytes[..a.at] + e.value;
        assert b.bytes[c.at..] == a.bytes[c.at..];
        assert c.bytes == a.bytes[..a.at] + (e.value + f.value) + a.bytes[c.at..];
      }
    }
  }

  lemma Broken(a: Moment, b: Moment, e: Option<Bytes>, f: Option<Bytes>)
    requires a.Valid() && b.Valid() && Emits(a, b, e, false)
    ensures Emits(a, b, Append(e, f), false)
  {
  }

  lemma Nothing(a: Moment)
    requires a.Valid()
    ensures Emits(a, a, Some([]), true)
  {
    if !a.sizing {
      assert a.bytes == a.bytes[..a.at] + [] + a.bytes[a.at..];
    }
  }

  lemma Wrote(a: Moment, b: Moment, data: Bytes)
    requires a.Valid()
    requires b == if a.sizing then a.(written := a.written + |data|)
                  else a.(written := a.written + |data|, at := a.at + |data|, bytes := b.bytes)
    requires !a.sizing ==> a.written + |data| <= a.max
    requires !a.sizing ==> b.bytes == if data == [] then a.bytes else a.bytes[..a.at] + data + a.bytes[b.at..]
    ensures b.Valid() && Emits(a, b, Some(data), true)
  {
    if !a.sizing {
      if data == [] {
        assert a.bytes == a.bytes[..a.at] + [] + a.bytes[a.at..];
      }
      assert b.bytes[..a.at] == a.bytes[..a.at];
      assert b.bytes[a.Limit()..] == a.bytes[a.Limit()..];
    }
  }

  lemma Failed(a: Moment, e: Option<Bytes>)
    requires a.Valid() && e.None?
    ensures Emits(a, a, e, false)
  {
  }

  class OStream {
    var sizing: bool
    var buf: array<Byte>
    var state: nat
    var maxSize: nat
    var bytesWritten: nat

    ghost function Now(): Moment
      reads this, buf
    {
      Moment(sizing, buf[..], state, maxSize, bytesWritten)
    }

    ghost predicate Valid()
      reads this, buf
    {
      Now().Valid()
    }

    /** PB_OSTREAM_SIZING. */
    constructor Sizing()
      ensures Valid() && sizing && bytesWritten == 0 && fresh(buf)
    {
      sizing := true;
      buf := new Byte[0];
      state, maxSize, bytesWritten := 0, 0, 0;
    }

    /** pb_ostream_from_buffer. */
    constructor FromBuffer(dest: array<Byte>)
      ensures Valid() && !sizing && buf == dest && state == 0 && maxSize == dest.Length && bytesWritten == 0
    {
      sizing := false;
      buf := dest;
      state, maxSize, bytesWritten := 0, dest.Length, 0;
    }

    /** buf_write. */
    method BufWrite(data: Bytes)
      requires state + |data| <= buf.Length
      modifies this`state, buf
      ensures state == old(state) + |data|
      ensures buf[..] == old(buf[..])[..old(state)] + data + old(buf[..])[state..]
    {
      var dest := state;
      state := dest + |data|;
      for i := 0 to |data|
        modifies buf
        invariant forall j :: 0 <= j < buf.Length ==>
                    buf[j] == if dest <= j < dest + i then data[j - dest] else old(buf[j])
      {
        buf[dest + i] := data[i];
      }
    }

    /** pb_write. */
    method Write(data: Bytes) returns (st: Status)
      requires Valid()
      modifies this`state, this`bytesWritten, buf
      ensures Valid() && (st == Done || st == StreamFull)
      ensures Emits(old(Now()), Now(), Some(data), st == Done)
    {
      if |data| > 0 && !sizing {
        if bytesWritten + |data| > maxSize {
          return StreamFull;
        }
        BufWrite(data);
      }
      bytesWritten := bytesWritten + |data|;
      st := Done;
      Wrote(old(Now()), Now(), data);
    }

    /** pb_write with a null buffer, on a sizing stream. */
    method Count(n: nat)
      requires Valid() && sizing
      modifies this`bytesWritten
      ensures Valid() && Now() == old(Now()).(written := old(bytesWritten) + n)
    {
      bytesWritten := bytesWritten + n;
    }
  }

  /** pb_encode_varint. */
  method EncodeVarint(stream: OStream, value: nat) returns (st: Status)
    requires stream.Valid() && value < TWO_64
    modifies stream, stream.buf
    ensures stream.buf == old(stream.buf) && stream.Valid() && (st == Done || st == StreamFull)
    ensures Emits(old(stream.Now()), stream.Now(), Some(EncVarint(value)), st == Done)
  {
    hide Emits;
    if value <= 0x7F {
      st := stream.Write([value]);
      return;
    }
    var buffer := new Byte[10];
    var i := FillVarint(buffer, value);
    st := stream.Write(buffer[..i]);
  }

  /** The bytes in `done`, with the rest of the number still to come, or with the last top bit set. */
  predicate Filled(done: Bytes, v: nat, value: nat)
  {
    if v > 0 then done + EncVarint(v) == EncVarint(value)
    else done != [] && done[|done| - 1] >= 128
         && done[..|done| - 1] + [done[|done| - 1] - 128] == EncVarint(value)
  }

  lemma FillStep(done: Bytes, v: nat, value: nat)
    requires v > 0 && value < TWO_64 && Filled(done, v, value)
    ensures |done| < 10 && Filled(done + [v % 128 + 128], v / 128, value)
  {
    EncSizes(value);
    assert |done + EncVarint(v)| == |done| + |EncVarint(v)|;
    if v >= 128 {
      assert done + [v % 128 + 128] + EncVarint(v / 128) == done + EncVarint(v);
    } else {
      assert (done + [v + 128])[..|done|] == done;
    }
  }

  /** The loop of pb_encode_varint: seven bits a byte, the top bit cleared in the last one. */
  method FillVarint(buffer: array<Byte>, value: nat) returns (i: nat)
    requires buffer.Length == 10 && 0x7F < value < TWO_64
    modifies buffer
    ensures i <= 10 && buffer[..i] == EncVarint(value)
  {
    hide EncVarint, Filled;
    i := 0;
    var v: nat := value;
    FillStart(value);
    while v > 0
      invariant 0 <= i <= 10 && Filled(buffer[..i], v, value)
    {
      ghost var before := buffer[..i];
      FillStep(before, v, value);
      buffer[i] := v % 128 + 128;
      assert buffer[..i + 1] == before + [v % 128 + 128];
      v := v / 128;
      i := i + 1;
    }
    FillEnd(buffer[..i], value);
    ghost var before := buffer[..i];
    buffer[i - 1] := buffer[i - 1] - 128;
    assert buffer[..i] == before[..i - 1] + [before[i - 1] - 128];
  }

  lemma FillStart(value: nat)
    requires value > 0
    ensures Filled([], value, value)
  {
    assert [] + EncVarint(value) == EncVarint(value);
  }

  lemma FillEnd(done: Bytes, value: nat)
    requires Filled(done, 0, value)
    ensures done != [] && done[|done| - 1] >= 128
    ensures done[..|done| - 1] + [done[|done| - 1] - 128] == EncVarint(value)
  {
  }

  /** pb_encode_svarint: the 64-bit shift and complement compute the zigzag code. */
  method EncodeSvarint(stream: OStream, value: int) returns (st: Status)
    requires stream.Valid() && -TWO_63 <= value < TWO_63
    modifies stream, stream.buf
    ensures stream.buf == old(stream.buf) && stream.Valid() && (st == Done || st == StreamFull)
    ensures Emits(old(stream.Now()), stream.Now(), Some(EncVarint(ZigZag(value))), st == Done)
  {
    var shifted := value % TWO_64 * 2 % TWO_64;
    var zigzagged := if value < 0 then TWO_64 - 1 - shifted else shifted;
    assert zigzagged == ZigZag(value) by {
      if value < 0 {
        assert value % TWO_64 == value + TWO_64;
        assert (2 * value + TWO_64) + TWO_64 == (value + TWO_64) * 2;
      }
    }
    st := EncodeVarint(stream, zigzagged);
  }

  /** pb_encode_fixed32. */
  method EncodeFixed32(stream: OStream, v: nat) returns (st: Status)
    requires stream.Valid() && v < TWO_32
    modifies stream, stream.buf
    ensures stream.buf == old(stream.buf) && stream.Valid() && (st == Done || st == StreamFull)
    ensures Emits(old(stream.Now()), stream.Now(), Some(LittleBytes(v, 4)), st == Done)
  {
    var bytes := [v % 256, v / 0x100 % 256, v / 0x1_0000 % 256, v / 0x100_0000 % 256];
    Four(v);
    st := stream.Write(bytes);
  }

  lemma Four(v: nat)
    ensures LittleBytes(v, 4) == [v % 256, v / 0x100 % 256, v / 0x1_0000 % 256, v / 0x100_0000 % 256]
  {
    Last(v, 4);
    Last(v / 0x100, 3);
    Last(v / 0x1_0000, 2);
    Last(v / 0x100_0000, 1);
  }

  lemma Last(v: nat, size: nat)
    requires size > 0
    ensures LittleBytes(v, size) == [v % 256] + LittleBytes(v / 256, size - 1)
  {
  }

  lemma Shifts(v: nat)
    ensures v / 0x100 / 256 == v / 0x1_0000 && v / 0x1_0000 / 256 == v / 0x100_0000
    ensures v / 0x100_0000 / 256 == v / TWO_32
  {
  }

  lemma LittleJoin(v: nat)
    ensures LittleBytes(v, 8) == LittleBytes(v, 4) + LittleBytes(v / TWO_32, 4)
  {
    hide LittleBytes;
    Shifts(v);
    Last(v, 8);
    Last(v / 0x100, 7);
    Last(v / 0x1_0000, 6);
    Last(v / 0x100_0000, 5);
    Four(v);
  }

  /** pb_encode_fixed64. */
  method EncodeFixed64(stream: OStream, v: nat) returns (st: Status)
    requires stream.Valid() && v < TWO_64
    modifies stream, stream.buf
    ensures stream.buf == old(stream.buf) && stream.Valid() && (st == Done || st == StreamFull)
    ensures Emits(old(stream.Now()), stream.Now(), Some(LittleBytes(v, 8)), st == Done)
  {
    var w := v / TWO_32;
    var bytes := [v % 256, v / 0x100 % 256, v / 0x1_0000 % 256, v / 0x100_0000 % 256,
                  w % 256, w / 0x100 % 256, w / 0x1_0000 % 256, w / 0x100_0000 % 256];
    Four(v);
    Four(w);
    LittleJoin(v);
    st := stream.Write(bytes);
  }

  // ----- Structs as C lays them out -----

  /** An encoding that exists has a length that fits size_t. */
  predicate Sized(e: Option<Bytes>)
  {
    e.Some? ==> |e.value| <= SIZE_MAX
  }

  predicate TypedNumber(f: Field, n: int)
  {
    Packable(f.lt) && (f.lt in {VARINT, UVARINT, SVARINT} && IntegerSize(f.dataSize) ==> InRange(f, n))
  }

  /** A value a field encoder may be called on: a null pointer only where it is looked at before use. */
  ghost predicate TypedValue(env: Env, f: Field, v: Value)
    decreases v, 0
  {
    match v
    case Num(n) => TypedNumber(f, n)
    case At(a, n) => f.at == PTR && 0 < a < TWO_64 && TypedNumber(f, n)
    case Blob(bs) => f.lt in {BYTES, STRING, FIXED_LENGTH_BYTES} && |bs| <= SIZE_MAX
    case Msg(slots) => f.lt == SUBMESSAGE && Typed(env, f.sub, slots) && Sized(EncMsg(env, f.sub, slots))
    case Null => f.at == PTR && f.lt in {BYTES, STRING}
  }

  ghost predicate TypedSlot(env: Env, f: Field, slot: Slot)
    decreases slot
  {
    match slot
    case Plain(v) => (v.Null? && f.at == PTR) || TypedValue(env, f, v)
    case Opt(_, v) => TypedValue(env, f, v)
    case Arr(items) =>
      && Sized(EncItems(f, items))
      && forall i :: 0 <= i < |items| ==> TypedValue(env, f, items[i]) && (Packable(f.lt) ==> items[i].Num?)
    case Union(which, u) => which == f.tag ==> TypedValue(env, f, u)
    case Shared => true
  }

  /** Every member holds a value of its C type. The bounds the encoder checks itself are not part of it. */
  ghost predicate Typed(env: Env, id: nat, slots: seq<Slot>)
    decreases slots
  {
    && id < |env| && |slots| == |env[id]|
    && forall k :: 0 <= k < |slots| ==> env[id][k].tag < TWO_32 && TypedSlot(env, env[id][k], slots[Loc(env[id], k)])
  }

  // ----- Single values -----

  /** pb_encode_tag. */
  method EncodeTag(stream: OStream, wt: nat, tag: nat) returns (st: Status)
    requires stream.Valid() && tag < TWO_32 && wt < 8
    modifies stream, stream.buf
    ensures stream.buf == old(stream.buf) && stream.Valid() && (st == Done || st == StreamFull)
    ensures Emits(old(stream.Now()), stream.Now(), Some(EncTag(tag, wt)), st == Done)
  {
    st := EncodeVarint(stream, tag * 8 + wt);
  }

  /** pb_encode_string. */
  method EncodeString(stream: OStream, data: Bytes) returns (st: Status)
    requires stream.Valid() && |data| <= SIZE_MAX
    modifies stream, stream.buf
    ensures stream.buf == old(stream.buf) && stream.Valid() && (st == Done || st == StreamFull)
    ensures Emits(old(stream.Now()), stream.Now(), Some(Prefixed(data)), st == Done)
  {
    hide Emits, EncVarint;
    ghost var a := stream.Now();
    st := EncodeVarint(stream, |data|);
    if st != Done {
      Broken(a, stream.Now(), Some(EncVarint(|data|)), Some(data));
      return;
    }
    ghost var b := stream.Now();
    st := stream.Write(data);
    Chain(a, b, stream.Now(), Some(EncVarint(|data|)), Some(data), st == Done);
  }

  lemma {:induction false} StringLengthStep(bs: Bytes, max: nat, n: nat)
    requires n <= |bs| && n <= max
    requires forall i :: 0 <= i < n ==> bs[i] != 0
    ensures StringLength(bs, max) == n + StringLength(bs[n..], max - n)
    decreases n
  {
    if n > 0 {
      StringLengthStep(bs[1..], max - 1, n - 1);
      assert bs[1..][n - 1..] == bs[n..];
    } else {
      assert bs[0..] == bs;
    }
  }

  /** The measuring loop of pb_enc_string. */
  method MeasureString(bs: Bytes, max: nat) returns (size: nat)
    ensures size == StringLength(bs, max)
  {
    size := 0;
    while size < max && size < |bs| && bs[size] != 0
      invariant size <= |bs| && size <= max
      invariant forall i :: 0 <= i < size ==> bs[i] != 0
    {
      size := size + 1;
    }
    StringLengthStep(bs, max, size);
  }

  /** pb_enc_bytes, pb_enc_string and pb_enc_fixed_length_bytes. */
  method EncodeBlob(stream: OStream, f: Field, bs: Bytes) returns (st: Status)
    requires stream.Valid() && |bs| <= SIZE_MAX
    modifies stream, stream.buf
    ensures stream.buf == old(stream.buf) && stream.Valid() && st != SizeChanged
    ensures Emits(old(stream.Now()), stream.Now(), EncBlob(f, bs), st == Done)
  {
    hide Emits, Prefixed, StringLength;
    Failed(stream.Now(), None);
    if f.lt == BYTES {
      var allocsize := |bs| + BYTES_HEADER;
      if f.at == STATIC && allocsize > f.dataSize {
        return BytesTooLong;
      }
      st := EncodeString(stream, bs);
    } else if f.lt == STRING {
      var size := MeasureString(bs, if f.at == STATIC then f.dataSize else |bs|);
      st := EncodeString(stream, bs[..size]);
    } else if f.lt == FIXED_LENGTH_BYTES && |bs| == f.dataSize {
      st := EncodeString(stream, bs);
    } else {
      st := BadField;
    }
  }

  /** pb_enc_bool, pb_enc_varint, pb_enc_uvarint, pb_enc_svarint, pb_enc_fixed32 and pb_enc_fixed64. */
  method EncodeNumber(stream: OStream, f: Field, n: int) returns (st: Status)
    requires stream.Valid()
    requires f.lt in {VARINT, UVARINT, SVARINT} && IntegerSize(f.dataSize) ==> InRange(f, n)
    modifies stream, stream.buf
    ensures stream.buf == old(stream.buf) && stream.Valid() && st != SizeChanged
    ensures Emits(old(stream.Now()), stream.Now(), EncNumber(f, n), st == Done)
  {
    hide Emits, EncVarint, LittleBytes;
    Failed(stream.Now(), None);
    if f.lt == BOOL {
      st := EncodeVarint(stream, if n != 0 then 1 else 0);
    } else if f.lt == FIXED32 {
      st := EncodeFixed32(stream, n % TWO_32);
    } else if f.lt == FIXED64 {
      st := EncodeFixed64(stream, n % TWO_64);
    } else if !Packable(f.lt) {
      st := BadField;
    } else if !IntegerSize(f.dataSize) {
      st := BadSize;
    } else if f.lt == SVARINT {
      st := EncodeSvarint(stream, n);
    } else {
      st := EncodeVarint(stream, n % TWO_64);
    }
  }

  /** Calling through PB_ENCODERS for anything but a submessage. */
  method EncodeBasic(stream: OStream, env: Env, f: Field, v: Value) returns (st: Status)
    requires stream.Valid() && TypedValue(env, f, v)
    modifies stream, stream.buf
    ensures stream.buf == old(stream.buf) && stream.Valid() && st != SizeChanged
    ensures Emits(old(stream.Now()), stream.Now(), EncBasic(f, v), st == Done)
  {
    hide Emits, EncNumber, EncBlob, Typed, EncMsg, Prefixed;
    Failed(stream.Now(), None);
    match v {
      case Num(n) => st := EncodeNumber(stream, f, n);
      case At(_, n) => st := EncodeNumber(stream, f, n);
      case Blob(bs) => st := EncodeBlob(stream, f, bs);
      case Null => st := EncodeString(stream, []);
      case Msg(_) => st := BadField;
    }
  }

  // ----- Packed arrays -----

  lemma {:induction false} FixedLength(f: Field, items: seq<Value>)
    requires f.lt in {FIXED32, FIXED64} && forall i :: 0 <= i < |items| ==> items[i].Num?
    ensures EncItems(f, items).Some?
    ensures |EncItems(f, items).value| == (if f.lt == FIXED32 then 4 else 8) * |items|
    decreases items
  {
    if items != [] {
      FixedLength(f, items[1..]);
    }
  }

  /** What is left to write after the first `i` items, given that `done` has been written. */
  lemma ItemsStep(f: Field, items: seq<Value>, i: nat, done: Bytes)
    requires i < |items|
    requires EncItems(f, items) == Append(Some(done), EncItems(f, items[i..]))
    ensures EncItems(f, items) == Append(Append(Some(done), EncBasic(f, items[i])), EncItems(f, items[i + 1..]))
  {
    hide EncBasic;
    assert items[i..][0] == items[i] && items[i..][1..] == items[i + 1..];
    var e, r := EncBasic(f, items[i]), EncItems(f, items[i + 1..]);
    if e.Some? && r.Some? {
      assert done + (e.value + r.value) == done + e.value + r.value;
    }
  }

  /** One loop over the items of an array, on a sizing stream or on the real one. */
  method EncodeItems(stream: OStream, env: Env, f: Field, items: seq<Value>) returns (st: Status)
    requires stream.Valid() && forall i :: 0 <= i < |items| ==> TypedValue(env, f, items[i])
    modifies stream, stream.buf
    ensures stream.buf == old(stream.buf) && stream.Valid() && st != SizeChanged
    ensures Emits(old(stream.Now()), stream.Now(), EncItems(f, items), st == Done)
  {
    hide Emits, EncBasic, TypedValue;
    ghost var a := stream.Now();
    ghost var done: Bytes := [];
    Nothing(a);
    assert items[0..] == items;
    if EncItems(f, items).Some? {
      assert [] + EncItems(f, items).value == EncItems(f, items).value;
    }
    for i := 0 to |items|
      invariant stream.buf == old(stream.buf) && stream.Valid()
      invariant Emits(a, stream.Now(), Some(done), true)
      invariant EncItems(f, items) == Append(Some(done), EncItems(f, items[i..]))
    {
      ghost var b := stream.Now();
      st := EncodeBasic(stream, env, f, items[i]);
      ItemsStep(f, items, i, done);
      Chain(a, b, stream.Now(), Some(done), EncBasic(f, items[i]), st == Done);
      if st != Done {
        Broken(a, stream.Now(), Append(Some(done), EncBasic(f, items[i])), EncItems(f, items[i + 1..]));
        return;
      }
      assert EncBasic(f, items[i]).Some? by {
        Emitted(a, stream.Now(), Append(Some(done), EncBasic(f, items[i])));
      }
      done := done + EncBasic(f, items[i]).value;
    }
    assert items[|items|..] == [] && done + [] == done;
    st := Done;
  }

  lemma Emitted(a: Moment, b: Moment, e: Option<Bytes>)
    requires a.Valid() && b.Valid() && Emits(a, b, e, true)
    ensures e.Some? && b.written == a.written + |e.value|
  {
  }

  /** The length of a packed payload: computed for fixed widths, found by a sizing pass otherwise. */
  method PackedSize(env: Env, f: Field, items: seq<Value>) returns (st: Status, size: nat)
    requires f.tag < TWO_32 && Packable(f.lt) && Sized(EncItems(f, items))
    requires forall i :: 0 <= i < |items| ==> TypedValue(env, f, items[i]) && items[i].Num?
    ensures st != SizeChanged && (st == Done <==> EncItems(f, items).Some?)
    ensures st == Done ==> size == |EncItems(f, items).value|
  {
    hide Emits, EncItems, TypedValue;
    st, size := Done, 0;
    if f.lt == FIXED32 {
      FixedLength(f, items);
      size := 4 * |items|;
    } else if f.lt == FIXED64 {
      FixedLength(f, items);
      size := 8 * |items|;
    } else {
      var sizestream := new OStream.Sizing();
      ghost var z := sizestream.Now();
      st := EncodeItems(sizestream, env, f, items);
      if st != Done {
        Unsized(z, sizestream.Now(), EncItems(f, items));
      } else {
        Emitted(z, sizestream.Now(), EncItems(f, items));
        size := sizestream.bytesWritten;
      }
    }
  }

  /** The packed branch of encode_array: the payload is measured first, then written. */
  method EncodePacked(stream: OStream, env: Env, f: Field, items: seq<Value>) returns (st: Status)
    requires stream.Valid() && f.tag < TWO_32 && Packable(f.lt) && Sized(EncItems(f, items))
    requires forall i :: 0 <= i < |items| ==> TypedValue(env, f, items[i]) && items[i].Num?
    modifies stream, stream.buf
    ensures stream.buf == old(stream.buf) && stream.Valid() && st != SizeChanged
    ensures Emits(old(stream.Now()), stream.Now(), EncPacked(f, items), st == Done)
  {
    hide Emits, EncItems, EncTag, EncVarint, TypedValue;
    ghost var a := stream.Now();
    ghost var tag, body := Some(EncTag(f.tag, WT_STRING)), EncItems(f, items);
    st := EncodeTag(stream, WT_STRING, f.tag);
    ghost var b := stream.Now();
    PackedParts(f, items);
    if st != Done {
      Broken(a, b, tag, PackedRest(f, items));
      return;
    }
    var size;
    st, size := PackedSize(env, f, items);
    if st != Done {
      Failed(b, None);
      Chain(a, b, b, tag, None, false);
      return;
    }
    st := EncodeVarint(stream, size);
    ghost var c := stream.Now();
    Chain(a, b, c, tag, Some(EncVarint(size)), st == Done);
    if st != Done {
      Broken(a, c, Append(tag, Some(EncVarint(size))), body);
      return;
    }
    if stream.sizing {
      stream.Count(size);
      Counted(c, stream.Now(), body);
      st := Done;
    } else {
      st := EncodeItems(stream, env, f, items);
    }
    Chain(a, c, stream.Now(), Append(tag, Some(EncVarint(size))), body, st == Done);
  }

  function PackedRest(f: Field, items: seq<Value>): Option<Bytes>
  {
    match EncItems(f, items) case None => None case Some(body) => Some(Prefixed(body))
  }

  lemma PackedParts(f: Field, items: seq<Value>)
    ensures EncPacked(f, items) == Append(Some(EncTag(f.tag, WT_STRING)), PackedRest(f, items))
    ensures var body := EncItems(f, items);
            body.Some? ==>
              EncPacked(f, items) == Append(Append(Some(EncTag(f.tag, WT_STRING)), Some(EncVarint(|body.value|))), body)
  {
    hide EncItems, EncTag, EncVarint;
    var body := EncItems(f, items);
    if body.Some? {
      var t, n := EncTag(f.tag, WT_STRING), EncVarint(|body.value|);
      assert t + (n + body.value) == t + n + body.value;
    }
  }

  /** A sizing pass fails only when nothing can be written at all. */
  lemma Unsized(a: Moment, b: Moment, e: Option<Bytes>)
    requires a.Valid() && b.Valid() && a.sizing && Emits(a, b, e, false)
    ensures e.None?
  {
  }

  lemma Counted(a: Moment, b: Moment, e: Option<Bytes>)
    requires a.Valid() && b.Valid() && a.sizing && e.Some? && b == a.(written := a.written + |e.value|)
    ensures Emits(a, b, e, true)
  {
  }

  // ----- Submessages, fields and messages -----

  /** pb_encode_submessage: a sizing pass, the length, then the real pass on a substream that may take
      exactly that many bytes. The two passes never disagree. */
  method EncodeSubmessage(stream: OStream, env: Env, id: nat, slots: seq<Slot>) returns (st: Status)
    requires stream.Valid() && Typed(env, id, slots) && SharedSizes(env) && Sized(EncMsg(env, id, slots))
    modifies stream, stream.buf
    ensures stream.buf == old(stream.buf) && stream.Valid() && st != SizeChanged
    ensures Emits(old(stream.Now()), stream.Now(), EncDelimited(env, id, slots), st == Done)
    decreases slots, 3
  {
    hide Emits, EncMsg, EncVarint, Typed, SharedSizes;
    ghost var a := stream.Now();
    ghost var body := EncMsg(env, id, slots);
    var substream := new OStream.Sizing();
    ghost var z := substream.Now();
    st := Encode(substream, env, id, slots);
    if st != Done {
      Unsized(z, substream.Now(), body);
      Failed(a, None);
      return;
    }
    Emitted(z, substream.Now(), body);
    var size := substream.bytesWritten;
    assert size == |body.value|;
    ghost var prefix := Some(EncVarint(size));
    st := EncodeVarint(stream, size);
    ghost var b := stream.Now();
    if st != Done {
      Broken(a, b, prefix, body);
      return;
    }
    if stream.sizing {
      stream.Count(size);
      Counted(b, stream.Now(), body);
      Chain(a, b, stream.Now(), prefix, body, true);
      return Done;
    }
    if stream.bytesWritten + size > stream.maxSize {
      TooLong(b, body);
      Chain(a, b, b, prefix, body, false);
      return StreamFull;
    }
    st := EncodeOnSubstream(stream, substream, env, id, slots, size);
    Chain(a, b, stream.Now(), prefix, body, true);
  }

  /** The second pass of pb_encode_submessage. */
  method EncodeOnSubstream(stream: OStream, substream: OStream, env: Env, id: nat, slots: seq<Slot>, size: nat)
    returns (st: Status)
    requires stream.Valid() && Typed(env, id, slots) && SharedSizes(env) && stream != substream
    requires !stream.sizing && stream.bytesWritten + size <= stream.maxSize
    requires EncMsg(env, id, slots).Some? && size == |EncMsg(env, id, slots).value|
    modifies stream, stream.buf, substream
    ensures stream.buf == old(stream.buf) && stream.Valid() && st == Done
    ensures Emits(old(stream.Now()), stream.Now(), EncMsg(env, id, slots), true)
    decreases slots, 2, 1
  {
    hide Emits, EncMsg, Typed, SharedSizes;
    ghost var b := stream.Now();
    substream.sizing := false;
    substream.buf := stream.buf;
    substream.state := stream.state;
    substream.maxSize := size;
    substream.bytesWritten := 0;
    ghost var y := substream.Now();
    SameBytes(b, y, size);
    st := Encode(substream, env, id, slots);
    stream.bytesWritten := stream.bytesWritten + substream.bytesWritten;
    stream.state := substream.state;
    Returned(b, y, substream.Now(), EncMsg(env, id, slots), st == Done);
    assert stream.Now() == b.(written := b.written + size, at := b.at + size, bytes := substream.Now().bytes);
    if substream.bytesWritten != size {
      return SizeChanged;
    }
  }

  lemma TooLong(a: Moment, e: Option<Bytes>)
    requires a.Valid() && !a.sizing && e.Some? && a.written + |e.value| > a.max
    ensures Emits(a, a, e, false)
  {
  }

  /** The substream starts where the stream stands, with room for exactly `size` bytes. */
  lemma SameBytes(b: Moment, y: Moment, size: nat)
    requires b.Valid() && !b.sizing && b.written + size <= b.max
    requires y == Moment(false, b.bytes, b.at, size, 0)
    ensures y.Valid()
  {
  }

  /** The pass on the substream always succeeds and fills it. */
  lemma Returned(b: Moment, y: Moment, z: Moment, e: Option<Bytes>, ok: bool)
    requires b.Valid() && !b.sizing && e.Some? && b.written + |e.value| <= b.max
    requires y == Moment(false, b.bytes, b.at, |e.value|, 0) && z.Valid() && Emits(y, z, e, ok)
    ensures ok && z.written == |e.value| && z.at == b.at + |e.value|
    ensures var c := b.(written := b.written + |e.value|, at := b.at + |e.value|, bytes := z.bytes);
            c.Valid() && Emits(b, c, e, true)
  {
    var c := b.(written := b.written + |e.value|, at := b.at + |e.value|, bytes := z.bytes);
    Wrote(b, c, e.value) by {
      if e.value == [] {
        assert z.bytes == b.bytes[..b.at] + [] + b.bytes[b.at..];
      }
    }
  }

  /** Calling through PB_ENCODERS. */
  method EncodeValue(stream: OStream, env: Env, f: Field, v: Value) returns (st: Status)
    requires stream.Valid() && TypedValue(env, f, v) && SharedSizes(env)
    modifies stream, stream.buf
    ensures stream.buf == old(stream.buf) && stream.Valid() && st != SizeChanged
    ensures Emits(old(stream.Now()), stream.Now(), EncValue(env, f, v), st == Done)
    decreases v, 0
  {
    hide Emits, EncMsg, EncBasic, Typed, SharedSizes, Prefixed;
    if f.lt != SUBMESSAGE {
      st := EncodeBasic(stream, env, f, v);
    } else if v.Msg? {
      st := EncodeSubmessage(stream, env, f.sub, v.slots);
    } else {
      st := BadField;
      Failed(stream.Now(), None);
    }
  }

  /** pb_encode_tag_for_field and the value. */
  method EncodeRecord(stream: OStream, env: Env, f: Field, v: Value) returns (st: Status)
    requires stream.Valid() && TypedValue(env, f, v) && SharedSizes(env) && f.tag < TWO_32
    modifies stream, stream.buf
    ensures stream.buf == old(stream.buf) && stream.Valid() && st != SizeChanged
    ensures Emits(old(stream.Now()), stream.Now(), EncRecord(env, f, v), st == Done)
    decreases v, 1
  {
    hide Emits, EncValue, TypedValue, SharedSizes, EncTag;
    ghost var a := stream.Now();
    ghost var tag := Some(TagOf(f));
    st := EncodeTag(stream, WireType(f.lt), f.tag);
    ghost var b := stream.Now();
    if st != Done {
      Broken(a, b, tag, EncValue(env, f, v));
      return;
    }
    st := EncodeValue(stream, env, f, v);
    Chain(a, b, stream.Now(), tag, EncValue(env, f, v), st == Done);
  }

  lemma RecordsStep(env: Env, f: Field, items: seq<Value>, i: nat, done: Bytes)
    requires i < |items|
    requires EncRecords(env, f, items) == Append(Some(done), EncRecords(env, f, items[i..]))
    ensures EncRecords(env, f, items)
            == Append(Append(Some(done), EncRecord(env, f, items[i])), EncRecords(env, f, items[i + 1..]))
  {
    hide EncRecord;
    assert items[i..][0] == items[i] && items[i..][1..] == items[i + 1..];
    var e, r := EncRecord(env, f, items[i]), EncRecords(env, f, items[i + 1..]);
    if e.Some? && r.Some? {
      assert done + (e.value + r.value) == done + e.value + r.value;
    }
  }

  /** The unpacked branch of encode_array. */
  method EncodeRecords(stream: OStream, env: Env, f: Field, items: seq<Value>) returns (st: Status)
    requires stream.Valid() && SharedSizes(env) && f.tag < TWO_32
    requires forall i :: 0 <= i < |items| ==> TypedValue(env, f, items[i])
    modifies stream, stream.buf
    ensures stream.buf == old(stream.buf) && stream.Valid() && st != SizeChanged
    ensures Emits(old(stream.Now()), stream.Now(), EncRecords(env, f, items), st == Done)
    decreases items, 0
  {
    hide Emits, EncRecord, TypedValue, SharedSizes;
    ghost var a := stream.Now();
    ghost var done: Bytes := [];
    Nothing(a);
    assert items[0..] == items;
    if EncRecords(env, f, items).Some? {
      assert [] + EncRecords(env, f, items).value == EncRecords(env, f, items).value;
    }
    for i := 0 to |items|
      invariant stream.buf == old(stream.buf) && stream.Valid()
      invariant Emits(a, stream.Now(), Some(done), true)
      invariant EncRecords(env, f, items) == Append(Some(done), EncRecords(env, f, items[i..]))
    {
      ghost var b := stream.Now();
      st := EncodeRecord(stream, env, f, items[i]);
      RecordsStep(env, f, items, i, done);
      Chain(a, b, stream.Now(), Some(done), EncRecord(env, f, items[i]), st == Done);
      if st != Done {
        Broken(a, stream.Now(), Append(Some(done), EncRecord(env, f, items[i])), EncRecords(env, f, items[i + 1..]));
        return;
      }
      assert EncRecord(env, f, items[i]).Some? by {
        Emitted(a, stream.Now(), Append(Some(done), EncRecord(env, f, items[i])));
      }
      done := done + EncRecord(env, f, items[i]).value;
    }
    assert items[|items|..] == [] && done + [] == done;
    st := Done;
  }

  /** encode_array. */
  method EncodeArray(stream: OStream, env: Env, f: Field, items: seq<Value>) returns (st: Status)
    requires stream.Valid() && SharedSizes(env) && f.tag < TWO_32 && Sized(EncItems(f, items))
    requires forall i :: 0 <= i < |items| ==> TypedValue(env, f, items[i]) && (Packable(f.lt) ==> items[i].Num?)
    modifies stream, stream.buf
    ensures stream.buf == old(stream.buf) && stream.Valid() && st != SizeChanged
    ensures Emits(old(stream.Now()), stream.Now(), EncArray(env, f, items), st == Done)
    decreases items, 1
  {
    hide Emits, EncRecords, EncPacked, TypedValue, SharedSizes, EncItems;
    if |items| == 0 {
      Nothing(stream.Now());
      return Done;
    }
    if f.at != PTR && |items| > f.arraySize {
      Failed(stream.Now(), None);
      return ArrayTooLong;
    }
    if Packable(f.lt) {
      st := EncodePacked(stream, env, f, items);
    } else {
      st := EncodeRecords(stream, env, f, items);
    }
  }

  /** The byte-by-byte comparison with zero. */
  method AllZero(x: nat, size: nat) returns (zero: bool)
    ensures zero == ZeroBytes(x, size)
  {
    var rest := x;
    for i := 0 to size
      invariant ZeroBytes(x, size) == ZeroBytes(rest, size - i)
    {
      if rest % 256 != 0 {
        return false;
      }
      rest := rest / 256;
    }
    zero := true;
  }

  /** pb_check_proto3_default_value. */
  method CheckDefault(env: Env, f: Field, slot: Slot) returns (zero: bool)
    requires SharedSizes(env)
    ensures zero == IsDefault(env, f, slot)
    decreases slot
  {
    hide ZeroBytes, SharedSizes;
    match slot {
      case Plain(v) =>
        if f.ht != OPTIONAL {
          zero := false;
        } else if f.at == PTR {
          // Only pointers to what cannot be packed are compared with null as pointers.
          if Packable(f.lt) && v.At? {
            zero := AllZero(v.addr, f.dataSize);
          } else {
            zero := v.Null?;
          }
        } else {
          match v {
            case Num(n) => zero := AllZero(n % TWO_64, f.dataSize);
            case At(_, _) => zero := false;
            case Blob(bs) =>
              zero := if f.lt == BYTES then bs == []
                      else if f.lt == STRING then bs == [] || bs[0] == 0
                      else f.dataSize == 0;
            case Msg(slots) =>
              if f.sub < |env| && |slots| == |env[f.sub]| {
                zero := CheckMembers(env, f.sub, slots);
              } else {
                zero := false;
              }
            case Null => zero := true;
          }
        }
      case Opt(has, _) => zero := !has;
      case Arr(items) => zero := !FixedCount(f) && items == [];
      case Union(which, _) => zero := which == 0;
      case Shared => zero := false;
    }
  }

  /** The walk over a submessage. */
  method CheckMembers(env: Env, id: nat, slots: seq<Slot>) returns (zero: bool)
    requires SharedSizes(env) && id < |env| && |slots| == |env[id]|
    ensures zero == forall k :: 0 <= k < |slots| ==> IsDefault(env, env[id][k], slots[Loc(env[id], k)])
    decreases slots
  {
    hide IsDefault, SharedSizes, Offset;
    TableShared(env, id);
    var F := env[id];
    var iter := new FieldIter(F);
    if |F| == 0 {
      return true;
    }
    ghost var n := 0;
    var more := true;
    while more
      invariant iter.Valid() && fresh(iter) && iter.start == F
      invariant n <= |F| && (if more then iter.pos == n < |F| else n == |F|)
      invariant forall k :: 0 <= k < n ==> IsDefault(env, F[k], slots[Loc(F, k)])
      decreases |F| - n
    {
      zero := CheckDefault(env, F[iter.pos], slots[Loc(F, iter.pos)]);
      if !zero {
        return;
      }
      more := iter.Next();
      n := n + 1;
    }
    zero := true;
  }

  /** encode_basic_field. */
  method EncodeSlot(stream: OStream, env: Env, f: Field, slot: Slot) returns (st: Status)
    requires stream.Valid() && TypedSlot(env, f, slot) && SharedSizes(env) && f.tag < TWO_32
    modifies stream, stream.buf
    ensures stream.buf == old(stream.buf) && stream.Valid() && st != SizeChanged
    ensures Emits(old(stream.Now()), stream.Now(), EncSlot(env, f, slot), st == Done)
    decreases slot, 0
  {
    hide Emits, EncRecord, EncArray, TypedValue, SharedSizes, IsDefault, EncItems;
    Nothing(stream.Now());
    Failed(stream.Now(), None);
    if !Shaped(f, slot) {
      return BadField;
    }
    match slot {
      case Plain(v) =>
        var implicitHas := true;
        if f.ht == OPTIONAL {
          var zero := CheckDefault(env, f, slot);
          implicitHas := !zero;
        }
        if f.at == PTR {
          implicitHas := !v.Null?;
        }
        if f.ht == REQUIRED && v.Null? {
          return MissingRequired;
        }
        PlainPresence(env, f, v);
        if f.ht == REQUIRED || implicitHas {
          st := EncodeRecord(stream, env, f, v);
        } else {
          st := Done;
        }
      case Opt(has, v) =>
        if has {
          st := EncodeRecord(stream, env, f, v);
        } else {
          st := Done;
        }
      case Arr(items) =>
        st := EncodeArray(stream, env, f, items);
      case Union(which, u) =>
        if which == f.tag {
          st := EncodeRecord(stream, env, f, u);
        } else {
          st := Done;
        }
      case Shared =>
        st := BadField;
    }
  }

  lemma PlainPresence(env: Env, f: Field, v: Value)
    requires Shaped(f, Plain(v)) && !(f.ht == REQUIRED && v.Null?)
    ensures var has := if f.at == PTR then !v.Null? else f.ht == OPTIONAL ==> !IsDefault(env, f, Plain(v));
            EncSlot(env, f, Plain(v)) == if f.ht == REQUIRED || has then EncRecord(env, f, v) else Some([])
  {
    hide EncRecord;
  }

  /** One field of pb_encode's loop: what has been written so far grows by that field. */
  method EncodeField(stream: OStream, env: Env, id: nat, slots: seq<Slot>, k: nat, ghost a: Moment, ghost was: Bytes)
    returns (st: Status, ghost done: Bytes)
    requires stream.Valid() && Typed(env, id, slots) && SharedSizes(env) && k < |slots|
    requires a.Valid() && Emits(a, stream.Now(), Some(was), true)
    requires EncFrom(env, id, slots, 0) == Append(Some(was), EncFrom(env, id, slots, k))
    modifies stream, stream.buf
    ensures stream.buf == old(stream.buf) && stream.Valid() && st != SizeChanged
    ensures st == Done ==> Emits(a, stream.Now(), Some(done), true)
    ensures st == Done ==> EncFrom(env, id, slots, 0) == Append(Some(done), EncFrom(env, id, slots, k + 1))
    ensures st != Done ==> Emits(a, stream.Now(), EncFrom(env, id, slots, 0), false)
    decreases slots, 2, 0, 0
  {
    hide Emits, EncSlot, TypedSlot, EncFrom, SharedSizes;
    done := was;
    ghost var b := stream.Now();
    var f, slot := env[id][k], slots[Loc(env[id], k)];
    ghost var e := EncSlot(env, f, slot);
    st := EncodeSlot(stream, env, f, slot);
    FieldsStep(env, id, slots, k, was);
    Chain(a, b, stream.Now(), Some(was), e, st == Done);
    if st != Done {
      Broken(a, stream.Now(), Append(Some(was), e), EncFrom(env, id, slots, k + 1));
    } else {
      Emitted(a, stream.Now(), Append(Some(was), e));
      done := was + e.value;
    }
  }

  /** pb_encode: the iterator walks the table once. */
  method Encode(stream: OStream, env: Env, id: nat, slots: seq<Slot>) returns (st: Status)
    requires stream.Valid() && Typed(env, id, slots) && SharedSizes(env)
    modifies stream, stream.buf
    ensures stream.buf == old(stream.buf) && stream.Valid() && st != SizeChanged
    ensures Emits(old(stream.Now()), stream.Now(), EncMsg(env, id, slots), st == Done)
    decreases slots, 2, 0
  {
    hide Emits, TypedSlot, EncFrom, Offset, SharedSizes, Append;
    var F := env[id];
    ghost var a := stream.Now();
    ghost var done: Bytes := [];
    Nothing(a);
    FieldsEnds(env, id, slots, []);
    TableShared(env, id);
    var iter := new FieldIter(F);
    if |F| == 0 {
      return Done;
    }
    ghost var k := 0;
    var more := true;
    while more
      invariant stream.buf == old(stream.buf) && stream.Valid() && iter.Valid() && fresh(iter) && iter.start == F
      invariant k <= |F| && (if more then iter.pos == k < |F| else k == |F|)
      invariant Emits(a, stream.Now(), Some(done), true)
      invariant EncFrom(env, id, slots, 0) == Append(Some(done), EncFrom(env, id, slots, k))
      decreases |F| - k
    {
      st, done := EncodeField(stream, env, id, slots, iter.pos, a, done);
      if st != Done {
        return;
      }
      more := iter.Next();
      k := k + 1;
    }
    FieldsEnds(env, id, slots, done);
    st := Done;
  }

  lemma FieldsEnds(env: Env, id: nat, slots: seq<Slot>, done: Bytes)
    requires id < |env| && |slots| == |env[id]|
    ensures EncMsg(env, id, slots) == EncFrom(env, id, slots, 0) == Append(Some([]), EncFrom(env, id, slots, 0))
    ensures Append(Some(done), EncFrom(env, id, slots, |slots|)) == Some(done)
  {
    hide EncSlot;
    assert done + [] == done;
    if EncFrom(env, id, slots, 0).Some? {
      assert [] + EncFrom(env, id, slots, 0).value == EncFrom(env, id, slots, 0).value;
    }
  }

  lemma TableShared(env: Env, id: nat)
    requires SharedSizes(env) && id < |env|
    ensures SharedSize(env[id])
  {
  }

  lemma FieldsStep(env: Env, id: nat, slots: seq<Slot>, k: nat, done: Bytes)
    requires id < |env| && |slots| == |env[id]| && k < |slots|
    requires EncFrom(env, id, slots, 0) == Append(Some(done), EncFrom(env, id, slots, k))
    ensures EncFrom(env, id, slots, 0)
            == Append(Append(Some(done), EncSlot(env, env[id][k], slots[Loc(env[id], k)])), EncFrom(env, id, slots, k + 1))
  {
    hide EncSlot;
    var e, r := EncSlot(env, env[id][k], slots[Loc(env[id], k)]), EncFrom(env, id, slots, k + 1);
    assert EncFrom(env, id, slots, k) == Append(e, r);
    if e.Some? && r.Some? {
      assert done + (e.value + r.value) == done + e.value + r.value;
    }
  }

  /** pb_get_encoded_size. */
  method GetEncodedSize(env: Env, id: nat, slots: seq<Slot>) returns (ok: bool, size: nat)
    requires Typed(env, id, slots) && SharedSizes(env)
    ensures ok == EncMsg(env, id, slots).Some?
    ensures ok ==> size == |EncMsg(env, id, slots).value|
  {
    var stream := new OStream.Sizing();
    var st := Encode(stream, env, id, slots);
    ok := st == Done;
    size := stream.bytesWritten;
  }

  /** pb_encode_nullterminated. */
  method EncodeNullTerminated(stream: OStream, env: Env, id: nat, slots: seq<Slot>) returns (st: Status)
    requires stream.Valid() && Typed(env, id, slots) && SharedSizes(env)
    modifies stream, stream.buf
    ensures stream.buf == old(stream.buf) && stream.Valid() && st != SizeChanged
    ensures Emits(old(stream.Now()), stream.Now(), EncTerminated(env, id, slots), st == Done)
  {
    hide Emits, EncMsg, Typed;
    ghost var a := stream.Now();
    st := Encode(stream, env, id, slots);
    ghost var b := stream.Now();
    if st != Done {
      Broken(a, b, EncMsg(env, id, slots), Some([0]));
      return;
    }
    st := stream.Write([0]);
    Chain(a, b, stream.Now(), EncMsg(env, id, slots), Some([0]), st == Done);
  }

  /** Sizing refines writing: if a sizing pass takes `z` to `z'` and a writing pass of the same thing
      takes `a` to `b`, then writing succeeds exactly when sizing does and the size found fits; it then
      writes that many bytes, and what lies behind them is untouched. */
  lemma SizingPredictsWriting(z: Moment, z': Moment, fits: bool, a: Moment, b: Moment, ok: bool, e: Option<Bytes>)
    requires z.Valid() && z'.Valid() && a.Valid() && b.Valid() && z.sizing && !a.sizing
    requires Emits(z, z', e, fits) && Emits(a, b, e, ok)
    ensures ok == (fits && z'.written - z.written <= a.max - a.written)
    ensures ok ==> b.written - a.written == z'.written - z.written == b.at - a.at
    ensures ok ==> b.bytes[b.at..] == a.bytes[b.at..] && b.bytes[..a.at] == a.bytes[..a.at]
  {
    if ok {
      var front := a.bytes[..a.at] + e.value;
      assert |front| == b.at && b.bytes == front + a.bytes[b.at..];
    }
  }
}
