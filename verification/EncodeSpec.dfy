/** What pb_encode writes, as a function of the struct; `None` when it fails whatever the stream. */
module EncodeSpec {
  import opened Bits
  import opened Varint
  import opened Schema
  import opened Wrappers
  import opened DecodeSpec

  function ZigZag(v: int): (z: nat)
  {
    if v < 0 then -2 * v - 1 else 2 * v
  }

  /** `size` bytes of `v`, least significant first. */
  function LittleBytes(v: nat, size: nat): (s: Bytes)
    ensures |s| == size
  {
    if size == 0 then [] else [v % 256] + LittleBytes(v / 256, size - 1)
  }

  /** The low `n` bytes of `x` are zero. */
  predicate ZeroBytes(x: nat, n: nat)
  {
    n == 0 || (x % 256 == 0 && ZeroBytes(x / 256, n - 1))
  }

  /** The unsigned 64-bit number a varint field is written as. */
  function WireInteger(f: Field, n: int): nat
  {
    match f.lt
    case BOOL => if n != 0 then 1 else 0
    case SVARINT => ZigZag(n)
    case _ => n % TWO_64
  }

  /** Length of a NUL-terminated string in a buffer, looking at no more than `max` bytes. */
  function StringLength(s: Bytes, max: nat): (n: nat)
    ensures n <= |s| && n <= max
  {
    if max == 0 || s == [] || s[0] == 0 then 0 else 1 + StringLength(s[1..], max - 1)
  }

  function Prefixed(s: Bytes): Bytes
  {
    EncVarint(|s|) + s
  }

  /** The entry of PB_ENCODERS for bytes, strings and fixed-length bytes. */
  function EncBlob(f: Field, bs: Bytes): Option<Bytes>
  {
    match f.lt
    case BYTES => if f.at == STATIC && |bs| + BYTES_HEADER > f.dataSize then None else Some(Prefixed(bs))
    case STRING => Some(Prefixed(bs[..StringLength(bs, if f.at == STATIC then f.dataSize else |bs|)]))
    case FIXED_LENGTH_BYTES => if |bs| == f.dataSize then Some(Prefixed(bs)) else None
    case _ => None
  }

  function EncNumber(f: Field, n: int): Option<Bytes>
  {
    match f.lt
    case FIXED32 => Some(LittleBytes(n % TWO_32, 4))
    case FIXED64 => Some(LittleBytes(n % TWO_64, 8))
    case BOOL => Some(EncVarint(WireInteger(f, n)))
    case _ =>
      if f.lt in {VARINT, UVARINT, SVARINT} && IntegerSize(f.dataSize) then Some(EncVarint(WireInteger(f, n)))
      else None
  }

  /** Everything but submessages. A null pointer is written as an empty string. */
  function EncBasic(f: Field, v: Value): Option<Bytes>
  {
    match v
    case Num(n) => EncNumber(f, n)
    case At(_, n) => EncNumber(f, n)
    case Blob(bs) => EncBlob(f, bs)
    case Null => if f.lt in {BYTES, STRING} && f.at == PTR then Some(Prefixed([])) else None
    case Msg(_) => None
  }

  function WireType(lt: LType): nat
  {
    match lt
    case FIXED32 => WT_32BIT
    case FIXED64 => WT_64BIT
    case _ => if Packable(lt) then WT_VARINT else WT_STRING
  }

  function EncTag(tag: nat, wt: nat): Bytes
  {
    EncVarint(tag * 8 + wt)
  }

  function TagOf(f: Field): Bytes
  {
    EncTag(f.tag, WireType(f.lt))
  }

  function Append(a: Option<Bytes>, b: Option<Bytes>): Option<Bytes>
  {
    if a.Some? && b.Some? then Some(a.value + b.value) else None
  }

  function EncItems(f: Field, items: seq<Value>): Option<Bytes>
  {
    if items == [] then Some([]) else Append(EncBasic(f, items[0]), EncItems(f, items[1..]))
  }

  /** A packed array: tag, payload length, payload. */
  function EncPacked(f: Field, items: seq<Value>): Option<Bytes>
  {
    match EncItems(f, items)
    case None => None
    case Some(body) => Some(EncTag(f.tag, WT_STRING) + Prefixed(body))
  }

  /** The bytes of a pointer to a number that the encoder compares with zero: as many as the number
      has, not as many as the pointer has. A `Num` stands for an address where they are not all zero. */
  predicate NoAddress(f: Field, v: Value)
  {
    v.Null? || (v.At? && ZeroBytes(v.addr, f.dataSize))
  }

  /** pb_check_proto3_default_value. */
  predicate IsDefault(env: Env, f: Field, slot: Slot)
    decreases slot
  {
    match slot
    case Plain(v) =>
      if f.ht != OPTIONAL then false
      else if f.at == PTR then if Packable(f.lt) then NoAddress(f, v) else v.Null?
      else
        (match v
         case Num(n) => ZeroBytes(n % TWO_64, f.dataSize)
         case At(_, _) => false
         case Blob(bs) =>
           if f.lt == BYTES then bs == []
           else if f.lt == STRING then bs == [] || bs[0] == 0
           else f.dataSize == 0
         case Msg(slots) =>
           f.sub < |env| && |slots| == |env[f.sub]| &&
           forall k :: 0 <= k < |slots| ==> IsDefault(env, env[f.sub][k], slots[Loc(env[f.sub], k)])
         case Null => true)
    case Opt(has, _) => !has
    case Arr(items) => !FixedCount(f) && items == []
    case Union(which, _) => which == 0
    case Shared => false
  }

  function EncValue(env: Env, f: Field, v: Value): Option<Bytes>
    decreases v, 0
  {
    if f.lt != SUBMESSAGE then EncBasic(f, v)
    else if !v.Msg? then None
    else
      match EncMsg(env, f.sub, v.slots)
      case None => None
      case Some(body) => Some(Prefixed(body))
  }

  /** One occurrence of a field: tag and value. */
  function EncRecord(env: Env, f: Field, v: Value): Option<Bytes>
    decreases v, 1
  {
    Append(Some(TagOf(f)), EncValue(env, f, v))
  }

  /** The items of an array that is not packed. */
  function EncRecords(env: Env, f: Field, items: seq<Value>): Option<Bytes>
    decreases items, 0
  {
    if items == [] then Some([])
    else Append(EncRecord(env, f, items[0]), EncRecords(env, f, items[1..]))
  }

  /** encode_array. */
  function EncArray(env: Env, f: Field, items: seq<Value>): Option<Bytes>
    decreases items, 1
  {
    if items == [] then Some([])
    else if f.at == STATIC && |items| > f.arraySize then None
    else if Packable(f.lt) then EncPacked(f, items)
    else EncRecords(env, f, items)
  }

  /** encode_basic_field. */
  function EncSlot(env: Env, f: Field, slot: Slot): Option<Bytes>
    decreases slot
  {
    if !Shaped(f, slot) then None
    else match slot
      case Plain(v) =>
        if f.ht == REQUIRED then if v.Null? then None else EncRecord(env, f, v)
        else if f.at == PTR then if v.Null? then Some([]) else EncRecord(env, f, v)
        else if IsDefault(env, f, slot) then Some([]) else EncRecord(env, f, v)
      case Opt(has, v) => if has then EncRecord(env, f, v) else Some([])
      case Arr(items) => EncArray(env, f, items)
      case Union(which, u) => if which == f.tag then EncRecord(env, f, u) else Some([])
      case Shared => None
  }

  /** The fields from `k` on. */
  function EncFrom(env: Env, id: nat, slots: seq<Slot>, k: nat): Option<Bytes>
    requires id < |env| && |slots| == |env[id]| && k <= |slots|
    decreases slots, 0, |slots| - k
  {
    if k == |slots| then Some([])
    else Append(EncSlot(env, env[id][k], slots[Loc(env[id], k)]), EncFrom(env, id, slots, k + 1))
  }

  /** pb_encode. */
  function EncMsg(env: Env, id: nat, slots: seq<Slot>): Option<Bytes>
    decreases slots, 1
  {
    if id < |env| && |slots| == |env[id]| then EncFrom(env, id, slots, 0) else None
  }

  /** pb_encode_delimited. */
  function EncDelimited(env: Env, id: nat, slots: seq<Slot>): Option<Bytes>
  {
    match EncMsg(env, id, slots)
    case None => None
    case Some(body) => Some(Prefixed(body))
  }

  /** pb_encode_nullterminated. */
  function EncTerminated(env: Env, id: nat, slots: seq<Slot>): Option<Bytes>
  {
    Append(EncMsg(env, id, slots), Some([0]))
  }
}
