/** Field descriptors (pb_field_t), typed message structs and their default contents. */
module Schema {
  import opened Bits
  import opened Wrappers

  const PB_SIZE_MAX: int := 0xFFFF_FFFF          // pb_size_t is 32 bits wide in this build
  const PB_MAX_REQUIRED_FIELDS: nat := 64
  const BYTES_HEADER: nat := 4                   // offsetof(pb_bytes_array_t, bytes)
  const PTR_SIZE: nat := 8                   // sizeof(void*)

  datatype LType = BOOL | VARINT | UVARINT | SVARINT | FIXED32 | FIXED64
                 | BYTES | STRING | SUBMESSAGE | FIXED_LENGTH_BYTES
  datatype HType = REQUIRED | OPTIONAL | REPEATED | ONEOF
  datatype AType = STATIC | PTR

  /** A value in a struct. */
  datatype Value =
    | Num(n: int)
    | At(addr: nat, n: int)           // a number behind a pointer, with the address the pointer holds
    | Blob(bs: Bytes)
    | Msg(slots: seq<Slot>)
    | Null                            // a null pointer, or the unset contents of a union

  /** The storage of one struct member together with its has_, _count or which_ companion. */
  datatype Slot =
    | Plain(v: Value)                 // required, or optional without has_
    | Opt(has: bool, v: Value)        // optional with has_
    | Arr(items: seq<Value>)          // repeated: the first _count entries, or all of a fixed-count array
    | Union(which: nat, u: Value)     // oneof; held by the first member of the union
    | Shared                          // the other members of a oneof

  /** One entry of a descriptor table. `sub` is the submessage type when `lt` is SUBMESSAGE. */
  datatype Field = Field(tag: nat, lt: LType, ht: HType, at: AType, dataOffset: nat, sizeOffset: int,
                         dataSize: nat, arraySize: nat, sub: nat, dflt: Option<Value>)

  type Fields = seq<Field>
  /** All message types of a program; a type is named by its position. */
  type Env = seq<Fields>

  predicate Packable(lt: LType)
  {
    lt in {BOOL, VARINT, UVARINT, SVARINT, FIXED32, FIXED64}
  }

  predicate HasField(f: Field)
  {
    f.ht == OPTIONAL && f.at == STATIC && f.sizeOffset != 0
  }

  /** Repeated without a count member: pSize and pData coincide. */
  predicate FixedCount(f: Field)
  {
    f.ht == REPEATED && f.sizeOffset == 0
  }

  /** A oneof member that shares the storage of the field before it. */
  predicate UnionTail(F: Fields, k: nat)
    requires k < |F|
  {
    0 < k && F[k].ht == ONEOF && F[k - 1].ht == ONEOF && F[k].dataOffset == PB_SIZE_MAX
  }

  /** The slot that field `k` lives in. */
  function Loc(F: Fields, k: nat): (l: nat)
    requires k < |F|
    ensures l <= k && !UnionTail(F, l)
    ensures F[l].ht == ONEOF <==> F[k].ht == ONEOF
    ensures F[k].ht != ONEOF ==> l == k
  {
    if UnionTail(F, k) then Loc(F, k - 1) else k
  }

  function FindFrom(F: Fields, tag: nat, k: nat): (r: Option<nat>)
    requires k <= |F|
    ensures r.Some? ==> k <= r.value < |F| && F[r.value].tag == tag
    ensures r.Some? ==> forall i :: k <= i < r.value ==> F[i].tag != tag
    ensures r.None? ==> forall i :: k <= i < |F| ==> F[i].tag != tag
    decreases |F| - k
  {
    if k == |F| then None
    else if F[k].tag == tag then Some(k)
    else FindFrom(F, tag, k + 1)
  }

  /** The field with a given tag. */
  function FindTag(F: Fields, tag: nat): (r: Option<nat>)
    ensures r.Some? ==> r.value < |F| && F[r.value].tag == tag
    ensures r.None? ==> forall i :: 0 <= i < |F| ==> F[i].tag != tag
  {
    FindFrom(F, tag, 0)
  }

  /** How many REQUIRED fields come before field `k`. */
  function RequiredBefore(F: Fields, k: nat): (r: nat)
    requires k <= |F|
    ensures r <= k
  {
    if k == 0 then 0 else RequiredBefore(F, k - 1) + if F[k - 1].ht == REQUIRED then 1 else 0
  }

  // ----- Default contents -----

  function Zeros(n: nat): (z: Bytes)
    ensures |z| == n
  {
    seq(n, _ => 0)
  }

  function ZeroValue(f: Field): Value
  {
    match f.lt
    case BYTES => Blob([])
    case STRING => Blob([])
    case FIXED_LENGTH_BYTES => Blob(Zeros(f.dataSize))
    case SUBMESSAGE => Null
    case _ => Num(0)
  }

  /** pb_field_set_to_default for the data of one field. */
  function DefaultValue(env: Env, id: nat, f: Field): Value
    decreases id, 0
  {
    if f.at == PTR then Null
    else if f.lt == SUBMESSAGE then if f.sub < id then Msg(Defaults(env, f.sub)) else Null
    else match f.dflt case Some(v) => v case None => ZeroValue(f)
  }

  function DefaultSlot(env: Env, id: nat, k: nat): Slot
    requires id < |env| && k < |env[id]|
    decreases id, 1
  {
    var f := env[id][k];
    if UnionTail(env[id], k) then Shared
    else match f.ht
      case REQUIRED => Plain(DefaultValue(env, id, f))
      case OPTIONAL => if HasField(f) then Opt(false, DefaultValue(env, id, f)) else Plain(DefaultValue(env, id, f))
      case REPEATED => Arr(if FixedCount(f) then seq(f.arraySize, _ => ZeroValue(f)) else [])
      case ONEOF => Union(0, Null)
  }

  /** pb_message_set_to_defaults. */
  function Defaults(env: Env, id: nat): (slots: seq<Slot>)
    ensures id < |env| ==> |slots| == |env[id]|
    decreases id, 2
  {
    if id >= |env| then []
    else seq(|env[id]|, k requires 0 <= k < |env[id]| => DefaultSlot(env, id, k))
  }

  // ----- What the generator guarantees about a table -----

  predicate IntegerSize(n: nat)
  {
    n in {1, 2, 4, 8}
  }

  /** Half the number of values an integer member of `size` bytes can hold. */
  function Half(size: nat): int
  {
    if size == 1 then 0x80
    else if size == 2 then 0x8000
    else if size == 4 then TWO_31
    else if size == 8 then TWO_63
    else 0
  }

  predicate ValidField(env: Env, id: nat, f: Field)
  {
    && 1 <= f.tag < 0x2000_0000
    && 1 <= f.dataSize <= PB_SIZE_MAX && f.arraySize <= PB_SIZE_MAX
    && (f.lt in {VARINT, UVARINT, SVARINT} ==> IntegerSize(f.dataSize))
    && (f.lt == BOOL ==> f.dataSize == 1) && (f.lt == FIXED32 ==> f.dataSize == 4) && (f.lt == FIXED64 ==> f.dataSize == 8)
    && (f.lt == SUBMESSAGE ==> f.sub < |env| && f.dflt.None? && (f.at == STATIC ==> f.sub < id))
    && (f.ht == REQUIRED ==> f.sizeOffset == 0)
    && (f.ht == ONEOF ==> f.sizeOffset != 0)
    && (f.at == PTR ==> f.dflt.None? && (f.ht == OPTIONAL ==> f.sizeOffset == 0) && (f.ht == REPEATED ==> f.sizeOffset != 0))
    && (f.at == STATIC && f.ht == REPEATED ==> f.arraySize >= 1)
  }

  /** Descriptor tables as the generator emits them: tags from 1 on, none used twice, and a struct
      embeds only structs declared before it. */
  predicate ValidEnv(env: Env)
  {
    forall id :: 0 <= id < |env| ==> ValidMessage(env, id)
  }

  predicate ValidMessage(env: Env, id: nat)
    requires id < |env|
  {
    && (forall k :: 0 <= k < |env[id]| ==> ValidField(env, id, env[id][k]))
    && (forall i, j :: 0 <= i < j < |env[id]| ==> env[id][i].tag != env[id][j].tag)
  }

  lemma FindUnique(env: Env, id: nat, k: nat)
    requires id < |env| && ValidMessage(env, id) && k < |env[id]|
    ensures FindTag(env[id], env[id][k].tag) == Some(k)
  {
  }
}
