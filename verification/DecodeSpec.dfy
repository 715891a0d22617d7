/** What pb_decode computes, as functions from bytes and an initial struct to the final struct. */
module DecodeSpec {
  import opened Bits
  import opened Varint
  import opened Schema
  import opened Wrappers

  // ----- Scalars, bytes and strings -----

  /** Little-endian value of a fixed-width field. */
  function Little(s: Bytes): nat
  {
    if s == [] then 0 else s[0] + 256 * Little(s[1..])
  }

  function UnZigZag(v: nat): int
  {
    if v % 2 == 1 then -(v / 2) - 1 else v / 2
  }

  /** The integer a varint stands for: plain fields narrower than 64 bits are first cut to int32. */
  function Integer(f: Field, v: nat): int
  {
    match f.lt
    case VARINT => if f.dataSize == 8 then ToInt64(v) else ToInt32(v)
    case SVARINT => UnZigZag(v)
    case _ => v
  }

  /** The value survives being stored in a struct member of the field's width. */
  predicate InRange(f: Field, w: int)
  {
    var h := Half(f.dataSize);
    if f.lt == UVARINT then 0 <= w < 2 * h else -h <= w < h
  }

  function DecNumber(f: Field, s: Bytes): (p: Parse<Value>)
    ensures p.Ok? ==> 1 <= p.n <= |s|
  {
    match DecVarint64(s)
    case Err => Err
    case Ok(v, n) =>
      if InRange(f, Integer(f, v)) then Ok(Num(Integer(f, v)), n) else Err
  }

  function DecFixed(size: nat, s: Bytes): (p: Parse<Value>)
    requires size >= 1
    ensures p.Ok? ==> p.n == size <= |s|
  {
    if |s| < size then Err else Ok(Num(Little(s[..size])), size)
  }

  /** Whether a payload of `size` bytes may be stored in the field, before any byte is read. */
  predicate Fits(f: Field, size: nat)
  {
    match f.lt
    case BYTES => f.at == PTR || size + BYTES_HEADER <= f.dataSize
    case STRING => size < TWO_32 - 1 && (f.at == PTR || size + 1 <= f.dataSize)
    case FIXED_LENGTH_BYTES => size == 0 || size == f.dataSize
    case _ => false
  }

  function DecBlob(f: Field, s: Bytes): (p: Parse<Value>)
    ensures p.Ok? ==> 1 <= p.n <= |s|
  {
    match DecVarint32(s)
    case Err => Err
    case Ok(size, n) =>
      if !Fits(f, size) || |s| - n < size then Err
      else if f.lt == FIXED_LENGTH_BYTES && size == 0 then Ok(Blob(Zeros(f.dataSize)), n)
      else Ok(Blob(s[n..n + size]), n + size)
  }

  /** The entry of PB_DECODERS for everything but submessages. */
  function DecBasic(f: Field, s: Bytes): (p: Parse<Value>)
    ensures p.Ok? ==> 1 <= p.n <= |s|
  {
    match f.lt
    case BOOL =>
      (match DecVarint32(s)
       case Err => Err
       case Ok(v, n) => Ok(Num(if v != 0 then 1 else 0), n))
    case FIXED32 => DecFixed(4, s)
    case FIXED64 => DecFixed(8, s)
    case SUBMESSAGE => Err
    case _ => if f.lt in {VARINT, UVARINT, SVARINT} then DecNumber(f, s) else DecBlob(f, s)
  }

  /** The items of a packed array; the whole payload has to be used up within `room` items. */
  function DecItems(f: Field, s: Bytes, room: nat): (r: Option<seq<Value>>)
    ensures r.Some? ==> |r.value| <= room
    decreases |s|
  {
    if s == [] then Some([])
    else if room == 0 then None
    else
      match DecBasic(f, s)
      case Err => None
      case Ok(v, n) =>
        match DecItems(f, s[n..], room - 1)
        case None => None
        case Some(vs) => Some([v] + vs)
  }

  // ----- Skipping -----

  const WT_VARINT: nat := 0
  const WT_64BIT: nat := 1
  const WT_STRING: nat := 2
  const WT_32BIT: nat := 5

  /** pb_skip_field. */
  function Skip(wt: nat, s: Bytes): (p: Parse<()>)
    ensures p.Ok? ==> 1 <= p.n <= |s|
  {
    if wt == WT_VARINT then
      var n := VarintLen(s, |s|);
      if n == 0 then Err else Ok((), n)
    else if wt == WT_64BIT then if |s| < 8 then Err else Ok((), 8)
    else if wt == WT_STRING then
      match DecVarint32(s)
      case Err => Err
      case Ok(size, n) => if |s| - n < size then Err else Ok((), n + size)
    else if wt == WT_32BIT then if |s| < 4 then Err else Ok((), 4)
    else Err
  }

  // ----- One occurrence of a field -----

  /** The state of pb_decode_noinit's main loop: the struct, the required fields seen (by their index
      among the required fields) and the fixed-count array being filled. */
  datatype Progress = Progress(slots: seq<Slot>, seen: set<nat>, fixedField: Option<nat>, fixedSize: nat)

  /** The number of items a repeated field holds when its next occurrence arrives. */
  function Count(f: Field, slot: Slot, fixedSize: nat): nat
  {
    if FixedCount(f) then fixedSize else if slot.Arr? then |slot.items| else 0
  }

  /** How many more items the repeated field can take. */
  function Room(f: Field, slot: Slot, fixedSize: nat): nat
  {
    var limit := if f.at == STATIC then f.arraySize else PB_SIZE_MAX;
    var count := Count(f, slot, fixedSize);
    if count <= limit then limit - count else 0
  }

  /** The struct member has the shape its descriptor announces; counts are of type pb_size_t. */
  predicate Shaped(f: Field, slot: Slot)
  {
    match f.ht
    case REQUIRED => slot.Plain?
    case OPTIONAL => if HasField(f) then slot.Opt? else slot.Plain?
    case REPEATED => slot.Arr? && |slot.items| <= PB_SIZE_MAX && (FixedCount(f) ==> |slot.items| == f.arraySize)
    case ONEOF => slot.Union?
  }

  /** What the data of a submessage holds when the decoder starts on it. */
  function Base(env: Env, f: Field, slot: Slot): Value
  {
    var blank := Msg(Defaults(env, f.sub));
    if f.at == PTR || f.ht == REPEATED then blank
    else match slot
      case Plain(v) => v
      case Opt(_, v) => v
      case Union(which, u) => if which == f.tag then u else blank
      case _ => Null
  }

  /** A single item may be stored: there is room, and an earlier oneof member can be released. */
  predicate Admits(F: Fields, f: Field, slot: Slot, fixedSize: nat)
  {
    match f.ht
    case REPEATED => Room(f, slot, fixedSize) >= 1
    case ONEOF => slot.Union? && (slot.which == 0 || FindTag(F, slot.which).Some?)
    case _ => true
  }

  function Stored(f: Field, slot: Slot, fixedSize: nat, vs: seq<Value>): Slot
    requires f.ht != REPEATED ==> |vs| == 1
  {
    match f.ht
    case REPEATED =>
      if !slot.Arr? then slot
      else if FixedCount(f) && fixedSize + |vs| <= |slot.items| then
        Arr(slot.items[..fixedSize] + vs + slot.items[fixedSize + |vs|..])
      else Arr(slot.items + vs)
    case ONEOF => Union(f.tag, vs[0])
    case REQUIRED => Plain(vs[0])
    case OPTIONAL => if HasField(f) then Opt(true, vs[0]) else Plain(vs[0])
  }

  function Store(F: Fields, p: Progress, k: nat, vs: seq<Value>): Progress
    requires k < |F| && |p.slots| == |F|
    requires F[k].ht != REPEATED ==> |vs| == 1
  {
    var l := Loc(F, k);
    p.(slots := p.slots[l := Stored(F[k], p.slots[l], p.fixedSize, vs)],
       fixedSize := if FixedCount(F[k]) then p.fixedSize + |vs| else p.fixedSize)
  }

  // ----- Releasing -----

  /** What pb_release leaves of a value: pointers are null afterwards. */
  function ReleasedValue(env: Env, f: Field, v: Value): Value
    decreases v
  {
    if f.at == PTR then Null
    else if f.lt == SUBMESSAGE && v.Msg? && f.sub < |env| && |v.slots| == |env[f.sub]| then Msg(Released(env, f.sub, v.slots))
    else v
  }

  function ReleasedSlot(env: Env, F: Fields, k: nat, slot: Slot): Slot
    requires k < |F|
    decreases slot
  {
    match slot
    case Plain(v) => Plain(ReleasedValue(env, F[k], v))
    case Opt(has, v) => Opt(has, ReleasedValue(env, F[k], v))
    case Arr(items) =>
      if F[k].at == PTR then Arr([])
      else Arr(seq(|items|, i requires 0 <= i < |items| => ReleasedValue(env, F[k], items[i])))
    case Union(which, u) =>
      (match FindTag(F, which)
       case Some(j) => if Loc(F, j) == k then Union(which, ReleasedValue(env, F[j], u)) else slot
       case None => slot)
    case Shared => Shared
  }

  /** pb_release. */
  function Released(env: Env, id: nat, slots: seq<Slot>): (r: seq<Slot>)
    requires id < |env| && |slots| == |env[id]|
    ensures |r| == |slots|
    decreases slots
  {
    seq(|slots|, k requires 0 <= k < |slots| => ReleasedSlot(env, env[id], k, slots[k]))
  }

  /** pb_release_union_field: a which_ member that names a field outside its union has that field
      released. What it names inside the union is about to be overwritten. */
  function Cleared(env: Env, F: Fields, p: Progress, k: nat): (q: Progress)
    requires k < |F| && |p.slots| == |F|
    ensures |q.slots| == |F| && q == p.(slots := q.slots) && q.slots[Loc(F, k)] == p.slots[Loc(F, k)]
  {
    var slot := p.slots[Loc(F, k)];
    if F[k].ht != ONEOF || !slot.Union? || slot.which == 0 || FindTag(F, slot.which).None? then p
    else
      var j := FindTag(F, slot.which).value;
      var l := Loc(F, j);
      if l == Loc(F, k) || (F[j].ht == ONEOF && p.slots[l].Union? && p.slots[l].which != F[j].tag) then p
      else p.(slots := p.slots[l := ReleasedSlot(env, F, l, p.slots[l])])
  }

  /** Bookkeeping before field `k` is decoded: fixed-count tracking and the required-field set. */
  function Enter(F: Fields, p: Progress, k: nat): Option<Progress>
    requires k < |F|
  {
    var f := F[k];
    if FixedCount(f) && p.fixedField != Some(k) && !FixedDone(F, p) then None
    else
      var q := if FixedCount(f) && p.fixedField != Some(k) then p.(fixedField := Some(k), fixedSize := 0) else p;
      var r := RequiredBefore(F, k);
      Some(if f.ht == REQUIRED && r < PB_MAX_REQUIRED_FIELDS then q.(seen := q.seen + {r}) else q)
  }

  /** No fixed-count array is partly filled. */
  predicate FixedDone(F: Fields, p: Progress)
  {
    p.fixedField.Some? && p.fixedField.value < |F| ==> p.fixedSize == F[p.fixedField.value].arraySize
  }

  predicate AllRequired(F: Fields, seen: set<nat>)
  {
    forall r :: 0 <= r < RequiredBefore(F, |F|) && r < PB_MAX_REQUIRED_FIELDS ==> r in seen
  }

  // ----- Messages -----

  function DecValue(env: Env, f: Field, base: Value, s: Bytes): (p: Parse<Value>)
    ensures p.Ok? ==> 1 <= p.n <= |s|
    decreases |s|, 0
  {
    if f.lt != SUBMESSAGE then DecBasic(f, s)
    else if !base.Msg? then Err
    else
      match DecVarint32(s)
      case Err => Err
      case Ok(size, n) =>
        if |s| - n < size then Err
        else
          match DecMsg(env, f.sub, base.slots, s[n..n + size])
          case Err => Err
          case Ok(slots, _) => Ok(Msg(slots), n + size)
  }

  function DecField(env: Env, id: nat, p: Progress, k: nat, wt: nat, s: Bytes): (r: Parse<Progress>)
    requires id < |env| && k < |env[id]| && |p.slots| == |env[id]|
    ensures r.Ok? ==> 1 <= r.n <= |s| && |r.v.slots| == |p.slots|
    decreases |s|, 1
  {
    var F, f := env[id], env[id][k];
    var slot := p.slots[Loc(F, k)];
    if !Shaped(f, slot) then Err
    else if f.ht == REPEATED && wt == WT_STRING && Packable(f.lt) then
      match DecVarint32(s)
      case Err => Err
      case Ok(size, n) =>
        if |s| - n < size then Err
        else
          match DecItems(f, s[n..n + size], Room(f, slot, p.fixedSize))
          case None => Err
          case Some(vs) => Ok(Store(F, p, k, vs), n + size)
    else if !Admits(F, f, slot, p.fixedSize) then Err
    else
      match DecValue(env, f, Base(env, f, slot), s)
      case Err => Err
      case Ok(v, n) => Ok(Store(F, Cleared(env, F, p, k), k, [v]), n)
  }

  /** One turn of the main loop after the tag has been read. */
  function Step(env: Env, id: nat, p: Progress, tag: nat, wt: nat, s: Bytes): (r: Parse<Progress>)
    requires id < |env| && |p.slots| == |env[id]|
    ensures r.Ok? ==> 1 <= r.n <= |s| && |r.v.slots| == |p.slots|
    decreases |s|, 2
  {
    var F := env[id];
    if F == [] && tag == 0 then
      // In an empty table the terminator entry matches tag 0 and is decoded as a bool.
      match DecVarint32(s)
      case Err => Err
      case Ok(_, n) => Ok(p, n)
    else
      match FindTag(F, tag)
      case None =>
        (match Skip(wt, s)
         case Err => Err
         case Ok(_, n) => Ok(p, n))
      case Some(k) =>
        match Enter(F, p, k)
        case None => Err
        case Some(q) => DecField(env, id, q, k, wt, s)
  }

  /** One turn of the main loop; `None` when a zero tag ends the message. */
  function Turn(env: Env, id: nat, p: Progress, s: Bytes): (r: Parse<Option<Progress>>)
    requires id < |env| && |p.slots| == |env[id]|
    ensures r.Ok? ==> 1 <= r.n <= |s| && (r.v.Some? ==> |r.v.value.slots| == |p.slots|)
    decreases |s|, 3
  {
    match DecVarint32(s)
    case Err => Err
    case Ok(t, n) =>
      if t == 0 then Ok(None, n)
      else
        match Step(env, id, p, t / 8, t % 8, s[n..])
        case Err => Err
        case Ok(q, m) => Ok(Some(q), n + m)
  }

  /** The main loop's result: the progress made, and whether a zero tag ended it. */
  datatype Outcome = Outcome(p: Progress, ended: bool)

  function DecFields(env: Env, id: nat, p: Progress, s: Bytes): (r: Parse<Outcome>)
    requires id < |env| && |p.slots| == |env[id]|
    ensures r.Ok? ==> r.n <= |s| && |r.v.p.slots| == |p.slots|
    ensures r.Ok? && !r.v.ended ==> r.n == |s|
    decreases |s|, 4
  {
    if s == [] then Ok(Outcome(p, false), 0)
    else
      match Turn(env, id, p, s)
      case Err => Err
      case Ok(None, n) => Ok(Outcome(p, true), n)
      case Ok(Some(q), n) =>
        match DecFields(env, id, q, s[n..])
        case Err => Err
        case Ok(o, m) => Ok(o, n + m)
  }

  function Start(slots: seq<Slot>): Progress
  {
    Progress(slots, {}, None, 0)
  }

  /** The checks after the main loop. */
  predicate Complete(F: Fields, p: Progress)
  {
    FixedDone(F, p) && AllRequired(F, p.seen)
  }

  /** pb_decode_noinit. */
  function DecMsg(env: Env, id: nat, slots: seq<Slot>, s: Bytes): (r: Parse<seq<Slot>>)
    ensures r.Ok? ==> r.n <= |s| && id < |env| && |r.v| == |slots| == |env[id]|
    decreases |s|, 5
  {
    if id >= |env| || |slots| != |env[id]| then Err
    else
      match DecFields(env, id, Start(slots), s)
      case Err => Err
      case Ok(o, n) => if Complete(env[id], o.p) then Ok(o.p.slots, n) else Err
  }

  /** pb_decode. */
  function Decode(env: Env, id: nat, s: Bytes): Parse<seq<Slot>>
  {
    DecMsg(env, id, Defaults(env, id), s)
  }

  /** pb_decode_delimited. */
  function DecDelimited(env: Env, id: nat, s: Bytes): (r: Parse<seq<Slot>>)
    ensures r.Ok? ==> 1 <= r.n <= |s|
  {
    match DecVarint32(s)
    case Err => Err
    case Ok(size, n) =>
      if |s| - n < size then Err
      else
        match Decode(env, id, s[n..n + size])
        case Err => Err
        case Ok(slots, _) => Ok(slots, n + size)
  }
}
