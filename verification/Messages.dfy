/** Messages: which ones the format can carry, what a round trip gives back and what it should. */
module Messages {
  import opened Bits
  import opened Schema
  import opened Wrappers
  import opened DecodeSpec
  import opened EncodeSpec
  import opened Scalars

  // ----- Messages the format can carry -----

  ghost predicate GoodValue(env: Env, f: Field, v: Value)
    decreases v, 0
  {
    if f.lt != SUBMESSAGE then GoodBasic(f, v)
    else v.Msg? && Good(env, f.sub, v.slots) && Short(EncMsg(env, f.sub, v.slots))
  }

  /** A length prefix of 32 bits is enough. */
  predicate Short(e: Option<Bytes>)
  {
    e.Some? ==> |e.value| < TWO_32
  }

  ghost predicate GoodItems(env: Env, f: Field, items: seq<Value>)
    decreases items, 1
  {
    && (f.at == STATIC ==> |items| <= f.arraySize) && |items| <= PB_SIZE_MAX
    && (Packable(f.lt) ==> Short(EncItems(f, items)))
    && forall i :: 0 <= i < |items| ==> GoodValue(env, f, items[i])
  }

  ghost predicate GoodSlot(env: Env, F: Fields, k: nat, slot: Slot)
    requires k < |F|
    decreases slot
  {
    var f := F[k];
    && Shaped(f, slot)
    && match slot
       case Plain(v) =>
         if f.ht == OPTIONAL && f.at == PTR && v.Null? then true else !v.Null? && GoodValue(env, f, v)
       case Opt(has, v) => has ==> !v.Null? && GoodValue(env, f, v)
       case Arr(items) => GoodItems(env, f, items)
       case Union(which, u) =>
         && (which == f.tag ==> GoodValue(env, f, u))
         && (which == 0 || Member(F, Loc(F, k), which))
       case Shared => false
  }

  /** `tag` belongs to a member of the oneof stored at slot `l`. */
  predicate Member(F: Fields, l: nat, tag: nat)
  {
    FindTag(F, tag).Some? && Loc(F, FindTag(F, tag).value) == l
  }

  /** A struct whose contents fit its descriptors: the messages the format is meant for. */
  ghost predicate Good(env: Env, id: nat, slots: seq<Slot>)
    decreases slots, 0
  {
    && id < |env| && |slots| == |env[id]|
    && forall k :: 0 <= k < |slots| ==>
         && (UnionTail(env[id], k) ==> slots[k] == Shared)
         && GoodSlot(env, env[id], k, slots[Loc(env[id], k)])
  }

  // ----- What comes back -----

  function NormValue(env: Env, f: Field, v: Value): Value
    decreases v
  {
    if f.lt != SUBMESSAGE then NormBasic(v)
    else if v.Msg? && f.sub < |env| && |v.slots| == |env[f.sub]| then Msg(Norm(env, f.sub, v.slots)) else v
  }

  function NormItems(env: Env, f: Field, items: seq<Value>): (r: seq<Value>)
    ensures |r| == |items|
    decreases items
  {
    if items == [] then [] else [NormValue(env, f, items[0])] + NormItems(env, f, items[1..])
  }

  /** Absent fields hold their defaults; present ones are unchanged, inside out. */
  function NormSlot(env: Env, id: nat, k: nat, slot: Slot): Slot
    requires id < |env| && k < |env[id]|
    decreases slot
  {
    var f := env[id][k];
    match slot
    case Plain(v) =>
      if f.ht == OPTIONAL && (if f.at == PTR then v.Null? else IsDefault(env, f, slot))
      then Plain(DefaultValue(env, id, f))
      else Plain(NormValue(env, f, v))
    case Opt(has, v) => if has then Opt(true, NormValue(env, f, v)) else Opt(false, DefaultValue(env, id, f))
    case Arr(items) => Arr(NormItems(env, f, items))
    case Union(which, u) =>
      if which != 0 && FindTag(env[id], which).Some?
      then Union(which, NormValue(env, env[id][FindTag(env[id], which).value], u))
      else Union(0, Null)
    case Shared => Shared
  }

  function Norm(env: Env, id: nat, slots: seq<Slot>): (r: seq<Slot>)
    requires id < |env| && |slots| == |env[id]|
    ensures |r| == |slots|
    decreases slots
  {
    seq(|slots|, k requires 0 <= k < |slots| => NormSlot(env, id, k, slots[k]))
  }

  // ----- What should come back -----

  function IdealValue(env: Env, f: Field, v: Value): Value
    decreases v
  {
    if f.lt != SUBMESSAGE then NormBasic(v)
    else if v.Msg? && f.sub < |env| && |v.slots| == |env[f.sub]| then Msg(Ideal(env, f.sub, v.slots)) else v
  }

  function IdealItems(env: Env, f: Field, items: seq<Value>): (r: seq<Value>)
    ensures |r| == |items|
    decreases items
  {
    if items == [] then [] else [IdealValue(env, f, items[0])] + IdealItems(env, f, items[1..])
  }

  /** A member without a flag has no way to be absent, unless it is a pointer. */
  function IdealSlot(env: Env, id: nat, k: nat, slot: Slot): Slot
    requires id < |env| && k < |env[id]|
    decreases slot
  {
    var f := env[id][k];
    match slot
    case Plain(v) => if f.ht == OPTIONAL && f.at == PTR && v.Null? then Plain(Null) else Plain(IdealValue(env, f, v))
    case Opt(has, v) => if has then Opt(true, IdealValue(env, f, v)) else Opt(false, DefaultValue(env, id, f))
    case Arr(items) => Arr(IdealItems(env, f, items))
    case Union(which, u) =>
      if which != 0 && FindTag(env[id], which).Some?
      then Union(which, IdealValue(env, env[id][FindTag(env[id], which).value], u))
      else Union(0, Null)
    case Shared => Shared
  }

  /** The message itself, apart from addresses, absent flagged members and empty unions. */
  function Ideal(env: Env, id: nat, slots: seq<Slot>): (r: seq<Slot>)
    requires id < |env| && |slots| == |env[id]|
    ensures |r| == |slots|
    decreases slots
  {
    seq(|slots|, k requires 0 <= k < |slots| => IdealSlot(env, id, k, slots[k]))
  }
}
