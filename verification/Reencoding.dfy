/** Decoded messages can be encoded again: which of them, and whether decoding that gives them back. */
module Reencoding {
  import opened Bits
  import opened Varint
  import opened Schema
  import opened Wrappers
  import opened DecodeSpec
  import opened DecodeSteps
  import opened EncodeSpec
  import opened Scalars
  import opened Messages
  import opened ImplicitPresence
  import opened Prefix
  import opened Merge
  import opened RoundTrip
  import opened Placement

  // ----- What a decoder leaves in a struct -----

  /** A value the decoders of scalars, bytes and strings may store. */
  predicate FitBasic(f: Field, v: Value)
  {
    match v
    case Num(n) => GoodNumber(f, n)
    case Blob(bs) => Fits(f, |bs|) && |bs| < TWO_32 && (f.lt == FIXED_LENGTH_BYTES ==> |bs| == f.dataSize)
    case _ => false
  }

  /** Defaults fit their fields, and arrays of bytes have room for their size. */
  predicate FitTables(env: Env)
  {
    forall id, k :: 0 <= id < |env| && 0 <= k < |env[id]| ==> FitField(env[id][k])
  }

  predicate FitField(f: Field)
  {
    && (f.dflt.Some? ==> FitBasic(f, f.dflt.value))
    && (f.lt == BYTES && f.at == STATIC ==> f.dataSize >= BYTES_HEADER)
  }

  ghost predicate DecodedValue(env: Env, f: Field, v: Value)
    decreases v, 0
  {
    if f.lt != SUBMESSAGE then FitBasic(f, v) else v.Msg? && Decoded(env, f.sub, v.slots)
  }

  /** An element, or a submessage of a fixed-count array that no input has set. */
  ghost predicate DecodedItem(env: Env, f: Field, v: Value)
    decreases v, 1
  {
    (v.Null? && f.lt == SUBMESSAGE && FixedCount(f)) || DecodedValue(env, f, v)
  }

  ghost predicate DecodedSlot(env: Env, id: nat, k: nat, slot: Slot)
    requires id < |env| && k < |env[id]|
    decreases slot
  {
    var F, f := env[id], env[id][k];
    && Shaped(f, slot)
    && match slot
       case Plain(v) => (f.at == PTR && v.Null?) || DecodedValue(env, f, v)
       case Opt(has, v) => DecodedValue(env, f, v) && (!has ==> v == DefaultValue(env, id, f))
       case Arr(items) =>
         && (f.at == STATIC ==> |items| <= f.arraySize)
         && forall i :: 0 <= i < |items| ==> DecodedItem(env, f, items[i])
       case Union(which, u) =>
         if which == 0 then u == Null
         else Member(F, Loc(F, k), which) && DecodedValue(env, F[FindTag(F, which).value], u)
       case Shared => false
  }

  ghost predicate Decoded(env: Env, id: nat, slots: seq<Slot>)
    decreases slots, 0
  {
    && id < |env| && |slots| == |env[id]|
    && forall k :: 0 <= k < |slots| ==> if UnionTail(env[id], k) then slots[k] == Shared else DecodedSlot(env, id, k, slots[k])
  }

  // ----- The decoder leaves nothing else -----

  lemma ZeroFits(f: Field)
    requires f.lt != SUBMESSAGE && FitField(f) && f.at == STATIC && 1 <= f.dataSize <= PB_SIZE_MAX
    requires f.lt in {VARINT, UVARINT, SVARINT} ==> IntegerSize(f.dataSize)
    ensures FitBasic(f, ZeroValue(f))
  {
  }

  lemma {:induction false} DefaultDecoded(env: Env, id: nat, k: nat)
    requires ValidEnv(env) && FitTables(env) && id < |env| && k < |env[id]| && env[id][k].at == STATIC
    ensures DecodedValue(env, env[id][k], DefaultValue(env, id, env[id][k]))
    decreases id, 0
  {
    hide Decoded, Defaults, FitBasic;
    var f := env[id][k];
    assert ValidMessage(env, id) && ValidField(env, id, f) && FitField(f);
    if f.lt == SUBMESSAGE {
      DefaultsDecoded(env, f.sub);
    } else {
      ZeroFits(f);
    }
  }

  lemma {:induction false} DefaultsDecoded(env: Env, id: nat)
    requires ValidEnv(env) && FitTables(env) && id < |env|
    ensures Decoded(env, id, Defaults(env, id))
    decreases id, 1
  {
    hide DecodedValue, DefaultValue, ZeroValue;
    forall k | 0 <= k < |env[id]| && !UnionTail(env[id], k)
      ensures DecodedSlot(env, id, k, Defaults(env, id)[k])
    {
      var f := env[id][k];
      assert ValidMessage(env, id) && ValidField(env, id, f) && FitField(f);
      if f.at == STATIC {
        DefaultDecoded(env, id, k);
        ZeroItem(env, id, f);
      } else {
        NullDefault(env, id, f);
      }
      assert Defaults(env, id)[k] == DefaultSlot(env, id, k);
    }
  }

  lemma NullDefault(env: Env, id: nat, f: Field)
    requires f.at == PTR
    ensures DefaultValue(env, id, f) == Null
  {
  }

  lemma ZeroItem(env: Env, id: nat, f: Field)
    requires ValidField(env, id, f) && FitField(f) && f.at == STATIC
    ensures FixedCount(f) ==> DecodedItem(env, f, ZeroValue(f))
  {
    if f.lt != SUBMESSAGE {
      ZeroFits(f);
    }
  }

  lemma BasicDecoded(env: Env, id: nat, f: Field, s: Bytes)
    requires ValidField(env, id, f) && DecBasic(f, s).Ok?
    ensures FitBasic(f, DecBasic(f, s).v)
  {
    hide DecVarint32, DecVarint64, Integer, InRange, Little;
    if f.lt == FIXED32 {
      LittleBound(s[..4]);
    } else if f.lt == FIXED64 {
      LittleBound(s[..8]);
    }
    WordSizes();
  }

  lemma {:induction false} LittleBound(s: Bytes)
    ensures Little(s) < Pow256(|s|)
  {
    if s != [] {
      LittleBound(s[1..]);
    }
  }

  lemma {:induction false} ItemsDecoded(env: Env, id: nat, f: Field, s: Bytes, room: nat)
    requires ValidField(env, id, f) && f.lt != SUBMESSAGE && DecItems(f, s, room).Some?
    ensures forall i :: 0 <= i < |DecItems(f, s, room).value| ==> DecodedItem(env, f, DecItems(f, s, room).value[i])
    decreases |s|
  {
    hide DecBasic, FitBasic;
    if s != [] {
      BasicDecoded(env, id, f, s);
      ItemsDecoded(env, id, f, s[DecBasic(f, s).n..], room - 1);
    }
  }

  lemma {:induction false} ValueDecoded(env: Env, id: nat, f: Field, base: Value, s: Bytes)
    requires ValidEnv(env) && FitTables(env) && ValidField(env, id, f) && DecValue(env, f, base, s).Ok?
    requires f.lt == SUBMESSAGE && base.Msg? ==> Decoded(env, f.sub, base.slots)
    ensures DecodedValue(env, f, DecValue(env, f, base, s).v)
    decreases |s|, 0
  {
    hide DecVarint32, DecMsg, Decoded, DecBasic, FitBasic;
    if f.lt != SUBMESSAGE {
      BasicDecoded(env, id, f, s);
    } else {
      var h := DecVarint32(s);
      MessageDecoded(env, f.sub, base.slots, s[h.n..h.n + h.v]);
    }
  }

  /** What a submessage is decoded over. */
  lemma BaseDecoded(env: Env, id: nat, k: nat, slot: Slot)
    requires ValidEnv(env) && FitTables(env) && id < |env| && k < |env[id]| && env[id][k].lt == SUBMESSAGE
    requires DecodedSlot(env, id, Loc(env[id], k), slot) && Shaped(env[id][k], slot)
    ensures var b := Base(env, env[id][k], slot); b.Msg? ==> Decoded(env, env[id][k].sub, b.slots)
  {
    hide Decoded, Defaults;
    var f := env[id][k];
    assert ValidMessage(env, id) && ValidField(env, id, f);
    FindUnique(env, id, k);
    DefaultsDecoded(env, f.sub);
  }

  /** Storing decoded values leaves a decoded slot. */
  lemma StoredDecoded(env: Env, id: nat, k: nat, slot: Slot, size: nat, vs: seq<Value>)
    requires ValidEnv(env) && id < |env| && k < |env[id]|
    requires DecodedSlot(env, id, Loc(env[id], k), slot) && Shaped(env[id][k], slot)
    requires forall i :: 0 <= i < |vs| ==> DecodedItem(env, env[id][k], vs[i])
    requires if env[id][k].ht == REPEATED then |vs| <= Room(env[id][k], slot, size)
             else |vs| == 1 && DecodedValue(env, env[id][k], vs[0])
    ensures DecodedSlot(env, id, Loc(env[id], k), Stored(env[id][k], slot, size, vs))
  {
    hide DecodedValue, DecodedItem;
    var F, f := env[id], env[id][k];
    assert ValidMessage(env, id) && ValidField(env, id, f);
    FindUnique(env, id, k);
    if f.ht == REPEATED {
      StoredItems(env, f, slot.items, size, vs);
    } else if f.ht == ONEOF {
      LocTwice(F, k);
    }
  }

  lemma StoredItems(env: Env, f: Field, items: seq<Value>, size: nat, vs: seq<Value>)
    requires f.ht == REPEATED && Shaped(f, Arr(items)) && |vs| <= Room(f, Arr(items), size)
    requires (f.at == STATIC ==> |items| <= f.arraySize <= PB_SIZE_MAX) && (f.at == PTR ==> !FixedCount(f))
    requires forall i :: 0 <= i < |items| ==> DecodedItem(env, f, items[i])
    requires forall i :: 0 <= i < |vs| ==> DecodedItem(env, f, vs[i])
    ensures var r := Stored(f, Arr(items), size, vs);
            && r.Arr? && |r.items| <= PB_SIZE_MAX && (f.at == STATIC ==> |r.items| <= f.arraySize)
            && (FixedCount(f) ==> |r.items| == |items|)
            && forall i :: 0 <= i < |r.items| ==> DecodedItem(env, f, r.items[i])
  {
    hide DecodedItem;
  }

  lemma LocTwice(F: Fields, k: nat)
    requires k < |F|
    ensures Loc(F, Loc(F, k)) == Loc(F, k)
  {
  }

  lemma {:induction false} FieldDecoded(env: Env, id: nat, p: Progress, k: nat, wt: nat, s: Bytes)
    requires ValidEnv(env) && FitTables(env) && id < |env| && k < |env[id]| && |p.slots| == |env[id]|
    requires Decoded(env, id, p.slots) && DecField(env, id, p, k, wt, s).Ok?
    ensures Decoded(env, id, DecField(env, id, p, k, wt, s).v.slots)
    decreases |s|, 1
  {
    hide DecValue, DecVarint32, DecItems, Base, Admits, Room, Stored, DecodedSlot, DecodedItem, DecodedValue, ValidField, Shaped, Cleared;
    var F, f, l := env[id], env[id][k], Loc(env[id], k);
    var slot := p.slots[l];
    assert ValidMessage(env, id) && ValidField(env, id, f);
    if f.ht == REPEATED && wt == WT_STRING && Packable(f.lt) {
      PackedField(env, id, p, k, s);
      var h := DecVarint32(s);
      var vs := DecItems(f, s[h.n..h.n + h.v], Room(f, slot, p.fixedSize)).value;
      ItemsDecoded(env, id, f, s[h.n..h.n + h.v], Room(f, slot, p.fixedSize));
      StoredDecoded(env, id, k, slot, p.fixedSize, vs);
    } else {
      SingleField(env, id, p, k, wt, s);
      if f.lt == SUBMESSAGE {
        BaseDecoded(env, id, k, slot);
      }
      ValueDecoded(env, id, f, Base(env, f, slot), s);
      var v := DecValue(env, f, Base(env, f, slot), s).v;
      ItemDecoded(env, f, v);
      AdmitsOne(F, f, slot, p.fixedSize);
      NamesMember(env, id, k, slot);
      NothingCleared(env, F, p, k);
      StoredDecoded(env, id, k, slot, p.fixedSize, [v]);
    }
  }

  lemma ItemDecoded(env: Env, f: Field, v: Value)
    requires DecodedValue(env, f, v)
    ensures DecodedItem(env, f, v)
  {
  }

  lemma NamesMember(env: Env, id: nat, k: nat, slot: Slot)
    requires id < |env| && k < |env[id]| && DecodedSlot(env, id, Loc(env[id], k), slot)
    ensures var F := env[id];
            F[k].ht == ONEOF ==> slot.Union? && (slot.which == 0 || Member(F, Loc(F, k), slot.which))
  {
    hide FindTag, DecodedValue;
    LocTwice(env[id], k);
  }

  lemma AdmitsOne(F: Fields, f: Field, slot: Slot, size: nat)
    requires Admits(F, f, slot, size)
    ensures f.ht == REPEATED ==> Room(f, slot, size) >= 1
  {
  }

  lemma {:induction false} FieldsDecoded(env: Env, id: nat, p: Progress, s: Bytes)
    requires ValidEnv(env) && FitTables(env) && id < |env| && |p.slots| == |env[id]|
    requires Decoded(env, id, p.slots) && DecFields(env, id, p, s).Ok?
    ensures Decoded(env, id, DecFields(env, id, p, s).v.p.slots)
    decreases |s|, 2
  {
    hide Turn, Classify, DecField, Decoded;
    if s != [] {
      TurnIs(env, id, p, s);
      var h, r := Classify(env[id], s), Turn(env, id, p, s);
      if r.v.Some? {
        if h.Hit? {
          EnterKeeps(env[id], p, h.k);
          HitBehind(env[id], s);
          FieldDecoded(env, id, Enter(env[id], p, h.k).value, h.k, h.wt, s[h.n..]);
        }
        FieldsDecoded(env, id, r.v.value, s[r.n..]);
      }
    }
  }

  lemma HitBehind(F: Fields, s: Bytes)
    ensures Classify(F, s).Hit? ==> 1 <= Classify(F, s).n
  {
    hide DecVarint32, FindTag, Skip;
  }

  lemma {:induction false} MessageDecoded(env: Env, id: nat, slots: seq<Slot>, s: Bytes)
    requires ValidEnv(env) && FitTables(env) && id < |env| && Decoded(env, id, slots) && DecMsg(env, id, slots, s).Ok?
    ensures Decoded(env, id, DecMsg(env, id, slots, s).v)
    decreases |s|, 3
  {
    hide DecFields, Decoded;
    DecodedLength(env, id, slots);
    FieldsDecoded(env, id, Start(slots), s);
  }

  lemma DecodedLength(env: Env, id: nat, slots: seq<Slot>)
    requires Decoded(env, id, slots)
    ensures id < |env| && |slots| == |env[id]|
  {
  }

  // ----- Which of them can be encoded -----

  /** No NUL inside a string, lengths of 32 bits, and no submessage that nothing has set. */
  ghost predicate EncodableValue(env: Env, f: Field, v: Value)
    decreases v, 0
  {
    if f.lt != SUBMESSAGE then f.lt == STRING && v.Blob? ==> 0 !in v.bs
    else v.Msg? && Encodable(env, f.sub, v.slots) && Short(EncMsg(env, f.sub, v.slots))
  }

  ghost predicate EncodableSlot(env: Env, id: nat, k: nat, slot: Slot)
    requires id < |env| && k < |env[id]|
    decreases slot
  {
    var f := env[id][k];
    match slot
    case Plain(v) => if v.Null? then f.ht == OPTIONAL && f.at == PTR else EncodableValue(env, f, v)
    case Opt(has, v) => has ==> EncodableValue(env, f, v)
    case Arr(items) =>
      && (Packable(f.lt) ==> Short(EncItems(f, items)))
      && forall i :: 0 <= i < |items| ==> EncodableValue(env, f, items[i])
    case Union(which, u) =>
      FindTag(env[id], which).Some? ==> EncodableValue(env, env[id][FindTag(env[id], which).value], u)
    case Shared => true
  }

  /** Of a decoded message: what the encoder can put into words again. Required pointers are only null
      from the 65th required field on. */
  ghost predicate Encodable(env: Env, id: nat, slots: seq<Slot>)
    decreases slots, 0
  {
    id < |env| && |slots| == |env[id]| && forall k :: 0 <= k < |slots| ==> EncodableSlot(env, id, k, slots[k])
  }

  lemma {:induction false} EncodableIsGood(env: Env, f: Field, v: Value)
    requires ValidEnv(env) && DecodedValue(env, f, v)
    ensures GoodValue(env, f, v) <==> EncodableValue(env, f, v)
    ensures !v.Null?
    decreases v, 0
  {
    hide Good, Encodable, Decoded, GoodNumber, Fits;
    if f.lt == SUBMESSAGE {
      DecodedGood(env, f.sub, v.slots);
    }
  }

  lemma {:induction false} EncodableSlotGood(env: Env, id: nat, k: nat, slot: Slot)
    requires ValidEnv(env) && id < |env| && k < |env[id]| && !UnionTail(env[id], k) && DecodedSlot(env, id, k, slot)
    requires !slot.Union?
    ensures GoodSlot(env, env[id], k, slot) <==> EncodableSlot(env, id, k, slot)
    decreases slot, 1
  {
    hide GoodValue, EncodableValue, DecodedValue, FindTag;
    var f := env[id][k];
    match slot
    case Plain(v) =>
      if DecodedValue(env, f, v) {
        EncodableIsGood(env, f, v);
      }
    case Opt(has, v) => EncodableIsGood(env, f, v);
    case Arr(items) =>
      forall i | 0 <= i < |items|
        ensures GoodValue(env, f, items[i]) <==> EncodableValue(env, f, items[i])
      {
        if DecodedValue(env, f, items[i]) {
          EncodableIsGood(env, f, items[i]);
        } else {
          UnsetItem(env, f, items[i]);
        }
      }
    case Shared =>
  }

  lemma UnsetItem(env: Env, f: Field, v: Value)
    requires DecodedItem(env, f, v) && !DecodedValue(env, f, v)
    ensures !GoodValue(env, f, v) && !EncodableValue(env, f, v)
  {
  }

  /** The members of a union, seen from any of them. */
  lemma {:induction false} EncodableUnionGood(env: Env, id: nat, l: nat, slot: Slot)
    requires ValidEnv(env) && id < |env| && l < |env[id]| && !UnionTail(env[id], l) && DecodedSlot(env, id, l, slot)
    requires slot.Union?
    ensures EncodableSlot(env, id, l, slot) <==>
            forall k :: 0 <= k < |env[id]| && Loc(env[id], k) == l ==> GoodSlot(env, env[id], k, slot)
    decreases slot, 1
  {
    hide GoodValue, EncodableValue, DecodedValue, FindTag, Loc;
    var F := env[id];
    assert ValidMessage(env, id);
    var j := FindTag(F, slot.which);
    SlotKind(env, id, l, slot);
    LocSelf(F, l);
    if slot.which == 0 {
      NoZero(env, id);
    } else {
      assert Loc(F, j.value) == l && F[j.value].tag == slot.which;
      EncodableIsGood(env, F[j.value], slot.u);
    }
    forall k | 0 <= k < |F| && Loc(F, k) == l
      ensures GoodSlot(env, F, k, slot) <==> (slot.which == F[k].tag ==> GoodValue(env, F[k], slot.u))
    {
      UnionGood(env, F, k, slot);
    }
    forall k | 0 <= k < |F| && slot.which == F[k].tag
      ensures j == Some(k)
    {
      FindUnique(env, id, k);
    }
  }

  lemma LocSelf(F: Fields, l: nat)
    requires l < |F| && !UnionTail(F, l)
    ensures Loc(F, l) == l
  {
  }

  lemma UnionGood(env: Env, F: Fields, k: nat, slot: Slot)
    requires k < |F| && F[k].ht == ONEOF && slot.Union? && (slot.which == 0 || Member(F, Loc(F, k), slot.which))
    ensures GoodSlot(env, F, k, slot) <==> (slot.which == F[k].tag ==> GoodValue(env, F[k], slot.u))
  {
    hide GoodValue, FindTag;
  }

  lemma NoZero(env: Env, id: nat)
    requires id < |env| && ValidMessage(env, id)
    ensures FindTag(env[id], 0).None? && forall k :: 0 <= k < |env[id]| ==> env[id][k].tag != 0
  {
    assert forall k :: 0 <= k < |env[id]| ==> ValidField(env, id, env[id][k]);
  }

  /** A decoded message is one the format can carry if and only if it is encodable. */
  lemma {:induction false} DecodedGood(env: Env, id: nat, slots: seq<Slot>)
    requires ValidEnv(env) && Decoded(env, id, slots)
    ensures Good(env, id, slots) <==> Encodable(env, id, slots)
    decreases slots, 2
  {
    hide GoodSlot, EncodableSlot, DecodedSlot;
    var F := env[id];
    forall l | 0 <= l < |slots|
      ensures EncodableSlot(env, id, l, slots[l]) <==>
              forall k :: 0 <= k < |F| && Loc(F, k) == l ==> GoodSlot(env, F, k, slots[l])
    {
      CellEncodable(env, id, slots, l);
    }
    if Encodable(env, id, slots) {
      forall k | 0 <= k < |F|
        ensures GoodSlot(env, F, k, slots[Loc(F, k)])
      {
        assert EncodableSlot(env, id, Loc(F, k), slots[Loc(F, k)]);
      }
    }
  }

  lemma {:induction false} CellEncodable(env: Env, id: nat, slots: seq<Slot>, l: nat)
    requires ValidEnv(env) && Decoded(env, id, slots) && l < |slots|
    ensures EncodableSlot(env, id, l, slots[l]) <==>
            forall k :: 0 <= k < |env[id]| && Loc(env[id], k) == l ==> GoodSlot(env, env[id], k, slots[l])
    decreases slots, 1
  {
    hide GoodSlot, EncodableSlot, DecodedSlot;
    var F := env[id];
    if UnionTail(F, l) {
      TailEncodable(env, id, l);
    } else {
      SlotKind(env, id, l, slots[l]);
      if slots[l].Union? {
        EncodableUnionGood(env, id, l, slots[l]);
      } else {
        EncodableSlotGood(env, id, l, slots[l]);
        assert Loc(F, l) == l;
      }
    }
  }

  lemma TailEncodable(env: Env, id: nat, l: nat)
    requires id < |env| && l < |env[id]|
    ensures EncodableSlot(env, id, l, Shared)
  {
  }

  lemma SlotKind(env: Env, id: nat, k: nat, slot: Slot)
    requires id < |env| && k < |env[id]| && DecodedSlot(env, id, k, slot)
    ensures slot.Union? <==> env[id][k].ht == ONEOF
  {
    hide FindTag;
  }

  // ----- Decoding, encoding, decoding -----

  lemma {:induction false} IdealIsSelf(env: Env, f: Field, v: Value)
    requires ValidEnv(env) && DecodedValue(env, f, v) && GoodValue(env, f, v)
    ensures IdealValue(env, f, v) == v
    decreases v, 0
  {
    hide Good, Decoded, GoodNumber, Fits, Ideal;
    if f.lt == SUBMESSAGE {
      DecodedLength(env, f.sub, v.slots);
      IdealDecoded(env, f.sub, v.slots);
    }
  }

  lemma {:induction false} IdealItemsSelf(env: Env, f: Field, items: seq<Value>)
    requires ValidEnv(env)
    requires forall i :: 0 <= i < |items| ==> DecodedItem(env, f, items[i]) && GoodValue(env, f, items[i])
    ensures IdealItems(env, f, items) == items
    decreases items, 1
  {
    hide DecodedValue, GoodValue, IdealValue;
    if items != [] {
      SetItem(env, f, items[0]);
      IdealIsSelf(env, f, items[0]);
      IdealItemsSelf(env, f, items[1..]);
    }
  }

  lemma SetItem(env: Env, f: Field, v: Value)
    requires DecodedItem(env, f, v) && GoodValue(env, f, v)
    ensures DecodedValue(env, f, v)
  {
  }

  lemma {:induction false} IdealSlotSelf(env: Env, id: nat, k: nat, slot: Slot)
    requires ValidEnv(env) && id < |env| && k < |env[id]| && !UnionTail(env[id], k)
    requires DecodedSlot(env, id, k, slot) && GoodSlot(env, env[id], k, slot)
    requires slot.Union? && slot.which != 0 && FindTag(env[id], slot.which).Some? ==>
               GoodValue(env, env[id][FindTag(env[id], slot.which).value], slot.u)
    ensures IdealSlot(env, id, k, slot) == slot
    decreases slot, 1
  {
    hide GoodValue, DecodedValue, DecodedItem, IdealValue, IdealItems, FindTag;
    var f := env[id][k];
    match slot
    case Plain(v) =>
      if !v.Null? {
        IdealIsSelf(env, f, v);
      }
    case Opt(has, v) =>
      if has {
        IdealIsSelf(env, f, v);
      }
    case Arr(items) => IdealItemsSelf(env, f, items);
    case Union(which, u) =>
      if which != 0 {
        IdealIsSelf(env, env[id][FindTag(env[id], which).value], u);
      }
    case Shared =>
  }

  lemma {:induction false} IdealDecoded(env: Env, id: nat, slots: seq<Slot>)
    requires ValidEnv(env) && Decoded(env, id, slots) && Good(env, id, slots)
    ensures Ideal(env, id, slots) == slots
    decreases slots, 2
  {
    hide GoodSlot, DecodedSlot, IdealSlot, FindTag;
    forall k | 0 <= k < |slots|
      ensures IdealSlot(env, id, k, slots[k]) == slots[k]
    {
      if UnionTail(env[id], k) {
        SharedIdeal(env, id, k);
      } else {
        SelectedGood(env, id, slots, k);
        IdealSlotSelf(env, id, k, slots[k]);
      }
    }
    assert Ideal(env, id, slots) == slots;
  }

  lemma SharedIdeal(env: Env, id: nat, k: nat)
    requires id < |env| && k < |env[id]|
    ensures IdealSlot(env, id, k, Shared) == Shared
  {
  }

  /** Whatever the decoder accepted, if encodable, the encoder accepts, wherever the allocator has put the
      numbers; and decoding that again gives the same message, if and only if no implicit member is
      forgotten or, for these addresses, dropped. */
  lemma DecodedRoundTrip(env: Env, id: nat, s: Bytes, held: seq<Slot>)
    requires ValidEnv(env) && FitTables(env) && id < |env| && Decode(env, id, s).Ok?
    requires Encodable(env, id, Decode(env, id, s).v) && Placed(env, id, Decode(env, id, s).v, held)
    ensures EncMsg(env, id, held).Some?
    ensures Decode(env, id, EncMsg(env, id, held).value) == Ok(Decode(env, id, s).v, |EncMsg(env, id, held).value|)
            <==> Kept(env, id, held)
  {
    hide DecMsg, EncMsg, Good, Encodable, Decoded, Kept, Ideal, Norm, Defaults, Placed;
    DecodedHeld(env, id, s, held);
    MessageRoundTrip(env, id, held);
  }

  lemma DecodedHeld(env: Env, id: nat, s: Bytes, held: seq<Slot>)
    requires ValidEnv(env) && FitTables(env) && id < |env| && Decode(env, id, s).Ok?
    requires Encodable(env, id, Decode(env, id, s).v) && Placed(env, id, Decode(env, id, s).v, held)
    ensures |held| == |env[id]| && Good(env, id, held) && Ideal(env, id, held) == Decode(env, id, s).v
  {
    hide DecMsg, Good, Encodable, Decoded, Ideal, Defaults, Placed;
    var m := Decode(env, id, s).v;
    DefaultsDecoded(env, id);
    MessageDecoded(env, id, Defaults(env, id), s);
    DecodedGood(env, id, m);
    IdealDecoded(env, id, m);
    PlacedLength(env, id, m, held);
    IdealStays(env, id, m, held);
    GoodStays(env, id, m, held);
  }

  /** With tables for which nothing is ever lost the message always survives. */
  lemma DecodedPlainRoundTrip(env: Env, id: nat, s: Bytes, held: seq<Slot>)
    requires ValidEnv(env) && FitTables(env) && PlainTables(env) && id < |env| && Decode(env, id, s).Ok?
    requires Encodable(env, id, Decode(env, id, s).v) && Placed(env, id, Decode(env, id, s).v, held)
    ensures EncMsg(env, id, held).Some?
    ensures Decode(env, id, EncMsg(env, id, held).value) == Ok(Decode(env, id, s).v, |EncMsg(env, id, held).value|)
  {
    hide DecMsg, EncMsg, Good, Encodable, Kept, Ideal, Placed, PlainTables, FitTables, Decode;
    DecodedHeld(env, id, s, held);
    PlainRoundTrip(env, id, held);
  }

  // ----- A message that does not survive where the allocator has put it -----

  /** A submessage with a true behind a pointer is decoded; at an address whose low byte is zero the true
      is lost when the message is sent on. */
  lemma LostOnTheWay(f: Field, g: Field)
    requires f == Field(1, BOOL, OPTIONAL, PTR, 0, 0, 1, 0, 0, None)
    requires g == Field(1, SUBMESSAGE, OPTIONAL, STATIC, 0, 0, 8, 0, 0, None)
    ensures var env, m, held := [[f], [g]], [Plain(Msg([Plain(Num(1))]))], [Plain(Msg([Plain(At(0x100, 1))]))];
            && ValidEnv(env) && Decode(env, 1, [0x0A, 2, 8, 1]) == Ok(m, 4)
            && Placed(env, 1, m, held) && EncMsg(env, 1, held) == Some([])
            && Decode(env, 1, []).Ok? && Decode(env, 1, []).v != m
  {
    hide Decode, EncMsg, Good, Norm;
    var env, m, inner := [[f], [g]], [Plain(Msg([Plain(Num(1))]))], [Plain(Num(1))];
    DroppedBool(f, g);
    assert PlacedValue(env, f, Num(1), At(0x100, 1)) && Placed(env, 0, inner, [Plain(At(0x100, 1))]);
    TrueEncoded(f, g);
    MessageRoundTrip(env, 1, m);
  }

  lemma TrueEncoded(f: Field, g: Field)
    requires f == Field(1, BOOL, OPTIONAL, PTR, 0, 0, 1, 0, 0, None)
    requires g == Field(1, SUBMESSAGE, OPTIONAL, STATIC, 0, 0, 8, 0, 0, None)
    ensures var env, m := [[f], [g]], [Plain(Msg([Plain(Num(1))]))];
            Good(env, 1, m) && EncMsg(env, 1, m) == Some([0x0A, 2, 8, 1]) && Norm(env, 1, m) == m
  {
    hide IsDefault;
    var env, inner := [[f], [g]], [Plain(Num(1))];
    var v, m := Msg(inner), [Plain(Msg(inner))];
    assert Loc(env[0], 0) == 0 && Loc(env[1], 0) == 0;
    OneField(env, 0, f, inner[0], [8, 1]) by {
      assert EncVarint(8) == [8] && EncVarint(1) == [1];
      assert EncRecord(env, f, Num(1)) == Some([8] + [1]) && [8] + [1] == [8, 1];
    }
    assert !IsDefault(env, g, m[0]) by {
      NotDefault(env, f, g);
    }
    OneField(env, 1, g, m[0], [0x0A, 2, 8, 1]) by {
      assert EncVarint(10) == [10] && EncVarint(2) == [2];
      assert EncValue(env, g, v) == Some([2] + [8, 1]);
      assert EncRecord(env, g, v) == Some([10] + ([2] + [8, 1])) && [10] + ([2] + [8, 1]) == [0x0A, 2, 8, 1];
    }
    assert GoodSlot(env, env[0], 0, inner[0]) && Good(env, 0, inner);
    assert GoodValue(env, g, v) && GoodSlot(env, env[1], 0, m[0]);
    assert Norm(env, 0, inner) == inner && NormValue(env, g, v) == v && Norm(env, 1, m) == m;
  }

  lemma NotDefault(env: Env, f: Field, g: Field)
    requires |env| > 0 && env[0] == [f] && f.ht == OPTIONAL && f.at == PTR && Packable(f.lt)
    requires g.ht == OPTIONAL && g.at == STATIC && g.sub == 0
    ensures !IsDefault(env, g, Plain(Msg([Plain(Num(1))])))
  {
    var inner := [Plain(Num(1))];
    assert Loc(env[0], 0) == 0 && !IsDefault(env, env[0][0], inner[Loc(env[0], 0)]);
  }

  lemma OneField(env: Env, id: nat, f: Field, slot: Slot, e: Bytes)
    requires id < |env| && env[id] == [f] && EncSlot(env, f, slot) == Some(e) && Loc(env[id], 0) == 0
    ensures EncMsg(env, id, [slot]) == Some(e)
  {
    hide EncSlot;
    assert EncFrom(env, id, [slot], 1) == Some([]) && e + [] == e;
    assert EncFrom(env, id, [slot], 0) == Append(EncSlot(env, f, [slot][Loc(env[id], 0)]), EncFrom(env, id, [slot], 1));
  }
}
