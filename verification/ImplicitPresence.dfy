/** Members with implicit presence: what the encoder leaves out, and when leaving it out loses something. */
module ImplicitPresence {
  import opened Bits
  import opened Varint
  import opened Schema
  import opened Wrappers
  import opened DecodeSpec
  import opened EncodeSpec
  import opened Scalars
  import opened Messages

  /** An optional member stored in place without a has_ flag. */
  predicate Implicit(f: Field)
  {
    f.ht == OPTIONAL && f.at == STATIC && !HasField(f)
  }

  /** A scalar that is not written although its absence stands for something else. */
  predicate Forgotten(f: Field, v: Value)
  {
    && f.lt !in {SUBMESSAGE, FIXED_LENGTH_BYTES} && v == ZeroValue(f)
    && f.dflt.Some? && f.dflt.value != v
  }

  /** An optional pointer to a number. */
  predicate NumberPointer(f: Field)
  {
    f.ht == OPTIONAL && f.at == PTR && Packable(f.lt)
  }

  /** The struct has a number behind an optional pointer. */
  predicate HoldsNumber(F: Fields, slots: seq<Slot>)
    requires |slots| == |F|
  {
    exists k :: 0 <= k < |F| && NumberPointer(F[k]) && slots[k].Plain? && !slots[k].v.Null?
  }

  /** Every member of a submessage passes for default, so the encoder leaves the submessage out. */
  predicate AllDefault(env: Env, id: nat, slots: seq<Slot>)
    requires id < |env| && |slots| == |env[id]|
  {
    forall k :: 0 <= k < |slots| ==> IsDefault(env, env[id][k], slots[Loc(env[id], k)])
  }

  /** A submessage that is not written although it holds a number: the low bytes of the number's
      address are all zero. */
  predicate Dropped(env: Env, id: nat, slots: seq<Slot>)
    requires id < |env| && |slots| == |env[id]|
  {
    AllDefault(env, id, slots) && HoldsNumber(env[id], slots)
  }

  // ----- Messages that lose nothing -----

  predicate KeptValue(env: Env, f: Field, v: Value)
    decreases v
  {
    f.lt == SUBMESSAGE && v.Msg? && f.sub < |env| && |v.slots| == |env[f.sub]| ==> Kept(env, f.sub, v.slots)
  }

  predicate KeptItems(env: Env, f: Field, items: seq<Value>)
    decreases items
  {
    items == [] || (KeptValue(env, f, items[0]) && KeptItems(env, f, items[1..]))
  }

  /** What the encoder leaves out of an implicit member does not matter. */
  predicate KeptImplicit(env: Env, f: Field, v: Value)
  {
    if f.lt == SUBMESSAGE then v.Msg? && f.sub < |env| && |v.slots| == |env[f.sub]| ==> !Dropped(env, f.sub, v.slots)
    else !Forgotten(f, v)
  }

  predicate KeptSlot(env: Env, id: nat, k: nat, slot: Slot)
    requires id < |env| && k < |env[id]|
    decreases slot
  {
    var f := env[id][k];
    match slot
    case Plain(v) => KeptValue(env, f, v) && (Implicit(f) ==> KeptImplicit(env, f, v))
    case Opt(has, v) => has ==> KeptValue(env, f, v)
    case Arr(items) => KeptItems(env, f, items)
    case Union(which, u) =>
      which != 0 && FindTag(env[id], which).Some? ==> KeptValue(env, env[id][FindTag(env[id], which).value], u)
    case Shared => true
  }

  /** No implicit member, at any depth, is forgotten or dropped. */
  predicate Kept(env: Env, id: nat, slots: seq<Slot>)
    requires id < |env| && |slots| == |env[id]|
    decreases slots
  {
    forall k :: 0 <= k < |slots| ==> KeptSlot(env, id, k, slots[k])
  }

  // ----- Submessages that are left out -----

  lemma TailSlot(env: Env, id: nat, k: nat, slot: Slot)
    requires id < |env| && k < |env[id]| && UnionTail(env[id], k) && slot == Shared
    ensures NormSlot(env, id, k, slot) == DefaultSlot(env, id, k)
  {
  }

  /** A member that passes for default comes back as the default, but for numbers behind pointers. */
  lemma OmittedSlot(env: Env, id: nat, k: nat, slot: Slot)
    requires ValidEnv(env) && id < |env| && k < |env[id]| && !UnionTail(env[id], k)
    requires GoodSlot(env, env[id], k, slot) && IsDefault(env, env[id][k], slot)
    ensures NormSlot(env, id, k, slot) == DefaultSlot(env, id, k)
            <==> !(NumberPointer(env[id][k]) && slot.Plain? && !slot.v.Null?)
  {
    hide GoodValue, GoodItems, ZeroBytes;
    assert ValidMessage(env, id) && ValidField(env, id, env[id][k]);
  }

  /** A submessage the encoder leaves out is the one that decodes from nothing, if and only if it has
      no number behind a pointer. */
  lemma {:induction false} OmittedSubmessage(env: Env, id: nat, slots: seq<Slot>)
    requires ValidEnv(env) && Good(env, id, slots) && AllDefault(env, id, slots)
    ensures Norm(env, id, slots) == Defaults(env, id) <==> !HoldsNumber(env[id], slots)
  {
    hide IsDefault, GoodSlot, NormSlot, DefaultSlot, NumberPointer;
    forall k | 0 <= k < |slots|
      ensures NormSlot(env, id, k, slots[k]) == DefaultSlot(env, id, k)
              <==> !(NumberPointer(env[id][k]) && slots[k].Plain? && !slots[k].v.Null?)
    {
      if UnionTail(env[id], k) {
        TailSlot(env, id, k, slots[k]);
      } else {
        assert Loc(env[id], k) == k;
        OmittedSlot(env, id, k, slots[k]);
      }
    }
    assert forall k :: 0 <= k < |slots| ==> Norm(env, id, slots)[k] == NormSlot(env, id, k, slots[k]);
    assert forall k :: 0 <= k < |slots| ==> Defaults(env, id)[k] == DefaultSlot(env, id, k);
    if !HoldsNumber(env[id], slots) {
      assert Norm(env, id, slots) == Defaults(env, id);
    }
  }

  lemma ScalarDefault(env: Env, id: nat, k: nat, v: Value)
    requires ValidEnv(env) && id < |env| && k < |env[id]|
    requires Implicit(env[id][k]) && env[id][k].lt != SUBMESSAGE && GoodBasic(env[id][k], v)
    ensures !v.Null? && !v.Msg? && !v.At?
    ensures IsDefault(env, env[id][k], Plain(v)) <==> env[id][k].lt != FIXED_LENGTH_BYTES && v == ZeroValue(env[id][k])
  {
    hide ZeroBytes, InRange;
    var f := env[id][k];
    assert ValidMessage(env, id) && ValidField(env, id, f);
    if v.Num? {
      ZeroNumber(f, v.n);
    }
  }

  /** An implicit member comes back as it was, if and only if it is neither a zero whose default is not
      zero nor a submessage dropped for the address of a number. */
  lemma {:induction false} ImplicitKept(env: Env, id: nat, k: nat, v: Value)
    requires ValidEnv(env) && id < |env| && k < |env[id]| && Implicit(env[id][k])
    requires GoodSlot(env, env[id], k, Plain(v))
    ensures NormSlot(env, id, k, Plain(v)) == Plain(NormValue(env, env[id][k], v)) <==> KeptImplicit(env, env[id][k], v)
  {
    hide Good, GoodBasic, Norm, Defaults, FindTag, HoldsNumber, ZeroBytes;
    var f := env[id][k];
    assert ValidMessage(env, id) && ValidField(env, id, f);
    if f.lt == SUBMESSAGE {
      LeftOut(env, f, v);
      if AllDefault(env, f.sub, v.slots) {
        OmittedSubmessage(env, f.sub, v.slots);
      }
    } else {
      ScalarDefault(env, id, k, v);
    }
  }

  /** Nothing is written for a member; the address of a number behind a pointer ends in zeros, as many
      as the number has bytes. */
  predicate Unwritten(env: Env, f: Field, slot: Slot)
  {
    if NumberPointer(f) && slot.Plain? && !slot.v.Null? then slot.v.At? && slot.v.addr % Pow256(f.dataSize) == 0
    else if slot.Union? then slot.which == 0
    else EncSlot(env, f, slot) == Some([])
  }

  /** That is when a member passes for default. */
  lemma DefaultIsUnwritten(env: Env, id: nat, k: nat, slot: Slot)
    requires ValidEnv(env) && id < |env| && k < |env[id]| && GoodSlot(env, env[id], k, slot)
    ensures IsDefault(env, env[id][k], slot) <==> Unwritten(env, env[id][k], slot)
  {
    hide GoodValue, GoodItems, ZeroBytes, EncRecord, EncRecords, EncPacked, Pow256, FindTag;
    var f := env[id][k];
    assert ValidMessage(env, id) && ValidField(env, id, f);
    match slot
    case Plain(v) =>
      if NumberPointer(f) && v.At? {
        ZeroBytesModulo(v.addr, f.dataSize);
      }
      RecordWritten(env, f, v);
    case Opt(has, v) => RecordWritten(env, f, v);
    case Arr(items) =>
      if items != [] {
        ItemsWritten(env, f, items);
      }
    case Union(_, _) =>
  }

  /** Bytes or a string in place are left out when an empty payload would be written, whatever lies behind
      the terminator of the string. */
  lemma EmptyTextUnwritten(env: Env, f: Field, bs: Bytes)
    requires Implicit(f) && f.lt in {BYTES, STRING} && f.dataSize >= 1 && EncBlob(f, bs).Some?
    ensures EncSlot(env, f, Plain(Blob(bs))) == Some([]) <==> EncBlob(f, bs) == Some([0])
  {
    hide EncTag;
    RecordWritten(env, f, Blob(bs));
    EmptyPrefixed(if f.lt == BYTES then bs else bs[..StringLength(bs, f.dataSize)]);
  }

  lemma EmptyPrefixed(body: Bytes)
    ensures Prefixed(body) == [0] <==> body == []
  {
    if body == [] {
      assert EncVarint(0) == [0];
    } else {
      EncSizes(|body|);
      assert |Prefixed(body)| > 1;
    }
  }

  /** Nothing but an empty array is written as nothing. */
  lemma ItemsWritten(env: Env, f: Field, items: seq<Value>)
    requires items != []
    ensures EncArray(env, f, items) != Some([])
  {
    hide EncValue, EncItems, EncVarint, EncRecord;
    RecordWritten(env, f, items[0]);
    var r := EncRecords(env, f, items[1..]);
    assert EncRecords(env, f, items) == Append(EncRecord(env, f, items[0]), r);
  }

  /** A submessage with implicit presence is left out exactly when this is so for all of its members. */
  lemma LeftOutExactly(env: Env, id: nat, k: nat, v: Value)
    requires ValidEnv(env) && id < |env| && k < |env[id]| && Implicit(env[id][k]) && env[id][k].lt == SUBMESSAGE
    requires GoodSlot(env, env[id], k, Plain(v))
    ensures v.Msg? && env[id][k].sub < |env| && |v.slots| == |env[env[id][k].sub]|
    ensures EncSlot(env, env[id][k], Plain(v)) == Some([]) <==>
            forall j :: 0 <= j < |v.slots| ==>
              var F := env[env[id][k].sub]; Unwritten(env, F[j], v.slots[Loc(F, j)])
  {
    hide GoodValue, EncValue, IsDefault, Unwritten, Good;
    var f := env[id][k];
    LeftOut(env, f, v);
    RecordWritten(env, f, v);
    forall j | 0 <= j < |v.slots|
      ensures var g, slot := env[f.sub][j], v.slots[Loc(env[f.sub], j)];
              IsDefault(env, g, slot) <==> Unwritten(env, g, slot)
    {
      MemberGood(env, f.sub, v.slots, j);
      DefaultIsUnwritten(env, f.sub, j, v.slots[Loc(env[f.sub], j)]);
    }
  }

  /** A record has at least its tag. */
  lemma RecordWritten(env: Env, f: Field, v: Value)
    ensures EncRecord(env, f, v) != Some([])
  {
    hide EncValue, EncVarint;
  }

  lemma MemberGood(env: Env, id: nat, slots: seq<Slot>, j: nat)
    requires Good(env, id, slots) && j < |slots|
    ensures GoodSlot(env, env[id], j, slots[Loc(env[id], j)])
  {
    hide GoodSlot;
  }

  lemma LeftOut(env: Env, f: Field, v: Value)
    requires Implicit(f) && f.lt == SUBMESSAGE && GoodValue(env, f, v)
    ensures v.Msg? && f.sub < |env| && |v.slots| == |env[f.sub]| && Good(env, f.sub, v.slots)
    ensures IsDefault(env, f, Plain(v)) <==> AllDefault(env, f.sub, v.slots)
  {
    hide GoodSlot;
  }

  // ----- What comes back is what should -----

  lemma {:induction false} ValueIdeal(env: Env, f: Field, v: Value)
    requires ValidEnv(env) && GoodValue(env, f, v)
    ensures NormValue(env, f, v) == IdealValue(env, f, v) <==> KeptValue(env, f, v)
    decreases v, 0
  {
    hide Good, Norm, Ideal, Kept, GoodBasic;
    if f.lt == SUBMESSAGE {
      GoodLength(env, f.sub, v.slots);
      NormIsIdeal(env, f.sub, v.slots);
    }
  }

  lemma GoodLength(env: Env, id: nat, slots: seq<Slot>)
    requires Good(env, id, slots)
    ensures id < |env| && |slots| == |env[id]|
  {
  }

  lemma {:induction false} ItemsIdeal(env: Env, f: Field, items: seq<Value>)
    requires ValidEnv(env) && forall i :: 0 <= i < |items| ==> GoodValue(env, f, items[i])
    ensures NormItems(env, f, items) == IdealItems(env, f, items) <==> KeptItems(env, f, items)
    decreases items, 0
  {
    hide GoodValue, NormValue, IdealValue, KeptValue;
    if items != [] {
      ValueIdeal(env, f, items[0]);
      ItemsIdeal(env, f, items[1..]);
      var a, b := NormItems(env, f, items), IdealItems(env, f, items);
      assert a[0] == NormValue(env, f, items[0]) && a[1..] == NormItems(env, f, items[1..]);
      assert b[0] == IdealValue(env, f, items[0]) && b[1..] == IdealItems(env, f, items[1..]);
    }
  }

  /** A number behind a pointer tells a message from the default one. */
  lemma IdealNumber(env: Env, id: nat, slots: seq<Slot>)
    requires ValidEnv(env) && Good(env, id, slots) && HoldsNumber(env[id], slots)
    ensures Ideal(env, id, slots) != Defaults(env, id)
  {
    var k :| 0 <= k < |slots| && NumberPointer(env[id][k]) && slots[k].Plain? && !slots[k].v.Null?;
    assert Loc(env[id], k) == k && GoodSlot(env, env[id], k, slots[k]);
    assert GoodValue(env, env[id][k], slots[k].v);
    assert Ideal(env, id, slots)[k] == IdealSlot(env, id, k, slots[k]) != Plain(Null);
    assert Defaults(env, id)[k] == DefaultSlot(env, id, k) == Plain(Null);
  }

  lemma {:induction false} ImplicitIdeal(env: Env, id: nat, k: nat, v: Value)
    requires ValidEnv(env) && id < |env| && k < |env[id]| && Implicit(env[id][k])
    requires GoodSlot(env, env[id], k, Plain(v))
    ensures NormSlot(env, id, k, Plain(v)) == Plain(IdealValue(env, env[id][k], v))
            <==> KeptValue(env, env[id][k], v) && KeptImplicit(env, env[id][k], v)
    decreases v, 1
  {
    hide Good, GoodBasic, Norm, Ideal, Kept, Defaults, FindTag, HoldsNumber, AllDefault;
    var f := env[id][k];
    assert ValidMessage(env, id) && ValidField(env, id, f);
    ImplicitKept(env, id, k, v);
    ValueIdeal(env, f, v);
    if f.lt == SUBMESSAGE {
      LeftOut(env, f, v);
      if Dropped(env, f.sub, v.slots) {
        IdealNumber(env, f.sub, v.slots);
        assert NormSlot(env, id, k, Plain(v)) == Plain(Msg(Defaults(env, f.sub)));
      }
    }
  }

  lemma {:induction false} SlotIdeal(env: Env, id: nat, k: nat, slot: Slot)
    requires ValidEnv(env) && id < |env| && k < |env[id]| && !UnionTail(env[id], k)
    requires GoodSlot(env, env[id], k, slot)
    requires slot.Union? && slot.which != 0 && FindTag(env[id], slot.which).Some? ==>
               GoodValue(env, env[id][FindTag(env[id], slot.which).value], slot.u)
    ensures NormSlot(env, id, k, slot) == IdealSlot(env, id, k, slot) <==> KeptSlot(env, id, k, slot)
    decreases slot, 1
  {
    hide GoodValue, NormValue, IdealValue, KeptValue, NormItems, IdealItems, KeptItems, FindTag, KeptImplicit, IsDefault;
    var f := env[id][k];
    assert ValidMessage(env, id) && ValidField(env, id, f);
    match slot
    case Plain(v) =>
      if Implicit(f) {
        ImplicitIdeal(env, id, k, v);
      } else if !(f.ht == OPTIONAL && v.Null?) {
        ValueIdeal(env, f, v);
      } else {
        NullKept(env, f);
      }
    case Opt(has, v) =>
      if has {
        ValueIdeal(env, f, v);
      }
    case Arr(items) => ItemsIdeal(env, f, items);
    case Union(which, u) =>
      if which != 0 && FindTag(env[id], which).Some? {
        ValueIdeal(env, env[id][FindTag(env[id], which).value], u);
      }
    case Shared =>
  }

  lemma NullKept(env: Env, f: Field)
    ensures KeptValue(env, f, Null)
  {
  }

  /** What is selected in a union is good. */
  lemma SelectedGood(env: Env, id: nat, slots: seq<Slot>, k: nat)
    requires ValidEnv(env) && Good(env, id, slots) && k < |slots| && !UnionTail(env[id], k)
    ensures GoodSlot(env, env[id], k, slots[k])
    ensures slots[k].Union? && slots[k].which != 0 && FindTag(env[id], slots[k].which).Some? ==>
              GoodValue(env, env[id][FindTag(env[id], slots[k].which).value], slots[k].u)
  {
    hide GoodValue, GoodItems;
    assert Loc(env[id], k) == k;
    if slots[k].Union? && slots[k].which != 0 && FindTag(env[id], slots[k].which).Some? {
      var j := FindTag(env[id], slots[k].which).value;
      assert Loc(env[id], j) == k;
      assert GoodSlot(env, env[id], j, slots[Loc(env[id], j)]);
    }
  }

  /** The round trip gives back the message itself if and only if nothing in it is forgotten or dropped. */
  lemma {:induction false} NormIsIdeal(env: Env, id: nat, slots: seq<Slot>)
    requires ValidEnv(env) && Good(env, id, slots)
    ensures Norm(env, id, slots) == Ideal(env, id, slots) <==> Kept(env, id, slots)
    decreases slots, 2
  {
    hide GoodSlot, NormSlot, IdealSlot, KeptSlot, FindTag;
    var a, b := Norm(env, id, slots), Ideal(env, id, slots);
    forall k | 0 <= k < |slots|
      ensures a[k] == b[k] <==> KeptSlot(env, id, k, slots[k])
    {
      if UnionTail(env[id], k) {
        SharedKept(env, id, k);
      } else {
        SelectedGood(env, id, slots, k);
        SlotIdeal(env, id, k, slots[k]);
      }
    }
    if Kept(env, id, slots) {
      assert a == b;
    }
  }

  lemma SharedKept(env: Env, id: nat, k: nat)
    requires id < |env| && k < |env[id]|
    ensures NormSlot(env, id, k, Shared) == IdealSlot(env, id, k, Shared) && KeptSlot(env, id, k, Shared)
  {
  }
}
