/** The same message with its numbers at other addresses. */
module Placement {
  import opened Bits
  import opened Varint
  import opened Schema
  import opened Wrappers
  import opened DecodeSpec
  import opened EncodeSpec
  import opened Scalars
  import opened Messages
  import opened RoundTrip

  /** A number behind a pointer of its own may have been given an address; elements of an array have none. */
  predicate PlacedValue(env: Env, f: Field, v: Value, w: Value)
    decreases v
  {
    || v == w
    || (f.lt != SUBMESSAGE && f.at == PTR && v.Num? && w.At? && w.n == v.n && 0 < w.addr < TWO_64)
    || (f.lt == SUBMESSAGE && v.Msg? && w.Msg? && f.sub < |env| && Placed(env, f.sub, v.slots, w.slots))
  }

  predicate PlacedSlot(env: Env, F: Fields, k: nat, s: Slot, t: Slot)
    requires k < |F|
    decreases s
  {
    match s
    case Plain(v) => t.Plain? && PlacedValue(env, F[k], v, t.v)
    case Opt(has, v) => t.Opt? && t.has == has && PlacedValue(env, F[k], v, t.v)
    case Arr(items) =>
      t.Arr? && |t.items| == |items| &&
      if F[k].lt == SUBMESSAGE then forall i :: 0 <= i < |items| ==> PlacedValue(env, F[k], items[i], t.items[i])
      else t.items == items
    case Union(which, u) =>
      t.Union? && t.which == which &&
      (match FindTag(F, which) case Some(j) => PlacedValue(env, F[j], u, t.u) case None => t.u == u)
    case Shared => t == Shared
  }

  /** `t` is `s` with addresses for some of the numbers behind pointers, at any depth. */
  predicate Placed(env: Env, id: nat, s: seq<Slot>, t: seq<Slot>)
    decreases s
  {
    id < |env| && |s| == |t| == |env[id]| && forall k :: 0 <= k < |s| ==> PlacedSlot(env, env[id], k, s[k], t[k])
  }

  // ----- Only addresses differ -----

  lemma {:induction false} IdealStays(env: Env, id: nat, s: seq<Slot>, t: seq<Slot>)
    requires Placed(env, id, s, t)
    ensures Ideal(env, id, t) == Ideal(env, id, s)
    decreases s
  {
    hide PlacedSlot, IdealSlot;
    forall k | 0 <= k < |s|
      ensures IdealSlot(env, id, k, t[k]) == IdealSlot(env, id, k, s[k])
    {
      IdealSlotStays(env, id, k, s[k], t[k]);
    }
    assert Ideal(env, id, t) == Ideal(env, id, s);
  }

  lemma {:induction false} IdealSlotStays(env: Env, id: nat, k: nat, s: Slot, t: Slot)
    requires id < |env| && k < |env[id]| && PlacedSlot(env, env[id], k, s, t)
    ensures IdealSlot(env, id, k, t) == IdealSlot(env, id, k, s)
    decreases s
  {
    hide PlacedValue, IdealValue, IdealItems, FindTag;
    var F := env[id];
    match s
    case Plain(v) => IdealValueStays(env, F[k], v, t.v);
    case Opt(has, v) => IdealValueStays(env, F[k], v, t.v);
    case Arr(items) =>
      if F[k].lt == SUBMESSAGE {
        IdealItemsStay(env, F[k], items, t.items);
      }
    case Union(which, u) =>
      if FindTag(F, which).Some? {
        IdealValueStays(env, F[FindTag(F, which).value], u, t.u);
      }
    case Shared =>
  }

  lemma {:induction false} IdealItemsStay(env: Env, f: Field, s: seq<Value>, t: seq<Value>)
    requires |s| == |t| && forall i :: 0 <= i < |s| ==> PlacedValue(env, f, s[i], t[i])
    ensures IdealItems(env, f, t) == IdealItems(env, f, s)
    decreases s
  {
    hide PlacedValue, IdealValue;
    if s != [] {
      IdealValueStays(env, f, s[0], t[0]);
      IdealItemsStay(env, f, s[1..], t[1..]);
    }
  }

  lemma {:induction false} IdealValueStays(env: Env, f: Field, v: Value, w: Value)
    requires PlacedValue(env, f, v, w)
    ensures IdealValue(env, f, w) == IdealValue(env, f, v)
    ensures v.Null? <==> w.Null?
    decreases v
  {
    hide Placed, Ideal;
    if v != w && f.lt == SUBMESSAGE {
      IdealStays(env, f.sub, v.slots, w.slots);
      PlacedLength(env, f.sub, v.slots, w.slots);
    }
  }

  lemma PlacedLength(env: Env, id: nat, s: seq<Slot>, t: seq<Slot>)
    requires Placed(env, id, s, t)
    ensures id < |env| && |s| == |t| == |env[id]|
  {
  }

  // ----- An address can only shorten the encoding -----

  lemma PlacedAt(env: Env, id: nat, s: seq<Slot>, t: seq<Slot>, k: nat)
    requires Placed(env, id, s, t) && k < |s|
    ensures PlacedSlot(env, env[id], k, s[k], t[k])
  {
  }

  lemma {:induction false} DefaultStays(env: Env, F: Fields, j: nat, s: Slot, t: Slot)
    requires j < |F| && PlacedSlot(env, F, Loc(F, j), s, t) && IsDefault(env, F[j], s)
    ensures IsDefault(env, F[j], t)
    decreases s
  {
    hide ZeroBytes, FindTag, Placed;
    if s.Plain? && s.v != t.v && F[j].lt == SUBMESSAGE && F[j].at == STATIC {
      var G, x, y := env[F[j].sub], s.v.slots, t.v.slots;
      PlacedLength(env, F[j].sub, x, y);
      forall k | 0 <= k < |y|
        ensures IsDefault(env, G[k], y[Loc(G, k)])
      {
        PlacedAt(env, F[j].sub, x, y, Loc(G, k));
        DefaultStays(env, G, k, x[Loc(G, k)], y[Loc(G, k)]);
      }
    }
  }

  /** The second encoding exists if the first does, and is not longer. */
  predicate Shrinks(a: Option<Bytes>, b: Option<Bytes>)
  {
    a.Some? ==> b.Some? && |b.value| <= |a.value|
  }

  lemma ShrinksBoth(a: Option<Bytes>, b: Option<Bytes>, c: Option<Bytes>, d: Option<Bytes>)
    requires Shrinks(a, b) && Shrinks(c, d)
    ensures Shrinks(Append(a, c), Append(b, d))
  {
  }

  lemma {:induction false} ValueShrinks(env: Env, f: Field, v: Value, w: Value)
    requires ValidEnv(env) && PlacedValue(env, f, v, w)
    ensures Shrinks(EncValue(env, f, v), EncValue(env, f, w))
    decreases v, 0
  {
    hide Placed, EncMsg, EncNumber, EncBlob, EncVarint;
    if v != w && f.lt == SUBMESSAGE {
      MessageShrinks(env, f.sub, v.slots, w.slots);
      var a, b := EncMsg(env, f.sub, v.slots), EncMsg(env, f.sub, w.slots);
      if a.Some? {
        EncMonotone(|b.value|, |a.value|);
      }
    }
  }

  lemma {:induction false} RecordShrinks(env: Env, f: Field, v: Value, w: Value)
    requires ValidEnv(env) && PlacedValue(env, f, v, w)
    ensures Shrinks(EncRecord(env, f, v), EncRecord(env, f, w))
    decreases v, 1
  {
    hide PlacedValue, EncValue;
    ValueShrinks(env, f, v, w);
  }

  lemma {:induction false} RecordsShrink(env: Env, f: Field, s: seq<Value>, t: seq<Value>)
    requires ValidEnv(env) && |s| == |t| && forall i :: 0 <= i < |s| ==> PlacedValue(env, f, s[i], t[i])
    ensures Shrinks(EncRecords(env, f, s), EncRecords(env, f, t))
    decreases s, 0
  {
    hide PlacedValue, EncRecord;
    if s != [] {
      RecordShrinks(env, f, s[0], t[0]);
      RecordsShrink(env, f, s[1..], t[1..]);
    }
  }

  lemma ShapeStays(env: Env, F: Fields, j: nat, s: Slot, t: Slot)
    requires j < |F| && PlacedSlot(env, F, Loc(F, j), s, t)
    ensures Shaped(F[j], s) ==> Shaped(F[j], t)
  {
    hide PlacedValue, FindTag;
  }

  lemma {:induction false} SlotShrinks(env: Env, id: nat, j: nat, s: Slot, t: Slot)
    requires ValidEnv(env) && id < |env| && j < |env[id]| && PlacedSlot(env, env[id], Loc(env[id], j), s, t)
    ensures Shrinks(EncSlot(env, env[id][j], s), EncSlot(env, env[id][j], t))
    decreases s, 2
  {
    hide PlacedValue, EncRecord, EncRecords, EncPacked, FindTag, IsDefault;
    var F, f := env[id], env[id][j];
    ShapeStays(env, F, j, s, t);
    if Shaped(f, s) {
      match s
      case Plain(v) =>
        IdealValueStays(env, f, v, t.v);
        RecordShrinks(env, f, v, t.v);
        if IsDefault(env, f, s) {
          DefaultStays(env, F, j, s, t);
        }
      case Opt(has, v) => RecordShrinks(env, f, v, t.v);
      case Arr(items) =>
        if f.lt == SUBMESSAGE {
          RecordsShrink(env, f, items, t.items);
        }
      case Union(which, u) =>
        assert ValidMessage(env, id);
        FindUnique(env, id, j);
        if which == f.tag {
          RecordShrinks(env, f, u, t.u);
        }
      case Shared =>
    }
  }

  lemma {:induction false} FieldsShrink(env: Env, id: nat, s: seq<Slot>, t: seq<Slot>, k: nat)
    requires ValidEnv(env) && Placed(env, id, s, t) && k <= |s|
    ensures Shrinks(EncFrom(env, id, s, k), EncFrom(env, id, t, k))
    decreases s, 3, |s| - k
  {
    hide Placed, EncSlot, ValidEnv;
    PlacedLength(env, id, s, t);
    if k < |s| {
      var l := Loc(env[id], k);
      PlacedAt(env, id, s, t, l);
      SlotShrinks(env, id, k, s[l], t[l]);
      FieldsShrink(env, id, s, t, k + 1);
      ShrinksBoth(EncSlot(env, env[id][k], s[l]), EncSlot(env, env[id][k], t[l]),
                  EncFrom(env, id, s, k + 1), EncFrom(env, id, t, k + 1));
    }
  }

  lemma {:induction false} MessageShrinks(env: Env, id: nat, s: seq<Slot>, t: seq<Slot>)
    requires ValidEnv(env) && Placed(env, id, s, t)
    ensures Shrinks(EncMsg(env, id, s), EncMsg(env, id, t))
    decreases s, 4
  {
    hide Placed, EncFrom;
    PlacedLength(env, id, s, t);
    FieldsShrink(env, id, s, t, 0);
  }

  // ----- What the format can carry it can carry from anywhere -----

  lemma {:induction false} GoodValueStays(env: Env, f: Field, v: Value, w: Value)
    requires ValidEnv(env) && PlacedValue(env, f, v, w) && GoodValue(env, f, v)
    ensures GoodValue(env, f, w)
    decreases v, 0
  {
    hide Placed, Good, EncMsg, GoodNumber;
    if v != w && f.lt == SUBMESSAGE {
      GoodStays(env, f.sub, v.slots, w.slots);
      MessageShrinks(env, f.sub, v.slots, w.slots);
      MessageRoundTrip(env, f.sub, v.slots);
    }
  }

  lemma {:induction false} GoodSlotStays(env: Env, id: nat, j: nat, s: Slot, t: Slot)
    requires ValidEnv(env) && id < |env| && j < |env[id]|
    requires PlacedSlot(env, env[id], Loc(env[id], j), s, t) && GoodSlot(env, env[id], j, s)
    ensures GoodSlot(env, env[id], j, t)
    decreases s, 1
  {
    hide PlacedValue, GoodValue, FindTag, EncItems;
    var F, f := env[id], env[id][j];
    assert ValidMessage(env, id);
    FindUnique(env, id, j);
    ShapeStays(env, F, j, s, t);
    match s
    case Plain(v) =>
      IdealValueStays(env, f, v, t.v);
      if !v.Null? {
        GoodValueStays(env, f, v, t.v);
      }
    case Opt(has, v) =>
      if has {
        IdealValueStays(env, f, v, t.v);
        GoodValueStays(env, f, v, t.v);
      }
    case Arr(items) =>
      if f.lt == SUBMESSAGE {
        forall i | 0 <= i < |items|
          ensures GoodValue(env, f, t.items[i])
        {
          GoodValueStays(env, f, items[i], t.items[i]);
        }
      }
    case Union(which, u) =>
      if which == f.tag {
        GoodValueStays(env, f, u, t.u);
      }
    case Shared =>
  }

  lemma {:induction false} GoodStays(env: Env, id: nat, s: seq<Slot>, t: seq<Slot>)
    requires ValidEnv(env) && Placed(env, id, s, t) && Good(env, id, s)
    ensures Good(env, id, t)
    decreases s, 2
  {
    hide GoodSlot, PlacedSlot;
    forall k | 0 <= k < |s|
      ensures GoodSlot(env, env[id], k, t[Loc(env[id], k)])
    {
      PlacedAt(env, id, s, t, Loc(env[id], k));
      GoodSlotStays(env, id, k, s[Loc(env[id], k)], t[Loc(env[id], k)]);
    }
    forall k | 0 <= k < |s| && UnionTail(env[id], k)
      ensures t[k] == Shared
    {
      PlacedAt(env, id, s, t, k);
      SharedStays(env, env[id], k, t[k]);
    }
  }

  lemma SharedStays(env: Env, F: Fields, k: nat, t: Slot)
    requires k < |F| && PlacedSlot(env, F, k, Shared, t)
    ensures t == Shared
  {
  }
}
