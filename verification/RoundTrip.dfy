/** Decoding what pb_encode wrote gives the message back, with absent fields at their defaults. */
module RoundTrip {
  import opened Bits
  import opened Varint
  import opened Schema
  import opened Wrappers
  import opened DecodeSpec
  import opened DecodeSteps
  import opened EncodeSpec
  import opened Scalars
  import opened Prefix
  import opened Messages
  import opened ImplicitPresence

  // ----- One record -----

  lemma TagRoundTrip(tag: nat, wt: nat, t: Bytes)
    requires tag < 0x2000_0000 && wt < 8
    ensures DecVarint32(EncTag(tag, wt) + t) == Ok(tag * 8 + wt, |EncTag(tag, wt)|)
  {
    RoundTrip32(tag * 8 + wt, t);
  }

  /** A tag followed by a payload the field decoder consumes whole is one turn of the loop. */
  lemma RecordTurn(env: Env, id: nat, p: Progress, k: nat, e: Progress, wt: nat, s: Bytes, q: Progress)
    requires ValidEnv(env) && id < |env| && k < |env[id]| && |p.slots| == |e.slots| == |env[id]|
    requires Enter(env[id], p, k) == Some(e) && wt < 8
    requires DecField(env, id, e, k, wt, s) == Ok(q, |s|)
    ensures |q.slots| == |p.slots|
    ensures Reads(env, id, p, EncTag(env[id][k].tag, wt) + s, q)
  {
    hide DecField, DecVarint32, Enter, EncVarint;
    var F, tag := env[id], env[id][k].tag;
    assert ValidMessage(env, id) && ValidField(env, id, F[k]);
    FindUnique(env, id, k);
    TagRoundTrip(tag, wt, s);
    var r := EncTag(tag, wt) + s;
    assert r[|EncTag(tag, wt)|..] == s;
    assert Step(env, id, p, tag, wt, s) == Ok(q, |s|);
    OneTurn(env, id, p, r, tag * 8 + wt, |EncTag(tag, wt)|, q, |s|);
  }

  lemma OneTurn(env: Env, id: nat, p: Progress, s: Bytes, t: nat, n: nat, q: Progress, m: nat)
    requires id < |env| && |p.slots| == |env[id]|
    requires DecVarint32(s) == Ok(t, n) && t != 0 && n + m == |s|
    requires Step(env, id, p, t / 8, t % 8, s[n..]) == Ok(q, m)
    ensures |q.slots| == |p.slots| && Reads(env, id, p, s, q)
  {
    hide Step, DecVarint32;
    assert Turn(env, id, p, s) == Ok(Some(q), |s|);
    LastTurn(env, id, p, s, q);
  }

  lemma LastTurn(env: Env, id: nat, p: Progress, s: Bytes, q: Progress)
    requires id < |env| && |p.slots| == |env[id]| && Turn(env, id, p, s) == Ok(Some(q), |s|)
    ensures |q.slots| == |p.slots| && Reads(env, id, p, s, q)
  {
    hide Turn;
    ReadsNothing(env, id, q);
    assert s[|s|..] == [];
  }

  lemma ReadsNothing(env: Env, id: nat, p: Progress)
    requires id < |env| && |p.slots| == |env[id]|
    ensures Reads(env, id, p, [], p)
  {
    hide Turn;
  }

  lemma ReadsBoth(env: Env, id: nat, p: Progress, s: Bytes, q: Progress, t: Bytes, r: Progress)
    requires id < |env| && |p.slots| == |env[id]| && Reads(env, id, p, s, q)
    requires |q.slots| == |p.slots| && Reads(env, id, q, t, r)
    ensures Reads(env, id, p, s + t, r)
  {
    hide DecFields;
    CutFields(env, id, p, s, q, t);
  }

  /** One occurrence carrying a single value. */
  lemma RecordReads(env: Env, id: nat, p: Progress, k: nat, e: Progress, val: Bytes, w: Value)
    requires ValidEnv(env) && id < |env| && k < |env[id]| && |p.slots| == |e.slots| == |env[id]|
    requires Enter(env[id], p, k) == Some(e)
    requires var F, f, slot := env[id], env[id][k], e.slots[Loc(env[id], k)];
             && Shaped(f, slot) && Admits(F, f, slot, e.fixedSize) && (f.ht == REPEATED ==> !Packable(f.lt))
             && DecValue(env, f, Base(env, f, slot), val) == Ok(w, |val|) && (f.ht == ONEOF ==> slot.Union? && slot.which == 0)
    ensures Reads(env, id, p, TagOf(env[id][k]) + val, Store(env[id], e, k, [w]))
  {
    hide DecValue, Base, Store, Enter, Admits, EncTag, Cleared;
    NothingCleared(env, env[id], e, k);
    RecordTurn(env, id, p, k, e, WireType(env[id][k].lt), val, Store(env[id], e, k, [w]));
  }

  lemma {:induction false} ItemsRoundTrip(f: Field, items: seq<Value>, room: nat)
    requires Packable(f.lt) && |items| <= room
    requires forall i :: 0 <= i < |items| ==> GoodBasic(f, items[i])
    ensures EncItems(f, items).Some?
    ensures DecItems(f, EncItems(f, items).value, room) == Some(NormItems([], f, items))
    decreases items
  {
    hide EncBasic, DecBasic, GoodBasic;
    if items != [] {
      ItemsRoundTrip(f, items[1..], room - 1);
      var rest := EncItems(f, items[1..]).value;
      BasicRoundTrip(f, items[0], rest);
      var head := EncBasic(f, items[0]).value;
      assert (head + rest)[|head|..] == rest;
    }
  }

  lemma {:induction false} NormPackable(env: Env, f: Field, items: seq<Value>)
    requires Packable(f.lt)
    ensures NormItems(env, f, items) == NormItems([], f, items)
    decreases items
  {
    if items != [] {
      NormPackable(env, f, items[1..]);
    }
  }

  /** One packed occurrence carrying a whole array. */
  lemma PackedReads(env: Env, id: nat, p: Progress, k: nat, e: Progress, items: seq<Value>)
    requires ValidEnv(env) && id < |env| && k < |env[id]| && |p.slots| == |e.slots| == |env[id]|
    requires Enter(env[id], p, k) == Some(e)
    requires var F, f, slot := env[id], env[id][k], e.slots[Loc(env[id], k)];
             && Shaped(f, slot) && f.ht == REPEATED && Packable(f.lt) && |items| <= Room(f, slot, e.fixedSize)
             && Short(EncItems(f, items))
             && forall i :: 0 <= i < |items| ==> GoodBasic(f, items[i])
    ensures EncPacked(env[id][k], items).Some?
    ensures Reads(env, id, p, EncPacked(env[id][k], items).value, Store(env[id], e, k, NormItems(env, env[id][k], items)))
  {
    hide DecItems, EncItems, NormItems, Store, Enter, Shaped, EncTag, DecVarint32, GoodBasic, Room;
    var F, f := env[id], env[id][k];
    ItemsRoundTrip(f, items, Room(f, e.slots[Loc(F, k)], e.fixedSize));
    NormPackable(env, f, items);
    var body := EncItems(f, items).value;
    var n := |EncVarint(|body|)|;
    RoundTrip32(|body|, body);
    assert Prefixed(body)[n..n + |body|] == body;
    var q := Store(F, e, k, NormItems(env, f, items));
    assert DecField(env, id, e, k, WT_STRING, Prefixed(body)) == Ok(q, |Prefixed(body)|);
    RecordTurn(env, id, p, k, e, WT_STRING, Prefixed(body), q);
  }

  // ----- Arrays that are not packed -----

  lemma StoreTwice(F: Fields, p: Progress, k: nat, v: Value, vs: seq<Value>)
    requires k < |F| && |p.slots| == |F| && F[k].ht == REPEATED && Shaped(F[k], p.slots[k])
    requires FixedCount(F[k]) ==> p.fixedSize + 1 + |vs| <= F[k].arraySize
    ensures Store(F, Store(F, p, k, [v]), k, vs) == Store(F, p, k, [v] + vs)
  {
    var items := p.slots[k].items;
    if FixedCount(F[k]) {
      var c := p.fixedSize;
      var once := items[..c] + [v] + items[c + 1..];
      assert once[..c + 1] + vs + once[c + 1 + |vs|..] == items[..c] + ([v] + vs) + items[c + 1 + |vs|..];
    } else {
      assert items + [v] + vs == items + ([v] + vs);
    }
  }

  lemma StoreOne(F: Fields, p: Progress, k: nat, v: Value)
    requires k < |F| && |p.slots| == |F| && F[k].ht == REPEATED && Shaped(F[k], p.slots[k])
    requires p.fixedField == Some(k) <==> FixedCount(F[k])
    requires (FixedCount(F[k]) ==> F[k].at == STATIC) && F[k].arraySize <= PB_SIZE_MAX
    requires Room(F[k], p.slots[k], p.fixedSize) >= 1
    ensures var q := Store(F, p, k, [v]);
            && |q.slots| == |F| && Enter(F, q, k) == Some(q) && Shaped(F[k], q.slots[k])
            && Room(F[k], q.slots[k], q.fixedSize) == Room(F[k], p.slots[k], p.fixedSize) - 1
            && (q.fixedField == Some(k) <==> FixedCount(F[k]))
  {
  }

  // ----- The induction over the message -----

  lemma {:induction false} ValueRoundTrip(env: Env, f: Field, v: Value, base: Value)
    requires ValidEnv(env) && GoodValue(env, f, v)
    requires f.lt == SUBMESSAGE ==> base == Msg(Defaults(env, f.sub))
    ensures EncValue(env, f, v).Some?
    ensures DecValue(env, f, base, EncValue(env, f, v).value)
            == Ok(NormValue(env, f, v), |EncValue(env, f, v).value|)
    decreases v, 0
  {
    hide EncBasic, DecBasic, GoodBasic, DecMsg, EncMsg, Good, Norm, DecVarint32, EncVarint;
    if f.lt != SUBMESSAGE {
      BasicRoundTrip(f, v, []);
      assert EncBasic(f, v).value + [] == EncBasic(f, v).value;
    } else {
      MessageRoundTrip(env, f.sub, v.slots);
      var body := EncMsg(env, f.sub, v.slots).value;
      var n := |EncVarint(|body|)|;
      RoundTrip32(|body|, body);
      assert Prefixed(body)[n..n + |body|] == body;
    }
  }

  lemma {:induction false} RecordsRoundTrip(env: Env, id: nat, p: Progress, k: nat, e: Progress, items: seq<Value>)
    requires ValidEnv(env) && id < |env| && k < |env[id]| && |p.slots| == |e.slots| == |env[id]|
    requires Enter(env[id], p, k) == Some(e) && items != []
    requires env[id][k].ht == REPEATED && !Packable(env[id][k].lt)
    requires e.fixedField == Some(k) <==> FixedCount(env[id][k])
    requires Shaped(env[id][k], e.slots[k]) && |items| <= Room(env[id][k], e.slots[k], e.fixedSize)
    requires forall i :: 0 <= i < |items| ==> GoodValue(env, env[id][k], items[i])
    ensures EncRecords(env, env[id][k], items).Some?
    ensures Reads(env, id, p, EncRecords(env, env[id][k], items).value,
                  Store(env[id], e, k, NormItems(env, env[id][k], items)))
    decreases items, 0
  {
    hide GoodValue, EncValue, DecValue, NormValue, Store, Enter, Shaped, Room, Reads, DecFields, FindTag, EncTag;
    var F, f := env[id], env[id][k];
    assert ValidMessage(env, id) && ValidField(env, id, f);
    var v, rest := items[0], items[1..];
    ValueRoundTrip(env, f, v, Base(env, f, e.slots[k]));
    var w := NormValue(env, f, v);
    var e1 := Store(F, e, k, [w]);
    RecordReads(env, id, p, k, e, EncValue(env, f, v).value, w);
    if rest == [] {
      assert TagOf(f) + EncValue(env, f, v).value + [] == TagOf(f) + EncValue(env, f, v).value;
      assert [w] + [] == [w];
    } else {
      StoreOne(F, e, k, w);
      RecordsRoundTrip(env, id, e1, k, e1, rest);
      StoreRest(F, e, k, w, NormItems(env, f, rest));
      ReadsBoth(env, id, p, TagOf(f) + EncValue(env, f, v).value, e1,
                EncRecords(env, f, rest).value, Store(F, e1, k, NormItems(env, f, rest)));
    }
  }

  lemma StoreRest(F: Fields, p: Progress, k: nat, v: Value, vs: seq<Value>)
    requires k < |F| && |p.slots| == |F| && F[k].ht == REPEATED && Shaped(F[k], p.slots[k])
    requires FixedCount(F[k]) ==> F[k].at == STATIC
    requires 1 + |vs| <= Room(F[k], p.slots[k], p.fixedSize)
    ensures |Store(F, p, k, [v]).slots| == |F|
    ensures Store(F, Store(F, p, k, [v]), k, vs) == Store(F, p, k, [v] + vs)
  {
    StoreTwice(F, p, k, v, vs);
  }

  // ----- One field of the message, decoded into a struct that still holds the default there -----

  /** The slot carries a value for field `k`, so the encoder writes something. */
  predicate Present(env: Env, f: Field, slot: Slot)
  {
    match slot
    case Plain(v) => f.ht == REQUIRED || !(if f.at == PTR then v.Null? else IsDefault(env, f, slot))
    case Opt(has, _) => has
    case Arr(items) => items != []
    case Union(which, _) => which == f.tag
    case Shared => false
  }

  /** The slot of field `k` after its occurrences have been decoded. */
  function After(env: Env, id: nat, k: nat, slot: Slot, before: Slot): Slot
    requires id < |env| && k < |env[id]|
  {
    if Present(env, env[id][k], slot) then NormSlot(env, id, k, slot) else before
  }

  /** What decoding field `k` achieves. */
  ghost predicate FieldDone(env: Env, id: nat, k: nat, p: Progress, slot: Slot, q: Progress)
    requires id < |env| && k < |env[id]| && |p.slots| == |env[id]|
  {
    var F, l := env[id], Loc(env[id], k);
    && EncSlot(env, F[k], slot).Some?
    && |q.slots| == |F| && Reads(env, id, p, EncSlot(env, F[k], slot).value, q)
    && q.slots == p.slots[l := After(env, id, k, slot, p.slots[l])]
    && p.seen <= q.seen
    && (F[k].ht == REQUIRED && RequiredBefore(F, k) < PB_MAX_REQUIRED_FIELDS ==> RequiredBefore(F, k) in q.seen)
    && FixedBehind(F, q, k + 1)
  }

  /** Any fixed-count array met so far belongs to a field before `k` and is full. */
  predicate FixedBehind(F: Fields, p: Progress, k: nat)
  {
    FixedDone(F, p) && (p.fixedField.Some? ==> p.fixedField.value < k)
  }

  lemma EnterFresh(F: Fields, p: Progress, k: nat)
    requires k < |F| && FixedBehind(F, p, k)
    ensures Enter(F, p, k).Some?
    ensures var e := Enter(F, p, k).value;
            && (!FixedCount(F[k]) ==> FixedBehind(F, e, k + 1))
            && (FixedCount(F[k]) ==> e.fixedSize == 0)
            && (e.fixedField == Some(k) <==> FixedCount(F[k]))
  {
  }

  lemma DefaultTakes(env: Env, id: nat, k: nat)
    requires ValidEnv(env) && id < |env| && k < |env[id]|
    ensures var F, f, slot := env[id], env[id][k], DefaultSlot(env, id, Loc(env[id], k));
            && Shaped(f, slot) && Admits(F, f, slot, 0)
            && (f.ht != REPEATED ==> forall c :: Admits(F, f, slot, c))
            && (f.ht == REPEATED ==> Room(f, slot, 0) == if f.at == STATIC then f.arraySize else PB_SIZE_MAX)
            && (f.lt == SUBMESSAGE ==> Base(env, f, slot) == Msg(Defaults(env, f.sub)))
  {
    hide FindTag, Defaults;
    assert ValidMessage(env, id) && ValidField(env, id, env[id][k]);
  }

  lemma DefaultUnion(env: Env, id: nat, k: nat)
    requires id < |env| && k < |env[id]| && env[id][k].ht == ONEOF
    ensures DefaultSlot(env, id, Loc(env[id], k)) == Union(0, Null)
  {
  }

  lemma AbsentSlot(env: Env, id: nat, k: nat, p: Progress, slot: Slot)
    requires ValidEnv(env) && id < |env| && k < |env[id]| && |p.slots| == |env[id]|
    requires GoodSlot(env, env[id], k, slot) && FixedBehind(env[id], p, k)
    requires !Present(env, env[id][k], slot)
    ensures FieldDone(env, id, k, p, slot, p)
  {
    hide GoodValue, IsDefault, Reads, EncRecord, GoodItems;
    ReadsNothing(env, id, p);
    assert p.slots[Loc(env[id], k) := p.slots[Loc(env[id], k)]] == p.slots;
  }

  lemma {:induction false} SingleSlot(env: Env, id: nat, k: nat, p: Progress, slot: Slot) returns (q: Progress)
    requires ValidEnv(env) && id < |env| && k < |env[id]| && |p.slots| == |env[id]|
    requires GoodSlot(env, env[id], k, slot) && FixedBehind(env[id], p, k)
    requires p.slots[Loc(env[id], k)] == DefaultSlot(env, id, Loc(env[id], k))
    requires Present(env, env[id][k], slot) && !slot.Arr?
    ensures FieldDone(env, id, k, p, slot, q)
    decreases slot, 0
  {
    hide GoodValue, EncValue, DecValue, NormValue, Enter, Admits, IsDefault, Base, DefaultSlot, EncTag, DecFields;
    var F, f, l := env[id], env[id][k], Loc(env[id], k);
    assert ValidMessage(env, id) && ValidField(env, id, f);
    EnterFresh(F, p, k);
    EnterKeeps(F, p, k);
    var e := Enter(F, p, k).value;
    DefaultTakes(env, id, k);
    if f.ht == ONEOF {
      DefaultUnion(env, id, k);
    }
    var v := match slot case Plain(v) => v case Opt(_, v) => v case Union(_, u) => u case _ => Null;
    var base := Base(env, f, e.slots[l]);
    ValueRoundTrip(env, f, v, base);
    var w := NormValue(env, f, v);
    RecordReads(env, id, p, k, e, EncValue(env, f, v).value, w);
    q := Store(F, e, k, [w]);
    FindUnique(env, id, k);
    assert EncSlot(env, f, slot) == Some(TagOf(f) + EncValue(env, f, v).value);
    assert Stored(f, e.slots[l], e.fixedSize, [w]) == NormSlot(env, id, k, slot);
  }

  lemma {:induction false} ArraySlot(env: Env, id: nat, k: nat, p: Progress, slot: Slot) returns (q: Progress)
    requires ValidEnv(env) && id < |env| && k < |env[id]| && |p.slots| == |env[id]|
    requires GoodSlot(env, env[id], k, slot) && FixedBehind(env[id], p, k)
    requires p.slots[Loc(env[id], k)] == DefaultSlot(env, id, Loc(env[id], k))
    requires Present(env, env[id][k], slot) && slot.Arr?
    ensures FieldDone(env, id, k, p, slot, q)
    decreases slot, 0
  {
    hide GoodValue, EncRecords, EncPacked, NormItems, Enter, Admits, Room, Base, DefaultSlot, DecFields, EncItems;
    var F, f, items := env[id], env[id][k], slot.items;
    assert ValidMessage(env, id) && ValidField(env, id, f);
    EnterFresh(F, p, k);
    EnterKeeps(F, p, k);
    var e := Enter(F, p, k).value;
    DefaultTakes(env, id, k);
    RoomFresh(env, id, k, e);
    if Packable(f.lt) {
      PackedGood(env, f, items);
      PackedReads(env, id, p, k, e, items);
    } else {
      RecordsRoundTrip(env, id, p, k, e, items);
    }
    var ws := NormItems(env, f, items);
    q := Store(F, e, k, ws);
    StoredFresh(env, id, k, e, ws);
    assert EncSlot(env, f, slot).Some?;
    assert Reads(env, id, p, EncSlot(env, f, slot).value, q);
    assert FixedBehind(F, q, k + 1);
  }

  lemma PackedGood(env: Env, f: Field, items: seq<Value>)
    requires Packable(f.lt) && forall i :: 0 <= i < |items| ==> GoodValue(env, f, items[i])
    ensures forall i :: 0 <= i < |items| ==> GoodBasic(f, items[i])
  {
    hide GoodBasic;
  }

  lemma RoomFresh(env: Env, id: nat, k: nat, e: Progress)
    requires ValidEnv(env) && id < |env| && k < |env[id]| && |e.slots| == |env[id]|
    requires env[id][k].ht == REPEATED && e.slots[k] == DefaultSlot(env, id, k)
    requires FixedCount(env[id][k]) ==> e.fixedSize == 0
    ensures Room(env[id][k], e.slots[k], e.fixedSize) == if env[id][k].at == STATIC then env[id][k].arraySize else PB_SIZE_MAX
  {
    assert ValidMessage(env, id) && ValidField(env, id, env[id][k]);
  }

  lemma StoredFresh(env: Env, id: nat, k: nat, e: Progress, ws: seq<Value>)
    requires ValidEnv(env) && id < |env| && k < |env[id]| && |e.slots| == |env[id]|
    requires env[id][k].ht == REPEATED && e.slots[k] == DefaultSlot(env, id, k)
    requires FixedCount(env[id][k]) ==> e.fixedSize == 0 && |ws| == env[id][k].arraySize
    ensures Stored(env[id][k], e.slots[k], e.fixedSize, ws) == Arr(ws)
  {
    assert [] + ws == ws;
    if FixedCount(env[id][k]) {
      var items := e.slots[k].items;
      assert items[..0] + ws + items[0 + |ws|..] == ws;
    }
  }

  lemma {:induction false} SlotRoundTrip(env: Env, id: nat, k: nat, p: Progress, slot: Slot) returns (q: Progress)
    requires ValidEnv(env) && id < |env| && k < |env[id]| && |p.slots| == |env[id]|
    requires GoodSlot(env, env[id], k, slot) && FixedBehind(env[id], p, k)
    requires Present(env, env[id][k], slot) ==> p.slots[Loc(env[id], k)] == DefaultSlot(env, id, Loc(env[id], k))
    ensures FieldDone(env, id, k, p, slot, q)
    decreases slot, 1
  {
    hide *;
    if !Present(env, env[id][k], slot) {
      AbsentSlot(env, id, k, p, slot);
      q := p;
    } else if slot.Arr? {
      q := ArraySlot(env, id, k, p, slot);
    } else {
      q := SingleSlot(env, id, k, p, slot);
    }
  }

  // ----- All fields -----

  /** The field whose decoding fills slot `i`. */
  function Owner(F: Fields, slots: seq<Slot>, i: nat): nat
    requires |slots| == |F| && i < |F|
  {
    if slots[i].Union? && slots[i].which != 0 && FindTag(F, slots[i].which).Some?
    then FindTag(F, slots[i].which).value else i
  }

  /** The struct while decoding: the slots filled by fields before `k`, the rest at their defaults. */
  function Mix(env: Env, id: nat, slots: seq<Slot>, k: nat): (r: seq<Slot>)
    requires id < |env| && |slots| == |env[id]|
    ensures |r| == |slots|
  {
    seq(|slots|, i requires 0 <= i < |slots| =>
      if Owner(env[id], slots, i) < k then NormSlot(env, id, i, slots[i]) else DefaultSlot(env, id, i))
  }

  lemma MixEnds(env: Env, id: nat, slots: seq<Slot>)
    requires ValidEnv(env) && Good(env, id, slots)
    ensures Mix(env, id, slots, 0) == Defaults(env, id)
    ensures Mix(env, id, slots, |slots|) == Norm(env, id, slots)
  {
    forall i | 0 <= i < |slots|
      ensures Mix(env, id, slots, |slots|)[i] == Norm(env, id, slots)[i]
    {
    }
  }

  lemma AbsentNorm(env: Env, id: nat, k: nat, slot: Slot)
    requires ValidEnv(env) && id < |env| && k < |env[id]|
    requires GoodSlot(env, env[id], k, slot) && !Present(env, env[id][k], slot) && !slot.Union?
    ensures NormSlot(env, id, k, slot) == DefaultSlot(env, id, k)
  {
    hide GoodValue, IsDefault, GoodItems, DefaultValue;
    assert ValidMessage(env, id) && ValidField(env, id, env[id][k]);
  }

  /** Whose turn it is: slot `i` changes at field `k` only if `k` is present and lives there. */
  lemma OwnerIs(env: Env, id: nat, slots: seq<Slot>, k: nat, i: nat)
    requires ValidEnv(env) && Good(env, id, slots) && k < |slots| && i < |slots|
    ensures var F, l := env[id], Loc(env[id], k);
            && (slots[i].Union? && slots[i].which != 0 ==> F[i].ht == ONEOF)
            && (Owner(F, slots, i) == k && slots[i].Union? && slots[i].which != 0 ==> i == l && slots[l].which == F[k].tag)
            && (slots[l].Union? && slots[l].which == F[k].tag ==> Owner(F, slots, l) == k)
  {
    hide GoodValue, GoodItems, IsDefault;
    var F := env[id];
    assert ValidMessage(env, id) && ValidField(env, id, F[k]);
    FindUnique(env, id, k);
    var l := Loc(F, k);
    assert GoodSlot(env, F, k, slots[l]) && GoodSlot(env, F, i, slots[Loc(F, i)]);
    if slots[i].Union? {
      assert !UnionTail(F, i);
    }
  }

  lemma MixStep(env: Env, id: nat, slots: seq<Slot>, k: nat, before: seq<Slot>)
    requires ValidEnv(env) && Good(env, id, slots) && k < |slots| && before == Mix(env, id, slots, k)
    ensures var l := Loc(env[id], k);
            && (Present(env, env[id][k], slots[l]) ==> before[l] == DefaultSlot(env, id, l))
            && before[l := After(env, id, k, slots[l], before[l])] == Mix(env, id, slots, k + 1)
  {
    hide GoodValue, GoodItems, IsDefault, NormSlot, DefaultSlot, FindTag;
    var F, l := env[id], Loc(env[id], k);
    assert GoodSlot(env, F, k, slots[l]);
    OwnerIs(env, id, slots, k, l);
    var after := before[l := After(env, id, k, slots[l], before[l])];
    forall i | 0 <= i < |slots|
      ensures after[i] == Mix(env, id, slots, k + 1)[i]
    {
      SlotStep(env, id, slots, k, i);
    }
  }

  lemma SlotStep(env: Env, id: nat, slots: seq<Slot>, k: nat, i: nat)
    requires ValidEnv(env) && Good(env, id, slots) && k < |slots| && i < |slots|
    ensures var F, l := env[id], Loc(env[id], k);
            var before := Mix(env, id, slots, k)[i];
            Mix(env, id, slots, k + 1)[i] == if i == l then After(env, id, k, slots[l], before) else before
  {
    hide GoodValue, GoodItems, IsDefault, FindTag, Defaults;
    var F, l := env[id], Loc(env[id], k);
    assert ValidMessage(env, id) && ValidField(env, id, F[k]);
    OwnerIs(env, id, slots, k, i);
    assert GoodSlot(env, F, i, slots[Loc(F, i)]);
    if slots[i].Union? {
    } else if UnionTail(F, i) {
    } else if i == k && !Present(env, F[k], slots[k]) {
      AbsentNorm(env, id, k, slots[k]);
    }
  }

  lemma {:induction false} FieldsRoundTrip(env: Env, id: nat, slots: seq<Slot>, k: nat, p: Progress) returns (q: Progress)
    requires ValidEnv(env) && Good(env, id, slots) && k <= |slots|
    requires p.slots == Mix(env, id, slots, k) && FixedBehind(env[id], p, k)
    ensures EncFrom(env, id, slots, k).Some? && |q.slots| == |slots|
    ensures Reads(env, id, p, EncFrom(env, id, slots, k).value, q)
    ensures q.slots == Norm(env, id, slots) && (q.slots == Ideal(env, id, slots) <==> Kept(env, id, slots))
    ensures FixedDone(env[id], q) && p.seen <= q.seen
    ensures forall r :: RequiredBefore(env[id], k) <= r < RequiredBefore(env[id], |slots|) && r < PB_MAX_REQUIRED_FIELDS
              ==> r in q.seen
    decreases slots, 2, |slots| - k
  {
    hide GoodValue, GoodItems, IsDefault, Mix, EncSlot, Reads, GoodSlot, DefaultSlot, FixedDone, Present, After, Norm, Ideal, Kept;
    if k == |slots| {
      ReadsNothing(env, id, p);
      MixEnds(env, id, slots);
      NormIsIdeal(env, id, slots);
      q := p;
    } else {
      var slot := slots[Loc(env[id], k)];
      MixStep(env, id, slots, k, p.slots);
      var e := SlotRoundTrip(env, id, k, p, slot);
      q := FieldsRoundTrip(env, id, slots, k + 1, e);
      ReadsBoth(env, id, p, EncSlot(env, env[id][k], slot).value, e, EncFrom(env, id, slots, k + 1).value, q);
    }
  }

  /** The main loop reads the whole encoding of a message and passes the final checks. */
  ghost predicate Restores(env: Env, id: nat, slots: seq<Slot>, s: Bytes, q: Progress)
    requires id < |env| && |slots| == |env[id]|
  {
    && |q.slots| == |env[id]| && Reads(env, id, Start(Defaults(env, id)), s, q)
    && q.slots == Norm(env, id, slots) && Complete(env[id], q)
  }

  lemma {:induction false} MessageReads(env: Env, id: nat, slots: seq<Slot>) returns (q: Progress)
    requires ValidEnv(env) && Good(env, id, slots)
    ensures EncMsg(env, id, slots).Some?
    ensures Restores(env, id, slots, EncMsg(env, id, slots).value, q)
    decreases slots, 3
  {
    hide Mix, Reads, FixedDone, EncFrom, Norm, Defaults;
    MixEnds(env, id, slots);
    StartBehind(env[id], Defaults(env, id));
    q := FieldsRoundTrip(env, id, slots, 0, Start(Defaults(env, id)));
  }

  /** The round trip: pb_encode accepts every good struct, and pb_decode of its output consumes it all.
      What it yields is the message with absent fields at their defaults, and it is the message itself if
      and only if no implicit member is forgotten or dropped. */
  lemma {:induction false} MessageRoundTrip(env: Env, id: nat, slots: seq<Slot>)
    requires ValidEnv(env) && Good(env, id, slots)
    ensures EncMsg(env, id, slots).Some?
    ensures Decode(env, id, EncMsg(env, id, slots).value) == Ok(Norm(env, id, slots), |EncMsg(env, id, slots).value|)
    ensures Decode(env, id, EncMsg(env, id, slots).value).v == Ideal(env, id, slots) <==> Kept(env, id, slots)
    decreases slots, 4
  {
    hide DecFields, Defaults, Complete, Norm, EncMsg, GoodSlot, Ideal, Kept;
    var q := MessageReads(env, id, slots);
    NormIsIdeal(env, id, slots);
  }

  lemma StartBehind(F: Fields, slots: seq<Slot>)
    ensures FixedBehind(F, Start(slots), 0)
  {
  }

  // ----- Tables for which nothing is ever lost -----

  /** Implicit members have no default or a zero one, and submessages stored that way have no optional
      pointer to a number of fewer than eight bytes. */
  predicate PlainTables(env: Env)
  {
    forall id, k :: 0 <= id < |env| && 0 <= k < |env[id]| && Implicit(env[id][k]) ==> PlainMember(env, env[id][k])
  }

  predicate PlainMember(env: Env, f: Field)
  {
    if f.lt == SUBMESSAGE then f.sub < |env| && forall g :: g in env[f.sub] && NumberPointer(g) ==> g.dataSize == 8
    else f.dflt.None? || f.dflt.value == ZeroValue(f)
  }

  /** Comparing all eight bytes of a pointer with zero is comparing it with null. */
  lemma NeverDropped(env: Env, f: Field, slots: seq<Slot>)
    requires ValidEnv(env) && Good(env, f.sub, slots)
    requires forall g :: g in env[f.sub] && NumberPointer(g) ==> g.dataSize == 8
    ensures !Dropped(env, f.sub, slots)
  {
    if HoldsNumber(env[f.sub], slots) {
      var F := env[f.sub];
      var k :| 0 <= k < |F| && NumberPointer(F[k]) && slots[k].Plain? && !slots[k].v.Null?;
      assert Loc(F, k) == k && GoodSlot(env, F, k, slots[k]) && GoodValue(env, F[k], slots[k].v);
      if slots[k].v.At? {
        EightBytes(slots[k].v.addr);
      }
      assert F[k] in F && !IsDefault(env, F[k], slots[Loc(F, k)]);
    }
  }

  lemma {:induction false} PlainKept(env: Env, id: nat, slots: seq<Slot>)
    requires ValidEnv(env) && PlainTables(env) && Good(env, id, slots)
    ensures Kept(env, id, slots)
    decreases slots, 2
  {
    hide GoodSlot, KeptSlot, FindTag;
    forall k | 0 <= k < |slots|
      ensures KeptSlot(env, id, k, slots[k])
    {
      if UnionTail(env[id], k) {
        SharedKept(env, id, k);
      } else {
        SelectedGood(env, id, slots, k);
        PlainSlot(env, id, k, slots[k]);
      }
    }
  }

  lemma {:induction false} PlainSlot(env: Env, id: nat, k: nat, slot: Slot)
    requires ValidEnv(env) && PlainTables(env) && id < |env| && k < |env[id]| && GoodSlot(env, env[id], k, slot)
    requires slot.Union? && slot.which != 0 && FindTag(env[id], slot.which).Some? ==>
               GoodValue(env, env[id][FindTag(env[id], slot.which).value], slot.u)
    ensures KeptSlot(env, id, k, slot)
    decreases slot, 1
  {
    hide GoodValue, KeptValue, KeptItems, FindTag, KeptImplicit, PlainTables;
    var f := env[id][k];
    match slot
    case Plain(v) =>
      if f.ht == OPTIONAL && f.at == PTR && v.Null? {
        NullKept(env, f);
      } else {
        PlainValue(env, f, v);
        if Implicit(f) {
          PlainImplicit(env, id, k, v);
        }
      }
    case Opt(has, v) =>
      if has {
        PlainValue(env, f, v);
      }
    case Arr(items) => PlainItems(env, f, items);
    case Union(which, u) =>
      if which != 0 && FindTag(env[id], which).Some? {
        PlainValue(env, env[id][FindTag(env[id], which).value], u);
      }
    case Shared =>
  }

  lemma PlainImplicit(env: Env, id: nat, k: nat, v: Value)
    requires ValidEnv(env) && PlainTables(env) && id < |env| && k < |env[id]| && Implicit(env[id][k])
    requires GoodValue(env, env[id][k], v)
    ensures KeptImplicit(env, env[id][k], v)
  {
    hide Good, Dropped;
    assert PlainMember(env, env[id][k]);
    if env[id][k].lt == SUBMESSAGE {
      NeverDropped(env, env[id][k], v.slots);
    }
  }

  lemma {:induction false} PlainValue(env: Env, f: Field, v: Value)
    requires ValidEnv(env) && PlainTables(env) && GoodValue(env, f, v)
    ensures KeptValue(env, f, v)
    decreases v, 0
  {
    hide Good, Kept;
    if f.lt == SUBMESSAGE {
      PlainKept(env, f.sub, v.slots);
    }
  }

  lemma {:induction false} PlainItems(env: Env, f: Field, items: seq<Value>)
    requires ValidEnv(env) && PlainTables(env) && forall i :: 0 <= i < |items| ==> GoodValue(env, f, items[i])
    ensures KeptItems(env, f, items)
    decreases items, 0
  {
    hide GoodValue, KeptValue;
    if items != [] {
      PlainValue(env, f, items[0]);
      PlainItems(env, f, items[1..]);
    }
  }

  /** For such tables every good message comes back as itself. */
  lemma PlainRoundTrip(env: Env, id: nat, slots: seq<Slot>)
    requires ValidEnv(env) && PlainTables(env) && Good(env, id, slots)
    ensures EncMsg(env, id, slots).Some?
    ensures Decode(env, id, EncMsg(env, id, slots).value) == Ok(Ideal(env, id, slots), |EncMsg(env, id, slots).value|)
  {
    hide Decode, EncMsg, Good, Ideal, Kept, Norm;
    PlainKept(env, id, slots);
    MessageRoundTrip(env, id, slots);
  }

  // ----- What is lost -----

  /** A zero in a member whose default is 5 is not written and comes back as 5. */
  lemma ForgottenZero(f: Field)
    requires f == Field(1, VARINT, OPTIONAL, STATIC, 0, 0, 4, 0, 0, Some(Num(5)))
    ensures ValidEnv([[f]]) && EncMsg([[f]], 0, [Plain(Num(0))]) == Some([])
    ensures Decode([[f]], 0, []).Ok? && Decode([[f]], 0, []).v == [Plain(Num(5))]
  {
    var env, slots := [[f]], [Plain(Num(0))];
    assert env[0] == [f] && ValidField(env, 0, f);
    OneSlot(env, 0, f, slots[0]);
    assert DefaultSlot(env, 0, 0) == Plain(Num(5));
    assert Defaults(env, 0) == [Plain(Num(5))];
  }

  /** A message of one implicit member that passes for default has no encoding but the empty one. */
  lemma OneSlot(env: Env, id: nat, f: Field, slot: Slot)
    requires id < |env| && env[id] == [f] && Implicit(f) && slot.Plain? && IsDefault(env, f, slot)
    ensures EncMsg(env, id, [slot]) == Some([])
  {
    hide IsDefault, EncRecord;
    var slots, nothing: Bytes := [slot], [];
    assert EncFrom(env, id, slots, 1) == Some([]) && EncSlot(env, f, slot) == Some([]);
    assert EncFrom(env, id, slots, 0) == Append(EncSlot(env, f, slots[Loc(env[id], 0)]), EncFrom(env, id, slots, 1));
    assert nothing + nothing == nothing;
  }

  /** A true behind a pointer whose low byte is zero: the submessage that holds it is not written, and
      the pointer comes back null. */
  lemma DroppedBool(f: Field, g: Field)
    requires f == Field(1, BOOL, OPTIONAL, PTR, 0, 0, 1, 0, 0, None)
    requires g == Field(1, SUBMESSAGE, OPTIONAL, STATIC, 0, 0, 8, 0, 0, None)
    ensures ValidEnv([[f], [g]]) && Good([[f], [g]], 1, [Plain(Msg([Plain(At(0x100, 1))]))])
    ensures EncMsg([[f], [g]], 1, [Plain(Msg([Plain(At(0x100, 1))]))]) == Some([])
    ensures Decode([[f], [g]], 1, []).Ok? && Decode([[f], [g]], 1, []).v == [Plain(Msg([Plain(Null)]))]
  {
    var env := [[f], [g]];
    var inner := [Plain(At(0x100, 1))];
    var slots := [Plain(Msg(inner))];
    assert env[0] == [f] && env[1] == [g] && ValidField(env, 0, f) && ValidField(env, 1, g);
    assert ValidMessage(env, 0) && ValidMessage(env, 1);
    assert 0x100 % 256 == 0 && ZeroBytes(0x1, 0) && ZeroBytes(0x100, 1);
    assert IsDefault(env, f, inner[0]) && Loc(env[0], 0) == 0 && Loc(env[1], 0) == 0;
    OneSlot(env, 1, g, slots[0]);
    OneBool(env, f, inner[0].v);
    assert GoodSlot(env, env[0], 0, inner[0]) && Good(env, 0, inner);
    assert GoodValue(env, g, Msg(inner)) && GoodSlot(env, env[1], 0, slots[0]);
    assert DefaultSlot(env, 0, 0) == Plain(Null) && Defaults(env, 0) == [Plain(Null)];
    assert DefaultSlot(env, 1, 0) == Plain(Msg(Defaults(env, 0))) && Defaults(env, 1) == [Plain(Msg([Plain(Null)]))];
  }

  lemma OneBool(env: Env, f: Field, v: Value)
    requires |env| > 0 && env[0] == [f] && f == Field(1, BOOL, OPTIONAL, PTR, 0, 0, 1, 0, 0, None) && v == At(0x100, 1)
    ensures Short(EncMsg(env, 0, [Plain(v)]))
  {
    var slots := [Plain(v)];
    assert EncVarint(8) == [8] && EncVarint(1) == [1];
    assert EncRecord(env, f, v) == Some([8] + [1]);
    assert EncFrom(env, 0, slots, 1) == Some([]) && EncSlot(env, f, slots[0]) == Some([8] + [1]);
    assert EncFrom(env, 0, slots, 0) == Append(EncSlot(env, f, slots[Loc(env[0], 0)]), EncFrom(env, 0, slots, 1));
  }
}
