/** What decoding overwrites in a fixed-count array, and which pointers are lost that way: elements are set
    to their defaults before they are decoded, and nothing of what they held is released. */
module FixedQueues {
  import opened Bits
  import opened Varint
  import opened Schema
  import opened Wrappers
  import opened DecodeSpec
  import opened DecodeSteps
  import opened Prefix
  import opened Merge

  // ----- What the decoder does to one array -----

  datatype Change = Change(was: seq<Value>, now: seq<Value>)

  /** Where the next item of array `k` goes. */
  function Place(p: Progress, k: nat): nat
  {
    if p.fixedField == Some(k) then p.fixedSize else 0
  }

  /** The elements of array `k` that a turn of the loop replaces, and what by. */
  function ChangeAt(env: Env, id: nat, p: Progress, s: Bytes, k: nat): Change
    requires id < |env| && k < |env[id]| && |p.slots| == |env[id]|
  {
    var h, r := Classify(env[id], s), Turn(env, id, p, s);
    if h.Hit? && h.k == k && r.Ok? && r.v.Some? && p.slots[k].Arr? && r.v.value.slots[k].Arr? then
      var c, d, was, now := Place(p, k), r.v.value.fixedSize, p.slots[k].items, r.v.value.slots[k].items;
      if c <= d <= |was| && d <= |now| then Change(was[c..d], now[c..d]) else Change([], [])
    else Change([], [])
  }

  /** All elements of array `k` that are replaced while `s` is decoded, in order. */
  function Overwritten(env: Env, id: nat, p: Progress, s: Bytes, k: nat): seq<Value>
    requires id < |env| && k < |env[id]| && |p.slots| == |env[id]|
    decreases |s|
  {
    if s == [] then []
    else
      match Turn(env, id, p, s)
      case Ok(Some(q), n) => ChangeAt(env, id, p, s, k).was + Overwritten(env, id, q, s[n..], k)
      case Ok(None, _) => []
      case Err => []
  }

  /** All items of array `k` that `s` delivers, in order. */
  function Delivered(env: Env, id: nat, p: Progress, s: Bytes, k: nat): seq<Value>
    requires id < |env| && k < |env[id]| && |p.slots| == |env[id]|
    decreases |s|
  {
    if s == [] then []
    else
      match Turn(env, id, p, s)
      case Ok(Some(q), n) => ChangeAt(env, id, p, s, k).now + Delivered(env, id, q, s[n..], k)
      case Ok(None, _) => []
      case Err => []
  }

  // ----- A fixed-count array is a queue -----

  /** Every which_ member names a member of its own union, or nothing. */
  predicate Named(F: Fields, slots: seq<Slot>)
    requires |slots| == |F|
  {
    forall j :: 0 <= j < |F| && F[j].ht == ONEOF ==> NamesOwn(F, j, slots[Loc(F, j)])
  }

  predicate NamesOwn(F: Fields, j: nat, slot: Slot)
    requires j < |F|
  {
    slot.Union? && (slot.which == 0 || FindTag(F, slot.which).None? || Loc(F, FindTag(F, slot.which).value) == Loc(F, j))
  }

  /** Array `k` is there, and filled up to at most its size. */
  predicate InPlace(F: Fields, p: Progress, k: nat)
    requires k < |F| && |p.slots| == |F|
  {
    && FixedCount(F[k]) && F[k].at == STATIC && p.slots[k].Arr?
    && Place(p, k) <= |p.slots[k].items| == F[k].arraySize
  }

  /** The array from the place of its next item around to the one before. */
  function Queue(p: Progress, k: nat): seq<Value>
    requires k < |p.slots| && p.slots[k].Arr? && Place(p, k) <= |p.slots[k].items|
  {
    var c, items := Place(p, k), p.slots[k].items;
    items[c..] + items[..c]
  }

  /** An item goes to the back of the queue, and what it replaces was at the front. */
  lemma ItemQueued(items: seq<Value>, c: nat, vs: seq<Value>)
    requires c + |vs| <= |items|
    ensures var now, d := items[..c] + vs + items[c + |vs|..], c + |vs|;
            && |now| == |items| && now[c..d] == vs
            && items[c..d] + (now[d..] + now[..d]) == (items[c..] + items[..c]) + vs
  {
  }

  lemma FieldQueued(env: Env, id: nat, p: Progress, k: nat, wt: nat, s: Bytes)
    requires ValidEnv(env) && id < |env| && k < |env[id]| && |p.slots| == |env[id]|
    requires InPlace(env[id], p, k) && p.fixedField == Some(k) && DecField(env, id, p, k, wt, s).Ok?
    ensures var q := DecField(env, id, p, k, wt, s).v;
            var c, d := p.fixedSize, q.fixedSize;
            && InPlace(env[id], q, k) && q.fixedField == Some(k) && c <= d && |q.slots| == |p.slots|
            && p.slots[k].items[c..d] + Queue(q, k) == Queue(p, k) + q.slots[k].items[c..d]
            && forall i :: 0 <= i < |p.slots| && i != k ==> q.slots[i] == p.slots[i]
  {
    hide DecValue, DecVarint32, DecItems, Base, Cleared;
    var F, f, slot := env[id], env[id][k], p.slots[k];
    var r := DecField(env, id, p, k, wt, s);
    assert ValidMessage(env, id) && ValidField(env, id, f);
    if wt == WT_STRING && Packable(f.lt) {
      PackedField(env, id, p, k, s);
      ItemQueued(slot.items, p.fixedSize, PackedRun(f, Room(f, slot, p.fixedSize), s).v);
    } else {
      SingleField(env, id, p, k, wt, s);
      NothingCleared(env, F, p, k);
      ItemQueued(slot.items, p.fixedSize, [DecValue(env, f, Base(env, f, slot), s).v]);
    }
  }

  /** Other fields leave the array alone. */
  lemma OtherField(env: Env, id: nat, p: Progress, j: nat, wt: nat, s: Bytes, k: nat)
    requires ValidEnv(env) && id < |env| && j < |env[id]| && k < |env[id]| && |p.slots| == |env[id]| && j != k
    requires FixedCount(env[id][k]) && Named(env[id], p.slots) && DecField(env, id, p, j, wt, s).Ok?
    ensures var q := DecField(env, id, p, j, wt, s).v;
            && |q.slots| == |p.slots| && q.slots[k] == p.slots[k] && q.fixedField == p.fixedField
            && (!FixedCount(env[id][j]) ==> q.fixedSize == p.fixedSize)
  {
    hide DecValue, DecVarint32, DecItems, Base, Cleared, Stored, Named, Admits, Room, Shaped;
    var F := env[id];
    UnionNamed(F, p, j);
    NothingCleared(env, F, p, j);
    assert Loc(F, j) != k;
  }

  lemma UnionNamed(F: Fields, p: Progress, j: nat)
    requires |p.slots| == |F| && j < |F| && Named(F, p.slots)
    ensures F[j].ht == ONEOF ==> NamesOwn(F, j, p.slots[Loc(F, j)])
  {
    hide FindTag, Loc;
  }

  lemma StaysNamed(env: Env, id: nat, p: Progress, k: nat, wt: nat, s: Bytes)
    requires ValidEnv(env) && id < |env| && k < |env[id]| && |p.slots| == |env[id]|
    requires Named(env[id], p.slots) && DecField(env, id, p, k, wt, s).Ok?
    ensures Named(env[id], DecField(env, id, p, k, wt, s).v.slots)
  {
    hide DecValue, DecVarint32, DecItems, Base, Cleared, Admits, Room, FindTag, Shaped;
    var F := env[id];
    assert ValidMessage(env, id);
    FindUnique(env, id, k);
    UnionNamed(F, p, k);
    NothingCleared(env, F, p, k);
    var q := DecField(env, id, p, k, wt, s).v;
    forall j | 0 <= j < |F| && F[j].ht == ONEOF
      ensures NamesOwn(F, j, q.slots[Loc(F, j)])
    {
      UnionNamed(F, p, j);
    }
  }

  lemma TurnQueued(env: Env, id: nat, p: Progress, s: Bytes, k: nat)
    requires ValidEnv(env) && id < |env| && k < |env[id]| && |p.slots| == |env[id]|
    requires InPlace(env[id], p, k) && Named(env[id], p.slots) && Turn(env, id, p, s).Ok? && Turn(env, id, p, s).v.Some?
    ensures var q, c := Turn(env, id, p, s).v.value, ChangeAt(env, id, p, s, k);
            && InPlace(env[id], q, k) && Named(env[id], q.slots) && |c.was| == |c.now|
            && c.was + Queue(q, k) == Queue(p, k) + c.now
  {
    hide Turn, Classify, DecField, Named, RequiredBefore;
    var F, h := env[id], Classify(env[id], s);
    TurnIs(env, id, p, s);
    if h.Hit? {
      var e := Enter(F, p, h.k).value;
      EnterKeeps(F, p, h.k);
      StaysNamed(env, id, e, h.k, h.wt, s[h.n..]);
      if h.k == k {
        FieldQueued(env, id, e, k, h.wt, s[h.n..]);
      } else {
        OtherField(env, id, e, h.k, h.wt, s[h.n..], k);
      }
    }
  }

  lemma {:induction false} LoopQueued(env: Env, id: nat, p: Progress, s: Bytes, k: nat)
    requires ValidEnv(env) && id < |env| && k < |env[id]| && |p.slots| == |env[id]|
    requires InPlace(env[id], p, k) && Named(env[id], p.slots) && DecFields(env, id, p, s).Ok?
    ensures var q, was, now := DecFields(env, id, p, s).v.p, Overwritten(env, id, p, s, k), Delivered(env, id, p, s, k);
            && InPlace(env[id], q, k) && |was| == |now| && was + Queue(q, k) == Queue(p, k) + now
    decreases |s|
  {
    hide Turn, ChangeAt, Named, InPlace, Queue;
    ArrayThere(env[id], p, k);
    if s == [] {
      assert Queue(p, k) + [] == Queue(p, k) == [] + Queue(p, k);
    } else {
      var r := Turn(env, id, p, s);
      if r.v.Some? {
        var q, o := r.v.value, DecFields(env, id, p, s).v.p;
        TurnQueued(env, id, p, s, k);
        LoopQueued(env, id, q, s[r.n..], k);
        ArrayThere(env[id], q, k);
        ArrayThere(env[id], o, k);
        var c := ChangeAt(env, id, p, s, k);
        var was, now := Overwritten(env, id, q, s[r.n..], k), Delivered(env, id, q, s[r.n..], k);
        assert c.was + was + Queue(o, k) == c.was + (was + Queue(o, k)) == c.was + (Queue(q, k) + now)
               == (c.was + Queue(q, k)) + now == (Queue(p, k) + c.now) + now == Queue(p, k) + (c.now + now);
      } else {
        assert Queue(p, k) + [] == Queue(p, k) == [] + Queue(p, k);
      }
    }
  }

  lemma ArrayThere(F: Fields, p: Progress, k: nat)
    requires k < |F| && |p.slots| == |F| && InPlace(F, p, k)
    ensures k < |p.slots| && p.slots[k].Arr? && Place(p, k) <= |p.slots[k].items| == F[k].arraySize
  {
  }

  /** A fixed-count array is a queue: the elements an accepted message overwrites, followed by those the
      array holds in the end, are those it held in the beginning, followed by those delivered. */
  lemma ArrayIsQueue(env: Env, id: nat, slots: seq<Slot>, s: Bytes, k: nat)
    requires ValidEnv(env) && id < |env| && k < |slots| == |env[id]| && FixedCount(env[id][k])
    requires Shaped(env[id][k], slots[k]) && Named(env[id], slots) && DecMsg(env, id, slots, s).Ok?
    ensures var was, now, after := Overwritten(env, id, Start(slots), s, k), Delivered(env, id, Start(slots), s, k),
                                   DecMsg(env, id, slots, s).v[k];
            after.Arr? && |was| == |now| && was + after.items == slots[k].items + now
  {
    hide DecFields, Overwritten, Delivered, Named;
    assert ValidMessage(env, id) && ValidField(env, id, env[id][k]);
    LoopQueued(env, id, Start(slots), s, k);
    var q := DecFields(env, id, Start(slots), s).v.p;
    QueueEnds(slots[k].items, 0);
    QueueEnds(q.slots[k].items, Place(q, k));
  }

  lemma QueueEnds(items: seq<Value>, c: nat)
    requires c == 0 || c == |items|
    ensures items[c..] + items[..c] == items
  {
  }

  // ----- Pointers that are lost -----

  /** Releasing the element would free something. */
  predicate HoldsBlock(env: Env, f: Field, v: Value)
  {
    ReleasedValue(env, f, v) != v
  }

  lemma DefaultsNamed(env: Env, id: nat)
    requires ValidEnv(env) && id < |env|
    ensures Named(env[id], Defaults(env, id))
  {
    hide FindTag, DefaultValue;
  }

  /** What pb_decode overwrites of a fixed-count array without releasing it: nothing that holds a block, if
      and only if no element does that is delivered before the last ones, as many as fit the array. */
  lemma LostElements(env: Env, id: nat, s: Bytes, k: nat)
    requires ValidEnv(env) && id < |env| && k < |env[id]| && FixedCount(env[id][k]) && Decode(env, id, s).Ok?
    ensures var f, start := env[id][k], Start(Defaults(env, id));
            var was, now := Overwritten(env, id, start, s, k), Delivered(env, id, start, s, k);
            (forall v :: v in was ==> !HoldsBlock(env, f, v)) <==>
            (forall i :: 0 <= i < |now| - f.arraySize ==> !HoldsBlock(env, f, now[i]))
  {
    hide DecMsg, Overwritten, Delivered, Named, Defaults, HoldsBlock;
    var f, slots := env[id][k], Defaults(env, id);
    var was, now := Overwritten(env, id, Start(slots), s, k), Delivered(env, id, Start(slots), s, k);
    assert ValidMessage(env, id) && ValidField(env, id, f);
    DefaultsNamed(env, id);
    DefaultArray(env, id, k);
    ArrayIsQueue(env, id, slots, s, k);
    var all := slots[k].items + now;
    assert |all| == |now| + f.arraySize && was == all[..|now|];
    forall i | 0 <= i < |was|
      ensures HoldsBlock(env, f, was[i]) <==> i >= f.arraySize && HoldsBlock(env, f, now[i - f.arraySize])
    {
      assert was[i] == all[i];
    }
    if exists i :: 0 <= i < |now| - f.arraySize && HoldsBlock(env, f, now[i]) {
      var i :| 0 <= i < |now| - f.arraySize && HoldsBlock(env, f, now[i]);
      assert HoldsBlock(env, f, was[i + f.arraySize]) && was[i + f.arraySize] in was;
    }
  }

  /** A fixed-count array that no input has touched holds no block. */
  lemma DefaultArray(env: Env, id: nat, k: nat)
    requires ValidEnv(env) && id < |env| && k < |env[id]| && FixedCount(env[id][k])
    ensures var slot := Defaults(env, id)[k];
            && slot.Arr? && |slot.items| == env[id][k].arraySize && |Defaults(env, id)| == |env[id]|
            && Shaped(env[id][k], slot)
            && forall i :: 0 <= i < |slot.items| ==> !HoldsBlock(env, env[id][k], slot.items[i])
  {
    assert ValidMessage(env, id) && ValidField(env, id, env[id][k]);
    assert Defaults(env, id)[k] == DefaultSlot(env, id, k);
  }

  /** The tags of field `k` among those of fixed-count fields form a single run, or what is left of one. */
  predicate OneRun(k: nat, tags: seq<nat>, begun: bool, current: bool)
  {
    tags == [] ||
    if tags[0] == k then (current || !begun) && OneRun(k, tags[1..], true, true)
    else OneRun(k, tags[1..], begun, false)
  }

  lemma {:induction false} OneRunFits(env: Env, id: nat, p: Progress, s: Bytes, k: nat, begun: bool)
    requires ValidEnv(env) && id < |env| && k < |env[id]| && |p.slots| == |env[id]|
    requires InPlace(env[id], p, k) && Named(env[id], p.slots) && DecFields(env, id, p, s).Ok?
    requires OneRun(k, Scan(env[id], s), begun, p.fixedField == Some(k)) && (p.fixedField == Some(k) ==> begun)
    ensures |Delivered(env, id, p, s, k)| <= if begun && p.fixedField != Some(k) then 0 else env[id][k].arraySize - Place(p, k)
    decreases |s|
  {
    hide Turn, Classify, Scan, Named, InPlace, ChangeAt;
    ArrayThere(env[id], p, k);
    if s != [] {
      var r := Turn(env, id, p, s);
      if r.v.Some? {
        var h, q, c := Classify(env[id], s), r.v.value, ChangeAt(env, id, p, s, k);
        ScanTurn(env, id, p, s);
        TurnQueued(env, id, p, s, k);
        TurnCounts(env, id, p, s, k);
        ArrayThere(env[id], q, k);
        if h.Hit? && FixedCount(env[id][h.k]) {
          assert Scan(env[id], s)[1..] == Scan(env[id], s[r.n..]);
        }
        OneRunFits(env, id, q, s[r.n..], k, begun || q.fixedField == Some(k));
      }
    }
  }

  /** How far a turn gets with the array. */
  lemma TurnCounts(env: Env, id: nat, p: Progress, s: Bytes, k: nat)
    requires ValidEnv(env) && id < |env| && k < |env[id]| && |p.slots| == |env[id]|
    requires InPlace(env[id], p, k) && Named(env[id], p.slots) && Turn(env, id, p, s).Ok? && Turn(env, id, p, s).v.Some?
    ensures var h, q, c := Classify(env[id], s), Turn(env, id, p, s).v.value, ChangeAt(env, id, p, s, k);
            if h.Hit? && h.k == k then q.fixedField == Some(k) && q.fixedSize == Place(p, k) + |c.now|
            else c.now == [] && (q.fixedField == Some(k) ==> q.fixedField == p.fixedField && q.fixedSize == p.fixedSize)
  {
    hide Turn, Classify, DecField, Named, RequiredBefore;
    var F, h := env[id], Classify(env[id], s);
    TurnIs(env, id, p, s);
    if h.Hit? {
      var e := Enter(F, p, h.k).value;
      EnterKeeps(F, p, h.k);
      if h.k == k {
        FieldQueued(env, id, e, k, h.wt, s[h.n..]);
      } else {
        OtherField(env, id, e, h.k, h.wt, s[h.n..], k);
      }
    }
  }

  /** An array delivered in at most one run loses nothing. */
  lemma OneRunLosesNothing(env: Env, id: nat, s: Bytes, k: nat)
    requires ValidEnv(env) && id < |env| && k < |env[id]| && FixedCount(env[id][k]) && Decode(env, id, s).Ok?
    requires OneRun(k, Scan(env[id], s), false, false)
    ensures forall v :: v in Overwritten(env, id, Start(Defaults(env, id)), s, k) ==> !HoldsBlock(env, env[id][k], v)
  {
    hide DecFields, Overwritten, Delivered, Named, Defaults, HoldsBlock, Scan, Complete;
    assert ValidMessage(env, id) && ValidField(env, id, env[id][k]);
    DefaultsNamed(env, id);
    DefaultArray(env, id, k);
    OneRunFits(env, id, Start(Defaults(env, id)), s, k, false);
    LostElements(env, id, s, k);
  }

  // ----- A message that loses a string -----

  /** A string behind a pointer; an array of one such message, and one of one bool, both without a count. */
  const LOSING: Env := [[Field(1, STRING, OPTIONAL, PTR, 0, 0, PTR_SIZE, 0, 0, None)],
                        [Field(1, SUBMESSAGE, REPEATED, STATIC, 0, 0, PTR_SIZE, 1, 0, None),
                         Field(2, BOOL, REPEATED, STATIC, PTR_SIZE, 0, 1, 1, 0, None)]]

  /** The array of messages, the bool, and the array again. */
  const LOSING_INPUT: Bytes := [0x0A, 3, 0x0A, 1, 0x61, 0x10, 1, 0x0A, 0]

  const WITH_STRING: Value := Msg([Plain(Blob([0x61]))])
  const WITHOUT_STRING: Value := Msg([Plain(Null)])

  lemma LosingTables()
    ensures ValidEnv(LOSING) && Defaults(LOSING, 0) == [Plain(Null)]
    ensures Defaults(LOSING, 1) == [Arr([Null]), Arr([Num(0)])]
    ensures FindTag(LOSING[0], 1) == Some(0) && FindTag(LOSING[1], 1) == Some(0) && FindTag(LOSING[1], 2) == Some(1)
  {
    assert ValidMessage(LOSING, 0) && ValidMessage(LOSING, 1);
    assert DefaultSlot(LOSING, 0, 0) == Plain(Null);
    assert DefaultSlot(LOSING, 1, 0) == Arr(seq(1, _ => Null)) == Arr([Null]);
    assert DefaultSlot(LOSING, 1, 1) == Arr(seq(1, _ => Num(0))) == Arr([Num(0)]);
    FindUnique(LOSING, 0, 0);
    FindUnique(LOSING, 1, 0);
    FindUnique(LOSING, 1, 1);
  }

  /** A turn that starts over with the array of messages. */
  lemma ElementTurn(p: Progress, s: Bytes, v: Value, m: nat)
    requires |p.slots| == 2 && p.slots[0].Arr? && |p.slots[0].items| == 1
    requires p.fixedField == None || (p.fixedField == Some(1) && p.fixedSize == 1)
    requires |s| > 1 && s[0] == 0x0A && DecValue(LOSING, LOSING[1][0], Msg([Plain(Null)]), s[1..]) == Ok(v, m)
    ensures var q := Progress(p.slots[0 := Arr([v])], p.seen, Some(0), 1);
            && Turn(LOSING, 1, p, s) == Ok(Some(q), 1 + m)
            && ChangeAt(LOSING, 1, p, s, 0).was == p.slots[0].items
  {
    hide DecValue, FindTag, Turn, DecField;
    LosingTables();
    var e := p.(fixedField := Some(0), fixedSize := 0);
    assert Classify(LOSING[1], s) == Hit(1, 0, 2);
    TurnIs(LOSING, 1, p, s);
    SingleField(LOSING, 1, e, 0, 2, s[1..]);
    assert p.slots[0].items[..0] + [v] + p.slots[0].items[1..] == [v];
    assert p.slots[0].items[0..1] == p.slots[0].items;
  }

  /** A turn that delivers the bool. */
  lemma BoolTurn(p: Progress, s: Bytes)
    requires |p.slots| == 2 && p.slots[1].Arr? && |p.slots[1].items| == 1 && p.fixedField == Some(0) && p.fixedSize == 1
    requires |s| > 1 && s[0] == 0x10 && s[1] == 1
    ensures Turn(LOSING, 1, p, s) == Ok(Some(Progress(p.slots[1 := Arr([Num(1)])], p.seen, Some(1), 1)), 2)
  {
    hide FindTag, Turn, DecField;
    LosingTables();
    var e := p.(fixedField := Some(1), fixedSize := 0);
    assert Classify(LOSING[1], s) == Hit(1, 1, 0);
    TurnIs(LOSING, 1, p, s);
    SingleField(LOSING, 1, e, 1, 0, s[1..]);
    assert DecValue(LOSING, LOSING[1][1], Base(LOSING, LOSING[1][1], e.slots[1]), s[1..]) == Ok(Num(1), 1);
    assert p.slots[1].items[..0] + [Num(1)] + p.slots[1].items[1..] == [Num(1)];
  }

  /** The message with the string, and the one without. */
  lemma Elements(rest: Bytes)
    ensures var f, base := LOSING[1][0], Msg([Plain(Null)]);
            && DecValue(LOSING, f, base, [3, 0x0A, 1, 0x61] + rest) == Ok(WITH_STRING, 4)
            && DecValue(LOSING, f, base, [0]) == Ok(WITHOUT_STRING, 1)
  {
    hide DecMsg;
    var f, s := LOSING[1][0], [3, 0x0A, 1, 0x61] + rest;
    NestedValue(LOSING, f, [Plain(Null)], s);
    NestedValue(LOSING, f, [Plain(Null)], [0]);
    assert s[1..4] == [0x0A, 1, 0x61] && [0][1..1] == [];
    Inner();
  }

  lemma Inner()
    ensures DecMsg(LOSING, 0, [Plain(Null)], [0x0A, 1, 0x61]) == Ok([Plain(Blob([0x61]))], 3)
    ensures DecMsg(LOSING, 0, [Plain(Null)], []) == Ok([Plain(Null)], 0)
  {
    hide FindTag, Turn, DecField;
    LosingTables();
    var s: Bytes, p := [0x0A, 1, 0x61], Start([Plain(Null)]);
    var q := p.(slots := [Plain(Blob([0x61]))]);
    assert s[1..] == [1, 0x61] && Classify(LOSING[0], s) == Hit(1, 0, 2);
    TurnIs(LOSING, 0, p, s);
    SingleField(LOSING, 0, p, 0, 2, [1, 0x61]);
    assert [1, 0x61][1..2] == [0x61];
    assert DecBasic(LOSING[0][0], [1, 0x61]) == Ok(Blob([0x61]), 2);
    assert p.slots[0 := Plain(Blob([0x61]))] == q.slots;
    NothingLeft(LOSING, 0, p);
    NothingLeft(LOSING, 0, q);
    OneTurnOnly(LOSING, 0, p, s, q);
  }

  /** The string of the first element is lost when the second run begins. */
  lemma StringLost()
    ensures ValidEnv(LOSING) && Decode(LOSING, 1, LOSING_INPUT).Ok?
    ensures WITH_STRING in Overwritten(LOSING, 1, Start(Defaults(LOSING, 1)), LOSING_INPUT, 0)
    ensures HoldsBlock(LOSING, LOSING[1][0], WITH_STRING)
  {
    hide Turn, ChangeAt, DecValue;
    LosingTables();
    var s := LOSING_INPUT;
    var p0 := Start(Defaults(LOSING, 1));
    var p1 := Progress([Arr([WITH_STRING]), Arr([Num(0)])], {}, Some(0), 1);
    var p2 := Progress([Arr([WITH_STRING]), Arr([Num(1)])], {}, Some(1), 1);
    var p3 := Progress([Arr([WITHOUT_STRING]), Arr([Num(1)])], {}, Some(0), 1);
    Elements(s[5..]);
    assert s[1..] == [3, 0x0A, 1, 0x61] + s[5..] && s[5..][2..] == s[7..] == [0x0A, 0] && s[7..][1..] == [0] && s[7..][2..] == [];
    ElementTurn(p0, s, WITH_STRING, 4);
    assert p0.slots[0 := Arr([WITH_STRING])] == p1.slots && p1.slots[1 := Arr([Num(1)])] == p2.slots;
    assert p2.slots[0 := Arr([WITHOUT_STRING])] == p3.slots;
    BoolTurn(p1, s[5..]);
    ElementTurn(p2, s[7..], WITHOUT_STRING, 1);
    NothingLeft(LOSING, 1, p3);
    OneTurnOnly(LOSING, 1, p2, s[7..], p3);
    assert DecFields(LOSING, 1, p1, s[5..]) == Ok(Outcome(p3, false), 4);
    assert DecFields(LOSING, 1, p0, s) == Ok(Outcome(p3, false), 9);
    assert WITH_STRING in ChangeAt(LOSING, 1, p2, s[7..], 0).was;
    assert WITH_STRING in Overwritten(LOSING, 1, p2, s[7..], 0);
    assert WITH_STRING in Overwritten(LOSING, 1, p1, s[5..], 0);
    assert WITH_STRING in Overwritten(LOSING, 1, p0, s, 0);
    assert RequiredBefore(LOSING[1], 1) == 0 && Complete(LOSING[1], p3);
    assert Released(LOSING, 0, [Plain(Blob([0x61]))])[0] == Plain(Null);
  }
}
