/** The decoder's specification taken apart step by step, for the code that implements it. */
module DecodeSteps {
  import opened Bits
  import opened Varint
  import opened Schema
  import opened Wrappers
  import opened DecodeSpec

  function Prepend(done: seq<Value>, r: Option<seq<Value>>): Option<seq<Value>>
  {
    match r case Some(vs) => Some(done + vs) case None => None
  }

  lemma PrependStep(f: Field, s: Bytes, room: nat, done: seq<Value>)
    requires s != [] && room > 0
    ensures Prepend(done, DecItems(f, s, room)) ==
            match DecBasic(f, s)
            case Err => None
            case Ok(v, n) => Prepend(done + [v], DecItems(f, s[n..], room - 1))
  {
    hide DecBasic;
    var b := DecBasic(f, s);
    if b.Ok? && DecItems(f, s[b.n..], room - 1).Some? {
      var vs := DecItems(f, s[b.n..], room - 1).value;
      assert done + ([b.v] + vs) == done + [b.v] + vs;
    }
  }

  /** Where the loops over a packed payload begin and end. */
  lemma PrependEnds(f: Field, s: Bytes, room: nat, done: seq<Value>)
    ensures Prepend([], DecItems(f, s, room)) == DecItems(f, s, room)
    ensures s == [] ==> Prepend(done, DecItems(f, s, room)) == Some(done)
    ensures s != [] && room == 0 ==> Prepend(done, DecItems(f, s, room)) == None
  {
    hide DecBasic;
    assert done + [] == done;
    if DecItems(f, s, room).Some? {
      assert [] + DecItems(f, s, room).value == DecItems(f, s, room).value;
    }
  }

  /** A length-prefixed run of items. */
  function PackedRun(f: Field, room: nat, s: Bytes): (p: Parse<seq<Value>>)
    ensures p.Ok? ==> 1 <= p.n <= |s|
  {
    match DecVarint32(s)
    case Err => Err
    case Ok(size, n) =>
      if |s| - n < size then Err
      else
        match DecItems(f, s[n..n + size], room)
        case None => Err
        case Some(vs) => Ok(vs, n + size)
  }

  lemma PackedField(env: Env, id: nat, p: Progress, k: nat, s: Bytes)
    requires id < |env| && k < |env[id]| && |p.slots| == |env[id]|
    requires var f := env[id][k]; f.ht == REPEATED && Packable(f.lt) && Shaped(f, p.slots[k])
    ensures var run := PackedRun(env[id][k], Room(env[id][k], p.slots[k], p.fixedSize), s);
            DecField(env, id, p, k, WT_STRING, s) ==
            if run.Ok? then Ok(Store(env[id], p, k, run.v), run.n) else Err
  {
    hide DecVarint32, DecItems, Room, Store, Shaped;
  }

  lemma SingleField(env: Env, id: nat, p: Progress, k: nat, wt: nat, s: Bytes)
    requires id < |env| && k < |env[id]| && |p.slots| == |env[id]|
    requires var f := env[id][k];
             Shaped(f, p.slots[Loc(env[id], k)]) && !(f.ht == REPEATED && wt == WT_STRING && Packable(f.lt))
    ensures var F, f, slot := env[id], env[id][k], p.slots[Loc(env[id], k)];
            DecField(env, id, p, k, wt, s) ==
            if !Admits(F, f, slot, p.fixedSize) then Err
            else
              var d := DecValue(env, f, Base(env, f, slot), s);
              if d.Ok? then Ok(Store(F, Cleared(env, F, p, k), k, [d.v]), d.n) else Err
  {
    hide DecValue, Base, Admits, Store, Shaped, Loc, Cleared;
  }

  /** There is nothing to clear unless which_ names a field outside the union. */
  lemma NothingCleared(env: Env, F: Fields, p: Progress, k: nat)
    requires k < |F| && |p.slots| == |F|
    requires F[k].ht == ONEOF ==>
               var slot := p.slots[Loc(F, k)];
               slot.Union? && (slot.which == 0 || FindTag(F, slot.which).None? || Loc(F, FindTag(F, slot.which).value) == Loc(F, k))
    ensures Cleared(env, F, p, k) == p
  {
    hide FindTag, Loc, ReleasedSlot;
  }

  /** Only submessages look at what is already there. */
  lemma BaseUnused(env: Env, f: Field, a: Value, b: Value, s: Bytes)
    requires f.lt != SUBMESSAGE || a == b
    ensures DecValue(env, f, a, s) == DecValue(env, f, b, s)
  {
    hide DecBasic;
  }

  lemma NestedValue(env: Env, f: Field, slots: seq<Slot>, s: Bytes)
    requires f.lt == SUBMESSAGE
    ensures DecValue(env, f, Msg(slots), s) ==
            var h := DecVarint32(s);
            if h.Err? || |s| - h.n < h.v then Err
            else
              var inner := DecMsg(env, f.sub, slots, s[h.n..h.n + h.v]);
              if inner.Ok? then Ok(Msg(inner.v), h.n + h.v) else Err
  {
    hide DecVarint32, DecMsg;
  }

  function Later(r: Parse<Outcome>, n: nat): Parse<Outcome>
  {
    match r case Ok(o, m) => Ok(o, n + m) case Err => Err
  }

  lemma NothingLeft(env: Env, id: nat, p: Progress)
    requires id < |env| && |p.slots| == |env[id]|
    ensures DecFields(env, id, p, []) == Ok(Outcome(p, false), 0)
  {
    hide Turn;
  }

  lemma LoopTurn(env: Env, id: nat, p: Progress, s: Bytes)
    requires id < |env| && |p.slots| == |env[id]| && s != []
    ensures var h, all := DecVarint32(s), DecFields(env, id, p, s);
            if h.Err? then all.Err?
            else if h.v == 0 then all == Ok(Outcome(p, true), h.n)
            else
              var r := Step(env, id, p, h.v / 8, h.v % 8, s[h.n..]);
              if r.Err? then all.Err?
              else s[h.n..][r.n..] == s[h.n + r.n..] && all == Later(DecFields(env, id, r.v, s[h.n + r.n..]), h.n + r.n)
  {
    hide Step, DecVarint32;
  }
}
