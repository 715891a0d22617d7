/** Fields that are not in the input keep what they held, which is their default when decoding starts from
    defaults. */
module Absence {
  import opened Bits
  import opened Varint
  import opened Schema
  import opened DecodeSpec
  import opened DecodeSteps
  import opened Prefix
  import opened Merge
  import opened FixedQueues

  /** No field of `ks` is stored in slot `l`. */
  predicate Untouched(F: Fields, ks: seq<nat>, l: nat)
  {
    forall i :: 0 <= i < |ks| ==> ks[i] < |F| ==> Loc(F, ks[i]) != l
  }

  lemma OtherSlot(env: Env, id: nat, p: Progress, j: nat, wt: nat, s: Bytes, l: nat)
    requires ValidEnv(env) && id < |env| && j < |env[id]| && |p.slots| == |env[id]| && l < |env[id]| && Loc(env[id], j) != l
    requires Named(env[id], p.slots) && DecField(env, id, p, j, wt, s).Ok?
    ensures DecField(env, id, p, j, wt, s).v.slots[l] == p.slots[l]
  {
    hide DecValue, DecVarint32, DecItems, Base, Cleared, Stored, Named, Admits, Room, Shaped;
    var F := env[id];
    UnionNamed(F, p, j);
    NothingCleared(env, F, p, j);
  }

  lemma {:induction false} LoopKeeps(env: Env, id: nat, p: Progress, s: Bytes, l: nat)
    requires ValidEnv(env) && id < |env| && |p.slots| == |env[id]| && l < |env[id]|
    requires Named(env[id], p.slots) && DecFields(env, id, p, s).Ok? && Untouched(env[id], Hits(env[id], s), l)
    ensures DecFields(env, id, p, s).v.p.slots[l] == p.slots[l]
    decreases |s|
  {
    hide Turn, Classify, Hits, DecField, Named, Loc;
    if s != [] {
      var F, h, r := env[id], Classify(env[id], s), Turn(env, id, p, s);
      TurnIs(env, id, p, s);
      HitsTurn(env, id, p, s);
      if r.v.Some? {
        var all, more := Hits(F, s), Hits(F, s[r.n..]);
        if h.Hit? {
          var e := Enter(F, p, h.k).value;
          EnterKeeps(F, p, h.k);
          assert all[0] == h.k && all[1..] == more;
          OtherSlot(env, id, e, h.k, h.wt, s[h.n..], l);
          StaysNamed(env, id, e, h.k, h.wt, s[h.n..]);
        } else {
          assert all == more;
        }
        assert Untouched(F, more, l);
        LoopKeeps(env, id, r.v.value, s[r.n..], l);
      }
    }
  }

  /** A member that none of the fields in the input is stored in keeps what it held. */
  lemma AbsentKeeps(env: Env, id: nat, slots: seq<Slot>, s: Bytes, l: nat)
    requires ValidEnv(env) && id < |env| && |slots| == |env[id]| && l < |env[id]| && Named(env[id], slots)
    requires DecMsg(env, id, slots, s).Ok? && Untouched(env[id], Hits(env[id], s), l)
    ensures DecMsg(env, id, slots, s).v[l] == slots[l]
  {
    hide DecFields, Hits, Named, Untouched;
    LoopKeeps(env, id, Start(slots), s, l);
  }

  /** Zero, nothing, or as many zero bytes as the field has. */
  predicate IsZero(f: Field, v: Value)
  {
    match f.lt
    case BYTES => v == Blob([])
    case STRING => v == Blob([])
    case FIXED_LENGTH_BYTES => v.Blob? && |v.bs| == f.dataSize && forall b :: b in v.bs ==> b == 0
    case SUBMESSAGE => false
    case _ => v == Num(0)
  }

  /** The default contents of a member in place. */
  predicate IsDefaultValue(env: Env, id: nat, f: Field, v: Value)
  {
    if f.lt == SUBMESSAGE then v == Msg(Defaults(env, f.sub))
    else match f.dflt
      case Some(d) => v == d
      case None => IsZero(f, v)
  }

  lemma DefaultMeans(env: Env, id: nat, f: Field)
    requires ValidField(env, id, f)
    ensures if f.at == PTR then DefaultValue(env, id, f) == Null else IsDefaultValue(env, id, f, DefaultValue(env, id, f))
  {
    hide Defaults;
  }

  /** What pb_decode leaves in a member that is not in the input: a flag that says so and a count of zero,
      no union member, null pointers, and the default of the table where there is one. */
  lemma AbsentIsDefault(env: Env, id: nat, s: Bytes, k: nat)
    requires ValidEnv(env) && id < |env| && k < |env[id]| && !UnionTail(env[id], k)
    requires Decode(env, id, s).Ok? && Untouched(env[id], Hits(env[id], s), k)
    ensures var f, slot := env[id][k], Decode(env, id, s).v[k];
            if f.ht == ONEOF then slot == Union(0, Null)
            else if f.ht == REPEATED && f.sizeOffset != 0 then slot == Arr([])
            else if f.ht == REPEATED then
              slot.Arr? && |slot.items| == f.arraySize
              && forall v :: v in slot.items ==> if f.lt == SUBMESSAGE then v == Null else IsZero(f, v)
            else if f.at == PTR then slot == Plain(Null)
            else if f.ht == OPTIONAL && f.sizeOffset != 0 then slot.Opt? && !slot.has && IsDefaultValue(env, id, f, slot.v)
            else slot.Plain? && IsDefaultValue(env, id, f, slot.v)
  {
    hide DecMsg, Hits, Named, Untouched, IsDefaultValue, DefaultValue;
    assert ValidMessage(env, id) && ValidField(env, id, env[id][k]);
    DefaultMeans(env, id, env[id][k]);
    DefaultsNamed(env, id);
    AbsentKeeps(env, id, Defaults(env, id), s, k);
    assert Defaults(env, id)[k] == DefaultSlot(env, id, k);
  }
}
