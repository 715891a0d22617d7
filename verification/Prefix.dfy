/** The decoder only looks at the bytes it consumes, so its main loop can be cut at any field boundary. */
module Prefix {
  import opened Bits
  import opened Varint
  import opened Schema
  import opened Wrappers
  import opened DecodeSpec

  lemma LocalNumber(f: Field, s: Bytes, t: Bytes)
    requires DecNumber(f, s).Ok?
    ensures DecNumber(f, s + t) == DecNumber(f, s)
  {
    Local64(s, t);
  }

  lemma LocalBlob(f: Field, s: Bytes, t: Bytes)
    requires DecBlob(f, s).Ok?
    ensures DecBlob(f, s + t) == DecBlob(f, s)
  {
    Local32(s, t);
    var p := DecVarint32(s);
    assert (s + t)[p.n..p.n + p.v] == s[p.n..p.n + p.v];
  }

  lemma LocalBasic(f: Field, s: Bytes, t: Bytes)
    requires DecBasic(f, s).Ok?
    ensures DecBasic(f, s + t) == DecBasic(f, s)
  {
    match f.lt
    case BOOL => Local32(s, t);
    case FIXED32 => assert (s + t)[..4] == s[..4];
    case FIXED64 => assert (s + t)[..8] == s[..8];
    case SUBMESSAGE =>
    case _ => if Packable(f.lt) { LocalNumber(f, s, t); } else { LocalBlob(f, s, t); }
  }

  lemma LocalSkip(wt: nat, s: Bytes, t: Bytes)
    requires Skip(wt, s).Ok?
    ensures Skip(wt, s + t) == Skip(wt, s)
  {
    if wt == WT_VARINT {
      VarintLenLocal(s, t, |s|);
      VarintLenWithin(s + t, |s|, |s + t|);
    } else if wt == WT_STRING {
      Local32(s, t);
    }
  }

  lemma LocalValue(env: Env, f: Field, base: Value, s: Bytes, t: Bytes)
    requires DecValue(env, f, base, s).Ok?
    ensures DecValue(env, f, base, s + t) == DecValue(env, f, base, s)
  {
    if f.lt != SUBMESSAGE {
      LocalBasic(f, s, t);
    } else {
      Local32(s, t);
      var p := DecVarint32(s);
      assert (s + t)[p.n..p.n + p.v] == s[p.n..p.n + p.v];
    }
  }

  lemma LocalField(env: Env, id: nat, p: Progress, k: nat, wt: nat, s: Bytes, t: Bytes)
    requires id < |env| && k < |env[id]| && |p.slots| == |env[id]|
    requires DecField(env, id, p, k, wt, s).Ok?
    ensures DecField(env, id, p, k, wt, s + t) == DecField(env, id, p, k, wt, s)
  {
    hide DecItems, Store, DecVarint32, DecValue, Base, Admits, Shaped, Room;
    var f := env[id][k];
    if f.ht == REPEATED && wt == WT_STRING && Packable(f.lt) {
      Local32(s, t);
      var h := DecVarint32(s);
      assert (s + t)[h.n..h.n + h.v] == s[h.n..h.n + h.v];
    } else {
      LocalValue(env, f, Base(env, f, p.slots[Loc(env[id], k)]), s, t);
    }
  }

  lemma EnterKeeps(F: Fields, p: Progress, k: nat)
    requires k < |F| && Enter(F, p, k).Some?
    ensures var e := Enter(F, p, k).value;
            && e.slots == p.slots && p.seen <= e.seen
            && (F[k].ht == REQUIRED && RequiredBefore(F, k) < PB_MAX_REQUIRED_FIELDS ==> RequiredBefore(F, k) in e.seen)
            && (!FixedCount(F[k]) ==> e.fixedField == p.fixedField && e.fixedSize == p.fixedSize)
            && (FixedCount(F[k]) ==> e.fixedField == Some(k))
            && (FixedCount(F[k]) && p.fixedField != Some(k) ==> e.fixedSize == 0)
            && (p.fixedField == Some(k) && F[k].ht != REQUIRED ==> e == p)
            && (F[k].ht == REPEATED && !FixedCount(F[k]) ==> e == p)
  {
  }

  lemma LocalStep(env: Env, id: nat, p: Progress, tag: nat, wt: nat, s: Bytes, t: Bytes)
    requires id < |env| && |p.slots| == |env[id]| && Step(env, id, p, tag, wt, s).Ok?
    ensures Step(env, id, p, tag, wt, s + t) == Step(env, id, p, tag, wt, s)
  {
    var F := env[id];
    if F == [] && tag == 0 {
      Local32(s, t);
    } else {
      match FindTag(F, tag)
      case None => LocalSkip(wt, s, t);
      case Some(k) => LocalField(env, id, Enter(F, p, k).value, k, wt, s, t);
    }
  }

  lemma LocalTurn(env: Env, id: nat, p: Progress, s: Bytes, t: Bytes)
    requires id < |env| && |p.slots| == |env[id]| && Turn(env, id, p, s).Ok?
    ensures Turn(env, id, p, s + t) == Turn(env, id, p, s)
  {
    hide Step, DecVarint32;
    var h := DecVarint32(s);
    Local32(s, t);
    if h.v != 0 {
      LocalStep(env, id, p, h.v / 8, h.v % 8, s[h.n..], t);
      assert (s + t)[h.n..] == s[h.n..] + t;
    }
  }

  /** The result of a reader whose input started `n` bytes earlier. */
  function Shift<T>(p: Parse<T>, n: nat): Parse<T>
  {
    match p
    case Ok(v, m) => Ok(v, n + m)
    case Err => Err
  }

  /** The loop consumes all of `s` without meeting a zero tag. */
  predicate Reads(env: Env, id: nat, p: Progress, s: Bytes, q: Progress)
    requires id < |env| && |p.slots| == |env[id]|
  {
    DecFields(env, id, p, s) == Ok(Outcome(q, false), |s|)
  }

  /** Cutting the input at a field boundary: the rest is decoded from the progress made so far,
      whether that succeeds or fails. */
  lemma {:induction false} CutFields(env: Env, id: nat, p: Progress, s: Bytes, q: Progress, t: Bytes)
    requires id < |env| && |p.slots| == |env[id]| && Reads(env, id, p, s, q)
    ensures |q.slots| == |p.slots|
    ensures DecFields(env, id, p, s + t) == Shift(DecFields(env, id, q, t), |s|)
    decreases |s|
  {
    hide Turn;
    if s == [] {
      assert s + t == t;
    } else {
      var r := Turn(env, id, p, s);
      LocalTurn(env, id, p, s, t);
      assert (s + t)[r.n..] == s[r.n..] + t;
      CutFields(env, id, r.v.value, s[r.n..], q, t);
    }
  }

  /** A message ended by a zero tag is decoded without looking at what follows. */
  lemma {:induction false} EndedFields(env: Env, id: nat, p: Progress, s: Bytes, t: Bytes)
    requires id < |env| && |p.slots| == |env[id]|
    requires DecFields(env, id, p, s).Ok? && DecFields(env, id, p, s).v.ended
    ensures DecFields(env, id, p, s + t) == DecFields(env, id, p, s)
    decreases |s|
  {
    hide Turn;
    var r := Turn(env, id, p, s);
    LocalTurn(env, id, p, s, t);
    if r.v.Some? {
      assert (s + t)[r.n..] == s[r.n..] + t;
      EndedFields(env, id, r.v.value, s[r.n..], t);
    }
  }
}
