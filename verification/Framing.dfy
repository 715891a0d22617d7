/** Unknown fields, delimited and zero-terminated messages. */
module Framing {
  import opened Bits
  import opened Varint
  import opened Schema
  import opened Wrappers
  import opened DecodeSpec
  import opened EncodeSpec
  import opened Prefix
  import opened Messages
  import opened ImplicitPresence
  import opened RoundTrip

  // ----- Unknown fields -----

  /** A whole record whose tag, at least 1, is not in the table and whose payload can be skipped. */
  predicate UnknownRecord(F: Fields, u: Bytes)
  {
    match DecVarint32(u)
    case Err => false
    case Ok(t, n) => t >= 8 && FindTag(F, t / 8).None? && Skip(t % 8, u[n..]) == Ok((), |u| - n)
  }

  lemma UnknownReads(env: Env, id: nat, p: Progress, u: Bytes)
    requires id < |env| && |p.slots| == |env[id]| && UnknownRecord(env[id], u)
    ensures Reads(env, id, p, u, p)
  {
    hide DecField, DecVarint32, Skip, Enter, DecFields;
    assert Turn(env, id, p, u) == Ok(Some(p), |u|);
    LastTurn(env, id, p, u, p);
  }

  /** A message cut into pieces at field boundaries: runs of records, and unknown records. */
  datatype Piece = Known(bs: Bytes) | Unknown(bs: Bytes)

  function Noisy(ps: seq<Piece>): Bytes
  {
    if ps == [] then [] else ps[0].bs + Noisy(ps[1..])
  }

  function Plain(ps: seq<Piece>): Bytes
  {
    if ps == [] then [] else (if ps[0].Known? then ps[0].bs else []) + Plain(ps[1..])
  }

  /** The known pieces end at field boundaries when decoded one after the other from `p`. */
  predicate Aligned(env: Env, id: nat, p: Progress, ps: seq<Piece>)
    requires id < |env| && |p.slots| == |env[id]|
    decreases ps
  {
    if ps == [] then true
    else match ps[0]
      case Unknown(u) => UnknownRecord(env[id], u) && Aligned(env, id, p, ps[1..])
      case Known(b) =>
        match DecFields(env, id, p, b)
        case Ok(o, _) => !o.ended && Aligned(env, id, o.p, ps[1..])
        case Err => false
  }

  /** The same outcome, apart from how many bytes it took. */
  predicate SameOutcome<T(==)>(a: Parse<T>, b: Parse<T>, more: nat)
  {
    match a
    case Ok(v, n) => b == Ok(v, n + more)
    case Err => b.Err?
  }

  lemma {:induction false} UnknownFields(env: Env, id: nat, p: Progress, ps: seq<Piece>, t: Bytes)
    requires id < |env| && |p.slots| == |env[id]| && Aligned(env, id, p, ps)
    ensures |Noisy(ps)| >= |Plain(ps)|
    ensures SameOutcome(DecFields(env, id, p, Plain(ps) + t), DecFields(env, id, p, Noisy(ps) + t), |Noisy(ps)| - |Plain(ps)|)
    decreases ps
  {
    hide DecFields, UnknownRecord;
    if ps == [] {
    } else {
      var rest := ps[1..];
      var b := ps[0].bs;
      assert Noisy(ps) + t == b + (Noisy(rest) + t);
      if ps[0].Unknown? {
        assert Plain(ps) + t == Plain(rest) + t;
        UnknownReads(env, id, p, b);
        CutFields(env, id, p, b, p, Noisy(rest) + t);
        UnknownFields(env, id, p, rest, t);
      } else {
        assert Plain(ps) + t == b + (Plain(rest) + t);
        var q := DecFields(env, id, p, b).v.p;
        CutFields(env, id, p, b, q, Noisy(rest) + t);
        CutFields(env, id, p, b, q, Plain(rest) + t);
        UnknownFields(env, id, q, rest, t);
      }
    }
  }

  /** Inserting any number of unknown fields at field boundaries changes neither whether pb_decode
      succeeds nor the struct it yields. */
  lemma UnknownFieldsAreTransparent(env: Env, id: nat, slots: seq<Slot>, ps: seq<Piece>, t: Bytes)
    requires id < |env| && |slots| == |env[id]| && Aligned(env, id, Start(slots), ps)
    ensures |Noisy(ps)| >= |Plain(ps)|
    ensures SameOutcome(DecMsg(env, id, slots, Plain(ps) + t), DecMsg(env, id, slots, Noisy(ps) + t), |Noisy(ps)| - |Plain(ps)|)
  {
    hide DecFields, Aligned;
    UnknownFields(env, id, Start(slots), ps, t);
  }

  /** What a sender with a newer schema would write: any tag outside the table with a payload of any
      of the four wire types is an unknown record. */
  datatype Payload = VarintPayload(v: nat) | Wide(bs: Bytes) | Bulk(bs: Bytes) | Narrow(bs: Bytes)

  function EncUnknown(tag: nat, payload: Payload): Bytes
  {
    match payload
    case VarintPayload(v) => EncTag(tag, WT_VARINT) + EncVarint(v)
    case Wide(bs) => EncTag(tag, WT_64BIT) + bs
    case Bulk(bs) => EncTag(tag, WT_STRING) + Prefixed(bs)
    case Narrow(bs) => EncTag(tag, WT_32BIT) + bs
  }

  lemma EncodedUnknown(F: Fields, tag: nat, payload: Payload)
    requires 1 <= tag < 0x2000_0000 && FindTag(F, tag).None?
    requires payload.Wide? ==> |payload.bs| == 8
    requires payload.Narrow? ==> |payload.bs| == 4
    requires payload.Bulk? ==> |payload.bs| < TWO_32
    ensures UnknownRecord(F, EncUnknown(tag, payload))
  {
    hide DecVarint32, FindTag, EncVarint;
    match payload
    case VarintPayload(v) =>
      UnknownFrom(F, tag, WT_VARINT, EncVarint(v)) by {
        EncLength(v, [], |EncVarint(v)|);
        assert EncVarint(v) + [] == EncVarint(v);
      }
    case Wide(bs) => UnknownFrom(F, tag, WT_64BIT, bs);
    case Bulk(bs) =>
      UnknownFrom(F, tag, WT_STRING, Prefixed(bs)) by {
        RoundTrip32(|bs|, bs);
      }
    case Narrow(bs) => UnknownFrom(F, tag, WT_32BIT, bs);
  }

  lemma UnknownFrom(F: Fields, tag: nat, wt: nat, s: Bytes)
    requires 1 <= tag < 0x2000_0000 && wt < 8 && FindTag(F, tag).None? && Skip(wt, s) == Ok((), |s|)
    ensures UnknownRecord(F, EncTag(tag, wt) + s)
  {
    hide DecVarint32, FindTag, Skip, EncVarint;
    TagRoundTrip(tag, wt, s);
    var e := EncTag(tag, wt);
    assert (e + s)[|e|..] == s;
  }

  // ----- Delimited messages -----

  /** pb_decode_delimited called `k` times on one stream. */
  function DecSequence(env: Env, id: nat, k: nat, s: Bytes): Parse<seq<seq<Slot>>>
    decreases k
  {
    if k == 0 then Ok([], 0)
    else
      match DecDelimited(env, id, s)
      case Err => Err
      case Ok(m, n) =>
        match DecSequence(env, id, k - 1, s[n..])
        case Err => Err
        case Ok(ms, j) => Ok([m] + ms, n + j)
  }

  function EncSequence(env: Env, id: nat, ms: seq<seq<Slot>>): Option<Bytes>
  {
    if ms == [] then Some([]) else Append(EncDelimited(env, id, ms[0]), EncSequence(env, id, ms[1..]))
  }

  function NormAll(env: Env, id: nat, ms: seq<seq<Slot>>): (r: seq<seq<Slot>>)
    requires id < |env| && forall m :: m in ms ==> |m| == |env[id]|
    ensures |r| == |ms|
  {
    if ms == [] then [] else [Norm(env, id, ms[0])] + NormAll(env, id, ms[1..])
  }

  function IdealAll(env: Env, id: nat, ms: seq<seq<Slot>>): (r: seq<seq<Slot>>)
    requires id < |env| && forall m :: m in ms ==> |m| == |env[id]|
    ensures |r| == |ms|
  {
    if ms == [] then [] else [Ideal(env, id, ms[0])] + IdealAll(env, id, ms[1..])
  }

  predicate KeptAll(env: Env, id: nat, ms: seq<seq<Slot>>)
    requires id < |env| && forall m :: m in ms ==> |m| == |env[id]|
  {
    ms == [] || (Kept(env, id, ms[0]) && KeptAll(env, id, ms[1..]))
  }

  /** A delimited message is decoded from its own bytes alone, and all of them are taken, also when a zero
      tag ends it early. */
  lemma DelimitedTakesAll(env: Env, id: nat, b: Bytes, t: Bytes)
    requires |b| < TWO_32
    ensures DecDelimited(env, id, Prefixed(b) + t)
            == match Decode(env, id, b) case Ok(m, _) => Ok(m, |Prefixed(b)|) case Err => Err
  {
    hide DecVarint32, Decode, EncVarint;
    RoundTrip32(|b|, b + t);
    var n := |EncVarint(|b|)|;
    assert Prefixed(b) + t == EncVarint(|b|) + (b + t) && (Prefixed(b) + t)[n..n + |b|] == b;
  }

  lemma DelimitedRoundTrip(env: Env, id: nat, slots: seq<Slot>, t: Bytes)
    requires ValidEnv(env) && Good(env, id, slots) && Short(EncMsg(env, id, slots))
    ensures EncDelimited(env, id, slots).Some?
    ensures var e := EncDelimited(env, id, slots).value;
            && DecDelimited(env, id, e + t) == Ok(Norm(env, id, slots), |e|)
            && (DecDelimited(env, id, e + t).v == Ideal(env, id, slots) <==> Kept(env, id, slots))
  {
    hide DecVarint32, Norm, EncMsg, Decode, EncVarint, GoodSlot, Ideal, Kept;
    MessageRoundTrip(env, id, slots);
    var body := EncMsg(env, id, slots).value;
    var n := |EncVarint(|body|)|;
    RoundTrip32(|body|, body + t);
    assert Prefixed(body) + t == EncVarint(|body|) + (body + t);
    assert (Prefixed(body) + t)[n..n + |body|] == body;
  }

  lemma {:induction false} SequenceNorm(env: Env, id: nat, ms: seq<seq<Slot>>, t: Bytes)
    requires ValidEnv(env) && id < |env|
    requires forall m :: m in ms ==> Good(env, id, m) && Short(EncMsg(env, id, m)) && |m| == |env[id]|
    ensures EncSequence(env, id, ms).Some?
    ensures var e := EncSequence(env, id, ms).value;
            DecSequence(env, id, |ms|, e + t) == Ok(NormAll(env, id, ms), |e|)
    decreases |ms|
  {
    hide EncDelimited, DecDelimited, Norm, EncMsg, Good, ValidEnv, Ideal, Kept;
    if ms != [] {
      var rest := ms[1..];
      SequenceNorm(env, id, rest, t);
      var e, es := EncDelimited(env, id, ms[0]), EncSequence(env, id, rest).value;
      DelimitedRoundTrip(env, id, ms[0], es + t);
      assert (e.value + es) + t == e.value + (es + t);
      assert (e.value + (es + t))[|e.value|..] == es + t;
    }
  }

  lemma {:induction false} AllIdeal(env: Env, id: nat, ms: seq<seq<Slot>>)
    requires ValidEnv(env) && id < |env| && forall m :: m in ms ==> Good(env, id, m) && |m| == |env[id]|
    ensures NormAll(env, id, ms) == IdealAll(env, id, ms) <==> KeptAll(env, id, ms)
    decreases |ms|
  {
    hide Norm, Good, Ideal, Kept;
    if ms != [] {
      NormIsIdeal(env, id, ms[0]);
      AllIdeal(env, id, ms[1..]);
      var a, b := NormAll(env, id, ms), IdealAll(env, id, ms);
      assert a[0] == Norm(env, id, ms[0]) && a[1..] == NormAll(env, id, ms[1..]);
      assert b[0] == Ideal(env, id, ms[0]) && b[1..] == IdealAll(env, id, ms[1..]);
    }
  }

  /** Messages written back to back with their lengths come back one by one, and the stream ends up
      right behind the last of them; they are the messages themselves if and only if none of them loses
      an implicit member. */
  lemma SequenceRoundTrip(env: Env, id: nat, ms: seq<seq<Slot>>, t: Bytes)
    requires ValidEnv(env) && id < |env|
    requires forall m :: m in ms ==> Good(env, id, m) && Short(EncMsg(env, id, m)) && |m| == |env[id]|
    ensures EncSequence(env, id, ms).Some?
    ensures var e := EncSequence(env, id, ms).value;
            && DecSequence(env, id, |ms|, e + t) == Ok(NormAll(env, id, ms), |e|)
            && (DecSequence(env, id, |ms|, e + t).v == IdealAll(env, id, ms) <==> KeptAll(env, id, ms))
  {
    hide EncMsg, Good, EncSequence, DecSequence, NormAll, IdealAll, KeptAll;
    SequenceNorm(env, id, ms, t);
    AllIdeal(env, id, ms);
  }

  // ----- Zero-terminated messages -----

  /** A message followed by a zero byte decodes to itself whatever comes next, and exactly what comes
      next is left: no tag the encoder writes reads as zero. */
  lemma TerminatedRoundTrip(env: Env, id: nat, slots: seq<Slot>, t: Bytes)
    requires ValidEnv(env) && Good(env, id, slots)
    ensures EncTerminated(env, id, slots).Some?
    ensures var e := EncTerminated(env, id, slots).value;
            && Decode(env, id, e + t) == Ok(Norm(env, id, slots), |e|)
            && (Decode(env, id, e + t).v == Ideal(env, id, slots) <==> Kept(env, id, slots))
  {
    hide DecFields, Defaults, Complete, Norm, EncMsg, GoodSlot, Ideal, Kept;
    NormIsIdeal(env, id, slots);
    var q := MessageReads(env, id, slots);
    var body := EncMsg(env, id, slots).value;
    CutFields(env, id, Start(Defaults(env, id)), body, q, [0] + t);
    assert (body + [0]) + t == body + ([0] + t);
    ZeroEnds(env, id, q, t);
  }

  lemma ZeroEnds(env: Env, id: nat, p: Progress, t: Bytes)
    requires id < |env| && |p.slots| == |env[id]|
    ensures DecFields(env, id, p, [0] + t) == Ok(Outcome(p, true), 1)
  {
    hide Step;
    assert Turn(env, id, p, [0] + t) == Ok(None, 1);
  }
}
