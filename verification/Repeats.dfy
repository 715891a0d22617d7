/** Fields that come more than once, and occurrences the decoder or the encoder refuses. */
module Repeats {
  import opened Bits
  import opened Varint
  import opened Schema
  import opened Wrappers
  import opened DecodeSpec
  import opened DecodeSteps
  import opened EncodeSpec
  import opened Scalars
  import opened Prefix
  import opened Messages
  import opened Merge
  import opened RoundTrip

  // ----- The wire type -----

  /** Only an array of numbers looks at the wire type of its tag. */
  lemma WireTypeIgnored(env: Env, id: nat, p: Progress, k: nat, wt: nat, other: nat, s: Bytes)
    requires id < |env| && k < |env[id]| && |p.slots| == |env[id]|
    requires env[id][k].ht == REPEATED ==> env[id][k].lt in {BYTES, STRING, SUBMESSAGE, FIXED_LENGTH_BYTES}
    ensures DecField(env, id, p, k, wt, s) == DecField(env, id, p, k, other, s)
  {
    hide DecValue, Base, Admits, Store, Shaped, Cleared;
  }

  /** Which payloads pb_skip_field takes, by the number of the wire type. */
  lemma SkipByNumber(wt: nat, s: Bytes, n: nat)
    ensures Skip(wt, s) == Ok((), n) <==>
            match wt
            case 0 => 1 <= n <= |s| && s[n - 1] < 128 && forall i :: 0 <= i < n - 1 ==> s[i] >= 128
            case 1 => n == 8 <= |s|
            case 2 => DecVarint32(s).Ok? && n == DecVarint32(s).n + DecVarint32(s).v <= |s|
            case 5 => n == 4 <= |s|
            case _ => false
  {
    hide DecVarint32;
    if wt == 0 {
      EndsAt(s, n, |s|);
    }
  }

  lemma {:induction false} EndsAt(s: Bytes, n: nat, max: nat)
    requires |s| <= max
    ensures n > 0 && VarintLen(s, max) == n <==>
              1 <= n <= |s| && s[n - 1] < 128 && forall i :: 0 <= i < n - 1 ==> s[i] >= 128
    decreases max
  {
    if s != [] && s[0] >= 128 && n > 1 {
      EndsAt(s[1..], n - 1, max - 1);
      assert n <= |s| ==> s[1..][n - 2] == s[n - 1];
      assert forall i :: 1 <= i < |s| ==> s[1..][i - 1] == s[i];
    }
  }

  /** A tag with field number zero and a wire type does not end a message: it is a field no table has. */
  lemma NumberZero(env: Env, id: nat, p: Progress, w: nat, s: Bytes)
    requires ValidEnv(env) && id < |env| && env[id] != [] && |p.slots| == |env[id]| && 1 <= w < 8 && Skip(w, s).Ok?
    ensures Turn(env, id, p, [w] + s) == Ok(Some(p), 1 + Skip(w, s).n)
  {
    hide Skip;
    assert ValidMessage(env, id);
    assert FindTag(env[id], 0).None? by {
      assert forall k :: 0 <= k < |env[id]| ==> ValidField(env, id, env[id][k]);
    }
    assert ([w] + s)[1..] == s && DecVarint32([w] + s) == Ok(w, 1);
  }

  /** In an empty table, where the terminator has that number, a bool is read instead. */
  lemma NumberZeroEmpty(env: Env, id: nat, w: nat, s: Bytes)
    requires id < |env| && env[id] == [] && 1 <= w < 8
    ensures Turn(env, id, Start([]), [w] + s)
            == match DecVarint32(s) case Ok(_, n) => Ok(Some(Start([])), 1 + n) case Err => Err
  {
    assert ([w] + s)[1..] == s && DecVarint32([w] + s) == Ok(w, 1);
    hide DecVarint32;
  }

  // ----- The last one wins -----

  /** A second occurrence of a value that is not an element of an array: the first has left no trace, unless
      both are submessages in place. */
  lemma LastOneWins(env: Env, id: nat, p: Progress, k: nat, w1: nat, s1: Bytes, w2: nat, s2: Bytes)
    requires ValidEnv(env) && id < |env| && k < |env[id]| && |p.slots| == |env[id]| && env[id][k].ht in {REQUIRED, OPTIONAL}
    requires env[id][k].lt != SUBMESSAGE || env[id][k].at == PTR
    requires DecField(env, id, p, k, w1, s1).Ok?
    ensures DecField(env, id, DecField(env, id, p, k, w1, s1).v, k, w2, s2) == DecField(env, id, p, k, w2, s2)
  {
    hide DecValue, Defaults;
    var F, f := env[id], env[id][k];
    var q := DecField(env, id, p, k, w1, s1).v;
    SingleField(env, id, p, k, w1, s1);
    SingleField(env, id, p, k, w2, s2);
    SingleField(env, id, q, k, w2, s2);
    BaseUnused(env, f, Base(env, f, p.slots[k]), Base(env, f, q.slots[k]), s2);
    PutTwice(p.slots, k, q.slots[k]);
  }

  lemma PutTwice(slots: seq<Slot>, k: nat, x: Slot)
    requires k < |slots|
    ensures forall y: Slot {:trigger slots[k := y]} :: slots[k := x][k := y] == slots[k := y]
  {
  }

  /** Of two members of a union the second alone remains, decoded from its defaults, unless both are the same
      submessage in place. */
  lemma UnionTakesOver(env: Env, id: nat, p: Progress, k: nat, wt: nat, s: Bytes)
    requires ValidEnv(env) && id < |env| && k < |env[id]| && |p.slots| == |env[id]| && env[id][k].ht == ONEOF
    requires var f, slot := env[id][k], p.slots[Loc(env[id], k)];
             slot.Union? && (slot.which != f.tag || f.lt != SUBMESSAGE || f.at == PTR)
    requires DecField(env, id, p, k, wt, s).Ok?
    ensures var f, q := env[id][k], DecField(env, id, p, k, wt, s);
            var d := DecValue(env, f, Msg(Defaults(env, f.sub)), s);
            d == Ok(q.v.slots[Loc(env[id], k)].u, q.n) && q.v.slots[Loc(env[id], k)].which == f.tag
  {
    hide DecValue, Defaults, FindTag, Cleared;
    var F, f := env[id], env[id][k];
    SingleField(env, id, p, k, wt, s);
    BaseUnused(env, f, Msg(Defaults(env, f.sub)), Base(env, f, p.slots[Loc(F, k)]), s);
  }

  /** A which_ member that names no field makes every member of the union fail. */
  lemma UnknownWhich(env: Env, id: nat, p: Progress, k: nat, wt: nat, s: Bytes)
    requires id < |env| && k < |env[id]| && |p.slots| == |env[id]| && env[id][k].ht == ONEOF
    requires var slot := p.slots[Loc(env[id], k)]; slot.Union? && slot.which != 0
    requires forall j :: 0 <= j < |env[id]| ==> env[id][j].tag != p.slots[Loc(env[id], k)].which
    ensures DecField(env, id, p, k, wt, s) == Err
  {
    hide DecValue, Base, Cleared;
  }

  /** A which_ member that names a field outside the union has that field released: a pointer is null
      afterwards, a dynamic array empty, a scalar untouched; and no other field changes. */
  lemma StrayWhich(env: Env, id: nat, p: Progress, k: nat, wt: nat, s: Bytes, j: nat)
    requires ValidEnv(env) && id < |env| && k < |env[id]| && j < |env[id]| && |p.slots| == |env[id]|
    requires env[id][k].ht == ONEOF && env[id][j].ht != ONEOF && Shaped(env[id][j], p.slots[j])
    requires var slot := p.slots[Loc(env[id], k)]; slot.Union? && slot.which == env[id][j].tag
    requires DecField(env, id, p, k, wt, s).Ok?
    ensures var q, g := DecField(env, id, p, k, wt, s).v, env[id][j];
            && (g.at == PTR ==> q.slots[j] == if g.ht == REPEATED then Arr([]) else Plain(Null))
            && (g.at == STATIC && g.lt != SUBMESSAGE ==> q.slots[j] == p.slots[j])
            && (g.at == STATIC && g.lt == SUBMESSAGE ==> ReleasedSlot(env, env[id], j, q.slots[j]) == q.slots[j])
            && forall i :: 0 <= i < |env[id]| && i != j && i != Loc(env[id], k) ==> q.slots[i] == p.slots[i]
  {
    hide DecValue, Base, Released, FindTag, Loc;
    var F, g := env[id], env[id][j];
    assert ValidMessage(env, id) && ValidField(env, id, g);
    FindUnique(env, id, j);
    SingleField(env, id, p, k, wt, s);
    NotOneof(F, j, k);
    ReleasedTwice(env, F, j, p.slots[j]);
    if g.at == STATIC && g.lt != SUBMESSAGE {
      ScalarsStay(env, F, j, p.slots[j]);
    }
  }

  /** If it names the selected member of another union, what that member points to is released; any other
      member is left alone. */
  lemma StrayWhichUnion(env: Env, id: nat, p: Progress, k: nat, wt: nat, s: Bytes, j: nat)
    requires ValidEnv(env) && id < |env| && k < |env[id]| && j < |env[id]| && |p.slots| == |env[id]|
    requires env[id][k].ht == ONEOF && env[id][j].ht == ONEOF && Loc(env[id], j) != Loc(env[id], k)
    requires var slot := p.slots[Loc(env[id], k)]; slot.Union? && slot.which == env[id][j].tag
    requires p.slots[Loc(env[id], j)].Union? && DecField(env, id, p, k, wt, s).Ok?
    ensures var q, g, was := DecField(env, id, p, k, wt, s).v, env[id][j], p.slots[Loc(env[id], j)];
            q.slots[Loc(env[id], j)] ==
            if was.which != g.tag then was
            else if g.at == PTR then Union(g.tag, Null)
            else if g.lt == SUBMESSAGE then Union(g.tag, ReleasedValue(env, g, was.u))
            else was
  {
    hide DecValue, Base, Released, FindTag, Loc;
    var F, g, was := env[id], env[id][j], p.slots[Loc(env[id], j)];
    assert ValidMessage(env, id);
    FindUnique(env, id, j);
    SingleField(env, id, p, k, wt, s);
    var c := Cleared(env, F, p, k);
    assert c.slots[Loc(F, j)] == if was.which == g.tag then ReleasedSlot(env, F, Loc(F, j), was) else was;
    if was.which == g.tag {
      assert ReleasedSlot(env, F, Loc(F, j), was) == Union(g.tag, ReleasedValue(env, g, was.u));
      assert g.at == PTR ==> ReleasedValue(env, g, was.u) == Null;
      assert g.at != PTR && g.lt != SUBMESSAGE ==> ReleasedValue(env, g, was.u) == was.u;
    }
    assert DecField(env, id, p, k, wt, s).v.slots == c.slots[Loc(F, k) := DecField(env, id, p, k, wt, s).v.slots[Loc(F, k)]];
  }

  /** Releasing a struct in place changes pointers only: flags, counts and which_ members stay, and so do
      scalars. */
  lemma ReleasedMember(env: Env, id: nat, slots: seq<Slot>, k: nat)
    requires ValidEnv(env) && id < |env| && k < |slots| == |env[id]|
    requires !UnionTail(env[id], k) && Shaped(env[id][k], slots[k])
    ensures var f, was, now := env[id][k], slots[k], Released(env, id, slots)[k];
            && Shaped(f, now)
            && (was.Plain? && f.at == PTR ==> now == Plain(Null))
            && (was.Arr? && f.at == PTR ==> now == Arr([]))
            && (was.Opt? ==> now.has == was.has)
            && (was.Arr? && f.at == STATIC ==> |now.items| == |was.items|)
            && (was.Union? ==> now.which == was.which)
            && (!was.Union? && f.at == STATIC && f.lt != SUBMESSAGE ==> now == was)
  {
    hide Released, FindTag, Loc;
    var f := env[id][k];
    ReleasedAt(env, id, slots, k);
    assert ValidMessage(env, id) && ValidField(env, id, f);
    if !slots[k].Union? && f.at == STATIC && f.lt != SUBMESSAGE {
      ScalarsStay(env, env[id], k, slots[k]);
    }
  }

  lemma ReleasedAt(env: Env, id: nat, slots: seq<Slot>, k: nat)
    requires id < |env| && k < |slots| == |env[id]|
    ensures Released(env, id, slots)[k] == ReleasedSlot(env, env[id], k, slots[k])
  {
    hide ReleasedSlot;
  }

  lemma NotOneof(F: Fields, j: nat, k: nat)
    requires j < |F| && k < |F| && F[j].ht != ONEOF && F[k].ht == ONEOF
    ensures Loc(F, j) == j != Loc(F, k)
  {
  }

  lemma ScalarsStay(env: Env, F: Fields, k: nat, slot: Slot)
    requires k < |F| && F[k].at == STATIC && F[k].lt != SUBMESSAGE && !slot.Union?
    ensures ReleasedSlot(env, F, k, slot) == slot
  {
    if slot.Arr? {
      assert ReleasedSlot(env, F, k, slot).items == slot.items;
    }
  }

  /** No pointer is left in `v`, however deep the structs lie in it. */
  predicate HollowValue(env: Env, f: Field, v: Value)
    decreases v
  {
    if f.at == PTR then v.Null?
    else
      f.lt == SUBMESSAGE && v.Msg? && f.sub < |env| && |v.slots| == |env[f.sub]| ==>
        forall k :: 0 <= k < |v.slots| ==> HollowSlot(env, env[f.sub], k, v.slots[k])
  }

  predicate HollowSlot(env: Env, F: Fields, k: nat, slot: Slot)
    requires k < |F|
    decreases slot
  {
    match slot
    case Plain(v) => HollowValue(env, F[k], v)
    case Opt(_, v) => HollowValue(env, F[k], v)
    case Arr(items) =>
      if F[k].at == PTR then items == [] else forall i :: 0 <= i < |items| ==> HollowValue(env, F[k], items[i])
    case Union(which, u) =>
      forall j :: 0 <= j < |F| && FindTag(F, which) == Some(j) && Loc(F, j) == k ==> HollowValue(env, F[j], u)
    case Shared => true
  }

  /** pb_release leaves no pointer. */
  lemma {:induction false} ReleasedHollow(env: Env, F: Fields, k: nat, slot: Slot)
    requires k < |F|
    ensures HollowSlot(env, F, k, ReleasedSlot(env, F, k, slot))
    decreases slot
  {
    hide FindTag, Loc, ReleasedValue, HollowValue;
    match slot
    case Plain(v) => ValueHollow(env, F[k], v);
    case Opt(_, v) => ValueHollow(env, F[k], v);
    case Arr(items) =>
      forall i | 0 <= i < |items|
        ensures HollowValue(env, F[k], ReleasedValue(env, F[k], items[i]))
      {
        ValueHollow(env, F[k], items[i]);
      }
    case Union(which, u) =>
      if FindTag(F, which).Some? {
        ValueHollow(env, F[FindTag(F, which).value], u);
      }
    case Shared =>
  }

  lemma {:induction false} ValueHollow(env: Env, f: Field, v: Value)
    ensures HollowValue(env, f, ReleasedValue(env, f, v))
    decreases v
  {
    hide ReleasedSlot, HollowSlot;
    if f.at == STATIC && f.lt == SUBMESSAGE && v.Msg? && f.sub < |env| && |v.slots| == |env[f.sub]| {
      forall k | 0 <= k < |v.slots|
        ensures HollowSlot(env, env[f.sub], k, ReleasedSlot(env, env[f.sub], k, v.slots[k]))
      {
        ReleasedHollow(env, env[f.sub], k, v.slots[k]);
      }
    }
  }

  /** What has been released holds nothing more to release. */
  lemma {:induction false} ReleasedTwice(env: Env, F: Fields, k: nat, slot: Slot)
    requires k < |F|
    ensures ReleasedSlot(env, F, k, ReleasedSlot(env, F, k, slot)) == ReleasedSlot(env, F, k, slot)
    decreases slot
  {
    hide FindTag, Loc, ReleasedValue;
    match slot
    case Plain(v) => ValueReleasedTwice(env, F[k], v);
    case Opt(_, v) => ValueReleasedTwice(env, F[k], v);
    case Arr(items) =>
      if F[k].at == STATIC {
        forall i | 0 <= i < |items|
          ensures ReleasedValue(env, F[k], ReleasedValue(env, F[k], items[i])) == ReleasedValue(env, F[k], items[i])
        {
          ValueReleasedTwice(env, F[k], items[i]);
        }
        var once := ReleasedSlot(env, F, k, slot);
        assert ReleasedSlot(env, F, k, once).items == once.items;
      }
    case Union(which, u) =>
      if FindTag(F, which).Some? {
        ValueReleasedTwice(env, F[FindTag(F, which).value], u);
      }
    case Shared =>
  }

  lemma {:induction false} ValueReleasedTwice(env: Env, f: Field, v: Value)
    ensures ReleasedValue(env, f, ReleasedValue(env, f, v)) == ReleasedValue(env, f, v)
    decreases v
  {
    hide ReleasedSlot;
    if f.at == STATIC && f.lt == SUBMESSAGE && v.Msg? && f.sub < |env| && |v.slots| == |env[f.sub]| {
      var F, once := env[f.sub], Released(env, f.sub, v.slots);
      forall k | 0 <= k < |v.slots|
        ensures ReleasedSlot(env, F, k, once[k]) == once[k]
      {
        ReleasedTwice(env, F, k, v.slots[k]);
      }
      assert Released(env, f.sub, once) == once;
    }
  }

  /** A submessage in place that comes twice is merged: as if the two payloads had come as one. */
  lemma SubmessagesMerge(env: Env, id: nat, p: Progress, k: nat, wt: nat, b1: Bytes, b2: Bytes, m: seq<Slot>, m1: seq<Slot>)
    requires ValidEnv(env) && id < |env| && k < |env[id]| && |p.slots| == |env[id]|
    requires var f := env[id][k];
             f.lt == SUBMESSAGE && f.at == STATIC && f.ht in {REQUIRED, OPTIONAL} && Shaped(f, p.slots[k])
             && p.slots[k].v == Msg(m) && f.sub < |env| && |m| == |m1| == |env[f.sub]|
             && Merges(env, f.sub, m, b1, m1) && DecMsg(env, f.sub, m1, b2).Ok? && !Clash(env[f.sub], b1, b2)
             && |b1| + |b2| < TWO_32
    ensures DecField(env, id, p, k, wt, Prefixed(b1)).Ok?
    ensures var q := DecField(env, id, p, k, wt, Prefixed(b1)).v;
            var twice, once := DecField(env, id, q, k, wt, Prefixed(b2)), DecField(env, id, p, k, wt, Prefixed(b1 + b2));
            twice.Ok? && once.Ok? && twice.v == once.v
  {
    hide DecValue, DecMsg, Merges, Clash, EncVarint;
    var F, f := env[id], env[id][k];
    assert ValidMessage(env, id) && ValidField(env, id, f);
    ConcatIsMerge(env, f.sub, m, b1, m1, b2);
    MergesMeans(env, f.sub, m, b1, m1);
    var m2 := DecMsg(env, f.sub, m1, b2).v;
    SubmessagePayload(env, f, m, b1);
    SubmessagePayload(env, f, m1, b2);
    SubmessagePayload(env, f, m, b1 + b2);
    SingleField(env, id, p, k, wt, Prefixed(b1));
    var q := DecField(env, id, p, k, wt, Prefixed(b1)).v;
    SingleField(env, id, q, k, wt, Prefixed(b2));
    SingleField(env, id, p, k, wt, Prefixed(b1 + b2));
    PutTwice(p.slots, k, q.slots[k]);
  }

  /** The same for the selected member of a union. */
  lemma UnionSubmessagesMerge(env: Env, id: nat, p: Progress, k: nat, wt: nat, b1: Bytes, b2: Bytes, m: seq<Slot>, m1: seq<Slot>)
    requires ValidEnv(env) && id < |env| && k < |env[id]| && |p.slots| == |env[id]|
    requires var f := env[id][k];
             f.lt == SUBMESSAGE && f.at == STATIC && f.ht == ONEOF && p.slots[Loc(env[id], k)] == Union(f.tag, Msg(m))
             && f.sub < |env| && |m| == |m1| == |env[f.sub]|
             && Merges(env, f.sub, m, b1, m1) && DecMsg(env, f.sub, m1, b2).Ok? && !Clash(env[f.sub], b1, b2)
             && |b1| + |b2| < TWO_32
    ensures DecField(env, id, p, k, wt, Prefixed(b1)).Ok?
    ensures var q := DecField(env, id, p, k, wt, Prefixed(b1)).v;
            var twice, once := DecField(env, id, q, k, wt, Prefixed(b2)), DecField(env, id, p, k, wt, Prefixed(b1 + b2));
            twice.Ok? && once.Ok? && twice.v == once.v
  {
    hide DecValue, DecMsg, DecField, Merges, Clash, EncVarint;
    var F, f := env[id], env[id][k];
    ConcatIsMerge(env, f.sub, m, b1, m1, b2);
    MergesMeans(env, f.sub, m, b1, m1);
    SelectedMember(env, id, p, k, wt, m, b1);
    SelectedMember(env, id, p, k, wt, m, b1 + b2);
    var q := DecField(env, id, p, k, wt, Prefixed(b1)).v;
    SelectedMember(env, id, q, k, wt, m1, b2);
    PutTwice(p.slots, Loc(F, k), q.slots[Loc(F, k)]);
  }

  /** A payload for the selected member of a union is decoded into what that member holds. */
  lemma SelectedMember(env: Env, id: nat, p: Progress, k: nat, wt: nat, m: seq<Slot>, b: Bytes)
    requires ValidEnv(env) && id < |env| && k < |env[id]| && |p.slots| == |env[id]|
    requires var f := env[id][k];
             f.lt == SUBMESSAGE && f.at == STATIC && f.ht == ONEOF && p.slots[Loc(env[id], k)] == Union(f.tag, Msg(m))
             && |b| < TWO_32 && DecMsg(env, f.sub, m, b).Ok?
    ensures var f := env[id][k];
            DecField(env, id, p, k, wt, Prefixed(b))
            == Ok(p.(slots := p.slots[Loc(env[id], k) := Union(f.tag, Msg(DecMsg(env, f.sub, m, b).v))]), |Prefixed(b)|)
  {
    hide DecValue, DecMsg, DecField, Prefixed, FindTag, Loc;
    var F, f := env[id], env[id][k];
    assert ValidMessage(env, id) && ValidField(env, id, f);
    FindUnique(env, id, k);
    SingleField(env, id, p, k, wt, Prefixed(b));
    SubmessagePayload(env, f, m, b);
    NothingCleared(env, F, p, k);
  }

  lemma MergesMeans(env: Env, id: nat, before: seq<Slot>, s: Bytes, after: seq<Slot>)
    requires id < |env| && |before| == |env[id]| && Merges(env, id, before, s, after)
    ensures DecMsg(env, id, before, s) == Ok(after, |s|)
  {
    hide DecMsg, DecFields;
  }

  lemma SubmessagePayload(env: Env, f: Field, m: seq<Slot>, b: Bytes)
    requires f.lt == SUBMESSAGE && |b| < TWO_32 && DecMsg(env, f.sub, m, b).Ok?
    ensures DecValue(env, f, Msg(m), Prefixed(b)) == Ok(Msg(DecMsg(env, f.sub, m, b).v), |Prefixed(b)|)
  {
    hide DecMsg, DecVarint32, EncVarint;
    RoundTrip32(|b|, b);
    NestedValue(env, f, m, Prefixed(b));
    var n := |EncVarint(|b|)|;
    assert Prefixed(b)[n..n + |b|] == b;
  }

  // ----- Arrays -----

  /** An occurrence of a counted array adds its items behind those that are there, as far as there is room:
      a packed payload all of its numbers, anything else one element decoded from its defaults. */
  lemma ArrayGrows(env: Env, id: nat, p: Progress, k: nat, wt: nat, s: Bytes)
    requires ValidEnv(env) && id < |env| && k < |env[id]| && |p.slots| == |env[id]|
    requires var f := env[id][k]; f.ht == REPEATED && f.sizeOffset != 0 && Shaped(f, p.slots[k])
    ensures var f, was, r := env[id][k], p.slots[k].items, DecField(env, id, p, k, wt, s);
            var room := (if f.at == STATIC then f.arraySize else 0xFFFF_FFFF) - |was|;
            if wt == 2 && Packable(f.lt) then
              var h := DecVarint32(s);
              if h.Ok? && h.n + h.v <= |s| && DecItems(f, s[h.n..h.n + h.v], if room < 0 then 0 else room).Some? then
                r == Ok(p.(slots := p.slots[k := Arr(was + DecItems(f, s[h.n..h.n + h.v], if room < 0 then 0 else room).value)]), h.n + h.v)
              else r == Err
            else
              var d := DecValue(env, f, Msg(Defaults(env, f.sub)), s);
              if room >= 1 && d.Ok? then r == Ok(p.(slots := p.slots[k := Arr(was + [d.v])]), d.n) else r == Err
  {
    hide DecValue, DecItems, DecVarint32, Defaults;
    var f := env[id][k];
    assert ValidMessage(env, id) && ValidField(env, id, f);
  }

  /** The numbers of a packed payload, as many as there are, and none if there is no room for all. */
  lemma {:induction false} ItemsFit(f: Field, items: seq<Value>, room: nat)
    requires Packable(f.lt) && forall i :: 0 <= i < |items| ==> GoodBasic(f, items[i])
    ensures EncItems(f, items).Some?
    ensures DecItems(f, EncItems(f, items).value, room).Some? <==> |items| <= room
    decreases items
  {
    hide EncBasic, DecBasic, GoodBasic;
    if items != [] {
      var rest := items[1..];
      ItemsFit(f, rest, if room > 0 then room - 1 else 0);
      BasicRoundTrip(f, items[0], EncItems(f, rest).value);
      var head := EncBasic(f, items[0]).value;
      assert (head + EncItems(f, rest).value)[|head|..] == EncItems(f, rest).value;
    }
  }

  /** The same numbers in records of their own, as a sender may write them that does not pack. */
  function Unpacked(f: Field, items: seq<Value>): Bytes
  {
    if items == [] then []
    else (match EncBasic(f, items[0]) case Some(e) => TagOf(f) + e case None => []) + Unpacked(f, items[1..])
  }

  /** Packed or not, the array is the same. */
  lemma {:induction false} PackedOrNot(env: Env, id: nat, p: Progress, k: nat, items: seq<Value>)
    requires ValidEnv(env) && id < |env| && k < |env[id]| && |p.slots| == |env[id]|
    requires var f := env[id][k];
             f.ht == REPEATED && Packable(f.lt) && f.sizeOffset != 0 && Shaped(f, p.slots[k])
             && |items| <= Room(f, p.slots[k], p.fixedSize) && Short(EncItems(f, items))
             && forall i :: 0 <= i < |items| ==> GoodBasic(f, items[i])
    ensures var q := p.(slots := p.slots[k := Arr(p.slots[k].items + NormItems(env, env[id][k], items))]);
            && EncPacked(env[id][k], items).Some? && Reads(env, id, p, EncPacked(env[id][k], items).value, q)
            && Reads(env, id, p, Unpacked(env[id][k], items), q)
  {
    hide DecFields, Reads, EncItems, NormItems, GoodBasic, DecField;
    var f := env[id][k];
    assert ValidMessage(env, id) && ValidField(env, id, f);
    PackedReads(env, id, p, k, p, items);
    UnpackedReads(env, id, p, k, items);
  }

  lemma {:induction false} UnpackedReads(env: Env, id: nat, p: Progress, k: nat, items: seq<Value>)
    requires ValidEnv(env) && id < |env| && k < |env[id]| && |p.slots| == |env[id]|
    requires var f := env[id][k];
             f.ht == REPEATED && Packable(f.lt) && f.sizeOffset != 0 && Shaped(f, p.slots[k])
             && |items| <= Room(f, p.slots[k], p.fixedSize) && forall i :: 0 <= i < |items| ==> GoodBasic(f, items[i])
    ensures Reads(env, id, p, Unpacked(env[id][k], items),
                  p.(slots := p.slots[k := Arr(p.slots[k].items + NormItems(env, env[id][k], items))]))
    decreases items
  {
    hide DecFields, Reads, GoodBasic, DecField, EncBasic, EncTag, DecBasic;
    var f, was := env[id][k], p.slots[k].items;
    assert ValidMessage(env, id) && ValidField(env, id, f);
    if items == [] {
      ReadsNothing(env, id, p);
      assert p.slots[k := Arr(was + [])] == p.slots by {
        assert was + [] == was;
      }
    } else {
      var w, rest := NormBasic(items[0]), items[1..];
      BasicRoundTrip(f, items[0], []);
      var e := EncBasic(f, items[0]).value;
      assert e + [] == e;
      SingleField(env, id, p, k, WireType(f.lt), e);
      var q := p.(slots := p.slots[k := Arr(was + [w])]);
      RecordTurn(env, id, p, k, p, WireType(f.lt), e, q);
      UnpackedReads(env, id, q, k, rest);
      assert was + [w] + NormItems(env, f, rest) == was + NormItems(env, f, items);
      PutTwice(p.slots, k, Arr(was + [w]));
      var r := p.(slots := p.slots[k := Arr(was + NormItems(env, f, items))]);
      ReadsBoth(env, id, p, TagOf(f) + e, q, Unpacked(f, rest), r);
    }
  }

  // ----- What the encoder refuses -----

  /** A static array with more elements than it has room for, and a required member that is null. */
  lemma Refused(env: Env, f: Field, slot: Slot)
    requires Shaped(f, slot)
    ensures slot.Arr? && f.at == STATIC && |slot.items| > f.arraySize ==> EncSlot(env, f, slot) == None
    ensures f.ht == REQUIRED && slot.v == Null ==> EncSlot(env, f, slot) == None
    ensures f.ht == OPTIONAL && f.at == PTR && slot == Plain(Null) ==> EncSlot(env, f, slot) == Some([])
  {
    hide EncRecord, EncPacked, EncRecords;
  }
}
