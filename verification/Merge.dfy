/** Decoding is merging: what concatenating two messages means, with and without fixed-count arrays. */
module Merge {
  import opened Bits
  import opened Varint
  import opened Schema
  import opened Wrappers
  import opened DecodeSpec
  import opened DecodeSteps
  import opened Prefix

  // ----- What a turn of the loop depends on -----

  /** What the bytes at the start of `s` are to the loop, whatever its progress: no record, the end
      of the message, a record it passes over (`n` bytes in all), or `n` bytes of tag of field `k`. */
  datatype Head = Bad | Zero(n: nat) | Passed(n: nat) | Hit(n: nat, k: nat, wt: nat)

  function Classify(F: Fields, s: Bytes): (h: Head)
    ensures h.Hit? ==> h.n <= |s| && h.k < |F|
  {
    match DecVarint32(s)
    case Err => Bad
    case Ok(t, n) =>
      if t == 0 then Zero(n)
      else if F == [] && t / 8 == 0 then
        (match DecVarint32(s[n..]) case Ok(_, m) => Passed(n + m) case Err => Bad)
      else
        match FindTag(F, t / 8)
        case Some(k) => Hit(n, k, t % 8)
        case None => (match Skip(t % 8, s[n..]) case Ok(_, m) => Passed(n + m) case Err => Bad)
  }

  function TurnAt(env: Env, id: nat, p: Progress, s: Bytes, h: Head): Parse<Option<Progress>>
    requires id < |env| && |p.slots| == |env[id]|
    requires h.Hit? ==> h.n <= |s| && h.k < |env[id]|
  {
    match h
    case Bad => Err
    case Zero(n) => Ok(None, n)
    case Passed(n) => Ok(Some(p), n)
    case Hit(n, k, wt) =>
      match Enter(env[id], p, k)
      case None => Err
      case Some(e) =>
        match DecField(env, id, e, k, wt, s[n..])
        case Ok(q, m) => Ok(Some(q), n + m)
        case Err => Err
  }

  lemma TurnIs(env: Env, id: nat, p: Progress, s: Bytes)
    requires id < |env| && |p.slots| == |env[id]|
    ensures Turn(env, id, p, s) == TurnAt(env, id, p, s, Classify(env[id], s))
  {
    hide DecField, DecVarint32, Enter, Skip, FindTag;
  }

  // ----- The set of required fields seen does not influence decoding -----

  function WithSeen(p: Progress, more: set<nat>): Progress
  {
    p.(seen := p.seen + more)
  }

  lemma SeenField(env: Env, id: nat, p: Progress, k: nat, wt: nat, s: Bytes, more: set<nat>)
    requires id < |env| && k < |env[id]| && |p.slots| == |env[id]|
    ensures DecField(env, id, WithSeen(p, more), k, wt, s) ==
            match DecField(env, id, p, k, wt, s) case Ok(q, n) => Ok(WithSeen(q, more), n) case Err => Err
  {
    hide DecValue, DecItems, DecVarint32, Stored, Base, Shaped, Admits, Room;
  }

  lemma SeenEnter(F: Fields, p: Progress, k: nat, more: set<nat>)
    requires k < |F|
    ensures Enter(F, WithSeen(p, more), k) ==
            match Enter(F, p, k) case Some(q) => Some(WithSeen(q, more)) case None => None
  {
    var r := {RequiredBefore(F, k)};
    assert p.seen + more + r == p.seen + r + more;
  }

  lemma SeenTurn(env: Env, id: nat, p: Progress, s: Bytes, more: set<nat>)
    requires id < |env| && |p.slots| == |env[id]|
    ensures Turn(env, id, WithSeen(p, more), s) ==
            match Turn(env, id, p, s)
            case Ok(Some(q), n) => Ok(Some(WithSeen(q, more)), n)
            case Ok(None, n) => Ok(None, n)
            case Err => Err
  {
    hide Turn, Classify, DecField, Enter;
    TurnIs(env, id, p, s);
    TurnIs(env, id, WithSeen(p, more), s);
    var h := Classify(env[id], s);
    if h.Hit? {
      SeenEnter(env[id], p, h.k, more);
      if Enter(env[id], p, h.k).Some? {
        EnterKeeps(env[id], p, h.k);
        SeenField(env, id, Enter(env[id], p, h.k).value, h.k, h.wt, s[h.n..], more);
      }
    }
  }

  lemma {:induction false} SeenFields(env: Env, id: nat, p: Progress, s: Bytes, more: set<nat>)
    requires id < |env| && |p.slots| == |env[id]|
    ensures DecFields(env, id, WithSeen(p, more), s) ==
            match DecFields(env, id, p, s)
            case Ok(o, n) => Ok(Outcome(WithSeen(o.p, more), o.ended), n)
            case Err => Err
    decreases |s|
  {
    hide Turn;
    if s != [] {
      SeenTurn(env, id, p, s, more);
      var r := Turn(env, id, p, s);
      if r.Ok? && r.v.Some? {
        SeenFields(env, id, r.v.value, s[r.n..], more);
      }
    }
  }

  // ----- Other fields do not see the fixed-count state -----

  function WithFixed(p: Progress, field: Option<nat>, size: nat): Progress
  {
    p.(fixedField := field, fixedSize := size)
  }

  lemma FixedUnused(env: Env, id: nat, p: Progress, k: nat, wt: nat, s: Bytes, field: Option<nat>, size: nat)
    requires id < |env| && k < |env[id]| && |p.slots| == |env[id]| && !FixedCount(env[id][k])
    ensures DecField(env, id, WithFixed(p, field, size), k, wt, s) ==
            match DecField(env, id, p, k, wt, s) case Ok(q, n) => Ok(WithFixed(q, field, size), n) case Err => Err
    ensures DecField(env, id, p, k, wt, s).Ok? ==>
              var q := DecField(env, id, p, k, wt, s).v;
              q.fixedField == p.fixedField && q.fixedSize == p.fixedSize
  {
    hide DecValue, DecItems, DecVarint32, Base, Shaped;
  }

  lemma FieldKeepsFixed(env: Env, id: nat, p: Progress, k: nat, wt: nat, s: Bytes)
    requires id < |env| && k < |env[id]| && |p.slots| == |env[id]| && DecField(env, id, p, k, wt, s).Ok?
    ensures DecField(env, id, p, k, wt, s).v.fixedField == p.fixedField
    ensures DecField(env, id, p, k, wt, s).v.seen == p.seen
  {
    hide DecValue, DecItems, DecVarint32, Base, Shaped, Stored, Room;
  }

  // ----- A turn started with fixed-count field `k` already full -----

  function Full(F: Fields, p: Progress, k: nat): Progress
    requires k < |F|
  {
    WithFixed(p, Some(k), F[k].arraySize)
  }

  /** Before any fixed-count field has come. */
  predicate NoFixed(p: Progress)
  {
    p.fixedField.None? && p.fixedSize == 0
  }

  /** In the middle of filling the array of field `k`. */
  predicate Filling(F: Fields, p: Progress, k: nat)
    requires k < |F|
  {
    p.fixedField == Some(k) && p.fixedSize < F[k].arraySize
  }

  /** An occurrence of the array's own field either brings nothing or overflows the full array. */
  lemma OverfullField(env: Env, id: nat, p: Progress, k: nat, wt: nat, s: Bytes)
    requires id < |env| && k < |env[id]| && |p.slots| == |env[id]|
    requires FixedCount(env[id][k]) && env[id][k].at == STATIC && Filling(env[id], p, k)
    requires DecField(env, id, p, k, wt, s).Ok?
    ensures var r, o := DecField(env, id, p, k, wt, s), DecField(env, id, Full(env[id], p, k), k, wt, s);
            || o.Err?
            || (r.v == p && o == Ok(Full(env[id], p, k), r.n))
  {
    hide DecValue, DecVarint32, DecBasic;
    var F, f, slot := env[id], env[id][k], p.slots[k];
    if wt == WT_STRING && Packable(f.lt) {
      var h := DecVarint32(s);
      var vs := DecItems(f, s[h.n..h.n + h.v], Room(f, slot, p.fixedSize)).value;
      if vs == [] {
        StoreNothing(F, p, k);
        StoreNothing(F, Full(F, p, k), k);
      }
    }
  }

  lemma StoreNothing(F: Fields, p: Progress, k: nat)
    requires k < |F| && |p.slots| == |F| && FixedCount(F[k])
    requires p.slots[k].Arr? && |p.slots[k].items| == F[k].arraySize && p.fixedSize <= F[k].arraySize
    ensures Store(F, p, k, []) == p
  {
    var items := p.slots[k].items;
    assert items[..p.fixedSize] + [] + items[p.fixedSize + 0..] == items;
    assert p.slots[k := p.slots[k]] == p.slots;
  }

  lemma FixedStatic(env: Env, id: nat, k: nat)
    requires ValidEnv(env) && id < |env| && k < |env[id]| && FixedCount(env[id][k])
    ensures env[id][k].at == STATIC && env[id][k].arraySize >= 1
  {
    assert ValidMessage(env, id) && ValidField(env, id, env[id][k]);
  }

  /** A turn while the array of `k` is being filled, against the same turn with it already full. */
  lemma OverfullTurn(env: Env, id: nat, p: Progress, s: Bytes, k: nat)
    requires ValidEnv(env) && id < |env| && k < |env[id]| && |p.slots| == |env[id]|
    requires FixedCount(env[id][k]) && Filling(env[id], p, k)
    requires Turn(env, id, p, s).Ok? && Turn(env, id, p, s).v.Some?
    ensures var r, o := Turn(env, id, p, s), Turn(env, id, Full(env[id], p, k), s);
            && r.v.value.fixedField == Some(k)
            && (o.Err? || (r.v.value.fixedSize == p.fixedSize && o == Ok(Some(Full(env[id], r.v.value, k)), r.n)))
  {
    hide Turn, Classify, DecField, RequiredBefore;
    var F := env[id];
    FixedStatic(env, id, k);
    TurnIs(env, id, p, s);
    TurnIs(env, id, Full(F, p, k), s);
    var h := Classify(F, s);
    if h.Hit? {
      var e := Enter(F, p, h.k).value;
      FieldKeepsFixed(env, id, e, h.k, h.wt, s[h.n..]);
      if h.k == k {
        OverfullField(env, id, e, k, h.wt, s[h.n..]);
      } else {
        FixedUnused(env, id, e, h.k, h.wt, s[h.n..], Some(k), F[k].arraySize);
      }
    }
  }

  lemma {:induction false} OverfullFields(env: Env, id: nat, p: Progress, s: Bytes, k: nat)
    requires ValidEnv(env) && id < |env| && k < |env[id]| && |p.slots| == |env[id]|
    requires FixedCount(env[id][k]) && Filling(env[id], p, k)
    requires DecFields(env, id, p, s).Ok? && FixedDone(env[id], DecFields(env, id, p, s).v.p)
    ensures DecFields(env, id, Full(env[id], p, k), s).Err?
    decreases |s|
  {
    hide Turn;
    if s != [] {
      var r := Turn(env, id, p, s);
      if r.v.Some? {
        OverfullTurn(env, id, p, s, k);
        var o := Turn(env, id, Full(env[id], p, k), s);
        if o.Ok? {
          OverfullFields(env, id, r.v.value, s[r.n..], k);
        }
      }
    }
  }

  /** The fixed-count field whose occurrence comes first when decoding `s`. */
  function FirstFixed(env: Env, id: nat, p: Progress, s: Bytes): Option<nat>
    requires id < |env| && |p.slots| == |env[id]|
    decreases |s|
  {
    if p.fixedField.Some? then p.fixedField
    else if s == [] then None
    else
      match Turn(env, id, p, s)
      case Ok(Some(q), n) => FirstFixed(env, id, q, s[n..])
      case Ok(None, _) => None
      case Err => None
  }

  /** The first turn that meets a fixed-count field, or any turn before it. */
  lemma FullTurn(env: Env, id: nat, p: Progress, s: Bytes, k: nat)
    requires ValidEnv(env) && id < |env| && k < |env[id]| && |p.slots| == |env[id]|
    requires FixedCount(env[id][k]) && NoFixed(p) && Turn(env, id, p, s).Ok?
    ensures var r, o := Turn(env, id, p, s), Turn(env, id, Full(env[id], p, k), s);
            if r.v.None? then o == r
            else
              var q := r.v.value;
              && (q.fixedField.None? ==> NoFixed(q) && o == Ok(Some(Full(env[id], q, k)), r.n))
              && (q.fixedField.Some? && q.fixedField != Some(k) ==> o == r)
              && (q.fixedField == Some(k) ==> o.Err? || (Filling(env[id], q, k) && o == Ok(Some(Full(env[id], q, k)), r.n)))
  {
    hide Turn, Classify, DecField, RequiredBefore;
    var F := env[id];
    FixedStatic(env, id, k);
    TurnIs(env, id, p, s);
    TurnIs(env, id, Full(F, p, k), s);
    var h := Classify(F, s);
    if h.Hit? {
      var e := Enter(F, p, h.k).value;
      FieldKeepsFixed(env, id, e, h.k, h.wt, s[h.n..]);
      if h.k == k {
        OverfullField(env, id, e, k, h.wt, s[h.n..]);
      } else if !FixedCount(F[h.k]) {
        FixedUnused(env, id, e, h.k, h.wt, s[h.n..], Some(k), F[k].arraySize);
      }
    }
  }

  /** Decoding `s` with field `k` already full: the same result unless `k` itself comes first. */
  lemma {:induction false} FullFields(env: Env, id: nat, p: Progress, s: Bytes, k: nat)
    requires ValidEnv(env) && id < |env| && k < |env[id]| && |p.slots| == |env[id]|
    requires FixedCount(env[id][k]) && NoFixed(p)
    requires DecFields(env, id, p, s).Ok? && FixedDone(env[id], DecFields(env, id, p, s).v.p)
    ensures var r, o := DecFields(env, id, p, s), DecFields(env, id, Full(env[id], p, k), s);
            if FirstFixed(env, id, p, s) == Some(k) then o.Err?
            else o.Ok? && o.n == r.n && o.v.ended == r.v.ended && o.v.p.slots == r.v.p.slots
                 && o.v.p.seen == r.v.p.seen && FixedDone(env[id], o.v.p)
    decreases |s|
  {
    hide Turn;
    if s != [] {
      FullTurn(env, id, p, s, k);
      var r := Turn(env, id, p, s);
      if r.v.Some? {
        var q := r.v.value;
        assert q.fixedField.Some? ==> FirstFixed(env, id, q, s[r.n..]) == q.fixedField;
        if q.fixedField.None? {
          FullFields(env, id, q, s[r.n..], k);
        } else if q.fixedField == Some(k) && Turn(env, id, Full(env[id], p, k), s).Ok? {
          OverfullFields(env, id, q, s[r.n..], k);
        }
      }
    }
  }

  // ----- Finding the fixed-count fields of an input without decoding it -----

  /** The bytes one occurrence of a field takes up behind its tag, judging by its type alone. */
  function BodyLen(f: Field, wt: nat, s: Bytes): (n: nat)
    ensures n >= 1
  {
    if !Packable(f.lt) || (f.ht == REPEATED && wt == WT_STRING) then
      match DecVarint32(s) case Ok(size, n) => n + size case Err => 1
    else if f.lt == BOOL then match DecVarint32(s) case Ok(_, n) => n case Err => 1
    else if f.lt == FIXED32 then 4
    else if f.lt == FIXED64 then 8
    else match DecVarint64(s) case Ok(_, n) => if n > 0 then n else 1 case Err => 1
  }

  /** The fields whose tags occur in `s`, in this order. */
  function Hits(F: Fields, s: Bytes): seq<nat>
    decreases |s|
  {
    if s == [] then []
    else
      match Classify(F, s)
      case Bad => []
      case Zero(_) => []
      case Passed(n) => if 1 <= n <= |s| then Hits(F, s[n..]) else []
      case Hit(n, k, wt) =>
        var m := n + BodyLen(F[k], wt, s[n..]);
        [k] + if m <= |s| then Hits(F, s[m..]) else []
  }

  function FixedOnly(F: Fields, ks: seq<nat>): seq<nat>
  {
    if ks == [] then []
    else (if ks[0] < |F| && FixedCount(F[ks[0]]) then [ks[0]] else []) + FixedOnly(F, ks[1..])
  }

  /** The fixed-count fields among them. */
  function Scan(F: Fields, s: Bytes): seq<nat>
  {
    FixedOnly(F, Hits(F, s))
  }

  /** The second input starts the fixed-count array that the first one was filling last. */
  predicate Clash(F: Fields, b1: Bytes, b2: Bytes)
  {
    var x, y := Scan(F, b1), Scan(F, b2);
    x != [] && y != [] && x[|x| - 1] == y[0]
  }

  lemma ValueTaken(env: Env, f: Field, base: Value, wt: nat, s: Bytes)
    requires DecValue(env, f, base, s).Ok? && !(f.ht == REPEATED && wt == WT_STRING && Packable(f.lt))
    ensures DecValue(env, f, base, s).n == BodyLen(f, wt, s)
  {
    hide DecVarint32, DecVarint64, DecMsg, InRange, Fits, Integer, Little;
  }

  lemma FieldTaken(env: Env, id: nat, p: Progress, k: nat, wt: nat, s: Bytes)
    requires id < |env| && k < |env[id]| && |p.slots| == |env[id]| && DecField(env, id, p, k, wt, s).Ok?
    ensures DecField(env, id, p, k, wt, s).n == BodyLen(env[id][k], wt, s)
  {
    hide DecValue, DecVarint32, DecItems, Base, Admits, Room, Store, BodyLen;
    var f := env[id][k];
    assert Shaped(f, p.slots[Loc(env[id], k)]);
    if f.ht == REPEATED && wt == WT_STRING && Packable(f.lt) {
      PackedField(env, id, p, k, s);
      PackedTaken(f, Room(f, p.slots[k], p.fixedSize), s);
    } else {
      SingleField(env, id, p, k, wt, s);
      ValueTaken(env, f, Base(env, f, p.slots[Loc(env[id], k)]), wt, s);
    }
  }

  lemma PackedTaken(f: Field, room: nat, s: Bytes)
    requires f.ht == REPEATED && PackedRun(f, room, s).Ok?
    ensures PackedRun(f, room, s).n == BodyLen(f, WT_STRING, s)
  {
    hide DecVarint32, DecItems;
  }

  /** A turn of the loop takes the field the scan finds. */
  lemma HitsTurn(env: Env, id: nat, p: Progress, s: Bytes)
    requires id < |env| && |p.slots| == |env[id]| && s != [] && Turn(env, id, p, s).Ok?
    ensures var h, r, all := Classify(env[id], s), Turn(env, id, p, s), Hits(env[id], s);
            if r.v.None? then all == []
            else all == (if h.Hit? then [h.k] else []) + Hits(env[id], s[r.n..])
  {
    hide DecField, Classify, Turn, FindTag, BodyLen, Hits, Enter;
    var F, h, r := env[id], Classify(env[id], s), Turn(env, id, p, s);
    TurnIs(env, id, p, s);
    if h.Hit? {
      var e := Enter(F, p, h.k).value;
      EnterKeeps(F, p, h.k);
      FieldTaken(env, id, e, h.k, h.wt, s[h.n..]);
    } else if r.v.Some? {
      assert [] + Hits(F, s[r.n..]) == Hits(F, s[r.n..]);
    }
    HitsHere(F, s, r.n);
  }

  lemma HitsHere(F: Fields, s: Bytes, n: nat)
    requires s != [] && 1 <= n <= |s|
    ensures var h := Classify(F, s);
            && (h.Zero? ==> Hits(F, s) == [])
            && (h.Passed? && h.n == n ==> Hits(F, s) == Hits(F, s[n..]))
            && (h.Hit? && h.n + BodyLen(F[h.k], h.wt, s[h.n..]) == n ==> Hits(F, s) == [h.k] + Hits(F, s[n..]))
  {
    hide Classify, BodyLen;
  }

  lemma ScanTurn(env: Env, id: nat, p: Progress, s: Bytes)
    requires id < |env| && |p.slots| == |env[id]| && s != [] && Turn(env, id, p, s).Ok?
    ensures var r := Turn(env, id, p, s);
            if r.v.None? then Scan(env[id], s) == []
            else
              var more := Scan(env[id], s[r.n..]);
              var h := Classify(env[id], s);
              if h.Hit? && FixedCount(env[id][h.k]) then
                Scan(env[id], s) == [h.k] + more && r.v.value.fixedField == Some(h.k)
              else Scan(env[id], s) == more && r.v.value.fixedField == p.fixedField
  {
    hide DecField, Classify, Turn, FindTag, Hits;
    var F, h, r := env[id], Classify(env[id], s), Turn(env, id, p, s);
    TurnIs(env, id, p, s);
    HitsTurn(env, id, p, s);
    if h.Hit? {
      var e := Enter(F, p, h.k).value;
      FieldKeepsFixed(env, id, e, h.k, h.wt, s[h.n..]);
      assert Hits(F, s)[1..] == Hits(F, s[r.n..]);
    } else if r.v.Some? {
      assert Hits(F, s) == Hits(F, s[r.n..]);
    }
  }

  /** The array being filled in the end is the last one the scan finds. */
  lemma {:induction false} LastScanned(env: Env, id: nat, p: Progress, s: Bytes)
    requires id < |env| && |p.slots| == |env[id]| && DecFields(env, id, p, s).Ok?
    ensures var x := Scan(env[id], s);
            DecFields(env, id, p, s).v.p.fixedField == if x == [] then p.fixedField else Some(x[|x| - 1])
    decreases |s|
  {
    hide Turn, Classify, BodyLen;
    if s != [] {
      ScanTurn(env, id, p, s);
      var r := Turn(env, id, p, s);
      if r.v.Some? {
        LastScanned(env, id, r.v.value, s[r.n..]);
      }
    }
  }

  lemma {:induction false} FirstScanned(env: Env, id: nat, p: Progress, s: Bytes)
    requires id < |env| && |p.slots| == |env[id]| && DecFields(env, id, p, s).Ok? && p.fixedField.None?
    ensures var x := Scan(env[id], s);
            FirstFixed(env, id, p, s) == if x == [] then None else Some(x[0])
    decreases |s|
  {
    hide Turn, Classify, BodyLen;
    if s != [] {
      ScanTurn(env, id, p, s);
      var r := Turn(env, id, p, s);
      if r.v.Some? && r.v.value.fixedField.None? {
        FirstScanned(env, id, r.v.value, s[r.n..]);
      }
    }
  }

  // ----- Concatenation -----

  /** pb_decode_noinit accepts all of `s`, without a zero tag, turning `before` into `after`. */
  predicate Merges(env: Env, id: nat, before: seq<Slot>, s: Bytes, after: seq<Slot>)
    requires id < |env| && |before| == |env[id]|
  {
    && DecMsg(env, id, before, s) == Ok(after, |s|)
    && !DecFields(env, id, Start(before), s).v.ended
  }

  lemma {:induction false} FixedValid(env: Env, id: nat, p: Progress, s: Bytes)
    requires id < |env| && |p.slots| == |env[id]| && DecFields(env, id, p, s).Ok?
    requires NoFixed(p) || (p.fixedField.Some? && p.fixedField.value < |env[id]| && FixedCount(env[id][p.fixedField.value]))
    ensures var q := DecFields(env, id, p, s).v.p;
            NoFixed(q) || (q.fixedField.Some? && q.fixedField.value < |env[id]| && FixedCount(env[id][q.fixedField.value]))
    decreases |s|
  {
    hide Turn, Classify, DecField;
    if s != [] {
      TurnIs(env, id, p, s);
      var h := Classify(env[id], s);
      var r := Turn(env, id, p, s);
      if r.v.Some? {
        if h.Hit? {
          var e := Enter(env[id], p, h.k).value;
          FieldKeepsFixed(env, id, e, h.k, h.wt, s[h.n..]);
          if !FixedCount(env[id][h.k]) {
            FixedUnused(env, id, e, h.k, h.wt, s[h.n..], None, 0);
          }
        }
        FixedValid(env, id, r.v.value, s[r.n..]);
      }
    }
  }

  /** Concatenation is merging, exactly when the second input does not start the fixed-count array that
      the first one was filling last: if both are accepted one after the other, then their concatenation
      is accepted if and only if that is so, and it leaves the same struct. */
  lemma ConcatIsMerge(env: Env, id: nat, m: seq<Slot>, b1: Bytes, m1: seq<Slot>, b2: Bytes)
    requires ValidEnv(env) && id < |env| && |m| == |m1| == |env[id]|
    requires Merges(env, id, m, b1, m1) && DecMsg(env, id, m1, b2).Ok?
    ensures DecMsg(env, id, m, b1 + b2)
            == if Clash(env[id], b1, b2) then Err else Shift(DecMsg(env, id, m1, b2), |b1|)
  {
    hide DecFields, FirstFixed, Scan;
    var F := env[id];
    LastScanned(env, id, Start(m), b1);
    FirstScanned(env, id, Start(m1), b2);
    var q1 := DecFields(env, id, Start(m), b1).v.p;
    CutFields(env, id, Start(m), b1, q1, b2);
    FixedValid(env, id, Start(m), b1);
    var fresh1 := Start(m1);
    if q1.fixedField.None? {
      assert q1 == WithSeen(fresh1, q1.seen);
      SeenFields(env, id, fresh1, b2, q1.seen);
    } else {
      var k := q1.fixedField.value;
      assert q1 == WithSeen(Full(F, fresh1, k), q1.seen);
      FullFields(env, id, fresh1, b2, k);
      SeenFields(env, id, Full(F, fresh1, k), b2, q1.seen);
    }
  }

  lemma {:induction false} NothingScanned(F: Fields, ks: seq<nat>)
    requires forall k :: 0 <= k < |F| ==> !FixedCount(F[k])
    ensures FixedOnly(F, ks) == []
  {
    if ks != [] {
      NothingScanned(F, ks[1..]);
    }
  }

  /** For tables without fixed-count fields, concatenation is merging without any condition. */
  lemma ConcatWithoutFixed(env: Env, id: nat, m: seq<Slot>, b1: Bytes, m1: seq<Slot>, b2: Bytes)
    requires ValidEnv(env) && id < |env| && |m| == |m1| == |env[id]|
    requires forall k :: 0 <= k < |env[id]| ==> !FixedCount(env[id][k])
    requires Merges(env, id, m, b1, m1) && DecMsg(env, id, m1, b2).Ok?
    ensures DecMsg(env, id, m, b1 + b2) == Shift(DecMsg(env, id, m1, b2), |b1|)
  {
    hide DecFields, DecMsg, FirstFixed, Merges, ValidEnv, Hits;
    NothingScanned(env[id], Hits(env[id], b1));
    ConcatIsMerge(env, id, m, b1, m1, b2);
  }

  /** An array of one bool without a count: the same message twice is one too many. */
  lemma TwiceTheSame(f: Field, m: seq<Slot>)
    requires f == Field(1, BOOL, REPEATED, STATIC, 0, 0, 1, 1, 0, None) && m == [Arr([Num(1)])]
    ensures ValidEnv([[f]]) && Clash([f], [8, 1], [8, 1])
    ensures Merges([[f]], 0, Defaults([[f]], 0), [8, 1], m) && Merges([[f]], 0, m, [8, 1], m)
    ensures DecMsg([[f]], 0, Defaults([[f]], 0), [8, 1] + [8, 1]) == Err
  {
    hide DecFields, Scan, Classify;
    var env := [[f]];
    assert env[0] == [f] && ValidField(env, 0, f);
    var blank := Defaults(env, 0);
    assert DefaultSlot(env, 0, 0) == Arr(seq(1, _ => Num(0))) == Arr([Num(0)]) && blank == [Arr([Num(0)])];
    OneElement(env, f, 0);
    OneElement(env, f, 1);
    ConcatIsMerge(env, 0, blank, [8, 1], m, [8, 1]);
  }

  lemma OneElement(env: Env, f: Field, was: int)
    requires f == Field(1, BOOL, REPEATED, STATIC, 0, 0, 1, 1, 0, None) && env == [[f]]
    ensures Merges(env, 0, [Arr([Num(was)])], [8, 1], [Arr([Num(1)])])
    ensures Scan([f], [8, 1]) == [0]
  {
    hide FindTag, DecFields, Turn;
    var slots, s: Bytes := [Arr([Num(was)])], [8, 1];
    FindUnique(env, 0, 0);
    assert s[1..] == [1] && s[2..] == [];
    assert Classify([f], s) == Hit(1, 0, 0);
    assert Hits([f], s) == [0] && FixedOnly([f], [0]) == [0];
    var e := Start(slots).(fixedField := Some(0), fixedSize := 0);
    assert Enter([f], Start(slots), 0) == Some(e);
    SingleField(env, 0, e, 0, 0, [1]);
    assert DecValue(env, f, Base(env, f, slots[0]), [1]) == Ok(Num(1), 1);
    assert [Num(was)][..0] + [Num(1)] + [Num(was)][1..] == [Num(1)];
    var q := Store([f], e, 0, [Num(1)]);
    assert q.slots == [Arr([Num(1)])];
    TurnIs(env, 0, Start(slots), s);
    NothingLeft(env, 0, q);
    OneTurnOnly(env, 0, Start(slots), s, q);
  }

  lemma OneTurnOnly(env: Env, id: nat, p: Progress, s: Bytes, q: Progress)
    requires id < |env| && |p.slots| == |q.slots| == |env[id]| && s != []
    requires Turn(env, id, p, s) == Ok(Some(q), |s|) && DecFields(env, id, q, []) == Ok(Outcome(q, false), 0)
    ensures DecFields(env, id, p, s) == Ok(Outcome(q, false), |s|)
  {
    hide Turn;
    assert s[|s|..] == [];
  }
}
