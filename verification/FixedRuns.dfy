/** What an accepted message contained of its fixed-count arrays. */
module FixedRuns {
  import opened Bits
  import opened Varint
  import opened Schema
  import opened Wrappers
  import opened DecodeSpec
  import opened Merge

  /** How many items one occurrence of a repeated field brings. */
  function ItemsIn(f: Field, wt: nat, s: Bytes): nat
  {
    if wt == WT_STRING && Packable(f.lt) then
      match DecVarint32(s)
      case Err => 0
      case Ok(size, n) =>
        if |s| - n < size then 0
        else match DecItems(f, s[n..n + size], size) case Some(vs) => |vs| case None => 0
    else 1
  }

  /** The occurrences of fixed-count fields in the input, in order, each with its number of items. */
  function Deliveries(env: Env, id: nat, p: Progress, s: Bytes): seq<(nat, nat)>
    requires id < |env| && |p.slots| == |env[id]|
    decreases |s|
  {
    if s == [] then []
    else
      var h := Classify(env[id], s);
      match Turn(env, id, p, s)
      case Ok(Some(q), n) =>
        (if h.Hit? && FixedCount(env[id][h.k]) then [(h.k, ItemsIn(env[id][h.k], h.wt, s[h.n..]))] else [])
        + Deliveries(env, id, q, s[n..])
      case Ok(None, _) => []
      case Err => []
  }

  function Sum(d: seq<(nat, nat)>): nat
  {
    if d == [] then 0 else d[0].1 + Sum(d[1..])
  }

  /** d[i..j] is a run of one field that no neighbour extends. */
  predicate MaximalRun(d: seq<(nat, nat)>, i: nat, j: nat)
  {
    && i < j <= |d|
    && (forall x :: i <= x < j ==> d[x].0 == d[i].0)
    && (i > 0 ==> d[i - 1].0 != d[i].0)
    && (j < |d| ==> d[j].0 != d[i].0)
  }

  /** Reading `d` with `c` items of field `cur` already delivered, every run adds up to its array. */
  predicate RunsFull(F: Fields, cur: Option<nat>, c: nat, d: seq<(nat, nat)>)
    decreases d
  {
    var done := cur.Some? && cur.value < |F| ==> c == F[cur.value].arraySize;
    if d == [] then done
    else if cur == Some(d[0].0) then RunsFull(F, cur, c + d[0].1, d[1..])
    else done && RunsFull(F, Some(d[0].0), d[0].1, d[1..])
  }

  lemma {:induction false} ItemsAnyRoom(f: Field, s: Bytes, room: nat, other: nat)
    requires DecItems(f, s, room).Some? && |s| <= other
    ensures DecItems(f, s, other) == DecItems(f, s, room)
    decreases |s|
  {
    hide DecBasic;
    if s != [] {
      var b := DecBasic(f, s);
      ItemsAnyRoom(f, s[b.n..], room - 1, other - 1);
    }
  }

  /** A fixed-count field advances the counter by what it brings. */
  lemma FixedAdvance(env: Env, id: nat, p: Progress, k: nat, wt: nat, s: Bytes)
    requires id < |env| && k < |env[id]| && |p.slots| == |env[id]| && FixedCount(env[id][k])
    requires DecField(env, id, p, k, wt, s).Ok?
    ensures DecField(env, id, p, k, wt, s).v.fixedSize == p.fixedSize + ItemsIn(env[id][k], wt, s)
    ensures DecField(env, id, p, k, wt, s).v.fixedField == p.fixedField
  {
    hide DecValue, DecItems, DecVarint32, Stored, Base, Shaped, Room;
    var f := env[id][k];
    if wt == WT_STRING && Packable(f.lt) {
      var h := DecVarint32(s);
      ItemsAnyRoom(f, s[h.n..h.n + h.v], Room(f, p.slots[k], p.fixedSize), h.v);
    }
  }

  lemma {:induction false} RunsOfFields(env: Env, id: nat, p: Progress, s: Bytes)
    requires id < |env| && |p.slots| == |env[id]|
    requires DecFields(env, id, p, s).Ok? && FixedDone(env[id], DecFields(env, id, p, s).v.p)
    ensures RunsFull(env[id], p.fixedField, p.fixedSize, Deliveries(env, id, p, s))
    decreases |s|
  {
    hide Turn, Classify, DecField, ItemsIn;
    if s != [] {
      TurnIs(env, id, p, s);
      var h := Classify(env[id], s);
      var r := Turn(env, id, p, s);
      if r.v.Some? {
        var rest := Deliveries(env, id, r.v.value, s[r.n..]);
        RunsOfFields(env, id, r.v.value, s[r.n..]);
        if h.Hit? {
          var e := Enter(env[id], p, h.k).value;
          if FixedCount(env[id][h.k]) {
            FixedAdvance(env, id, e, h.k, h.wt, s[h.n..]);
            var one := [(h.k, ItemsIn(env[id][h.k], h.wt, s[h.n..]))];
            assert (one + rest)[1..] == rest;
          } else {
            FixedUnused(env, id, e, h.k, h.wt, s[h.n..], None, 0);
            assert [] + rest == rest;
          }
        } else {
          assert [] + rest == rest;
        }
      }
    }
  }

  /** The same seen as a statement about all maximal runs. */
  lemma {:induction false} EveryRunFull(F: Fields, cur: Option<nat>, c: nat, d: seq<(nat, nat)>, i: nat, j: nat)
    requires RunsFull(F, cur, c, d) && MaximalRun(d, i, j) && d[i].0 < |F|
    ensures Sum(d[i..j]) + (if i == 0 && cur == Some(d[0].0) then c else 0) == F[d[i].0].arraySize
    decreases |d|
  {
    var rest := d[1..];
    var first := Some(d[0].0);
    var c1 := if cur == first then c + d[0].1 else d[0].1;
    if i > 0 {
      assert d[i..j] == rest[i - 1..j - 1];
      EveryRunFull(F, first, c1, rest, i - 1, j - 1);
      assert i - 1 == 0 ==> first != Some(rest[0].0);
    } else if j > 1 {
      assert d[0..j] == [d[0]] + rest[0..j - 1];
      assert ([d[0]] + rest[0..j - 1])[1..] == rest[0..j - 1];
      assert rest[0].0 == d[0].0;
      EveryRunFull(F, first, c1, rest, 0, j - 1);
    } else {
      assert d[0..1] == [d[0]] && Sum([d[0]][1..]) == 0;
    }
  }

  lemma RunInside(d: seq<(nat, nat)>, i: nat, j: nat)
    requires MaximalRun(d, i, j)
    ensures i < j <= |d|
  {
  }

  lemma {:induction false} DeliveriesValid(env: Env, id: nat, p: Progress, s: Bytes)
    requires id < |env| && |p.slots| == |env[id]|
    ensures forall d :: d in Deliveries(env, id, p, s) ==> d.0 < |env[id]|
    decreases |s|
  {
    hide Turn, Classify, ItemsIn;
    if s != [] {
      var r := Turn(env, id, p, s);
      if r.Ok? && r.v.Some? {
        DeliveriesValid(env, id, r.v.value, s[r.n..]);
      }
    }
  }

  /** Fixed-count discipline: in every accepted message, each maximal run of occurrences of one
      fixed-count field, packed or not and with any other fields in between, delivers exactly the
      array's number of items. */
  lemma FixedCountDiscipline(env: Env, id: nat, slots: seq<Slot>, s: Bytes, i: nat, j: nat)
    requires id < |env| && |slots| == |env[id]| && DecMsg(env, id, slots, s).Ok?
    requires MaximalRun(Deliveries(env, id, Start(slots), s), i, j)
    ensures var d := Deliveries(env, id, Start(slots), s);
            d[i].0 < |env[id]| && Sum(d[i..j]) == env[id][d[i].0].arraySize
  {
    hide DecFields, Deliveries, Sum, RunsFull, MaximalRun;
    var d := Deliveries(env, id, Start(slots), s);
    RunsOfFields(env, id, Start(slots), s);
    RunInside(d, i, j);
    DeliveriesValid(env, id, Start(slots), s);
    assert d[i] in d;
    EveryRunFull(env[id], None, 0, d, i, j);
  }
}
