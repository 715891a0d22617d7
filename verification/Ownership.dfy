/** Who owns the heap blocks of a message while it is decoded and released, in a build with
    PB_ENABLE_MALLOC. Any allocation may fail, and realloc may move a block or leave it in place. */
module Ownership {
  import opened Schema
  import opened Wrappers

  // ----- Storage -----

  /** Struct memory as far as ownership goes. A `Block` is a pointer to heap block `b` and what the
      block holds; a `Group` is storage in place: the members of a struct or the elements of an array. */
  datatype Node =
    | Leaf(data: Value)                 // no pointer inside
    | Nil                               // the null pointer
    | Stale                             // a pointer nobody has set: it owns nothing and must not be freed
    | Block(b: nat, items: seq<Node>)
    | Group(items: seq<Node>)
    | Flagged(has: bool, v: Node)       // an optional field and its has_ flag
    | Counted(count: nat, v: Node)      // a repeated field and its _count
    | OneOf(which: nat, v: Node)        // a union and its which_ member

  /** Something that owns nothing. */
  const HOLE: Node := Leaf(Null)

  /** The blocks reachable from a piece of storage, each as often as it is reachable. */
  function Owned(v: Node): multiset<nat>
    decreases v
  {
    match v
    case Leaf(_) => multiset{}
    case Nil => multiset{}
    case Stale => multiset{}
    case Block(b, items) => multiset{b} + OwnedAll(items)
    case Group(items) => OwnedAll(items)
    case Flagged(_, u) => Owned(u)
    case Counted(_, u) => Owned(u)
    case OneOf(_, u) => Owned(u)
  }

  function OwnedAll(vs: seq<Node>): multiset<nat>
    decreases vs
  {
    if vs == [] then multiset{} else Owned(vs[0]) + OwnedAll(vs[1..])
  }

  /** pb_release of the storage frees a pointer nobody has set. Elements of a static array beyond its
      count are out of its reach. */
  predicate Wild(v: Node)
    decreases v, 1
  {
    match v
    case Leaf(_) => false
    case Nil => false
    case Stale => true
    case Block(_, items) => WildAny(items, |items|)
    case Group(items) => WildAny(items, |items|)
    case Flagged(_, u) => Wild(u)
    case Counted(count, u) => if u.Group? then WildAny(u.items, count) else Wild(u)
    case OneOf(_, u) => Wild(u)
  }

  /** One of the first `n` is. */
  predicate WildAny(vs: seq<Node>, n: nat)
    decreases vs, 0
  {
    exists i :: 0 <= i < |vs| && i < n && Wild(vs[i])
  }

  /** The block is somewhere in the storage, whatever flags, counts and which_ members say. */
  predicate Mentions(v: Node, b: nat)
    decreases v
  {
    match v
    case Leaf(_) => false
    case Nil => false
    case Stale => false
    case Block(c, items) => b == c || exists i :: 0 <= i < |items| && Mentions(items[i], b)
    case Group(items) => exists i :: 0 <= i < |items| && Mentions(items[i], b)
    case Flagged(_, u) => Mentions(u, b)
    case Counted(_, u) => Mentions(u, b)
    case OneOf(_, u) => Mentions(u, b)
  }

  /** What is owned is what is there. */
  lemma {:induction false} OwnedIsThere(v: Node, b: nat)
    ensures b in Owned(v) <==> Mentions(v, b)
    decreases v, 1
  {
    hide OwnedAll;
    match v
    case Leaf(_) =>
    case Nil =>
    case Stale =>
    case Block(_, items) => OwnedIsThereIn(items, b);
    case Group(items) => OwnedIsThereIn(items, b);
    case Flagged(_, u) => OwnedIsThere(u, b);
    case Counted(_, u) => OwnedIsThere(u, b);
    case OneOf(_, u) => OwnedIsThere(u, b);
  }

  lemma {:induction false} OwnedIsThereIn(vs: seq<Node>, b: nat)
    ensures b in OwnedAll(vs) <==> exists i :: 0 <= i < |vs| && Mentions(vs[i], b)
    decreases vs, 0
  {
    hide Owned, Mentions;
    if vs != [] {
      OwnedIsThere(vs[0], b);
      OwnedIsThereIn(vs[1..], b);
      if b in OwnedAll(vs[1..]) {
        var i :| 0 <= i < |vs[1..]| && Mentions(vs[1..][i], b);
        assert Mentions(vs[i + 1], b);
      }
      if i :| 0 < i < |vs| && Mentions(vs[i], b) {
        assert Mentions(vs[1..][i - 1], b);
      }
    }
  }

  /** What the storage at `i` owns, and what the rest owns. */
  lemma {:induction false} OwnedAt(vs: seq<Node>, i: nat)
    requires i < |vs|
    ensures OwnedAll(vs) == Owned(vs[i]) + OwnedAll(vs[i := HOLE])
    decreases vs
  {
    hide Owned;
    OwnedHole();
    var ws := vs[i := HOLE];
    assert OwnedAll(ws) == Owned(ws[0]) + OwnedAll(ws[1..]);
    if i == 0 {
      assert ws[1..] == vs[1..];
    } else {
      OwnedAt(vs[1..], i - 1);
      assert ws[1..] == vs[1..][i - 1 := HOLE];
      assert OwnedAll(vs) == Owned(vs[0]) + (Owned(vs[i]) + OwnedAll(ws[1..]));
    }
  }

  lemma OwnedHole()
    ensures Owned(HOLE) == multiset{}
  {
  }

  lemma OwnedPut(vs: seq<Node>, i: nat, v: Node)
    requires i < |vs|
    ensures OwnedAll(vs) == Owned(vs[i]) + OwnedAll(vs[i := HOLE])
    ensures OwnedAll(vs[i := v]) == Owned(v) + OwnedAll(vs[i := HOLE])
  {
    hide *;
    OwnedAt(vs, i);
    OwnedAt(vs[i := v], i);
    assert vs[i := v][i := HOLE] == vs[i := HOLE];
  }

  lemma {:induction false} OwnedAppend(vs: seq<Node>, v: Node)
    ensures OwnedAll(vs + [v]) == OwnedAll(vs) + Owned(v)
    decreases vs
  {
    if vs == [] {
      assert vs + [v] == [v];
      assert OwnedAll([v][1..]) == multiset{};
    } else {
      OwnedAppend(vs[1..], v);
      assert (vs + [v])[1..] == vs[1..] + [v];
    }
  }

  lemma {:induction false} OwnsNothing(vs: seq<Node>)
    ensures OwnedAll(vs) == multiset{} <==> forall i :: 0 <= i < |vs| ==> Owned(vs[i]) == multiset{}
    decreases vs
  {
    if vs != [] {
      OwnsNothing(vs[1..]);
      assert forall i :: 0 < i < |vs| ==> vs[i] == vs[1..][i - 1];
    }
  }

  lemma Without(live: set<nat>, b: nat, frame: multiset<nat>)
    requires multiset(live) == multiset{b} + frame
    ensures b in live && multiset(live - {b}) == frame
  {
    assert b in multiset{b} + frame;
    forall x ensures multiset(live - {b})[x] == frame[x] {
      assert multiset(live)[x] == (multiset{b} + frame)[x];
    }
  }

  lemma With(live: set<nat>, b: nat)
    requires b !in live
    ensures multiset(live + {b}) == multiset{b} + multiset(live)
  {
  }

  // ----- The heap -----

  class Heap {
    var live: set<nat>
    var next: nat
    ghost var failed: bool              // some allocation has been refused
    ghost var wild: bool                // a pointer nobody has set has been freed; nothing said holds any more

    /** Exactly the blocks of `m` are allocated; as `live` is a set, `m` has none of them twice. */
    ghost predicate Holds(m: multiset<nat>)
      reads this
    {
      multiset(live) == m && forall b :: b in live ==> b < next
    }

    constructor ()
      ensures Holds(multiset{}) && !failed && !wild
    {
      live, next, failed, wild := {}, 0, false, false;
    }

    /** realloc of a null or live pointer. */
    method Realloc(p: Node, ghost frame: multiset<nat>) returns (ok: bool, b: nat)
      requires Holds((if p.Block? then multiset{p.b} else multiset{}) + frame)
      modifies this
      ensures Holds((if ok then multiset{b} else if p.Block? then multiset{p.b} else multiset{}) + frame)
      ensures !ok ==> live == old(live)
      ensures failed == (old(failed) || !ok) && wild == old(wild)
    {
      if * {
        failed := true;
        return false, 0;
      }
      if p.Block? {
        assert p.b in multiset{p.b} + frame;
        if * {
          return true, p.b;
        }
        Without(live, p.b, frame);
        live := live - {p.b};
      }
      b := next;
      With(live, b);
      live, next := live + {b}, next + 1;
      ok := true;
    }

    /** free of a live block. */
    method Free(b: nat, ghost frame: multiset<nat>)
      requires Holds(multiset{b} + frame)
      modifies this
      ensures Holds(frame) && failed == old(failed) && wild == old(wild)
    {
      Without(live, b, frame);
      live := live - {b};
    }

    /** free of a pointer nobody has set. */
    ghost method FreeStale()
      modifies this`wild
      ensures wild
    {
      wild := true;
    }
  }

  /** While the heap holds what a struct and its surroundings own, every block has one owner. */
  lemma OneOwner(h: Heap, m: multiset<nat>, b: nat)
    requires h.Holds(m)
    ensures b in h.live ==> m[b] == 1
    ensures b !in h.live ==> m[b] == 0
  {
    assert m[b] == multiset(h.live)[b];
  }

  lemma SameBlocks(s: set<nat>, t: set<nat>)
    requires multiset(s) == multiset(t)
    ensures s == t
  {
    forall b ensures b in s <==> b in t {
      assert b in s <==> b in multiset(s);
      assert b in t <==> b in multiset(t);
    }
  }

  // ----- Storage that agrees with the descriptors -----

  predicate TextType(lt: LType)
  {
    lt == BYTES || lt == STRING
  }

  /** Tables without repeated fields that lack a count. */
  predicate CountedEnv(env: Env)
  {
    ValidEnv(env) && forall id, k :: 0 <= id < |env| && 0 <= k < |env[id]| ==> !FixedCount(env[id][k])
  }

  ghost predicate StructOk(env: Env, id: nat, cells: seq<Node>)
    decreases cells
  {
    id < |env| && |cells| == |env[id]| && forall k :: 0 <= k < |cells| ==> CellOk(env, env[id], k, cells[k])
  }

  ghost predicate CellOk(env: Env, F: Fields, k: nat, c: Node)
    requires k < |F|
    decreases c, 4
  {
    if UnionTail(F, k) then c.Leaf?
    else if F[k].ht == ONEOF then
      && c.OneOf?
      && var j := FindTag(F, c.which);
         if j.None? then c.v.Nil? else Loc(F, j.value) == k && DataOk(env, F[j.value], c.v)
    else if FixedCount(F[k]) then c.Group? && RowOk(env, F[k], F[k].arraySize, c)
    else if F[k].ht == REPEATED then c.Counted? && RowOk(env, F[k], c.count, c.v)
    else if HasField(F[k]) then c.Flagged? && DataOk(env, F[k], c.v)
    else DataOk(env, F[k], c)
  }

  /** The storage of a field that is not repeated. */
  ghost predicate DataOk(env: Env, f: Field, v: Node)
    decreases v, 1
  {
    if f.at == STATIC then PlaceOk(env, f, v)
    else
      v.Nil? || v.Stale? || (v.Block? && |v.items| == 1 && PlaceOk(env, f, v.items[0]))
  }

  /** A value in place. */
  ghost predicate PlaceOk(env: Env, f: Field, v: Node)
    decreases v, 0
  {
    if f.lt == SUBMESSAGE then v.Group? && StructOk(env, f.sub, v.items) else v.Leaf?
  }

  /** One element of an array. */
  ghost predicate ItemOk(env: Env, f: Field, v: Node)
    decreases v, 2
  {
    if f.at == PTR && TextType(f.lt) then DataOk(env, f, v) else PlaceOk(env, f, v)
  }

  /** A repeated field: elements of a static array beyond the count own nothing, and a dynamic array
      has as many elements as its count says. */
  ghost predicate RowOk(env: Env, f: Field, count: nat, v: Node)
    decreases v, 3
  {
    if f.at == STATIC then
      && v.Group? && |v.items| == f.arraySize
      && (forall i :: 0 <= i < |v.items| ==> ItemOk(env, f, v.items[i]))
      && forall i :: count <= i < |v.items| ==> Owned(v.items[i]) == multiset{}
    else
      && count <= PB_SIZE_MAX
      && if v.Nil? then count == 0
         else if v.Stale? then true
         else v.Block? && |v.items| == count && forall i :: 0 <= i < |v.items| ==> ItemOk(env, f, v.items[i])
  }

  // ----- pb_release -----

  /** The field at which pb_release gets to the storage of slot `i`. */
  function ReleasedAt(F: Fields, c: Node, i: nat): nat
  {
    if c.OneOf? && FindTag(F, c.which).Some? then FindTag(F, c.which).value else i
  }

  /** Slot `i` before field `k` is released: done with, or not touched yet. */
  ghost predicate Stage(F: Fields, was: Node, now: Node, i: nat, k: nat)
  {
    if ReleasedAt(F, was, i) < k then Owned(now) == multiset{} && !Wild(now) && (was.OneOf? ==> now.OneOf? && now.which == was.which)
    else now == was
  }

  /** A slot released before field `k` held a pointer nobody had set. */
  predicate WildBefore(F: Fields, cells: seq<Node>, k: nat)
  {
    exists i :: 0 <= i < |cells| && ReleasedAt(F, cells[i], i) < k && Wild(cells[i])
  }

  lemma StageStart(env: Env, id: nat, cells: seq<Node>, k: nat)
    requires ValidEnv(env) && StructOk(env, id, cells) && k < |cells|
    ensures var F, l := env[id], Loc(env[id], k);
            var c := cells[l];
            && (c.OneOf? <==> F[k].ht == ONEOF)
            && (c.OneOf? && c.which == F[k].tag ==> FindTag(F, c.which) == Some(k) && ReleasedAt(F, c, l) == k)
            && (c.OneOf? && c.which != F[k].tag && ReleasedAt(F, c, l) == k ==> Owned(c) == multiset{} && !Wild(c))
            && (!c.OneOf? ==> ReleasedAt(F, c, l) == k)
  {
    hide RowOk;
    assert ValidMessage(env, id);
    FindUnique(env, id, k);
    var F, l := env[id], Loc(env[id], k);
    CellAt(env, id, cells, l);
    CellKind(env, F, l, cells[l]);
  }

  lemma CellKind(env: Env, F: Fields, k: nat, c: Node)
    requires k < |F| && CellOk(env, F, k, c)
    ensures UnionTail(F, k) ==> Owned(c) == multiset{} && !Wild(c)
    ensures c.OneOf? <==> !UnionTail(F, k) && F[k].ht == ONEOF
    ensures c.Counted? <==> !UnionTail(F, k) && F[k].ht == REPEATED && !FixedCount(F[k])
  {
    if !UnionTail(F, k) && F[k].ht != ONEOF && F[k].ht != REPEATED && !HasField(F[k]) {
      assert DataOk(env, F[k], c);
      assert F[k].at == STATIC ==> PlaceOk(env, F[k], c);
    }
  }

  lemma CellAt(env: Env, id: nat, cells: seq<Node>, k: nat)
    requires StructOk(env, id, cells) && k < |cells|
    ensures CellOk(env, env[id], k, cells[k])
  {
  }

  /** No other slot is due at field `k`, unless there is nothing in it. */
  lemma StageOther(env: Env, id: nat, cells: seq<Node>, k: nat, i: nat)
    requires ValidEnv(env) && StructOk(env, id, cells) && k < |cells| && i < |cells|
    requires i != Loc(env[id], k) && ReleasedAt(env[id], cells[i], i) == k
    ensures Owned(cells[i]) == multiset{} && !Wild(cells[i])
  {
    hide RowOk;
    CellAt(env, id, cells, i);
    CellKind(env, env[id], i, cells[i]);
  }

  lemma StageStep(env: Env, id: nat, cells: seq<Node>, r: seq<Node>, k: nat, now: Node)
    requires ValidEnv(env) && StructOk(env, id, cells) && k < |cells| == |r|
    requires forall i :: 0 <= i < |r| ==> Stage(env[id], cells[i], r[i], i, k)
    requires var l, tag := Loc(env[id], k), env[id][k].tag;
             if r[l].OneOf? && r[l].which != tag then now == r[l]
             else Owned(now) == multiset{} && !Wild(now) && (r[l].OneOf? ==> now.OneOf? && now.which == r[l].which)
    ensures forall i :: 0 <= i < |r| ==> Stage(env[id], cells[i], r[Loc(env[id], k) := now][i], i, k + 1)
  {
    hide Owned, Wild, FindTag, Loc, CellOk, ReleasedAt;
    StageStart(env, id, cells, k);
    forall i | 0 <= i < |r|
      ensures Stage(env[id], cells[i], r[Loc(env[id], k) := now][i], i, k + 1)
    {
      if i != Loc(env[id], k) && ReleasedAt(env[id], cells[i], i) == k {
        StageOther(env, id, cells, k, i);
      }
    }
  }

  /** After the last field every slot has had its turn. */
  lemma StageEnd(env: Env, id: nat, cells: seq<Node>, r: seq<Node>)
    requires id < |env| && |cells| == |r| == |env[id]|
    requires forall i :: 0 <= i < |r| ==> Stage(env[id], cells[i], r[i], i, |r|)
    ensures OwnedAll(r) == multiset{} && !WildAny(r, |r|)
    ensures WildBefore(env[id], cells, |r|) <==> WildAny(cells, |cells|)
  {
    hide Owned, Wild;
    OwnsNothing(r);
    forall i | 0 <= i < |r|
      ensures ReleasedAt(env[id], cells[i], i) < |r|
    {
    }
  }

  /** What releasing field `k` adds. */
  lemma WildStep(env: Env, id: nat, cells: seq<Node>, k: nat)
    requires ValidEnv(env) && StructOk(env, id, cells) && k < |cells|
    ensures var c := cells[Loc(env[id], k)];
            WildBefore(env[id], cells, k + 1) <==>
            WildBefore(env[id], cells, k) || (!(c.OneOf? && c.which != env[id][k].tag) && Wild(c))
  {
    hide Wild, FindTag, Loc, CellOk, ReleasedAt, Owned;
    var F, l := env[id], Loc(env[id], k);
    StageStart(env, id, cells, k);
    forall i | 0 <= i < |cells| && i != l && ReleasedAt(F, cells[i], i) == k
      ensures !Wild(cells[i])
    {
      StageOther(env, id, cells, k, i);
    }
    assert ReleasedAt(F, cells[l], l) == k ==> !(cells[l].OneOf? && cells[l].which != F[k].tag) || !Wild(cells[l]);
  }

  lemma PutCell(env: Env, id: nat, cells: seq<Node>, k: nat, c: Node)
    requires StructOk(env, id, cells) && k < |cells| && CellOk(env, env[id], k, c)
    ensures StructOk(env, id, cells[k := c])
  {
    hide CellOk;
  }

  method ReleaseStruct(h: Heap, env: Env, id: nat, cells: seq<Node>, ghost frame: multiset<nat>) returns (r: seq<Node>)
    requires ValidEnv(env) && StructOk(env, id, cells) && h.Holds(OwnedAll(cells) + frame)
    modifies h
    ensures h.failed == old(h.failed)
    ensures h.wild == (old(h.wild) || WildAny(cells, |cells|))
    ensures StructOk(env, id, r) && OwnedAll(r) == multiset{} && !WildAny(r, |r|) && h.Holds(frame)
    ensures OwnedAll(cells) == multiset{} && !WildAny(cells, |cells|) ==> r == cells && h.live == old(h.live)
    decreases cells, 0
  {
    hide CellOk, Owned, OwnedAll, FindTag, Loc, UnionTail, ReleasedAt, ValidEnv, Wild, WildBefore, WildAny, Stage;
    var F := env[id];
    r := cells;
    StagesBegin(F, cells);
    var k := 0;
    while k < |F|
      invariant h.failed == old(h.failed) && k <= |F| == |r| && StructOk(env, id, r) && h.Holds(OwnedAll(r) + frame)
      invariant forall i :: 0 <= i < |F| ==> Stage(F, cells[i], r[i], i, k)
      invariant h.wild == (old(h.wild) || WildBefore(F, cells, k))
      invariant OwnedAll(cells) == multiset{} && !WildAny(cells, |cells|) ==> r == cells
    {
      var l := Loc(F, k);
      StageNow(env, id, cells, r, k);
      WildStep(env, id, cells, k);
      var c := r[l];
      OwnedPut(r, l, c);
      // Only the current member of a union is released.
      if !(c.OneOf? && c.which != F[k].tag) {
        c := ReleaseField(h, env, id, k, c, OwnedAll(r[l := HOLE]) + frame);
      }
      OwnedPut(r, l, c);
      StageStep(env, id, cells, r, k, c);
      PutCell(env, id, r, l, c);
      r := r[l := c];
      k := k + 1;
    }
    StageEnd(env, id, cells, r);
    if OwnedAll(cells) == multiset{} {
      SameBlocks(h.live, old(h.live));
    }
  }

  /** The slot of field `k` is as it was when its turn comes, or an inactive member names it. */
  lemma StageNow(env: Env, id: nat, cells: seq<Node>, r: seq<Node>, k: nat)
    requires ValidEnv(env) && StructOk(env, id, cells) && StructOk(env, id, r) && k < |cells|
    requires forall i :: 0 <= i < |r| ==> Stage(env[id], cells[i], r[i], i, k)
    ensures var l, tag := Loc(env[id], k), env[id][k].tag;
            && CellOk(env, env[id], l, r[l])
            && (cells[l].OneOf? && cells[l].which != tag <==> r[l].OneOf? && r[l].which != tag)
            && (!(r[l].OneOf? && r[l].which != tag) ==> r[l] == cells[l])
            && (OwnedAll(cells) == multiset{} && !WildAny(cells, |cells|) ==> Owned(cells[l]) == multiset{} && !Wild(cells[l]))
  {
    hide Owned, Wild, FindTag, Loc, CellOk, ReleasedAt, ValidEnv;
    StageStart(env, id, cells, k);
    StageStart(env, id, r, k);
    OwnsNothing(cells);
  }

  lemma StagesBegin(F: Fields, cells: seq<Node>)
    requires |cells| == |F|
    ensures !WildBefore(F, cells, 0)
    ensures forall i :: 0 <= i < |F| ==> Stage(F, cells[i], cells[i], i, 0)
  {
  }

  /** pb_release_single_field, for a field that is not an inactive member of a union. */
  method ReleaseField(h: Heap, env: Env, id: nat, k: nat, c: Node, ghost frame: multiset<nat>) returns (r: Node)
    requires ValidEnv(env) && id < |env| && k < |env[id]| && CellOk(env, env[id], Loc(env[id], k), c)
    requires c.OneOf? ==> c.which == env[id][k].tag
    requires h.Holds(Owned(c) + frame)
    modifies h
    ensures h.failed == old(h.failed)
    ensures h.wild == (old(h.wild) || Wild(c))
    ensures CellOk(env, env[id], Loc(env[id], k), r) && Owned(r) == multiset{} && !Wild(r) && h.Holds(frame)
    ensures Owned(c) == multiset{} && !Wild(c) ==> r == c
    ensures c.OneOf? ==> r.OneOf? && r.which == c.which
    decreases c, 1
  {
    hide RowOk, FindTag, Loc;
    FindUnique(env, id, k);
    var f := env[id][k];
    if f.ht == ONEOF {
      var v := ReleaseData(h, env, f, c.v, frame);
      r := OneOf(c.which, v);
    } else if FixedCount(f) {
      r := ReleaseFixed(h, env, id, k, c, frame);
    } else if f.ht == REPEATED {
      r := ReleaseRow(h, env, f, c, frame);
    } else if HasField(f) {
      var v := ReleaseData(h, env, f, c.v, frame);
      r := Flagged(c.has, v);
    } else {
      r := ReleaseData(h, env, f, c, frame);
    }
  }

  method ReleaseData(h: Heap, env: Env, f: Field, v: Node, ghost frame: multiset<nat>) returns (r: Node)
    requires ValidEnv(env) && DataOk(env, f, v) && h.Holds(Owned(v) + frame)
    modifies h
    ensures h.failed == old(h.failed) && h.wild == (old(h.wild) || Wild(v))
    ensures DataOk(env, f, r) && Owned(r) == multiset{} && !Wild(r) && h.Holds(frame)
    ensures Owned(v) == multiset{} && !Wild(v) ==> r == v
    ensures f.at == PTR ==> r.Nil?
    decreases v, 0
  {
    hide ValidEnv, StructOk, OwnedAll, WildAny;
    r := v;
    if f.at == PTR {
      if v.Stale? {
        h.FreeStale();
      } else if v.Block? {
        OwnedBehind(env, f, v, frame);
        WildBehind(env, f, v);
        if f.lt == SUBMESSAGE {
          var cells := ReleaseStruct(h, env, f.sub, v.items[0].items, multiset{v.b} + frame);
        }
        h.Free(v.b, frame);
      }
      r := Nil;
    } else if f.lt == SUBMESSAGE {
      var cells := ReleaseStruct(h, env, f.sub, v.items, frame);
      r := Group(cells);
    }
  }

  lemma WildBehind(env: Env, f: Field, v: Node)
    requires f.at == PTR && v.Block? && DataOk(env, f, v)
    ensures Wild(v) <==> f.lt == SUBMESSAGE && v.items[0].Group? && WildAny(v.items[0].items, |v.items[0].items|)
  {
    hide StructOk;
    assert Wild(v.items[0]) ==> WildAny(v.items, |v.items|);
  }

  /** What a pointer owns: its block, and what a submessage in it owns. */
  lemma OwnedBehind(env: Env, f: Field, v: Node, frame: multiset<nat>)
    requires f.at == PTR && v.Block? && DataOk(env, f, v)
    ensures f.lt == SUBMESSAGE ==>
              |v.items| == 1 && v.items[0].Group?
              && Owned(v) + frame == OwnedAll(v.items[0].items) + (multiset{v.b} + frame)
    ensures f.lt != SUBMESSAGE ==> Owned(v) + frame == multiset{v.b} + frame
  {
    hide StructOk;
    if f.lt == SUBMESSAGE {
      OwnedOne(v.items);
    } else {
      OwnedLeaves(v.items);
    }
  }

  lemma OwnedOne(vs: seq<Node>)
    requires |vs| == 1
    ensures OwnedAll(vs) == Owned(vs[0])
  {
    assert OwnedAll(vs[1..]) == multiset{};
  }

  lemma OwnedLeaves(vs: seq<Node>)
    requires forall i :: 0 <= i < |vs| ==> vs[i].Leaf?
    ensures OwnedAll(vs) == multiset{}
  {
    OwnsNothing(vs);
  }

  /** A repeated field without a count: all of its elements. */
  method ReleaseFixed(h: Heap, env: Env, id: nat, k: nat, c: Node, ghost frame: multiset<nat>) returns (r: Node)
    requires ValidEnv(env) && id < |env| && k < |env[id]| && FixedCount(env[id][k])
    requires c.Group? && RowOk(env, env[id][k], env[id][k].arraySize, c) && h.Holds(Owned(c) + frame)
    modifies h
    ensures h.failed == old(h.failed) && h.wild == (old(h.wild) || Wild(c))
    ensures r.Group? && RowOk(env, env[id][k], env[id][k].arraySize, r)
    ensures Owned(r) == multiset{} && !Wild(r) && h.Holds(frame)
    ensures Owned(c) == multiset{} && !Wild(c) ==> r == c
    decreases c, 0
  {
    var f := env[id][k];
    assert f.at == STATIC by {
      assert ValidMessage(env, id) && ValidField(env, id, f);
    }
    hide ValidEnv, PlaceOk, WildAny, OwnedAll, RowOk;
    StaticItems(env, f, f.arraySize, c);
    r := c;
    if f.lt == SUBMESSAGE {
      var items := ReleaseItems(h, env, f, c.items, |c.items|, frame);
      r := Group(items);
      StaticRowBack(env, f, f.arraySize, items);
    }
  }

  /** The elements of a static array. */
  lemma StaticItems(env: Env, f: Field, count: nat, v: Node)
    requires f.at == STATIC && RowOk(env, f, count, v)
    ensures v.Group? && |v.items| == f.arraySize
    ensures forall i :: count <= i < |v.items| ==> Owned(v.items[i]) == multiset{}
    ensures forall i :: 0 <= i < |v.items| ==> PlaceOk(env, f, v.items[i])
    ensures f.lt != SUBMESSAGE ==> OwnedAll(v.items) == multiset{} && forall n :: !WildAny(v.items, n)
  {
    hide PlaceOk;
    forall i | 0 <= i < |v.items|
      ensures PlaceOk(env, f, v.items[i])
    {
      assert ItemOk(env, f, v.items[i]);
    }
    if f.lt != SUBMESSAGE {
      OwnedLeafItems(env, f, v.items);
    }
  }

  lemma StaticRowBack(env: Env, f: Field, count: nat, items: seq<Node>)
    requires f.at == STATIC && |items| == f.arraySize && OwnedAll(items) == multiset{}
    requires forall i :: 0 <= i < |items| ==> PlaceOk(env, f, items[i])
    ensures RowOk(env, f, count, Group(items))
  {
    hide PlaceOk;
    OwnsNothing(items);
    assert forall i :: 0 <= i < |items| ==> ItemOk(env, f, items[i]);
  }

  /** More than all of them is all of them. */
  lemma WildUpTo(vs: seq<Node>, n: nat)
    ensures WildAny(vs, n) <==> WildAny(vs, if n > |vs| then |vs| else n)
  {
    hide Wild;
  }

  method ReleaseRow(h: Heap, env: Env, f: Field, c: Node, ghost frame: multiset<nat>) returns (r: Node)
    requires ValidEnv(env) && c.Counted? && RowOk(env, f, c.count, c.v) && h.Holds(Owned(c) + frame)
    modifies h
    ensures h.failed == old(h.failed) && h.wild == (old(h.wild) || Wild(c))
    ensures r.Counted? && RowOk(env, f, r.count, r.v) && Owned(r) == multiset{} && !Wild(r) && h.Holds(frame)
    ensures Owned(c) == multiset{} && !Wild(c) ==> r == c
    decreases c, 0
  {
    hide ValidEnv, PlaceOk, WildAny, OwnedAll;
    r := c;
    if f.at == STATIC {
      StaticItems(env, f, c.count, c.v);
      assert Owned(c) == Owned(c.v) == OwnedAll(c.v.items) && Wild(c) == WildAny(c.v.items, c.count);
      if f.lt == SUBMESSAGE {
        // A count beyond the array is cut down to its size.
        var n := if c.count > f.arraySize then f.arraySize else c.count;
        WildUpTo(c.v.items, c.count);
        var items := ReleaseItems(h, env, f, c.v.items, n, frame);
        WildUpTo(items, c.count);
        StaticRowBack(env, f, c.count, items);
        r := Counted(c.count, Group(items));
      }
    } else {
      assert Owned(c) == Owned(c.v) && (c.v.Group? || Wild(c) == Wild(c.v));
      if c.v.Stale? {
        h.FreeStale();
      } else if c.v.Block? {
        assert c.v.b in Owned(c.v);
        ReleaseArray(h, env, f, c.v, frame);
      }
      r := Counted(0, Nil);
    }
  }

  /** A dynamic array: first what its elements point to, then the array itself. */
  method ReleaseArray(h: Heap, env: Env, f: Field, v: Node, ghost frame: multiset<nat>)
    requires ValidEnv(env) && f.at == PTR && v.Block? && h.Holds(Owned(v) + frame)
    requires forall i :: 0 <= i < |v.items| ==> ItemOk(env, f, v.items[i])
    modifies h
    ensures h.failed == old(h.failed) && h.wild == (old(h.wild) || Wild(v))
    ensures h.Holds(frame)
    decreases v
  {
    hide ValidEnv, PlaceOk, WildAny;
    assert Owned(v) + frame == OwnedAll(v.items) + (multiset{v.b} + frame);
    if f.lt == SUBMESSAGE {
      var items := ReleaseItems(h, env, f, v.items, |v.items|, multiset{v.b} + frame);
    } else if TextType(f.lt) {
      TextItems(env, f, v.items);
      FreeItems(h, v.items, multiset{v.b} + frame);
    } else {
      OwnedLeafItems(env, f, v.items);
      assert OwnedAll(v.items) + (multiset{v.b} + frame) == multiset{v.b} + frame;
    }
    h.Free(v.b, frame);
  }

  lemma OwnedLeafItems(env: Env, f: Field, items: seq<Node>)
    requires forall i :: 0 <= i < |items| ==> ItemOk(env, f, items[i])
    requires f.lt != SUBMESSAGE && !(f.at == PTR && TextType(f.lt))
    ensures OwnedAll(items) == multiset{} && forall n :: !WildAny(items, n)
  {
    forall i | 0 <= i < |items|
      ensures Owned(items[i]) == multiset{} && !Wild(items[i])
    {
      assert ItemOk(env, f, items[i]) && PlaceOk(env, f, items[i]);
    }
    OwnsNothing(items);
  }

  lemma Submessage(env: Env, f: Field, v: Node)
    requires f.lt == SUBMESSAGE
    ensures PlaceOk(env, f, v) <==> v.Group? && StructOk(env, f.sub, v.items)
    ensures v.Group? ==> Owned(v) == OwnedAll(v.items) && (Wild(v) <==> WildAny(v.items, |v.items|))
  {
    hide StructOk, OwnedAll, WildAny;
  }

  /** The first `n` submessages of an array. */
  method ReleaseItems(h: Heap, env: Env, f: Field, items: seq<Node>, n: nat, ghost frame: multiset<nat>) returns (r: seq<Node>)
    requires ValidEnv(env) && f.lt == SUBMESSAGE && n <= |items| && h.Holds(OwnedAll(items) + frame)
    requires forall i :: 0 <= i < |items| ==> PlaceOk(env, f, items[i])
    requires forall i :: n <= i < |items| ==> Owned(items[i]) == multiset{}
    modifies h
    ensures h.failed == old(h.failed) && h.wild == (old(h.wild) || WildAny(items, n))
    ensures |r| == |items| && OwnedAll(r) == multiset{} && !WildAny(r, n) && h.Holds(frame)
    ensures forall i :: 0 <= i < |r| ==> PlaceOk(env, f, r[i])
    ensures OwnedAll(items) == multiset{} && !WildAny(items, n) ==> r == items
    decreases items
  {
    hide ValidEnv, StructOk, OwnedAll, Owned, PlaceOk, Wild;
    var done: seq<Node>, i := [], 0;
    OwnsNothing(items);
    assert items[0..] == items;
    while i < n
      invariant h.failed == old(h.failed) && |done| == i <= n && h.Holds(OwnedAll(items[i..]) + frame)
      invariant h.wild == (old(h.wild) || WildAny(items, i))
      invariant forall j :: 0 <= j < i ==> PlaceOk(env, f, done[j]) && Owned(done[j]) == multiset{} && !Wild(done[j])
      invariant OwnedAll(items) == multiset{} && !WildAny(items, n) ==> done == items[..i]
    {
      OwnedFrom(items, i);
      Submessage(env, f, items[i]);
      var cells := ReleaseStruct(h, env, f.sub, items[i].items, OwnedAll(items[i + 1..]) + frame);
      Submessage(env, f, Group(cells));
      WildMore(items, i);
      assert Wild(items[i]) ==> WildAny(items, n);
      done := done + [Group(cells)];
      i := i + 1;
    }
    OwnsNothing(items[n..]);
    r := done + items[n..];
    OwnsNothing(r);
  }

  lemma WildMore(vs: seq<Node>, n: nat)
    requires n < |vs|
    ensures WildAny(vs, n + 1) <==> WildAny(vs, n) || Wild(vs[n])
  {
    hide Wild;
  }

  lemma OwnedFrom(vs: seq<Node>, i: nat)
    requires i < |vs|
    ensures OwnedAll(vs[i..]) == Owned(vs[i]) + OwnedAll(vs[i + 1..])
  {
    hide Owned;
    assert vs[i..][1..] == vs[i + 1..];
  }

  predicate Text(v: Node)
  {
    v.Nil? || (v.Block? && |v.items| == 1 && v.items[0].Leaf?)
  }

  lemma TextItems(env: Env, f: Field, items: seq<Node>)
    requires f.at == PTR && TextType(f.lt) && forall i :: 0 <= i < |items| ==> ItemOk(env, f, items[i])
    ensures forall i :: 0 <= i < |items| ==> Text(items[i]) || items[i].Stale?
  {
    forall i | 0 <= i < |items|
      ensures Text(items[i]) || items[i].Stale?
    {
      assert ItemOk(env, f, items[i]) && DataOk(env, f, items[i]);
      assert items[i].Block? ==> PlaceOk(env, f, items[i].items[0]);
    }
  }

  /** What a pointer to a string owns. */
  lemma OwnedText(v: Node)
    requires Text(v) || v.Stale?
    ensures Owned(v) == if v.Block? then multiset{v.b} else multiset{}
    ensures Wild(v) <==> v.Stale?
  {
    if v.Block? {
      OwnedOne(v.items);
      assert !Wild(v.items[0]);
      assert !WildAny(v.items, |v.items|);
    }
  }

  /** The strings of an array. */
  method FreeItems(h: Heap, items: seq<Node>, ghost frame: multiset<nat>)
    requires forall i :: 0 <= i < |items| ==> Text(items[i]) || items[i].Stale?
    requires h.Holds(OwnedAll(items) + frame)
    modifies h
    ensures h.failed == old(h.failed) && h.wild == (old(h.wild) || WildAny(items, |items|))
    ensures h.Holds(frame)
  {
    hide Owned, OwnedAll, Wild;
    var i := 0;
    assert items[0..] == items;
    OwnsNothing([]);
    while i < |items|
      invariant h.failed == old(h.failed) && i <= |items| && h.Holds(OwnedAll(items[i..]) + frame)
      invariant h.wild == (old(h.wild) || WildAny(items, i))
    {
      OwnedFrom(items, i);
      OwnedText(items[i]);
      WildMore(items, i);
      ghost var rest := OwnedAll(items[i + 1..]) + frame;
      if items[i].Stale? {
        h.FreeStale();
      } else if items[i].Block? {
        assert OwnedAll(items[i..]) + frame == multiset{items[i].b} + rest;
        h.Free(items[i].b, rest);
      }
      i := i + 1;
    }
    assert items[i..] == [];
  }
}
