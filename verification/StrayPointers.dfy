/** Pointers nobody has set: the structs and the tables for which pb_decode keeps away from them, and
    inputs that make it free one where it does not. */
module StrayPointers {
  import opened Bits
  import opened Varint
  import opened Schema
  import opened Wrappers
  import opened DecodeSpec
  import opened EncodeSpec
  import opened Ownership
  import opened FreshStructs

  // ----- Structs without stray pointers -----

  /** Nowhere in the storage, whether pb_release gets there or not, is a pointer nobody has set. */
  predicate Tidy(v: Node)
    decreases v, 1
  {
    match v
    case Leaf(_) => true
    case Nil => true
    case Stale => false
    case Block(_, items) => TidyAll(items)
    case Group(items) => TidyAll(items)
    case Flagged(_, u) => Tidy(u)
    case Counted(_, u) => Tidy(u)
    case OneOf(_, u) => Tidy(u)
  }

  predicate TidyAll(vs: seq<Node>)
    decreases vs, 0
  {
    forall i :: 0 <= i < |vs| ==> Tidy(vs[i])
  }

  lemma {:induction false} TidyNotWild(v: Node)
    requires Tidy(v)
    ensures !Wild(v)
    decreases v, 1
  {
    match v
    case Leaf(_) =>
    case Nil =>
    case Block(_, items) => TidyNoneWild(items, |items|);
    case Group(items) => TidyNoneWild(items, |items|);
    case Flagged(_, u) => TidyNotWild(u);
    case Counted(count, u) =>
      if u.Group? {
        assert TidyAll(u.items);
        TidyNoneWild(u.items, count);
      } else {
        TidyNotWild(u);
      }
    case OneOf(_, u) => TidyNotWild(u);
  }

  lemma {:induction false} TidyNoneWild(vs: seq<Node>, n: nat)
    requires TidyAll(vs)
    ensures !WildAny(vs, n)
    decreases vs, 0
  {
    hide Tidy, Wild;
    forall i | 0 <= i < |vs|
      ensures !Wild(vs[i])
    {
      TidyNotWild(vs[i]);
    }
  }

  /** No array in the storage has elements beyond its count. */
  predicate AllCounted(v: Node)
    decreases v
  {
    match v
    case Leaf(_) => true
    case Nil => true
    case Stale => true
    case Block(_, items) => forall i :: 0 <= i < |items| ==> AllCounted(items[i])
    case Group(items) => forall i :: 0 <= i < |items| ==> AllCounted(items[i])
    case Flagged(_, u) => AllCounted(u)
    case Counted(count, u) => AllCounted(u) && (u.Group? ==> count >= |u.items|)
    case OneOf(_, u) => AllCounted(u)
  }

  /** Such elements are all that pb_release does not get at, whatever flags say. */
  lemma {:induction false} WildIfUntidy(v: Node)
    requires AllCounted(v)
    ensures Wild(v) <==> !Tidy(v)
    decreases v, 1
  {
    hide WildAny, TidyAll;
    match v
    case Leaf(_) =>
    case Nil =>
    case Stale =>
    case Block(_, items) => WildIfUntidyIn(items, |items|);
    case Group(items) => WildIfUntidyIn(items, |items|);
    case Flagged(_, u) => WildIfUntidy(u);
    case Counted(count, u) =>
      if u.Group? {
        WildIfUntidyIn(u.items, count);
        assert Tidy(v) <==> Tidy(u);
        GroupIs(u);
      } else {
        WildIfUntidy(u);
      }
    case OneOf(_, u) => WildIfUntidy(u);
  }

  lemma GroupIs(u: Node)
    requires u.Group?
    ensures Tidy(u) <==> TidyAll(u.items)
  {
  }

  lemma {:induction false} WildIfUntidyIn(vs: seq<Node>, n: nat)
    requires n >= |vs| && forall i :: 0 <= i < |vs| ==> AllCounted(vs[i])
    ensures WildAny(vs, n) <==> !TidyAll(vs)
    decreases vs, 0
  {
    hide Wild, Tidy, AllCounted;
    forall i | 0 <= i < |vs|
      ensures Wild(vs[i]) <==> !Tidy(vs[i])
    {
      WildIfUntidy(vs[i]);
    }
  }

  lemma {:induction false} BlankTidy(env: Env, id: nat)
    ensures TidyAll(Blank(env, id))
    decreases id, 1
  {
    hide Tidy, BlankCell;
    if id < |env| {
      forall k | 0 <= k < |env[id]|
        ensures Tidy(Blank(env, id)[k])
      {
        BlankCellTidy(env, id, k);
      }
    }
  }

  lemma {:induction false} BlankCellTidy(env: Env, id: nat, k: nat)
    requires id < |env| && k < |env[id]|
    ensures Tidy(BlankCell(env, id, k))
    decreases id, 0
  {
    hide Blank;
    var f := env[id][k];
    if f.lt == SUBMESSAGE && f.sub < id {
      BlankTidy(env, f.sub);
    }
    var v := BlankPlace(env, id, f);
    assert Tidy(v);
    assert Tidy(Group(seq(f.arraySize, _ => v)));
  }

  lemma {:induction false} ResetTidy(env: Env, id: nat, cells: seq<Node>)
    requires StructOk(env, id, cells) && TidyAll(cells)
    ensures TidyAll(Reset(env, id, cells))
    decreases cells, 1
  {
    hide CellOk, Tidy, ResetCell;
    forall k | 0 <= k < |cells|
      ensures Tidy(Reset(env, id, cells)[k])
    {
      ResetCellTidy(env, env[id], k, cells[k]);
    }
  }

  lemma {:induction false} ResetCellTidy(env: Env, F: Fields, k: nat, c: Node)
    requires k < |F| && CellOk(env, F, k, c) && Tidy(c)
    ensures Tidy(ResetCell(env, F, k, c))
    decreases c, 0
  {
    hide StructOk, Reset;
    var f := F[k];
    if !UnionTail(F, k) && f.ht != ONEOF && f.ht != REPEATED && f.at == STATIC && f.lt == SUBMESSAGE {
      var v := if HasField(f) then c.v else c;
      assert DataOk(env, f, v) && PlaceOk(env, f, v) && Tidy(v);
      ResetTidy(env, f.sub, v.items);
      assert Tidy(ResetPlace(env, f, v));
    } else if c.Counted? {
      assert Tidy(c.v);
    }
  }

  // ----- Tables for which no struct has them -----

  /** Somewhere in the storage of such a struct, unions and arrays included, there is a pointer. */
  predicate HasPointer(env: Env, id: nat)
    decreases id
  {
    id < |env| && exists k :: 0 <= k < |env[id]| && PointerMember(env, id, k)
  }

  predicate PointerMember(env: Env, id: nat, k: nat)
    requires id < |env| && k < |env[id]|
    decreases id, 0
  {
    var f := env[id][k];
    f.at == PTR || (f.lt == SUBMESSAGE && f.sub < id && HasPointer(env, f.sub))
  }

  /** Setting such a struct to defaults leaves pointers behind: it has, in place and outside unions, an
      array of submessages with pointers. */
  predicate Untidy(env: Env, id: nat)
    decreases id
  {
    id < |env| && exists k :: 0 <= k < |env[id]| && UntidyMember(env, id, k)
  }

  predicate UntidyMember(env: Env, id: nat, k: nat)
    requires id < |env| && k < |env[id]|
    decreases id, 0
  {
    var f := env[id][k];
    && f.at == STATIC && f.lt == SUBMESSAGE && f.sub < id && f.ht != ONEOF
    && if f.ht == REPEATED then HasPointer(env, f.sub) else Untidy(env, f.sub)
  }

  lemma {:induction false} NoPointerTidy(env: Env, id: nat, cells: seq<Node>)
    requires ValidEnv(env) && StructOk(env, id, cells) && !HasPointer(env, id)
    ensures TidyAll(cells)
    decreases id, 1
  {
    hide CellOk, Tidy;
    forall k | 0 <= k < |cells|
      ensures Tidy(cells[k])
    {
      NoPointerCell(env, id, k, cells[k]);
    }
  }

  lemma {:induction false} NoPointerCell(env: Env, id: nat, k: nat, c: Node)
    requires ValidEnv(env) && id < |env| && k < |env[id]| && CellOk(env, env[id], k, c) && !HasPointer(env, id)
    ensures Tidy(c)
    decreases id, 0, 2
  {
    hide StructOk, HasPointer, PlaceOk, FindTag;
    var F := env[id];
    if UnionTail(F, k) {
    } else if F[k].ht == ONEOF {
      var j := FindTag(F, c.which);
      if j.Some? {
        NoPointerData(env, id, j.value, c.v);
      }
    } else if FixedCount(F[k]) {
      NoPointerItems(env, id, k, F[k].arraySize, c);
    } else if F[k].ht == REPEATED {
      NoPointerItems(env, id, k, c.count, c.v);
    } else if HasField(F[k]) {
      NoPointerData(env, id, k, c.v);
    } else {
      NoPointerData(env, id, k, c);
    }
  }

  lemma {:induction false} NoPointerData(env: Env, id: nat, k: nat, v: Node)
    requires ValidEnv(env) && id < |env| && k < |env[id]| && !HasPointer(env, id) && DataOk(env, env[id][k], v)
    ensures Tidy(v)
    decreases id, 0, 1
  {
    hide PlaceOk;
    NotPointer(env, id, k);
    NoPointerPlace(env, id, k, v);
  }

  lemma NotPointer(env: Env, id: nat, k: nat)
    requires id < |env| && k < |env[id]| && !HasPointer(env, id)
    ensures env[id][k].at == STATIC && !PointerMember(env, id, k)
  {
    assert !PointerMember(env, id, k);
  }

  lemma {:induction false} NoPointerPlace(env: Env, id: nat, k: nat, v: Node)
    requires ValidEnv(env) && id < |env| && k < |env[id]| && !HasPointer(env, id) && PlaceOk(env, env[id][k], v)
    ensures Tidy(v)
    decreases id, 0, 0
  {
    hide StructOk;
    NotPointer(env, id, k);
    var f := env[id][k];
    assert ValidMessage(env, id) && ValidField(env, id, f);
    if f.lt == SUBMESSAGE {
      NoPointerTidy(env, f.sub, v.items);
    }
  }

  lemma {:induction false} NoPointerItems(env: Env, id: nat, k: nat, count: nat, v: Node)
    requires ValidEnv(env) && id < |env| && k < |env[id]| && !HasPointer(env, id) && RowOk(env, env[id][k], count, v)
    ensures Tidy(v)
    decreases id, 0, 1
  {
    NotPointer(env, id, k);
    StaticItems(env, env[id][k], count, v);
    hide PlaceOk, Tidy;
    forall i | 0 <= i < |v.items|
      ensures Tidy(v.items[i])
    {
      NoPointerPlace(env, id, k, v.items[i]);
    }
    GroupTidy(v);
  }

  lemma GroupTidy(v: Node)
    requires v.Group? && TidyAll(v.items)
    ensures Tidy(v)
  {
  }

  /** For the other tables defaulting leaves no pointer unset, whatever the memory held. */
  lemma {:induction false} DefaultsTidy(env: Env, id: nat, cells: seq<Node>)
    requires ValidEnv(env) && StructOk(env, id, cells) && !Untidy(env, id)
    ensures TidyAll(Reset(env, id, cells))
    decreases id, 2
  {
    hide CellOk, Tidy, ResetCell;
    forall k | 0 <= k < |cells|
      ensures Tidy(Reset(env, id, cells)[k])
    {
      DefaultsCellTidy(env, id, k, cells[k]);
    }
  }

  lemma {:induction false} DefaultsCellTidy(env: Env, id: nat, k: nat, c: Node)
    requires ValidEnv(env) && id < |env| && k < |env[id]| && CellOk(env, env[id], k, c) && !Untidy(env, id)
    ensures Tidy(ResetCell(env, env[id], k, c))
    decreases id, 1
  {
    hide StructOk, Reset, HasPointer, PlaceOk, Untidy;
    var F, f := env[id], env[id][k];
    assert ValidMessage(env, id) && ValidField(env, id, f);
    NotUntidy(env, id, k);
    if !UnionTail(F, k) && f.ht != ONEOF && f.at == STATIC {
      if FixedCount(f) {
        ArrayTidy(env, id, k, f.arraySize, c);
      } else if f.ht == REPEATED {
        ArrayTidy(env, id, k, c.count, c.v);
      } else {
        var v := if HasField(f) then c.v else c;
        assert DataOk(env, f, v);
        DefaultsPlaceTidy(env, id, k, v);
      }
    }
  }

  lemma NotUntidy(env: Env, id: nat, k: nat)
    requires id < |env| && k < |env[id]| && !Untidy(env, id)
    ensures !UntidyMember(env, id, k)
  {
  }

  lemma {:induction false} DefaultsPlaceTidy(env: Env, id: nat, k: nat, v: Node)
    requires ValidEnv(env) && id < |env| && k < |env[id]| && PlaceOk(env, env[id][k], v) && !UntidyMember(env, id, k)
    requires env[id][k].at == STATIC && env[id][k].ht != ONEOF && env[id][k].ht != REPEATED
    ensures Tidy(ResetPlace(env, env[id][k], v))
    decreases id, 0
  {
    hide StructOk, Reset, Untidy;
    var f := env[id][k];
    assert ValidMessage(env, id) && ValidField(env, id, f);
    if f.lt == SUBMESSAGE {
      DefaultsTidy(env, f.sub, v.items);
    }
  }

  lemma ArrayTidy(env: Env, id: nat, k: nat, count: nat, v: Node)
    requires ValidEnv(env) && id < |env| && k < |env[id]| && !UntidyMember(env, id, k)
    requires env[id][k].at == STATIC && env[id][k].ht == REPEATED && RowOk(env, env[id][k], count, v)
    ensures Tidy(v)
  {
    hide StructOk, HasPointer, Untidy;
    var f := env[id][k];
    assert ValidMessage(env, id) && ValidField(env, id, f);
    StaticItems(env, f, count, v);
    forall i | 0 <= i < |v.items|
      ensures Tidy(v.items[i])
    {
      assert PlaceOk(env, f, v.items[i]);
      if f.lt == SUBMESSAGE {
        NoPointerTidy(env, f.sub, v.items[i].items);
      }
    }
  }

  // ----- Inputs that make pb_decode free one -----

  /** The first field of `s` fails and leaves a pointer nobody has set where pb_release gets at it: in an
      element of a static array that was counted, but not set to defaults before its length turned out to
      be wrong. */
  predicate Trapped(env: Env, id: nat, cells: seq<Node>, s: Bytes)
    requires id < |env| && |cells| == |env[id]|
    decreases |s|, 2
  {
    var F, t := env[id], DecVarint32(s);
    && t.Ok? && t.v != 0 && FindTag(F, t.v / 8).Some?
    && var k := FindTag(F, t.v / 8).value;
       F[k].ht != ONEOF && F[k].at == STATIC && TrappedCell(env, F[k], cells[k], s[t.n..])
  }

  predicate TrappedCell(env: Env, f: Field, c: Node, s: Bytes)
    decreases |s|, 1
  {
    if FixedCount(f) then c.Group? && c.items != [] && TrappedPlace(env, f, c.items[0], s)
    else if f.ht == REPEATED then
      c.Counted? && c.v.Group? && c.count < |c.v.items| && TrappedPlace(env, f, c.v.items[c.count], s)
    else if HasField(f) then c.Flagged? && TrappedPlace(env, f, c.v, s)
    else TrappedPlace(env, f, c, s)
  }

  predicate TrappedPlace(env: Env, f: Field, v: Node, s: Bytes)
    decreases |s|, 0
  {
    var p := DecVarint32(s);
    && f.lt == SUBMESSAGE && v.Group?
    && if f.ht == REPEATED then Wild(v) && (p.Err? || |s| - p.n < p.v)
       else
         && f.sub < |env| && |v.items| == |env[f.sub]| && p.Ok? && p.v <= |s| - p.n
         && Trapped(env, f.sub, v.items, s[p.n..p.n + p.v])
  }

  lemma {:induction false} TidyNotTrapped(env: Env, id: nat, cells: seq<Node>, s: Bytes)
    requires id < |env| && |cells| == |env[id]| && TidyAll(cells)
    ensures !Trapped(env, id, cells, s)
    decreases |s|
  {
    hide DecVarint32, FindTag, Wild, HasField, FixedCount;
    var F, t := env[id], DecVarint32(s);
    if Trapped(env, id, cells, s) {
      var k := FindTag(F, t.v / 8).value;
      var f, c, body := F[k], cells[k], s[t.n..];
      assert TrappedCell(env, f, c, body);
      var v := if FixedCount(f) then c.items[0] else if f.ht == REPEATED then c.v.items[c.count]
               else if HasField(f) then c.v else c;
      assert TrappedPlace(env, f, v, body);
      assert Tidy(c) && (c.Counted? || c.Flagged? ==> Tidy(c.v));
      assert (c.Group? ==> TidyAll(c.items)) && (c.Counted? && c.v.Group? ==> TidyAll(c.v.items));
      assert Tidy(v);
      TidyNotWild(v);
      var p := DecVarint32(body);
      if f.ht != REPEATED {
        TidyNotTrapped(env, f.sub, v.items, body[p.n..p.n + p.v]);
      }
    }
  }

  /** Memory with a pointer nobody has set where pb_release gets at it. */
  lemma {:induction false} RawStruct(env: Env, id: nat) returns (cells: seq<Node>)
    requires ValidEnv(env) && HasPointer(env, id)
    ensures StructOk(env, id, cells) && OwnedAll(cells) == multiset{} && WildAny(cells, |cells|)
    decreases id
  {
    hide HasPointer, Blank, StructOk, OwnedAll, WildAny, Slots, Defaults;
    var k := PointerAt(env, id);
    var f := env[id][k];
    var v := Stale;
    if f.at == STATIC {
      var inner := RawStruct(env, f.sub);
      v := Group(inner);
    }
    var c := RawCell(env, id, k, v);
    BlankFresh(env, id);
    cells := Blank(env, id);
    PutRaw(env, id, cells, Loc(env[id], k), c);
    cells := cells[Loc(env[id], k) := c];
  }

  lemma PointerAt(env: Env, id: nat) returns (k: nat)
    requires HasPointer(env, id)
    ensures id < |env| && k < |env[id]| && PointerMember(env, id, k)
  {
    k :| k < |env[id]| && PointerMember(env, id, k);
  }

  /** A cell that owns nothing put into a fresh struct. */
  lemma PutRaw(env: Env, id: nat, cells: seq<Node>, l: nat, c: Node)
    requires StructOk(env, id, cells) && OwnedAll(cells) == multiset{} && l < |cells|
    requires CellOk(env, env[id], l, c) && Owned(c) == multiset{}
    ensures StructOk(env, id, cells[l := c]) && OwnedAll(cells[l := c]) == multiset{}
    ensures Wild(c) ==> WildAny(cells[l := c], |cells|)
  {
    hide CellOk, Owned, OwnedAll, Wild;
    PutCell(env, id, cells, l, c);
    OwnsNothing(cells);
    OwnsNothing(cells[l := c]);
    assert cells[l := c][l] == c;
  }

  /** A cell in use, whatever its field stores, around a stray pointer. */
  lemma RawCell(env: Env, id: nat, k: nat, v: Node) returns (c: Node)
    requires ValidEnv(env) && id < |env| && k < |env[id]|
    requires Wild(v) && Owned(v) == multiset{}
    requires if env[id][k].at == PTR then v.Stale? else env[id][k].lt == SUBMESSAGE && PlaceOk(env, env[id][k], v)
    ensures CellOk(env, env[id], Loc(env[id], k), c) && Owned(c) == multiset{} && Wild(c)
  {
    hide StructOk, PlaceOk, OwnedAll, WildAny;
    var F, f := env[id], env[id][k];
    assert ValidMessage(env, id) && ValidField(env, id, f);
    FindUnique(env, id, k);
    assert DataOk(env, f, v);
    if f.ht == ONEOF {
      c := OneOf(f.tag, v);
    } else if f.ht == REPEATED {
      if f.at == PTR {
        c := Counted(1, v);
        assert RowOk(env, f, 1, v);
      } else if FixedCount(f) {
        c := RawRow(env, f, v, f.arraySize);
        c := c.v;
      } else {
        c := RawRow(env, f, v, 1);
      }
    } else if HasField(f) {
      c := Flagged(true, v);
    } else {
      c := v;
    }
  }

  /** A static array of such elements. */
  lemma RawRow(env: Env, f: Field, v: Node, count: nat) returns (c: Node)
    requires f.at == STATIC && f.arraySize >= 1 && PlaceOk(env, f, v) && Owned(v) == multiset{} && Wild(v)
    ensures c == Counted(count, Group(seq(f.arraySize, _ => v)))
    ensures RowOk(env, f, count, c.v) && Owned(c) == Owned(c.v) == multiset{} && (count >= 1 ==> Wild(c) && Wild(c.v))
  {
    hide PlaceOk, OwnedAll, Wild;
    var items := seq(f.arraySize, _ => v);
    c := Counted(count, Group(items));
    assert ItemOk(env, f, v);
    OwnsNothing(items);
    assert Owned(c) == Owned(c.v) == OwnedAll(items);
    WildCounted(count, items);
    assert items[0] == v;
  }

  lemma WildCounted(count: nat, items: seq<Node>)
    ensures Wild(Counted(count, Group(items))) <==> WildAny(items, count)
    ensures Wild(Group(items)) <==> WildAny(items, |items|)
  {
  }

  lemma UntidyAt(env: Env, id: nat) returns (k: nat)
    requires Untidy(env, id)
    ensures id < |env| && k < |env[id]| && UntidyMember(env, id, k)
  {
    k :| k < |env[id]| && UntidyMember(env, id, k);
  }

  /** For the other tables there are memory and input that make it do so; the bound on their number keeps
      the length of the input within 32 bits. */
  lemma {:induction false} TrapStruct(env: Env, id: nat) returns (cells: seq<Node>, s: Bytes)
    requires ValidEnv(env) && Untidy(env, id) && id < 0x1000_0000
    ensures StructOk(env, id, cells) && OwnedAll(cells) == multiset{}
    ensures id < |env| && Trapped(env, id, Reset(env, id, cells), s) && |s| <= 10 * (id + 1)
    decreases id, 1
  {
    hide Untidy, Blank, StructOk, OwnedAll, Slots, Defaults, Reset, Trapped, TrappedCell, CellOk, ResetCell;
    var k := UntidyAt(env, id);
    var c, body;
    c, body := TrapCell(env, id, k);
    BlankFresh(env, id);
    PutRaw(env, id, Blank(env, id), k, c);
    cells := Blank(env, id)[k := c];
    s := TrapTag(env, id, cells, k, body);
  }

  /** The trapped cell behind its tag. */
  lemma TrapTag(env: Env, id: nat, cells: seq<Node>, k: nat, body: Bytes) returns (s: Bytes)
    requires ValidEnv(env) && id < |env| && k < |env[id]| && UntidyMember(env, id, k)
    requires StructOk(env, id, cells)
    requires CellOk(env, env[id], k, cells[k]) && TrappedCell(env, env[id][k], ResetCell(env, env[id], k, cells[k]), body)
    ensures Trapped(env, id, Reset(env, id, cells), s) && |s| <= 5 + |body|
  {
    hide TrappedCell, CellOk, ResetCell, EncVarint, DecVarint32, FindTag, HasPointer, Untidy;
    var f := env[id][k];
    assert ValidMessage(env, id) && ValidField(env, id, f);
    FindUnique(env, id, k);
    var t := f.tag * 8 + WT_STRING;
    RoundTrip32(t, body);
    EncSizes(t);
    s := EncVarint(t) + body;
    assert s[|EncVarint(t)|..] == body;
    assert Reset(env, id, cells)[k] == ResetCell(env, env[id], k, cells[k]);
  }

  lemma {:induction false} TrapCell(env: Env, id: nat, k: nat) returns (c: Node, body: Bytes)
    requires ValidEnv(env) && id < |env| && k < |env[id]| && UntidyMember(env, id, k) && id < 0x1000_0000
    ensures CellOk(env, env[id], k, c) && Owned(c) == multiset{}
    ensures TrappedCell(env, env[id][k], ResetCell(env, env[id], k, c), body) && |body| <= 5 + 10 * id
    decreases id, 0
  {
    hide HasPointer, Untidy, StructOk, OwnedAll, Reset, Trapped, WildAny;
    var F, f := env[id], env[id][k];
    assert ValidMessage(env, id) && ValidField(env, id, f);
    if f.ht == REPEATED {
      var inner := RawStruct(env, f.sub);
      c := RawRow(env, f, Group(inner), if FixedCount(f) then f.arraySize else 0);
      assert c.v.items[0] == Group(inner);
      c := if FixedCount(f) then c.v else c;
      body := [0x7F];
      TrapLength();
    } else {
      var inner, s := TrapStruct(env, f.sub);
      var v := Group(inner);
      assert PlaceOk(env, f, v) && DataOk(env, f, v);
      c := if HasField(f) then Flagged(true, v) else v;
      body := Prefixed(s);
      TrapBody(env, f, inner, s);
    }
  }

  lemma TrapLength()
    ensures DecVarint32([0x7F]) == Ok(0x7F, 1)
  {
    RoundTrip32(0x7F, []);
    assert EncVarint(0x7F) + [] == [0x7F];
  }

  lemma TrapBody(env: Env, f: Field, inner: seq<Node>, s: Bytes)
    requires f.lt == SUBMESSAGE && f.ht != REPEATED && StructOk(env, f.sub, inner) && |s| < TWO_32
    requires Trapped(env, f.sub, Reset(env, f.sub, inner), s)
    ensures TrappedPlace(env, f, Group(Reset(env, f.sub, inner)), Prefixed(s)) && |Prefixed(s)| <= 5 + |s|
  {
    hide Trapped, EncVarint, DecVarint32, Reset;
    RoundTrip32(|s|, s);
    EncSizes(|s|);
    var n := |EncVarint(|s|)|;
    assert Prefixed(s)[n..n + |s|] == s;
  }

  /** The tables for which pb_decode never frees a pointer nobody has set, whatever the memory held. */
  lemma TrapsExactly(env: Env, id: nat)
    requires ValidEnv(env) && id < |env| && id < 0x1000_0000
    ensures Untidy(env, id) <==>
            exists cells, s ::
              StructOk(env, id, cells) && OwnedAll(cells) == multiset{} && Trapped(env, id, Reset(env, id, cells), s)
  {
    hide Untidy, CellOk, OwnedAll, Reset, Trapped, TidyAll;
    if Untidy(env, id) {
      var cells, s := TrapStruct(env, id);
    } else {
      forall cells, s | StructOk(env, id, cells)
        ensures !Trapped(env, id, Reset(env, id, cells), s)
      {
        SameLength(env, id, cells);
        DefaultsTidy(env, id, cells);
        TidyNotTrapped(env, id, Reset(env, id, cells), s);
      }
    }
  }

  /** A message with a string behind a pointer, and one with an array of a single such message in place. */
  const SAMPLE: Env := [[Field(1, STRING, OPTIONAL, PTR, 0, 0, PTR_SIZE, 0, 0, None)],
                        [Field(1, SUBMESSAGE, REPEATED, STATIC, 8, -8, PTR_SIZE, 1, 0, None)]]

  /** The second message in memory nobody has cleared. */
  const RAW_SAMPLE: seq<Node> := [Counted(0, Group([Group([Stale])]))]

  /** Its array announces 127 bytes, and none follows. */
  const SAMPLE_INPUT: Bytes := [0x0A, 0x7F]

  lemma SampleTrapped()
    ensures ValidEnv(SAMPLE) && StructOk(SAMPLE, 1, RAW_SAMPLE) && OwnedAll(RAW_SAMPLE) == multiset{}
    ensures Untidy(SAMPLE, 1) && Trapped(SAMPLE, 1, Reset(SAMPLE, 1, RAW_SAMPLE), SAMPLE_INPUT)
  {
    hide FindTag, Trapped, TrappedCell, CellOk, Owned, Wild;
    SampleTables();
    SampleOk();
    assert PointerMember(SAMPLE, 0, 0) && UntidyMember(SAMPLE, 1, 0);
    assert Reset(SAMPLE, 1, RAW_SAMPLE) == RAW_SAMPLE by {
      assert Reset(SAMPLE, 1, RAW_SAMPLE)[0] == ResetCell(SAMPLE, SAMPLE[1], 0, RAW_SAMPLE[0]) == RAW_SAMPLE[0];
    }
    SampleRecord();
  }

  lemma SampleTables()
    ensures ValidEnv(SAMPLE)
  {
    assert ValidMessage(SAMPLE, 0) && ValidMessage(SAMPLE, 1);
  }

  lemma SampleRecord()
    ensures Trapped(SAMPLE, 1, RAW_SAMPLE, SAMPLE_INPUT)
  {
    hide DecVarint32, FindTag, ValidEnv;
    SampleTables();
    FindUnique(SAMPLE, 1, 0);
    RoundTrip32(10, [0x7F]);
    assert EncVarint(10) + [0x7F] == SAMPLE_INPUT && SAMPLE_INPUT[1..] == [0x7F];
    TrapLength();
    assert WildAny([Stale], 1) by {
      assert Wild([Stale][0]);
    }
    assert TrappedPlace(SAMPLE, SAMPLE[1][0], Group([Stale]), [0x7F]);
  }

  lemma SampleOk()
    ensures StructOk(SAMPLE, 1, RAW_SAMPLE) && OwnedAll(RAW_SAMPLE) == multiset{}
  {
    hide CellOk, Owned, OwnedAll;
    SampleElement();
    SampleArray([Group([Stale])]);
    OwnsNothing(RAW_SAMPLE);
  }

  lemma SampleElement()
    ensures StructOk(SAMPLE, 0, [Stale]) && Owned(Group([Stale])) == multiset{}
  {
    assert DataOk(SAMPLE, SAMPLE[0][0], Stale);
    OwnsNothing([Stale]);
  }

  lemma SampleArray(items: seq<Node>)
    requires |items| == 1 && items[0] == Group([Stale]) && StructOk(SAMPLE, 0, [Stale]) && Owned(items[0]) == multiset{}
    ensures CellOk(SAMPLE, SAMPLE[1], 0, Counted(0, Group(items))) && Owned(Counted(0, Group(items))) == multiset{}
  {
    hide StructOk, OwnedAll;
    assert PlaceOk(SAMPLE, SAMPLE[1][0], items[0]) && ItemOk(SAMPLE, SAMPLE[1][0], items[0]);
    OwnsNothing(items);
    assert Owned(Group(items)) == OwnedAll(items);
    assert RowOk(SAMPLE, SAMPLE[1][0], 0, Group(items));
  }
}
