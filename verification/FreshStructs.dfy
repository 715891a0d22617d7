/** Structs as pb_message_set_to_defaults leaves them. */
module FreshStructs {
  import opened Schema
  import opened Ownership

  // ----- The message in the storage -----

  function PlaceValue(env: Env, f: Field, v: Node): Value
    decreases v, 0
  {
    if v.Leaf? then v.data
    else if v.Group? && f.sub < |env| && |v.items| == |env[f.sub]| then Msg(Slots(env, f.sub, v.items))
    else Null
  }

  function DataValue(env: Env, f: Field, v: Node): Value
    decreases v, 1
  {
    if f.at == STATIC then PlaceValue(env, f, v)
    else if v.Block? && |v.items| == 1 then PlaceValue(env, f, v.items[0])
    else Null
  }

  function ItemValue(env: Env, f: Field, v: Node): Value
    decreases v, 2
  {
    if f.at == PTR && TextType(f.lt) then DataValue(env, f, v) else PlaceValue(env, f, v)
  }

  function ItemValues(env: Env, f: Field, items: seq<Node>): (r: seq<Value>)
    ensures |r| == |items|
    decreases items
  {
    seq(|items|, i requires 0 <= i < |items| => ItemValue(env, f, items[i]))
  }

  /** The counted elements of an array. */
  function Elements(count: nat, v: Node): (r: seq<Node>)
    ensures |r| <= count
  {
    var items := if v.Block? || v.Group? then v.items else [];
    if count < |items| then items[..count] else items
  }

  function CellSlot(env: Env, F: Fields, k: nat, c: Node): Slot
    requires k < |F|
    decreases c, 3
  {
    var f := F[k];
    if UnionTail(F, k) then Shared
    else if f.ht == ONEOF then
      if !c.OneOf? then Shared
      else Union(c.which, match FindTag(F, c.which) case Some(j) => DataValue(env, F[j], c.v) case None => Null)
    else if f.ht == REPEATED then
      if !c.Counted? then Shared
      else
        var n := |Elements(c.count, c.v)|;
        Arr(seq(n, i requires 0 <= i < n => ItemValue(env, f, Elements(c.count, c.v)[i])))
    else if HasField(f) then
      if !c.Flagged? then Shared else Opt(c.has, DataValue(env, f, c.v))
    else Plain(DataValue(env, f, c))
  }

  /** The message a struct holds. */
  function Slots(env: Env, id: nat, cells: seq<Node>): (r: seq<Slot>)
    requires id < |env| && |cells| == |env[id]|
    ensures |r| == |cells|
    decreases cells
  {
    seq(|cells|, k requires 0 <= k < |cells| => CellSlot(env, env[id], k, cells[k]))
  }

  lemma SlotsPut(env: Env, id: nat, cells: seq<Node>, l: nat, c: Node)
    requires id < |env| && |cells| == |env[id]| && l < |cells|
    ensures Slots(env, id, cells)[l] == CellSlot(env, env[id], l, cells[l])
    ensures Slots(env, id, cells[l := c]) == Slots(env, id, cells)[l := CellSlot(env, env[id], l, c)]
  {
    hide CellSlot;
  }

  lemma RowSlot(env: Env, F: Fields, k: nat, c: Node)
    requires k < |F| && F[k].ht == REPEATED && c.Counted?
    ensures CellSlot(env, F, k, c) == Arr(ItemValues(env, F[k], Elements(c.count, c.v)))
  {
    hide ItemValue;
  }

  lemma SameLength(env: Env, id: nat, cells: seq<Node>)
    requires StructOk(env, id, cells)
    ensures id < |env| && |cells| == |env[id]|
  {
  }

  // ----- Fresh structs -----

  /** A struct cleared with memset and then set to defaults. */
  function Blank(env: Env, id: nat): (r: seq<Node>)
    ensures id < |env| ==> |r| == |env[id]|
    decreases id, 2
  {
    if id >= |env| then []
    else seq(|env[id]|, k requires 0 <= k < |env[id]| => BlankCell(env, id, k))
  }

  function BlankCell(env: Env, id: nat, k: nat): Node
    requires id < |env| && k < |env[id]|
    decreases id, 1
  {
    var f := env[id][k];
    if UnionTail(env[id], k) then HOLE
    else if f.ht == ONEOF then OneOf(0, Nil)
    else if FixedCount(f) then Group(seq(f.arraySize, _ => BlankPlace(env, id, f)))
    else if f.ht == REPEATED then
      Counted(0, if f.at == PTR then Nil else Group(seq(f.arraySize, _ => BlankPlace(env, id, f))))
    else if f.at == PTR then Nil
    else if HasField(f) then Flagged(false, BlankPlace(env, id, f))
    else BlankPlace(env, id, f)
  }

  /** The default of a scalar stored in place. */
  function DefaultData(f: Field): Value
  {
    match f.dflt case Some(v) => v case None => ZeroValue(f)
  }

  function BlankPlace(env: Env, id: nat, f: Field): Node
    decreases id, 0
  {
    if f.lt == SUBMESSAGE then Group(if f.sub < id then Blank(env, f.sub) else []) else Leaf(DefaultData(f))
  }

  /** The struct owns nothing. Without fixed-count arrays, which keep what they held, it can be released
      and holds the default message. */
  ghost predicate IsFresh(env: Env, id: nat, cells: seq<Node>)
  {
    && StructOk(env, id, cells) && OwnedAll(cells) == multiset{}
    && (CountedEnv(env) ==> !WildAny(cells, |cells|) && Slots(env, id, cells) == Defaults(env, id))
  }

  ghost predicate CellFresh(env: Env, id: nat, k: nat, c: Node)
    requires id < |env| && k < |env[id]|
  {
    && CellOk(env, env[id], k, c) && Owned(c) == multiset{}
    && (CountedEnv(env) ==> !Wild(c) && CellSlot(env, env[id], k, c) == DefaultSlot(env, id, k))
  }

  lemma AllFresh(env: Env, id: nat, cells: seq<Node>)
    requires id < |env| && |cells| == |env[id]|
    requires forall k :: 0 <= k < |cells| ==> CellFresh(env, id, k, cells[k])
    ensures IsFresh(env, id, cells)
  {
    hide CellOk, CellSlot, Owned, Wild, DefaultSlot, CountedEnv;
    OwnsNothing(cells);
  }

  /** A value in place that is fresh. */
  ghost predicate PlaceFresh(env: Env, id: nat, f: Field, v: Node)
  {
    && PlaceOk(env, f, v) && Owned(v) == multiset{}
    && (CountedEnv(env) ==> !Wild(v) && (f.at == STATIC ==> PlaceValue(env, f, v) == DefaultValue(env, id, f)))
  }

  /** A cell around fresh contents, with its companion cleared, is fresh. */
  lemma FreshCell(env: Env, id: nat, k: nat, c: Node)
    requires ValidEnv(env) && id < |env| && k < |env[id]|
    requires var F, f := env[id], env[id][k];
             if UnionTail(F, k) then c.Leaf?
             else if f.ht == ONEOF then c == OneOf(0, Nil)
             else if FixedCount(f) then c.Group? && RowOk(env, f, f.arraySize, c) && Owned(c) == multiset{}
             else if f.ht == REPEATED then
               && c.Counted? && c.count == 0
               && if f.at == PTR then c.v.Nil? else RowOk(env, f, 0, c.v)
             else if f.at == PTR then c.Nil?
             else if HasField(f) then c.Flagged? && !c.has && PlaceFresh(env, id, f, c.v)
             else PlaceFresh(env, id, f, c)
    ensures CellFresh(env, id, k, c)
  {
    hide StructOk, OwnedAll, Slots, PlaceOk, Defaults;
    var F, f := env[id], env[id][k];
    assert ValidMessage(env, id);
    if UnionTail(F, k) {
    } else if FixedCount(f) {
    } else if f.ht == ONEOF {
      assert FindTag(F, 0).None?;
      assert CellSlot(env, F, k, c) == Union(0, Null) == DefaultSlot(env, id, k);
    } else if f.ht == REPEATED {
      RowSlot(env, F, k, c);
      assert Elements(0, c.v) == [];
      assert CellSlot(env, F, k, c) == Arr([]) == DefaultSlot(env, id, k);
      if f.at == STATIC {
        OwnsNothing(c.v.items);
        assert Owned(c.v) == OwnedAll(c.v.items);
        assert !WildAny(c.v.items, 0);
      }
      assert Owned(c) == Owned(c.v) == multiset{};
      assert RowOk(env, f, 0, c.v);
    } else if HasField(f) {
      assert DataOk(env, f, c.v);
      assert CountedEnv(env) ==> DataValue(env, f, c.v) == DefaultValue(env, id, f);
      assert CellSlot(env, F, k, c) == Opt(false, DataValue(env, f, c.v));
    } else {
      assert DataOk(env, f, c);
      assert CountedEnv(env) ==> DataValue(env, f, c) == DefaultValue(env, id, f);
      assert CellSlot(env, F, k, c) == Plain(DataValue(env, f, c));
    }
  }

  lemma {:induction false} BlankFresh(env: Env, id: nat)
    requires ValidEnv(env) && id < |env|
    ensures IsFresh(env, id, Blank(env, id))
    decreases id, 2
  {
    hide StructOk, OwnedAll, IsFresh, CellFresh, BlankCell;
    forall k | 0 <= k < |env[id]|
      ensures CellFresh(env, id, k, Blank(env, id)[k])
    {
      BlankCellFresh(env, id, k);
    }
    AllFresh(env, id, Blank(env, id));
  }

  lemma {:induction false} BlankCellFresh(env: Env, id: nat, k: nat)
    requires ValidEnv(env) && id < |env| && k < |env[id]|
    ensures CellFresh(env, id, k, BlankCell(env, id, k))
    decreases id, 1
  {
    hide PlaceOk, PlaceFresh, BlankPlace, CellFresh, Owned;
    var f := env[id][k];
    assert ValidMessage(env, id) && ValidField(env, id, f);
    if f.at == STATIC && f.ht != ONEOF {
      BlankPlaceFresh(env, id, k);
      if f.ht == REPEATED {
        BlankRow(env, id, k);
      }
    }
    FreshCell(env, id, k, BlankCell(env, id, k));
  }

  lemma BlankRow(env: Env, id: nat, k: nat)
    requires id < |env| && k < |env[id]| && env[id][k].at == STATIC
    requires PlaceFresh(env, id, env[id][k], BlankPlace(env, id, env[id][k]))
    ensures var f := env[id][k];
            var c := Group(seq(f.arraySize, _ => BlankPlace(env, id, f)));
            RowOk(env, f, 0, c) && RowOk(env, f, f.arraySize, c) && Owned(c) == multiset{}
  {
    hide PlaceOk, BlankPlace, OwnedAll;
    var f := env[id][k];
    assert ItemOk(env, f, BlankPlace(env, id, f));
    OwnsNothing(seq(f.arraySize, _ => BlankPlace(env, id, f)));
  }

  lemma {:induction false} BlankPlaceFresh(env: Env, id: nat, k: nat)
    requires ValidEnv(env) && id < |env| && k < |env[id]| && env[id][k].at == STATIC
    ensures PlaceFresh(env, id, env[id][k], BlankPlace(env, id, env[id][k]))
    decreases id, 0
  {
    hide StructOk, OwnedAll, Slots, Blank, Defaults;
    var f := env[id][k];
    assert ValidMessage(env, id) && ValidField(env, id, f);
    if f.lt == SUBMESSAGE {
      BlankFresh(env, f.sub);
    }
  }

  /** pb_message_set_to_defaults over whatever the memory holds: the elements of static arrays and the
      contents of unions are left alone. */
  function Reset(env: Env, id: nat, cells: seq<Node>): (r: seq<Node>)
    requires StructOk(env, id, cells)
    ensures |r| == |cells|
    decreases cells, 1
  {
    seq(|cells|, k requires 0 <= k < |cells| => ResetCell(env, env[id], k, cells[k]))
  }

  function ResetCell(env: Env, F: Fields, k: nat, c: Node): Node
    requires k < |F| && CellOk(env, F, k, c)
    decreases c, 2
  {
    if UnionTail(F, k) then c
    else if F[k].ht == ONEOF then OneOf(0, Nil)
    else if FixedCount(F[k]) then c
    else if F[k].ht == REPEATED then Counted(0, if F[k].at == PTR then Nil else c.v)
    else if F[k].at == PTR then Nil
    else if HasField(F[k]) then
      assert DataOk(env, F[k], c.v) && PlaceOk(env, F[k], c.v);
      Flagged(false, ResetPlace(env, F[k], c.v))
    else
      assert DataOk(env, F[k], c) && PlaceOk(env, F[k], c);
      ResetPlace(env, F[k], c)
  }

  function ResetPlace(env: Env, f: Field, v: Node): Node
    requires PlaceOk(env, f, v)
    decreases v, 1
  {
    if f.lt == SUBMESSAGE then Group(Reset(env, f.sub, v.items)) else Leaf(DefaultData(f))
  }

  lemma {:induction false} ResetFresh(env: Env, id: nat, cells: seq<Node>)
    requires ValidEnv(env) && StructOk(env, id, cells) && OwnedAll(cells) == multiset{}
    ensures IsFresh(env, id, Reset(env, id, cells))
    decreases cells, 2
  {
    hide OwnedAll, CellOk, ValidEnv, ResetCell, CellFresh, IsFresh;
    OwnsNothing(cells);
    var r := Reset(env, id, cells);
    forall k | 0 <= k < |cells|
      ensures CellFresh(env, id, k, r[k])
    {
      ResetCellFresh(env, id, k, cells[k]);
    }
    AllFresh(env, id, r);
  }

  lemma {:induction false} ResetCellFresh(env: Env, id: nat, k: nat, c: Node)
    requires ValidEnv(env) && id < |env| && k < |env[id]| && CellOk(env, env[id], k, c) && Owned(c) == multiset{}
    ensures CellFresh(env, id, k, ResetCell(env, env[id], k, c))
    decreases c, 1
  {
    hide PlaceOk, PlaceFresh, ResetPlace, CellFresh, OwnedAll, RowOk;
    var F, f := env[id], env[id][k];
    assert ValidMessage(env, id) && ValidField(env, id, f);
    if !UnionTail(F, k) && f.ht != ONEOF && f.at == STATIC && !FixedCount(f) {
      if f.ht == REPEATED {
        RowReset(env, f, c.count, c.v);
      } else if HasField(f) {
        assert DataOk(env, f, c.v);
        ResetPlaceFresh(env, id, k, c.v);
      } else {
        assert DataOk(env, f, c);
        ResetPlaceFresh(env, id, k, c);
      }
    }
    FreshCell(env, id, k, ResetCell(env, F, k, c));
  }

  lemma RowReset(env: Env, f: Field, count: nat, v: Node)
    requires f.at == STATIC && RowOk(env, f, count, v) && Owned(v) == multiset{}
    ensures RowOk(env, f, 0, v)
  {
    hide PlaceOk;
    OwnsNothing(v.items);
  }

  lemma {:induction false} ResetPlaceFresh(env: Env, id: nat, k: nat, v: Node)
    requires ValidEnv(env) && id < |env| && k < |env[id]| && env[id][k].at == STATIC
    requires PlaceOk(env, env[id][k], v) && Owned(v) == multiset{}
    ensures PlaceFresh(env, id, env[id][k], ResetPlace(env, env[id][k], v))
    decreases v, 0
  {
    hide StructOk, OwnedAll, Slots, Reset, Defaults;
    var f := env[id][k];
    assert ValidMessage(env, id) && ValidField(env, id, f);
    if f.lt == SUBMESSAGE {
      ResetFresh(env, f.sub, v.items);
    }
  }
}
