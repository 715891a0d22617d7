/** pb_decode with dynamic storage: what it allocates is owned by the struct at every step, a failure
    leaves nothing behind, and unless an allocation is refused it computes what the codec specifies. */
module OwnedDecoder {
  import opened Bits
  import opened Varint
  import opened Schema
  import opened Wrappers
  import opened DecodeSpec
  import opened DecodeSteps
  import opened Allocation
  import opened Ownership
  import opened FreshStructs
  import opened StrayPointers

  // ----- What the decoding methods promise -----

  /** Success is what the specification computes; failure is the specification's, or the heap's. */
  ghost predicate Fulfils<T>(spec: Parse<T>, ok: bool, v: T, n: nat, failed: bool)
  {
    if ok then spec == Ok(v, n) else spec.Err? || failed
  }

  /** No stray pointer has been freed, pb_release of `r` frees none either, and a success leaves none. */
  ghost predicate Clean(r: Node, ok: bool, before: bool, after: bool)
  {
    !Wild(r) && after == before && (ok ==> Tidy(r))
  }

  /** What a decoder makes of storage `c`: after a success pb_release of the result `r` frees nothing it
      must not, and all is clean if no stray pointer lay in `c` to begin with. */
  ghost predicate Steady(c: Node, r: Node, ok: bool, before: bool, after: bool)
  {
    (before ==> after) && (ok ==> !Wild(r)) && (Tidy(c) ==> Clean(r, ok, before, after))
  }

  /** DecField as far as one slot is concerned. */
  function DecSlot(env: Env, F: Fields, k: nat, slot: Slot, wt: nat, s: Bytes): (r: Parse<Slot>)
    requires k < |F|
    ensures r.Ok? ==> 1 <= r.n <= |s|
  {
    var f := F[k];
    if f.ht == REPEATED && wt == WT_STRING && Packable(f.lt) then
      var run := PackedRun(f, Room(f, slot, 0), s);
      if run.Ok? then Ok(Stored(f, slot, 0, run.v), run.n) else Err
    else if !Admits(F, f, slot, 0) then Err
    else
      var d := DecValue(env, f, Base(env, f, slot), s);
      if d.Ok? then Ok(Stored(f, slot, 0, [d.v]), d.n) else Err
  }

  lemma FieldOfSlot(env: Env, id: nat, p: Progress, k: nat, wt: nat, s: Bytes)
    requires id < |env| && k < |env[id]| && |p.slots| == |env[id]| && p.fixedSize == 0
    requires !FixedCount(env[id][k]) && Shaped(env[id][k], p.slots[Loc(env[id], k)])
    requires UnionNamesMember(env[id], k, p.slots[Loc(env[id], k)])
    ensures var l := Loc(env[id], k);
            var d := DecSlot(env, env[id], k, p.slots[l], wt, s);
            DecField(env, id, p, k, wt, s) == if d.Ok? then Ok(p.(slots := p.slots[l := d.v]), d.n) else Err
  {
    hide DecField, DecValue, PackedRun, Base, Admits, Shaped, Room, Stored, Cleared;
    if env[id][k].ht == REPEATED && wt == WT_STRING && Packable(env[id][k].lt) {
      PackedField(env, id, p, k, s);
    } else {
      NothingCleared(env, env[id], p, k);
      SingleField(env, id, p, k, wt, s);
    }
  }

  /** The which_ member of a union names one of its members, or nothing. */
  predicate UnionNamesMember(F: Fields, k: nat, slot: Slot)
    requires k < |F|
  {
    F[k].ht == ONEOF ==>
      slot.Union? && (slot.which == 0 || FindTag(F, slot.which).None? || Loc(F, FindTag(F, slot.which).value) == Loc(F, k))
  }

  /** Of the other members of a union only the fact that they are there matters. */
  lemma UnionSlot(env: Env, F: Fields, k: nat, a: Slot, b: Slot, wt: nat, s: Bytes)
    requires k < |F| && F[k].ht == ONEOF && a.Union? && b.Union? && a.which == b.which
    requires a.which == F[k].tag ==> a == b
    ensures DecSlot(env, F, k, a, wt, s) == DecSlot(env, F, k, b, wt, s)
  {
    hide DecValue, PackedRun, FindTag, Defaults;
  }

  lemma {:induction false} ShapedSlot(env: Env, id: nat, cells: seq<Node>, k: nat)
    requires CountedEnv(env) && StructOk(env, id, cells) && !WildAny(cells, |cells|) && k < |cells|
    ensures Shaped(env[id][k], Slots(env, id, cells)[Loc(env[id], k)])
    ensures UnionNamesMember(env[id], k, Slots(env, id, cells)[Loc(env[id], k)])
  {
    hide RowOk, DataOk, FindTag, ItemValue, DataValue;
    var F, l := env[id], Loc(env[id], k);
    assert ValidMessage(env, id) && ValidField(env, id, F[k]) && !FixedCount(F[k]);
    CellAt(env, id, cells, l);
    CellKind(env, F, l, cells[l]);
    if F[k].ht == REPEATED {
      RowSlot(env, F, k, cells[k]);
      NotWildAt(cells, k);
      RowNotStale(cells[k]);
      RowFits(env, F[k], cells[k].count, cells[k].v);
    }
  }

  lemma RowFits(env: Env, f: Field, count: nat, v: Node)
    requires RowOk(env, f, count, v) && !v.Stale?
    ensures |Elements(count, v)| == if f.at == STATIC && count > f.arraySize then f.arraySize else count
    ensures f.at == PTR ==> count <= PB_SIZE_MAX
    ensures v.Nil? || v.Block? || v.Group?
  {
    hide ItemOk;
  }

  // ----- Storage -----

  /** allocate_field: make room for `n` elements behind a pointer; a failure leaves the pointer alone. */
  method Reserve(h: Heap, p: Node, dataSize: nat, n: nat, ghost frame: multiset<nat>) returns (ok: bool, q: Node)
    requires (p.Nil? || p.Block?) && h.Holds(Owned(p) + frame)
    requires 1 <= dataSize <= SIZE_MAX && 1 <= n <= SIZE_MAX && dataSize * n <= SIZE_MAX
    modifies h
    ensures h.Holds(Owned(q) + frame) && h.failed == (old(h.failed) || !ok) && h.wild == old(h.wild)
    ensures if ok then q.Block? && q.items == (if p.Block? then p.items else []) else q == p
  {
    q := p;
    ok := AllocateField(dataSize, n);
    ghost var inside := if p.Block? then OwnedAll(p.items) else multiset{};
    assert Owned(p) + frame == (if p.Block? then multiset{p.b} else multiset{}) + (inside + frame);
    var b;
    ok, b := h.Realloc(p, inside + frame);
    if ok {
      q := Block(b, if p.Block? then p.items else []);
      assert Owned(q) + frame == multiset{b} + (inside + frame);
    }
  }

  /** pb_dec_bytes and pb_dec_string into dynamic storage. */
  method DecodeText(h: Heap, f: Field, p: Node, s: Bytes, ghost frame: multiset<nat>) returns (ok: bool, q: Node, n: nat)
    requires f.at == PTR && TextType(f.lt) && Text(p) && h.Holds(Owned(p) + frame)
    modifies h
    ensures Text(q) && h.Holds(Owned(q) + frame) && (old(h.failed) ==> h.failed) && h.wild == old(h.wild)
    ensures Fulfils(DecBasic(f, s), ok, if q.Block? then q.items[0].data else Null, n, h.failed)
  {
    hide DecVarint32, Owned;
    ok, q, n := false, p, 0;
    var size := DecVarint32(s);
    if size.Err? || !Fits(f, size.v) || |s| - size.n < size.v {
      return;
    }
    ok, q := Reserve(h, p, if f.lt == BYTES then size.v + BYTES_HEADER else size.v + 1, 1, frame);
    if ok {
      n := size.n + size.v;
      var full := Block(q.b, [Leaf(Blob(s[size.n..n]))]);
      OwnedText(full);
      ReservedText(p, q);
      q := full;
    }
  }

  lemma TextTidy(v: Node)
    requires Text(v)
    ensures !Wild(v) && Tidy(v)
  {
    if v.Block? {
      BlockOf(v.b, v.items[0]);
    }
  }

  /** A pointer to one value is what the value is. */
  lemma BlockOf(b: nat, v: Node)
    ensures Wild(Block(b, [v])) <==> Wild(v)
    ensures Tidy(Block(b, [v])) <==> Tidy(v)
  {
    assert [v][0] == v;
  }

  lemma ReservedText(p: Node, q: Node)
    requires Text(p) && q.Block? && q.items == (if p.Block? then p.items else [])
    ensures Owned(q) == multiset{q.b}
  {
    if p.Block? {
      OwnedOne(q.items);
    }
  }

  // ----- The decoder -----

  /** pb_decode: defaults, the fields, and on failure the release of whatever was allocated. The memory
      of the struct may hold anything that is not the only pointer to a block. */
  method DecodeMessage(h: Heap, env: Env, id: nat, cells: seq<Node>, s: Bytes, ghost frame: multiset<nat>)
    returns (ok: bool, r: seq<Node>, n: nat)
    requires CountedEnv(env) && StructOk(env, id, cells) && OwnedAll(cells) == multiset{} && h.Holds(frame)
    modifies h
    ensures StructOk(env, id, r) && h.Holds(OwnedAll(r) + frame) && (old(h.failed) ==> h.failed)
    ensures Fulfils(Decode(env, id, s), ok, Slots(env, id, r), n, h.failed)
    ensures !ok ==> OwnedAll(r) == multiset{} && h.live == old(h.live)
    ensures !WildAny(r, |r|) && Steady(Group(Reset(env, id, cells)), Group(r), ok, old(h.wild), h.wild)
    ensures !Untidy(env, id) || TidyAll(cells) ==> h.wild == old(h.wild)
    ensures Trapped(env, id, Reset(env, id, cells), s) ==> !ok && h.wild
    decreases |s|, 8
  {
    hide CountedEnv, StructOk, OwnedAll, Reset, Slots, DecMsg, WildAny, TidyAll, Untidy, Trapped;
    CountedValid(env);
    ResetFresh(env, id, cells);
    SameLength(env, id, cells);
    if !Untidy(env, id) || TidyAll(cells) {
      TidyReset(env, id, cells);
    }
    r := Reset(env, id, cells);
    ok, r, n := DecodeNoinit(h, env, id, r, s, frame);
    if !ok {
      r := ReleaseStruct(h, env, id, r, frame);
      SameBlocks(h.live, old(h.live));
    }
  }

  lemma CountedValid(env: Env)
    requires CountedEnv(env)
    ensures ValidEnv(env)
  {
  }

  lemma TidyReset(env: Env, id: nat, cells: seq<Node>)
    requires CountedEnv(env) && StructOk(env, id, cells) && (!Untidy(env, id) || TidyAll(cells))
    ensures Tidy(Group(Reset(env, id, cells)))
  {
    hide StructOk, Reset, Untidy;
    if TidyAll(cells) {
      ResetTidy(env, id, cells);
    } else {
      DefaultsTidy(env, id, cells);
    }
  }

  /** pb_decode_noinit. */
  method DecodeNoinit(h: Heap, env: Env, id: nat, cells: seq<Node>, s: Bytes, ghost frame: multiset<nat>)
    returns (ok: bool, r: seq<Node>, n: nat)
    requires CountedEnv(env) && StructOk(env, id, cells) && !WildAny(cells, |cells|) && h.Holds(OwnedAll(cells) + frame)
    modifies h
    ensures StructOk(env, id, r) && h.Holds(OwnedAll(r) + frame) && (old(h.failed) ==> h.failed)
    ensures Fulfils(DecMsg(env, id, Slots(env, id, cells), s), ok, Slots(env, id, r), n, h.failed)
    ensures Steady(Group(cells), Group(r), ok, old(h.wild), h.wild)
    ensures Trapped(env, id, cells, s) ==> !ok && WildAny(r, |r|)
    decreases |s|, 7
  {
    hide CountedEnv, CellOk, OwnedAll, DecVarint32, Slots, DecFields, Step, AllRequired, WildAny, TidyAll, Trapped, TrappedRecord;
    ok, r, n := false, cells, 0;
    if Trapped(env, id, cells, s) {
      TrapBegins(env, id, cells, s);
    }
    var rest, seen: set<nat> := s, {};
    ghost var start := Start(Slots(env, id, cells));
    ghost var ended := false;
    StartsSteady(cells);
    while rest != []
      invariant |rest| <= |s| && StructOk(env, id, r) && h.Holds(OwnedAll(r) + frame) && (old(h.failed) ==> h.failed)
      invariant !ok && !WildAny(r, |r|) && Steady(Group(cells), Group(r), true, old(h.wild), h.wild)
      invariant Trapped(env, id, cells, s) ==> rest == s && r == cells
      invariant DecFields(env, id, start, s)
                == Later(DecFields(env, id, Progress(Slots(env, id, r), seen, None, 0), rest), n)
      decreases |rest|
    {
      var t := DecVarint32(rest);
      ghost var p := Progress(Slots(env, id, r), seen, None, 0);
      LoopTurn(env, id, p, rest);
      if t.Err? {
        return;
      }
      if t.v == 0 {
        ended, n := true, n + t.n;
        break;
      }
      var known, m;
      known, r, m, seen := DecodeRecord(h, env, id, r, t.v / 8, t.v % 8, rest[t.n..], seen, frame);
      if !known {
        return;
      }
      rest := rest[t.n..][m..];
      n := n + t.n + m;
    }
    if !ended {
      NothingLeft(env, id, Progress(Slots(env, id, r), seen, None, 0));
    }
    ok := AllRequired(env[id], seen);
  }

  /** A trap is at the very start of the input. */
  lemma TrapBegins(env: Env, id: nat, cells: seq<Node>, s: Bytes)
    requires id < |env| && |cells| == |env[id]| && Trapped(env, id, cells, s)
    ensures var t := DecVarint32(s);
            s != [] && t.Ok? && t.v != 0 && TrappedRecord(env, id, cells, t.v / 8, s[t.n..])
  {
    hide DecVarint32, TrappedCell, FindTag;
  }

  lemma StartsSteady(cells: seq<Node>)
    requires !WildAny(cells, |cells|)
    ensures forall w :: Steady(Group(cells), Group(cells), true, w, w)
  {
  }

  /** Trapped, once the tag has been read. */
  ghost predicate TrappedRecord(env: Env, id: nat, cells: seq<Node>, tag: nat, s: Bytes)
    requires id < |env| && |cells| == |env[id]|
  {
    FindTag(env[id], tag).Some? && TrappedField(env, id, cells, FindTag(env[id], tag).value, s)
  }

  ghost predicate TrappedField(env: Env, id: nat, cells: seq<Node>, k: nat, s: Bytes)
    requires id < |env| && |cells| == |env[id]| && k < |cells|
  {
    env[id][k].ht != ONEOF && env[id][k].at == STATIC && TrappedCell(env, env[id][k], cells[k], s)
  }

  /** The loop body after the tag has been read. */
  method DecodeRecord(h: Heap, env: Env, id: nat, cells: seq<Node>, tag: nat, wt: nat, s: Bytes, was: set<nat>,
                      ghost frame: multiset<nat>)
    returns (ok: bool, r: seq<Node>, n: nat, seen: set<nat>)
    requires CountedEnv(env) && StructOk(env, id, cells) && !WildAny(cells, |cells|) && h.Holds(OwnedAll(cells) + frame)
    modifies h
    ensures StructOk(env, id, r) && h.Holds(OwnedAll(r) + frame) && (old(h.failed) ==> h.failed)
    ensures Fulfils(Step(env, id, Progress(Slots(env, id, cells), was, None, 0), tag, wt, s), ok,
                    Progress(Slots(env, id, r), seen, None, 0), n, h.failed)
    ensures Steady(Group(cells), Group(r), ok, old(h.wild), h.wild)
    ensures TrappedRecord(env, id, cells, tag, s) ==> !ok && WildAny(r, |r|)
    decreases |s|, 6
  {
    hide CellOk, OwnedAll, DecVarint32, Slots, Skip, FindTag, DecField, WildAny, TidyAll, TrappedCell;
    var F := env[id];
    ok, r, n, seen := false, cells, 0, was;
    StartsSteady(cells);
    var k := FindTag(F, tag);
    if F == [] && tag == 0 {
      // The terminator entry: a bool is read, and an empty struct has no member to keep it in.
      var p := DecVarint32(s);
      if p.Ok? {
        ok, n := true, p.n;
      }
    } else if k.None? {
      var p := Skip(wt, s);
      if p.Ok? {
        ok, n := true, p.n;
      }
    } else {
      if F[k.value].ht == REQUIRED && RequiredBefore(F, k.value) < PB_MAX_REQUIRED_FIELDS {
        seen := seen + {RequiredBefore(F, k.value)};
      }
      ok, r, n := DecodeField(h, env, id, cells, k.value, wt, s, seen, frame);
    }
  }

  /** decode_field. */
  method DecodeField(h: Heap, env: Env, id: nat, cells: seq<Node>, k: nat, wt: nat, s: Bytes, ghost seen: set<nat>,
                     ghost frame: multiset<nat>)
    returns (ok: bool, r: seq<Node>, n: nat)
    requires CountedEnv(env) && StructOk(env, id, cells) && !WildAny(cells, |cells|) && k < |cells|
    requires h.Holds(OwnedAll(cells) + frame)
    modifies h
    ensures StructOk(env, id, r) && h.Holds(OwnedAll(r) + frame) && (old(h.failed) ==> h.failed)
    ensures Fulfils(DecField(env, id, Progress(Slots(env, id, cells), seen, None, 0), k, wt, s), ok,
                    Progress(Slots(env, id, r), seen, None, 0), n, h.failed)
    ensures Steady(Group(cells), Group(r), ok, old(h.wild), h.wild)
    ensures TrappedField(env, id, cells, k, s) ==> !ok && WildAny(r, |r|)
    decreases |s|, 5
  {
    hide CountedEnv, CellOk, OwnedAll, Owned, FindTag, Loc, RowOk, DataOk, DecSlot, DecField, CellSlot, Slots, StructOk,
         WildAny, Wild, Tidy, TrappedCell;
    SameLength(env, id, cells);
    var F, l := env[id], Loc(env[id], k);
    var c := cells[l];
    CellAt(env, id, cells, l);
    OwnedPut(cells, l, c);
    SlotsPut(env, id, cells, l, c);
    ShapedSlot(env, id, cells, k);
    NotFixed(env, id, k);
    NotWildAt(cells, l);
    ghost var others := OwnedAll(cells[l := HOLE]) + frame;
    FieldOfSlot(env, id, Progress(Slots(env, id, cells), seen, None, 0), k, wt, s);
    ok, n := true, 0;
    if F[k].ht == ONEOF {
      ok, c := ReleaseUnion(h, env, id, k, c, wt, s, others);
    }
    ghost var prepared := c;
    if ok {
      if F[k].at == STATIC {
        ok, c, n := DecodeStatic(h, env, id, k, c, wt, s, others);
      } else {
        ok, c, n := DecodePointer(h, env, id, k, c, wt, s, others);
      }
    }
    SteadyPut(cells, l, prepared, c, ok, old(h.wild), h.wild);
    WildPut(cells, l, c);
    OwnedPut(cells, l, c);
    SlotsPut(env, id, cells, l, c);
    PutCell(env, id, cells, l, c);
    r := cells[l := c];
  }

  lemma NotWildAt(cells: seq<Node>, l: nat)
    requires !WildAny(cells, |cells|) && l < |cells|
    ensures !Wild(cells[l])
  {
    hide Wild;
  }

  /** A struct is as steady as the one member that has changed. */
  lemma SteadyPut(cells: seq<Node>, l: nat, c: Node, r: Node, ok: bool, before: bool, after: bool)
    requires !WildAny(cells, |cells|) && l < |cells| && (Tidy(cells[l]) ==> Tidy(c))
    requires Steady(c, r, ok, before, after) || (!ok && r == c && !Wild(r) && before == after)
    ensures Steady(Group(cells), Group(cells[l := r]), ok, before, after)
  {
    hide Wild, Tidy;
    GroupOf(cells);
    GroupOf(cells[l := r]);
    assert forall i :: 0 <= i < |cells| && i != l ==> !Wild(cells[i]);
    assert !Wild(r) ==> !WildAny(cells[l := r], |cells|);
    assert TidyAll(cells) && Tidy(r) ==> TidyAll(cells[l := r]);
  }

  lemma WildPut(cells: seq<Node>, l: nat, r: Node)
    requires l < |cells|
    ensures Wild(r) ==> WildAny(cells[l := r], |cells|)
  {
    hide Wild;
    assert cells[l := r][l] == r;
  }

  lemma GroupOf(cells: seq<Node>)
    ensures Wild(Group(cells)) <==> WildAny(cells, |cells|)
    ensures Tidy(Group(cells)) <==> TidyAll(cells)
  {
  }

  lemma NotFixed(env: Env, id: nat, k: nat)
    requires CountedEnv(env) && id < |env| && k < |env[id]|
    ensures !FixedCount(env[id][k])
  {
  }

  // ----- Unions -----

  /** The storage of field `k` once decode_field has made room in the union. */
  ghost predicate Prepared(env: Env, F: Fields, k: nat, c: Node)
    requires k < |F|
  {
    if F[k].ht != ONEOF then CellOk(env, F, k, c)
    else
      && c.OneOf? && (c.which == 0 || FindTag(F, c.which).Some?)
      && if c.which == F[k].tag then DataOk(env, F[k], c.v)
         else if F[k].at == PTR then c.v.Nil?
         else Owned(c.v) == multiset{}
  }

  /** The specification of field `k` applied to what its cell holds. */
  function CellSpec(env: Env, F: Fields, k: nat, c: Node, wt: nat, s: Bytes): (r: Parse<Slot>)
    requires k < |F|
    ensures r.Ok? ==> 1 <= r.n <= |s|
  {
    DecSlot(env, F, k, CellSlot(env, F, Loc(F, k), c), wt, s)
  }

  lemma MemberSlot(env: Env, id: nat, k: nat, c: Node)
    requires CountedEnv(env) && id < |env| && k < |env[id]| && env[id][k].ht == ONEOF && c.OneOf?
    ensures CellSlot(env, env[id], Loc(env[id], k), c).Union?
    ensures CellSlot(env, env[id], Loc(env[id], k), c).which == c.which
    ensures c.which == env[id][k].tag ==>
              CellSlot(env, env[id], Loc(env[id], k), c) == Union(c.which, DataValue(env, env[id][k], c.v))
  {
    hide DataValue;
    assert ValidMessage(env, id);
    FindUnique(env, id, k);
  }

  lemma MemberOk(env: Env, id: nat, k: nat, v: Node)
    requires CountedEnv(env) && id < |env| && k < |env[id]| && env[id][k].ht == ONEOF && DataOk(env, env[id][k], v)
    ensures CellOk(env, env[id], Loc(env[id], k), OneOf(env[id][k].tag, v))
  {
    hide DataOk;
    assert ValidMessage(env, id);
    FindUnique(env, id, k);
  }

  /** pb_release_union_field: what another member of the union owns is released; the specification of
      the field does not look at it. */
  method ReleaseUnion(h: Heap, env: Env, id: nat, k: nat, c: Node, ghost wt: nat, ghost s: Bytes, ghost frame: multiset<nat>)
    returns (ok: bool, r: Node)
    requires CountedEnv(env) && id < |env| && k < |env[id]| && env[id][k].ht == ONEOF
    requires CellOk(env, env[id], Loc(env[id], k), c) && !Wild(c) && h.Holds(Owned(c) + frame)
    modifies h
    ensures h.Holds(Owned(r) + frame) && h.failed == old(h.failed)
    ensures !Wild(r) && h.wild == old(h.wild) && (Tidy(c) ==> Tidy(r)) && (!ok ==> r == c)
    ensures if ok then Prepared(env, env[id], k, r) else CellOk(env, env[id], Loc(env[id], k), r)
    ensures if ok then CellSpec(env, env[id], k, r, wt, s) == CellSpec(env, env[id], k, c, wt, s)
            else CellSpec(env, env[id], k, c, wt, s).Err?
  {
    hide DataOk, CountedEnv, CellSlot, DecSlot;
    r := c;
    var F := env[id];
    ghost var l := Loc(F, k);
    ValidAt(env, id);
    FindUnique(env, id, k);
    MemberSlot(env, id, k, c);
    if c.which == 0 {
      NoZeroTag(env, id);
      return true, c;
    }
    if c.which == F[k].tag {
      return true, c;
    }
    var j := FindTag(F, c.which);
    if j.None? {
      NotAdmitted(env, F, k, CellSlot(env, F, l, c), wt, s);
      return false, c;
    }
    CountedValid(env);
    r := ReleaseField(h, env, id, j.value, c, frame);
    // A pointer is set to null; what else is left of the old member is about to be overwritten.
    r := OneOf(r.which, if F[k].at == PTR then Nil else HOLE);
    MemberSlot(env, id, k, r);
    UnionSlot(env, F, k, CellSlot(env, F, l, c), CellSlot(env, F, l, r), wt, s);
    ok := true;
  }

  lemma NotAdmitted(env: Env, F: Fields, k: nat, slot: Slot, wt: nat, s: Bytes)
    requires k < |F| && F[k].ht == ONEOF && slot.Union? && slot.which != 0 && FindTag(F, slot.which).None?
    ensures DecSlot(env, F, k, slot, wt, s).Err?
  {
    hide DecValue;
  }

  lemma ValidAt(env: Env, id: nat)
    requires CountedEnv(env) && id < |env|
    ensures ValidMessage(env, id)
  {
  }

  lemma NoZeroTag(env: Env, id: nat)
    requires CountedEnv(env) && id < |env|
    ensures FindTag(env[id], 0).None?
  {
    assert ValidMessage(env, id);
  }

  // ----- Storage in place -----

  /** A cell that is neither repeated nor a union: its data, with or without a flag. */
  lemma PlainCell(env: Env, F: Fields, k: nat, c: Node)
    requires k < |F| && F[k].ht != ONEOF && F[k].ht != REPEATED
    ensures Loc(F, k) == k && !UnionTail(F, k)
    ensures CellOk(env, F, k, c) <==> if HasField(F[k]) then c.Flagged? && DataOk(env, F[k], c.v) else DataOk(env, F[k], c)
    ensures CellSlot(env, F, k, c) == if !HasField(F[k]) then Plain(DataValue(env, F[k], c))
                                      else if c.Flagged? then Opt(c.has, DataValue(env, F[k], c.v)) else Shared
  {
    hide DataOk, DataValue;
  }

  lemma StaticData(env: Env, f: Field, v: Node)
    requires f.at == STATIC
    ensures DataOk(env, f, v) <==> PlaceOk(env, f, v)
    ensures DataValue(env, f, v) == PlaceValue(env, f, v)
  {
    hide PlaceOk, PlaceValue;
  }

  lemma RepeatedCell(env: Env, F: Fields, k: nat, c: Node)
    requires k < |F| && F[k].ht == REPEATED && !FixedCount(F[k])
    ensures Loc(F, k) == k
    ensures CellOk(env, F, k, c) <==> c.Counted? && RowOk(env, F[k], c.count, c.v)
    ensures c.Counted? ==> CellSlot(env, F, k, c) == Arr(ItemValues(env, F[k], Elements(c.count, c.v)))
  {
    hide RowOk, ItemValue;
  }

  // ----- The specification of a field, case by case -----

  lemma PlainSpec(env: Env, F: Fields, k: nat, slot: Slot, v: Value, wt: nat, s: Bytes)
    requires k < |F| && F[k].ht in {REQUIRED, OPTIONAL}
    requires if HasField(F[k]) then slot.Opt? && slot.v == v else slot == Plain(v)
    ensures var f := F[k];
            var d := DecValue(env, f, if f.at == PTR then Msg(Defaults(env, f.sub)) else v, s);
            DecSlot(env, F, k, slot, wt, s) ==
            if d.Err? then Err else Ok(if HasField(f) then Opt(true, d.v) else Plain(d.v), d.n)
  {
    hide DecValue, Defaults;
  }

  lemma UnionSpec(env: Env, F: Fields, k: nat, slot: Slot, base: Value, wt: nat, s: Bytes)
    requires k < |F| && F[k].ht == ONEOF && slot.Union? && (slot.which == 0 || FindTag(F, slot.which).Some?)
    requires F[k].lt == SUBMESSAGE ==>
               base == if F[k].at == STATIC && slot.which == F[k].tag then slot.u else Msg(Defaults(env, F[k].sub))
    ensures var d := DecValue(env, F[k], base, s);
            DecSlot(env, F, k, slot, wt, s) == if d.Err? then Err else Ok(Union(F[k].tag, d.v), d.n)
  {
    hide DecValue, Defaults, FindTag;
    BaseUnused(env, F[k], base, Base(env, F[k], slot), s);
  }

  lemma ItemSpec(env: Env, F: Fields, k: nat, slot: Slot, wt: nat, s: Bytes)
    requires k < |F| && F[k].ht == REPEATED && !FixedCount(F[k]) && slot.Arr? && !(wt == WT_STRING && Packable(F[k].lt))
    ensures var d := DecValue(env, F[k], Msg(Defaults(env, F[k].sub)), s);
            DecSlot(env, F, k, slot, wt, s) ==
            if Room(F[k], slot, 0) < 1 || d.Err? then Err else Ok(Arr(slot.items + [d.v]), d.n)
  {
    hide DecValue, Defaults, Room;
  }

  lemma PackedSpec(env: Env, F: Fields, k: nat, slot: Slot, s: Bytes)
    requires k < |F| && F[k].ht == REPEATED && !FixedCount(F[k]) && slot.Arr? && Packable(F[k].lt)
    ensures var run := PackedRun(F[k], Room(F[k], slot, 0), s);
            DecSlot(env, F, k, slot, WT_STRING, s) == if run.Err? then Err else Ok(Arr(slot.items + run.v), run.n)
  {
    hide PackedRun, Room;
  }

  /** The array a repeated field holds. */
  function Row(env: Env, f: Field, c: Node): (r: Slot)
    requires c.Counted?
    ensures r.Arr?
  {
    Arr(ItemValues(env, f, Elements(c.count, c.v)))
  }

  lemma RowRoom(env: Env, f: Field, c: Node)
    requires c.Counted? && RowOk(env, f, c.count, c.v) && !FixedCount(f) && !c.v.Stale?
    ensures Room(f, Row(env, f, c), 0) == if f.at == PTR then PB_SIZE_MAX - c.count
                                          else if c.count < f.arraySize then f.arraySize - c.count else 0
  {
    hide RowOk, ItemValues;
    RowFits(env, f, c.count, c.v);
  }

  lemma ItemsMore(env: Env, f: Field, items: seq<Node>, v: Node)
    ensures ItemValues(env, f, items + [v]) == ItemValues(env, f, items) + [ItemValue(env, f, v)]
  {
    hide ItemValue;
  }

  // ----- decode_static_field -----

  /** A cleared place for a value: submessages get their defaults, the rest is overwritten. */
  function NewPlace(env: Env, f: Field): Node
  {
    if f.lt == SUBMESSAGE then Group(Blank(env, f.sub)) else HOLE
  }

  lemma NewPlaceOk(env: Env, id: nat, k: nat)
    requires CountedEnv(env) && id < |env| && k < |env[id]|
    ensures var f := env[id][k];
            && PlaceOk(env, f, NewPlace(env, f)) && Owned(NewPlace(env, f)) == multiset{}
            && !Wild(NewPlace(env, f)) && Tidy(NewPlace(env, f))
            && (f.lt == SUBMESSAGE ==> PlaceValue(env, f, NewPlace(env, f)) == Msg(Defaults(env, f.sub)))
  {
    hide StructOk, OwnedAll, Blank, Slots, Defaults, WildAny, TidyAll;
    var f := env[id][k];
    assert ValidMessage(env, id) && ValidField(env, id, f);
    if f.lt == SUBMESSAGE {
      BlankFresh(env, f.sub);
      BlankTidy(env, f.sub);
    }
  }

  /** decode_static_field. */
  method DecodeStatic(h: Heap, env: Env, id: nat, k: nat, c: Node, wt: nat, s: Bytes, ghost frame: multiset<nat>)
    returns (ok: bool, r: Node, n: nat)
    requires CountedEnv(env) && id < |env| && k < |env[id]| && env[id][k].at == STATIC
    requires Prepared(env, env[id], k, c) && !Wild(c) && h.Holds(Owned(c) + frame)
    modifies h
    ensures CellOk(env, env[id], Loc(env[id], k), r) && h.Holds(Owned(r) + frame) && (old(h.failed) ==> h.failed)
    ensures Fulfils(CellSpec(env, env[id], k, c, wt, s), ok, CellSlot(env, env[id], Loc(env[id], k), r), n, h.failed)
    ensures Steady(c, r, ok, old(h.wild), h.wild)
    ensures env[id][k].ht != ONEOF && TrappedCell(env, env[id][k], c, s) ==> !ok && Wild(r)
    decreases |s|, 4
  {
    hide CountedEnv, PlaceOk, RowOk, FindTag, CellOk, Loc, DecSlot, CellSlot, DecValue, PlaceValue, DataValue, DataOk, Row, Wild, Tidy, TrappedPlace;
    var F, f := env[id], env[id][k];
    if f.ht == REPEATED {
      NotFixed(env, id, k);
      RepeatedCell(env, F, k, c);
      if wt == WT_STRING && Packable(f.lt) {
        TrapNested(env, f, c, s);
        ok, r, n := DecodeStaticPacked(h, env, id, k, c, s, frame);
      } else {
        ok, r, n := DecodeStaticItem(h, env, id, k, c, wt, s, frame);
      }
      RepeatedCell(env, F, k, r);
      RowIs(env, f, c);
      RowIs(env, f, r);
    } else if f.ht == ONEOF {
      NewPlaceOk(env, id, k);
      MemberSlot(env, id, k, c);
      StaticData(env, f, c.v);
      // A submessage is cleared; any other member is overwritten by its decoder.
      var v := if c.which != f.tag then NewPlace(env, f) else c.v;
      Wrapped(c);
      UnionSpec(env, F, k, CellSlot(env, F, Loc(F, k), c), PlaceValue(env, f, v), wt, s);
      ok, v, n := DecodePlace(h, env, f, v, s, frame);
      StaticData(env, f, v);
      MemberOk(env, id, k, v);
      r := OneOf(f.tag, v);
      MemberSlot(env, id, k, r);
      Wrapped(c);
      Wrapped(r);
    } else {
      ok, r, n := DecodeStaticPlain(h, env, id, k, c, wt, s, frame);
    }
  }

  lemma TrapNested(env: Env, f: Field, c: Node, s: Bytes)
    ensures TrappedCell(env, f, c, s) ==> f.lt == SUBMESSAGE
  {
    if TrappedCell(env, f, c, s) {
      var v := if FixedCount(f) then c.items[0] else if f.ht == REPEATED then c.v.items[c.count]
               else if HasField(f) then c.v else c;
      assert TrappedPlace(env, f, v, s);
    }
  }

  /** Flags and unions add nothing of their own. */
  lemma Wrapped(c: Node)
    ensures c.OneOf? || c.Flagged? ==> (Wild(c) <==> Wild(c.v)) && (Tidy(c) <==> Tidy(c.v))
  {
  }

  lemma RowIs(env: Env, f: Field, c: Node)
    requires c.Counted?
    ensures Row(env, f, c) == Arr(ItemValues(env, f, Elements(c.count, c.v)))
  {
  }

  /** Required and optional members; the has_ flag is set before the value is read. */
  method DecodeStaticPlain(h: Heap, env: Env, id: nat, k: nat, c: Node, wt: nat, s: Bytes, ghost frame: multiset<nat>)
    returns (ok: bool, r: Node, n: nat)
    requires CountedEnv(env) && id < |env| && k < |env[id]| && env[id][k].at == STATIC && env[id][k].ht in {REQUIRED, OPTIONAL}
    requires CellOk(env, env[id], k, c) && !Wild(c) && h.Holds(Owned(c) + frame)
    modifies h
    ensures CellOk(env, env[id], Loc(env[id], k), r) && h.Holds(Owned(r) + frame) && (old(h.failed) ==> h.failed)
    ensures Fulfils(CellSpec(env, env[id], k, c, wt, s), ok, CellSlot(env, env[id], Loc(env[id], k), r), n, h.failed)
    ensures Steady(c, r, ok, old(h.wild), h.wild)
    ensures TrappedCell(env, env[id][k], c, s) ==> !ok && Wild(r)
    decreases |s|, 3
  {
    hide CountedEnv, PlaceOk, CellOk, Loc, DecSlot, CellSlot, DecValue, PlaceValue, DataValue, DataOk, Wild, Tidy, TrappedPlace;
    var F, f := env[id], env[id][k];
    PlainCell(env, F, k, c);
    var v := if HasField(f) then c.v else c;
    Wrapped(c);
    StaticData(env, f, v);
    PlainSpec(env, F, k, CellSlot(env, F, k, c), DataValue(env, f, v), wt, s);
    ok, v, n := DecodePlace(h, env, f, v, s, frame);
    StaticData(env, f, v);
    r := if HasField(f) then Flagged(true, v) else v;
    Wrapped(r);
    PlainCell(env, F, k, r);
  }

  /** A packed payload in a static array: numbers only. */
  method DecodeStaticPacked(h: Heap, env: Env, id: nat, k: nat, c: Node, s: Bytes, ghost frame: multiset<nat>)
    returns (ok: bool, r: Node, n: nat)
    requires id < |env| && k < |env[id]| && !FixedCount(env[id][k])
    requires env[id][k].at == STATIC && env[id][k].ht == REPEATED && Packable(env[id][k].lt)
    requires c.Counted? && RowOk(env, env[id][k], c.count, c.v) && h.Holds(Owned(c) + frame)
    ensures r.Counted? && RowOk(env, env[id][k], r.count, r.v) && h.Holds(Owned(r) + frame)
    ensures Fulfils(DecSlot(env, env[id], k, Row(env, env[id][k], c), WT_STRING, s), ok, Row(env, env[id][k], r), n, false)
    ensures !Wild(r) && Tidy(r)
  {
    hide DecVarint32, DecBasic, DecItems, Prepend, DecSlot, Room, Row, RowOk, Owned, OwnedAll, Wild, Tidy;
    var f := env[id][k];
    ok, r, n := false, c, 0;
    RowIs(env, f, c);
    StillRow(env, f, c);
    PackedSpec(env, env[id], k, Row(env, f, c), s);
    RowRoom(env, f, c);
    var p := DecVarint32(s);
    if p.Err? || |s| - p.n < p.v {
      return;
    }
    n := p.n + p.v;
    var sub := s[p.n..n];
    ghost var payload, room := sub, Room(f, Row(env, f, c), 0);
    ghost var vs: seq<Value> := [];
    PrependEnds(f, payload, room, vs);
    while sub != [] && r.count < f.arraySize
      invariant r.Counted? && StaticRow(env, f, r) && room == |vs| + (if r.count < f.arraySize then f.arraySize - r.count else 0)
      invariant DecItems(f, payload, room) == Prepend(vs, DecItems(f, sub, room - |vs|))
      invariant Row(env, f, r).items == Row(env, f, c).items + vs
      decreases |sub|
    {
      PrependStep(f, sub, room - |vs|, vs);
      var v := DecBasic(f, sub);
      if v.Err? {
        StaticRowOk(env, f, c, r, frame);
        return;
      }
      sub := sub[v.n..];
      vs := vs + [v.v];
      PutNumber(env, f, r, v.v);
      r := Counted(r.count + 1, Group(r.v.items[r.count := Leaf(v.v)]));
    }
    PrependEnds(f, sub, room - |vs|, vs);
    StaticRowOk(env, f, c, r, frame);
    ok := sub == [];
  }

  /** A static array of numbers. */
  ghost predicate StaticRow(env: Env, f: Field, r: Node)
    requires r.Counted?
  {
    && RowOk(env, f, r.count, r.v) && r.v.Group? && |r.v.items| == f.arraySize
    && Owned(r) == multiset{} && !Wild(r) && Tidy(r)
  }

  lemma StillRow(env: Env, f: Field, c: Node)
    requires f.at == STATIC && Packable(f.lt) && c.Counted? && RowOk(env, f, c.count, c.v)
    ensures StaticRow(env, f, c)
    ensures Row(env, f, c).items + [] == Row(env, f, c).items
    ensures !c.v.Stale?
  {
    OwnedLeafItems(env, f, c.v.items);
    LeafItemsTidy(env, f, c.count, c.v.items);
  }

  lemma LeafItemsTidy(env: Env, f: Field, count: nat, items: seq<Node>)
    requires f.at == STATIC && f.lt != SUBMESSAGE && forall i :: 0 <= i < |items| ==> ItemOk(env, f, items[i])
    ensures Tidy(Counted(count, Group(items))) && !Wild(Counted(count, Group(items)))
  {
    forall i | 0 <= i < |items|
      ensures Tidy(items[i])
    {
      assert ItemOk(env, f, items[i]) && PlaceOk(env, f, items[i]);
    }
    GroupTidy(Group(items));
    TidyNotWild(Counted(count, Group(items)));
  }

  lemma StaticRowOk(env: Env, f: Field, c: Node, r: Node, frame: multiset<nat>)
    requires c.Counted? && r.Counted? && StaticRow(env, f, c) && StaticRow(env, f, r)
    ensures RowOk(env, f, r.count, r.v) && Owned(r) + frame == Owned(c) + frame && !Wild(r) && Tidy(r)
  {
    hide RowOk, Owned;
  }

  lemma PutNumber(env: Env, f: Field, r: Node, v: Value)
    requires f.at == STATIC && Packable(f.lt) && r.Counted? && StaticRow(env, f, r) && r.count < f.arraySize
    ensures var q := Counted(r.count + 1, Group(r.v.items[r.count := Leaf(v)]));
            StaticRow(env, f, q) && Row(env, f, q).items == Row(env, f, r).items + [v]
  {
    var items := r.v.items[r.count := Leaf(v)];
    assert PlaceOk(env, f, Leaf(v)) && ItemOk(env, f, Leaf(v));
    assert RowOk(env, f, r.count + 1, Group(items));
    OwnedLeafItems(env, f, items);
    LeafItemsTidy(env, f, r.count + 1, items);
    assert Elements(r.count + 1, Group(items)) == Elements(r.count, r.v) + [Leaf(v)];
    ItemsMore(env, f, Elements(r.count, r.v), Leaf(v));
    assert ItemValue(env, f, Leaf(v)) == PlaceValue(env, f, Leaf(v)) == v;
  }

  /** One element of a static array; one too many still counts. */
  method DecodeStaticItem(h: Heap, env: Env, id: nat, k: nat, c: Node, wt: nat, s: Bytes, ghost frame: multiset<nat>)
    returns (ok: bool, r: Node, n: nat)
    requires CountedEnv(env) && id < |env| && k < |env[id]| && !FixedCount(env[id][k])
    requires env[id][k].at == STATIC && env[id][k].ht == REPEATED && !(wt == WT_STRING && Packable(env[id][k].lt))
    requires c.Counted? && RowOk(env, env[id][k], c.count, c.v) && !Wild(c) && h.Holds(Owned(c) + frame)
    modifies h
    ensures r.Counted? && RowOk(env, env[id][k], r.count, r.v) && h.Holds(Owned(r) + frame) && (old(h.failed) ==> h.failed)
    ensures r.count == c.count + 1 && Steady(c, r, ok, old(h.wild), h.wild)
    ensures TrappedCell(env, env[id][k], c, s) ==> !ok && Wild(r)
    ensures Fulfils(DecSlot(env, env[id], k, Row(env, env[id][k], c), wt, s), ok, Row(env, env[id][k], r), n, h.failed)
    decreases |s|, 3
  {
    hide CountedEnv, PlaceOk, OwnedAll, Owned, DecSlot, DecValue, Room, ItemValue, Row, RowOk, Wild, Tidy, TrappedPlace;
    var f := env[id][k];
    ok, r, n := false, Counted(c.count + 1, c.v), 0;
    NextItem(env, f, c);
    RowRoom(env, f, c);
    ItemSpec(env, env[id], k, Row(env, f, c), wt, s);
    OwnedCount(c);
    OwnedCount(r);
    if c.count >= f.arraySize {
      OverflowSteady(c, h.wild);
    } else {
      var items := c.v.items;
      OwnedPut(items, c.count, items[c.count]);
      var v;
      ok, v, n := DecodePlace(h, env, f, items[c.count], s, OwnedAll(items[c.count := HOLE]) + frame);
      OwnedPut(items, c.count, v);
      PutItem(env, f, c, v);
      ItemSteady(c, v, ok, old(h.wild), h.wild);
      r := Counted(c.count + 1, Group(items[c.count := v]));
    }
  }

  lemma OverflowSteady(c: Node, w: bool)
    requires c.Counted? && c.v.Group? && c.count >= |c.v.items| && !Wild(c)
    ensures Steady(c, Counted(c.count + 1, c.v), false, w, w)
  {
    WildUpTo(c.v.items, c.count);
    WildUpTo(c.v.items, c.count + 1);
  }

  /** The counted elements are as steady as the one that joins them. */
  lemma ItemSteady(c: Node, v: Node, ok: bool, before: bool, after: bool)
    requires c.Counted? && c.v.Group? && c.count < |c.v.items| && !Wild(c)
    requires Steady(c.v.items[c.count], v, ok, before, after)
    ensures Wild(v) ==> Wild(Counted(c.count + 1, Group(c.v.items[c.count := v])))
    ensures Steady(c, Counted(c.count + 1, Group(c.v.items[c.count := v])), ok, before, after)
  {
    var items := c.v.items[c.count := v];
    WildMore(items, c.count);
    assert WildAny(items, c.count) ==> WildAny(c.v.items, c.count);
    assert Tidy(c) <==> TidyAll(c.v.items);
    assert Tidy(Counted(c.count + 1, Group(items))) <==> TidyAll(items);
  }

  /** The next element of a static array is there and owns nothing. */
  lemma NextItem(env: Env, f: Field, c: Node)
    requires f.at == STATIC && c.Counted? && RowOk(env, f, c.count, c.v)
    ensures c.v.Group? && |c.v.items| == f.arraySize && OwnedAll(c.v.items) == Owned(c)
    ensures c.count < f.arraySize ==> PlaceOk(env, f, c.v.items[c.count]) && Owned(c.v.items[c.count]) == multiset{}
    ensures RowOk(env, f, c.count + 1, c.v)
  {
    hide PlaceOk, OwnedAll;
    if c.count < f.arraySize {
      StaticItemValue(env, f, c.v.items[c.count]);
    }
  }

  lemma PutItem(env: Env, f: Field, c: Node, v: Node)
    requires f.at == STATIC && c.Counted? && RowOk(env, f, c.count, c.v) && c.count < f.arraySize && PlaceOk(env, f, v)
    ensures var q := Counted(c.count + 1, Group(c.v.items[c.count := v]));
            && RowOk(env, f, q.count, q.v) && Owned(q) == OwnedAll(q.v.items)
            && Row(env, f, q) == Arr(Row(env, f, c).items + [PlaceValue(env, f, v)])
  {
    hide PlaceOk, PlaceValue, OwnedAll, ItemValue;
    StaticItemValue(env, f, v);
    ElementsPut(c.count, c.v.items, v);
    ItemsMore(env, f, Elements(c.count, c.v), v);
  }

  lemma ElementsPut(count: nat, items: seq<Node>, v: Node)
    requires count < |items|
    ensures Elements(count + 1, Group(items[count := v])) == Elements(count, Group(items)) + [v]
  {
  }

  lemma StaticItemValue(env: Env, f: Field, v: Node)
    requires f.at == STATIC || !TextType(f.lt)
    ensures ItemValue(env, f, v) == PlaceValue(env, f, v)
    ensures ItemOk(env, f, v) <==> PlaceOk(env, f, v)
  {
    hide PlaceValue, PlaceOk;
  }

  /** The decoder of the field applied to storage in place; an array element has to own nothing and is
      set to its defaults first. */
  method DecodePlace(h: Heap, env: Env, f: Field, v: Node, s: Bytes, ghost frame: multiset<nat>)
    returns (ok: bool, r: Node, n: nat)
    requires CountedEnv(env) && PlaceOk(env, f, v) && h.Holds(Owned(v) + frame)
    requires if f.ht == REPEATED then Owned(v) == multiset{} else !Wild(v)
    modifies h
    ensures PlaceOk(env, f, r) && h.Holds(Owned(r) + frame) && (old(h.failed) ==> h.failed)
    ensures Steady(v, r, ok, old(h.wild), h.wild)
    ensures TrappedPlace(env, f, v, s) ==> !ok && Wild(r)
    ensures var base := if f.ht == REPEATED then Msg(Defaults(env, f.sub)) else PlaceValue(env, f, v);
            Fulfils(DecValue(env, f, base, s), ok, PlaceValue(env, f, r), n, h.failed)
    decreases |s|, 1
  {
    hide CountedEnv, StructOk, OwnedAll, DecVarint32, DecBasic, DecMsg, Slots, Defaults, WildAny, TidyAll, Untidy, Trapped;
    ok, r, n := false, v, 0;
    if Tidy(v) {
      TidyNotWild(v);
    }
    if f.lt == SUBMESSAGE {
      SameLength(env, f.sub, v.items);
      NestedValue(env, f, if f.ht == REPEATED then Defaults(env, f.sub) else Slots(env, f.sub, v.items), s);
      var p := DecVarint32(s);
      if p.Err? || |s| - p.n < p.v {
        return;
      }
      n := p.n + p.v;
      var cells, inner;
      if f.ht == REPEATED {
        if TidyAll(v.items) {
          ResetTidy(env, f.sub, v.items);
        }
        ok, cells, inner := DecodeMessage(h, env, f.sub, v.items, s[p.n..n], frame);
      } else {
        ok, cells, inner := DecodeNoinit(h, env, f.sub, v.items, s[p.n..n], frame);
      }
      SameLength(env, f.sub, cells);
      r := Group(cells);
    } else {
      var p := DecBasic(f, s);
      if p.Ok? {
        ok, r, n := true, Leaf(p.v), p.n;
      }
    }
  }

  // ----- decode_pointer_field -----

  method DecodePointer(h: Heap, env: Env, id: nat, k: nat, c: Node, wt: nat, s: Bytes, ghost frame: multiset<nat>)
    returns (ok: bool, r: Node, n: nat)
    requires CountedEnv(env) && id < |env| && k < |env[id]| && env[id][k].at == PTR
    requires Prepared(env, env[id], k, c) && !Wild(c) && h.Holds(Owned(c) + frame)
    modifies h
    ensures CellOk(env, env[id], Loc(env[id], k), r) && h.Holds(Owned(r) + frame) && (old(h.failed) ==> h.failed)
    ensures Fulfils(CellSpec(env, env[id], k, c, wt, s), ok, CellSlot(env, env[id], Loc(env[id], k), r), n, h.failed)
    ensures Steady(c, r, ok, old(h.wild), h.wild)
    decreases |s|, 4
  {
    hide CountedEnv, PlaceOk, RowOk, FindTag, CellOk, Loc, DecSlot, CellSlot, DecValue, PlaceValue, DataValue, DataOk, Row, Wild, Tidy, TrappedPlace;
    var F, f := env[id], env[id][k];
    if f.ht == REPEATED {
      NotFixed(env, id, k);
      RepeatedCell(env, F, k, c);
      if wt == WT_STRING && Packable(f.lt) {
        ok, r, n := DecodePacked(h, env, id, k, c, s, frame);
      } else {
        ok, r, n := DecodeItem(h, env, id, k, c, wt, s, frame);
      }
      RepeatedCell(env, F, k, r);
      RowIs(env, f, c);
      RowIs(env, f, r);
    } else if f.ht == ONEOF {
      NilOk(env, f);
      MemberSlot(env, id, k, c);
      UnionSpec(env, F, k, CellSlot(env, F, Loc(F, k), c), Msg(Defaults(env, f.sub)), wt, s);
      Wrapped(c);
      var p;
      ok, p, n := DecodeTarget(h, env, id, k, c.v, s, frame);
      MemberOk(env, id, k, p);
      r := OneOf(f.tag, p);
      Wrapped(r);
      MemberSlot(env, id, k, r);
    } else {
      PlainCell(env, F, k, c);
      PlainSpec(env, F, k, CellSlot(env, F, k, c), DataValue(env, f, c), wt, s);
      ok, r, n := DecodeTarget(h, env, id, k, c, s, frame);
      PlainCell(env, F, k, r);
    }
  }

  lemma NilOk(env: Env, f: Field)
    requires f.at == PTR
    ensures DataOk(env, f, Nil)
  {
  }

  lemma SizeFits(env: Env, id: nat, k: nat)
    requires CountedEnv(env) && id < |env| && k < |env[id]|
    ensures 1 <= env[id][k].dataSize <= PB_SIZE_MAX
  {
    assert ValidMessage(env, id) && ValidField(env, id, env[id][k]);
  }

  lemma BasicValue(env: Env, f: Field, base: Value, s: Bytes)
    requires f.lt != SUBMESSAGE
    ensures DecValue(env, f, base, s) == DecBasic(f, s)
  {
    hide DecBasic;
  }

  /** Strings behind a pointer. */
  lemma TextData(env: Env, f: Field, p: Node)
    requires f.at == PTR && TextType(f.lt) && !p.Stale?
    ensures DataOk(env, f, p) <==> Text(p)
    ensures Text(p) ==> DataValue(env, f, p) == if p.Block? then p.items[0].data else Null
  {
    if p.Block? && |p.items| == 1 {
      assert PlaceOk(env, f, p.items[0]) <==> p.items[0].Leaf?;
      assert p.items[0].Leaf? ==> PlaceValue(env, f, p.items[0]) == p.items[0].data;
    }
  }

  lemma PointerData(env: Env, f: Field, b: nat, v: Node)
    requires f.at == PTR
    ensures DataOk(env, f, Block(b, [v])) <==> PlaceOk(env, f, v)
    ensures DataValue(env, f, Block(b, [v])) == PlaceValue(env, f, v)
  {
    hide PlaceOk, PlaceValue;
  }

  /** What is behind a pointer when it is reused owns nothing. */
  lemma ScalarTarget(env: Env, f: Field, p: Node)
    requires f.at == PTR && DataOk(env, f, p) && !p.Stale? && (f.lt == SUBMESSAGE ==> p.Nil?)
    ensures p.Nil? || p.Block?
    ensures p.Block? ==> OwnedAll(p.items) == multiset{}
    ensures OwnedAll([]) == multiset{}
  {
    if p.Block? {
      assert PlaceOk(env, f, p.items[0]);
      OwnedOne(p.items);
    }
  }

  /** A block with a value decoded into it. */
  lemma OwnedBlock(b: nat, items: seq<Node>, v: Node, frame: multiset<nat>)
    ensures Owned(Block(b, [v])) + frame == Owned(v) + (multiset{b} + frame)
    ensures OwnedAll(items) == multiset{} ==> Owned(Block(b, items)) + frame == multiset{b} + frame
  {
    OwnedOne([v]);
  }

  /** A single value behind a pointer. */
  method DecodeTarget(h: Heap, env: Env, id: nat, k: nat, was: Node, s: Bytes, ghost frame: multiset<nat>)
    returns (ok: bool, p: Node, n: nat)
    requires CountedEnv(env) && id < |env| && k < |env[id]| && env[id][k].at == PTR && env[id][k].ht != REPEATED
    requires DataOk(env, env[id][k], was) && !Wild(was) && h.Holds(Owned(was) + frame)
    modifies h
    ensures DataOk(env, env[id][k], p) && h.Holds(Owned(p) + frame) && (old(h.failed) ==> h.failed)
    ensures Clean(p, ok, old(h.wild), h.wild)
    ensures Fulfils(DecValue(env, env[id][k], Msg(Defaults(env, env[id][k].sub)), s), ok,
                    DataValue(env, env[id][k], p), n, h.failed)
    decreases |s|, 2
  {
    hide CountedEnv, Owned, OwnedAll, DataOk, PlaceOk, DataValue, PlaceValue, DecValue, DecBasic, NewPlace, Defaults, Text,
         Wild, Tidy;
    var f := env[id][k];
    p := was;
    if f.lt == SUBMESSAGE && p.Block? {
      // A second occurrence: the first allocation goes.
      CountedValid(env);
      p := ReleaseData(h, env, f, p, frame);
    }
    PointerKind(env, f, p);
    if TextType(f.lt) {
      BasicValue(env, f, Msg(Defaults(env, f.sub)), s);
      TextData(env, f, p);
      ok, p, n := DecodeText(h, f, p, s, frame);
      TextTidy(p);
      TextData(env, f, p);
      return;
    }
    n := 0;
    SizeFits(env, id, k);
    ScalarTarget(env, f, p);
    ok, p := Reserve(h, p, f.dataSize, 1, frame);
    if ok {
      var b, v := p.b, NewPlace(env, f);
      NewPlaceOk(env, id, k);
      OwnedBlock(b, p.items, v, frame);
      BaseUnused(env, f, PlaceValue(env, f, v), Msg(Defaults(env, f.sub)), s);
      assert Owned(v) + (multiset{b} + frame) == multiset{b} + frame;
      ok, v, n := DecodePlace(h, env, f, v, s, multiset{b} + frame);
      OwnedBlock(b, [], v, frame);
      PointerData(env, f, b, v);
      BlockOf(b, v);
      p := Block(b, [v]);
    }
  }

  lemma PointerKind(env: Env, f: Field, p: Node)
    requires f.at == PTR && DataOk(env, f, p) && !Wild(p)
    ensures p.Nil? || p.Block?
  {
  }

  lemma OwnedLonger(b: nat, items: seq<Node>, v: Node, frame: multiset<nat>)
    ensures Owned(Block(b, items + [v])) + frame == Owned(v) + (OwnedAll(items) + multiset{b} + frame)
    ensures Owned(Block(b, items)) + frame == OwnedAll(items) + multiset{b} + frame
  {
    OwnedAppend(items, v);
  }

  /** The new last element of the array in block `b`, from a cleared state. */
  method DecodeElement(h: Heap, env: Env, id: nat, k: nat, b: nat, items: seq<Node>, s: Bytes, ghost frame: multiset<nat>)
    returns (ok: bool, v: Node, n: nat)
    requires CountedEnv(env) && id < |env| && k < |env[id]| && env[id][k].at == PTR && env[id][k].ht == REPEATED
    requires h.Holds(Owned(Block(b, items)) + frame)
    modifies h
    ensures ItemOk(env, env[id][k], v) && h.Holds(Owned(Block(b, items + [v])) + frame) && (old(h.failed) ==> h.failed)
    ensures Clean(v, ok, old(h.wild), h.wild)
    ensures Fulfils(DecValue(env, env[id][k], Msg(Defaults(env, env[id][k].sub)), s), ok,
                    ItemValue(env, env[id][k], v), n, h.failed)
    decreases |s|, 2
  {
    hide CountedEnv, Owned, OwnedAll, DataOk, PlaceOk, DataValue, PlaceValue, DecValue, DecBasic, NewPlace, Defaults, Text,
         Wild, Tidy;
    var f := env[id][k];
    ghost var rest := OwnedAll(items) + multiset{b} + frame;
    NilText();
    OwnedLonger(b, items, Nil, frame);
    if TextType(f.lt) {
      BasicValue(env, f, Msg(Defaults(env, f.sub)), s);
      assert multiset{} + rest == rest;
      ok, v, n := DecodeText(h, f, Nil, s, rest);
      TextTidy(v);
      TextData(env, f, v);
    } else {
      NewPlaceOk(env, id, k);
      v := NewPlace(env, f);
      assert Owned(v) + rest == rest;
      ok, v, n := DecodePlace(h, env, f, v, s, rest);
      StaticItemValue(env, f, v);
    }
    OwnedLonger(b, items, v, frame);
  }

  lemma NilText()
    ensures Text(Nil) && Owned(Nil) == multiset{} && !Wild(Nil) && Tidy(Nil)
  {
  }

  /** One element appended to a dynamic array. */
  method DecodeItem(h: Heap, env: Env, id: nat, k: nat, c: Node, wt: nat, s: Bytes, ghost frame: multiset<nat>)
    returns (ok: bool, r: Node, n: nat)
    requires CountedEnv(env) && id < |env| && k < |env[id]| && !FixedCount(env[id][k])
    requires env[id][k].at == PTR && env[id][k].ht == REPEATED && !(wt == WT_STRING && Packable(env[id][k].lt))
    requires c.Counted? && RowOk(env, env[id][k], c.count, c.v) && !Wild(c) && h.Holds(Owned(c) + frame)
    modifies h
    ensures r.Counted? && RowOk(env, env[id][k], r.count, r.v) && h.Holds(Owned(r) + frame) && (old(h.failed) ==> h.failed)
    ensures Steady(c, r, ok, old(h.wild), h.wild)
    ensures Fulfils(DecSlot(env, env[id], k, Row(env, env[id][k], c), wt, s), ok, Row(env, env[id][k], r), n, h.failed)
    decreases |s|, 3
  {
    hide CountedEnv, OwnedAll, Owned, DecSlot, DecValue, Room, ItemValue, RowOk, Row, Defaults, Wild, Tidy;
    var f := env[id][k];
    ok, r, n := false, c, 0;
    RowNotStale(c);
    RowRoom(env, f, c);
    CountFits(env, f, c);
    ItemSpec(env, env[id], k, Row(env, f, c), wt, s);
    if c.count == PB_SIZE_MAX {
      return;
    }
    SizeFits(env, id, k);
    SmallFactors(f.dataSize, c.count + 1);
    OwnedCount(c);
    var p;
    ok, p := Reserve(h, c.v, f.dataSize, c.count + 1, frame);
    r := Counted(c.count, p);
    OwnedCount(r);
    RowMoved(env, f, c, p);
    if ok {
      var v;
      ok, v, n := DecodeElement(h, env, id, k, p.b, p.items, s, frame);
      RowLonger(env, f, r, v);
      TidyLonger(r, v);
      r := Counted(c.count + 1, Block(p.b, p.items + [v]));
      OwnedCount(r);
    }
  }

  lemma RowNotStale(c: Node)
    requires c.Counted? && !Wild(c)
    ensures !c.v.Stale?
  {
  }

  /** A dynamic array with one more element. */
  lemma TidyLonger(r: Node, v: Node)
    requires r.Counted? && r.v.Block?
    ensures var q := Counted(r.count + 1, Block(r.v.b, r.v.items + [v]));
            (Wild(q) <==> Wild(r) || Wild(v)) && (Tidy(q) <==> Tidy(r) && Tidy(v))
  {
    var items := r.v.items + [v];
    WildMore(items, |r.v.items|);
    assert WildAny(items, |r.v.items|) <==> WildAny(r.v.items, |r.v.items|) by {
      hide Wild;
      assert forall i :: 0 <= i < |r.v.items| ==> items[i] == r.v.items[i];
    }
    assert TidyAll(items) <==> TidyAll(r.v.items) && Tidy(v) by {
      hide Tidy;
      assert items[|r.v.items|] == v;
      assert forall i :: 0 <= i < |r.v.items| ==> items[i] == r.v.items[i];
    }
    assert Tidy(r) <==> Tidy(r.v);
  }

  lemma CountFits(env: Env, f: Field, c: Node)
    requires f.at == PTR && c.Counted? && RowOk(env, f, c.count, c.v) && !c.v.Stale?
    ensures c.count <= PB_SIZE_MAX && (c.v.Nil? || c.v.Block?)
  {
    hide ItemOk;
  }

  lemma OwnedCount(c: Node)
    requires c.Counted?
    ensures Owned(c) == Owned(c.v)
  {
  }

  /** A dynamic array before and after its block has been made larger. */
  lemma RowMoved(env: Env, f: Field, c: Node, p: Node)
    requires f.at == PTR && c.Counted? && RowOk(env, f, c.count, c.v) && !c.v.Stale?
    requires p == c.v || (p.Block? && p.items == (if c.v.Block? then c.v.items else []))
    ensures RowOk(env, f, c.count, p) && Row(env, f, Counted(c.count, p)) == Row(env, f, c)
    ensures !Wild(c) ==> !Wild(Counted(c.count, p))
    ensures Tidy(c) ==> Tidy(Counted(c.count, p))
  {
    hide ItemOk, Wild, Tidy;
    if p != c.v {
      MovedTidy(c, p);
    }
  }

  lemma Nothing()
    ensures TidyAll([])
  {
  }

  lemma MovedTidy(c: Node, p: Node)
    requires c.Counted? && (c.v.Nil? || c.v.Block?) && p.Block? && p.items == (if c.v.Block? then c.v.items else [])
    ensures Wild(c) <==> Wild(Counted(c.count, p))
    ensures Tidy(c) <==> Tidy(Counted(c.count, p))
  {
    hide TidyAll;
    assert TidyAll([]) by {
      Nothing();
    }
    assert Tidy(c) <==> Tidy(c.v);
    assert Tidy(Counted(c.count, p)) <==> Tidy(p);
    assert Wild(c) <==> Wild(c.v);
    assert Wild(Counted(c.count, p)) <==> Wild(p);
  }

  lemma RowLonger(env: Env, f: Field, r: Node, v: Node)
    requires f.at == PTR && r.Counted? && r.v.Block? && RowOk(env, f, r.count, r.v) && r.count < PB_SIZE_MAX
    requires ItemOk(env, f, v)
    ensures var q := Counted(r.count + 1, Block(r.v.b, r.v.items + [v]));
            RowOk(env, f, q.count, q.v) && Row(env, f, q) == Arr(Row(env, f, r).items + [ItemValue(env, f, v)])
  {
    hide ItemOk, ItemValue;
    ItemsMore(env, f, r.v.items, v);
    assert Elements(r.count, r.v) == r.v.items;
    assert Elements(r.count + 1, Block(r.v.b, r.v.items + [v])) == r.v.items + [v];
  }

  /** A packed payload appended to a dynamic array of numbers: room is made for as many as the bytes
      left may hold, and a failure keeps the elements decoded so far. */
  method DecodePacked(h: Heap, env: Env, id: nat, k: nat, c: Node, s: Bytes, ghost frame: multiset<nat>)
    returns (ok: bool, r: Node, n: nat)
    requires CountedEnv(env) && id < |env| && k < |env[id]| && !FixedCount(env[id][k])
    requires env[id][k].at == PTR && env[id][k].ht == REPEATED && Packable(env[id][k].lt)
    requires c.Counted? && RowOk(env, env[id][k], c.count, c.v) && !Wild(c) && h.Holds(Owned(c) + frame)
    modifies h
    ensures r.Counted? && RowOk(env, env[id][k], r.count, r.v) && h.Holds(Owned(r) + frame) && (old(h.failed) ==> h.failed)
    ensures Steady(c, r, ok, old(h.wild), h.wild)
    ensures Fulfils(DecSlot(env, env[id], k, Row(env, env[id][k], c), WT_STRING, s), ok, Row(env, env[id][k], r), n, h.failed)
  {
    hide CountedEnv, DecVarint32, DecBasic, DecItems, Prepend, DecSlot, Room, Row, RowOk, Owned, OwnedAll, Wild, Tidy;
    var f := env[id][k];
    ok, r, n := false, c, 0;
    SizeFits(env, id, k);
    PackedSpec(env, env[id], k, Row(env, f, c), s);
    RowNotStale(c);
    RowRoom(env, f, c);
    CountFits(env, f, c);
    var p := DecVarint32(s);
    if p.Err? || |s| - p.n < p.v {
      return;
    }
    n := p.n + p.v;
    var sub, capacity := s[p.n..n], c.count;
    ghost var payload := sub;
    ghost var vs: seq<Value> := [];
    PrependEnds(f, payload, PB_SIZE_MAX - c.count, vs);
    assert Row(env, f, c).items + vs == Row(env, f, c).items;
    while sub != []
      invariant r.Counted? && RowOk(env, f, r.count, r.v) && h.Holds(Owned(r) + frame) && (old(h.failed) ==> h.failed)
      invariant r.count == c.count + |vs| <= capacity <= PB_SIZE_MAX && (r.count < capacity ==> r.v.Block?)
      invariant DecItems(f, payload, PB_SIZE_MAX - c.count) == Prepend(vs, DecItems(f, sub, PB_SIZE_MAX - r.count))
      invariant Row(env, f, r).items == Row(env, f, c).items + vs
      invariant !Wild(r) && (Tidy(c) ==> Tidy(r)) && h.wild == old(h.wild)
      decreases |sub|
    {
      PrependEnds(f, sub, PB_SIZE_MAX - r.count, vs);
      if r.count == PB_SIZE_MAX {
        return false, r, n;
      }
      if r.count + 1 > capacity {
        ok, r, capacity := Enlarge(h, env, id, k, r, |sub|, frame);
        if !ok {
          return;
        }
      }
      PrependStep(f, sub, PB_SIZE_MAX - r.count, vs);
      var v := DecBasic(f, sub);
      if v.Err? {
        return false, r, n;
      }
      sub := sub[v.n..];
      vs := vs + [v.v];
      AppendNumber(env, f, r, v.v);
      r := Counted(r.count + 1, Block(r.v.b, r.v.items + [Leaf(v.v)]));
    }
    PrependEnds(f, sub, PB_SIZE_MAX - r.count, vs);
    ok := true;
  }

  /** Room for as many more numbers as `left` bytes can hold, or for one if that is too many to count. */
  method Enlarge(h: Heap, env: Env, id: nat, k: nat, c: Node, left: nat, ghost frame: multiset<nat>)
    returns (ok: bool, r: Node, capacity: nat)
    requires id < |env| && k < |env[id]| && env[id][k].at == PTR && 1 <= env[id][k].dataSize <= PB_SIZE_MAX
    requires left > 0 && c.Counted? && RowOk(env, env[id][k], c.count, c.v) && !Wild(c)
    requires c.count < PB_SIZE_MAX && h.Holds(Owned(c) + frame)
    modifies h
    ensures r.Counted? && r.count == c.count && RowOk(env, env[id][k], r.count, r.v) && h.Holds(Owned(r) + frame)
    ensures Row(env, env[id][k], r) == Row(env, env[id][k], c)
    ensures r.count <= capacity <= PB_SIZE_MAX && h.failed == (old(h.failed) || !ok)
    ensures !Wild(r) && (Tidy(c) ==> Tidy(r)) && h.wild == old(h.wild)
    ensures ok ==> r.v.Block? && r.count < capacity && Grown(c.count, capacity, left, env[id][k].dataSize)
  {
    hide RowOk, Owned, Row, Wild, Tidy, Guess;
    var f := env[id][k];
    RowNotStale(c);
    CountFits(env, f, c);
    var remain := (left - 1) / f.dataSize + 1;
    NotNegative(left - 1, f.dataSize);
    GuessIs(left, f.dataSize, remain);
    capacity := if remain < PB_SIZE_MAX - c.count then c.count + remain else c.count + 1;
    SmallFactors(f.dataSize, capacity);
    OwnedCount(c);
    var q;
    ok, q := Reserve(h, c.v, f.dataSize, capacity, frame);
    RowMoved(env, f, c, q);
    r := Counted(c.count, q);
    OwnedCount(r);
  }

  lemma NotNegative(a: nat, b: nat)
    requires b > 0
    ensures a / b >= 0
  {
  }

  lemma AppendNumber(env: Env, f: Field, r: Node, v: Value)
    requires f.at == PTR && Packable(f.lt) && r.Counted? && r.v.Block? && RowOk(env, f, r.count, r.v)
    requires r.count < PB_SIZE_MAX
    ensures var q := Counted(r.count + 1, Block(r.v.b, r.v.items + [Leaf(v)]));
            && RowOk(env, f, q.count, q.v) && Owned(q) == Owned(r) && Wild(q) == Wild(r) && Tidy(q) == Tidy(r)
            && Row(env, f, q).items == Row(env, f, r).items + [v]
  {
    hide RowOk, Row, Wild, Tidy;
    LeafIs(v);
    TidyLonger(r, Leaf(v));
    NumberItem(env, f, v);
    RowLonger(env, f, r, Leaf(v));
    OwnedAppend(r.v.items, Leaf(v));
  }

  lemma LeafIs(v: Value)
    ensures Owned(Leaf(v)) == multiset{} && !Wild(Leaf(v)) && Tidy(Leaf(v))
  {
  }

  lemma NumberItem(env: Env, f: Field, v: Value)
    requires Packable(f.lt)
    ensures ItemOk(env, f, Leaf(v)) && ItemValue(env, f, Leaf(v)) == v
  {
    assert PlaceOk(env, f, Leaf(v)) && PlaceValue(env, f, Leaf(v)) == v;
  }

  // ----- An input for which pb_decode frees a pointer nobody has set -----

  method FreeStray(h: Heap) returns (ok: bool)
    requires h.Holds(multiset{})
    modifies h
    ensures !ok && h.wild
  {
    SampleTrapped();
    var r, n;
    ok, r, n := DecodeMessage(h, SAMPLE, 1, RAW_SAMPLE, SAMPLE_INPUT, multiset{});
  }
}
