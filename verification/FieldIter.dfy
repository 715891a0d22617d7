/** The cyclic field iterator and the byte offsets it computes step by step. */
module FieldIterator {
  import opened Schema
  import opened Wrappers

  /** The entry that closes every descriptor table. */
  const TERMINATOR: Field := Field(0, BOOL, REQUIRED, STATIC, 0, 0, 0, 0, 0, None)

  function Entry(F: Fields, k: nat): Field
  {
    if k < |F| then F[k] else TERMINATOR
  }

  /** Bytes a field takes in the struct. */
  function StructSize(f: Field): nat
  {
    if f.at == PTR then PTR_SIZE
    else if f.ht == REPEATED then f.dataSize * f.arraySize
    else f.dataSize
  }

  /** Offset of field `k` in the struct: gaps and sizes of everything before it, a union counted once. */
  function Offset(F: Fields, k: nat): nat
    requires k <= |F|
  {
    if k == |F| then 0
    else if k == 0 then F[0].dataOffset
    else if UnionTail(F, k) then Offset(F, k - 1)
    else Offset(F, k - 1) + StructSize(F[k - 1]) + F[k].dataOffset
  }

  lemma SizePositive(f: Field)
    requires f.dataSize >= 1 && (f.at == STATIC && f.ht == REPEATED ==> f.arraySize >= 1)
    ensures StructSize(f) >= 1
  {
  }

  lemma {:induction false} OffsetMonotone(env: Env, id: nat, i: nat, j: nat)
    requires id < |env| && ValidMessage(env, id) && i <= j < |env[id]|
    ensures var F := env[id];
            && Offset(F, i) <= Offset(F, j)
            && (Loc(F, i) <= i < Loc(F, j) ==> Offset(F, i) < Offset(F, j))
            && (Loc(F, j) <= i ==> Offset(F, i) == Offset(F, j) && Loc(F, i) == Loc(F, j))
    decreases j
  {
    hide StructSize;
    var F := env[id];
    if i < j {
      OffsetMonotone(env, id, i, j - 1);
      assert ValidField(env, id, F[j - 1]);
      SizePositive(F[j - 1]);
    }
  }

  /** The data offset tells the slots apart: two fields have the same one exactly when they are
      members of the same oneof. */
  lemma OffsetIdentifiesSlot(env: Env, id: nat, i: nat, j: nat)
    requires id < |env| && ValidMessage(env, id) && i < |env[id]| && j < |env[id]|
    ensures Offset(env[id], i) == Offset(env[id], j) <==> Loc(env[id], i) == Loc(env[id], j)
  {
    OffsetMonotone(env, id, if i <= j then i else j, if i <= j then j else i);
  }

  /** Where pSize points: into the struct, or at the decoder's own counter. */
  datatype Address = InStruct(offset: int) | Counter

  class FieldIter {
    const start: Fields
    var pos: nat
    var requiredFieldIndex: nat
    var pData: int
    var pSize: Address

    /** Everything but pSize, which the decoder may have redirected. */
    ghost predicate InPlace()
      reads this
    {
      && (pos < |start| || (start == [] && pos == 0))
      && requiredFieldIndex == RequiredBefore(start, pos)
      && pData == Offset(start, pos)
    }

    ghost predicate Valid()
      reads this
    {
      && InPlace()
      && (pSize == SizeAddress(start, pos) || (pSize == Counter && pos < |start| && FixedCount(start[pos])))
    }

    /** pb_field_iter_begin. */
    constructor (fields: Fields)
      ensures start == fields && pos == 0 && Valid() && pSize == SizeAddress(fields, 0)
    {
      start := fields;
      pos := 0;
      requiredFieldIndex := 0;
      pData := Entry(fields, 0).dataOffset;
      pSize := InStruct(Entry(fields, 0).dataOffset + Entry(fields, 0).sizeOffset);
    }

    /** The re-initialisation at the end of the table. */
    method Begin() returns (more: bool)
      modifies this
      ensures pos == 0 && Valid() && pSize == SizeAddress(start, 0) && more == (start != [])
    {
      pos := 0;
      requiredFieldIndex := 0;
      pData := Entry(start, 0).dataOffset;
      pSize := InStruct(pData + Entry(start, 0).sizeOffset);
      more := |start| > 0;
    }

    /** pb_field_iter_next: one step, wrapping to the first field after the last. */
    method Next() returns (more: bool)
      requires Valid() && SharedSize(start)
      modifies this
      ensures Valid() && more == (old(pos) + 1 < |start|) && pos == (if more then old(pos) + 1 else 0)
      ensures start != [] ==> pSize == SizeAddress(start, pos)
    {
      if pos >= |start| {
        return false;
      }
      var prev := start[pos];
      pos := pos + 1;
      if pos == |start| {
        var _ := Begin();
        return false;
      }
      var f := start[pos];
      var prevSize := prev.dataSize;
      if prev.ht == ONEOF && f.ht == ONEOF && f.dataOffset == PB_SIZE_MAX {
        return true;
      } else if prev.at == STATIC && prev.ht == REPEATED {
        prevSize := prevSize * prev.arraySize;
      } else if prev.at == PTR {
        prevSize := PTR_SIZE;
      }
      if prev.ht == REQUIRED {
        requiredFieldIndex := requiredFieldIndex + 1;
      }
      pData := pData + prevSize + f.dataOffset;
      pSize := InStruct(pData + f.sizeOffset);
      more := true;
    }

    /** pb_field_iter_find: one lap at most; it succeeds exactly when some field has the tag (or, in an
        empty table, the terminator does), and comes back to where it was when it fails. */
    method Find(tag: nat) returns (found: bool)
      requires Valid() && SharedSize(start)
      modifies this
      ensures Valid()
      ensures found == if start == [] then tag == 0 else FindTag(start, tag).Some?
      ensures found ==> Entry(start, pos).tag == tag
      ensures !found ==> pos == old(pos)
      ensures (pSize == old(pSize) && pos == old(pos)) || pSize == SizeAddress(start, pos)
    {
      var begin := pos;
      while true
        invariant Valid()
        invariant (pSize == old(pSize) && pos == old(pos)) || pSize == SizeAddress(start, pos)
        invariant start != [] ==> pos < |start| && begin < |start|
        invariant start == [] ==> pos == begin
        invariant forall i :: 0 <= i < |start| && Passed(begin, pos, i) ==> start[i].tag != tag
        decreases if pos >= begin then |start| - pos + begin else begin - pos
      {
        if Entry(start, pos).tag == tag {
          if start != [] {
            assert start[pos].tag == tag;
          }
          return true;
        }
        var _ := Next();
        if pos == begin {
          return false;
        }
      }
    }
  }

  /** Indices a lap from `begin` has passed when it stands at `pos`. */
  predicate Passed(begin: nat, pos: nat, i: nat)
  {
    if pos >= begin then begin <= i < pos else begin <= i || i < pos
  }

  /** pSize as the table defines it, relative to the data. */
  function SizeAddress(F: Fields, k: nat): Address
    requires k <= |F|
  {
    InStruct(Offset(F, k) + if k < |F| then F[k].sizeOffset else 0)
  }

  /** Members of a oneof name the same which_ member. */
  predicate SharedSize(F: Fields)
  {
    forall k :: 0 <= k < |F| && UnionTail(F, k) ==> F[k].sizeOffset == F[k - 1].sizeOffset
  }

  predicate SharedSizes(env: Env)
  {
    forall id :: 0 <= id < |env| ==> SharedSize(env[id])
  }

  /** The offsets C gives the members of a struct, as the data_offset macros record them: gaps behind
      members that end where pointers, static arrays and single values end. The next member of a union
      is marked by the largest 32-bit number. */
  predicate LaidOut(F: Fields, offsets: seq<nat>)
  {
    && |offsets| == |F| && (F != [] ==> F[0].dataOffset == offsets[0])
    && forall k :: 1 <= k < |F| ==>
         var f, prev, gap := F[k], F[k - 1], F[k].dataOffset;
         if prev.ht == ONEOF && f.ht == ONEOF && gap == 0xFFFF_FFFF then offsets[k] == offsets[k - 1]
         else match prev.at
              case PTR => offsets[k] == offsets[k - 1] + 8 + gap
              case STATIC =>
                if prev.ht == REPEATED then offsets[k] == offsets[k - 1] + prev.dataSize * prev.arraySize + gap
                else offsets[k] == offsets[k - 1] + prev.dataSize + gap
  }

  /** The running sum the iterator keeps is the member's offset. */
  lemma {:induction false} OffsetIsLayout(F: Fields, offsets: seq<nat>, k: nat)
    requires LaidOut(F, offsets) && k < |F|
    ensures Offset(F, k) == offsets[k]
  {
    if k > 0 {
      OffsetIsLayout(F, offsets, k - 1);
    }
  }

  /** The companion of a member, its flag, count or which_, lies where the table says it does from there. */
  lemma SizeIsLayout(F: Fields, offsets: seq<nat>, companions: seq<int>, k: nat)
    requires LaidOut(F, offsets) && |companions| == |F| && k < |F|
    requires F[k].sizeOffset == companions[k] - offsets[k]
    ensures SizeAddress(F, k) == InStruct(companions[k])
  {
    OffsetIsLayout(F, offsets, k);
  }

  /** What a pointer points to does not matter for the layout. */
  lemma {:induction false} PointeeSizes(F: Fields, G: Fields, k: nat)
    requires |F| == |G| && k < |F|
    requires forall i :: 0 <= i < |F| ==> F[i] == G[i] || (F[i].at == PTR && F[i].(dataSize := G[i].dataSize) == G[i])
    ensures Offset(F, k) == Offset(G, k)
  {
    if k > 0 {
      PointeeSizes(F, G, k - 1);
    }
  }
}
