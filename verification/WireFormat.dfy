/** The records of an encoded message as section "Message Structure" of the Encoding specification reads
    them, without any table: keys, wire types and payloads. */
module WireFormat {
  import opened Bits
  import opened Varint
  import opened Schema
  import opened Wrappers
  import opened DecodeSpec
  import opened EncodeSpec
  import opened Scalars
  import opened Messages
  import opened Prefix
  import opened RoundTrip
  import opened Framing

  /** A key and the bytes behind it, a length included. */
  datatype Record = Record(number: nat, wire: nat, payload: Bytes)

  /** How long the payload at the start of `s` is: a varint, eight bytes, a length and as many bytes, or
      four bytes; 0 if there is none. */
  function PayloadLen(wire: nat, s: Bytes): (n: nat)
    ensures n <= |s|
  {
    var n := VarintLen(s, 10);
    match wire
    case 0 => n
    case 1 => if |s| >= 8 then 8 else 0
    case 2 => if n > 0 && n + Groups(s[..n]) <= |s| then n + Groups(s[..n]) else 0
    case 5 => if |s| >= 4 then 4 else 0
    case _ => 0
  }

  /** The records of `s`; `None` if it is not a sequence of records. */
  function Records(s: Bytes): Option<seq<Record>>
    decreases |s|
  {
    if s == [] then Some([])
    else
      var n := VarintLen(s, 10);
      var key, rest := Groups(s[..n]), s[n..];
      var m := PayloadLen(key % 8, rest);
      if n == 0 || m == 0 then None
      else
        match Records(rest[m..])
        case None => None
        case Some(rs) => Some([Record(key / 8, key % 8, rest[..m])] + rs)
  }

  /** One record in front of others. */
  lemma RecordFirst(number: nat, wire: nat, payload: Bytes, t: Bytes)
    requires number < 0x2000_0000 && wire < 8 && payload != [] && PayloadLen(wire, payload + t) == |payload|
    ensures Records(EncTag(number, wire) + payload + t)
            == match Records(t) case Some(rs) => Some([Record(number, wire, payload)] + rs) case None => None
  {
    hide EncVarint, VarintLen, Groups, PayloadLen, Records;
    var key := number * 8 + wire;
    var e, s := EncVarint(key), EncTag(number, wire) + payload + t;
    EncSizes(key);
    EncLength(key, payload + t, 10);
    GroupsOfEnc(key);
    assert s == e + (payload + t) && s[..|e|] == e && s[|e|..] == payload + t;
    assert (payload + t)[|payload|..] == t && (payload + t)[..|payload|] == payload;
    assert key / 8 == number && key % 8 == wire;
    RecordAt(s, |e|, key, |payload|);
  }

  lemma RecordAt(s: Bytes, n: nat, key: nat, m: nat)
    requires s != [] && VarintLen(s, 10) == n > 0 && Groups(s[..n]) == key && PayloadLen(key % 8, s[n..]) == m > 0
    ensures Records(s) == match Records(s[n..][m..])
                          case Some(rs) => Some([Record(key / 8, key % 8, s[n..][..m])] + rs)
                          case None => None
  {
    hide VarintLen, Groups, PayloadLen;
  }

  /** The wire type a field of this type is written with. */
  function WireOf(lt: LType): nat
  {
    match lt
    case FIXED64 => 1
    case FIXED32 => 5
    case BYTES => 2
    case STRING => 2
    case FIXED_LENGTH_BYTES => 2
    case SUBMESSAGE => 2
    case _ => 0
  }

  lemma PrefixedLen(body: Bytes, t: Bytes)
    requires |body| < TWO_32
    ensures PayloadLen(2, Prefixed(body) + t) == |Prefixed(body)|
  {
    hide EncVarint, VarintLen, Groups;
    var e := EncVarint(|body|);
    EncSizes(|body|);
    EncLength(|body|, body + t, 10);
    GroupsOfEnc(|body|);
    assert Prefixed(body) + t == e + (body + t) && (e + (body + t))[..|e|] == e;
  }

  /** The payload of any value is as long as its wire type says. */
  lemma ValuePayload(env: Env, f: Field, v: Value, t: Bytes)
    requires ValidEnv(env) && GoodValue(env, f, v)
    ensures EncValue(env, f, v).Some? && EncValue(env, f, v).value != []
    ensures PayloadLen(WireOf(f.lt), EncValue(env, f, v).value + t) == |EncValue(env, f, v).value|
  {
    hide EncVarint, VarintLen, Groups, EncMsg, Good, InRange, Fits, PayloadLen, LittleBytes;
    if f.lt == SUBMESSAGE {
      MessageRoundTrip(env, f.sub, v.slots);
      PrefixedLen(EncMsg(env, f.sub, v.slots).value, t);
    } else {
      BasicRoundTrip(f, v, t);
      BasicPayload(f, v, t);
    }
  }

  lemma BasicPayload(f: Field, v: Value, t: Bytes)
    requires f.lt != SUBMESSAGE && GoodBasic(f, v) && EncBasic(f, v).Some?
    ensures PayloadLen(WireOf(f.lt), EncBasic(f, v).value + t) == |EncBasic(f, v).value|
  {
    hide EncVarint, VarintLen, Groups, InRange, Fits, LittleBytes, DecNumber;
    match v
    case Blob(bs) =>
      BlobEncoded(f, bs);
      PrefixedLen(bs, t);
    case Null => PrefixedLen([], t);
    case Num(n) => NumberPayload(f, n, t);
    case At(_, n) => NumberPayload(f, n, t);
  }

  lemma NumberPayload(f: Field, n: int, t: Bytes)
    requires GoodNumber(f, n) && EncNumber(f, n).Some?
    ensures PayloadLen(WireOf(f.lt), EncNumber(f, n).value + t) == |EncNumber(f, n).value|
  {
    hide EncVarint, VarintLen, Groups, LittleBytes;
    if f.lt != FIXED32 && f.lt != FIXED64 {
      var w := WireInteger(f, n);
      assert w < TWO_64;
      EncSizes(w);
      EncLength(w, t, 10);
    }
  }

  // ----- What a message is written as -----

  /** The records of a repeated field: one packed record of numbers, or one record for each element. */
  function ArrayRecords(env: Env, f: Field, items: seq<Value>): seq<Record>
  {
    if items == [] then []
    else if Packable(f.lt) then
      match EncItems(f, items)
      case Some(body) => [Record(f.tag, 2, Prefixed(body))]
      case None => []
    else ValueRecord(env, f, items[0]) + ArrayRecords(env, f, items[1..])
  }

  function ValueRecord(env: Env, f: Field, v: Value): seq<Record>
  {
    match EncValue(env, f, v)
    case Some(payload) => [Record(f.tag, WireOf(f.lt), payload)]
    case None => []
  }

  /** The records of one field: none if it is absent or passes for default. */
  function FieldRecords(env: Env, f: Field, slot: Slot): seq<Record>
  {
    match slot
    case Plain(v) =>
      if f.ht == OPTIONAL && (if f.at == PTR then v.Null? else IsDefault(env, f, slot)) then [] else ValueRecord(env, f, v)
    case Opt(has, v) => if has then ValueRecord(env, f, v) else []
    case Arr(items) => ArrayRecords(env, f, items)
    case Union(which, u) => if which == f.tag then ValueRecord(env, f, u) else []
    case Shared => []
  }

  /** The records of a message, in the order of its table. */
  function MessageRecords(env: Env, id: nat, slots: seq<Slot>, k: nat): seq<Record>
    requires id < |env| && |slots| == |env[id]| && k <= |slots|
    decreases |slots| - k
  {
    if k == |slots| then []
    else FieldRecords(env, env[id][k], slots[Loc(env[id], k)]) + MessageRecords(env, id, slots, k + 1)
  }

  /** The bytes `e` are the records `rs`, whatever comes behind them. */
  predicate Are(e: Option<Bytes>, rs: seq<Record>, t: Bytes)
  {
    && e.Some?
    && Records(e.value + t) == match Records(t) case Some(more) => Some(rs + more) case None => None
  }

  lemma AreNone(t: Bytes)
    ensures Are(Some([]), [], t)
  {
    assert [] + t == t;
    assert Records(t).Some? ==> [] + Records(t).value == Records(t).value;
  }

  lemma AreBoth(a: Option<Bytes>, x: seq<Record>, b: Option<Bytes>, y: seq<Record>, t: Bytes)
    requires b.Some? && Are(a, x, b.value + t) && Are(b, y, t)
    ensures Are(Append(a, b), x + y, t)
  {
    hide Records;
    assert a.value + b.value + t == a.value + (b.value + t);
    if Records(t).Some? {
      assert x + (y + Records(t).value) == (x + y) + Records(t).value;
    }
  }

  lemma OneRecordIs(number: nat, wire: nat, payload: Bytes, t: Bytes)
    requires number < 0x2000_0000 && wire < 8 && payload != [] && PayloadLen(wire, payload + t) == |payload|
    ensures Are(Some(EncTag(number, wire) + payload), [Record(number, wire, payload)], t)
  {
    hide Records, EncTag, PayloadLen;
    RecordFirst(number, wire, payload, t);
  }

  lemma ValueIs(env: Env, f: Field, v: Value, t: Bytes)
    requires ValidEnv(env) && GoodValue(env, f, v) && f.tag < 0x2000_0000
    ensures Are(EncRecord(env, f, v), ValueRecord(env, f, v), t)
  {
    hide Are, EncValue, GoodValue, PayloadLen;
    ValuePayload(env, f, v, t);
    OneRecordIs(f.tag, WireOf(f.lt), EncValue(env, f, v).value, t);
  }

  lemma {:induction false} ItemsAre(env: Env, f: Field, items: seq<Value>, t: Bytes)
    requires ValidEnv(env) && f.tag < 0x2000_0000 && !Packable(f.lt)
    requires forall i :: 0 <= i < |items| ==> GoodValue(env, f, items[i])
    ensures Are(EncRecords(env, f, items), ArrayRecords(env, f, items), t)
    decreases items
  {
    hide Are, EncRecord, GoodValue, ValueRecord;
    if items == [] {
      AreNone(t);
    } else {
      ItemsAre(env, f, items[1..], t);
      IsSome(EncRecords(env, f, items[1..]), ArrayRecords(env, f, items[1..]), t);
      ValueIs(env, f, items[0], EncRecords(env, f, items[1..]).value + t);
      AreBoth(EncRecord(env, f, items[0]), ValueRecord(env, f, items[0]),
              EncRecords(env, f, items[1..]), ArrayRecords(env, f, items[1..]), t);
    }
  }

  lemma IsSome(e: Option<Bytes>, rs: seq<Record>, t: Bytes)
    requires Are(e, rs, t)
    ensures e.Some?
  {
  }

  lemma ArrayIs(env: Env, f: Field, items: seq<Value>, t: Bytes)
    requires ValidEnv(env) && f.tag < 0x2000_0000 && GoodItems(env, f, items)
    ensures Are(EncArray(env, f, items), ArrayRecords(env, f, items), t)
  {
    hide Are, GoodValue, EncRecords, EncItems, EncBasic, PayloadLen, EncTag;
    if items == [] {
      AreNone(t);
    } else if Packable(f.lt) {
      PackedGood(env, f, items);
      ItemsRoundTrip(f, items, |items|);
      var body := EncItems(f, items).value;
      PrefixedLen(body, t);
      PrefixedSome(body);
      OneRecordIs(f.tag, 2, Prefixed(body), t);
    } else {
      ItemsAre(env, f, items, t);
    }
  }

  lemma PrefixedSome(body: Bytes)
    ensures Prefixed(body) != []
  {
    hide EncVarint;
  }

  lemma SlotIs(env: Env, id: nat, k: nat, slot: Slot, t: Bytes)
    requires ValidEnv(env) && id < |env| && k < |env[id]| && GoodSlot(env, env[id], k, slot)
    ensures Are(EncSlot(env, env[id][k], slot), FieldRecords(env, env[id][k], slot), t)
  {
    hide Are, GoodValue, GoodItems, EncRecord, EncArray, ValueRecord, ArrayRecords, IsDefault, FindTag;
    var f := env[id][k];
    assert ValidMessage(env, id) && ValidField(env, id, f);
    AreNone(t);
    match slot
    case Plain(v) =>
      if !v.Null? {
        ValueIs(env, f, v, t);
      }
    case Opt(has, v) =>
      if has {
        ValueIs(env, f, v, t);
      }
    case Arr(items) => ArrayIs(env, f, items, t);
    case Union(which, u) =>
      if which == f.tag {
        ValueIs(env, f, u, t);
      }
  }

  lemma {:induction false} FieldsAre(env: Env, id: nat, slots: seq<Slot>, k: nat)
    requires ValidEnv(env) && Good(env, id, slots) && k <= |slots|
    ensures Are(EncFrom(env, id, slots, k), MessageRecords(env, id, slots, k), [])
    decreases |slots| - k
  {
    hide Are, GoodSlot, EncSlot, FieldRecords;
    if k == |slots| {
      AreNone([]);
    } else {
      var f, slot := env[id][k], slots[Loc(env[id], k)];
      FieldsAre(env, id, slots, k + 1);
      IsSome(EncFrom(env, id, slots, k + 1), MessageRecords(env, id, slots, k + 1), []);
      SlotIs(env, id, k, slot, EncFrom(env, id, slots, k + 1).value + []);
      AreBoth(EncSlot(env, f, slot), FieldRecords(env, f, slot),
              EncFrom(env, id, slots, k + 1), MessageRecords(env, id, slots, k + 1), []);
    }
  }

  /** What pb_encode writes is, to any reader of the format, the records of the fields that are there, in
      the order of the table, each with the wire type of its type. */
  lemma EncodedRecords(env: Env, id: nat, slots: seq<Slot>)
    requires ValidEnv(env) && Good(env, id, slots)
    ensures EncMsg(env, id, slots).Some?
    ensures Records(EncMsg(env, id, slots).value) == Some(MessageRecords(env, id, slots, 0))
  {
    hide Good, EncFrom, MessageRecords;
    GoodSize(env, id, slots);
    FieldsAre(env, id, slots, 0);
    var e, rs := EncFrom(env, id, slots, 0), MessageRecords(env, id, slots, 0);
    assert Records([]) == Some([]) && e.value + [] == e.value && rs + [] == rs;
  }

  lemma GoodSize(env: Env, id: nat, slots: seq<Slot>)
    requires Good(env, id, slots)
    ensures id < |env| && |slots| == |env[id]|
  {
    hide GoodSlot;
  }

  // ----- Decoders that do not know the fields -----

  /** pb_skip_field passes over the payload of any value that was written. */
  lemma PayloadSkipped(env: Env, f: Field, v: Value)
    requires ValidEnv(env) && GoodValue(env, f, v)
    ensures EncValue(env, f, v).Some?
    ensures Skip(WireOf(f.lt), EncValue(env, f, v).value) == Ok((), |EncValue(env, f, v).value|)
  {
    hide EncVarint, DecVarint32, VarintLen, EncMsg, Good, InRange, Fits, LittleBytes, GoodNumber;
    if f.lt == SUBMESSAGE {
      MessageRoundTrip(env, f.sub, v.slots);
      PrefixedSkipped(EncMsg(env, f.sub, v.slots).value);
    } else {
      BasicRoundTrip(f, v, []);
      match v
      case Blob(bs) =>
        BlobEncoded(f, bs);
        PrefixedSkipped(bs);
      case Null => PrefixedSkipped([]);
      case Num(n) => NumberSkipped(f, n);
      case At(_, n) => NumberSkipped(f, n);
    }
  }

  lemma PrefixedSkipped(body: Bytes)
    requires |body| < TWO_32
    ensures Skip(2, Prefixed(body)) == Ok((), |Prefixed(body)|)
  {
    hide DecVarint32, EncVarint;
    RoundTrip32(|body|, body);
  }

  lemma NumberSkipped(f: Field, n: int)
    requires GoodNumber(f, n) && EncNumber(f, n).Some?
    ensures Skip(WireOf(f.lt), EncNumber(f, n).value) == Ok((), |EncNumber(f, n).value|)
  {
    hide EncVarint, VarintLen, LittleBytes;
    if f.lt != FIXED32 && f.lt != FIXED64 {
      var e := EncVarint(WireInteger(f, n));
      EncLength(WireInteger(f, n), [], |e|);
      assert e + [] == e;
    }
  }

  /** A record is skipped whole by a decoder whose table does not have its tag. */
  lemma RecordSkipped(F: Fields, env: Env, f: Field, v: Value)
    requires ValidEnv(env) && GoodValue(env, f, v) && 1 <= f.tag < 0x2000_0000 && FindTag(F, f.tag).None?
    ensures EncRecord(env, f, v).Some? && UnknownRecord(F, EncRecord(env, f, v).value)
  {
    hide EncValue, GoodValue, Skip, EncTag, UnknownRecord, FindTag;
    PayloadSkipped(env, f, v);
    UnknownFrom(F, f.tag, WireOf(f.lt), EncValue(env, f, v).value);
  }

  lemma {:induction false} RecordsSkipped(other: Env, id: nat, p: Progress, env: Env, f: Field, items: seq<Value>)
    requires id < |other| && |p.slots| == |other[id]|
    requires ValidEnv(env) && 1 <= f.tag < 0x2000_0000 && FindTag(other[id], f.tag).None?
    requires forall i :: 0 <= i < |items| ==> GoodValue(env, f, items[i])
    ensures EncRecords(env, f, items).Some? && Reads(other, id, p, EncRecords(env, f, items).value, p)
    decreases items
  {
    hide Reads, EncRecord, GoodValue, UnknownRecord, FindTag;
    if items == [] {
      ReadsNothing(other, id, p);
    } else {
      RecordSkipped(other[id], env, f, items[0]);
      UnknownReads(other, id, p, EncRecord(env, f, items[0]).value);
      RecordsSkipped(other, id, p, env, f, items[1..]);
      ReadsBoth(other, id, p, EncRecord(env, f, items[0]).value, p, EncRecords(env, f, items[1..]).value, p);
    }
  }

  lemma SlotSkipped(other: Env, id: nat, p: Progress, env: Env, of: nat, k: nat, slot: Slot)
    requires id < |other| && |p.slots| == |other[id]|
    requires ValidEnv(env) && of < |env| && k < |env[of]| && GoodSlot(env, env[of], k, slot)
    requires FindTag(other[id], env[of][k].tag).None?
    ensures EncSlot(env, env[of][k], slot).Some? && Reads(other, id, p, EncSlot(env, env[of][k], slot).value, p)
  {
    hide Reads, GoodValue, EncRecord, EncRecords, EncItems, EncTag, IsDefault, FindTag, UnknownRecord;
    var f := env[of][k];
    assert ValidMessage(env, of) && ValidField(env, of, f);
    ReadsNothing(other, id, p);
    match slot
    case Plain(v) =>
      if !v.Null? {
        ValueSkipped(other, id, p, env, f, v);
      }
    case Opt(has, v) =>
      if has {
        ValueSkipped(other, id, p, env, f, v);
      }
    case Arr(items) =>
      if Packable(f.lt) {
        PackedGood(env, f, items);
        ItemsRoundTrip(f, items, |items|);
        PackedSkipped(other, id, p, f, EncItems(f, items).value);
      } else {
        RecordsSkipped(other, id, p, env, f, items);
      }
    case Union(which, u) =>
      if which == f.tag {
        ValueSkipped(other, id, p, env, f, u);
      }
  }

  lemma ValueSkipped(other: Env, id: nat, p: Progress, env: Env, f: Field, v: Value)
    requires id < |other| && |p.slots| == |other[id]|
    requires ValidEnv(env) && GoodValue(env, f, v) && 1 <= f.tag < 0x2000_0000 && FindTag(other[id], f.tag).None?
    ensures EncRecord(env, f, v).Some? && Reads(other, id, p, EncRecord(env, f, v).value, p)
  {
    hide Reads, EncRecord, GoodValue, UnknownRecord, FindTag;
    RecordSkipped(other[id], env, f, v);
    UnknownReads(other, id, p, EncRecord(env, f, v).value);
  }

  lemma PackedSkipped(other: Env, id: nat, p: Progress, f: Field, body: Bytes)
    requires id < |other| && |p.slots| == |other[id]| && |body| < TWO_32
    requires 1 <= f.tag < 0x2000_0000 && FindTag(other[id], f.tag).None?
    ensures Reads(other, id, p, EncTag(f.tag, 2) + Prefixed(body), p)
  {
    hide Reads, EncTag, Prefixed, Skip, FindTag, UnknownRecord;
    PrefixedSkipped(body);
    UnknownFrom(other[id], f.tag, 2, Prefixed(body));
    UnknownReads(other, id, p, EncTag(f.tag, 2) + Prefixed(body));
  }

  lemma {:induction false} FieldsSkipped(other: Env, id: nat, p: Progress, env: Env, of: nat, slots: seq<Slot>, k: nat)
    requires id < |other| && |p.slots| == |other[id]|
    requires ValidEnv(env) && Good(env, of, slots) && k <= |slots|
    requires forall j :: 0 <= j < |env[of]| ==> FindTag(other[id], env[of][j].tag).None?
    ensures EncFrom(env, of, slots, k).Some? && Reads(other, id, p, EncFrom(env, of, slots, k).value, p)
    decreases |slots| - k
  {
    hide Reads, GoodSlot, EncSlot, FindTag;
    if k == |slots| {
      ReadsNothing(other, id, p);
    } else {
      var f, slot := env[of][k], slots[Loc(env[of], k)];
      SlotSkipped(other, id, p, env, of, k, slot);
      FieldsSkipped(other, id, p, env, of, slots, k + 1);
      ReadsBoth(other, id, p, EncSlot(env, f, slot).value, p, EncFrom(env, of, slots, k + 1).value, p);
    }
  }

  /** A whole message is passed over by a decoder whose table has none of its tags, leaving the struct as
      it was. */
  lemma MessageSkipped(other: Env, id: nat, p: Progress, env: Env, of: nat, slots: seq<Slot>)
    requires id < |other| && |p.slots| == |other[id]|
    requires ValidEnv(env) && Good(env, of, slots)
    requires forall j :: 0 <= j < |env[of]| ==> FindTag(other[id], env[of][j].tag).None?
    ensures EncMsg(env, of, slots).Some? && Reads(other, id, p, EncMsg(env, of, slots).value, p)
  {
    hide Reads, Good, EncFrom, FindTag;
    GoodSize(env, of, slots);
    FieldsSkipped(other, id, p, env, of, slots, 0);
  }
}
