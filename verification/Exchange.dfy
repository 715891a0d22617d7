/** A message from one program to another: sized, encoded into a buffer, decoded from it. */
module Exchange {
  import opened Bits
  import opened Schema
  import opened Wrappers
  import opened DecodeSpec
  import opened EncodeSpec
  import opened FieldIterator
  import opened Messages
  import opened ImplicitPresence
  import opened RoundTrip
  import opened Encoder
  import opened Input
  import opened Decoder

  /** pb_get_encoded_size announces what pb_encode then writes into any buffer that has room for it, and
      no other byte of the buffer changes; pb_decode of exactly those bytes takes them all and gives the
      message back. */
  method Transmit(env: Env, id: nat, slots: seq<Slot>, buffer: array<Byte>) returns (sent: bool, size: nat, dest: Struct)
    requires Ready(env, id) && Good(env, id, slots) && Typed(env, id, slots)
    modifies buffer
    ensures EncMsg(env, id, slots).Some? && size == |EncMsg(env, id, slots).value|
    ensures sent <==> size <= buffer.Length
    ensures sent ==> buffer[..] == EncMsg(env, id, slots).value + old(buffer[size..])
    ensures sent ==> dest.slots == Norm(env, id, slots)
    ensures sent ==> (dest.slots == Ideal(env, id, slots) <==> Kept(env, id, slots))
  {
    hide EncMsg, Good, Typed, Ready, Norm, Ideal, Kept, Decode, Emits;
    GoodSize(env, id, slots);
    ReadyTables(env, id);
    MessageRoundTrip(env, id, slots);
    ghost var e := EncMsg(env, id, slots).value;
    var known;
    known, size := GetEncodedSize(env, id, slots);
    dest := new Struct([]);
    var stream := new OStream.FromBuffer(buffer);
    ghost var a := stream.Now();
    var st := Encode(stream, env, id, slots);
    WholeBuffer(a, stream.Now(), e, st == Done);
    sent := st == Done;
    if sent {
      var input := new IStream.FromBuffer(buffer, stream.bytesWritten, false);
      assert input.Rest() == e;
      var ok := DecodeMessage(input, env, id, dest);
    }
  }

  lemma GoodSize(env: Env, id: nat, slots: seq<Slot>)
    requires Good(env, id, slots)
    ensures id < |env| && |slots| == |env[id]|
  {
  }

  lemma ReadyTables(env: Env, id: nat)
    requires Ready(env, id)
    ensures ValidEnv(env) && SharedSizes(env)
  {
  }

  /** Writing from the start of a buffer. */
  lemma WholeBuffer(a: Moment, b: Moment, e: Bytes, ok: bool)
    requires a.Valid() && b.Valid() && Emits(a, b, Some(e), ok)
    requires !a.sizing && a.at == 0 && a.written == 0 && a.max == |a.bytes|
    ensures ok <==> |e| <= |a.bytes|
    ensures ok ==> b.written == |e| && b.bytes == e + a.bytes[|e|..]
  {
  }
}
