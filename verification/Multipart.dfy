/** Alamofire's multipart/form-data encoder, in memory and streamed, and the framing it produces
    (RFC 2046 section 5.1.1). Text stands for its UTF-8 bytes. */
module Multipart {
  import opened Bits

  const CRLF: Bytes := [13, 10]
  const DASHES: Bytes := [45, 45]
  const COLON: Bytes := [58, 32]
  const BUFFER_SIZE: nat := 1024

  // ----- What is written -----

  type Headers = seq<(Bytes, Bytes)>

  datatype Part = Part(headers: Headers, body: Bytes)

  /** A part with its boundary flags. */
  datatype Framed = Framed(part: Part, initial: bool, last: bool)

  datatype BoundaryType = INITIAL | ENCAPSULATED | FINAL

  /** boundaryData. */
  function BoundaryData(kind: BoundaryType, boundary: Bytes): Bytes
  {
    match kind
    case INITIAL => DASHES + boundary + CRLF
    case ENCAPSULATED => CRLF + DASHES + boundary + CRLF
    case FINAL => CRLF + DASHES + boundary + DASHES + CRLF
  }

  function HeaderLines(headers: Headers): Bytes
  {
    if headers == [] then []
    else headers[0].0 + COLON + headers[0].1 + CRLF + HeaderLines(headers[1..])
  }

  function HeaderBlock(headers: Headers): Bytes
  {
    HeaderLines(headers) + CRLF
  }

  /** encodeHeaders. */
  method EncodeHeaders(headers: Headers) returns (headerText: Bytes)
    ensures headerText == HeaderBlock(headers)
  {
    headerText := [];
    for i := 0 to |headers|
      invariant HeaderLines(headers) == headerText + HeaderLines(headers[i..])
    {
      assert headers[i..][1..] == headers[i + 1..];
      headerText := headerText + (headers[i].0 + COLON + headers[i].1 + CRLF);
    }
    headerText := headerText + CRLF;
  }

  function Payload(p: Part): Bytes
  {
    HeaderBlock(p.headers) + p.body
  }

  function Segment(boundary: Bytes, f: Framed): Bytes
  {
    BoundaryData(if f.initial then INITIAL else ENCAPSULATED, boundary) + Payload(f.part)
    + if f.last then BoundaryData(FINAL, boundary) else []
  }

  function Segments(boundary: Bytes, fs: seq<Framed>): Bytes
  {
    if fs == [] then [] else Segment(boundary, fs[0]) + Segments(boundary, fs[1..])
  }

  /** The first part gets the initial boundary and the last one the final boundary; flags set by an
      earlier encoding stay. */
  function Mark(fs: seq<Framed>): (r: seq<Framed>)
    ensures |r| == |fs|
  {
    seq(|fs|, i requires 0 <= i < |fs| =>
      Framed(fs[i].part, fs[i].initial || i == 0, fs[i].last || i == |fs| - 1))
  }

  /** A part after its body stream has been read. */
  function Drained(f: Framed): Framed
  {
    f.(part := f.part.(body := []))
  }

  lemma NoSegments(boundary: Bytes)
    ensures Segments(boundary, []) == []
  {
  }

  lemma {:induction false} SegmentsAppend(boundary: Bytes, fs: seq<Framed>, f: Framed)
    ensures Segments(boundary, fs + [f]) == Segments(boundary, fs) + Segment(boundary, f)
  {
    hide Segment;
    if fs == [] {
      assert [] + [f] == [f] && [f][1..] == [];
    } else {
      SegmentsAppend(boundary, fs[1..], f);
      assert (fs + [f])[1..] == fs[1..] + [f];
    }
  }

  // ----- Streams -----

  /** A source of bytes: how many a read delivers is up to it, as is failing. */
  class InputStream {
    var rest: Bytes
    var streamError: bool

    constructor (data: Bytes)
      ensures rest == data && !streamError
    {
      rest, streamError := data, false;
    }

    /** True while bytes are left, and possibly once more after the last one. */
    method HasBytesAvailable() returns (yes: bool)
      ensures rest != [] ==> yes
    {
      yes := true;
      if rest == [] {
        yes := *;
      }
    }

    /** read(_:maxLength:): the first `bytesRead` bytes of the buffer are new. */
    method Read(maxLength: nat) returns (bytesRead: nat, buffer: Bytes)
      requires maxLength > 0
      modifies this
      ensures |buffer| == maxLength && bytesRead <= maxLength && (old(streamError) ==> streamError)
      ensures old(rest) == buffer[..bytesRead] + rest
      ensures !streamError && old(rest) != [] ==> bytesRead > 0
    {
      bytesRead, buffer := 0, seq(maxLength, _ => 0);
      if * {
        streamError := true;
      } else if rest != [] {
        bytesRead :| 1 <= bytesRead <= maxLength && bytesRead <= |rest|;
        buffer := rest[..bytesRead] + buffer[bytesRead..];
        rest := rest[bytesRead..];
      }
    }
  }

  /** A destination of bytes: how many a write accepts is up to it, as is failing and running out of
      space for a while. */
  class OutputStream {
    var written: Bytes
    var streamError: bool
    var answers: seq<bool>              // whether there is space, the next times; then it is up to the stream
    ghost var refusals: nat             // how often no space has been reported

    constructor (answers: seq<bool>)
      ensures written == [] && !streamError && refusals == 0 && this.answers == answers
    {
      written, streamError, refusals, this.answers := [], false, 0, answers;
    }

    method HasSpaceAvailable() returns (yes: bool)
      modifies this`refusals, this`answers
      ensures refusals == old(refusals) + if yes then 0 else 1
      ensures old(answers) != [] ==> yes == old(answers)[0] && answers == old(answers)[1..]
    {
      yes := *;
      if answers != [] {
        yes := answers[0];
        answers := answers[1..];
      }
      if !yes {
        refusals := refusals + 1;
      }
    }

    /** write(_:maxLength:). */
    method Write(buffer: Bytes, maxLength: nat) returns (n: nat)
      requires 0 < maxLength <= |buffer|
      modifies this`written, this`streamError
      ensures n <= maxLength && written == old(written) + buffer[..n] && (old(streamError) ==> streamError)
      ensures !streamError ==> n > 0
    {
      n := 0;
      if * {
        streamError := true;
      } else {
        n :| 1 <= n <= maxLength;
        written := written + buffer[..n];
      }
    }
  }

  /** `now` continues `was` while `data` was being written and the count of refusals went from `r` to `q`.
      On success all of `data` has been written if and only if space was never refused; with a refusal
      bytes are missing. Without one even a failure leaves a beginning of `data`. */
  predicate Extends(was: Bytes, now: Bytes, data: Bytes, r: nat, q: nat, ok: bool)
  {
    && r <= q && was <= now && |now| <= |was| + |data|
    && (r == q ==> now <= was + data)
    && (ok && r == q ==> now == was + data)
    && (ok && r < q ==> |now| < |was| + |data|)
  }

  /** Errors stay, and a failure comes from one of the two streams. */
  predicate Worse(inBefore: bool, inAfter: bool, outBefore: bool, outAfter: bool, ok: bool)
  {
    (inBefore ==> inAfter) && (outBefore ==> outAfter) && (!ok ==> inAfter || outAfter)
  }

  lemma ExtendsThen(a: Bytes, b: Bytes, c: Bytes, first: Bytes, second: Bytes, r: nat, q: nat, t: nat, ok: bool)
    requires Extends(a, b, first, r, q, true) && Extends(b, c, second, q, t, ok)
    ensures Extends(a, c, first + second, r, t, ok)
  {
    if r == t {
      assert a + (first + second) == b + second;
    }
  }

  lemma ExtendsNothing(boundary: Bytes, a: Bytes, r: nat)
    ensures Extends(a, a, Segments(boundary, []), r, r, true)
    ensures Extends(a, a, [], r, r, true)
  {
  }

  lemma ExtendsAll(a: Bytes, b: Bytes, data: Bytes, r: nat, q: nat)
    requires Extends(a, b, data, r, q, true)
    ensures a <= b && r <= q && (b == a + data <==> r == q)
  {
  }

  lemma ExtendsLess(a: Bytes, b: Bytes, first: Bytes, second: Bytes, whole: Bytes, r: nat, q: nat, ok: bool)
    requires Extends(a, b, first, r, q, ok) && whole == first + second
    ensures Extends(a, b, whole, r, q, false)
  {
    if r == q {
      assert a + whole == a + first + second;
    }
  }

  /** write(_:to:): repeated until everything is written or there is no space; what has been written is a
      beginning of the data, and all of it exactly when space was never refused. */
  method WriteBuffer(out: OutputStream, data: Bytes) returns (ok: bool)
    modifies out
    ensures old(out.written) <= out.written <= old(out.written) + data && out.refusals <= old(out.refusals) + 1
    ensures Extends(old(out.written), out.written, data, old(out.refusals), out.refusals, ok)
    ensures (old(out.streamError) ==> out.streamError) && (!ok ==> out.streamError)
    ensures data != [] && old(out.answers) != [] && !old(out.answers)[0] ==>
              ok && out.written == old(out.written) && out.streamError == old(out.streamError)
  {
    var buffer, bytesToWrite := data, |data|;
    while bytesToWrite > 0
      invariant bytesToWrite == |buffer| <= |data| || bytesToWrite == 0
      invariant out.refusals == old(out.refusals)
      invariant old(out.written) <= out.written && (old(out.streamError) ==> out.streamError)
      invariant old(out.written) + data == out.written + if bytesToWrite > 0 then buffer else []
      invariant old(out.answers) != [] && !old(out.answers)[0] ==>
                  out.answers == old(out.answers) && bytesToWrite == |data| && out.written == old(out.written)
                  && out.streamError == old(out.streamError)
    {
      var space := out.HasSpaceAvailable();
      if !space {
        break;
      }
      var n := out.Write(buffer, bytesToWrite);
      assert buffer == buffer[..n] + buffer[n..];
      if out.streamError {
        return false;
      }
      bytesToWrite := bytesToWrite - n;
      if bytesToWrite > 0 {
        buffer := buffer[n..];
      }
    }
    ok := true;
  }

  /** A stream that has no space once: all bytes are lost, and success is reported. */
  method WriteRefused(data: Bytes) returns (ok: bool, out: OutputStream)
    requires data != []
    ensures ok && !out.streamError && out.refusals == 1 && out.written == []
  {
    out := new OutputStream([false]);
    ok := WriteBuffer(out, data);
  }

  // ----- Parts and forms -----

  class BodyPart {
    const headers: Headers
    const bodyStream: InputStream
    var hasInitialBoundary: bool
    var hasFinalBoundary: bool

    constructor (headers: Headers, bodyStream: InputStream)
      ensures this.headers == headers && this.bodyStream == bodyStream
      ensures !hasInitialBoundary && !hasFinalBoundary
    {
      this.headers, this.bodyStream := headers, bodyStream;
      hasInitialBoundary, hasFinalBoundary := false, false;
    }

    /** The part as it would be written now. */
    function View(): Framed
      reads this, bodyStream
    {
      Framed(Part(headers, bodyStream.rest), hasInitialBoundary, hasFinalBoundary)
    }

    /** encodeBodyStream. */
    method EncodeBodyStream() returns (ok: bool, encoded: Bytes)
      modifies bodyStream
      ensures ok ==> encoded == old(bodyStream.rest) && bodyStream.rest == []
      ensures (old(bodyStream.streamError) ==> bodyStream.streamError) && (!ok ==> bodyStream.streamError)
    {
      encoded := [];
      while true
        invariant old(bodyStream.rest) == encoded + bodyStream.rest
        invariant old(bodyStream.streamError) ==> bodyStream.streamError
        decreases |bodyStream.rest|
      {
        var more := bodyStream.HasBytesAvailable();
        if !more {
          break;
        }
        var bytesRead, buffer := bodyStream.Read(BUFFER_SIZE);
        if bodyStream.streamError {
          return false, encoded;
        }
        if bytesRead == 0 {
          break;
        }
        encoded := encoded + buffer[..bytesRead];
      }
      ok := true;
    }

    /** encode(_ bodyPart:). */
    method Encode(boundary: Bytes) returns (ok: bool, encoded: Bytes)
      modifies bodyStream
      ensures ok ==> encoded == Segment(boundary, old(View())) && View() == Drained(old(View()))
      ensures (old(bodyStream.streamError) ==> bodyStream.streamError) && (!ok ==> bodyStream.streamError)
    {
      encoded := BoundaryData(if hasInitialBoundary then INITIAL else ENCAPSULATED, boundary);
      var headerData := EncodeHeaders(headers);
      encoded := encoded + headerData;
      var bodyStreamData;
      ok, bodyStreamData := EncodeBodyStream();
      if ok {
        encoded := encoded + bodyStreamData;
        if hasFinalBoundary {
          encoded := encoded + BoundaryData(FINAL, boundary);
        }
      }
    }

    /** writeBodyStream. */
    method WriteBodyStream(out: OutputStream) returns (ok: bool)
      modifies bodyStream, out
      ensures Extends(old(out.written), out.written, old(bodyStream.rest), old(out.refusals), out.refusals, ok)
      ensures ok ==> bodyStream.rest == []
      ensures Worse(old(bodyStream.streamError), bodyStream.streamError, old(out.streamError), out.streamError, ok)
    {
      hide Extends;
      ghost var done: Bytes := [];
      ghost var r := out.refusals;
      ExtendsNothing([], out.written, r);
      while true
        invariant old(bodyStream.rest) == done + bodyStream.rest
        invariant Extends(old(out.written), out.written, done, r, out.refusals, true)
        invariant Worse(old(bodyStream.streamError), bodyStream.streamError, old(out.streamError), out.streamError, true)
        decreases |bodyStream.rest|
      {
        var more := bodyStream.HasBytesAvailable();
        if !more {
          break;
        }
        var bytesRead, buffer := bodyStream.Read(BUFFER_SIZE);
        if bodyStream.streamError {
          ExtendsLess(old(out.written), out.written, done, buffer[..bytesRead] + bodyStream.rest,
                      old(bodyStream.rest), r, out.refusals, true);
          return false;
        }
        if bytesRead == 0 {
          break;
        }
        if |buffer| != bytesRead {
          buffer := buffer[..bytesRead];
        }
        ghost var was, q := out.written, out.refusals;
        ok := WriteBuffer(out, buffer);
        ExtendsThen(old(out.written), was, out.written, done, buffer, r, q, out.refusals, ok);
        done := done + buffer;
        if !ok {
          ExtendsLess(old(out.written), out.written, done, bodyStream.rest, old(bodyStream.rest), r, out.refusals, false);
          return false;
        }
      }
      assert done == old(bodyStream.rest);
      ok := true;
    }

    /** write(_ bodyPart:to:): boundary, headers, body, final boundary. */
    method WritePart(boundary: Bytes, out: OutputStream) returns (ok: bool)
      modifies bodyStream, out
      ensures Extends(old(out.written), out.written, Segment(boundary, old(View())), old(out.refusals), out.refusals, ok)
      ensures ok ==> View() == Drained(old(View()))
      ensures Worse(old(bodyStream.streamError), bodyStream.streamError, old(out.streamError), out.streamError, ok)
    {
      hide Extends, BoundaryData, HeaderBlock;
      var head := BoundaryData(if hasInitialBoundary then INITIAL else ENCAPSULATED, boundary);
      var block := EncodeHeaders(headers);
      ghost var body := bodyStream.rest;
      var tail := if hasFinalBoundary then BoundaryData(FINAL, boundary) else [];
      ghost var whole := Segment(boundary, View());
      ghost var r := out.refusals;
      InPieces(head, block, body, tail, whole);
      ok := WriteBuffer(out, head);
      ghost var afterHead, q := out.written, out.refusals;
      if !ok {
        ExtendsLess(old(out.written), afterHead, head, block + body + tail, whole, r, q, false);
        return;
      }
      ok := WriteBuffer(out, block);
      ghost var afterBlock, t := out.written, out.refusals;
      ExtendsThen(old(out.written), afterHead, afterBlock, head, block, r, q, t, ok);
      if !ok {
        ExtendsLess(old(out.written), afterBlock, head + block, body + tail, whole, r, t, false);
        return;
      }
      ok := WriteBodyStream(out);
      ghost var afterBody, u := out.written, out.refusals;
      ExtendsThen(old(out.written), afterBlock, afterBody, head + block, body, r, t, u, ok);
      if !ok {
        ExtendsLess(old(out.written), afterBody, head + block + body, tail, whole, r, u, false);
        return;
      }
      if hasFinalBoundary {
        ok := WriteBuffer(out, tail);
        ExtendsThen(old(out.written), afterBody, out.written, head + block + body, tail, r, u, out.refusals, ok);
      }
    }
  }

  lemma InPieces(head: Bytes, block: Bytes, body: Bytes, tail: Bytes, whole: Bytes)
    requires whole == head + (block + body) + tail
    ensures whole == head + (block + body + tail)
    ensures whole == head + block + (body + tail)
    ensures whole == head + block + body + tail
    ensures tail == [] ==> whole == head + block + body
  {
  }

  class MultipartFormData {
    const boundary: Bytes
    var bodyParts: seq<BodyPart>
    var bodyPartError: bool

    constructor (boundary: Bytes)
      ensures this.boundary == boundary && bodyParts == [] && !bodyPartError
    {
      this.boundary := boundary;
      bodyParts, bodyPartError := [], false;
    }

    /** No part and no stream is used twice. */
    ghost predicate Valid()
      reads this
    {
      forall i, j :: 0 <= i < j < |bodyParts| ==>
        bodyParts[i] != bodyParts[j] && bodyParts[i].bodyStream != bodyParts[j].bodyStream
    }

    /** append(_ data:headers:) and the other ways of adding a part. */
    method Append(data: Bytes, headers: Headers)
      requires Valid()
      modifies this`bodyParts
      ensures Valid() && |bodyParts| == old(|bodyParts|) + 1 && bodyParts[..old(|bodyParts|)] == old(bodyParts)
      ensures fresh(bodyParts[|bodyParts| - 1]) && fresh(bodyParts[|bodyParts| - 1].bodyStream)
      ensures bodyParts[|bodyParts| - 1].View() == Framed(Part(headers, data), false, false)
    {
      var stream := new InputStream(data);
      var part := new BodyPart(headers, stream);
      bodyParts := bodyParts + [part];
    }

    ghost function Streams(): set<InputStream>
      reads this
    {
      set p | p in bodyParts :: p.bodyStream
    }

    /** The parts as they would be written now. */
    ghost function Views(): (r: seq<Framed>)
      reads this, bodyParts, Streams()
      ensures |r| == |bodyParts|
    {
      seq(|bodyParts|, i requires 0 <= i < |bodyParts| reads this, bodyParts, Streams() => bodyParts[i].View())
    }

    /** The first and last parts get their flags. */
    method MarkParts()
      requires Valid()
      modifies bodyParts
      ensures Views() == Mark(old(Views()))
    {
      if bodyParts != [] {
        bodyParts[0].hasInitialBoundary := true;
        bodyParts[|bodyParts| - 1].hasFinalBoundary := true;
      }
    }

    /** Some part's stream has reported an error. */
    ghost predicate StreamsFailed()
      reads this, Streams()
    {
      exists i :: 0 <= i < |bodyParts| && bodyParts[i].bodyStream.streamError
    }

    /** encode(): the whole form, in one piece. */
    method Encode() returns (ok: bool, encoded: Bytes)
      requires Valid()
      modifies bodyParts, Streams()
      ensures ok ==> encoded == Segments(boundary, Mark(old(Views())))
      ensures ok ==> forall i :: 0 <= i < |bodyParts| ==> bodyParts[i].View() == Drained(Mark(old(Views()))[i])
      ensures bodyPartError ==> !ok
      ensures !ok ==> bodyPartError || StreamsFailed()
    {
      hide Segment, Segments, Mark, Drained;
      NoSegments(boundary);
      encoded := [];
      if bodyPartError {
        return false, encoded;
      }
      MarkParts();
      ghost var fs := Views();
      assert fs[..0] == [];
      var i := 0;
      while i < |bodyParts|
        invariant 0 <= i <= |bodyParts|
        invariant encoded == Segments(boundary, fs[..i])
        invariant forall j :: 0 <= j < i ==> bodyParts[j].View() == Drained(fs[j])
        invariant forall j :: i <= j < |bodyParts| ==> bodyParts[j].View() == fs[j]
      {
        var encodedData;
        ok, encodedData := bodyParts[i].Encode(boundary);
        if !ok {
          return;
        }
        SegmentsAppend(boundary, fs[..i], fs[i]);
        assert fs[..i + 1] == fs[..i] + [fs[i]];
        encoded := encoded + encodedData;
        i := i + 1;
      }
      assert fs[..i] == fs;
      ok := true;
    }

    /** writeEncodedData(to:): on success the same bytes as in one piece, if and only if the stream never
        reported that it had no space. */
    method WriteEncodedData(out: OutputStream) returns (ok: bool)
      requires Valid()
      modifies bodyParts, Streams(), out
      ensures ok ==> (out.written == old(out.written) + Segments(boundary, Mark(old(Views()))) <==> out.refusals == old(out.refusals))
      ensures ok ==> old(out.written) <= out.written && old(out.refusals) <= out.refusals
      ensures ok ==> forall i :: 0 <= i < |bodyParts| ==> bodyParts[i].View() == Drained(Mark(old(Views()))[i])
      ensures bodyPartError ==> !ok
      ensures !ok ==> bodyPartError || StreamsFailed() || out.streamError
    {
      hide Segment, Segments, Mark, Drained, Extends;
      ghost var r := out.refusals;
      ExtendsNothing(boundary, out.written, r);
      if bodyPartError {
        return false;
      }
      MarkParts();
      ghost var fs := Views();
      var i := 0;
      assert fs[..0] == [];
      while i < |bodyParts|
        invariant 0 <= i <= |bodyParts|
        invariant Extends(old(out.written), out.written, Segments(boundary, fs[..i]), r, out.refusals, true)
        invariant forall j :: 0 <= j < i ==> bodyParts[j].View() == Drained(fs[j])
        invariant forall j :: i <= j < |bodyParts| ==> bodyParts[j].View() == fs[j]
      {
        ghost var was, q := out.written, out.refusals;
        assert fs[..i + 1] == fs[..i] + [fs[i]];
        SegmentsAppend(boundary, fs[..i], fs[i]);
        ok := bodyParts[i].WritePart(boundary, out);
        if !ok {
          return;
        }
        ExtendsThen(old(out.written), was, out.written, Segments(boundary, fs[..i]), Segment(boundary, fs[i]), r, q, out.refusals, ok);
        i := i + 1;
      }
      assert fs[..i] == fs;
      ok := true;
      ExtendsAll(old(out.written), out.written, Segments(boundary, fs), r, out.refusals);
    }
  }
}
