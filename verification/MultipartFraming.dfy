/** Getting the parts back out of an encoded form (RFC 2046 section 5.1.1). */
module MultipartFraming {
  import opened Bits
  import opened Wrappers
  import opened Multipart

  // ----- Searching and splitting -----

  predicate At(d: Bytes, s: Bytes, i: nat)
  {
    i + |d| <= |s| && s[i..i + |d|] == d
  }

  predicate Occurs(d: Bytes, s: Bytes)
  {
    exists i :: 0 <= i <= |s| && At(d, s, i)
  }

  /** Where `d` first occurs in `s`. */
  function Index(d: Bytes, s: Bytes): (r: Option<nat>)
    requires d != []
    ensures r.Some? ==> At(d, s, r.value) && forall j :: 0 <= j < r.value ==> !At(d, s, j)
    ensures r.None? <==> !Occurs(d, s)
  {
    if |s| < |d| then None
    else if s[..|d|] == d then
      assert At(d, s, 0);
      Some(0)
    else
      Shifted(d, s);
      var r := Index(d, s[1..]);
      if r.None? then None else Some(r.value + 1)
  }

  lemma Dropped(s: Bytes, j: nat, n: nat)
    requires 1 <= j && j + n <= |s|
    ensures s[j..j + n] == s[1..][j - 1..j - 1 + n]
  {
  }

  lemma Shifted(d: Bytes, s: Bytes)
    requires d != [] && |d| <= |s| && s[..|d|] != d
    ensures forall j: nat {:trigger At(d, s[1..], j)} :: At(d, s, j + 1) <==> At(d, s[1..], j)
    ensures forall j: nat {:trigger At(d, s, j)} :: At(d, s, j) ==> j >= 1 && At(d, s[1..], j - 1)
    ensures Occurs(d, s) <==> Occurs(d, s[1..])
  {
    forall j: nat
      ensures At(d, s, j + 1) <==> At(d, s[1..], j)
    {
      if j + 1 + |d| <= |s| {
        Dropped(s, j + 1, |d|);
      }
    }
    assert s[0..|d|] == s[..|d|];
    forall j: nat | At(d, s, j)
      ensures j >= 1 && At(d, s[1..], j - 1)
    {
      if j >= 1 {
        Dropped(s, j, |d|);
      }
    }
    if Occurs(d, s[1..]) {
      var j :| 0 <= j <= |s[1..]| && At(d, s[1..], j);
      OccursAt(d, s, j + 1);
    }
  }

  lemma OccursAt(d: Bytes, s: Bytes, i: nat)
    requires At(d, s, i)
    ensures Occurs(d, s)
  {
  }

  /** The stretches between the occurrences of `d`. */
  function Split(d: Bytes, s: Bytes): (r: seq<Bytes>)
    requires d != []
    ensures |r| >= 1
    decreases |s|
  {
    match Index(d, s)
    case None => [s]
    case Some(i) => [s[..i]] + Split(d, s[i + |d|..])
  }

  lemma AtPrefix(d: Bytes, s: Bytes, i: nat)
    requires i <= |s|
    ensures forall j: nat :: At(d, s[..i], j) ==> At(d, s, j)
  {
    forall j: nat | At(d, s[..i], j)
      ensures At(d, s, j)
    {
      assert s[j..j + |d|] == s[..i][j..j + |d|];
    }
  }

  lemma IndexClean(d: Bytes, s: Bytes, i: nat)
    requires d != [] && Index(d, s) == Some(i)
    ensures !Occurs(d, s[..i])
  {
    AtPrefix(d, s, i);
  }

  lemma {:induction false} SplitClean(d: Bytes, s: Bytes)
    requires d != []
    ensures forall i :: 0 <= i < |Split(d, s)| ==> !Occurs(d, Split(d, s)[i])
    decreases |s|
  {
    hide Index, Occurs;
    match Index(d, s)
    case None =>
    case Some(i) =>
      IndexClean(d, s, i);
      SplitClean(d, s[i + |d|..]);
  }

  /** Only the first byte of `d` equals its first byte, so two occurrences cannot overlap. */
  predicate Borderless(d: Bytes)
  {
    d != [] && forall m :: 1 <= m < |d| ==> d[m] != d[0]
  }

  /** An occurrence that starts in `x` lies in `x`: it cannot reach into the `d` that follows. */
  lemma Overlap(d: Bytes, x: Bytes, y: Bytes, j: nat)
    requires Borderless(d) && j < |x| && At(d, x + d + y, j)
    ensures At(d, x, j)
  {
    var s, m := x + d + y, |x| - j;
    assert s[|x|] == d[0];
    if m >= |d| {
      assert x[j..j + |d|] == s[j..j + |d|];
    }
  }

  lemma FirstAtJoin(d: Bytes, x: Bytes, y: Bytes)
    requires Borderless(d) && !Occurs(d, x)
    ensures Index(d, x + d + y) == Some(|x|)
  {
    var s := x + d + y;
    assert s[|x|..|x| + |d|] == d;
    assert At(d, s, |x|);
    forall j | 0 <= j < |x|
      ensures At(d, s, j) ==> At(d, x, j)
    {
      if At(d, s, j) {
        Overlap(d, x, y, j);
      }
    }
  }

  lemma SplitAtJoin(d: Bytes, x: Bytes, y: Bytes)
    requires Borderless(d) && !Occurs(d, x)
    ensures Split(d, x + d + y) == [x] + Split(d, y)
  {
    FirstAtJoin(d, x, y);
    var s := x + d + y;
    assert s[..|x|] == x && s[|x| + |d|..] == y;
  }

  // ----- The delimiters of a form -----

  // The receiver's own idea of them: carriage return and line feed, two hyphens, and the colon and
  // space between the name and the value of a header.
  const LINE_END: Bytes := [13, 10]
  const HYPHENS: Bytes := [45, 45]
  const SEPARATOR: Bytes := [58, 32]

  function Delimiter(boundary: Bytes): (d: Bytes)
    ensures d == LINE_END + (HYPHENS + boundary) && |d| >= 4
  {
    LINE_END + (HYPHENS + boundary)
  }

  lemma DelimiterBorderless(boundary: Bytes)
    requires 13 !in boundary
    ensures Borderless(Delimiter(boundary))
  {
    var d := Delimiter(boundary);
    forall m | 1 <= m < |d|
      ensures d[m] != d[0]
    {
      if m >= 4 {
        assert d[m] == boundary[m - 4];
      }
    }
  }

  function Payloads(parts: seq<Part>): (r: seq<Bytes>)
    ensures |r| == |parts|
  {
    seq(|parts|, i requires 0 <= i < |parts| => Payload(parts[i]))
  }

  /** A form that has not been encoded yet. */
  function Fresh(parts: seq<Part>): (r: seq<Framed>)
    ensures |r| == |parts|
  {
    seq(|parts|, i requires 0 <= i < |parts| => Framed(parts[i], false, false))
  }

  /** The bytes of the first encoding of a form. */
  function FormBytes(boundary: Bytes, parts: seq<Part>): Bytes
  {
    Segments(boundary, Mark(Fresh(parts)))
  }

  /** The delimiters and payloads from one delimiter to the end. */
  function Chain(boundary: Bytes, payloads: seq<Bytes>): Bytes
  {
    if payloads == [] then Delimiter(boundary) + (HYPHENS + LINE_END)
    else Delimiter(boundary) + ((LINE_END + payloads[0]) + Chain(boundary, payloads[1..]))
  }

  lemma FromPart(parts: seq<Part>, i: nat)
    requires i < |parts|
    ensures Mark(Fresh(parts))[i..] == [Framed(parts[i], i == 0, i == |parts| - 1)] + Mark(Fresh(parts))[i + 1..]
    ensures Payloads(parts)[i..] == [Payload(parts[i])] + Payloads(parts)[i + 1..]
  {
    hide Payload;
  }

  lemma ChainStep(boundary: Bytes, f: Framed, fs: seq<Framed>, p: Bytes, ps: seq<Bytes>)
    requires p == Payload(f.part)
    requires Chain(boundary, ps) == (if f.last then BoundaryData(FINAL, boundary) else []) + Segments(boundary, fs)
    ensures (if f.initial then LINE_END else []) + Segments(boundary, [f] + fs) == Chain(boundary, [p] + ps)
  {
    hide Payload;
    var lead := if f.initial then LINE_END else [];
    var start := BoundaryData(if f.initial then INITIAL else ENCAPSULATED, boundary);
    assert lead + start == Delimiter(boundary) + LINE_END;
    assert ([f] + fs)[1..] == fs && ([p] + ps)[1..] == ps;
    Regroup(lead, start, p, Delimiter(boundary), LINE_END,
            if f.last then BoundaryData(FINAL, boundary) else [], Segments(boundary, fs));
  }

  lemma {:induction false} SegmentsChain(boundary: Bytes, parts: seq<Part>, i: nat)
    requires i < |parts|
    ensures (if i == 0 then LINE_END else []) + Segments(boundary, Mark(Fresh(parts))[i..])
            == Chain(boundary, Payloads(parts)[i..])
    decreases |parts| - i
  {
    hide Payload, Mark, Fresh, Payloads;
    var fs, ps := Mark(Fresh(parts))[i + 1..], Payloads(parts)[i + 1..];
    FromPart(parts, i);
    if i + 1 < |parts| {
      SegmentsChain(boundary, parts, i + 1);
    } else {
      assert fs == [] && ps == [];
    }
    ChainStep(boundary, Framed(parts[i], i == 0, i == |parts| - 1), fs, Payload(parts[i]), ps);
  }

  lemma Regroup(lead: Bytes, start: Bytes, p: Bytes, d: Bytes, e: Bytes, close: Bytes, rest: Bytes)
    requires lead + start == d + e
    ensures lead + ((start + p + close) + rest) == d + ((e + p) + (close + rest))
  {
    assert lead + ((start + p + close) + rest) == (lead + start) + p + close + rest;
    assert d + ((e + p) + (close + rest)) == (d + e) + p + close + rest;
  }

  /** The part is free of delimiters, counting the LINE_END that ends the boundary line before it. */
  predicate Clear(boundary: Bytes, payload: Bytes)
  {
    !Occurs(Delimiter(boundary), LINE_END + payload)
  }

  function Lined(payloads: seq<Bytes>): (r: seq<Bytes>)
    ensures |r| == |payloads|
  {
    seq(|payloads|, i requires 0 <= i < |payloads| => LINE_END + payloads[i])
  }

  lemma NoDelimiterInClose(boundary: Bytes)
    ensures !Occurs(Delimiter(boundary), HYPHENS + LINE_END)
  {
    var d, s := Delimiter(boundary), HYPHENS + LINE_END;
    forall i | 0 <= i <= |s|
      ensures !At(d, s, i)
    {
      assert d[0] == 13;
    }
  }

  lemma {:induction false} SplitChain(boundary: Bytes, x: Bytes, payloads: seq<Bytes>)
    requires 13 !in boundary && !Occurs(Delimiter(boundary), x)
    requires forall i :: 0 <= i < |payloads| ==> Clear(boundary, payloads[i])
    ensures Split(Delimiter(boundary), x + Chain(boundary, payloads)) == [x] + Lined(payloads) + [HYPHENS + LINE_END]
    decreases payloads
  {
    hide Occurs, Delimiter, Split, Index, Borderless;
    var d := Delimiter(boundary);
    DelimiterBorderless(boundary);
    if payloads == [] {
      NoDelimiterInClose(boundary);
      SplitAtJoin(d, x, HYPHENS + LINE_END);
      SplitWhole(d, HYPHENS + LINE_END);
      assert x + Chain(boundary, payloads) == x + d + (HYPHENS + LINE_END);
    } else {
      var rest := (LINE_END + payloads[0]) + Chain(boundary, payloads[1..]);
      assert Clear(boundary, payloads[0]);
      SplitAtJoin(d, x, rest);
      assert x + Chain(boundary, payloads) == x + d + rest;
      SplitChain(boundary, LINE_END + payloads[0], payloads[1..]);
      assert [LINE_END + payloads[0]] + Lined(payloads[1..]) == Lined(payloads);
    }
  }

  lemma SplitWhole(d: Bytes, s: Bytes)
    requires d != [] && !Occurs(d, s)
    ensures Split(d, s) == [s]
  {
  }

  /** A receiver: cut at the delimiters, of which the first one may start the body, the last one is
      followed by two dashes and the others by a line end. */
  function ParseForm(boundary: Bytes, data: Bytes): Option<seq<Bytes>>
  {
    var cuts := Split(Delimiter(boundary), LINE_END + data);
    var n := |cuts|;
    if n >= 2 && cuts[0] == [] && cuts[n - 1] == HYPHENS + LINE_END && forall i :: 1 <= i < n - 1 ==> LINE_END <= cuts[i]
    then Some(seq(n - 2, i requires 0 <= i < n - 2 => cuts[i + 1][2..]))
    else None
  }

  /** Exactly the payloads come back if and only if no part as framed contains a delimiter. */
  lemma {:induction false} FramingRecoverable(boundary: Bytes, parts: seq<Part>)
    requires 13 !in boundary && parts != []
    ensures ParseForm(boundary, FormBytes(boundary, parts)) == Some(Payloads(parts))
            <==> forall i :: 0 <= i < |parts| ==> Clear(boundary, Payload(parts[i]))
  {
    hide Occurs, Split, Delimiter, Segments;
    var d, ps, data := Delimiter(boundary), Payloads(parts), FormBytes(boundary, parts);
    assert Mark(Fresh(parts))[0..] == Mark(Fresh(parts)) && ps[0..] == ps;
    SegmentsChain(boundary, parts, 0);
    var cuts := Split(d, LINE_END + data);
    SplitClean(d, LINE_END + data);
    if forall i :: 0 <= i < |parts| ==> Clear(boundary, Payload(parts[i])) {
      NothingIn(boundary);
      assert [] + Chain(boundary, ps) == Chain(boundary, ps);
      SplitChain(boundary, [], ps);
      ParseOf(boundary, data, ps);
    } else if ParseForm(boundary, data) == Some(ps) {
      forall i | 0 <= i < |parts|
        ensures Clear(boundary, Payload(parts[i]))
      {
        assert ps[i] == cuts[i + 1][2..] && cuts[i + 1] == LINE_END + cuts[i + 1][2..];
      }
    }
  }

  function Joined(separator: Bytes, payloads: seq<Bytes>): Bytes
    requires payloads != []
  {
    if |payloads| == 1 then payloads[0] else payloads[0] + separator + Joined(separator, payloads[1..])
  }

  lemma Regrouped(d: Bytes, e: Bytes, p: Bytes, x: Bytes, y: Bytes)
    ensures d + ((e + p) + (x + y)) == (d + e) + (p + x) + y
    ensures d + ((e + p) + y) == (d + e) + p + y
  {
    assert d + ((e + p) + (x + y)) == d + e + p + x + y == (d + e) + (p + x) + y;
  }

  lemma {:induction false} ChainJoined(boundary: Bytes, payloads: seq<Bytes>)
    requires payloads != []
    ensures Chain(boundary, payloads)
            == [13, 10] + ([45, 45] + boundary + [13, 10])
               + Joined([13, 10, 45, 45] + boundary + [13, 10], payloads) + ([13, 10, 45, 45] + boundary + [45, 45, 13, 10])
    decreases payloads
  {
    hide Delimiter;
    var b, separator := boundary, [13, 10, 45, 45] + boundary + [13, 10];
    var open: Bytes, close: Bytes := [13, 10] + ([45, 45] + b + [13, 10]), [13, 10, 45, 45] + b + [45, 45, 13, 10];
    var d := Delimiter(b);
    assert d + LINE_END == open == separator;
    var p, rest := payloads[0], payloads[1..];
    if rest == [] {
      assert Chain(b, rest) == d + (HYPHENS + LINE_END) == close;
      Regrouped(d, LINE_END, p, [], close);
      assert open + [] + close == open + close && p + [] == p;
    } else {
      ChainJoined(b, rest);
      Regrouped(d, LINE_END, p, open + Joined(separator, rest), close);
      assert p + separator + Joined(separator, rest) == p + (separator + Joined(separator, rest));
    }
  }

  /** The bytes of a form, as section 5.1.1 of RFC 2046 lays them down. */
  lemma FormLines(boundary: Bytes, parts: seq<Part>)
    requires parts != []
    ensures FormBytes(boundary, parts)
            == [45, 45] + boundary + [13, 10] + Joined([13, 10, 45, 45] + boundary + [13, 10], Payloads(parts))
               + [13, 10, 45, 45] + boundary + [45, 45, 13, 10]
  {
    hide Segments, Payloads, Chain, Joined;
    var data, ps := FormBytes(boundary, parts), Payloads(parts);
    assert Mark(Fresh(parts))[0..] == Mark(Fresh(parts)) && ps[0..] == ps;
    SegmentsChain(boundary, parts, 0);
    ChainJoined(boundary, ps);
    var line: Bytes, body := [45, 45] + boundary + [13, 10], Joined([13, 10, 45, 45] + boundary + [13, 10], ps);
    var close: Bytes := [13, 10, 45, 45] + boundary + [45, 45, 13, 10];
    assert LINE_END + data == [13, 10] + line + body + close;
    assert data == (LINE_END + data)[2..] == line + body + close;
    assert line + body + close == [45, 45] + boundary + [13, 10] + body + [13, 10, 45, 45] + boundary + [45, 45, 13, 10];
  }

  lemma MarkedAgain(parts: seq<Part>, p: Part)
    requires parts != []
    ensures Mark(Mark(Fresh(parts)) + Fresh([p])) == Mark(Fresh(parts)) + [Framed(p, false, true)]
  {
  }

  lemma LastSegment(boundary: Bytes, p: Part)
    ensures Segment(boundary, Framed(p, false, true))
            == ([13, 10, 45, 45] + boundary + [13, 10] + Payload(p)) + ([13, 10, 45, 45] + boundary + [45, 45, 13, 10])
  {
    hide Payload;
  }

  /** A form that is encoded, extended and encoded again: the part that was last keeps its final boundary,
      so that what was appended follows the end of the form. */
  lemma ExtendedForm(boundary: Bytes, parts: seq<Part>, p: Part)
    requires parts != []
    ensures Segments(boundary, Mark(Mark(Fresh(parts)) + Fresh([p])))
            == FormBytes(boundary, parts) + ([13, 10, 45, 45] + boundary + [13, 10] + Payload(p))
               + ([13, 10, 45, 45] + boundary + [45, 45, 13, 10])
  {
    hide Payload, Segments, Segment, Mark, Fresh;
    var fs, f := Mark(Fresh(parts)), Framed(p, false, true);
    MarkedAgain(parts, p);
    SegmentsAppend(boundary, fs, f);
    LastSegment(boundary, p);
    var open: Bytes := [13, 10, 45, 45] + boundary + [13, 10] + Payload(p);
    var close: Bytes := [13, 10, 45, 45] + boundary + [45, 45, 13, 10];
    assert FormBytes(boundary, parts) + (open + close) == FormBytes(boundary, parts) + open + close;
  }

  lemma ParseOf(boundary: Bytes, data: Bytes, ps: seq<Bytes>)
    requires Split(Delimiter(boundary), LINE_END + data) == [[]] + Lined(ps) + [HYPHENS + LINE_END]
    ensures ParseForm(boundary, data) == Some(ps)
  {
    hide Split, Delimiter;
    var cuts := Split(Delimiter(boundary), LINE_END + data);
    forall i | 0 <= i < |ps|
      ensures LINE_END <= cuts[i + 1] && cuts[i + 1][2..] == ps[i]
    {
      assert cuts[i + 1] == LINE_END + ps[i];
    }
    assert ParseForm(boundary, data).Some?;
    assert ParseForm(boundary, data).value == ps;
  }

  lemma NothingIn(boundary: Bytes)
    ensures !Occurs(Delimiter(boundary), [])
  {
  }

  // ----- Which parts are clear -----

  /** An occurrence inside `s` is one inside `x + s + y`. */
  lemma OccursWithin(d: Bytes, x: Bytes, s: Bytes, y: Bytes)
    requires Occurs(d, s)
    ensures Occurs(d, x + s + y)
  {
    var i :| 0 <= i <= |s| && At(d, s, i);
    assert (x + s + y)[|x| + i..|x| + i + |d|] == s[i..i + |d|];
    OccursAt(d, x + s + y, |x| + i);
  }

  /** The delimiter completed by a line end that precedes the two dashes and the boundary. */
  lemma OccursAfterLineEnd(boundary: Bytes, x: Bytes, s: Bytes)
    requires HYPHENS + boundary <= s
    ensures Occurs(Delimiter(boundary), x + LINE_END + s)
  {
    var d, t := Delimiter(boundary), x + LINE_END + s;
    assert s == (HYPHENS + boundary) + s[|boundary| + 2..];
    assert t == x + (d + s[|boundary| + 2..]);
    assert t[|x|..|x| + |d|] == d;
    OccursAt(d, t, |x|);
  }

  /** No delimiter starts inside a line end or reaches past the start of one. */
  lemma NotAcrossLineEnd(boundary: Bytes, s: Bytes, i: nat, e: nat)
    requires 13 !in boundary && At(Delimiter(boundary), s, i) && e + 1 < |s| && s[e] == 13 && s[e + 1] == 10
    ensures i != e + 1 && !(i < e < i + |boundary| + 4)
  {
    hide Delimiter;
    var d := Delimiter(boundary);
    DelimiterBorderless(boundary);
    assert s[i] == s[i..i + |d|][0] == 13;
    assert forall m :: 0 <= m < |d| ==> s[i + m] == d[m];
  }

  /** An occurrence inside `x + s + y` that lies within `s`. */
  lemma AtWithin(d: Bytes, x: Bytes, s: Bytes, y: Bytes, i: nat)
    requires At(d, x + s + y, |x| + i) && i + |d| <= |s|
    ensures At(d, s, i)
  {
    assert (x + s + y)[|x| + i..|x| + i + |d|] == s[i..i + |d|];
  }

  /** A delimiter that begins with a given line end. */
  lemma AtLineEnd(boundary: Bytes, x: Bytes, t: Bytes)
    requires At(Delimiter(boundary), x + LINE_END + t, |x|)
    ensures HYPHENS + boundary <= t
  {
    var s, d := x + LINE_END + t, Delimiter(boundary);
    assert s[|x|..|x| + |d|][2..] == HYPHENS + boundary;
    assert s[|x|..|x| + |d|] == (LINE_END + t)[..|d|];
    assert (LINE_END + t)[..|d|][2..] == t[..|boundary| + 2];
  }

  /** Where a delimiter can lie in a line end, a header block and a body. */
  lemma WhereDelimiterLies(boundary: Bytes, lines: Bytes, body: Bytes, i: nat)
    requires 13 !in boundary && At(Delimiter(boundary), LINE_END + (lines + LINE_END + body), i)
    ensures || Occurs(Delimiter(boundary), lines + LINE_END) || Occurs(Delimiter(boundary), body)
            || HYPHENS + boundary <= lines + LINE_END || HYPHENS + boundary <= body
  {
    hide Delimiter, Occurs, At;
    var d, block, s := Delimiter(boundary), lines + LINE_END, LINE_END + (lines + LINE_END + body);
    var e := |block|;
    assert s == LINE_END + block + body && s == (LINE_END + lines) + LINE_END + body && s == [] + LINE_END + (block + body)
           && s == (LINE_END + block) + body + [];
    NotAcrossLineEnd(boundary, s, i, 0);
    NotAcrossLineEnd(boundary, s, i, e);
    if i > e + 1 {
      AtFits(d, s, i);
      AtWithin(d, LINE_END + block, body, [], i - e - 2);
      OccursAt(d, body, i - e - 2);
    } else if i == e {
      AtLineEnd(boundary, LINE_END + lines, body);
    } else if i == 0 {
      AtLineEnd(boundary, [], block + body);
      assert HYPHENS + boundary == (block + body)[..|boundary| + 2] == block[..|boundary| + 2];
    } else {
      AtWithin(d, LINE_END, block, body, i - 2);
      OccursAt(d, block, i - 2);
    }
  }

  lemma AtFits(d: Bytes, s: Bytes, i: nat)
    requires At(d, s, i)
    ensures i + |d| <= |s|
  {
  }

  /** In terms of a header block and a body: neither contains a delimiter, and neither starts with
      the two dashes and the boundary, where the line end before it would complete one. */
  lemma ClearMeans(boundary: Bytes, p: Part)
    requires 13 !in boundary
    ensures Clear(boundary, Payload(p)) <==>
            && !Occurs(Delimiter(boundary), HeaderBlock(p.headers)) && !Occurs(Delimiter(boundary), p.body)
            && !(HYPHENS + boundary <= HeaderBlock(p.headers)) && !(HYPHENS + boundary <= p.body)
  {
    hide Occurs, Delimiter, HeaderLines;
    var d, lines, block, body := Delimiter(boundary), HeaderLines(p.headers), HeaderBlock(p.headers), p.body;
    var s := LINE_END + Payload(p);
    assert s == LINE_END + block + body && s == (LINE_END + lines) + LINE_END + body && s == [] + LINE_END + (block + body);
    if Occurs(d, block) {
      OccursWithin(d, LINE_END, block, body);
    }
    if Occurs(d, body) {
      OccursWithin(d, LINE_END + block, body, []);
      assert LINE_END + block + body + [] == s;
    }
    if HYPHENS + boundary <= body {
      OccursAfterLineEnd(boundary, LINE_END + lines, body);
    }
    if HYPHENS + boundary <= block {
      assert HYPHENS + boundary <= block + body;
      OccursAfterLineEnd(boundary, [], block + body);
    }
    if !Clear(boundary, Payload(p)) {
      var i := Position(d, s);
      WhereDelimiterLies(boundary, lines, body, i);
    }
  }

  lemma Position(d: Bytes, s: Bytes) returns (i: nat)
    requires Occurs(d, s)
    ensures At(d, s, i)
  {
    i :| 0 <= i <= |s| && At(d, s, i);
  }

  /** A body that starts with the two dashes and the boundary is mistaken for a delimiter, although no
      delimiter occurs in the header block or in the body. */
  lemma BodyOpensWithBoundary(boundary: Bytes)
    requires 13 !in boundary
    ensures var p := Part([], HYPHENS + boundary);
            && !Occurs(Delimiter(boundary), HeaderBlock(p.headers)) && !Occurs(Delimiter(boundary), p.body)
            && ParseForm(boundary, FormBytes(boundary, [p])) != Some(Payloads([p]))
  {
    var p := Part([], HYPHENS + boundary);
    hide ParseForm, FormBytes;
    FramingRecoverable(boundary, [p]);
    ClearMeans(boundary, p);
    assert [p][0] == p && HYPHENS + boundary <= p.body;
  }

  // ----- Headers and bodies -----

  /** A header that survives: no line end in the line, and no ": " in the key. */
  predicate CleanHeader(h: (Bytes, Bytes))
  {
    !Occurs(LINE_END, h.0 + SEPARATOR + h.1) && Index(SEPARATOR, h.0 + SEPARATOR + h.1) == Some(|h.0|)
  }

  /** A receiver's view of one part: header lines up to a blank one, then the body. */
  function ParsePart(s: Bytes): Option<Part>
    decreases |s|
  {
    match Index(LINE_END, s)
    case None => None
    case Some(i) =>
      var rest := s[i + 2..];
      if i == 0 then Some(Part([], rest))
      else
        var line := s[..i];
        match Index(SEPARATOR, line)
        case None => None
        case Some(c) =>
          match ParsePart(rest)
          case None => None
          case Some(p) => Some(Part([(line[..c], line[c + 2..])] + p.headers, p.body))
  }

  lemma CrlfBorderless()
    ensures Borderless(LINE_END) && Borderless(SEPARATOR)
  {
  }

  predicate CleanHeaders(headers: Headers)
  {
    forall i :: 0 <= i < |headers| ==> CleanHeader(headers[i])
  }

  lemma FirstLine(h: (Bytes, Bytes), headers: Headers, body: Bytes)
    ensures Payload(Part([h] + headers, body)) == (h.0 + SEPARATOR + h.1) + LINE_END + Payload(Part(headers, body))
  {
    assert ([h] + headers)[1..] == headers;
  }

  lemma {:induction false} CleanParses(headers: Headers, body: Bytes)
    requires CleanHeaders(headers)
    ensures ParsePart(Payload(Part(headers, body))) == Some(Part(headers, body))
    decreases |headers|
  {
    hide Index, Occurs, Payload;
    CrlfBorderless();
    if headers == [] {
      NoHeaders(body);
    } else {
      var h, rest := headers[0], headers[1..];
      var line, t := h.0 + SEPARATOR + h.1, Payload(Part(rest, body));
      assert headers == [h] + rest;
      FirstLine(h, rest, body);
      FirstAtJoin(LINE_END, line, t);
      assert (line + LINE_END + t)[..|line|] == line && (line + LINE_END + t)[|line| + 2..] == t;
      assert line[..|h.0|] == h.0 && line[|h.0| + 2..] == h.1;
      CleanParses(rest, body);
    }
  }

  lemma NoHeaders(body: Bytes)
    ensures Payload(Part([], body)) == LINE_END + body
    ensures ParsePart(LINE_END + body) == Some(Part([], body))
  {
    hide Index;
    assert [] + LINE_END + body == LINE_END + body && (LINE_END + body)[2..] == body;
    NoneInNothing(LINE_END);
    CrlfBorderless();
    FirstAtJoin(LINE_END, [], body);
  }

  /** Whatever reads as a part is what that part is written as, and its headers are clean. */
  lemma {:induction false} ParsedIsClean(s: Bytes)
    requires ParsePart(s).Some?
    ensures Payload(ParsePart(s).value) == s && CleanHeaders(ParsePart(s).value.headers)
    decreases |s|
  {
    hide Index, Occurs, Payload;
    var i := Index(LINE_END, s).value;
    assert s == s[..i] + s[i..i + 2] + s[i + 2..] && s[i..i + 2] == LINE_END;
    if i == 0 {
      NoHeaders(s[2..]);
      assert s == LINE_END + s[2..];
    } else {
      var line, q := s[..i], ParsePart(s[i + 2..]).value;
      ParsedIsClean(s[i + 2..]);
      IndexClean(LINE_END, s, i);
      var c := Index(SEPARATOR, line).value;
      assert line == line[..c] + line[c..c + 2] + line[c + 2..] && line[c..c + 2] == SEPARATOR;
      FirstLine((line[..c], line[c + 2..]), q.headers, q.body);
    }
  }

  /** A part reads back as itself if and only if its header lines are clean. */
  lemma {:induction false} PartRecoverable(p: Part)
    ensures ParsePart(Payload(p)) == Some(p) <==> CleanHeaders(p.headers)
  {
    hide ParsePart, Payload, CleanHeaders;
    if CleanHeaders(p.headers) {
      CleanParses(p.headers, p.body);
    } else if ParsePart(Payload(p)) == Some(p) {
      ParsedIsClean(Payload(p));
    }
  }

  lemma NoneInNothing(d: Bytes)
    requires d != []
    ensures !Occurs(d, [])
  {
  }

  // ----- Whole forms -----

  function ParseParts(payloads: seq<Bytes>): Option<seq<Part>>
  {
    if payloads == [] then Some([])
    else
      match ParsePart(payloads[0])
      case None => None
      case Some(p) =>
        match ParseParts(payloads[1..])
        case None => None
        case Some(ps) => Some([p] + ps)
  }

  /** A receiver of a form. */
  function Receive(boundary: Bytes, data: Bytes): Option<seq<Part>>
  {
    match ParseForm(boundary, data)
    case None => None
    case Some(payloads) => ParseParts(payloads)
  }

  lemma {:induction false} PartsRecoverable(payloads: seq<Bytes>, parts: seq<Part>)
    ensures ParseParts(payloads) == Some(parts) <==>
            |payloads| == |parts| && forall i :: 0 <= i < |parts| ==> ParsePart(payloads[i]) == Some(parts[i])
  {
    hide ParsePart;
    if payloads != [] && parts != [] {
      PartsRecoverable(payloads[1..], parts[1..]);
      assert parts == [parts[0]] + parts[1..];
      assert forall i :: 1 <= i < |parts| ==> parts[i] == parts[1..][i - 1];
      assert forall i :: 1 <= i < |payloads| ==> payloads[i] == payloads[1..][i - 1];
    }
  }

  predicate CleanPart(boundary: Bytes, p: Part)
  {
    Clear(boundary, Payload(p)) && CleanHeaders(p.headers)
  }

  /** A receiver gets exactly the parts of the form, header by header, if and only if every part is
      clear of delimiters and every header line is clean. */
  lemma {:induction false} FormRecoverable(boundary: Bytes, parts: seq<Part>)
    requires 13 !in boundary && parts != []
    ensures Receive(boundary, FormBytes(boundary, parts)) == Some(parts)
            <==> forall i :: 0 <= i < |parts| ==> CleanPart(boundary, parts[i])
  {
    hide ParseForm, FormBytes, ParseParts, Clear, CleanHeaders, Payload, ParsePart;
    var data, ps := FormBytes(boundary, parts), Payloads(parts);
    FramingRecoverable(boundary, parts);
    PartsRecoverable(ps, parts);
    forall i | 0 <= i < |parts|
      ensures ParsePart(ps[i]) == Some(parts[i]) <==> CleanHeaders(parts[i].headers)
    {
      PartRecoverable(parts[i]);
    }
    if Receive(boundary, data) == Some(parts) {
      var qs := ParseForm(boundary, data).value;
      PartsRecoverable(qs, parts);
      forall i | 0 <= i < |parts|
        ensures qs[i] == ps[i]
      {
        ParsedIsClean(qs[i]);
      }
      assert qs == ps;
    }
  }
}
