/** The three compressing response writers: packages/golib/compress/compress.go,
    packages/golib/httpx/compress.go and packages/golib/middleware/compress.go. */
module CompressWriters {
  import opened GoInts
  import opened Responses
  import opened Wrappers

  /** `compressible` decides by content type; it may look at the buffered bytes, as DetectContentType does. */
  datatype Setting = Setting(encoding: Encoding, minSize: nat, compressible: seq<byte> -> bool)

  /** Before `decided` bytes pile up in buf; from then on they go through the compressor or straight out. */
  datatype Writer = Writer(resp: Response, buf: seq<byte>, decided: bool, packing: bool)

  function Start(preset: Option<Encoding>): Writer {
    Writer(Response(preset, None, []), [], false, false)
  }

  function PassOn(c: Setting, w: Writer, b: seq<byte>): Writer {
    w.(resp := Put(w.resp, if w.packing then AllPacked(b, c.encoding) else AllPlain(b)))
  }

  /** The decision: announce and pack, or send the buffer as it is. */
  function Decide(c: Setting, w: Writer, pack: bool): Writer {
    var v := if pack then w.(resp := w.resp.(header := Some(c.encoding)), packing := true) else w;
    PassOn(c, v, w.buf).(buf := [], decided := true)
  }

  // compress/compress.go

  function Flush(c: Setting, w: Writer): Writer {
    if w.decided then w else Decide(c, w, c.compressible(w.buf) && |w.buf| >= c.minSize)
  }

  function Step(c: Setting, w: Writer, a: Act): Writer {
    match a
    case Write(b) =>
      if w.decided then PassOn(c, w, b)
      else
        var v := w.(buf := w.buf + b);
        if |v.buf| < c.minSize then v else Flush(c, v)
    case WriteHeader(code) =>
      var v := if !w.decided && w.buf != [] then Flush(c, w) else w;
      v.(resp := SendHeader(v.resp, code))
  }

  function Close(c: Setting, w: Writer): Writer {
    var v := if w.decided then w else if w.buf != [] then Flush(c, w) else w.(decided := true);
    if v.packing then v.(resp := Put(v.resp, [End(c.encoding)])) else v
  }

  function Run(c: Setting, preset: Option<Encoding>, acts: seq<Act>): Writer {
    if acts == [] then Start(preset) else Step(c, Run(c, preset, acts[..|acts| - 1]), acts[|acts| - 1])
  }

  /** Everything written so far is on the wire in one packing, followed by the buffer. */
  ghost predicate Tracks(c: Setting, w: Writer, written: seq<byte>) {
    && (!w.decided ==> w.resp.wire == [] && w.buf == written && !w.packing)
    && (w.decided ==> w.buf == [] && w.resp.wire == if w.packing then AllPacked(written, c.encoding) else AllPlain(written))
  }

  lemma PassOnTracks(c: Setting, w: Writer, written: seq<byte>, b: seq<byte>)
    requires Tracks(c, w, written) && w.decided
    ensures Tracks(c, PassOn(c, w, b), written + b)
  {
    PlainAppends(written, b);
    PackedAppends(written, b, c.encoding);
  }

  lemma DecideTracks(c: Setting, w: Writer, written: seq<byte>, pack: bool)
    requires Tracks(c, w, written) && !w.decided
    ensures Tracks(c, Decide(c, w, pack), written)
  {
  }

  lemma StepTracks(c: Setting, w: Writer, written: seq<byte>, a: Act)
    requires Tracks(c, w, written)
    ensures Tracks(c, Step(c, w, a), written + (match a case Write(b) => b case WriteHeader(_) => []))
  {
    match a {
      case Write(b) =>
        if w.decided {
          PassOnTracks(c, w, written, b);
        } else if |w.buf + b| >= c.minSize {
          var v := w.(buf := w.buf + b);
          DecideTracks(c, v, written + b, c.compressible(v.buf) && |v.buf| >= c.minSize);
        }
      case WriteHeader(code) =>
        assert written + [] == written;
        if !w.decided && w.buf != [] {
          DecideTracks(c, w, written, c.compressible(w.buf) && |w.buf| >= c.minSize);
        }
    }
  }

  // The history of a handler's calls, as far as the decision depends on it.

  predicate SendsFinal(a: Act) {
    a.WriteHeader? && Final(a.code)
  }

  /** WriteHeader came with a final status before the first byte of the body. */
  predicate EarlyHeader(acts: seq<Act>) {
    acts != [] &&
    (EarlyHeader(acts[..|acts| - 1]) || (SendsFinal(acts[|acts| - 1]) && Written(acts[..|acts| - 1]) == []))
  }

  /** WriteHeader came, with whatever status, when there were some bytes, but fewer than n. */
  predicate HeaderInside(n: nat, acts: seq<Act>) {
    acts != [] &&
    (HeaderInside(n, acts[..|acts| - 1]) || (acts[|acts| - 1].WriteHeader? && 0 < |Written(acts[..|acts| - 1])| < n))
  }

  /** What had been written when the body first reached n bytes. */
  function Crossing(n: nat, acts: seq<Act>): seq<byte> {
    if acts == [] || |Written(acts[..|acts| - 1])| < n then Written(acts) else Crossing(n, acts[..|acts| - 1])
  }

  /** The compress.go writer packs exactly these responses. */
  predicate Packs(c: Setting, acts: seq<Act>) {
    |Written(acts)| >= c.minSize && !HeaderInside(c.minSize, acts) && c.compressible(Crossing(c.minSize, acts))
  }

  /** How the writer's state follows from the calls made. */
  ghost predicate Follows(c: Setting, preset: Option<Encoding>, acts: seq<Act>, w: Writer) {
    var early := EarlyHeader(acts);
    && (w.decided <==> |Written(acts)| >= c.minSize || HeaderInside(c.minSize, acts))
    && (w.decided ==> Written(acts) != [])
    && (w.packing <==> w.decided && !HeaderInside(c.minSize, acts) && c.compressible(Crossing(c.minSize, acts)))
    && (w.resp.sent.Some? <==> early || w.decided)
    && w.resp.header == (if w.packing then Some(c.encoding) else preset)
    && (w.resp.sent.Some? ==> w.resp.sent.value.1 == if w.packing && !early then Some(c.encoding) else preset)
  }

  lemma {:induction false} RunFollows(c: Setting, preset: Option<Encoding>, acts: seq<Act>)
    requires c.minSize > 0
    ensures Tracks(c, Run(c, preset, acts), Written(acts)) && Follows(c, preset, acts, Run(c, preset, acts))
  {
    if acts != [] {
      var front, a := acts[..|acts| - 1], acts[|acts| - 1];
      RunFollows(c, preset, front);
      StepTracks(c, Run(c, preset, front), Written(front), a);
      HeaderInsideSmall(c.minSize, front);
      StepFollows(c, preset, acts, Run(c, preset, front));
    }
  }

  lemma {:induction false} HeaderInsideSmall(n: nat, acts: seq<Act>)
    ensures HeaderInside(n, acts) ==> Written(acts) != []
  {
    if acts != [] {
      HeaderInsideSmall(n, acts[..|acts| - 1]);
    }
  }

  lemma StepFollows(c: Setting, preset: Option<Encoding>, acts: seq<Act>, w: Writer)
    requires c.minSize > 0 && acts != []
    requires Tracks(c, w, Written(acts[..|acts| - 1])) && Follows(c, preset, acts[..|acts| - 1], w)
    ensures Follows(c, preset, acts, Step(c, w, acts[|acts| - 1]))
  {
  }

  /** The client gets the bytes written, each once and in order, however the writes are split. */
  lemma NothingLostOrDoubled(c: Setting, preset: Option<Encoding>, acts: seq<Act>)
    requires c.minSize > 0
    ensures Payload(Close(c, Run(c, preset, acts)).resp.wire) == Written(acts)
  {
    var w := Run(c, preset, acts);
    RunFollows(c, preset, acts);
    if !w.decided && w.buf != [] {
      DecideTracks(c, w, Written(acts), c.compressible(w.buf) && |w.buf| >= c.minSize);
    }
    PayloadOfPlain(Written(acts));
    PayloadOfPacked(Written(acts), c.encoding);
  }

  /** And it is told how to read them, except in exactly two families of responses that the writer packs:
      those whose header WriteHeader sent, without the encoding, before the first byte; and those the
      handler had encoded itself, whose announcement is overwritten. */
  lemma DeliversExactly(c: Setting, preset: Option<Encoding>, acts: seq<Act>)
    requires c.minSize > 0
    ensures Delivers(Close(c, Run(c, preset, acts)).resp, preset, Written(acts)) <==>
            !(Packs(c, acts) && (EarlyHeader(acts) || preset.Some?))
  {
    var w, bytes := Run(c, preset, acts), Written(acts);
    var r := Close(c, w).resp;
    RunFollows(c, preset, acts);
    if w.packing {
      assert r.wire == AllPacked(bytes, c.encoding) + [End(c.encoding)];
      PackedIsNotPlain(bytes, c.encoding, r.wire);
    } else {
      assert r.wire == AllPlain(bytes);
    }
  }

  /** A body long enough, sent in one piece by a handler that announced its own encoding: the client is
      told of the outer packing only, and undoing it gets the inner encoding unannounced. */
  lemma EncodesTwice(c: Setting, own: Encoding, bytes: seq<byte>)
    requires 0 < c.minSize <= |bytes| && c.compressible(bytes)
    ensures var r := Close(c, Run(c, Some(own), [Write(bytes)])).resp;
            && Announced(r) == Some(c.encoding) && r.wire == AllPacked(bytes, c.encoding) + [End(c.encoding)]
            && !Delivers(r, Some(own), bytes)
  {
    var acts := [Write(bytes)];
    assert acts[..0] == [] && Written(acts) == [] + bytes == bytes;
    assert Crossing(c.minSize, acts) == bytes;
    RunFollows(c, Some(own), acts);
    DeliversExactly(c, Some(own), acts);
  }

  lemma PackedIsNotPlain(bytes: seq<byte>, e: Encoding, wire: seq<Symbol>)
    requires wire == AllPacked(bytes, e) + [End(e)]
    ensures forall b :: wire != AllPlain(b)
    ensures forall b, f | wire == AllPacked(b, f) + [End(f)] :: f == e
  {
    assert wire[|bytes|] == End(e);
    forall b ensures wire != AllPlain(b) {
      assert forall i | 0 <= i < |AllPlain(b)| :: AllPlain(b)[i].Plain?;
    }
    forall b, f | wire == AllPacked(b, f) + [End(f)] ensures f == e {
      assert wire[|b|] == End(f) && |wire| == |b| + 1;
    }
  }

  // httpx/compress.go: WriteHeader goes straight through, whatever is buffered.

  function HttpxStep(c: Setting, w: Writer, a: Act): Writer {
    match a
    case Write(b) =>
      if w.decided then PassOn(c, w, b)
      else
        var v := w.(buf := w.buf + b);
        if |v.buf| >= c.minSize then Decide(c, v, v.resp.header.None? && c.compressible(v.buf)) else v
    case WriteHeader(code) => w.(resp := SendHeader(w.resp, code))
  }

  function HttpxFlush(c: Setting, w: Writer): Writer {
    if w.packing then w.(resp := Put(w.resp, [End(c.encoding)]))
    else if w.buf != [] then PassOn(c, w, w.buf).(buf := [])
    else w
  }

  function HttpxRun(c: Setting, preset: Option<Encoding>, acts: seq<Act>): Writer {
    if acts == [] then Start(preset) else HttpxStep(c, HttpxRun(c, preset, acts[..|acts| - 1]), acts[|acts| - 1])
  }

  /** WriteHeader came with a final status before the body reached n bytes. */
  predicate HeaderBefore(n: nat, acts: seq<Act>) {
    acts != [] &&
    (HeaderBefore(n, acts[..|acts| - 1]) || (SendsFinal(acts[|acts| - 1]) && |Written(acts[..|acts| - 1])| < n))
  }

  ghost predicate HttpxFollows(c: Setting, preset: Option<Encoding>, acts: seq<Act>, w: Writer) {
    var early := HeaderBefore(c.minSize, acts);
    && (w.decided <==> |Written(acts)| >= c.minSize)
    && (w.packing <==> w.decided && preset.None? && c.compressible(Crossing(c.minSize, acts)))
    && (w.resp.sent.Some? <==> early || w.decided)
    && w.resp.header == (if w.packing then Some(c.encoding) else preset)
    && (w.resp.sent.Some? ==> w.resp.sent.value.1 == if w.packing && !early then Some(c.encoding) else preset)
  }

  lemma HttpxStepTracks(c: Setting, w: Writer, written: seq<byte>, a: Act)
    requires Tracks(c, w, written)
    ensures Tracks(c, HttpxStep(c, w, a), written + (match a case Write(b) => b case WriteHeader(_) => []))
  {
    if a.WriteHeader? {
      assert written + [] == written;
    } else if w.decided {
      PassOnTracks(c, w, written, a.bytes);
    } else if |w.buf + a.bytes| >= c.minSize {
      var v := w.(buf := w.buf + a.bytes);
      DecideTracks(c, v, written + a.bytes, v.resp.header.None? && c.compressible(v.buf));
    }
  }

  lemma {:induction false} HttpxRunFollows(c: Setting, preset: Option<Encoding>, acts: seq<Act>)
    requires c.minSize > 0
    ensures Tracks(c, HttpxRun(c, preset, acts), Written(acts)) && HttpxFollows(c, preset, acts, HttpxRun(c, preset, acts))
  {
    if acts != [] {
      var front, a := acts[..|acts| - 1], acts[|acts| - 1];
      HttpxRunFollows(c, preset, front);
      HttpxStepTracks(c, HttpxRun(c, preset, front), Written(front), a);
    }
  }

  lemma HttpxNothingLostOrDoubled(c: Setting, preset: Option<Encoding>, acts: seq<Act>)
    requires c.minSize > 0
    ensures Payload(HttpxFlush(c, HttpxRun(c, preset, acts)).resp.wire) == Written(acts)
  {
    HttpxRunFollows(c, preset, acts);
    assert [] + AllPlain(Written(acts)) == AllPlain(Written(acts));
    PayloadOfPlain(Written(acts));
    PayloadOfPacked(Written(acts), c.encoding);
  }

  /** Here any WriteHeader with a final status before the threshold makes a packed response unreadable, and
      nothing else does. */
  lemma HttpxDeliversUnlessHeaderBefore(c: Setting, preset: Option<Encoding>, acts: seq<Act>)
    requires c.minSize > 0
    ensures Delivers(HttpxFlush(c, HttpxRun(c, preset, acts)).resp, preset, Written(acts)) <==>
            !(HeaderBefore(c.minSize, acts) && |Written(acts)| >= c.minSize && preset.None? && c.compressible(Crossing(c.minSize, acts)))
  {
    var w, bytes := HttpxRun(c, preset, acts), Written(acts);
    var r := HttpxFlush(c, w).resp;
    HttpxRunFollows(c, preset, acts);
    if w.packing {
      assert r.wire == AllPacked(bytes, c.encoding) + [End(c.encoding)];
      PackedIsNotPlain(bytes, c.encoding, r.wire);
    } else {
      assert r.wire == AllPlain(bytes);
    }
  }

  // middleware/compress.go: everything waits until the handler returns, the status too.

  /** A status, or 0 as long as there is none. */
  type Remembered = s: int | s == 0 || IsStatus(s)

  datatype Deferred = Deferred(buf: seq<byte>, status: Remembered)

  function DeferStep(d: Deferred, a: Act): Deferred {
    match a
    case Write(b) => d.(buf := d.buf + b)
    case WriteHeader(code) => d.(status := code)
  }

  function DeferRun(acts: seq<Act>): Deferred {
    if acts == [] then Deferred([], 0) else DeferStep(DeferRun(acts[..|acts| - 1]), acts[|acts| - 1])
  }

  function DeferFlush(c: Setting, preset: Option<Encoding>, d: Deferred): Response {
    var status := if d.status == 0 then 200 else d.status;
    var r := Response(preset, None, []);
    if |d.buf| > c.minSize && c.compressible(d.buf) then
      Put(Put(SendHeader(r.(header := Some(c.encoding)), status), AllPacked(d.buf, c.encoding)), [End(c.encoding)])
    else Put(SendHeader(r, status), AllPlain(d.buf))
  }

  lemma {:induction false} DeferRunBuffers(acts: seq<Act>)
    ensures DeferRun(acts).buf == Written(acts)
  {
    if acts != [] {
      DeferRunBuffers(acts[..|acts| - 1]);
    }
  }

  lemma DeferredShape(c: Setting, preset: Option<Encoding>, d: Deferred)
    ensures var r := DeferFlush(c, preset, d);
            if |d.buf| > c.minSize && c.compressible(d.buf)
            then r.wire == AllPacked(d.buf, c.encoding) + [End(c.encoding)] && Announced(r) == Some(c.encoding)
            else r.wire == AllPlain(d.buf) && Announced(r) == preset
  {
    assert [] + AllPacked(d.buf, c.encoding) == AllPacked(d.buf, c.encoding);
    assert [] + AllPlain(d.buf) == AllPlain(d.buf);
  }

  /** The announcement matches the body wherever the handler calls WriteHeader, except in exactly one
      family: a handler that had encoded the body itself, long enough to be packed again. */
  lemma DeferredDeliversExactly(c: Setting, preset: Option<Encoding>, acts: seq<Act>)
    ensures Delivers(DeferFlush(c, preset, DeferRun(acts)), preset, Written(acts)) <==>
            !(preset.Some? && |Written(acts)| > c.minSize && c.compressible(Written(acts)))
  {
    hide DeferFlush;
    var bytes := Written(acts);
    DeferRunBuffers(acts);
    DeferredShape(c, preset, DeferRun(acts));
    if |bytes| > c.minSize && c.compressible(bytes) {
      PackedIsNotPlain(bytes, c.encoding, AllPacked(bytes, c.encoding) + [End(c.encoding)]);
    }
  }

  /** The bytes on the wire are those written, and what is announced is how they are packed. */
  lemma DeferredNothingLostOrDoubled(c: Setting, preset: Option<Encoding>, acts: seq<Act>)
    ensures var r := DeferFlush(c, preset, DeferRun(acts));
            && Payload(r.wire) == Written(acts)
            && (r.wire == AllPlain(Written(acts)) || (exists e :: Announced(r) == Some(e) && r.wire == AllPacked(Written(acts), e) + [End(e)]))
  {
    hide DeferFlush, AllPlain, AllPacked, Payload;
    DeferRunBuffers(acts);
    DeferredShape(c, preset, DeferRun(acts));
    PayloadOfPlain(Written(acts));
    PayloadOfPacked(Written(acts), c.encoding);
  }

  lemma DeferredEncodesTwice(c: Setting, own: Encoding, bytes: seq<byte>)
    requires |bytes| > c.minSize && c.compressible(bytes)
    ensures var r := DeferFlush(c, Some(own), DeferRun([Write(bytes)]));
            Announced(r) == Some(c.encoding) && r.wire == AllPacked(bytes, c.encoding) + [End(c.encoding)] && !Delivers(r, Some(own), bytes)
  {
    var acts := [Write(bytes)];
    assert acts[..0] == [] && Written(acts) == [] + bytes == bytes;
    DeferRunBuffers(acts);
    DeferredDeliversExactly(c, Some(own), acts);
  }
}
