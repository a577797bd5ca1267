/** What a client receives: a header whose Content-Encoding is fixed when it is sent, and a body. A
    compressor is ideal: it puts every byte it is given on the wire, packed, and an end mark on Close. */
module Responses {
  import opened GoInts
  import opened Wrappers

  datatype Encoding = Gzip | Deflate | Other(name: string)

  datatype Symbol = Plain(b: byte) | Packed(b: byte, encoding: Encoding) | End(encoding: Encoding)

  /** `header` is the Content-Encoding in the header map, `sent` the status and encoding that went out. */
  datatype Response = Response(header: Option<Encoding>, sent: Option<(Status, Option<Encoding>)>, wire: seq<Symbol>)

  /** The codes that net/http sends on without panicking and whose responses may have a body. */
  predicate IsStatus(code: int) {
    100 <= code <= 999 && code != 101 && code != 204 && code != 304
  }

  type Status = s: int | IsStatus(s) witness 200

  /** An informational response, such as 103, goes out at once and leaves the final one to come. */
  predicate Final(status: Status) {
    status >= 200
  }

  function SendHeader(r: Response, status: Status): Response {
    if r.sent.Some? || !Final(status) then r else r.(sent := Some((status, r.header)))
  }

  function AllPlain(bytes: seq<byte>): seq<Symbol> {
    seq(|bytes|, i requires 0 <= i < |bytes| => Plain(bytes[i]))
  }

  function AllPacked(bytes: seq<byte>, e: Encoding): seq<Symbol> {
    seq(|bytes|, i requires 0 <= i < |bytes| => Packed(bytes[i], e))
  }

  /** The first bytes of a body send the header if it has not gone out. */
  function Put(r: Response, symbols: seq<Symbol>): Response {
    var s := SendHeader(r, 200);
    s.(wire := s.wire + symbols)
  }

  /** The encoding the client was told; a header never sent goes out when the handler returns. */
  function Announced(r: Response): Option<Encoding> {
    if r.sent.Some? then r.sent.value.1 else r.header
  }

  /** The client, who undoes the one encoding it is told of, ends up with what the handler meant: the
      bytes as they are under the handler's own announcement, or, when it made none, packed as announced
      and ended. Bytes that the handler had encoded itself are not meant to be packed again: the second
      announcement would replace the first. */
  ghost predicate Delivers(r: Response, preset: Option<Encoding>, bytes: seq<byte>) {
    || (r.wire == AllPlain(bytes) && Announced(r) == preset)
    || (preset.None? && exists e :: Announced(r) == Some(e) && r.wire == AllPacked(bytes, e) + [End(e)])
  }

  lemma PlainAppends(a: seq<byte>, b: seq<byte>)
    ensures AllPlain(a) + AllPlain(b) == AllPlain(a + b)
  {
  }

  lemma PackedAppends(a: seq<byte>, b: seq<byte>, e: Encoding)
    ensures AllPacked(a, e) + AllPacked(b, e) == AllPacked(a + b, e)
  {
  }

  /** Bytes in order, whatever their packing. */
  function Payload(wire: seq<Symbol>): seq<byte> {
    if wire == [] then []
    else Payload(wire[..|wire| - 1]) + (if wire[|wire| - 1].End? then [] else [wire[|wire| - 1].b])
  }

  lemma {:induction false} PayloadOfPlain(bytes: seq<byte>)
    ensures Payload(AllPlain(bytes)) == bytes
  {
    if bytes != [] {
      PayloadOfPlain(bytes[..|bytes| - 1]);
      assert AllPlain(bytes)[..|bytes| - 1] == AllPlain(bytes[..|bytes| - 1]);
    }
  }

  lemma {:induction false} PayloadOfPacked(bytes: seq<byte>, e: Encoding)
    ensures Payload(AllPacked(bytes, e)) == bytes
    ensures Payload(AllPacked(bytes, e) + [End(e)]) == bytes
  {
    if bytes != [] {
      PayloadOfPacked(bytes[..|bytes| - 1], e);
      assert AllPacked(bytes, e)[..|bytes| - 1] == AllPacked(bytes[..|bytes| - 1], e);
    }
    assert (AllPacked(bytes, e) + [End(e)])[..|bytes|] == AllPacked(bytes, e);
  }

  /** What a handler does with its ResponseWriter. */
  datatype Act = Write(bytes: seq<byte>) | WriteHeader(code: Status)

  function Written(acts: seq<Act>): seq<byte> {
    if acts == [] then []
    else Written(acts[..|acts| - 1]) + (match acts[|acts| - 1] case Write(b) => b case WriteHeader(_) => [])
  }
}
