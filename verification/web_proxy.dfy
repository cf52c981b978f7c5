/**
  The response side of the gRPC-Web proxy (server/web_proxy_response.go, server/web_proxy.go): a
  response writer that rewrites headers, encodes the body in text mode, and ends the body with the
  trailing headers as one more frame.
 */
module WebProxy {
  import opened Wrappers
  import opened Text
  import opened Headers
  import opened WebRequest
  import Base64
  import Framing
  import TrailerBlock

  // ---------- the wrapped http.ResponseWriter ----------

  /** The status line and the headers as they were when they were sent. */
  datatype Head = Head(status: int, header: Header)

  /** The live header map, the body so far, what was sent as the head, and how often it was flushed. */
  datatype Wire = Wire(header: Header, body: Bytes, head: Option<Head>, flushes: nat)

  /** The first WriteHeader, Write or Flush sends the head; later changes of the map are not sent. */
  function Committed(w: Wire, status: int): Wire {
    if w.head.Some? then w else w.(head := Some(Head(status, w.header)))
  }

  function WireWritten(w: Wire, b: Bytes): Wire {
    Committed(w, 200).(body := w.body + b)
  }

  function WireFlushed(w: Wire): Wire {
    Committed(w, 200).(flushes := w.flushes + 1)
  }

  class ResponseWriter {
    const header: HeaderMap
    // Whether the writer implements http.Flusher.
    const canFlush: bool
    var body: Bytes
    var head: Option<Head>
    var flushes: nat

    constructor (header: HeaderMap, canFlush: bool)
      ensures this.header == header && this.canFlush == canFlush
      ensures Abs() == Wire(header.m, [], None, 0)
    {
      this.header, this.canFlush := header, canFlush;
      body, head, flushes := [], None, 0;
    }

    ghost function Abs(): Wire
      reads this, header
    {
      Wire(header.m, body, head, flushes)
    }

    method WriteHeader(status: int)
      modifies this
      ensures Abs() == Committed(old(Abs()), status)
    {
      if head.None? {
        head := Some(Head(status, header.m));
      }
    }

    method Write(b: Bytes)
      modifies this
      ensures Abs() == WireWritten(old(Abs()), b)
    {
      WriteHeader(200);
      body := body + b;
    }

    /** flushWriter: nothing happens when the writer cannot flush. */
    method Flush()
      modifies this
      ensures Abs() == if canFlush then WireFlushed(old(Abs())) else old(Abs())
    {
      if canFlush {
        WriteHeader(200);
        flushes := flushes + 1;
      }
    }
  }

  // ---------- text mode ----------

  /** base64.NewEncoder over the wrapped writer: 0 to 2 bytes wait for the rest of their triple. */
  class Base64Encoder {
    const sink: ResponseWriter
    var fringe: Bytes

    constructor (sink: ResponseWriter)
      ensures this.sink == sink && fringe == []
    {
      this.sink, fringe := sink, [];
    }

    method Write(b: Bytes)
      modifies this, sink
      ensures (sink.Abs(), fringe) == TextWritten(old(sink.Abs()), old(fringe), b)
    {
      var all := fringe + b;
      var n := Base64.Whole(all);
      if n > 0 {
        sink.Write(Base64.Encode(all[..n]));
      }
      fringe := all[n..];
    }

    method Close()
      modifies this, sink
      ensures (sink.Abs(), fringe) == (TextClosed(old(sink.Abs()), old(fringe)), [])
    {
      if fringe != [] {
        sink.Write(Base64.Encode(fringe));
        fringe := [];
      }
    }
  }

  /** Feeding the stream encoder; the wrapped writer is only called when characters come out. */
  function TextWritten(w: Wire, fringe: Bytes, b: Bytes): (Wire, Bytes) {
    var all := fringe + b;
    var n := Base64.Whole(all);
    (if n > 0 then WireWritten(w, Base64.Encode(all[..n])) else w, all[n..])
  }

  function TextClosed(w: Wire, fringe: Bytes): Wire {
    if fringe == [] then w else WireWritten(w, Base64.Encode(fringe))
  }

  class Base64ResponseWriter {
    const wrapped: ResponseWriter
    var encoder: Base64Encoder

    constructor (wrapped: ResponseWriter)
      ensures this.wrapped == wrapped && fresh(encoder) && encoder.sink == wrapped && encoder.fringe == []
    {
      this.wrapped := wrapped;
      encoder := new Base64Encoder(wrapped);
    }

    method Write(b: Bytes)
      requires encoder.sink == wrapped
      modifies encoder, wrapped
      ensures (wrapped.Abs(), encoder.fringe) == TextWritten(old(wrapped.Abs()), old(encoder.fringe), b)
    {
      encoder.Write(b);
    }

    /** Closing pads the part; a new encoder starts the next one. */
    method Flush()
      requires encoder.sink == wrapped
      modifies this, encoder, wrapped
      ensures fresh(encoder) && encoder.sink == wrapped && encoder.fringe == []
      ensures var closed := TextClosed(old(wrapped.Abs()), old(encoder.fringe));
        wrapped.Abs() == if wrapped.canFlush then WireFlushed(closed) else closed
    {
      encoder.Close();
      encoder := new Base64Encoder(wrapped);
      wrapped.Flush();
    }
  }

  // ---------- the response as a value ----------

  const TRAILER: Bytes := "trailer"
  const TRAILER_PREFIX: Bytes := "Trailer:"
  const EXPOSE: Bytes := "Access-Control-Expose-Headers"
  const ALWAYS_EXPOSED: seq<Bytes> := ["grpc-status", "grpc-message"]
  const COMMA: Bytes := ", "

  /** How Go happens to order the keys of a map, the n-th time it ranges over one. */
  type Pick = (nat, set<Bytes>) -> seq<Bytes>

  ghost predicate Fair(pick: Pick) {
    forall n, keys :: Enumerates(pick(n, keys), keys)
  }

  /** Everything a response holds; `ranges` counts the map ranges so far. */
  datatype Response = Response(
    text: bool, canFlush: bool, wroteHeaders: bool, wroteBody: bool,
    headers: Header, wire: Wire, fringe: Bytes, ranges: nat)

  function NewResponse(text: bool, canFlush: bool, wire: Wire): Response {
    Response(text, canFlush, false, false, map[], wire, [], 0)
  }

  function PrepareReplacers(contentType: Bytes): seq<Replacer> {
    [ReplaceInKeys(TRAILER_PREFIX, []), ReplaceInVals(CONTENT_TYPE, GRPC, contentType), KeyCase(Canonical)]
  }

  function TrailerReplacers(): seq<Replacer> {
    [ReplaceInKeys(TRAILER_PREFIX, []), KeyCase(Lower)]
  }

  function Joined(parts: seq<Bytes>): Bytes {
    if parts == [] then [] else if |parts| == 1 then parts[0] else parts[0] + COMMA + Joined(parts[1..])
  }

  function CopiedHeaders(pick: Pick, r: Response): Header {
    Copied(r.wire.header, r.headers, SkipSet([TRAILER]), PrepareReplacers(WebType(r.text)),
           pick(r.ranges, r.headers.Keys))
  }

  function Prepared(pick: Pick, r: Response): Response {
    var h := CopiedHeaders(pick, r);
    var exposed := Joined(pick(r.ranges + 1, h.Keys) + ALWAYS_EXPOSED);
    r.(wire := r.wire.(header := h[EXPOSE := [exposed]]), ranges := r.ranges + 2)
  }

  /** A write to the wrapped writer, through the encoder in text mode. */
  function Sent(r: Response, b: Bytes): Response {
    if r.text then
      var (w, f) := TextWritten(r.wire, r.fringe, b);
      r.(wire := w, fringe := f)
    else r.(wire := WireWritten(r.wire, b))
  }

  function FlushedThrough(r: Response): Response {
    var w := if r.text then TextClosed(r.wire, r.fringe) else r.wire;
    r.(wire := if r.canFlush then WireFlushed(w) else w, fringe := if r.text then [] else r.fringe)
  }

  function Written(pick: Pick, r: Response, b: Bytes): Response {
    var p := if r.wroteHeaders then r else Prepared(pick, r);
    Sent(p.(wroteHeaders := true, wroteBody := true), b)
  }

  function HeaderWritten(pick: Pick, r: Response, status: int): Response {
    var p := Prepared(pick, r);
    p.(wire := Committed(p.wire, status), wroteHeaders := true)
  }

  function Flushed(r: Response): Response {
    if r.wroteHeaders || r.wroteBody then FlushedThrough(r) else r
  }

  /** extractTrailingHeaders. */
  function Trailers(pick: Pick, r: Response): Header {
    var skip := SkipSet([TRAILER] + pick(r.ranges, r.wire.header.Keys));
    Copied(map[], r.headers, skip, TrailerReplacers(), pick(r.ranges + 1, r.headers.Keys))
  }

  function TrailerText(pick: Pick, r: Response): Bytes {
    var th := Trailers(pick, r);
    TrailerBlock.Block(th, pick(r.ranges + 2, th.Keys))
  }

  const TRAILER_FLAG: Byte := 128 as char

  function WithTrailers(pick: Pick, r: Response): Response {
    var block := TrailerText(pick, r);
    var p := Sent(r.(ranges := r.ranges + 3), [TRAILER_FLAG] + Framing.Be32(|block|));
    FlushedThrough(Sent(p, block))
  }

  function Finished(pick: Pick, r: Response): Response {
    if r.wroteHeaders || r.wroteBody then WithTrailers(pick, r)
    else FlushedThrough(HeaderWritten(pick, r, 200))
  }

  // ---------- a handler's run ----------

  /** What a handler can do with the response; setting a header is any change of its entry. */
  datatype HandlerOp =
    | SetHeader(key: Bytes, vals: seq<Bytes>)
    | DeleteHeader(key: Bytes)
    | WriteStatus(status: int)
    | WriteBytes(bytes: Bytes)
    | FlushOp

  function Handled(pick: Pick, r: Response, op: HandlerOp): Response {
    match op
    case SetHeader(k, vv) => r.(headers := r.headers[k := vv])
    case DeleteHeader(k) => r.(headers := r.headers - {k})
    case WriteStatus(status) => HeaderWritten(pick, r, status)
    case WriteBytes(b) => Written(pick, r, b)
    case FlushOp => Flushed(r)
  }

  function Ran(pick: Pick, r: Response, ops: seq<HandlerOp>): Response {
    if ops == [] then r else Handled(pick, Ran(pick, r, ops[..|ops| - 1]), ops[|ops| - 1])
  }

  // ---------- the response as an object ----------

  datatype Wrapped = Plain(writer: ResponseWriter) | Base64Text(b64: Base64ResponseWriter)

  class WebProxyResponse {
    const pick: Pick
    const headers: HeaderMap
    const out: ResponseWriter
    const wrapped: Wrapped
    const contentType: Bytes
    var wroteHeaders: bool
    var wroteBody: bool
    var ranges: nat

    ghost predicate Valid()
      reads this, if wrapped.Base64Text? then {wrapped.b64} else {}
    {
      && headers != out.header
      && contentType == WebType(wrapped.Base64Text?)
      && match wrapped
         case Plain(w) => w == out
         case Base64Text(b) => b.wrapped == out && b.encoder.sink == out
    }

    /** The objects that the methods below change, apart from the wrapped header map. */
    ghost function Repr(): set<object>
      reads this, if wrapped.Base64Text? then {wrapped.b64} else {}
    {
      {this, out} + if wrapped.Base64Text? then {wrapped.b64, wrapped.b64.encoder} else {}
    }

    ghost function Abs(): Response
      reads this, headers, out, out.header
      reads if wrapped.Base64Text? then {wrapped.b64, wrapped.b64.encoder} else {}
    {
      Response(wrapped.Base64Text?, out.canFlush, wroteHeaders, wroteBody, headers.m, out.Abs(),
               if wrapped.Base64Text? then wrapped.b64.encoder.fringe else [], ranges)
    }

    constructor (resp: ResponseWriter, isTextFormat: bool, pick: Pick)
      ensures Valid() && out == resp && this.pick == pick && fresh(Repr() - {resp}) && fresh(headers)
      ensures Abs() == NewResponse(isTextFormat, resp.canFlush, old(resp.Abs()))
    {
      this.pick := pick;
      headers := new HeaderMap();
      out := resp;
      if isTextFormat {
        var b64 := new Base64ResponseWriter(resp);
        wrapped, contentType := Base64Text(b64), GRPC_WEB_TEXT;
      } else {
        wrapped, contentType := Plain(resp), GRPC_WEB;
      }
      wroteHeaders, wroteBody, ranges := false, false, 0;
    }

    method Send(b: Bytes)
      requires Valid()
      modifies Repr()
      ensures Valid() && Repr() == old(Repr()) && Abs() == Sent(old(Abs()), b)
    {
      match wrapped
      case Plain(w) => w.Write(b);
      case Base64Text(b64) => b64.Write(b);
    }

    method FlushWriter()
      requires Valid()
      modifies Repr()
      ensures Valid() && fresh(Repr() - old(Repr())) && Abs() == FlushedThrough(old(Abs()))
    {
      match wrapped
      case Plain(w) => w.Flush();
      case Base64Text(b64) => b64.Flush();
    }

    method PrepareHeaders()
      requires Valid()
      modifies `ranges, out.header
      ensures Valid() && Abs() == Prepared(pick, old(Abs()))
    {
      var wh := out.header;
      ghost var r := Abs();
      CopyHeader(wh, headers, [TRAILER], PrepareReplacers(contentType), pick(ranges, headers.m.Keys));
      assert wh.m == CopiedHeaders(pick, r);
      var keys := pick(ranges + 1, wh.m.Keys) + ALWAYS_EXPOSED;
      wh.m := wh.m[EXPOSE := [Joined(keys)]];
      ranges := ranges + 2;
      assert wh.m == Prepared(pick, r).wire.header;
      assert Abs() == r.(wire := r.wire.(header := wh.m), ranges := r.ranges + 2);
    }

    method Write(b: Bytes)
      requires Valid()
      modifies Repr(), out.header
      ensures Valid() && Repr() == old(Repr()) && Abs() == Written(pick, old(Abs()), b)
    {
      if !wroteHeaders {
        PrepareHeaders();
      }
      wroteBody, wroteHeaders := true, true;
      Send(b);
    }

    method WriteHeader(status: int)
      requires Valid()
      modifies Repr(), out.header
      ensures Valid() && Repr() == old(Repr()) && Abs() == HeaderWritten(pick, old(Abs()), status)
    {
      PrepareHeaders();
      out.WriteHeader(status);
      wroteHeaders := true;
    }

    method Flush()
      requires Valid()
      modifies Repr()
      ensures Valid() && fresh(Repr() - old(Repr())) && Abs() == Flushed(old(Abs()))
    {
      if wroteHeaders || wroteBody {
        FlushWriter();
      }
    }

    method ExtractTrailingHeaders() returns (th: HeaderMap)
      requires Valid()
      modifies `ranges
      ensures fresh(th) && th.m == Trailers(pick, old(Abs()))
      ensures Valid() && Abs() == old(Abs()).(ranges := old(ranges) + 2)
    {
      th := new HeaderMap();
      CopyHeader(th, headers, [TRAILER] + pick(ranges, out.header.m.Keys),
                 TrailerReplacers(), pick(ranges + 1, headers.m.Keys));
      ranges := ranges + 2;
    }

    method SendAll(first: Bytes, second: Bytes)
      requires Valid()
      modifies Repr()
      ensures Valid() && fresh(Repr() - old(Repr()))
      ensures Abs() == FlushedThrough(Sent(Sent(old(Abs()), first), second))
    {
      Send(first);
      Send(second);
      FlushWriter();
    }

    method CopyTrailersToPayload()
      requires Valid()
      modifies Repr()
      ensures Valid() && fresh(Repr() - old(Repr())) && Abs() == WithTrailers(pick, old(Abs()))
    {
      ghost var r := Abs();
      var th := ExtractTrailingHeaders();
      var block := TrailerBlock.Block(th.m, pick(ranges, th.m.Keys));
      ranges := ranges + 1;
      assert block == TrailerText(pick, r) && Abs() == r.(ranges := r.ranges + 3);
      SendAll([TRAILER_FLAG] + Framing.Be32(|block|), block);
    }

    method FinishRequest()
      requires Valid()
      modifies Repr(), out.header
      ensures Valid() && Abs() == Finished(pick, old(Abs()))
    {
      if wroteHeaders || wroteBody {
        CopyTrailersToPayload();
      } else {
        WriteHeader(200);
        FlushWriter();
      }
    }
  }


  /** One action of the handler. */
  method Handle(r: WebProxyResponse, op: HandlerOp)
    requires r.Valid()
    modifies r.Repr(), r.headers, r.out.header
    ensures r.Valid() && fresh(r.Repr() - old(r.Repr()))
    ensures r.Abs() == Handled(r.pick, old(r.Abs()), op)
  {
    match op
    case SetHeader(k, vv) => r.headers.m := r.headers.m[k := vv];
    case DeleteHeader(k) => r.headers.m := r.headers.m - {k};
    case WriteStatus(status) => r.WriteHeader(status);
    case WriteBytes(b) => r.Write(b);
    case FlushOp => r.Flush();
  }

  method RunHandler(r: WebProxyResponse, handler: seq<HandlerOp>)
    requires r.Valid()
    modifies r.Repr(), r.headers, r.out.header
    ensures r.Valid() && fresh(r.Repr() - old(r.Repr()))
    ensures r.Abs() == Ran(r.pick, old(r.Abs()), handler)
  {
    for i := 0 to |handler|
      invariant r.Valid() && fresh(r.Repr() - old(r.Repr()))
      invariant r.Abs() == Ran(r.pick, old(r.Abs()), handler[..i])
    {
      assert handler[..i + 1][..i] == handler[..i];
      Handle(r, handler[i]);
    }
    assert handler[..|handler|] == handler;
  }

  /** WebProxy.ServeHTTP: intercept, handle, finish. */
  method ServeHTTP(resp: ResponseWriter, req: Request, handler: seq<HandlerOp>, pick: Pick)
    requires req.header != resp.header
    modifies resp, resp.header, req, req.header
    ensures req.header.m == InterceptedHeader(old(req.header.m))
    ensures var text := IsTextFormat(FirstValue(old(req.header.m), CONTENT_TYPE));
      resp.Abs() == Finished(pick, Ran(pick, NewResponse(text, resp.canFlush, old(resp.Abs())), handler)).wire
  {
    var isTextFormat := InterceptGrpcRequest(req);
    var grpcResp := new WebProxyResponse(resp, isTextFormat, pick);
    RunHandler(grpcResp, handler);
    grpcResp.FinishRequest();
  }
}
