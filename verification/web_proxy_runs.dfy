/**
  What a gRPC-Web client can rely on after any run of a handler: the body, the trailer frame, and which
  keys are in the response head and in the trailers.
 */
module WebProxyRuns {
  import opened Wrappers
  import opened Text
  import opened Headers
  import opened WebRequest
  import opened WebProxy
  import Base64
  import Framing
  import TrailerBlock

  // ---------- the body ----------

  /** All bytes the handler wrote. */
  function Payload(ops: seq<HandlerOp>): Bytes {
    if ops == [] then []
    else Payload(ops[..|ops| - 1]) + if ops[|ops| - 1].WriteBytes? then ops[|ops| - 1].bytes else []
  }

  /** What a client reads in the body so far, plus what waits in the encoder, is `w`. */
  ghost predicate Carries(r: Response, w: Bytes) {
    if r.text then
      && Base64.Decode(r.wire.body).Some?
      && Base64.Decode(r.wire.body).value + r.fringe == w
      && |r.fringe| < 3
    else r.wire.body == w && r.fringe == []
  }

  lemma {:induction false} DecodeMore(body: Bytes, fringe: Bytes, b: Bytes)
    requires Base64.Decode(body).Some?
    ensures var (all, n) := (fringe + b, Base64.Whole(fringe + b));
      && Base64.Decode(body + Base64.Encode(all[..n])).Some?
      && Base64.Decode(body + Base64.Encode(all[..n])).value + all[n..] == Base64.Decode(body).value + fringe + b
  {
    hide Base64.Encode, Base64.Decode;
    var all := fringe + b;
    var n := Base64.Whole(all);
    Base64.RoundTrip(all[..n]);
    Base64.DecodeConcat(body, Base64.Encode(all[..n]));
    assert all[..n] + all[n..] == all;
    assert (Base64.Decode(body).value + all[..n]) + all[n..] == Base64.Decode(body).value + all;
  }

  lemma {:induction false} SentCarries(r: Response, w: Bytes, b: Bytes)
    requires Carries(r, w)
    ensures Carries(Sent(r, b), w + b)
  {
    hide Base64.Encode, Base64.Decode;
    Base64.EmptyText();
    if r.text {
      DecodeMore(r.wire.body, r.fringe, b);
      var all := r.fringe + b;
      if Base64.Whole(all) == 0 {
        assert all[..0] == [] && all[0..] == all;
        assert r.wire.body + Base64.Encode([]) == r.wire.body;
      }
    }
  }

  lemma {:induction false} FlushedCarries(r: Response, w: Bytes)
    requires Carries(r, w)
    ensures Carries(FlushedThrough(r), w) && FlushedThrough(r).fringe == []
  {
    hide Base64.Encode, Base64.Decode;
    if r.text && r.fringe != [] {
      Base64.RoundTrip(r.fringe);
      Base64.DecodeConcat(r.wire.body, Base64.Encode(r.fringe));
    }
  }

  lemma {:induction false} RanCarries(pick: Pick, r: Response, ops: seq<HandlerOp>)
    requires Carries(r, [])
    ensures Carries(Ran(pick, r, ops), Payload(ops))
  {
    hide Base64.Encode, Base64.Decode;
    Base64.EmptyText();
    if ops != [] {
      var (init, op) := (ops[..|ops| - 1], ops[|ops| - 1]);
      RanCarries(pick, r, init);
      var s := Ran(pick, r, init);
      match op {
        case WriteBytes(b) =>
          var p := if s.wroteHeaders then s else Prepared(pick, s);
          SentCarries(p.(wroteHeaders := true, wroteBody := true), Payload(init), b);
        case FlushOp => FlushedCarries(s, Payload(init));
        case _ =>
      }
      assert Payload(init) + [] == Payload(init);
    }
  }

  function TrailerFrame(pick: Pick, r: Response): Framing.Frame {
    Framing.Frame(TRAILER_FLAG, TrailerText(pick, r))
  }

  /**
    After any run, the client reads the bytes the handler wrote, in order, and then the trailer frame
    and nothing else; or an empty body when the handler wrote neither headers nor body.
   */
  lemma {:induction false} FinishedBody(pick: Pick, text: bool, canFlush: bool, wire: Wire, ops: seq<HandlerOp>)
    requires wire.body == []
    ensures var r := Ran(pick, NewResponse(text, canFlush, wire), ops);
      var f := Finished(pick, r);
      && f.fringe == []
      && (if r.wroteHeaders || r.wroteBody then Carries(f, Payload(ops) + Framing.EncodeFrame(TrailerFrame(pick, r)))
          else Carries(f, Payload(ops)))
  {
    hide Base64.Encode, Base64.Decode, TrailerText;
    Base64.EmptyText();
    var start := NewResponse(text, canFlush, wire);
    var r := Ran(pick, start, ops);
    assert Carries(start, []);
    RanCarries(pick, start, ops);
    if r.wroteHeaders || r.wroteBody {
      var block := TrailerText(pick, r);
      var prefix := [TRAILER_FLAG] + Framing.Be32(|block|);
      var r1 := r.(ranges := r.ranges + 3);
      SentCarries(r1, Payload(ops), prefix);
      SentCarries(Sent(r1, prefix), Payload(ops) + prefix, block);
      FlushedCarries(Sent(Sent(r1, prefix), block), Payload(ops) + prefix + block);
      assert Payload(ops) + prefix + block == Payload(ops) + Framing.EncodeFrame(TrailerFrame(pick, r));
    } else {
      FlushedCarries(HeaderWritten(pick, r, 200), Payload(ops));
    }
  }

  /** The body as a client reads it. */
  ghost function ReadBody(r: Response): Option<Bytes> {
    if r.text then
      if Base64.Decode(r.wire.body).Some? then Some(Base64.Decode(r.wire.body).value) else None
    else Some(r.wire.body)
  }

  /**
    If the handler wrote well-formed data frames, the client parses exactly those frames, then one
    trailer frame, with nothing left over, exactly when the length of the trailers fits its field. If it
    wrote neither headers nor body, the body is empty.
   */
  lemma {:induction false} FinishedFrames(pick: Pick, text: bool, canFlush: bool, wire: Wire, ops: seq<HandlerOp>,
                                          fs: seq<Framing.Frame>)
    requires wire.body == []
    requires Payload(ops) == Framing.EncodeFrames(fs)
    requires forall i :: 0 <= i < |fs| ==> fs[i].Fits() && !fs[i].IsTrailer()
    ensures var r := Ran(pick, NewResponse(text, canFlush, wire), ops);
      var body := ReadBody(Finished(pick, r));
      && body.Some?
      && TrailerFrame(pick, r).IsTrailer()
      && (WritesHead(ops) ==>
            (Framing.ParseFrames(body.value) == Some(fs + [TrailerFrame(pick, r)]) <==> TrailerFrame(pick, r).Fits()))
      && (!WritesHead(ops) ==> body.value == [])
  {
    hide Base64.Encode, Base64.Decode, TrailerText, Ran, Payload, WritesHead, Framing.EncodeFrames, Framing.ParseFrames;
    var start := NewResponse(text, canFlush, wire);
    var r := Ran(pick, start, ops);
    FinishedBody(pick, text, canFlush, wire, ops);
    TextStays(pick, start, ops);
    WroteIff(pick, start, ops);
    var body := ReadBody(Finished(pick, r)).value;
    assert body + [] == body;
    if WritesHead(ops) {
      var all := fs + [TrailerFrame(pick, r)];
      Framing.EncodeAppendOne(fs, TrailerFrame(pick, r));
      Framing.ReadBackIff(all);
      assert all[|fs|] == TrailerFrame(pick, r);
    }
    if !WritesHead(ops) {
      NoPayload(ops);
    }
  }

  lemma {:induction false} NoPayload(ops: seq<HandlerOp>)
    requires !WritesHead(ops)
    ensures Payload(ops) == []
  {
    if ops != [] {
      var init := ops[..|ops| - 1];
      forall i | 0 <= i < |init| ensures !init[i].WriteStatus? && !init[i].WriteBytes? {
        assert init[i] == ops[i];
      }
      NoPayload(init);
    }
  }

  lemma {:induction false} TextStays(pick: Pick, r: Response, ops: seq<HandlerOp>)
    ensures Ran(pick, r, ops).text == r.text && Ran(pick, r, ops).canFlush == r.canFlush
  {
    hide Handled;
    if ops != [] {
      TextStays(pick, r, ops[..|ops| - 1]);
      HandledKeepsText(pick, Ran(pick, r, ops[..|ops| - 1]), ops[|ops| - 1]);
    }
  }

  lemma {:induction false} HandledKeepsText(pick: Pick, r: Response, op: HandlerOp)
    ensures Handled(pick, r, op).text == r.text && Handled(pick, r, op).canFlush == r.canFlush
  {
    hide CopiedHeaders, Joined, TextWritten, TextClosed, WireWritten, WireFlushed, Committed;
  }

  /** The length field of the trailer frame is the block's length exactly when that is below 2^32. */
  lemma {:induction false} TrailerLengthIff(pick: Pick, r: Response)
    ensures var b := Framing.EncodeFrame(TrailerFrame(pick, r));
      Framing.Be32Value(b[1..5]) == |TrailerText(pick, r)| <==> |TrailerText(pick, r)| < Framing.TWO32
  {
    var n := |TrailerText(pick, r)|;
    Framing.Be32RoundTrip(n);
    assert Framing.EncodeFrame(TrailerFrame(pick, r))[1..5] == Framing.Be32(n);
    if n < Framing.TWO32 {
      assert n % Framing.TWO32 == n;
    } else {
      assert n % Framing.TWO32 < n;
    }
  }

  ghost function SomeOrder(keys: set<Bytes>): (order: seq<Bytes>)
    ensures Enumerates(order, keys)
  {
    assert exists order: seq<Bytes> :: Enumerates(order, keys) by {
      var order := EnumerationExists(keys);
    }
    var order: seq<Bytes> :| Enumerates(order, keys);
    order
  }

  /** There is a way to range over all maps; the theorems below speak of every such way. */
  lemma {:induction false} FairExists() returns (pick: Pick)
    ensures Fair(pick)
  {
    pick := (n, keys) => SomeOrder(keys);
  }

  /** The trailer frame, byte by byte: the flag 0x80, the length with the high byte first, and the block. */
  lemma {:induction false} TrailerFrameIsText(pick: Pick, r: Response)
    ensures var (f, n) := (Framing.EncodeFrame(TrailerFrame(pick, r)), |TrailerText(pick, r)|);
      && |f| == 5 + n && f[5..] == TrailerText(pick, r)
      && f[0] as int == 0x80
      && f[1] as int == n / 0x100_0000 % 0x100 && f[2] as int == n / 0x1_0000 % 0x100
      && f[3] as int == n / 0x100 % 0x100 && f[4] as int == n % 0x100
  {
    hide TrailerText;
    var n := |TrailerText(pick, r)|;
    var (a, b, c, d) := (n / 0x100_0000 % 256, n / 0x1_0000 % 256, n / 0x100 % 256, n % 256);
    assert Framing.Be32(n) == [a as char, b as char, c as char, d as char];
  }

  lemma {:induction false} FairAt(pick: Pick, n: nat, keys: set<Bytes>)
    requires Fair(pick)
    ensures Enumerates(pick(n, keys), keys)
  {
  }

  /** The client reads back the trailer map, as far as header syntax can carry it. */
  lemma {:induction false} TrailerBlockReadBack(pick: Pick, r: Response)
    requires Fair(pick)
    ensures TrailerBlock.ParseBlock(TrailerText(pick, r)) == Some(TrailerBlock.Sanitized(Trailers(pick, r)))
  {
    var th := Trailers(pick, r);
    FairAt(pick, r.ranges + 2, th.Keys);
    BlockReadBack(pick, r, th);
  }

  lemma {:induction false} BlockReadBack(pick: Pick, r: Response, th: Header)
    requires th == Trailers(pick, r) && Enumerates(pick(r.ranges + 2, th.Keys), th.Keys)
    ensures TrailerBlock.ParseBlock(TrailerText(pick, r)) == Some(TrailerBlock.Sanitized(th))
  {
    hide Trailers, TrailerBlock.ParseBlock, TrailerBlock.Block, TrailerBlock.Sanitized;
    TrailerBlock.ParseOfBlock(th, pick(r.ranges + 2, th.Keys));
  }

  // ---------- the text-mode stream ----------

  /** What an action does to the encoder: a Flush before the headers are written does not reach it. */
  function EncoderOp(s: Response, op: HandlerOp): seq<Base64.Op> {
    match op
    case WriteBytes(b) => [Base64.Write(b)]
    case FlushOp => if s.wroteHeaders || s.wroteBody then [Base64.Flush] else []
    case _ => []
  }

  function EncoderOps(pick: Pick, r: Response, ops: seq<HandlerOp>): seq<Base64.Op> {
    if ops == [] then []
    else EncoderOps(pick, r, ops[..|ops| - 1]) + EncoderOp(Ran(pick, r, ops[..|ops| - 1]), ops[|ops| - 1])
  }

  function StreamOf(r: Response): Base64.Stream {
    Base64.Stream(r.wire.body, r.fringe)
  }

  lemma {:induction false} SentIsFed(r: Response, b: Bytes)
    requires r.text
    ensures StreamOf(Sent(r, b)) == Base64.Fed(StreamOf(r), b)
  {
    var all := r.fringe + b;
    if Base64.Whole(all) == 0 {
      assert all[..0] == [] && r.wire.body + [] == r.wire.body;
    }
  }

  lemma {:induction false} FlushedIsClosed(r: Response)
    requires r.text
    ensures StreamOf(FlushedThrough(r)) == Base64.Closed(StreamOf(r))
  {
    if r.fringe == [] {
      assert r.wire.body + [] == r.wire.body;
    }
  }

  lemma {:induction false} HandledStream(pick: Pick, s: Response, op: HandlerOp, before: seq<Base64.Op>)
    requires s.text && StreamOf(s) == Base64.Streamed(before)
    ensures StreamOf(Handled(pick, s, op)) == Base64.Streamed(before + EncoderOp(s, op))
  {
    hide Base64.Encode, Base64.Decode;
    match op {
      case WriteBytes(b) =>
        SentIsFed((if s.wroteHeaders then s else Prepared(pick, s)).(wroteHeaders := true, wroteBody := true), b);
        StreamedSnoc(before, Base64.Write(b));
      case FlushOp =>
        FlushedIsClosed(s);
        StreamedSnoc(before, Base64.Flush);
        assert before + [] == before;
      case _ => assert before + [] == before;
    }
  }

  /** In text mode the body and the pending bytes are those of the streaming encoder fed with these. */
  lemma {:induction false} TextBodyIsStream(pick: Pick, r: Response, ops: seq<HandlerOp>)
    requires r.text && r.wire.body == [] && r.fringe == []
    ensures StreamOf(Ran(pick, r, ops)) == Base64.Streamed(EncoderOps(pick, r, ops))
  {
    if ops != [] {
      var init := ops[..|ops| - 1];
      TextBodyIsStream(pick, r, init);
      TextStays(pick, r, init);
      HandledStream(pick, Ran(pick, r, init), ops[|ops| - 1], EncoderOps(pick, r, init));
    }
  }

  lemma {:induction false} StreamedSnoc(ops: seq<Base64.Op>, op: Base64.Op)
    ensures Base64.Streamed(ops + [op]) == Base64.Step(Base64.Streamed(ops), op)
  {
    assert (ops + [op])[..|ops|] == ops;
  }

  // ---------- the headers ----------

  /** A header key as the client sees it: the first "Trailer:" in it is removed. */
  function Stripped(k: Bytes): Bytes {
    if Contains(k, "Trailer:") then ReplaceFirst(k, "Trailer:", []) else k
  }

  lemma {:induction false} PreparedKey(contentType: Bytes, k: Bytes, vv: seq<Bytes>)
    ensures Rewritten(PrepareReplacers(contentType), k, vv).0 == Canonical(Stripped(k))
    ensures Lower(Stripped(k)) != Lower(CONTENT_TYPE) ==> Rewritten(PrepareReplacers(contentType), k, vv).1 == vv
    ensures Lower(Stripped(k)) == Lower(CONTENT_TYPE) ==>
      Rewritten(PrepareReplacers(contentType), k, vv).1
      == seq(|vv|, i requires 0 <= i < |vv| => ReplaceFirst(vv[i], GRPC, contentType))
  {
    var rs := PrepareReplacers(contentType);
    var s := Stripped(k);
    var vv' := if Lower(s) == Lower(CONTENT_TYPE)
      then seq(|vv|, i requires 0 <= i < |vv| => ReplaceFirst(vv[i], GRPC, contentType)) else vv;
    assert rs[1..][0] == rs[1] && rs[1..][1..] == rs[2..] && rs[2..][0] == rs[2] && rs[2..][1..] == [];
    assert Rewritten(rs[2..], s, vv') == (Canonical(s), vv');
    assert Rewritten(rs[1..], s, vv) == Rewritten(rs[2..], s, vv');
    assert Rewritten(rs, k, vv) == Rewritten(rs[1..], s, vv);
  }

  lemma {:induction false} TrailerKey(k: Bytes, vv: seq<Bytes>)
    ensures Rewritten(TrailerReplacers(), k, vv) == (Lower(Stripped(k)), vv)
  {
    var rs := TrailerReplacers();
    assert rs[1..][0] == rs[1] && rs[1..][1..] == [];
    assert Rewritten(rs[1..], Stripped(k), vv) == (Lower(Stripped(k)), vv);
  }

  /** Some key of the map equals `k` up to case. */
  ghost predicate Matches(h: Header, k: Bytes) {
    exists x :: x in h && Lower(x) == Lower(k)
  }

  /** A handler header that takes part in the copying: not "trailer" itself. */
  predicate Announces(h: Header, k: Bytes) {
    k in h && Lower(k) != "trailer"
  }

  lemma {:induction false} LowerOfTrailer()
    ensures Lower(TRAILER) == TRAILER
  {
    assert forall i :: 0 <= i < |TRAILER| ==> Lower(TRAILER)[i] == TRAILER[i];
  }

  lemma {:induction false} SkippedIff(keys: seq<Bytes>, h: Header, k: Bytes)
    requires Enumerates(keys, h.Keys)
    ensures Lower(k) in SkipSet([TRAILER] + keys) <==> Lower(k) == TRAILER || Matches(h, k)
    ensures Lower(k) in SkipSet([TRAILER]) <==> Lower(k) == TRAILER
  {
    LowerOfTrailer();
    var all := [TRAILER] + keys;
    assert all[0] == TRAILER;
    if x :| x in h && Lower(x) == Lower(k) {
      assert x in h.Keys && x in keys;
      assert x in all;
    }
    if Lower(k) in SkipSet(all) {
      var x :| x in all && Lower(x) == Lower(k);
      assert x == TRAILER || x in keys;
    }
  }

  /** The keys of the trailer map: the announced headers that no response header matches, stripped. */
  lemma {:induction false} TrailerKeysIff(pick: Pick, r: Response, x: Bytes)
    requires Fair(pick)
    ensures x in Trailers(pick, r) <==>
      exists k :: Announces(r.headers, k) && !Matches(r.wire.header, k) && Lower(Stripped(k)) == x
  {
    hide Copied, Rewritten, IndexFrom, Lower;
    var keys, order := pick(r.ranges, r.wire.header.Keys), pick(r.ranges + 1, r.headers.Keys);
    assert Enumerates(keys, r.wire.header.Keys) && Enumerates(order, r.headers.Keys);
    var skip := SkipSet([TRAILER] + keys);
    CopiedKeys(map[], r.headers, skip, TrailerReplacers(), order, x);
    forall k | k in r.headers
      ensures Feeds(r.headers, skip, TrailerReplacers(), k, x)
         <==> Announces(r.headers, k) && !Matches(r.wire.header, k) && Lower(Stripped(k)) == x
    {
      SkippedIff(keys, r.wire.header, k);
      TrailerKey(k, r.headers[k]);
    }
  }

  lemma {:induction false} PreparedKeysIff(pick: Pick, r: Response, x: Bytes)
    requires Fair(pick)
    ensures x in Prepared(pick, r).wire.header <==>
      x == EXPOSE || x in r.wire.header || exists k :: Announces(r.headers, k) && Canonical(Stripped(k)) == x
  {
    hide Copied, Rewritten, IndexFrom, Lower;
    var order := pick(r.ranges, r.headers.Keys);
    assert Enumerates(order, r.headers.Keys);
    var (skip, rs) := (SkipSet([TRAILER]), PrepareReplacers(WebType(r.text)));
    CopiedKeys(r.wire.header, r.headers, skip, rs, order, x);
    forall k | k in r.headers
      ensures Feeds(r.headers, skip, rs, k, x) <==> Announces(r.headers, k) && Canonical(Stripped(k)) == x
    {
      SkippedIff([], map[], k);
      PreparedKey(WebType(r.text), k, r.headers[k]);
    }
  }

  /**
    For a key without the "Trailer:" prefix: it is a trailer exactly when no response header matches it,
    or a prefixed key that none matches either is turned into it.
   */
  lemma {:induction false} PlainKeyInTrailersIff(pick: Pick, r: Response, k: Bytes)
    requires Fair(pick) && Announces(r.headers, k) && !Contains(k, TRAILER_PREFIX)
    ensures Lower(k) in Trailers(pick, r) <==>
      || !Matches(r.wire.header, k)
      || exists l :: Announces(r.headers, l) && Contains(l, TRAILER_PREFIX) && !Matches(r.wire.header, l)
           && Lower(Stripped(l)) == Lower(k)
  {
    TrailerKeysIff(pick, r, Lower(k));
    if Lower(k) in Trailers(pick, r) && Matches(r.wire.header, k) {
      var l :| Announces(r.headers, l) && !Matches(r.wire.header, l) && Lower(Stripped(l)) == Lower(k);
      assert !Contains(l, TRAILER_PREFIX) ==> Lower(l) == Lower(k);
    } else if !Matches(r.wire.header, k) {
      assert Stripped(k) == k;
    }
  }

  /** A header that was there when the head was prepared is matched, so it is not repeated as a trailer. */
  lemma {:induction false} PreparedMatches(pick: Pick, r: Response, k: Bytes)
    requires Fair(pick) && Announces(r.headers, k) && !Contains(k, TRAILER_PREFIX)
    ensures Matches(Prepared(pick, r).wire.header, k)
  {
    PreparedKeysIff(pick, r, Canonical(k));
    assert Stripped(k) == k;
    LowerOfCanonical(k);
  }

  /** WriteHeader is not called any more once headers or body were written. */
  predicate OnTime(ops: seq<HandlerOp>) {
    forall i, j :: 0 <= i < j < |ops| && ops[j].WriteStatus? ==> !ops[i].WriteStatus? && !ops[i].WriteBytes?
  }

  predicate WritesHead(ops: seq<HandlerOp>) {
    exists i :: 0 <= i < |ops| && (ops[i].WriteStatus? || ops[i].WriteBytes?)
  }

  /** What was sent as head, if anything, is the live header map. */
  predicate HeadIsLive(r: Response) {
    r.wire.head.Some? ==> r.wire.head.value.header == r.wire.header
  }

  lemma {:induction false} WroteIff(pick: Pick, r: Response, ops: seq<HandlerOp>)
    requires !r.wroteHeaders && !r.wroteBody
    ensures var s := Ran(pick, r, ops);
      && (s.wroteHeaders <==> WritesHead(ops)) && (s.wroteBody ==> s.wroteHeaders)
      && (!s.wroteHeaders ==> s.wire == r.wire && s.ranges == r.ranges && s.fringe == r.fringe)
  {
    hide Base64.Encode, Base64.Decode, CopiedHeaders, Joined;
    if ops != [] {
      var init := ops[..|ops| - 1];
      WroteIff(pick, r, init);
      assert WritesHead(init) ==> WritesHead(ops) by {
        if i :| 0 <= i < |init| && (init[i].WriteStatus? || init[i].WriteBytes?) {
          assert ops[i] == init[i];
        }
      }
      if WritesHead(ops) && !WritesHead(init) {
        var i :| 0 <= i < |ops| && (ops[i].WriteStatus? || ops[i].WriteBytes?);
        assert i == |init|;
      }
    }
  }

  /** The two flags say what the handler did. */
  lemma {:induction false} WroteBodyIff(pick: Pick, r: Response, ops: seq<HandlerOp>)
    requires !r.wroteHeaders && !r.wroteBody
    ensures Ran(pick, r, ops).wroteBody <==> exists i :: 0 <= i < |ops| && ops[i].WriteBytes?
  {
    hide CopiedHeaders, Joined, Sent, FlushedThrough;
    if ops != [] {
      var init := ops[..|ops| - 1];
      WroteBodyIff(pick, r, init);
      assert forall i :: 0 <= i < |init| ==> init[i] == ops[i];
      HandledFlag(pick, Ran(pick, r, init), ops[|ops| - 1]);
    }
  }

  lemma {:induction false} HandledFlag(pick: Pick, r: Response, op: HandlerOp)
    ensures Handled(pick, r, op).wroteBody <==> r.wroteBody || op.WriteBytes?
  {
    hide CopiedHeaders, Joined, TextWritten, TextClosed, WireWritten, WireFlushed, Committed;
  }

  lemma {:induction false} HandledHeadIsLive(pick: Pick, r: Response, op: HandlerOp)
    requires HeadIsLive(r) && (!r.wroteHeaders ==> !r.wroteBody && r.wire.head == None)
    requires op.WriteStatus? ==> !r.wroteHeaders
    ensures HeadIsLive(Handled(pick, r, op))
  {
  }

  lemma {:induction false} OnTimeLast(ops: seq<HandlerOp>)
    requires ops != [] && OnTime(ops)
    ensures OnTime(ops[..|ops| - 1])
    ensures ops[|ops| - 1].WriteStatus? ==> !WritesHead(ops[..|ops| - 1])
  {
    var init := ops[..|ops| - 1];
    forall i, j | 0 <= i < j < |init| && init[j].WriteStatus? ensures !init[i].WriteStatus? && !init[i].WriteBytes? {
      assert init[i] == ops[i] && init[j] == ops[j];
    }
    forall i | 0 <= i < |init| && ops[|ops| - 1].WriteStatus? ensures !init[i].WriteStatus? && !init[i].WriteBytes? {
      assert init[i] == ops[i];
    }
  }

  lemma {:induction false} RanHeadIsLive(pick: Pick, r: Response, ops: seq<HandlerOp>)
    requires !r.wroteHeaders && !r.wroteBody && r.wire.head == None && OnTime(ops)
    ensures HeadIsLive(Ran(pick, r, ops))
  {
    if ops != [] {
      var init := ops[..|ops| - 1];
      OnTimeLast(ops);
      RanHeadIsLive(pick, r, init);
      WroteIff(pick, r, init);
      HandledHeadIsLive(pick, Ran(pick, r, init), ops[|ops| - 1]);
    }
  }

  /**
    No key is lost: after a run in which WriteHeader comes at most once and before any Write, every key of
    the handler's map but "trailer" is in the head that was sent, or in the trailer map. Its values are
    another matter (module HeaderDelivery).
   */
  lemma {:induction false} EveryHeaderDelivered(pick: Pick, text: bool, canFlush: bool, wire: Wire,
                                                ops: seq<HandlerOp>, k: Bytes)
    requires Fair(pick) && wire.head == None && OnTime(ops)
    requires Announces(Ran(pick, NewResponse(text, canFlush, wire), ops).headers, k)
    ensures var r := Ran(pick, NewResponse(text, canFlush, wire), ops);
      var f := Finished(pick, r);
      && f.wire.head.Some?
      && if WritesHead(ops) then Matches(f.wire.head.value.header, k) || Lower(Stripped(k)) in Trailers(pick, r)
         else Canonical(Stripped(k)) in f.wire.head.value.header
  {
    hide Base64.Encode, Base64.Decode, CopiedHeaders, Joined, Trailers, TrailerText;
    var start := NewResponse(text, canFlush, wire);
    var r := Ran(pick, start, ops);
    WroteIff(pick, start, ops);
    RanHeadIsLive(pick, start, ops);
    if WritesHead(ops) {
      SentTwiceCommits(r, [TRAILER_FLAG] + Framing.Be32(|TrailerText(pick, r)|), TrailerText(pick, r));
      TrailerKeysIff(pick, r, Lower(Stripped(k)));
    } else {
      PreparedKeysIff(pick, r, Canonical(Stripped(k)));
    }
  }

  /** Whatever announced header is stripped to `x` has a value. */
  predicate HasValues(h: Header, x: Bytes) {
    forall l | l in h :: Announces(h, l) && Lower(Stripped(l)) == x ==> h[l] != []
  }

  /**
    On the wire, once headers or body were written and the sent head is the live map: a handler header
    with a token key, whose entries have a value, is in the head or is read back from the trailer block,
    there with the cleaned values of an entry of that name.
   */
  lemma {:induction false} HeaderReachesClient(pick: Pick, r: Response, k: Bytes)
    requires Fair(pick) && (r.wroteHeaders || r.wroteBody) && HeadIsLive(r)
    requires Announces(r.headers, k) && IsToken(Stripped(k)) && HasValues(r.headers, Lower(Stripped(k)))
    ensures var f := Finished(pick, r);
      var parsed := TrailerBlock.ParseBlock(TrailerText(pick, r));
      && f.wire.head.Some? && parsed.Some?
      && (Matches(f.wire.head.value.header, k) || Lower(Stripped(k)) in parsed.value)
      && (Lower(Stripped(k)) in parsed.value ==>
            exists l :: Announces(r.headers, l) && Lower(Stripped(l)) == Lower(Stripped(k))
              && parsed.value[Lower(Stripped(k))] == TrailerBlock.CleanedAll(r.headers[l]))
  {
    hide Base64.Encode, Base64.Decode, Trailers, TrailerText, TrailerBlock.ParseBlock, IndexFrom, Lower;
    var block := TrailerText(pick, r);
    SentTwiceCommits(r.(ranges := r.ranges + 3), [TRAILER_FLAG] + Framing.Be32(|block|), block);
    TrailerKeysIff(pick, r, Lower(Stripped(k)));
    TrailerBlockReadBack(pick, r);
    LowerKeepsToken(Stripped(k));
    if Lower(Stripped(k)) in Trailers(pick, r) {
      TrailerValues(pick, r, Lower(Stripped(k)));
    }
  }

  /** The values of a trailer are those of some announced header that is stripped to it. */
  lemma {:induction false} TrailerValues(pick: Pick, r: Response, x: Bytes)
    requires Fair(pick) && x in Trailers(pick, r)
    ensures exists l :: Announces(r.headers, l) && Lower(Stripped(l)) == x && Trailers(pick, r)[x] == r.headers[l]
  {
    hide Rewritten, IndexFrom, Lower;
    var keys, order := pick(r.ranges, r.wire.header.Keys), pick(r.ranges + 1, r.headers.Keys);
    assert Enumerates(keys, r.wire.header.Keys) && Enumerates(order, r.headers.Keys);
    var w := LastVisitWins(map[], r.headers, SkipSet([TRAILER] + keys), TrailerReplacers(), order, x);
    var l := order[w];
    SkippedIff(keys, r.wire.header, l);
    TrailerKey(l, r.headers[l]);
  }

  /** The five bytes of the frame prefix make even the encoder write, which sends the head if it was not. */
  lemma {:induction false} SentTwiceCommits(r: Response, prefix: Bytes, block: Bytes)
    requires |prefix| == 5 && HeadIsLive(r)
    ensures var f := FlushedThrough(Sent(Sent(r, prefix), block));
      f.wire.head.Some? && f.wire.head.value.header == r.wire.header
  {
    hide Base64.Encode, Base64.Decode;
    if r.text {
      assert Base64.Whole(r.fringe + prefix) > 0;
    }
  }

  /** Preparing the head changes the header map and nothing else of the response. */
  lemma {:induction false} PreparedKeepsBody(pick: Pick, r: Response)
    ensures var p := Prepared(pick, r);
      p == r.(wire := r.wire.(header := p.wire.header), ranges := r.ranges + 2)
  {
    hide CopiedHeaders, Joined;
  }

  /** A key made of token bytes has no "Trailer:" in it. */
  lemma {:induction false} TokenIsPlainKey(k: Bytes)
    requires AllTokenBytes(k)
    ensures !Contains(k, TRAILER_PREFIX) && Stripped(k) == k
  {
    var i := Index(k, TRAILER_PREFIX);
    if i != -1 {
      MatchByte(k, TRAILER_PREFIX, i, 7);
    }
  }

  lemma {:induction false} ContentTypeIsPlainKey()
    ensures Stripped(CONTENT_TYPE) == CONTENT_TYPE && Canonical(CONTENT_TYPE) == CONTENT_TYPE
    ensures Lower(CONTENT_TYPE) != TRAILER && CONTENT_TYPE != EXPOSE
  {
    hide IndexFrom;
    TokenIsPlainKey(CONTENT_TYPE);
    assert forall i :: 0 <= i < |CONTENT_TYPE| ==> Canonical(CONTENT_TYPE)[i] == CONTENT_TYPE[i];
    assert |Lower(CONTENT_TYPE)| != |TRAILER| && |CONTENT_TYPE| != |EXPOSE|;
  }

  /** The response content type is the one the request came with, when the handler echoes what it saw. */
  lemma {:induction false} ContentTypeComesBack(pick: Pick, r: Response, contentType: Bytes)
    requires Fair(pick) && HasPrefix(contentType, GRPC_WEB) && r.text == IsTextFormat(contentType)
    requires CONTENT_TYPE in r.headers && r.headers[CONTENT_TYPE] == [PlainType(contentType)]
    requires forall k :: Announces(r.headers, k) && Canonical(Stripped(k)) == CONTENT_TYPE ==> k == CONTENT_TYPE
    ensures var h := Prepared(pick, r).wire.header;
      CONTENT_TYPE in h && h[CONTENT_TYPE] == [contentType]
  {
    hide IndexFrom, Copied, Rewritten, Joined;
    var order := pick(r.ranges, r.headers.Keys);
    assert Enumerates(order, r.headers.Keys);
    var (skip, rs) := (SkipSet([TRAILER]), PrepareReplacers(WebType(r.text)));
    ContentTypeIsPlainKey();
    WebTypesComeBack(contentType);
    var w := LastVisitWins(r.wire.header, r.headers, skip, rs, order, CONTENT_TYPE);
    FeedsContentType(r, CONTENT_TYPE);
    assert CONTENT_TYPE in r.headers.Keys && CONTENT_TYPE in order;
    if w != -1 && order[w] in r.headers {
      FeedsContentType(r, order[w]);
    }
    PreparedKey(WebType(r.text), CONTENT_TYPE, r.headers[CONTENT_TYPE]);
  }

  lemma {:induction false} FeedsContentType(r: Response, k: Bytes)
    requires k in r.headers
    ensures Feeds(r.headers, SkipSet([TRAILER]), PrepareReplacers(WebType(r.text)), k, CONTENT_TYPE)
       <==> Announces(r.headers, k) && Canonical(Stripped(k)) == CONTENT_TYPE
  {
    SkippedIff([], map[], k);
    PreparedKey(WebType(r.text), k, r.headers[k]);
  }
}
