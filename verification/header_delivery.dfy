/**
  Which of a handler's headers, and which of their values, get to the client: in the head that was sent
  or in the trailers. It is read off the order of the handler's actions alone, in both modes.
 */
module HeaderDelivery {
  import opened Wrappers
  import opened Text
  import opened Headers
  import opened WebRequest
  import opened WebProxy
  import opened WebProxyRuns
  import Base64
  import Framing
  import TrailerBlock

  // ---------- when the head is prepared and when it is sent ----------

  /**
    The handler's map, whether headers or body were written, whether the head was sent, and how many
    bytes the encoder holds. `sent` is the map that the head was prepared from, later preparations over
    earlier ones; `late` is the same for preparations after the head was sent.
   */
  datatype Ledger = Ledger(headers: Header, wrote: bool, committed: bool, pending: nat, sent: Header, late: Header)

  function Noted(t: Ledger): Ledger {
    if t.committed then t.(late := t.late + t.headers) else t.(sent := t.sent + t.headers)
  }

  /** Binary mode sends the head with the first write; text mode when the encoder first puts something out. */
  function Entered(text: bool, canFlush: bool, t: Ledger, op: HandlerOp): Ledger {
    match op
    case SetHeader(k, vv) => t.(headers := t.headers[k := vv])
    case DeleteHeader(k) => t.(headers := t.headers - {k})
    case WriteStatus(_) => Noted(t).(wrote := true, committed := true)
    case WriteBytes(b) =>
      var p := if t.wrote then t else Noted(t);
      if text then
        p.(wrote := true, committed := p.committed || p.pending + |b| >= 3, pending := (p.pending + |b|) % 3)
      else p.(wrote := true, committed := true)
    case FlushOp =>
      if t.wrote then t.(committed := t.committed || t.pending > 0 || canFlush, pending := 0) else t
  }

  function Entries(text: bool, canFlush: bool, ops: seq<HandlerOp>): Ledger {
    if ops == [] then Ledger(map[], false, false, 0, map[], map[])
    else Entered(text, canFlush, Entries(text, canFlush, ops[..|ops| - 1]), ops[|ops| - 1])
  }

  /** Finishing a response that was never written to prepares the head. */
  function Closed(t: Ledger): Ledger {
    if t.wrote then t else Noted(t)
  }

  function Account(text: bool, canFlush: bool, ops: seq<HandlerOp>): Ledger {
    Closed(Entries(text, canFlush, ops))
  }

  /** The ledger tells the state of the response, header contents apart. */
  ghost predicate Tracks(wire: Wire, r: Response, t: Ledger) {
    && r.headers == t.headers && r.wroteHeaders == t.wrote && (r.wroteBody ==> r.wroteHeaders)
    && r.wire.head.Some? == t.committed && (t.committed ==> t.wrote)
    && |r.fringe| == t.pending && (if r.text then t.pending < 3 else t.pending == 0 && t.committed == t.wrote)
    && (!t.committed ==> t.late == map[])
    && (!t.wrote ==> r.wire.header == wire.header && t.sent == map[])
  }

  /** A write changes neither header map and sends the head when the writer, or the encoder, puts bytes out. */
  lemma {:induction false} SentEffect(r: Response, b: Bytes)
    ensures var s := Sent(r, b);
      && s == r.(wire := s.wire, fringe := s.fringe) && s.wire.header == r.wire.header
      && s.wire.head == (if r.wire.head.None? && (!r.text || |r.fringe| + |b| >= 3)
                         then Some(Head(200, r.wire.header)) else r.wire.head)
      && |s.fringe| == if r.text then (|r.fringe| + |b|) % 3 else |r.fringe|
  {
    hide Base64.Encode;
    if r.text {
      var all := r.fringe + b;
      assert Base64.Whole(all) > 0 <==> |all| >= 3;
    }
  }

  lemma {:induction false} FlushEffect(r: Response)
    ensures var s := FlushedThrough(r);
      && s == r.(wire := s.wire, fringe := s.fringe) && s.wire.header == r.wire.header
      && s.wire.head == (if r.wire.head.None? && ((r.text && |r.fringe| > 0) || r.canFlush)
                         then Some(Head(200, r.wire.header)) else r.wire.head)
      && |s.fringe| == if r.text then 0 else |r.fringe|
  {
    hide Base64.Encode;
  }

  lemma {:induction false} HandledTracks(pick: Pick, wire: Wire, s: Response, t: Ledger, op: HandlerOp)
    requires Tracks(wire, s, t)
    ensures Tracks(wire, Handled(pick, s, op), Entered(s.text, s.canFlush, t, op))
  {
    hide Prepared, Sent, FlushedThrough;
    PreparedKeepsBody(pick, s);
    match op {
      case WriteBytes(b) =>
        var p := if s.wroteHeaders then s else Prepared(pick, s);
        SentEffect(p.(wroteHeaders := true, wroteBody := true), b);
      case FlushOp => FlushEffect(s);
      case _ =>
    }
  }

  lemma {:induction false} RunTracks(pick: Pick, text: bool, canFlush: bool, wire: Wire, ops: seq<HandlerOp>)
    requires wire.head == None
    ensures Tracks(wire, Ran(pick, NewResponse(text, canFlush, wire), ops), Entries(text, canFlush, ops))
  {
    hide Handled, Entered;
    if ops != [] {
      var init := ops[..|ops| - 1];
      RunTracks(pick, text, canFlush, wire, init);
      TextStays(pick, NewResponse(text, canFlush, wire), init);
      HandledTracks(pick, wire, Ran(pick, NewResponse(text, canFlush, wire), init),
                    Entries(text, canFlush, init), ops[|ops| - 1]);
    }
  }

  // ---------- which keys the head shows ----------

  /** The names under which a client may see the entries of a handler's map. */
  function Names(h: Header): set<Bytes> {
    set l | l in h && Lower(l) != TRAILER :: Lower(Stripped(l))
  }

  lemma {:induction false} NamesOfSum(h: Header, g: Header)
    ensures Names(h + g) == Names(h) + Names(g)
  {
    hide Lower, Stripped;
    forall x ensures x in Names(h + g) <==> x in Names(h) || x in Names(g) {
      if l :| l in h && Lower(l) != TRAILER && Lower(Stripped(l)) == x {
        assert l in h + g;
      }
      if l :| l in g && Lower(l) != TRAILER && Lower(Stripped(l)) == x {
        assert l in h + g;
      }
    }
  }

  /** Names in the head that do not come from the handler. */
  ghost predicate Foreign(wire: Wire, x: Bytes) {
    Matches(wire.header, x) || Lower(x) == Lower("Access-Control-Expose-Headers")
  }

  lemma {:induction false} PreparedShows(pick: Pick, s: Response, x: Bytes)
    requires Fair(pick)
    ensures Matches(Prepared(pick, s).wire.header, x)
       <==> Lower(x) == Lower(EXPOSE) || Matches(s.wire.header, x) || Lower(x) in Names(s.headers)
  {
    hide Prepared, Lower, Stripped, Fair;
    var h := Prepared(pick, s).wire.header;
    if y :| y in h && Lower(y) == Lower(x) {
      PreparedKeysIff(pick, s, y);
      if y != EXPOSE && y !in s.wire.header {
        var l :| Announces(s.headers, l) && Canonical(Stripped(l)) == y;
        LowerOfCanonical(Stripped(l));
      }
    }
    if Lower(x) == Lower(EXPOSE) {
      PreparedKeysIff(pick, s, EXPOSE);
    }
    if y :| y in s.wire.header && Lower(y) == Lower(x) {
      PreparedKeysIff(pick, s, y);
    }
    if Lower(x) in Names(s.headers) {
      var l :| l in s.headers && Lower(l) != TRAILER && Lower(Stripped(l)) == Lower(x);
      PreparedKeysIff(pick, s, Canonical(Stripped(l)));
      LowerOfCanonical(Stripped(l));
    }
  }

  /** The header maps show what was on the wire, the expose header, and the names of what they were prepared from. */
  ghost predicate Shows(wire: Wire, r: Response, t: Ledger, x: Bytes) {
    && (Matches(r.wire.header, x) <==>
          || Matches(wire.header, x) || (t.wrote && Lower(x) == Lower(EXPOSE))
          || Lower(x) in Names(t.sent) + Names(t.late))
    && (r.wire.head.Some? ==>
          (Matches(r.wire.head.value.header, x) <==> Foreign(wire, x) || Lower(x) in Names(t.sent)))
  }

  lemma {:induction false} HandledShows(pick: Pick, wire: Wire, s: Response, t: Ledger, op: HandlerOp, x: Bytes)
    requires Fair(pick) && Tracks(wire, s, t) && Shows(wire, s, t, x)
    ensures Shows(wire, Handled(pick, s, op), Entered(s.text, s.canFlush, t, op), x)
  {
    hide Prepared, Sent, FlushedThrough, Names, Lower, Fair, Matches;
    NoNames();
    match op {
      case WriteStatus(status) => StatusShows(pick, wire, s, t, status, x);
      case WriteBytes(b) => WriteShows(pick, wire, s, t, b, x);
      case FlushOp => FlushEffect(s);
      case _ =>
    }
  }

  lemma {:induction false} StatusShows(pick: Pick, wire: Wire, s: Response, t: Ledger, status: int, x: Bytes)
    requires Fair(pick) && Tracks(wire, s, t) && Shows(wire, s, t, x)
    ensures Shows(wire, Handled(pick, s, WriteStatus(status)), Entered(s.text, s.canFlush, t, WriteStatus(status)), x)
  {
    hide Prepared, Names, Lower, Fair, Matches;
    PreparedKeepsBody(pick, s);
    NoNames();
    PreparedShows(pick, s, x);
    if t.committed {
      NamesOfSum(t.late, t.headers);
    } else {
      NamesOfSum(t.sent, t.headers);
    }
  }

  lemma {:induction false} WriteShows(pick: Pick, wire: Wire, s: Response, t: Ledger, b: Bytes, x: Bytes)
    requires Fair(pick) && Tracks(wire, s, t) && Shows(wire, s, t, x)
    ensures Shows(wire, Handled(pick, s, WriteBytes(b)), Entered(s.text, s.canFlush, t, WriteBytes(b)), x)
  {
    hide Prepared, Sent, Names, Lower, Fair, Matches;
    NoNames();
    if t.wrote {
      SentEffect(s.(wroteHeaders := true, wroteBody := true), b);
    } else {
      PreparedKeepsBody(pick, s);
      PreparedShows(pick, s, x);
      NamesOfSum(t.sent, t.headers);
      SentEffect(Prepared(pick, s).(wroteHeaders := true, wroteBody := true), b);
    }
  }

  lemma {:induction false} NoNames()
    ensures Names(map[]) == {}
  {
  }

  lemma {:induction false} RunShows(pick: Pick, text: bool, canFlush: bool, wire: Wire, ops: seq<HandlerOp>, x: Bytes)
    requires Fair(pick) && wire.head == None
    ensures Shows(wire, Ran(pick, NewResponse(text, canFlush, wire), ops), Entries(text, canFlush, ops), x)
  {
    hide Handled, Entered, Fair, Lower;
    if ops != [] {
      var init := ops[..|ops| - 1];
      RunShows(pick, text, canFlush, wire, init, x);
      RunTracks(pick, text, canFlush, wire, init);
      TextStays(pick, NewResponse(text, canFlush, wire), init);
      HandledShows(pick, wire, Ran(pick, NewResponse(text, canFlush, wire), init),
                   Entries(text, canFlush, init), ops[|ops| - 1], x);
    }
  }

  // ---------- which headers are delivered ----------

  /** The state of the response after the handler, and the finished response. */
  function After(pick: Pick, text: bool, canFlush: bool, wire: Wire, ops: seq<HandlerOp>): Response {
    Ran(pick, NewResponse(text, canFlush, wire), ops)
  }

  /** The head that the finished response has sent, as it was handed to the wrapped writer. */
  function SentHead(pick: Pick, r: Response): Header {
    var f := Finished(pick, r);
    if f.wire.head.Some? then f.wire.head.value.header else map[]
  }

  /** The trailers of the finished response; there are none if nothing was written before. */
  function SentTrailers(pick: Pick, r: Response): Header {
    if r.wroteHeaders || r.wroteBody then Trailers(pick, r) else map[]
  }

  /** Finishing sends the head that was sent before, or the live map, or the map prepared then. */
  lemma {:induction false} HeadAtTheEnd(pick: Pick, wire: Wire, r: Response, t: Ledger)
    requires Tracks(wire, r, t)
    ensures Finished(pick, r).wire.head.Some?
    ensures SentHead(pick, r) == if !t.wrote then Prepared(pick, r).wire.header
                                 else if r.wire.head.Some? then r.wire.head.value.header else r.wire.header
  {
    hide Prepared, Sent, FlushedThrough, Trailers, TrailerText;
    PreparedKeepsBody(pick, r);
    if t.wrote {
      var block := TrailerText(pick, r);
      var prefix := [TRAILER_FLAG] + Framing.Be32(|block|);
      var r1 := r.(ranges := r.ranges + 3);
      SentEffect(r1, prefix);
      SentEffect(Sent(r1, prefix), block);
      FlushEffect(Sent(Sent(r1, prefix), block));
    } else {
      FlushEffect(HeaderWritten(pick, r, 200));
    }
  }

  /** The head shows what was there without the handler, and what it was prepared from before it was sent. */
  lemma {:induction false} SentHeadIff(pick: Pick, text: bool, canFlush: bool, wire: Wire, ops: seq<HandlerOp>,
                                       x: Bytes)
    requires Fair(pick) && wire.head == None
    ensures Finished(pick, After(pick, text, canFlush, wire, ops)).wire.head.Some?
    ensures Matches(SentHead(pick, After(pick, text, canFlush, wire, ops)), x)
       <==> Foreign(wire, x) || Lower(x) in Names(Account(text, canFlush, ops).sent)
  {
    hide Ran, Prepared, Finished, Names, Lower, Fair, Matches, Entries, SentHead;
    var (r, t) := (After(pick, text, canFlush, wire, ops), Entries(text, canFlush, ops));
    RunTracks(pick, text, canFlush, wire, ops);
    RunShows(pick, text, canFlush, wire, ops, x);
    HeadAtTheEnd(pick, wire, r, t);
    PreparedShows(pick, r, x);
    NoNames();
    NamesOfSum(t.sent, t.headers);
    assert t.committed || Names(t.sent) + Names(t.late) == Names(t.sent);
  }

  /** Some header matches `l` when the trailers are picked. */
  ghost predicate Matched(wire: Wire, t: Ledger, l: Bytes) {
    Foreign(wire, l) || Lower(l) in Names(t.sent) || Lower(l) in Names(t.late)
  }

  /** An entry of the final map that goes into the trailers under the name of `x`. */
  ghost predicate TrailedAs(wire: Wire, t: Ledger, l: Bytes, x: Bytes) {
    Announces(t.headers, l) && !Matched(wire, t, l) && Lower(Stripped(l)) == Lower(x)
  }

  /** The trailers hold the entries of the final map that no response header matches, under their stripped names. */
  lemma {:induction false} SentTrailersIff(pick: Pick, text: bool, canFlush: bool, wire: Wire, ops: seq<HandlerOp>,
                                           x: Bytes)
    requires Fair(pick) && wire.head == None
    ensures Lower(x) in SentTrailers(pick, After(pick, text, canFlush, wire, ops)) <==>
      var t := Account(text, canFlush, ops);
      t.wrote && exists l :: TrailedAs(wire, t, l, x)
  {
    hide Ran, Trailers, Names, Lower, Stripped, Fair, Matches, Entries;
    var (r, t) := (After(pick, text, canFlush, wire, ops), Entries(text, canFlush, ops));
    RunTracks(pick, text, canFlush, wire, ops);
    TrailerKeysIff(pick, r, Lower(x));
    if t.wrote {
      forall l ensures Matches(r.wire.header, l) <==> Matched(wire, t, l) {
        RunShows(pick, text, canFlush, wire, ops, l);
      }
      if l :| Announces(r.headers, l) && !Matches(r.wire.header, l) && Lower(Stripped(l)) == Lower(x) {
        assert TrailedAs(wire, t, l, x);
      }
    }
  }

  /** A header of that name is in the head or in the trailer map. */
  ghost predicate Placed(pick: Pick, r: Response, x: Bytes) {
    Matches(SentHead(pick, r), x) || Lower(x) in SentTrailers(pick, r)
  }

  /**
    Before the trailers are printed: a key of the final map without "Trailer:" is in neither map exactly
    when the head was prepared from it only after the head was sent, nothing else put it there, and no
    unmatched "Trailer:" key is stripped to it.
   */
  lemma {:induction false} UnplacedIff(pick: Pick, text: bool, canFlush: bool, wire: Wire, ops: seq<HandlerOp>,
                                       k: Bytes)
    requires Fair(pick) && wire.head == None
    requires Announces(Account(text, canFlush, ops).headers, k) && !Contains(k, TRAILER_PREFIX)
    ensures var t := Account(text, canFlush, ops);
      !Placed(pick, After(pick, text, canFlush, wire, ops), k) <==>
        && !Foreign(wire, k) && Lower(k) !in Names(t.sent) && Lower(k) in Names(t.late)
        && !exists l :: Contains(l, TRAILER_PREFIX) && TrailedAs(wire, t, l, k)
  {
    hide After, Account, SentHead, SentTrailers, Names, Lower, Fair, Matches;
    var t := Account(text, canFlush, ops);
    SentHeadIff(pick, text, canFlush, wire, ops, k);
    SentTrailersIff(pick, text, canFlush, wire, ops, k);
    UnwrittenAccount(text, canFlush, ops);
    NameOfEntry(t.headers, k);
    assert !Matched(wire, t, k) ==> TrailedAs(wire, t, k, k);
    forall l | TrailedAs(wire, t, l, k) && !Contains(l, TRAILER_PREFIX) ensures !Matched(wire, t, k) {
      assert Lower(l) == Lower(k);
      SameMatches(wire.header, l, k);
    }
  }

  lemma {:induction false} SameMatches(h: Header, l: Bytes, k: Bytes)
    requires Lower(l) == Lower(k)
    ensures Matches(h, l) <==> Matches(h, k)
  {
  }

  lemma {:induction false} NameOfEntry(h: Header, k: Bytes)
    requires Announces(h, k)
    ensures Lower(Stripped(k)) in Names(h)
    ensures !Contains(k, TRAILER_PREFIX) ==> Stripped(k) == k
  {
  }

  /** A handler that wrote nothing loses nothing: the head is prepared from its final map. */
  lemma {:induction false} UnwrittenAccount(text: bool, canFlush: bool, ops: seq<HandlerOp>)
    ensures var t := Account(text, canFlush, ops);
      !t.wrote ==> t.sent == t.headers && t.late == map[]
  {
    UnwrittenEntries(text, canFlush, ops);
  }

  lemma {:induction false} UnwrittenEntries(text: bool, canFlush: bool, ops: seq<HandlerOp>)
    ensures var t := Entries(text, canFlush, ops);
      (t.committed ==> t.wrote) && (!t.wrote ==> t.sent == map[]) && (!t.committed ==> t.late == map[])
  {
    if ops != [] {
      UnwrittenEntries(text, canFlush, ops[..|ops| - 1]);
    }
  }

  // ---------- what the client reads ----------

  /** What the client reads in the trailer block, if there is one. */
  function ReadTrailers(pick: Pick, r: Response): Header {
    if r.wroteHeaders || r.wroteBody then
      var block := TrailerBlock.ParseBlock(TrailerText(pick, r));
      if block.Some? then block.value else map[]
    else map[]
  }

  /** The print drops keys that are no tokens and keys without values, and cleans values. */
  lemma {:induction false} ReadIsSanitized(pick: Pick, r: Response)
    requires Fair(pick)
    ensures ReadTrailers(pick, r) == TrailerBlock.Sanitized(SentTrailers(pick, r))
  {
    hide TrailerText, Trailers, TrailerBlock.ParseBlock, Fair;
    TrailerBlockReadBack(pick, r);
  }

  /** The order in which Go visits the final map when it picks the trailers. */
  function TrailerOrder(pick: Pick, r: Response): seq<Bytes> {
    pick(r.ranges + 1, r.headers.Keys)
  }

  /** Of the entries that go into the trailers under the name of `x`, the one at `w` is visited last. */
  ghost predicate VisitedLast(order: seq<Bytes>, wire: Wire, t: Ledger, w: int, x: Bytes) {
    && 0 <= w < |order| && TrailedAs(wire, t, order[w], x)
    && forall i :: w < i < |order| ==> !TrailedAs(wire, t, order[i], x)
  }

  /** And it has no values, so nothing is printed for it. */
  ghost predicate EndsValueless(order: seq<Bytes>, wire: Wire, t: Ledger, x: Bytes) {
    exists w :: VisitedLast(order, wire, t, w, x) && t.headers[order[w]] == []
  }

  /** The trailer map holds the values of the entry visited last. */
  lemma {:induction false} SentTrailerValues(pick: Pick, text: bool, canFlush: bool, wire: Wire, ops: seq<HandlerOp>,
                                             x: Bytes)
    returns (w: int)
    requires Fair(pick) && wire.head == None
    requires Lower(x) in SentTrailers(pick, After(pick, text, canFlush, wire, ops))
    ensures var (r, t) := (After(pick, text, canFlush, wire, ops), Account(text, canFlush, ops));
      && VisitedLast(TrailerOrder(pick, r), wire, t, w, x)
      && SentTrailers(pick, r)[Lower(x)] == t.headers[TrailerOrder(pick, r)[w]]
  {
    hide Ran, Names, Lower, Stripped, Fair, Matches, Entries, Rewritten;
    var (r, t) := (After(pick, text, canFlush, wire, ops), Account(text, canFlush, ops));
    RunTracks(pick, text, canFlush, wire, ops);
    var (keys, order) := (pick(r.ranges, r.wire.header.Keys), TrailerOrder(pick, r));
    FairAt(pick, r.ranges, r.wire.header.Keys);
    FairAt(pick, r.ranges + 1, r.headers.Keys);
    var skip := SkipSet([TRAILER] + keys);
    w := LastVisitWins(map[], r.headers, skip, TrailerReplacers(), order, Lower(x));
    forall l | l in r.headers
      ensures Feeds(r.headers, skip, TrailerReplacers(), l, Lower(x)) <==> TrailedAs(wire, t, l, x)
    {
      SkippedIff(keys, r.wire.header, l);
      TrailerKey(l, r.headers[l]);
      RunShows(pick, text, canFlush, wire, ops, l);
    }
    TrailerKey(order[w], r.headers[order[w]]);
  }

  /**
    The client reads a trailer of that name exactly when the name is a token, some entry goes into the
    trailers under it, and the one visited last has values; it reads the cleaned values of that entry.
   */
  lemma {:induction false} ReadTrailersIff(pick: Pick, text: bool, canFlush: bool, wire: Wire, ops: seq<HandlerOp>,
                                           x: Bytes)
    requires Fair(pick) && wire.head == None
    ensures var (r, t) := (After(pick, text, canFlush, wire, ops), Account(text, canFlush, ops));
      var order := TrailerOrder(pick, r);
      && (Lower(x) in ReadTrailers(pick, r) <==>
            t.wrote && IsToken(x) && (exists l :: TrailedAs(wire, t, l, x)) && !EndsValueless(order, wire, t, x))
      && (Lower(x) in ReadTrailers(pick, r) ==>
            exists w :: VisitedLast(order, wire, t, w, x)
              && ReadTrailers(pick, r)[Lower(x)] == TrailerBlock.CleanedAll(t.headers[order[w]]))
  {
    hide After, Account, SentTrailers, ReadTrailers, TrailerOrder, Lower, Fair, TrailedAs, IsToken;
    var r := After(pick, text, canFlush, wire, ops);
    SentTrailersIff(pick, text, canFlush, wire, ops, x);
    ReadIsSanitized(pick, r);
    LowerKeepsToken(x);
    if Lower(x) in SentTrailers(pick, r) {
      var w := SentTrailerValues(pick, text, canFlush, wire, ops, x);
    }
  }

  /** The client finds a header of that name in the head, or reads it in the trailers. */
  ghost predicate Delivered(pick: Pick, r: Response, x: Bytes) {
    Matches(SentHead(pick, r), x) || Lower(x) in ReadTrailers(pick, r)
  }

  /**
    Exactly which headers are lost, for every run in either mode over any wrapped header map. A key of the
    final map without "Trailer:" is lost when it is not in the head and: it is no token; or the head was
    prepared from it after the head was sent, and no unmatched "Trailer:" key is stripped to it; or the
    entry that goes into the trailers under its name has no values.
   */
  lemma {:induction false} HeaderLostIff(pick: Pick, text: bool, canFlush: bool, wire: Wire, ops: seq<HandlerOp>,
                                         k: Bytes)
    requires Fair(pick) && wire.head == None
    requires Announces(Account(text, canFlush, ops).headers, k) && !Contains(k, TRAILER_PREFIX)
    ensures var (r, t) := (After(pick, text, canFlush, wire, ops), Account(text, canFlush, ops));
      !Delivered(pick, r, k) <==>
        && !Foreign(wire, k) && Lower(k) !in Names(t.sent)
        && (|| !IsToken(k)
            || (Lower(k) in Names(t.late) && !exists l :: Contains(l, TRAILER_PREFIX) && TrailedAs(wire, t, l, k))
            || EndsValueless(TrailerOrder(pick, r), wire, t, k))
  {
    hide After, Account, SentHead, SentTrailers, ReadTrailers, Names, Lower, Fair, Matches, EndsValueless, IsToken;
    UnplacedIff(pick, text, canFlush, wire, ops, k);
    SentHeadIff(pick, text, canFlush, wire, ops, k);
    SentTrailersIff(pick, text, canFlush, wire, ops, k);
    ReadTrailersIff(pick, text, canFlush, wire, ops, k);
    UnwrittenAccount(text, canFlush, ops);
    NameOfEntry(Account(text, canFlush, ops).headers, k);
  }

  /** Without "Trailer:" keys. */
  lemma {:induction false} PlainHeaderDeliveredIff(pick: Pick, text: bool, canFlush: bool, wire: Wire,
                                                   ops: seq<HandlerOp>, k: Bytes)
    requires Fair(pick) && wire.head == None
    requires Announces(Account(text, canFlush, ops).headers, k)
    requires forall l :: l in Account(text, canFlush, ops).headers ==> !Contains(l, TRAILER_PREFIX)
    ensures var (r, t) := (After(pick, text, canFlush, wire, ops), Account(text, canFlush, ops));
      && (Placed(pick, r, k) <==> Foreign(wire, k) || Lower(k) in Names(t.sent) || Lower(k) !in Names(t.late))
      && (Delivered(pick, r, k) <==>
            || Foreign(wire, k) || Lower(k) in Names(t.sent)
            || (Lower(k) !in Names(t.late) && IsToken(k) && !EndsValueless(TrailerOrder(pick, r), wire, t, k)))
  {
    hide After, Account, Names, Lower, Fair, Matches, Contains, EndsValueless, IsToken, Placed, Delivered;
    UnplacedIff(pick, text, canFlush, wire, ops, k);
    HeaderLostIff(pick, text, canFlush, wire, ops, k);
  }

  /** When WriteHeader comes at most once and before any Write, the head is never prepared late. */
  lemma {:induction false} OnTimeHasNoLate(text: bool, canFlush: bool, ops: seq<HandlerOp>)
    requires OnTime(ops)
    ensures Account(text, canFlush, ops).late == map[]
    ensures Entries(text, canFlush, ops).wrote <==> WritesHead(ops)
  {
    hide Lower;
    UnwrittenEntries(text, canFlush, ops);
    if ops != [] {
      var init := ops[..|ops| - 1];
      OnTimeLast(ops);
      OnTimeHasNoLate(text, canFlush, init);
      UnwrittenEntries(text, canFlush, init);
      WritesHeadLast(ops);
    }
  }

  lemma {:induction false} WritesHeadLast(ops: seq<HandlerOp>)
    requires ops != []
    ensures var op := ops[|ops| - 1];
      WritesHead(ops) <==> WritesHead(ops[..|ops| - 1]) || op.WriteStatus? || op.WriteBytes?
  {
    var init := ops[..|ops| - 1];
    if i :| 0 <= i < |init| && (init[i].WriteStatus? || init[i].WriteBytes?) {
      assert ops[i] == init[i];
    }
    if i :| 0 <= i < |ops| && (ops[i].WriteStatus? || ops[i].WriteBytes?) {
      assert i < |init| ==> init[i] == ops[i];
    }
  }

  lemma {:induction false} ThreeEntries(text: bool, canFlush: bool, a: HandlerOp, b: HandlerOp, c: HandlerOp)
    ensures var t0 := Ledger(map[], false, false, 0, map[], map[]);
      && Entries(text, canFlush, [a, b]) == Entered(text, canFlush, Entered(text, canFlush, t0, a), b)
      && Entries(text, canFlush, [a, b, c]) == Entered(text, canFlush, Entries(text, canFlush, [a, b]), c)
  {
    hide Entered;
    assert [a, b, c][..2] == [a, b] && [a, b][..1] == [a] && [a][..0] == [];
    assert Entries(text, canFlush, [a]) == Entered(text, canFlush, Ledger(map[], false, false, 0, map[], map[]), a);
  }

  /** So a second WriteHeader loses whatever plain key was set since the first. */
  lemma {:induction false} LateStatusLosesHeader(pick: Pick, text: bool, canFlush: bool, wire: Wire, k: Bytes,
                                                 vv: seq<Bytes>,
                                                 first: int, second: int)
    requires Fair(pick) && wire.head == None && !Foreign(wire, k)
    requires !Contains(k, TRAILER_PREFIX) && Lower(k) != TRAILER
    ensures var ops := [WriteStatus(first), SetHeader(k, vv), WriteStatus(second)];
      var r := After(pick, text, canFlush, wire, ops);
      !Placed(pick, r, k) && !Delivered(pick, r, k)
  {
    hide After, Lower, Stripped, Contains, Fair, Delivered, Placed, IsToken, EndsValueless;
    var ops := [WriteStatus(first), SetHeader(k, vv), WriteStatus(second)];
    ThreeEntries(text, canFlush, ops[0], ops[1], ops[2]);
    var t := Account(text, canFlush, ops);
    assert t.headers == map[k := vv] && t.sent == map[] && t.late == map[k := vv] by {
      var none: Header := map[];
      assert none + map[k := vv] == map[k := vv] && none + none == none;
    }
    NoNames();
    NameOfEntry(t.late, k);
    assert forall l :: l in t.headers ==> l == k;
    PlainHeaderDeliveredIff(pick, text, canFlush, wire, ops, k);
  }

  // ---------- keys that are delivered twice ----------

  /** Exactly which names the client finds in the head and reads in the trailers as well. */
  lemma {:induction false} DeliveredTwiceIff(pick: Pick, text: bool, canFlush: bool, wire: Wire, ops: seq<HandlerOp>,
                                             x: Bytes)
    requires Fair(pick) && wire.head == None
    ensures var (r, t) := (After(pick, text, canFlush, wire, ops), Account(text, canFlush, ops));
      Matches(SentHead(pick, r), x) && Lower(x) in ReadTrailers(pick, r) <==>
        && t.wrote && (Foreign(wire, x) || Lower(x) in Names(t.sent))
        && (exists l :: Contains(l, TRAILER_PREFIX) && TrailedAs(wire, t, l, x))
        && IsToken(x) && !EndsValueless(TrailerOrder(pick, r), wire, t, x)
  {
    hide After, Account, SentHead, ReadTrailers, Names, Lower, Fair, Matches, EndsValueless, IsToken;
    SentHeadIff(pick, text, canFlush, wire, ops, x);
    ReadTrailersIff(pick, text, canFlush, wire, ops, x);
    var t := Account(text, canFlush, ops);
    forall l | TrailedAs(wire, t, l, x) && !Contains(l, TRAILER_PREFIX)
      ensures !Foreign(wire, x) && Lower(x) !in Names(t.sent)
    {
      assert Lower(l) == Lower(x);
      SameMatches(wire.header, l, x);
    }
  }

  /**
    So a "Trailer:" key that was there when the head was prepared, and whose full name nothing matches, is
    delivered twice exactly when its stripped name is a token with values.
   */
  lemma {:induction false} TrailerKeySentTwice(pick: Pick, text: bool, canFlush: bool, wire: Wire, ops: seq<HandlerOp>,
                                               l: Bytes)
    requires Fair(pick) && wire.head == None && Contains(l, TRAILER_PREFIX)
    requires var t := Account(text, canFlush, ops);
      t.wrote && l in t.sent && Announces(t.headers, l) && !Matched(wire, t, l)
    ensures var (r, t) := (After(pick, text, canFlush, wire, ops), Account(text, canFlush, ops));
      var x := Stripped(l);
      && Matches(SentHead(pick, r), x) && Lower(x) in SentTrailers(pick, r)
      && (Lower(x) in ReadTrailers(pick, r) <==> IsToken(x) && !EndsValueless(TrailerOrder(pick, r), wire, t, x))
  {
    hide After, Account, SentHead, SentTrailers, ReadTrailers, Names, Lower, Fair, Matches, EndsValueless, IsToken;
    var t := Account(text, canFlush, ops);
    NameOfEntry(t.sent, l);
    assert TrailedAs(wire, t, l, Stripped(l));
    SentHeadIff(pick, text, canFlush, wire, ops, Stripped(l));
    SentTrailersIff(pick, text, canFlush, wire, ops, Stripped(l));
    DeliveredTwiceIff(pick, text, canFlush, wire, ops, Stripped(l));
  }

  lemma {:induction false} StrippedIsShorter(l: Bytes)
    requires Contains(l, TRAILER_PREFIX)
    ensures Lower(Stripped(l)) != Lower(l)
  {
    hide IndexFrom;
    assert |Stripped(l)| < |l|;
  }

  /** As in the run that sets one such header and then writes the head. */
  lemma {:induction false} DeclaredTrailerSentTwice(pick: Pick, text: bool, canFlush: bool, wire: Wire, l: Bytes,
                                                    vv: seq<Bytes>, status: int)
    requires Fair(pick) && wire.head == None
    requires Contains(l, TRAILER_PREFIX) && Lower(l) != TRAILER && !Foreign(wire, l)
    ensures var r := After(pick, text, canFlush, wire, [SetHeader(l, vv), WriteStatus(status)]);
      && Matches(SentHead(pick, r), Stripped(l)) && Lower(Stripped(l)) in SentTrailers(pick, r)
      && (Lower(Stripped(l)) in ReadTrailers(pick, r) <==> IsToken(Stripped(l)) && vv != [])
  {
    hide After, Lower, Stripped, Contains, Fair, SentHead, SentTrailers, ReadTrailers, IsToken;
    var ops := [SetHeader(l, vv), WriteStatus(status)];
    ThreeEntries(text, canFlush, ops[0], ops[1], FlushOp);
    var t := Account(text, canFlush, ops);
    assert t.headers == map[l := vv] && t.sent == map[l := vv] && t.late == map[] by {
      var none: Header := map[];
      assert none + map[l := vv] == map[l := vv];
    }
    StrippedIsShorter(l);
    TrailerKeySentTwice(pick, text, canFlush, wire, ops, l);
    var w := SentTrailerValues(pick, text, canFlush, wire, ops, Stripped(l));
  }

  // ---------- which values are delivered ----------

  /** Some key that matches `k` holds these values. */
  ghost predicate Holds(h: Header, k: Bytes, vv: seq<Bytes>) {
    exists x :: x in h && Lower(x) == Lower(k) && h[x] == vv
  }

  /** No other entry has the same name. */
  ghost predicate Alone(h: Header, k: Bytes) {
    forall l :: Announces(h, l) && Lower(Stripped(l)) == Lower(k) ==> l == k
  }

  /** The head holds the web content type in place of the plain one, and other values as they are. */
  function HeadValues(text: bool, k: Bytes, vv: seq<Bytes>): seq<Bytes> {
    if Lower(k) == Lower(CONTENT_TYPE) then
      seq(|vv|, i requires 0 <= i < |vv| => ReplaceFirst(vv[i], GRPC, WebType(text)))
    else vv
  }

  /** A key like `k` has its own values in `h`, or those of entry `k` of the map the head was prepared from. */
  ghost predicate HoldsEntry(wire: Wire, h: Header, text: bool, from: Header, k: Bytes, x: Bytes) {
    && (x in h <==> x in wire.header || (k in from && x == Canonical(k)))
    && (x in h ==> h[x] == if k in from && x == Canonical(k) then HeadValues(text, k, from[k]) else wire.header[x])
  }

  /** A key whose name only it has, and that is nothing but its name. */
  ghost predicate OwnName(h: Header, k: Bytes) {
    Alone(h, k) && Lower(k) != TRAILER && !Contains(k, TRAILER_PREFIX) && Lower(k) != Lower(EXPOSE)
  }

  lemma {:induction false} PreparedFromEntry(pick: Pick, s: Response, k: Bytes, x: Bytes)
    requires Fair(pick) && OwnName(s.headers, k) && Lower(x) == Lower(k)
    ensures HoldsEntry(s.wire, Prepared(pick, s).wire.header, s.text, s.headers, k, x)
  {
    hide IndexFrom, Copied, Rewritten, Joined, Lower, Fair, Contains;
    var order := pick(s.ranges, s.headers.Keys);
    FairAt(pick, s.ranges, s.headers.Keys);
    var (skip, rs) := (SkipSet([TRAILER]), PrepareReplacers(WebType(s.text)));
    var w := LastVisitWins(s.wire.header, s.headers, skip, rs, order, x);
    NameOfOwn(s.headers, k);
    forall l | l in s.headers ensures Feeds(s.headers, skip, rs, l, x) <==> l == k && x == Canonical(k) {
      SkippedIff([], map[], l);
      PreparedKey(WebType(s.text), l, s.headers[l]);
      LowerOfCanonical(Stripped(l));
    }
    if k in s.headers {
      assert k in s.headers.Keys && k in order;
      PreparedKey(WebType(s.text), k, s.headers[k]);
    }
    if w != -1 {
      assert Feeds(s.headers, skip, rs, order[w], x);
    }
    assert x != EXPOSE;
  }

  lemma {:induction false} NameOfOwn(h: Header, k: Bytes)
    requires OwnName(h, k)
    ensures Stripped(k) == k && (k in h ==> Announces(h, k))
  {
  }

  lemma {:induction false} OwnNameOfParts(h: Header, g: Header, k: Bytes)
    requires OwnName(h + g, k)
    ensures OwnName(h, k) && OwnName(g, k)
  {
    hide Lower, Stripped, Contains;
    forall l | Announces(h, l) && Lower(Stripped(l)) == Lower(k) ensures l == k {
      assert Announces(h + g, l);
    }
    forall l | Announces(g, l) && Lower(Stripped(l)) == Lower(k) ensures l == k {
      assert Announces(h + g, l);
    }
  }

  /** The head, or while it is not sent the live map, holds the entry of what it was prepared from. */
  ghost predicate HeadEntry(wire: Wire, r: Response, t: Ledger, k: Bytes, x: Bytes) {
    HoldsEntry(wire, if r.wire.head.Some? then r.wire.head.value.header else r.wire.header, r.text, t.sent, k, x)
  }

  lemma {:induction false} PreparedEntry(pick: Pick, wire: Wire, s: Response, t: Ledger, k: Bytes, x: Bytes)
    requires Fair(pick) && Tracks(wire, s, t) && !t.committed && HeadEntry(wire, s, t, k, x)
    requires OwnName(t.sent + t.headers, k) && Lower(x) == Lower(k)
    ensures HoldsEntry(wire, Prepared(pick, s).wire.header, s.text, t.sent + t.headers, k, x)
  {
    hide Lower, Canonical, HeadValues, Fair, Prepared;
    OwnNameOfParts(t.sent, t.headers, k);
    PreparedFromEntry(pick, s, k, x);
  }

  lemma {:induction false} HandledEntry(pick: Pick, wire: Wire, s: Response, t: Ledger, op: HandlerOp, k: Bytes,
                                        x: Bytes)
    requires Fair(pick) && Tracks(wire, s, t) && HeadEntry(wire, s, t, k, x) && Lower(x) == Lower(k)
    requires OwnName(Entered(s.text, s.canFlush, t, op).sent, k)
    ensures HeadEntry(wire, Handled(pick, s, op), Entered(s.text, s.canFlush, t, op), k, x)
  {
    hide Prepared, Sent, FlushedThrough, Lower, Fair, HoldsEntry, OwnName;
    PreparedKeepsBody(pick, s);
    match op {
      case WriteStatus(status) =>
        if !t.committed {
          PreparedEntry(pick, wire, s, t, k, x);
        }
      case WriteBytes(b) =>
        if !t.wrote {
          PreparedEntry(pick, wire, s, t, k, x);
        }
        var p := if s.wroteHeaders then s else Prepared(pick, s);
        SentEffect(p.(wroteHeaders := true, wroteBody := true), b);
      case FlushOp => FlushEffect(s);
      case _ =>
    }
  }

  lemma {:induction false} RunEntry(pick: Pick, text: bool, canFlush: bool, wire: Wire, ops: seq<HandlerOp>, k: Bytes,
                                    x: Bytes)
    requires Fair(pick) && wire.head == None && Lower(x) == Lower(k)
    requires OwnName(Entries(text, canFlush, ops).sent, k)
    ensures HeadEntry(wire, After(pick, text, canFlush, wire, ops), Entries(text, canFlush, ops), k, x)
  {
    hide Handled, Fair, Lower, OwnName, Canonical, HeadValues;
    if ops != [] {
      var init := ops[..|ops| - 1];
      var t := Entries(text, canFlush, init);
      SentOnlyGrows(text, canFlush, t, ops[|ops| - 1], k);
      hide Entered;
      RunEntry(pick, text, canFlush, wire, init, k, x);
      RunTracks(pick, text, canFlush, wire, init);
      TextStays(pick, NewResponse(text, canFlush, wire), init);
      HandledEntry(pick, wire, After(pick, text, canFlush, wire, init), t, ops[|ops| - 1], k, x);
    }
  }

  lemma {:induction false} SentOnlyGrows(text: bool, canFlush: bool, t: Ledger, op: HandlerOp, k: Bytes)
    requires OwnName(Entered(text, canFlush, t, op).sent, k)
    ensures OwnName(t.sent, k)
  {
    hide OwnName;
    if OwnName(t.sent + t.headers, k) {
      OwnNameOfParts(t.sent, t.headers, k);
    }
  }

  /** The head that was sent, entry by entry. */
  lemma {:induction false} SentHeadEntry(pick: Pick, text: bool, canFlush: bool, wire: Wire, ops: seq<HandlerOp>,
                                         k: Bytes, x: Bytes)
    requires Fair(pick) && wire.head == None && Lower(x) == Lower(k)
    requires OwnName(Account(text, canFlush, ops).sent, k)
    ensures HoldsEntry(wire, SentHead(pick, After(pick, text, canFlush, wire, ops)), text,
                       Account(text, canFlush, ops).sent, k, x)
  {
    hide Ran, Prepared, Finished, Lower, Fair, Entries, SentHead, OwnName, HoldsEntry;
    var (r, t) := (After(pick, text, canFlush, wire, ops), Entries(text, canFlush, ops));
    RunTracks(pick, text, canFlush, wire, ops);
    UnwrittenEntries(text, canFlush, ops);
    if !t.wrote {
      OwnNameOfParts(t.sent, t.headers, k);
    }
    RunEntry(pick, text, canFlush, wire, ops, k, x);
    TextStays(pick, NewResponse(text, canFlush, wire), ops);
    HeadAtTheEnd(pick, wire, r, t);
    if !t.wrote {
      PreparedEntry(pick, wire, r, t, k, x);
    }
  }

  /** A client that looks up the header finds these values in the head, or reads them in the trailers. */
  ghost predicate Arrive(pick: Pick, r: Response, k: Bytes, vv: seq<Bytes>) {
    || Holds(SentHead(pick, r), k, vv)
    || (Lower(k) in ReadTrailers(pick, r) && ReadTrailers(pick, r)[Lower(k)] == vv)
  }

  /** What the wrapped map held under keys like `k` and the head did not overwrite. */
  function Leftover(wire: Wire, from: Header, k: Bytes): Header {
    if k in from then wire.header - {Canonical(k)} else wire.header
  }

  lemma {:induction false} HeadHoldsIff(wire: Wire, h: Header, text: bool, from: Header, k: Bytes, vv: seq<Bytes>)
    requires forall x :: Lower(x) == Lower(k) ==> HoldsEntry(wire, h, text, from, k, x)
    ensures Holds(h, k, vv)
       <==> Holds(Leftover(wire, from, k), k, vv) || (k in from && HeadValues(text, k, from[k]) == vv)
  {
    hide Lower, Canonical, HeadValues;
    LowerOfCanonical(k);
    if x :| x in h && Lower(x) == Lower(k) && h[x] == vv {
      assert HoldsEntry(wire, h, text, from, k, x);
    }
    if x :| x in Leftover(wire, from, k) && Lower(x) == Lower(k) && Leftover(wire, from, k)[x] == vv {
      assert HoldsEntry(wire, h, text, from, k, x);
    }
    if k in from {
      assert HoldsEntry(wire, h, text, from, k, Canonical(k));
    }
  }

  /** The trailers hold the final values of a name that only one entry has, if they hold it. */
  lemma {:induction false} TrailerOfOwn(pick: Pick, r: Response, k: Bytes)
    requires Fair(pick) && OwnName(r.headers, k) && Lower(k) in SentTrailers(pick, r)
    ensures k in r.headers && SentTrailers(pick, r)[Lower(k)] == r.headers[k]
  {
    hide Trailers, Lower, Stripped, Fair;
    TrailerValues(pick, r, Lower(k));
    var l :| Announces(r.headers, l) && Lower(Stripped(l)) == Lower(k) && Trailers(pick, r)[Lower(k)] == r.headers[l];
  }

  /**
    Exactly when the final values of a header arrive, for every run in either mode: if the head was
    prepared from the key before it was sent, when those were the same values; otherwise when nothing
    matches the key by the end, so that it goes into the trailers, and the key and its values can be
    printed as they are. Values that were on the wrapped map under such a key anyway, and are the same,
    arrive too.
   */
  lemma {:induction false} ValuesArriveIff(pick: Pick, text: bool, canFlush: bool, wire: Wire, ops: seq<HandlerOp>,
                                           k: Bytes)
    requires Fair(pick) && wire.head == None && k in Account(text, canFlush, ops).headers
    requires OwnName(Account(text, canFlush, ops).headers, k) && OwnName(Account(text, canFlush, ops).sent, k)
    ensures var t := Account(text, canFlush, ops);
      Arrive(pick, After(pick, text, canFlush, wire, ops), k, t.headers[k]) <==>
        || Holds(Leftover(wire, t.sent, k), k, t.headers[k])
        || if k in t.sent then HeadValues(text, k, t.sent[k]) == t.headers[k]
           else !Matches(wire.header, k) && Lower(k) !in Names(t.late) && TrailerBlock.Printable(k, t.headers[k])
  {
    hide Ran, SentHead, SentTrailers, ReadTrailers, Names, Lower, Fair, Matches, Entries, OwnName, HoldsEntry, Holds,
         Leftover, HeadValues, TrailerBlock.Printable, TrailerBlock.CleanedAll, IsToken;
    var (r, t) := (After(pick, text, canFlush, wire, ops), Account(text, canFlush, ops));
    RunTracks(pick, text, canFlush, wire, ops);
    forall x | Lower(x) == Lower(k) ensures HoldsEntry(wire, SentHead(pick, r), text, t.sent, k, x) {
      SentHeadEntry(pick, text, canFlush, wire, ops, k, x);
    }
    HeadHoldsIff(wire, SentHead(pick, r), text, t.sent, k, t.headers[k]);
    OwnTrailedIff(pick, text, canFlush, wire, ops, k);
    ReadIsSanitized(pick, r);
    LowerKeepsToken(k);
    TrailerBlock.PrintableIff(k, t.headers[k]);
    if Lower(k) in SentTrailers(pick, r) {
      TrailerOfOwn(pick, r, k);
    }
  }

  /** A final entry with a name of its own is a trailer exactly when nothing matches it. */
  lemma {:induction false} OwnTrailedIff(pick: Pick, text: bool, canFlush: bool, wire: Wire, ops: seq<HandlerOp>,
                                         k: Bytes)
    requires Fair(pick) && wire.head == None && k in Account(text, canFlush, ops).headers
    requires OwnName(Account(text, canFlush, ops).headers, k) && OwnName(Account(text, canFlush, ops).sent, k)
    ensures var t := Account(text, canFlush, ops);
      Lower(k) in SentTrailers(pick, After(pick, text, canFlush, wire, ops))
      <==> k !in t.sent && !Matches(wire.header, k) && Lower(k) !in Names(t.late)
  {
    hide After, Account, SentTrailers, Lower, Fair, Matches, Contains, Names;
    var t := Account(text, canFlush, ops);
    SentTrailersIff(pick, text, canFlush, wire, ops, k);
    UnwrittenAccount(text, canFlush, ops);
    NameOfOwn(t.headers, k);
    NameOfOwn(t.sent, k);
    NameOfOwnIff(t.sent, k);
    assert !Matched(wire, t, k) ==> TrailedAs(wire, t, k, k);
    forall l | TrailedAs(wire, t, l, k) ensures l == k {
      assert Announces(t.headers, l);
    }
  }

  lemma {:induction false} NameOfOwnIff(h: Header, k: Bytes)
    requires OwnName(h, k)
    ensures Lower(k) in Names(h) <==> k in h
  {
    hide Lower, Contains;
    NameOfOwn(h, k);
    if Lower(k) in Names(h) {
      var l :| l in h && Lower(l) != TRAILER && Lower(Stripped(l)) == Lower(k);
      assert Announces(h, l);
    }
  }

  /**
    When WriteHeader comes at most once and before any Write, and the wrapped map has no such key: the
    final values arrive exactly when the key had these values when the head was prepared, or was not there
    and can be printed in the trailers as it is.
   */
  lemma {:induction false} OnTimeValuesArriveIff(pick: Pick, text: bool, canFlush: bool, wire: Wire,
                                                 ops: seq<HandlerOp>, k: Bytes)
    requires Fair(pick) && wire.head == None && OnTime(ops) && !Matches(wire.header, k)
    requires k in Account(text, canFlush, ops).headers
    requires OwnName(Account(text, canFlush, ops).headers, k) && OwnName(Account(text, canFlush, ops).sent, k)
    ensures var t := Account(text, canFlush, ops);
      Arrive(pick, After(pick, text, canFlush, wire, ops), k, t.headers[k])
      <==> if k in t.sent then HeadValues(text, k, t.sent[k]) == t.headers[k]
           else TrailerBlock.Printable(k, t.headers[k])
  {
    hide After, Account, Arrive, HeadValues, Lower, OwnName, Fair;
    var t := Account(text, canFlush, ops);
    OnTimeHasNoLate(text, canFlush, ops);
    NoNames();
    ValuesArriveIff(pick, text, canFlush, wire, ops, k);
  }

  /** A key with a name of its own: delivered in the head, or if it is a token with values and was not prepared late. */
  lemma {:induction false} OwnHeaderDeliveredIff(pick: Pick, text: bool, canFlush: bool, wire: Wire,
                                                 ops: seq<HandlerOp>, k: Bytes)
    requires Fair(pick) && wire.head == None && k in Account(text, canFlush, ops).headers
    requires OwnName(Account(text, canFlush, ops).headers, k)
    ensures var t := Account(text, canFlush, ops);
      Delivered(pick, After(pick, text, canFlush, wire, ops), k) <==>
        || Foreign(wire, k) || Lower(k) in Names(t.sent)
        || (Lower(k) !in Names(t.late) && IsToken(k) && t.headers[k] != [])
  {
    hide After, Account, SentHead, SentTrailers, ReadTrailers, Names, Lower, Fair, Matches, IsToken, Contains;
    var (r, t) := (After(pick, text, canFlush, wire, ops), Account(text, canFlush, ops));
    NameOfOwn(t.headers, k);
    UnplacedIff(pick, text, canFlush, wire, ops, k);
    HeaderLostIff(pick, text, canFlush, wire, ops, k);
    SentHeadIff(pick, text, canFlush, wire, ops, k);
    forall l | TrailedAs(wire, t, l, k) ensures l == k {
      assert Announces(t.headers, l);
    }
    if Lower(k) in SentTrailers(pick, r) {
      var w := SentTrailerValues(pick, text, canFlush, wire, ops, k);
    }
  }

  /** Values set after the head was written, as trailers are, arrive exactly when they can be printed as they are. */
  lemma {:induction false} LateValuesArriveIff(pick: Pick, text: bool, canFlush: bool, wire: Wire, k: Bytes,
                                               vv: seq<Bytes>, status: int)
    requires Fair(pick) && wire.head == None && !Foreign(wire, k)
    requires !Contains(k, TRAILER_PREFIX) && Lower(k) != TRAILER
    ensures var ops := [WriteStatus(status), SetHeader(k, vv)];
      OnTime(ops) && (Arrive(pick, After(pick, text, canFlush, wire, ops), k, vv) <==> TrailerBlock.Printable(k, vv))
  {
    hide After, Lower, Stripped, Contains, Fair, Arrive, Matches, TrailerBlock.Printable;
    var ops := [WriteStatus(status), SetHeader(k, vv)];
    ThreeEntries(text, canFlush, ops[0], ops[1], FlushOp);
    var t := Account(text, canFlush, ops);
    assert t.headers == map[k := vv] && t.sent == map[] by {
      var none: Header := map[];
      assert none + none == none;
    }
    OnTimeValuesArriveIff(pick, text, canFlush, wire, ops, k);
  }

  /** So the values of a header that is set again after the head was written arrive nowhere. */
  lemma {:induction false} ChangedValuesAreLost(pick: Pick, text: bool, canFlush: bool, wire: Wire, k: Bytes,
                                                vv: seq<Bytes>, ww: seq<Bytes>, status: int)
    requires Fair(pick) && wire.head == None && !Foreign(wire, k) && vv != ww
    requires !Contains(k, TRAILER_PREFIX) && Lower(k) != TRAILER && Lower(k) != Lower(CONTENT_TYPE)
    ensures var ops := [SetHeader(k, vv), WriteStatus(status), SetHeader(k, ww)];
      OnTime(ops) && !Arrive(pick, After(pick, text, canFlush, wire, ops), k, ww)
  {
    hide After, Lower, Stripped, Contains, Fair, Arrive, Matches;
    var ops := [SetHeader(k, vv), WriteStatus(status), SetHeader(k, ww)];
    ThreeEntries(text, canFlush, ops[0], ops[1], ops[2]);
    var t := Account(text, canFlush, ops);
    assert t.headers == map[k := ww] && t.sent == map[k := vv] by {
      var none: Header := map[];
      assert none + map[k := vv] == map[k := vv];
    }
    OnTimeValuesArriveIff(pick, text, canFlush, wire, ops, k);
  }

  // ---------- the expose header ----------

  /** The names in a comma-separated header value. */
  function Listed(s: Bytes): (names: seq<Bytes>)
    ensures names != [] && forall i :: 0 <= i < |names| ==> !Contains(names[i], COMMA)
    decreases |s|
  {
    var i := Index(s, ", ");
    if i == -1 then [s]
    else
      CommaFree(s, i);
      [s[..i]] + Listed(s[i + 2..])
  }

  lemma {:induction false} CommaFree(s: Bytes, i: int)
    requires i == Index(s, COMMA) && i != -1
    ensures !Contains(s[..i], COMMA)
  {
    hide IndexFrom;
    var j := Index(s[..i], COMMA);
    if j != -1 {
      SameStart(s, s[..i], i, COMMA, j);
    }
  }

  lemma {:induction false} FirstComma(a: Bytes, b: Bytes)
    requires !Contains(a, COMMA)
    ensures Index(a + COMMA + b, COMMA) == |a|
  {
    hide IndexFrom;
    var s := a + COMMA + b;
    assert s[|a|..|a| + 2] == COMMA;
    forall j | 0 <= j < |a| ensures !MatchAt(s, COMMA, j) {
      if MatchAt(s, COMMA, j) {
        MatchByte(s, COMMA, j, 0);
        MatchByte(s, COMMA, j, 1);
        SameStart(s, a, |a|, COMMA, j);
      }
    }
    IndexIs(s, COMMA, |a|);
  }

  lemma {:induction false} ListedOfJoined(parts: seq<Bytes>)
    requires parts != [] && forall i :: 0 <= i < |parts| ==> !Contains(parts[i], COMMA)
    ensures Listed(Joined(parts)) == parts
  {
    hide IndexFrom;
    if |parts| > 1 {
      var s := Joined(parts);
      ListedOfJoined(parts[1..]);
      FirstComma(parts[0], Joined(parts[1..]));
      assert s[..|parts[0]|] == parts[0] && s[|parts[0]| + 2..] == Joined(parts[1..]);
    }
  }

  lemma {:induction false} AlwaysExposedIsCommaFree()
    ensures forall i :: 0 <= i < |ALWAYS_EXPOSED| ==> !Contains(ALWAYS_EXPOSED[i], COMMA)
  {
    forall i | 0 <= i < |ALWAYS_EXPOSED| ensures !Contains(ALWAYS_EXPOSED[i], COMMA) {
      var name := ALWAYS_EXPOSED[i];
      if MatchAt(name, COMMA, Index(name, COMMA)) {
        MatchByte(name, COMMA, Index(name, COMMA), 0);
      }
    }
  }

  lemma {:induction false} ListedIff(order: seq<Bytes>, keys: set<Bytes>)
    requires Enumerates(order, keys)
    ensures Listed(Joined(order + ALWAYS_EXPOSED)) == order + ALWAYS_EXPOSED
       <==> forall k :: k in keys ==> !Contains(k, ", ")
  {
    hide Joined, Contains;
    AlwaysExposedIsCommaFree();
    var parts := order + ALWAYS_EXPOSED;
    if forall k :: k in keys ==> !Contains(k, ", ") {
      ListedOfJoined(parts);
    }
    if Listed(Joined(parts)) == parts {
      forall k | k in keys ensures !Contains(k, ", ") {
        var i :| 0 <= i < |order| && order[i] == k;
        assert parts[i] == k;
      }
    }
  }

  /**
    The expose header reads as the keys of the head, each once, followed by the two status trailers,
    exactly when no key of the head has ", " in it. It lists itself only if it was there before.
   */
  lemma {:induction false} ExposeListsHeadIff(pick: Pick, r: Response)
    requires Fair(pick)
    ensures var h := Prepared(pick, r).wire.header;
      var (order, keys) := (pick(r.ranges + 1, CopiedHeaders(pick, r).Keys), CopiedHeaders(pick, r).Keys);
      && keys + {EXPOSE} == h.Keys && Enumerates(order, keys)
      && |h[EXPOSE]| == 1
      && (Listed(h[EXPOSE][0]) == order + ["grpc-status", "grpc-message"]
          <==> forall k :: k in keys ==> !Contains(k, ", "))
  {
    hide CopiedHeaders, Joined, Fair, Contains, Listed;
    var keys := CopiedHeaders(pick, r).Keys;
    var order := pick(r.ranges + 1, keys);
    FairAt(pick, r.ranges + 1, keys);
    ListedIff(order, keys);
    assert ALWAYS_EXPOSED == ["grpc-status", "grpc-message"];
    assert Prepared(pick, r).wire.header == CopiedHeaders(pick, r)[EXPOSE := [Joined(order + ALWAYS_EXPOSED)]];
  }

  // ---------- the content type, from the request to the client ----------

  /**
    In the mode that the request chose: a handler that answers with the content type it was given, in the
    header map as it got it, gives the client a head with the type the client asked with.
   */
  lemma {:induction false} EchoedTypeReachesClient(pick: Pick, canFlush: bool, wire: Wire, ops: seq<HandlerOp>,
                                                   request: Header, text: bool, suffix: Bytes)
    requires Fair(pick) && wire.head == None
    requires "Content-Type" in request && request["Content-Type"] != []
    requires WebTypeOf(request["Content-Type"][0], text, suffix)
    requires var t := Account(text, canFlush, ops);
      && OwnName(t.sent, "Content-Type")
      && "Content-Type" in t.sent && "Content-Type" in InterceptedHeader(request)
      && t.sent["Content-Type"] == InterceptedHeader(request)["Content-Type"]
    ensures var mode := IsTextFormat(FirstValue(request, CONTENT_TYPE));
      var head := SentHead(pick, After(pick, mode, canFlush, wire, ops));
      "Content-Type" in head && head["Content-Type"] == [request["Content-Type"][0]]
  {
    hide After, Account, SentHead, Lower, Fair, OwnName, IndexFrom, InterceptedHeader, IsTextFormat, FirstValue,
         Canonical, ReplaceFirst;
    var c := request["Content-Type"][0];
    var t := Account(text, canFlush, ops);
    WebRequestBecomesPlain(request, text, suffix);
    TextSaysSo(c, text, suffix);
    SentHeadEntry(pick, text, canFlush, wire, ops, CONTENT_TYPE, CONTENT_TYPE);
    ContentTypeIsPlainKey();
    WebTypesComeBack(c);
    assert c[|WebType(text)|..] == suffix;
  }

  /** As the simplest such handler does: it copies the content type and writes the head. */
  lemma {:induction false} EchoingHandler(pick: Pick, canFlush: bool, wire: Wire, request: Header, text: bool,
                                          suffix: Bytes, status: int)
    requires Fair(pick) && wire.head == None
    requires "Content-Type" in request && request["Content-Type"] != []
    requires WebTypeOf(request["Content-Type"][0], text, suffix)
    ensures var mode := IsTextFormat(FirstValue(request, CONTENT_TYPE));
      var ops := [SetHeader("Content-Type", ["application/grpc" + suffix]), WriteStatus(status)];
      var head := SentHead(pick, After(pick, mode, canFlush, wire, ops));
      "Content-Type" in head && head["Content-Type"] == [request["Content-Type"][0]]
  {
    hide After, Lower, Stripped, Contains, Fair, SentHead, IsTextFormat, FirstValue, InterceptedHeader, WebTypeOf;
    var plain: seq<Bytes> := ["application/grpc" + suffix];
    var ops := [SetHeader("Content-Type", plain), WriteStatus(status)];
    WebRequestBecomesPlain(request, text, suffix);
    ThreeEntries(text, canFlush, ops[0], ops[1], FlushOp);
    var none: Header := map[];
    assert none + map[CONTENT_TYPE := plain] == map[CONTENT_TYPE := plain];
    assert Account(text, canFlush, ops).sent == map[CONTENT_TYPE := plain];
    ContentTypeIsOwnName();
    EchoedTypeReachesClient(pick, canFlush, wire, ops, request, text, suffix);
  }

  lemma {:induction false} ContentTypeIsOwnName()
    ensures forall vv :: OwnName(map[CONTENT_TYPE := vv], CONTENT_TYPE)
  {
    hide IndexFrom;
    TokenIsPlainKey(CONTENT_TYPE);
    assert |Lower(CONTENT_TYPE)| != |TRAILER| && |Lower(CONTENT_TYPE)| != |Lower(EXPOSE)|;
  }

  // ---------- the status, and how often the wire is flushed ----------

  /** The status that was sent, once the head was: that of a WriteHeader, or 200 if something else sent it. */
  function StatusSent(text: bool, canFlush: bool, ops: seq<HandlerOp>): Option<int> {
    if ops == [] then None
    else
      var (before, op) := (StatusSent(text, canFlush, ops[..|ops| - 1]), ops[|ops| - 1]);
      if before.Some? then before
      else if op.WriteStatus? then Some(op.status)
      else if Entries(text, canFlush, ops).committed then Some(200)
      else None
  }

  lemma {:induction false} RunStatus(pick: Pick, text: bool, canFlush: bool, wire: Wire, ops: seq<HandlerOp>)
    requires wire.head == None
    ensures var head := After(pick, text, canFlush, wire, ops).wire.head;
      StatusSent(text, canFlush, ops) == if head.Some? then Some(head.value.status) else None
  {
    hide Prepared, Sent, FlushedThrough, Entered;
    if ops != [] {
      var (init, op) := (ops[..|ops| - 1], ops[|ops| - 1]);
      var s := After(pick, text, canFlush, wire, init);
      RunStatus(pick, text, canFlush, wire, init);
      RunTracks(pick, text, canFlush, wire, init);
      RunTracks(pick, text, canFlush, wire, ops);
      PreparedKeepsBody(pick, s);
      match op {
        case WriteBytes(b) =>
          var p := if s.wroteHeaders then s else Prepared(pick, s);
          SentEffect(p.(wroteHeaders := true, wroteBody := true), b);
        case FlushOp => FlushEffect(s);
        case _ =>
      }
    }
  }

  predicate FirstStatus(ops: seq<HandlerOp>, i: int) {
    0 <= i < |ops| && ops[i].WriteStatus? && forall j :: 0 <= j < i ==> !ops[j].WriteStatus?
  }

  /** Without a WriteHeader it is 200; the first one decides, if nothing sent the head before. */
  lemma {:induction false} StatusSentIs(text: bool, canFlush: bool, ops: seq<HandlerOp>, i: int)
    ensures FirstStatus(ops, i) ==>
      StatusSent(text, canFlush, ops)
      == Some(if Entries(text, canFlush, ops[..i]).committed then 200 else ops[i].status)
    ensures (forall j :: 0 <= j < |ops| ==> !ops[j].WriteStatus?) ==>
      StatusSent(text, canFlush, ops) == if Entries(text, canFlush, ops).committed then Some(200) else None
  {
    if ops != [] {
      var (init, op) := (ops[..|ops| - 1], ops[|ops| - 1]);
      StatusSentIs(text, canFlush, init, i);
      assert forall j :: 0 <= j < |init| ==> init[j] == ops[j];
      CommittedStays(text, canFlush, ops);
      if FirstStatus(ops, i) {
        if i < |init| {
          assert FirstStatus(init, i) && init[..i] == ops[..i];
        } else {
          assert ops[..i] == init;
        }
      }
    }
  }

  lemma {:induction false} CommittedStays(text: bool, canFlush: bool, ops: seq<HandlerOp>)
    requires ops != []
    ensures Entries(text, canFlush, ops[..|ops| - 1]).committed ==> Entries(text, canFlush, ops).committed
  {
  }

  /**
    The status that the client gets, for every run in either mode: that of the first WriteHeader, unless a
    Write or a Flush sent the head before it; 200 in that case, and when there is no WriteHeader.
   */
  lemma {:induction false} StatusIs(pick: Pick, text: bool, canFlush: bool, wire: Wire, ops: seq<HandlerOp>)
    requires wire.head == None
    ensures var head := Finished(pick, After(pick, text, canFlush, wire, ops)).wire.head;
      && head.Some?
      && (forall i :: FirstStatus(ops, i) ==>
            head.value.status == (if Entries(text, canFlush, ops[..i]).committed then 200 else ops[i].status))
      && ((forall j :: 0 <= j < |ops| ==> !ops[j].WriteStatus?) ==> head.value.status == 200)
  {
    hide Ran, Finished, Entries, StatusSent;
    var r := After(pick, text, canFlush, wire, ops);
    RunTracks(pick, text, canFlush, wire, ops);
    RunStatus(pick, text, canFlush, wire, ops);
    FinishedStatus(pick, wire, r, Entries(text, canFlush, ops));
    StatusSentIs(text, canFlush, ops, 0);
    forall i | FirstStatus(ops, i)
      ensures StatusSent(text, canFlush, ops)
           == Some(if Entries(text, canFlush, ops[..i]).committed then 200 else ops[i].status)
    {
      StatusSentIs(text, canFlush, ops, i);
    }
  }

  /** Finishing sends a head that was not sent with status 200, and flushes once. */
  lemma {:induction false} FinishedStatus(pick: Pick, wire: Wire, r: Response, t: Ledger)
    requires Tracks(wire, r, t)
    ensures var f := Finished(pick, r);
      && f.wire.head.Some?
      && f.wire.head.value.status == (if r.wire.head.Some? then r.wire.head.value.status else 200)
      && f.wire.flushes == r.wire.flushes + if r.canFlush then 1 else 0
  {
    hide Prepared, Sent, FlushedThrough, Trailers, TrailerText;
    PreparedKeepsBody(pick, r);
    if t.wrote {
      var block := TrailerText(pick, r);
      var prefix := [TRAILER_FLAG] + Framing.Be32(|block|);
      var r1 := r.(ranges := r.ranges + 3);
      SentEffect(r1, prefix);
      SentEffect(Sent(r1, prefix), block);
      SentFlushes(r1, prefix);
      SentFlushes(Sent(r1, prefix), block);
      FlushEffect(Sent(Sent(r1, prefix), block));
      FlushFlushes(Sent(Sent(r1, prefix), block));
    } else {
      FlushEffect(HeaderWritten(pick, r, 200));
      FlushFlushes(HeaderWritten(pick, r, 200));
    }
  }

  lemma {:induction false} SentFlushes(r: Response, b: Bytes)
    ensures Sent(r, b).wire.flushes == r.wire.flushes
  {
    hide Base64.Encode, Base64.Whole;
  }

  lemma {:induction false} FlushFlushes(r: Response)
    ensures FlushedThrough(r).wire.flushes == r.wire.flushes + if r.canFlush then 1 else 0
  {
    hide Base64.Encode;
  }

  /** The Flush calls that come after something was written. */
  function EffectiveFlushes(text: bool, canFlush: bool, ops: seq<HandlerOp>): nat {
    if ops == [] then 0
    else
      var init := ops[..|ops| - 1];
      EffectiveFlushes(text, canFlush, init)
      + (if ops[|ops| - 1].FlushOp? && Entries(text, canFlush, init).wrote then 1 else 0)
  }

  lemma {:induction false} RunFlushes(pick: Pick, text: bool, canFlush: bool, wire: Wire, ops: seq<HandlerOp>)
    requires wire.head == None
    ensures After(pick, text, canFlush, wire, ops).wire.flushes
         == wire.flushes + if canFlush then EffectiveFlushes(text, canFlush, ops) else 0
  {
    hide Prepared, Sent, FlushedThrough, Entered;
    if ops != [] {
      var init := ops[..|ops| - 1];
      var s := After(pick, text, canFlush, wire, init);
      RunFlushes(pick, text, canFlush, wire, init);
      RunTracks(pick, text, canFlush, wire, init);
      TextStays(pick, NewResponse(text, canFlush, wire), init);
      PreparedKeepsBody(pick, s);
      match ops[|ops| - 1] {
        case WriteBytes(b) =>
          SentFlushes((if s.wroteHeaders then s else Prepared(pick, s)).(wroteHeaders := true, wroteBody := true), b);
        case FlushOp => FlushFlushes(s);
        case _ =>
      }
    }
  }

  /** A writer that can be flushed is flushed once for each of them, and once at the end. */
  lemma {:induction false} FlushesAre(pick: Pick, text: bool, canFlush: bool, wire: Wire, ops: seq<HandlerOp>)
    requires wire.head == None
    ensures Finished(pick, After(pick, text, canFlush, wire, ops)).wire.flushes
         == wire.flushes + if canFlush then EffectiveFlushes(text, canFlush, ops) + 1 else 0
  {
    hide Ran, Finished, Entries, EffectiveFlushes;
    RunTracks(pick, text, canFlush, wire, ops);
    RunFlushes(pick, text, canFlush, wire, ops);
    TextStays(pick, NewResponse(text, canFlush, wire), ops);
    FinishedStatus(pick, wire, After(pick, text, canFlush, wire, ops), Entries(text, canFlush, ops));
  }
}
