/**
  BufferGrpcStream (server/util.go): collects a client stream under a size limit and recognises its
  MIME type from the first 512 bytes. MIME detection is a function handed in.
 */
module StreamBuffer {
  import opened Text
  import opened Wrappers

  const HEAD_SIZE: nat := 512

  /** What Recv returns; the end of the list is io.EOF. */
  datatype Event = Chunk(data: Bytes) | RecvError

  datatype Failure = ClientCanceled | RecvFailed | FileTooLarge | UnacceptableMime

  datatype Upload = Received(data: Bytes, mime: string) | Failed(why: Failure)

  datatype Progress = Reading(buf: Bytes, head: Bytes) | Stopped(why: Failure)

  /** `canceled(i)` is whether the context is done when the loop looks at it for the i-th time. */
  datatype Setting = Setting(canceled: nat -> bool, acceptable: set<string>, maxSize: int, detect: Bytes -> string)

  /** Appends to the head what still fits in it. */
  function Captured(head: Bytes, data: Bytes): Bytes {
    if |head| >= HEAD_SIZE then head
    else if |data| <= HEAD_SIZE - |head| then head + data
    else head + data[..HEAD_SIZE - |head|]
  }

  function Advanced(cfg: Setting, i: nat, p: Progress, e: Event): Progress {
    if p.Stopped? then p
    else if cfg.canceled(i) then Stopped(ClientCanceled)
    else match e
      case RecvError => Stopped(RecvFailed)
      case Chunk(data) =>
        if |p.buf| + |data| > cfg.maxSize then Stopped(FileTooLarge)
        else Reading(p.buf + data, Captured(p.head, data))
  }

  function After(cfg: Setting, events: seq<Event>): Progress {
    if events == [] then Reading([], [])
    else Advanced(cfg, |events| - 1, After(cfg, events[..|events| - 1]), events[|events| - 1])
  }

  function Buffered(cfg: Setting, events: seq<Event>): Upload {
    match After(cfg, events)
    case Stopped(why) => Failed(why)
    case Reading(buf, head) =>
      if cfg.canceled(|events|) then Failed(ClientCanceled)
      else if cfg.detect(head) in cfg.acceptable then Received(buf, cfg.detect(head))
      else Failed(UnacceptableMime)
  }

  lemma {:induction false} StoppedStays(cfg: Setting, events: seq<Event>, n: nat)
    requires n <= |events| && After(cfg, events[..n]).Stopped?
    ensures After(cfg, events) == After(cfg, events[..n])
    decreases |events| - n
  {
    if n < |events| {
      assert events[..n + 1][..n] == events[..n];
      StoppedStays(cfg, events, n + 1);
    } else {
      assert events[..n] == events;
    }
  }

  lemma {:induction false} OnePass(cfg: Setting, events: seq<Event>, i: nat)
    requires i < |events|
    ensures After(cfg, events[..i + 1]) == Advanced(cfg, i, After(cfg, events[..i]), events[i])
    ensures After(cfg, events[..i + 1]).Stopped? ==>
              Buffered(cfg, events) == Failed(After(cfg, events[..i + 1]).why)
  {
    assert events[..i + 1][..i] == events[..i];
    if After(cfg, events[..i + 1]).Stopped? {
      StoppedStays(cfg, events, i + 1);
    }
  }

  method BufferGrpcStream(cfg: Setting, events: seq<Event>) returns (r: Upload)
    ensures r == Buffered(cfg, events)
  {
    hide After;
    var head := new Byte[HEAD_SIZE];
    var headFilled := 0;
    var buf: Bytes := [];
    var size := 0;
    var i := 0;
    assert After(cfg, events[..0]) == Reading([], []) by { NothingRead(cfg, events); }
    while true
      invariant 0 <= i <= |events| && 0 <= headFilled <= HEAD_SIZE && size == |buf|
      invariant After(cfg, events[..i]) == Reading(buf, head[..headFilled])
      decreases |events| - i
    {
      if i < |events| {
        OnePass(cfg, events, i);
      } else {
        assert events[..i] == events;
      }
      if cfg.canceled(i) {
        return Failed(ClientCanceled);
      }
      if i == |events| {
        break;
      }
      if events[i] == RecvError {
        return Failed(RecvFailed);
      }
      var data := events[i].data;
      size := size + |data|;
      if size > cfg.maxSize {
        return Failed(FileTooLarge);
      }
      ghost var before := head[..headFilled];
      buf := buf + data;
      if headFilled < HEAD_SIZE {
        var n := if |data| <= HEAD_SIZE - headFilled then |data| else HEAD_SIZE - headFilled;
        forall k | 0 <= k < n {
          head[headFilled + k] := data[k];
        }
        headFilled := headFilled + n;
        assert head[..headFilled] == before + data[..n];
        assert data[..|data|] == data;
      }
      assert head[..headFilled] == Captured(before, data);
      i := i + 1;
    }
    var mime := cfg.detect(head[..headFilled]);
    if mime !in cfg.acceptable {
      return Failed(UnacceptableMime);
    }
    return Received(buf, mime);
  }

  lemma {:induction false} NothingRead(cfg: Setting, events: seq<Event>)
    ensures After(cfg, events[..0]) == Reading([], [])
  {
    assert events[..0] == [];
  }

  // ---------- what is buffered ----------

  function Flat(events: seq<Event>): Bytes {
    if events == [] then []
    else Flat(events[..|events| - 1]) + if events[|events| - 1].Chunk? then events[|events| - 1].data else []
  }

  function Prefix(b: Bytes): Bytes {
    if |b| <= 512 then b else b[..512]
  }

  lemma {:induction false} CapturedPrefix(buf: Bytes, data: Bytes)
    ensures Captured(Prefix(buf), data) == Prefix(buf + data)
  {
    assert |buf| >= HEAD_SIZE ==> (buf + data)[..HEAD_SIZE] == buf[..HEAD_SIZE];
    assert |buf| < HEAD_SIZE < |buf| + |data| ==> (buf + data)[..HEAD_SIZE] == buf + data[..HEAD_SIZE - |buf|];
  }

  /** While reading, the buffer is everything received, its first 512 bytes are the head, and it fits. */
  lemma {:induction false} ReadingHolds(cfg: Setting, events: seq<Event>)
    requires cfg.maxSize >= 0
    ensures var p := After(cfg, events);
      p.Reading? ==> p.buf == Flat(events) && p.head == Prefix(Flat(events)) && |p.buf| <= cfg.maxSize
  {
    if events != [] {
      var init := events[..|events| - 1];
      ReadingHolds(cfg, init);
      if events[|events| - 1].Chunk? {
        CapturedPrefix(Flat(init), events[|events| - 1].data);
      }
    }
  }

  /** Only the chunks of a stream that is neither cancelled nor broken. */
  predicate Undisturbed(cfg: Setting, events: seq<Event>) {
    && (forall i :: 0 <= i < |events| ==> events[i].Chunk?)
    && (forall i :: 0 <= i <= |events| ==> !cfg.canceled(i))
  }

  /** The outcome as a function of the bytes alone. */
  function UploadOf(cfg: Setting, all: Bytes): Upload {
    if |all| > cfg.maxSize then Failed(FileTooLarge)
    else if cfg.detect(Prefix(all)) in cfg.acceptable then Received(all, cfg.detect(Prefix(all)))
    else Failed(UnacceptableMime)
  }

  lemma {:induction false} UndisturbedProgress(cfg: Setting, events: seq<Event>)
    requires cfg.maxSize >= 0 && Undisturbed(cfg, events)
    ensures After(cfg, events)
         == if |Flat(events)| > cfg.maxSize then Stopped(FileTooLarge) else Reading(Flat(events), Prefix(Flat(events)))
  {
    if events != [] {
      var init := events[..|events| - 1];
      assert Undisturbed(cfg, init);
      UndisturbedProgress(cfg, init);
      CapturedPrefix(Flat(init), events[|events| - 1].data);
    }
  }

  /** Success returns all bytes, the type is that of their first 512, and too many bytes are refused. */
  lemma {:induction false} BufferedIsUpload(cfg: Setting, events: seq<Event>)
    requires cfg.maxSize >= 0 && Undisturbed(cfg, events)
    ensures Buffered(cfg, events) == UploadOf(cfg, Flat(events))
  {
    UndisturbedProgress(cfg, events);
  }

  ghost predicate ChunkingIrrelevant(cfg: Setting) {
    forall es, fs :: Undisturbed(cfg, es) && Undisturbed(cfg, fs) && Flat(es) == Flat(fs)
      ==> Buffered(cfg, es) == Buffered(cfg, fs)
  }

  /** How the bytes are cut into chunks does not matter, exactly when the limit is not negative. */
  lemma {:induction false} ChunkingIrrelevantIff(cfg: Setting)
    requires !cfg.canceled(0) && !cfg.canceled(1)
    ensures ChunkingIrrelevant(cfg) <==> cfg.maxSize >= 0
  {
    if cfg.maxSize >= 0 {
      forall es, fs | Undisturbed(cfg, es) && Undisturbed(cfg, fs) && Flat(es) == Flat(fs)
        ensures Buffered(cfg, es) == Buffered(cfg, fs)
      {
        BufferedIsUpload(cfg, es);
        BufferedIsUpload(cfg, fs);
      }
    } else {
      var one := [Chunk([])];
      assert Undisturbed(cfg, []) && Undisturbed(cfg, one);
      assert one[..0] == [] && Flat(one) == Flat([]);
      assert After(cfg, one) == Stopped(FileTooLarge);
      assert Buffered(cfg, one) != Buffered(cfg, []);
    }
  }

  // ---------- every way the loop can end ----------

  /** What stands in the way of the i-th pass, looked at in this order; the pass after the last chunk meets io.EOF. */
  function Obstacle(cfg: Setting, events: seq<Event>, i: nat): Option<Failure>
    requires i <= |events|
  {
    if cfg.canceled(i) then Some(ClientCanceled)
    else if i == |events| then None
    else if events[i].RecvError? then Some(RecvFailed)
    else if |Flat(events[..i + 1])| > cfg.maxSize then Some(FileTooLarge)
    else None
  }

  predicate FirstObstacle(cfg: Setting, events: seq<Event>, i: int) {
    && 0 <= i <= |events| && Obstacle(cfg, events, i).Some?
    && forall j :: 0 <= j < i ==> Obstacle(cfg, events, j).None?
  }

  lemma {:induction false} ObstacleOfPrefix(cfg: Setting, events: seq<Event>, i: nat)
    requires i < |events|
    ensures var init := events[..|events| - 1];
      i < |init| ==> Obstacle(cfg, init, i) == Obstacle(cfg, events, i)
  {
    hide Flat;
    if i + 1 <= |events| - 1 {
      assert events[..|events| - 1][..i + 1] == events[..i + 1];
    }
  }

  /** The loop is still reading before the first obstacle, and stops at it for its reason. */
  lemma {:induction false} ProgressIs(cfg: Setting, events: seq<Event>)
    ensures (forall i :: 0 <= i < |events| ==> Obstacle(cfg, events, i).None?)
            ==> After(cfg, events) == Reading(Flat(events), Prefix(Flat(events)))
    ensures forall i :: FirstObstacle(cfg, events, i) && i < |events| ==>
              After(cfg, events) == Stopped(Obstacle(cfg, events, i).value)
  {
    if events != [] {
      var (init, n) := (events[..|events| - 1], |events| - 1);
      ProgressIs(cfg, init);
      forall i | 0 <= i < n ensures Obstacle(cfg, init, i) == Obstacle(cfg, events, i) {
        ObstacleOfPrefix(cfg, events, i);
      }
      assert events[..n + 1] == events;
      if forall i :: 0 <= i < n ==> Obstacle(cfg, events, i).None? {
        LastPass(cfg, events);
      } else {
        forall i | FirstObstacle(cfg, events, i) && i < |events| ensures FirstObstacle(cfg, init, i) && i < n {}
      }
    }
  }

  lemma {:induction false} LastPass(cfg: Setting, events: seq<Event>)
    requires events != []
    requires After(cfg, events[..|events| - 1])
          == Reading(Flat(events[..|events| - 1]), Prefix(Flat(events[..|events| - 1])))
    ensures var o := Obstacle(cfg, events, |events| - 1);
      After(cfg, events) == if o.Some? then Stopped(o.value) else Reading(Flat(events), Prefix(Flat(events)))
  {
    var (init, e) := (events[..|events| - 1], events[|events| - 1]);
    assert events[..|events|] == events;
    if e.Chunk? {
      CapturedPrefix(Flat(init), e.data);
    }
  }

  /**
    For every stream and setting: the first obstacle decides; without one the type of the first 512 bytes
    does.
   */
  lemma {:induction false} OutcomeIs(cfg: Setting, events: seq<Event>)
    ensures forall i :: FirstObstacle(cfg, events, i) ==>
              Buffered(cfg, events) == Failed(Obstacle(cfg, events, i).value)
    ensures (forall i :: 0 <= i <= |events| ==> Obstacle(cfg, events, i).None?) ==>
      var mime := cfg.detect(Prefix(Flat(events)));
      Buffered(cfg, events) == if mime in cfg.acceptable then Received(Flat(events), mime) else Failed(UnacceptableMime)
  {
    hide After, Flat;
    ProgressIs(cfg, events);
    assert Obstacle(cfg, events, |events|).None? <==> !cfg.canceled(|events|);
  }

  lemma {:induction false} FlatGrows(events: seq<Event>, i: nat)
    requires i <= |events|
    ensures |Flat(events[..i])| <= |Flat(events)|
    decreases |events| - i
  {
    if i < |events| {
      assert events[..i + 1][..i] == events[..i];
      FlatGrows(events, i + 1);
    } else {
      assert events[..i] == events;
    }
  }

  /** An upload is received exactly when nothing disturbs it, it fits, and its type is acceptable. */
  lemma {:induction false} ReceivedIff(cfg: Setting, events: seq<Event>)
    ensures Buffered(cfg, events).Received? <==>
      && Undisturbed(cfg, events)
      && (events == [] || |Flat(events)| <= cfg.maxSize)
      && cfg.detect(Prefix(Flat(events))) in cfg.acceptable
  {
    hide Buffered, Flat;
    OutcomeIs(cfg, events);
    assert events[..|events|] == events;
    forall i | 0 <= i <= |events| ensures |Flat(events[..i])| <= |Flat(events)| {
      FlatGrows(events, i);
    }
    if forall i :: 0 <= i <= |events| ==> Obstacle(cfg, events, i).None? {
      assert Undisturbed(cfg, events) by {
        forall i | 0 <= i < |events| ensures events[i].Chunk? {
          assert Obstacle(cfg, events, i).None?;
        }
        forall i | 0 <= i <= |events| ensures !cfg.canceled(i) {
          assert Obstacle(cfg, events, i).None?;
        }
      }
      if events != [] {
        assert Obstacle(cfg, events, |events| - 1).None?;
      }
    } else {
      var i :| 0 <= i <= |events| && Obstacle(cfg, events, i).Some?;
      FirstExists(cfg, events, i);
    }
  }

  lemma {:induction false} FirstExists(cfg: Setting, events: seq<Event>, i: nat)
    requires i <= |events| && Obstacle(cfg, events, i).Some?
    ensures exists j :: FirstObstacle(cfg, events, j)
  {
    if j :| 0 <= j < i && Obstacle(cfg, events, j).Some? {
      FirstExists(cfg, events, j);
    } else {
      assert FirstObstacle(cfg, events, i);
    }
  }
}
