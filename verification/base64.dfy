/**
  Base64 as in section 4 of RFC 4648, the streaming encoder behind base64.NewEncoder, and the decoder
  of a stream that consists of separately padded parts, which gRPC-Web permits.
 */
module Base64 {
  import opened Wrappers
  import opened Text

  function Digit(i: int): Byte
    requires 0 <= i < 64
  {
    if i < 26 then (i + 65) as char
    else if i < 52 then (i + 71) as char
    else if i < 62 then (i - 4) as char
    else if i == 62 then '+'
    else '/'
  }

  /** The value of a base64 digit, or -1. */
  function DigitValue(c: Byte): (i: int)
    ensures -1 <= i < 64
  {
    if 'A' <= c <= 'Z' then c as int - 65
    else if 'a' <= c <= 'z' then c as int - 71
    else if '0' <= c <= '9' then c as int + 4
    else if c == '+' then 62
    else if c == '/' then 63
    else -1
  }

  lemma {:induction false} DigitRoundTrip(i: int)
    requires 0 <= i < 64
    ensures DigitValue(Digit(i)) == i && Digit(i) != '='
  {
    if i < 26 {
      assert Digit(i) as int == i + 65;
    } else if i < 52 {
      assert Digit(i) as int == i + 71;
    } else if i < 62 {
      assert Digit(i) as int == i - 4;
    }
  }

  /** One quantum: 1 to 3 bytes become 4 characters. */
  function EncodeQuantum(b: Bytes): (r: Bytes)
    requires 1 <= |b| <= 3
    ensures |r| == 4
  {
    var x := b[0] as int;
    var y := if |b| > 1 then b[1] as int else 0;
    var z := if |b| > 2 then b[2] as int else 0;
    [Digit(x / 4), Digit(x % 4 * 16 + y / 16),
     if |b| > 1 then Digit(y % 16 * 4 + z / 64) else '=',
     if |b| > 2 then Digit(z % 64) else '=']
  }

  function Encode(b: Bytes): Bytes {
    if b == [] then []
    else if |b| <= 3 then EncodeQuantum(b)
    else EncodeQuantum(b[..3]) + Encode(b[3..])
  }

  /** The alphabet of table 1 in section 4 of RFC 4648: three runs of characters, then '+' and '/'. */
  lemma {:induction false} DigitsAreAlphabet()
    ensures Digit(0) == 'A' && Digit(25) == 'Z' && Digit(26) == 'a' && Digit(51) == 'z'
    ensures Digit(52) == '0' && Digit(61) == '9' && Digit(62) == '+' && Digit(63) == '/'
    ensures forall i :: 0 <= i < 63 && i !in {25, 51, 61, 62} ==> Digit(i + 1) as int == Digit(i) as int + 1
  {
  }

  /** The four digits spell the bits of the bytes, followed by zero bits where a pad stands for a digit. */
  lemma {:induction false} QuantumIsBits(b: Bytes)
    requires 1 <= |b| <= 3
    ensures var q := EncodeQuantum(b);
      var (d2, d3) := (if q[2] == '=' then 0 else DigitValue(q[2]), if q[3] == '=' then 0 else DigitValue(q[3]));
      && DigitValue(q[0]) >= 0 && DigitValue(q[1]) >= 0 && d2 >= 0 && d3 >= 0
      && (q[2] == '=' <==> |b| == 1) && (q[3] == '=' <==> |b| <= 2)
      && DigitValue(q[0]) * 0x4_0000 + DigitValue(q[1]) * 0x1000 + d2 * 0x40 + d3
         == b[0] as int * 0x1_0000 + (if |b| > 1 then b[1] as int * 0x100 else 0) + if |b| > 2 then b[2] as int else 0
  {
    hide Digit, DigitValue;
    var x := b[0] as int;
    var y := if |b| > 1 then b[1] as int else 0;
    var z := if |b| > 2 then b[2] as int else 0;
    DigitRoundTrip(x / 4);
    DigitRoundTrip(x % 4 * 16 + y / 16);
    DigitRoundTrip(y % 16 * 4 + z / 64);
    DigitRoundTrip(z % 64);
  }

  function DecodeQuantum(q: Bytes): Option<Bytes>
    requires |q| == 4
  {
    var (a, b, c, d) := (DigitValue(q[0]), DigitValue(q[1]), DigitValue(q[2]), DigitValue(q[3]));
    if a == -1 || b == -1 then None
    else if q[2] == '=' then
      if q[3] == '=' then Some([(a * 4 + b / 16) as char]) else None
    else if c == -1 then None
    else if q[3] == '=' then Some([(a * 4 + b / 16) as char, (b % 16 * 16 + c / 4) as char])
    else if d == -1 then None
    else Some([(a * 4 + b / 16) as char, (b % 16 * 16 + c / 4) as char, (c % 4 * 64 + d) as char])
  }

  /** Decodes quantum by quantum; padding may end any quantum, not only the last. */
  function Decode(s: Bytes): Option<Bytes> {
    if s == [] then Some([])
    else if |s| < 4 then None
    else
      var (head, rest) := (DecodeQuantum(s[..4]), Decode(s[4..]));
      if head.Some? && rest.Some? then Some(head.value + rest.value) else None
  }

  lemma {:induction false} QuantumRoundTrip(b: Bytes)
    requires 1 <= |b| <= 3
    ensures DecodeQuantum(EncodeQuantum(b)) == Some(b)
  {
    hide Digit, DigitValue;
    var x := b[0] as int;
    var y := if |b| > 1 then b[1] as int else 0;
    var z := if |b| > 2 then b[2] as int else 0;
    var q := EncodeQuantum(b);
    DigitRoundTrip(x / 4);
    DigitRoundTrip(x % 4 * 16 + y / 16);
    DigitRoundTrip(y % 16 * 4 + z / 64);
    DigitRoundTrip(z % 64);
    SextetsOfBytes(x, y, z);
    forall i | 0 <= i < |b| ensures (b[i] as int) as char == b[i] {
      ByteOfInt(b[i]);
    }
    if |b| == 1 {
      assert DecodeQuantum(q) == Some([b[0]]) && [b[0]] == b;
    } else if |b| == 2 {
      assert DecodeQuantum(q) == Some([b[0], b[1]]) && [b[0], b[1]] == b;
    } else {
      assert DecodeQuantum(q) == Some([b[0], b[1], b[2]]) && [b[0], b[1], b[2]] == b;
    }
  }

  lemma {:induction false} SextetsOfBytes(x: int, y: int, z: int)
    requires 0 <= x < 256 && 0 <= y < 256 && 0 <= z < 256
    ensures x / 4 * 4 + (x % 4 * 16 + y / 16) / 16 == x
    ensures (x % 4 * 16 + y / 16) % 16 * 16 + (y % 16 * 4 + z / 64) / 4 == y
    ensures (y % 16 * 4 + z / 64) % 4 * 64 + z % 64 == z
  {
    assert (x % 4 * 16 + y / 16) / 16 == x % 4 && (x % 4 * 16 + y / 16) % 16 == y / 16;
    assert (y % 16 * 4 + z / 64) / 4 == y % 16 && (y % 16 * 4 + z / 64) % 4 == z / 64;
  }

  lemma {:induction false} ByteOfInt(c: Byte)
    ensures c as int < 256 && (c as int) as char == c
  {
  }

  lemma {:induction false} DecodeConcat(s: Bytes, t: Bytes)
    requires Decode(s).Some? && Decode(t).Some?
    ensures Decode(s + t) == Some(Decode(s).value + Decode(t).value)
  {
    hide DecodeQuantum;
    if s == [] {
      assert s + t == t && [] + Decode(t).value == Decode(t).value;
    } else {
      assert (s + t)[..4] == s[..4] && (s + t)[4..] == s[4..] + t;
      DecodeConcat(s[4..], t);
      var head, rest := DecodeQuantum(s[..4]).value, Decode(s[4..]).value;
      assert (head + rest) + Decode(t).value == head + (rest + Decode(t).value);
    }
  }

  lemma {:induction false} RoundTrip(b: Bytes)
    ensures Decode(Encode(b)) == Some(b)
  {
    hide EncodeQuantum, DecodeQuantum;
    if b != [] {
      var n := if |b| <= 3 then |b| else 3;
      QuantumRoundTrip(b[..n]);
      var q := EncodeQuantum(b[..n]);
      assert b[..n] + b[n..] == b;
      if |b| <= 3 {
        assert b[..n] == b && q[..4] == q && q[4..] == [];
      } else {
        RoundTrip(b[n..]);
        assert (q + Encode(b[n..]))[..4] == q && (q + Encode(b[n..]))[4..] == Encode(b[n..]);
      }
    }
  }

  lemma {:induction false} EmptyText()
    ensures Encode([]) == [] && Decode([]) == Some([])
  {
  }

  lemma {:induction false} EncodeTriple(b: Bytes)
    requires 3 <= |b|
    ensures Encode(b) == EncodeQuantum(b[..3]) + Encode(b[3..])
  {
    hide EncodeQuantum;
    if |b| == 3 {
      assert b[..3] == b && b[3..] == [];
      EmptyText();
    }
  }

  /** Whole triples can be encoded on their own. */
  lemma {:induction false} EncodeAppend(a: Bytes, b: Bytes)
    requires |a| % 3 == 0
    ensures Encode(a + b) == Encode(a) + Encode(b)
  {
    hide Encode, EncodeQuantum;
    if a == [] {
      EmptyText();
      assert a + b == b;
    } else {
      assert (a + b)[..3] == a[..3] && (a + b)[3..] == a[3..] + b;
      EncodeAppend(a[3..], b);
      EncodeTriple(a + b);
      EncodeTriple(a);
    }
  }

  lemma {:induction false} EncodeLength(b: Bytes)
    ensures |Encode(b)| == (|b| + 2) / 3 * 4
  {
    hide EncodeQuantum;
    if |b| > 3 {
      EncodeLength(b[3..]);
    }
  }

  // ---------- the streaming encoder ----------

  /** What was emitted, and the 0 to 2 bytes that wait for the rest of their triple. */
  datatype Stream = Stream(out: Bytes, fringe: Bytes)

  function Whole(b: Bytes): nat {
    |b| - |b| % 3
  }

  function Fed(s: Stream, b: Bytes): Stream {
    var all := s.fringe + b;
    Stream(s.out + Encode(all[..Whole(all)]), all[Whole(all)..])
  }

  /** Closing the encoder pads what is pending; the next part starts with a new encoder. */
  function Closed(s: Stream): Stream {
    Stream(s.out + Encode(s.fringe), [])
  }

  datatype Op = Write(bytes: Bytes) | Flush

  function Step(s: Stream, op: Op): Stream {
    match op
    case Write(b) => Fed(s, b)
    case Flush => Closed(s)
  }

  function Streamed(ops: seq<Op>): Stream {
    if ops == [] then Stream([], []) else Step(Streamed(ops[..|ops| - 1]), ops[|ops| - 1])
  }

  /** The flushed parts, and the one that is still open. */
  datatype Parting = Parting(closed: seq<Bytes>, open: Bytes)

  function Parted(p: Parting, op: Op): Parting {
    match op
    case Write(b) => Parting(p.closed, p.open + b)
    case Flush => Parting(p.closed + [p.open], [])
  }

  function Parts(ops: seq<Op>): Parting {
    if ops == [] then Parting([], []) else Parted(Parts(ops[..|ops| - 1]), ops[|ops| - 1])
  }

  function BytesOf(op: Op): Bytes {
    if op.Write? then op.bytes else []
  }

  function Written(ops: seq<Op>): Bytes {
    if ops == [] then [] else Written(ops[..|ops| - 1]) + BytesOf(ops[|ops| - 1])
  }

  function Flat(ps: seq<Bytes>): Bytes {
    if ps == [] then [] else Flat(ps[..|ps| - 1]) + ps[|ps| - 1]
  }

  /** The parts encoded one by one. */
  function EncodeParts(ps: seq<Bytes>): Bytes {
    if ps == [] then [] else EncodeParts(ps[..|ps| - 1]) + Encode(ps[|ps| - 1])
  }

  /** `s` is what one-shot encoding of the parts gives, up to the last bytes of the open one. */
  ghost predicate Streams(s: Stream, p: Parting) {
    && s.out == EncodeParts(p.closed) + Encode(p.open[..Whole(p.open)])
    && s.fringe == p.open[Whole(p.open)..]
  }

  lemma {:induction false} OpenPartGrows(open: Bytes, b: Bytes)
    ensures var all := open[Whole(open)..] + b;
      && Encode((open + b)[..Whole(open + b)]) == Encode(open[..Whole(open)]) + Encode(all[..Whole(all)])
      && (open + b)[Whole(open + b)..] == all[Whole(all)..]
  {
    hide Encode;
    var w, all := Whole(open), open[Whole(open)..] + b;
    var head := open[..w];
    assert open + b == head + all;
    assert |open + b| % 3 == |all| % 3;
    assert (open + b)[..Whole(open + b)] == head + all[..Whole(all)];
    EncodeAppend(head, all[..Whole(all)]);
  }

  lemma {:induction false} FedStreams(s: Stream, p: Parting, b: Bytes)
    requires Streams(s, p)
    ensures Streams(Fed(s, b), Parted(p, Write(b)))
  {
    hide Encode;
    OpenPartGrows(p.open, b);
    var all := s.fringe + b;
    var (x, y, z) := (EncodeParts(p.closed), Encode(p.open[..Whole(p.open)]), Encode(all[..Whole(all)]));
    assert (x + y) + z == x + (y + z);
  }

  lemma {:induction false} ClosedStreams(s: Stream, p: Parting)
    requires Streams(s, p)
    ensures Streams(Closed(s), Parted(p, Flush))
  {
    hide Encode;
    EmptyText();
    var head, tail := p.open[..Whole(p.open)], p.open[Whole(p.open)..];
    assert head + tail == p.open;
    EncodeAppend(head, tail);
    assert (p.closed + [p.open])[..|p.closed|] == p.closed;
    var (x, y, z) := (EncodeParts(p.closed), Encode(head), Encode(tail));
    assert (x + y) + z == x + (y + z);
  }

  /**
    The streaming encoder is the one-shot encoder applied to each flushed part, followed by the whole
    triples of the open part; the rest of the open part is pending.
   */
  lemma {:induction false} StreamIsParts(ops: seq<Op>)
    ensures Streams(Streamed(ops), Parts(ops))
  {
    if ops != [] {
      var init := ops[..|ops| - 1];
      StreamIsParts(init);
      match ops[|ops| - 1] {
        case Write(b) => FedStreams(Streamed(init), Parts(init), b);
        case Flush => ClosedStreams(Streamed(init), Parts(init));
      }
    }
  }

  lemma {:induction false} FlatOfParts(ops: seq<Op>)
    ensures Flat(Parts(ops).closed) + Parts(ops).open == Written(ops)
  {
    if ops != [] {
      var init := ops[..|ops| - 1];
      var p := Parts(init);
      FlatOfParts(init);
      assert (p.closed + [p.open])[..|p.closed|] == p.closed;
      assert forall b: Bytes :: (Flat(p.closed) + p.open) + b == Flat(p.closed) + (p.open + b);
    }
  }

  lemma {:induction false} DecodeParts(ps: seq<Bytes>)
    ensures Decode(EncodeParts(ps)) == Some(Flat(ps))
  {
    hide Encode, Decode;
    EmptyText();
    if ps != [] {
      DecodeParts(ps[..|ps| - 1]);
      RoundTrip(ps[|ps| - 1]);
      DecodeConcat(EncodeParts(ps[..|ps| - 1]), Encode(ps[|ps| - 1]));
    }
  }

  lemma {:induction false} StreamDecodes(s: Stream, p: Parting)
    requires Streams(s, p)
    ensures Decode(s.out).Some? && Decode(s.out).value + s.fringe == Flat(p.closed) + p.open
    ensures |s.fringe| < 3
  {
    hide Encode, Decode;
    var head, tail := p.open[..Whole(p.open)], p.open[Whole(p.open)..];
    DecodeParts(p.closed);
    RoundTrip(head);
    DecodeConcat(EncodeParts(p.closed), Encode(head));
    assert head + tail == p.open;
    assert (Flat(p.closed) + head) + tail == Flat(p.closed) + (head + tail);
  }

  /**
    At any moment, decoding the emitted characters and adding the pending bytes gives all bytes written
    so far; fewer than three are pending, and none after a Flush.
   */
  lemma {:induction false} NothingLost(ops: seq<Op>)
    ensures var s := Streamed(ops);
      && Decode(s.out).Some? && Decode(s.out).value + s.fringe == Written(ops)
      && |s.fringe| < 3
      && (ops != [] && ops[|ops| - 1] == Flush ==> s.fringe == [])
  {
    StreamIsParts(ops);
    FlatOfParts(ops);
    StreamDecodes(Streamed(ops), Parts(ops));
  }

  function Quanta(ps: seq<Bytes>): nat {
    if ps == [] then 0 else Quanta(ps[..|ps| - 1]) + (|ps[|ps| - 1]| + 2) / 3
  }

  lemma {:induction false} PartsLength(ps: seq<Bytes>)
    ensures |EncodeParts(ps)| == 4 * Quanta(ps)
  {
    if ps != [] {
      PartsLength(ps[..|ps| - 1]);
      EncodeLength(ps[|ps| - 1]);
    }
  }

  lemma {:induction false} QuantaBounds(ps: seq<Bytes>)
    ensures (|Flat(ps)| + 2) / 3 <= Quanta(ps)
    ensures ps != [] ==> Quanta(ps) <= (|Flat(ps)| + 2) / 3 + |ps| - 1
  {
    if ps != [] {
      var init := ps[..|ps| - 1];
      QuantaBounds(init);
      CeilingSum(|Flat(init)|, |ps[|ps| - 1]|);
    }
  }

  lemma {:induction false} CeilingSum(m: nat, n: nat)
    ensures (m + n + 2) / 3 <= (m + 2) / 3 + (n + 2) / 3 <= (m + n + 2) / 3 + 1
  {
  }

  /** After a Flush, N bytes in k flushed parts take a multiple of 4 and at most 4(ceil(N/3) + k - 1) characters. */
  lemma {:induction false} FlushedLength(ops: seq<Op>)
    requires ops != [] && ops[|ops| - 1] == Flush
    ensures var (out, n, k) := (Streamed(ops).out, |Written(ops)|, |Parts(ops).closed|);
      && |out| % 4 == 0
      && 4 * ((n + 2) / 3) <= |out| <= 4 * ((n + 2) / 3 + k - 1)
  {
    hide *;
    OpenAfterFlush(ops);
    StreamIsParts(ops);
    FlatOfParts(ops);
    var closed := Parts(ops).closed;
    WholeStream(Streamed(ops), Parts(ops));
    assert Flat(closed) + [] == Flat(closed);
    PartsLength(closed);
    QuantaBounds(closed);
  }

  lemma {:induction false} OpenAfterFlush(ops: seq<Op>)
    requires ops != [] && ops[|ops| - 1] == Flush
    ensures Parts(ops).open == [] && Parts(ops).closed != []
  {
    assert Parts(ops) == Parted(Parts(ops[..|ops| - 1]), Flush);
  }

  lemma {:induction false} WholeStream(s: Stream, p: Parting)
    requires Streams(s, p) && p.open == []
    ensures s.out == EncodeParts(p.closed)
  {
    hide Encode, EncodeParts;
    EmptyText();
    assert p.open[..0] == [];
    assert EncodeParts(p.closed) + [] == EncodeParts(p.closed);
  }
}
