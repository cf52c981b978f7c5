/**
  gRPC message framing: one flag byte, a 4-byte big-endian length, the payload. The top bit of the
  flag marks a trailer frame.
 */
module Framing {
  import opened Wrappers
  import opened Text

  const TWO32: nat := 0x1_0000_0000

  datatype Frame = Frame(flag: Byte, payload: Bytes) {
    predicate IsTrailer() {
      flag as int >= 128
    }

    /** The length field can hold the payload's length. */
    predicate Fits() {
      |payload| < TWO32
    }
  }

  /** binary.BigEndian.PutUint32 of the low 32 bits. */
  function Be32(n: nat): (r: Bytes)
    ensures |r| == 4
  {
    [(n / 0x100_0000 % 256) as char, (n / 0x1_0000 % 256) as char, (n / 0x100 % 256) as char, (n % 256) as char]
  }

  function Be32Value(b: Bytes): nat
    requires |b| == 4
  {
    b[0] as int * 0x100_0000 + b[1] as int * 0x1_0000 + b[2] as int * 0x100 + b[3] as int
  }

  /** The length field is the length taken modulo 2^32. */
  lemma {:induction false} Be32RoundTrip(n: nat)
    ensures Be32Value(Be32(n)) == n % TWO32
  {
    var (a, b, c, d) := (n / 0x100_0000 % 256, n / 0x1_0000 % 256, n / 0x100 % 256, n % 256);
    assert n / 0x100 == n / 0x1_0000 * 256 + c;
    assert n / 0x1_0000 == n / 0x100_0000 * 256 + b;
    assert n == n / 0x100 * 256 + d;
    assert n == (n / 0x100_0000 / 256) * TWO32 + a * 0x100_0000 + b * 0x1_0000 + c * 0x100 + d;
    assert n / 0x100_0000 / 256 == n / TWO32;
  }

  lemma {:induction false} Be32OfValue(b: Bytes)
    requires |b| == 4
    ensures Be32(Be32Value(b)) == b && Be32Value(b) < TWO32
  {
    var (w, x, y, z) := (b[0] as int, b[1] as int, b[2] as int, b[3] as int);
    var n := Be32Value(b);
    assert n / 0x100 == w * 0x1_0000 + x * 0x100 + y && n % 256 == z;
    assert n / 0x1_0000 == w * 0x100 + x && n / 0x100 % 256 == y;
    assert n / 0x100_0000 == w && n / 0x1_0000 % 256 == x;
    forall i | 0 <= i < 4 ensures (b[i] as int) as char == b[i] {}
    assert Be32(n) == [b[0], b[1], b[2], b[3]] == b;
  }

  function EncodeFrame(f: Frame): Bytes {
    [f.flag] + Be32(|f.payload|) + f.payload
  }

  function EncodeFrames(fs: seq<Frame>): Bytes {
    if fs == [] then [] else EncodeFrame(fs[0]) + EncodeFrames(fs[1..])
  }

  /** Splits a body into frames; fails when bytes are left over. */
  function ParseFrames(b: Bytes): Option<seq<Frame>> {
    if b == [] then Some([])
    else if |b| < 5 || |b| < 5 + Be32Value(b[1..5]) then None
    else
      var n := 5 + Be32Value(b[1..5]);
      var rest := ParseFrames(b[n..]);
      if rest.Some? then Some([Frame(b[0], b[5..n])] + rest.value) else None
  }

  lemma {:induction false} ParseFirst(f: Frame, t: Bytes)
    requires f.Fits() && ParseFrames(t).Some?
    ensures ParseFrames(EncodeFrame(f) + t) == Some([f] + ParseFrames(t).value)
  {
    hide Be32, Be32Value;
    var n := 5 + |f.payload|;
    var b := EncodeFrame(f) + t;
    Be32RoundTrip(|f.payload|);
    assert b[1..5] == Be32(|f.payload|);
    assert b[5..n] == f.payload && b[n..] == t && b[0] == f.flag;
  }

  /** Parsing is the inverse of printing, for every list of frames whose lengths fit the field. */
  lemma {:induction false} ParseOfEncode(fs: seq<Frame>)
    requires forall i :: 0 <= i < |fs| ==> fs[i].Fits()
    ensures ParseFrames(EncodeFrames(fs)) == Some(fs)
  {
    if fs != [] {
      ParseOfEncode(fs[1..]);
      ParseFirst(fs[0], EncodeFrames(fs[1..]));
      assert [fs[0]] + fs[1..] == fs;
    }
  }

  lemma {:induction false} EncodeOfFirst(b: Bytes, n: nat)
    requires 5 <= n <= |b| && n == 5 + Be32Value(b[1..5])
    ensures EncodeFrame(Frame(b[0], b[5..n])) == b[..n]
  {
    hide Be32, Be32Value;
    Be32OfValue(b[1..5]);
    assert b[..n] == [b[0]] + b[1..5] + b[5..n];
  }

  /** Whatever parses is the print of what it parses to, so frames cannot be read in two ways. */
  lemma {:induction false} EncodeOfParse(b: Bytes)
    requires ParseFrames(b).Some?
    ensures EncodeFrames(ParseFrames(b).value) == b
  {
    hide Be32, Be32Value, EncodeFrame;
    if b != [] {
      var n := 5 + Be32Value(b[1..5]);
      EncodeOfFirst(b, n);
      EncodeOfParse(b[n..]);
      var f, rest := Frame(b[0], b[5..n]), ParseFrames(b[n..]).value;
      assert ([f] + rest)[1..] == rest;
      assert b[..n] + b[n..] == b;
    }
  }

  /** A frame that was read fits. */
  lemma {:induction false} ParsedFits(b: Bytes, i: nat)
    requires ParseFrames(b).Some? && i < |ParseFrames(b).value|
    ensures ParseFrames(b).value[i].Fits()
  {
    hide Be32, Be32Value;
    var n := 5 + Be32Value(b[1..5]);
    Be32OfValue(b[1..5]);
    if i > 0 {
      ParsedFits(b[n..], i - 1);
    }
  }

  /** So printed frames are read back exactly when every length fits the field. */
  lemma {:induction false} ReadBackIff(fs: seq<Frame>)
    ensures ParseFrames(EncodeFrames(fs)) == Some(fs) <==> forall i :: 0 <= i < |fs| ==> fs[i].Fits()
  {
    hide ParseFrames, EncodeFrames;
    if forall i :: 0 <= i < |fs| ==> fs[i].Fits() {
      ParseOfEncode(fs);
    }
    if ParseFrames(EncodeFrames(fs)) == Some(fs) {
      forall i | 0 <= i < |fs| ensures fs[i].Fits() {
        ParsedFits(EncodeFrames(fs), i);
      }
    }
  }

  lemma {:induction false} EncodeAppendOne(fs: seq<Frame>, f: Frame)
    ensures EncodeFrames(fs + [f]) == EncodeFrames(fs) + EncodeFrame(f)
  {
    hide Be32, EncodeFrame;
    if fs == [] {
      assert fs + [f] == [f] && [f][1..] == [];
      assert EncodeFrame(f) + [] == EncodeFrame(f) == [] + EncodeFrame(f);
    } else {
      assert (fs + [f])[1..] == fs[1..] + [f];
      EncodeAppendOne(fs[1..], f);
      assert EncodeFrame(fs[0]) + (EncodeFrames(fs[1..]) + EncodeFrame(f))
          == (EncodeFrame(fs[0]) + EncodeFrames(fs[1..])) + EncodeFrame(f);
    }
  }
}
