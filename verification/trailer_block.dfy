/**
  The trailer block: the text that http.Header.Write prints for a header map, and its parser.
  Go sorts the keys; here they come in any order.
 */
module TrailerBlock {
  import opened Wrappers
  import opened Text
  import opened Headers

  predicate IsOuterSpace(c: Byte) {
    c == ' ' || c == '\t' || c == '\n' || c == '\r'
  }

  /** Header.Write turns line breaks into spaces, then trims. */
  function Unbroken(v: Bytes): (r: Bytes)
    ensures |r| == |v| && forall i :: 0 <= i < |v| ==> r[i] == if v[i] == '\n' || v[i] == '\r' then ' ' else v[i]
  {
    seq(|v|, i requires 0 <= i < |v| => if v[i] == '\n' || v[i] == '\r' then ' ' else v[i])
  }

  function Cleaned(v: Bytes): Bytes {
    Trim(Unbroken(v), IsOuterSpace)
  }

  function CleanedAll(vs: seq<Bytes>): (r: seq<Bytes>)
    ensures |r| == |vs|
  {
    seq(|vs|, i requires 0 <= i < |vs| => Cleaned(vs[i]))
  }

  const COLON: Bytes := ":"
  const SPACE: Bytes := " "
  const CRLF: Bytes := "\r\n"

  function Line(k: Bytes, v: Bytes): Bytes {
    k + COLON + SPACE + Cleaned(v) + CRLF
  }

  function Lines(k: Bytes, vs: seq<Bytes>): Bytes {
    if vs == [] then [] else Line(k, vs[0]) + Lines(k, vs[1..])
  }

  /** Keys that are not tokens are dropped without an error. */
  function Block(h: Header, order: seq<Bytes>): Bytes {
    if order == [] then []
    else (if order[0] in h && IsToken(order[0]) then Lines(order[0], h[order[0]]) else []) + Block(h, order[1..])
  }

  function WithValue(h: Header, k: Bytes, v: Bytes): Header {
    h[k := [v] + if k in h then h[k] else []]
  }

  /** Field lines "key: value", each ended by CRLF; the values of a key keep their order. */
  function ParseBlock(b: Bytes): Option<Header> {
    if b == [] then Some(map[])
    else
      var e := Index(b, CRLF);
      if e == -1 then None
      else
        var c := Index(b[..e], COLON);
        var rest := ParseBlock(b[e + 2..]);
        if c == -1 || rest.None? then None
        else Some(WithValue(rest.value, b[..c], Trim(b[c + 1..e], IsOuterSpace)))
  }

  predicate NoBreak(v: Bytes) {
    forall i :: 0 <= i < |v| ==> v[i] != '\n' && v[i] != '\r'
  }

  lemma {:induction false} SliceHasNoBreak(v: Bytes, a: int, b: int)
    requires 0 <= a <= b <= |v|
    ensures NoBreak(Unbroken(v)[a..b])
  {
    forall i | 0 <= i < b - a ensures Unbroken(v)[a..b][i] != '\n' && Unbroken(v)[a..b][i] != '\r' {
      assert Unbroken(v)[a..b][i] == Unbroken(v)[a + i];
    }
  }

  lemma {:induction false} CleanedIsClean(v: Bytes)
    ensures NoBreak(Cleaned(v)) && Trimmed(Cleaned(v), IsOuterSpace)
  {
    hide Trim, Trimmed, Unbroken, NoBreak;
    TrimIsTrimmed(Unbroken(v), IsOuterSpace);
    var a, b :| 0 <= a <= b <= |v| && Cleaned(v) == Unbroken(v)[a..b];
    SliceHasNoBreak(v, a, b);
  }

  /** The printed value, byte by byte: line breaks become spaces, then what is white at either end is cut off. */
  lemma {:induction false} CleanedIs(v: Bytes) returns (a: nat, b: nat)
    ensures a <= b <= |v| && |Cleaned(v)| == b - a
    ensures forall i :: a <= i < b ==> Cleaned(v)[i - a] == if v[i] == '\n' || v[i] == '\r' then ' ' else v[i]
    ensures forall i :: 0 <= i < a || b <= i < |v| ==> v[i] in " \t\r\n"
    ensures a < b ==> v[a] !in " \t\r\n" && v[b - 1] !in " \t\r\n"
  {
    hide Trim;
    var u := Unbroken(v);
    a, b := TrimIs(u, IsOuterSpace);
    forall i | 0 <= i < |v| ensures IsOuterSpace(u[i]) <==> v[i] in " \t\r\n" {}
    assert forall i :: a <= i < b ==> Cleaned(v)[i - a] == u[i];
  }

  /** A value is printed as it is exactly when it has no line break and no outer white space. */
  lemma {:induction false} CleanedUnchangedIff(v: Bytes)
    ensures Cleaned(v) == v <==> NoBreak(v) && Trimmed(v, IsOuterSpace)
  {
    CleanedIsClean(v);
    if NoBreak(v) && Trimmed(v, IsOuterSpace) {
      assert Unbroken(v) == v;
      TrimOfTrimmed(v, IsOuterSpace);
    }
  }

  lemma {:induction false} TrimAfterSpace(v: Bytes)
    requires Trimmed(v, IsOuterSpace)
    ensures Trim(SPACE + v, IsOuterSpace) == v
  {
    var s := SPACE + v;
    assert s[1..] == v && IsOuterSpace(s[0]);
    assert TrimLeft(s, IsOuterSpace) == TrimLeft(v, IsOuterSpace);
    TrimOfTrimmed(v, IsOuterSpace);
  }

  lemma {:induction false} LineEnd(line: Bytes, t: Bytes)
    requires NoBreak(line)
    ensures Index(line + CRLF + t, CRLF) == |line|
  {
    var b := line + CRLF + t;
    forall j | 0 <= j < |line| ensures !MatchAt(b, CRLF, j) {
      assert b[j] == line[j];
    }
    assert b[|line|..|line| + 2] == CRLF;
    IndexIs(b, CRLF, |line|);
  }

  lemma {:induction false} ColonAfterKey(k: Bytes, w: Bytes)
    requires AllTokenBytes(k)
    ensures Index(k + COLON + w, COLON) == |k|
  {
    var line := k + COLON + w;
    forall j | 0 <= j < |k| ensures !MatchAt(line, COLON, j) {
      assert IsTokenByte(k[j]) && line[j] == k[j];
    }
    assert line[|k|..|k| + 1] == COLON;
    IndexIs(line, COLON, |k|);
  }

  function Unended(k: Bytes, v: Bytes): Bytes {
    k + COLON + (SPACE + Cleaned(v))
  }

  lemma {:induction false} UnendedLine(k: Bytes, v: Bytes)
    requires IsToken(k)
    ensures Line(k, v) == Unended(k, v) + CRLF && NoBreak(Unended(k, v))
    ensures Unended(k, v)[..|k|] == k && Unended(k, v)[|k| + 1..] == SPACE + Cleaned(v)
  {
    hide Cleaned;
    CleanedIsClean(v);
    forall i | 0 <= i < |Unended(k, v)| ensures Unended(k, v)[i] != '\n' && Unended(k, v)[i] != '\r' {
      assert i < |k| ==> IsTokenByte(k[i]);
    }
  }

  /** The first line of a text is read back as the entry it was printed for. */
  lemma {:induction false} ParseFirstLine(k: Bytes, v: Bytes, t: Bytes)
    requires IsToken(k) && ParseBlock(t).Some?
    ensures ParseBlock(Line(k, v) + t) == Some(WithValue(ParseBlock(t).value, k, Cleaned(v)))
  {
    hide IndexFrom, Cleaned;
    var line := Unended(k, v);
    var b, n := Line(k, v) + t, |line|;
    UnendedLine(k, v);
    LineEnd(line, t);
    ColonAfterKey(k, SPACE + Cleaned(v));
    CleanedIsClean(v);
    TrimAfterSpace(Cleaned(v));
    assert b[..n] == line && b[n + 2..] == t;
    assert b[..|k|] == line[..|k|] && b[|k| + 1..n] == line[|k| + 1..];
  }

  /** `h` with the values put in front of those it has under `k`. */
  function WithValues(h: Header, k: Bytes, vs: seq<Bytes>): Header {
    if vs == [] then h else WithValue(WithValues(h, k, vs[1..]), k, vs[0])
  }

  lemma {:induction false} ParseLines(k: Bytes, vs: seq<Bytes>, t: Bytes)
    requires IsToken(k) && ParseBlock(t).Some?
    ensures ParseBlock(Lines(k, vs) + t) == Some(WithValues(ParseBlock(t).value, k, CleanedAll(vs)))
  {
    hide IndexFrom, Cleaned, ParseBlock;
    if vs == [] {
      assert Lines(k, vs) + t == t;
    } else {
      var t' := Lines(k, vs[1..]) + t;
      ParseLines(k, vs[1..], t);
      ParseFirstLine(k, vs[0], t');
      assert Lines(k, vs) + t == Line(k, vs[0]) + t';
      assert CleanedAll(vs)[1..] == CleanedAll(vs[1..]);
    }
  }

  lemma {:induction false} WithNewValues(h: Header, k: Bytes, vs: seq<Bytes>)
    requires k !in h
    ensures WithValues(h, k, vs) == if vs == [] then h else h[k := vs]
  {
    if vs != [] {
      WithNewValues(h, k, vs[1..]);
      assert [vs[0]] + vs[1..] == vs;
      assert |vs| == 1 ==> [vs[0]] + [] == vs;
    }
  }

  /** What survives the print: token keys that have a value, with cleaned values. */
  function Sanitized(h: Header): Header {
    map k | k in h && IsToken(k) && h[k] != [] :: CleanedAll(h[k])
  }

  function SanitizedFor(h: Header, order: seq<Bytes>): Header {
    map k | k in h && k in order && IsToken(k) && h[k] != [] :: CleanedAll(h[k])
  }

  lemma {:induction false} SanitizedForCons(h: Header, k: Bytes, rest: seq<Bytes>)
    requires k in h && k !in rest
    ensures var r := SanitizedFor(h, rest);
      && k !in r
      && SanitizedFor(h, [k] + rest) == if IsToken(k) && h[k] != [] then r[k := CleanedAll(h[k])] else r
  {
    assert forall x :: x in [k] + rest <==> x == k || x in rest;
  }

  lemma {:induction false} NothingPrinted(h: Header)
    ensures ParseBlock([]) == Some(SanitizedFor(h, []))
  {
  }

  lemma {:induction false} ParseOfBlockFor(h: Header, order: seq<Bytes>)
    requires forall i :: 0 <= i < |order| ==> order[i] in h
    requires forall i, j :: 0 <= i < j < |order| ==> order[i] != order[j]
    ensures ParseBlock(Block(h, order)) == Some(SanitizedFor(h, order))
  {
    hide CleanedAll, ParseBlock, WithValues, IsToken, Lines, SanitizedFor;
    NothingPrinted(h);
    if order != [] {
      var k, rest := order[0], order[1..];
      ParseOfBlockFor(h, rest);
      SanitizedForCons(h, k, rest);
      assert [k] + rest == order;
      if IsToken(k) {
        ParseLines(k, h[k], Block(h, rest));
        WithNewValues(SanitizedFor(h, rest), k, CleanedAll(h[k]));
      } else {
        assert [] + Block(h, rest) == Block(h, rest);
      }
    }
  }

  /** Reading a printed trailer block gives the header map it was printed from, sanitized. */
  lemma {:induction false} ParseOfBlock(h: Header, order: seq<Bytes>)
    requires Enumerates(order, h.Keys)
    ensures ParseBlock(Block(h, order)) == Some(Sanitized(h))
  {
    ParseOfBlockFor(h, order);
    assert SanitizedFor(h, order) == Sanitized(h);
  }

  predicate Printable(k: Bytes, vs: seq<Bytes>) {
    && IsToken(k) && vs != []
    && forall i :: 0 <= i < |vs| ==> NoBreak(vs[i]) && Trimmed(vs[i], IsOuterSpace)
  }

  lemma {:induction false} PrintableIff(k: Bytes, vs: seq<Bytes>)
    ensures Printable(k, vs) <==> IsToken(k) && vs != [] && CleanedAll(vs) == vs
  {
    hide IsToken, Cleaned;
    forall i | 0 <= i < |vs| ensures Cleaned(vs[i]) == vs[i] <==> NoBreak(vs[i]) && Trimmed(vs[i], IsOuterSpace) {
      CleanedUnchangedIff(vs[i]);
    }
    if CleanedAll(vs) == vs {
      assert forall i :: 0 <= i < |vs| ==> CleanedAll(vs)[i] == Cleaned(vs[i]);
    }
  }

  /**
    It gives exactly that map when and only when every key is a token with at least one value and no
    value has a line break or outer white space.
   */
  lemma {:induction false} BlockRoundTripIff(h: Header, order: seq<Bytes>)
    requires Enumerates(order, h.Keys)
    ensures ParseBlock(Block(h, order)) == Some(h) <==> forall k :: k in h ==> Printable(k, h[k])
  {
    ParseOfBlock(h, order);
    forall k | k in h ensures Printable(k, h[k]) <==> IsToken(k) && h[k] != [] && CleanedAll(h[k]) == h[k] {
      PrintableIff(k, h[k]);
    }
    if Sanitized(h) == h {
      forall k | k in h ensures Printable(k, h[k]) {
        assert k in Sanitized(h);
      }
    }
  }

  /** The printed form, byte by byte, and that the block is made of such lines. */
  lemma {:induction false} LineIsText(h: Header, k: Bytes, order: seq<Bytes>)
    requires k in h && IsToken(k) && h[k] != []
    ensures Line(k, h[k][0]) == k + ": " + Cleaned(h[k][0]) + "\r\n"
    ensures Block(h, [k] + order)
         == k + ": " + Cleaned(h[k][0]) + "\r\n" + Block(h[k := h[k][1..]], [k]) + Block(h, order)
  {
    hide Cleaned, IsToken;
    var (vs, g) := (h[k], h[k := h[k][1..]]);
    assert ([k] + order)[1..] == order && [k][1..] == [];
    assert Block(g, [k]) == Lines(k, vs[1..]) + [] == Lines(k, vs[1..]);
    assert Lines(k, vs) == Line(k, vs[0]) + Lines(k, vs[1..]);
  }
}
