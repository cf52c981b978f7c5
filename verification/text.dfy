/** Byte strings and the few operations of Go's strings package that the proxy uses on them. */
module Text {

  /** Go strings and byte slices are sequences of bytes; a byte is shown as the character it codes. */
  type Byte = c: char | c < '\U{000100}'

  type Bytes = seq<Byte>

  function LowerByte(c: Byte): Byte {
    if 'A' <= c <= 'Z' then (c as int + 32) as char else c
  }

  function UpperByte(c: Byte): Byte {
    if 'a' <= c <= 'z' then (c as int - 32) as char else c
  }

  /** strings.ToLower on ASCII text. */
  function Lower(s: Bytes): (r: Bytes)
    ensures |r| == |s| && forall i :: 0 <= i < |s| ==> r[i] == LowerByte(s[i])
  {
    seq(|s|, i requires 0 <= i < |s| => LowerByte(s[i]))
  }

  lemma {:induction false} LowerAfterCase(c: Byte)
    ensures LowerByte(UpperByte(c)) == LowerByte(c) && LowerByte(LowerByte(c)) == LowerByte(c)
  {
    if 'a' <= c <= 'z' {
      assert UpperByte(c) as int == c as int - 32;
    }
  }

  /** The two cases of ASCII letters, letter by letter; other bytes have none. */
  lemma {:induction false} CasesAreAscii(c: Byte)
    ensures LowerByte('A') == 'a' && LowerByte('Z') == 'z' && UpperByte('a') == 'A' && UpperByte('z') == 'Z'
    ensures 'A' <= c < 'Z' ==> LowerByte((c as int + 1) as char) as int == LowerByte(c) as int + 1
    ensures 'A' <= c <= 'Z' ==> UpperByte(LowerByte(c)) == c && UpperByte(c) == c
    ensures 'a' <= c <= 'z' ==> LowerByte(UpperByte(c)) == c && LowerByte(c) == c
    ensures !('A' <= c <= 'Z') && !('a' <= c <= 'z') ==> LowerByte(c) == c == UpperByte(c)
  {
    if 'a' <= c <= 'z' {
      assert UpperByte(c) as int == c as int - 32;
    }
    if 'A' <= c <= 'Z' {
      assert LowerByte(c) as int == c as int + 32;
    }
  }

  /** tchar of section 5.6.2 of RFC 9110. */
  predicate IsTokenByte(c: Byte) {
    'a' <= c <= 'z' || 'A' <= c <= 'Z' || '0' <= c <= '9' || c in "!#$%&'*+-.^_`|~"
  }

  predicate AllTokenBytes(s: Bytes) {
    forall i :: 0 <= i < |s| ==> IsTokenByte(s[i])
  }

  predicate IsToken(s: Bytes) {
    s != [] && AllTokenBytes(s)
  }

  function CasedByte(s: Bytes, i: nat): Byte
    requires i < |s|
  {
    if i == 0 || s[i - 1] == '-' then UpperByte(s[i]) else LowerByte(s[i])
  }

  /** http.CanonicalHeaderKey: Each-Word-Capitalised, or unchanged if some byte is not allowed in a key. */
  function Canonical(s: Bytes): (r: Bytes)
    ensures |r| == |s|
    ensures AllTokenBytes(s) ==> forall i :: 0 <= i < |s| ==> r[i] == CasedByte(s, i)
  {
    if AllTokenBytes(s) then seq(|s|, i requires 0 <= i < |s| => CasedByte(s, i)) else s
  }

  lemma {:induction false} LowerOfCanonical(s: Bytes)
    ensures Lower(Canonical(s)) == Lower(s)
  {
    forall i | 0 <= i < |s| ensures LowerByte(Canonical(s)[i]) == LowerByte(s[i]) {
      LowerAfterCase(s[i]);
    }
  }

  /** Visible ASCII characters other than delimiters, as section 5.6.2 of RFC 9110 puts it. */
  lemma {:induction false} TokenBytesAreVisible(c: Byte)
    ensures IsTokenByte(c) <==> 0x21 <= c as int <= 0x7e && c !in "\"(),/:;<=>?@[\\]{}"
  {
  }

  /** A letter is capital exactly where a word starts: at the front and after a dash. */
  predicate CaseFits(r: Bytes, i: nat)
    requires i < |r|
  {
    if i == 0 || r[i - 1] == '-' then !('a' <= r[i] <= 'z') else !('A' <= r[i] <= 'Z')
  }

  predicate WordsCapitalised(r: Bytes) {
    forall i :: 0 <= i < |r| ==> CaseFits(r, i)
  }

  lemma {:induction false} CasesOf(c: Byte)
    ensures !('a' <= UpperByte(c) <= 'z') && !('A' <= LowerByte(c) <= 'Z')
    ensures (UpperByte(c) == '-' <==> c == '-') && (LowerByte(c) == '-' <==> c == '-')
  {
    if 'a' <= c <= 'z' {
      assert UpperByte(c) as int == c as int - 32;
    }
  }

  lemma {:induction false} CanonicalIsCapitalised(s: Bytes)
    requires AllTokenBytes(s)
    ensures WordsCapitalised(Canonical(s))
  {
    hide Canonical, AllTokenBytes, LowerByte, UpperByte;
    var c := Canonical(s);
    forall i | 0 <= i < |c| ensures CaseFits(c, i) {
      CasesOf(s[i]);
      if i > 0 {
        CasesOf(s[i - 1]);
        assert c[i - 1] == CasedByte(s, i - 1);
      }
      assert c[i] == CasedByte(s, i);
    }
  }

  /** The canonical form of a token key has the same letters, capital exactly where a word starts. */
  lemma {:induction false} CanonicalIff(s: Bytes, r: Bytes)
    requires AllTokenBytes(s)
    ensures r == Canonical(s) <==> Lower(r) == Lower(s) && WordsCapitalised(r)
  {
    hide Canonical, LowerByte, WordsCapitalised;
    LowerOfCanonical(s);
    CanonicalIsCapitalised(s);
    if Lower(r) == Lower(s) && WordsCapitalised(r) {
      SameCase(r, Canonical(s));
    }
  }

  /** A text is determined by its letters in lower case and by which of them are capital. */
  lemma {:induction false} SameCase(r: Bytes, c: Bytes)
    requires Lower(r) == Lower(c) && WordsCapitalised(r) && WordsCapitalised(c)
    ensures r == c
  {
    hide LowerByte;
    assert |r| == |c|;
    forall i | 0 <= i < |r| ensures LowerByte(r[i]) == LowerByte(c[i]) {
      assert Lower(r)[i] == Lower(c)[i];
    }
    forall i | 0 <= i < |r| ensures r[i] == c[i] {
      assert CaseFits(r, i) && CaseFits(c, i);
      if i > 0 {
        DashIsCaseless(r[i - 1], c[i - 1]);
      }
      SameByte(r[i], c[i]);
    }
  }

  lemma {:induction false} DashIsCaseless(a: Byte, b: Byte)
    requires LowerByte(a) == LowerByte(b)
    ensures a == '-' <==> b == '-'
  {
  }

  lemma {:induction false} SameByte(a: Byte, b: Byte)
    requires LowerByte(a) == LowerByte(b)
    requires (!('a' <= a <= 'z') && !('a' <= b <= 'z')) || (!('A' <= a <= 'Z') && !('A' <= b <= 'Z'))
    ensures a == b
  {
    assert 'A' <= a <= 'Z' ==> LowerByte(a) as int == a as int + 32;
    assert 'A' <= b <= 'Z' ==> LowerByte(b) as int == b as int + 32;
  }

  lemma {:induction false} LowerKeepsToken(s: Bytes)
    ensures IsToken(Lower(s)) <==> IsToken(s)
  {
    assert forall i :: 0 <= i < |s| ==> (IsTokenByte(Lower(s)[i]) <==> IsTokenByte(s[i]));
  }

  // ---------- searching ----------

  predicate MatchAt(s: Bytes, sub: Bytes, i: int) {
    0 <= i <= |s| - |sub| && s[i..i + |sub|] == sub
  }

  lemma {:induction false} MatchByte(s: Bytes, sub: Bytes, i: int, n: nat)
    requires MatchAt(s, sub, i) && n < |sub|
    ensures s[i + n] == sub[n]
  {
    assert s[i..i + |sub|][n] == s[i + n];
  }

  /** The first place at or after `i` where `sub` occurs, or -1. */
  function IndexFrom(s: Bytes, sub: Bytes, i: nat): (r: int)
    ensures r == -1 ==> forall j :: i <= j ==> !MatchAt(s, sub, j)
    ensures r != -1 ==> i <= r && MatchAt(s, sub, r) && forall j :: i <= j < r ==> !MatchAt(s, sub, j)
    decreases |s| - i
  {
    if i + |sub| > |s| then -1
    else if MatchAt(s, sub, i) then i
    else if i == |s| then -1
    else IndexFrom(s, sub, i + 1)
  }

  function Index(s: Bytes, sub: Bytes): int {
    IndexFrom(s, sub, 0)
  }

  lemma {:induction false} IndexIs(s: Bytes, sub: Bytes, i: int)
    requires MatchAt(s, sub, i) && forall j :: 0 <= j < i ==> !MatchAt(s, sub, j)
    ensures Index(s, sub) == i
  {
  }

  predicate Contains(s: Bytes, sub: Bytes) {
    Index(s, sub) != -1
  }

  predicate HasPrefix(s: Bytes, prefix: Bytes) {
    prefix <= s
  }

  /** strings.Replace(s, from, to, 1). */
  function ReplaceFirst(s: Bytes, from: Bytes, to: Bytes): Bytes {
    var i := Index(s, from);
    if i == -1 then s else s[..i] + to + s[i + |from|..]
  }

  // ---------- trimming ----------

  function TrimLeft<T>(s: seq<T>, space: T -> bool): seq<T> {
    if s != [] && space(s[0]) then TrimLeft(s[1..], space) else s
  }

  function TrimRight<T>(s: seq<T>, space: T -> bool): seq<T> {
    if s != [] && space(s[|s| - 1]) then TrimRight(s[..|s| - 1], space) else s
  }

  function Trim<T>(s: seq<T>, space: T -> bool): seq<T> {
    TrimRight(TrimLeft(s, space), space)
  }

  predicate Trimmed<T>(s: seq<T>, space: T -> bool) {
    s == [] || (!space(s[0]) && !space(s[|s| - 1]))
  }

  lemma {:induction false} TrimLeftDrops<T>(s: seq<T>, space: T -> bool)
    ensures exists n :: 0 <= n <= |s| && TrimLeft(s, space) == s[n..]
    ensures TrimLeft(s, space) == [] || !space(TrimLeft(s, space)[0])
  {
    if s != [] && space(s[0]) {
      TrimLeftDrops(s[1..], space);
      var n :| 0 <= n <= |s[1..]| && TrimLeft(s[1..], space) == s[1..][n..];
      assert s[1..][n..] == s[n + 1..];
    } else {
      assert s == s[0..];
    }
  }

  lemma {:induction false} TrimRightTakes<T>(s: seq<T>, space: T -> bool)
    ensures TrimRight(s, space) <= s
    ensures TrimRight(s, space) == [] || !space(TrimRight(s, space)[|TrimRight(s, space)| - 1])
    decreases |s|
  {
    if s != [] && space(s[|s| - 1]) {
      TrimRightTakes(s[..|s| - 1], space);
    }
  }

  /** Trimming leaves a trimmed slice of the text. */
  lemma {:induction false} TrimIsTrimmed<T>(s: seq<T>, space: T -> bool)
    ensures Trimmed(Trim(s, space), space)
    ensures exists a, b :: 0 <= a <= b <= |s| && Trim(s, space) == s[a..b]
  {
    TrimLeftDrops(s, space);
    var t := TrimLeft(s, space);
    TrimRightTakes(t, space);
    SliceOfTail(s, t, Trim(s, space));
  }

  lemma {:induction false} SliceOfTail<T>(s: seq<T>, t: seq<T>, r: seq<T>)
    requires (exists a :: 0 <= a <= |s| && t == s[a..]) && r <= t
    ensures exists a, b :: 0 <= a <= b <= |s| && r == s[a..b]
  {
    var a :| 0 <= a <= |s| && t == s[a..];
    assert r == t[..|r|] == s[a..a + |r|];
  }

  lemma {:induction false} TrimLeftIs<T>(s: seq<T>, space: T -> bool) returns (n: nat)
    ensures n <= |s| && TrimLeft(s, space) == s[n..] && forall i :: 0 <= i < n ==> space(s[i])
  {
    if s != [] && space(s[0]) {
      n := TrimLeftIs(s[1..], space);
      assert s[1..][n..] == s[n + 1..];
      forall i | 0 <= i < n + 1 ensures space(s[i]) {
        assert i == 0 || s[i] == s[1..][i - 1];
      }
      n := n + 1;
    } else {
      n := 0;
    }
  }

  lemma {:induction false} TrimRightDrops<T>(s: seq<T>, space: T -> bool)
    ensures |TrimRight(s, space)| <= |s| && forall i :: |TrimRight(s, space)| <= i < |s| ==> space(s[i])
    decreases |s|
  {
    if s != [] && space(s[|s| - 1]) {
      var init := s[..|s| - 1];
      TrimRightDrops(init, space);
      assert forall i :: 0 <= i < |init| ==> init[i] == s[i];
    }
  }

  /** Trimming takes away white space, only that, and all of it at either end. */
  lemma {:induction false} TrimIs<T>(s: seq<T>, space: T -> bool) returns (a: nat, b: nat)
    ensures a <= b <= |s| && Trim(s, space) == s[a..b]
    ensures forall i :: 0 <= i < a || b <= i < |s| ==> space(s[i])
    ensures a < b ==> !space(s[a]) && !space(s[b - 1])
  {
    a := TrimLeftIs(s, space);
    var t := TrimLeft(s, space);
    TrimRightTakes(t, space);
    TrimRightDrops(t, space);
    TrimIsTrimmed(s, space);
    b := a + |Trim(s, space)|;
    assert Trim(s, space) == t[..b - a] == s[a..b];
    forall i | b <= i < |s| ensures space(s[i]) {
      assert s[i] == t[i - a];
    }
  }

  lemma {:induction false} TrimOfTrimmed<T>(s: seq<T>, space: T -> bool)
    requires Trimmed(s, space)
    ensures Trim(s, space) == s
  {
  }
}
