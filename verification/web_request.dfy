/**
  The request side of the gRPC-Web proxy (server/web_proxy_request.go): protocol, content type, text
  mode; and why the response side gives the client back the content type it asked with.
 */
module WebRequest {
  import opened Wrappers
  import opened Text
  import opened Headers

  const GRPC: Bytes := "application/grpc"
  const GRPC_WEB: Bytes := "application/grpc-web"
  const GRPC_WEB_TEXT: Bytes := "application/grpc-web-text"

  const CONTENT_TYPE: Bytes := "Content-Type"
  const CONTENT_LENGTH: Bytes := "Content-Length"

  /** http.Header.Get of a canonical key. */
  function FirstValue(h: Header, key: Bytes): Bytes {
    if key in h && h[key] != [] then h[key][0] else []
  }

  predicate IsTextFormat(contentType: Bytes) {
    HasPrefix(contentType, GRPC_WEB_TEXT)
  }

  /** The web content type of a mode; the request side strips it, the response side puts it back. */
  function WebType(text: bool): Bytes {
    if text then GRPC_WEB_TEXT else GRPC_WEB
  }

  function PlainType(contentType: Bytes): Bytes {
    ReplaceFirst(contentType, WebType(IsTextFormat(contentType)), GRPC)
  }

  function InterceptedHeader(h: Header): Header {
    h[CONTENT_TYPE := [PlainType(FirstValue(h, CONTENT_TYPE))]] - {CONTENT_LENGTH}
  }

  class Request {
    var protoMajor: int
    var protoMinor: int
    const header: HeaderMap
    // The body is read through a base64 decoder.
    var decodesBody: bool

    constructor (header: HeaderMap, protoMajor: int, protoMinor: int)
      ensures this.header == header && !decodesBody
      ensures this.protoMajor == protoMajor && this.protoMinor == protoMinor
    {
      this.header, this.protoMajor, this.protoMinor := header, protoMajor, protoMinor;
      decodesBody := false;
    }
  }

  method InterceptGrpcRequest(req: Request) returns (isTextFormat: bool)
    modifies req, req.header
    ensures isTextFormat == IsTextFormat(FirstValue(old(req.header.m), CONTENT_TYPE))
    ensures req.protoMajor == 2 && req.protoMinor == 0
    ensures req.decodesBody == (isTextFormat || old(req.decodesBody))
    ensures req.header.m == InterceptedHeader(old(req.header.m))
  {
    req.protoMajor, req.protoMinor := 2, 0;
    var contentType := FirstValue(req.header.m, CONTENT_TYPE);
    var incoming := GRPC_WEB;
    isTextFormat := IsTextFormat(contentType);
    if isTextFormat {
      req.decodesBody := true;
      incoming := GRPC_WEB_TEXT;
    }
    req.header.m := req.header.m[CONTENT_TYPE := [ReplaceFirst(contentType, incoming, GRPC)]];
    req.header.m := req.header.m - {CONTENT_LENGTH};
  }

  // ---------- there and back ----------

  /** What the response side makes of the request's plain content type when the handler echoes it. */
  function Echoed(contentType: Bytes): Bytes {
    ReplaceFirst(PlainType(contentType), GRPC, WebType(IsTextFormat(contentType)))
  }

  /** Replacing `w` by its prefix `g`, and then `g` by `w`. */
  lemma {:induction false} ReplaceBackIff(s: Bytes, g: Bytes, w: Bytes)
    requires g <= w && g != w
    ensures ReplaceFirst(ReplaceFirst(s, w, g), g, w) == s <==> Index(s, g) == Index(s, w)
  {
    hide IndexFrom;
    var i, j := Index(s, w), Index(s, g);
    if i == -1 {
      if j != -1 {
        assert |ReplaceFirst(s, g, w)| > |s|;
      }
    } else {
      PrefixMatches(s, g, w, i);
      var t := ReplaceFirst(s, w, g);
      FirstStays(s, g, w, i, j);
      Spliced(s, g, w, t, i, j);
    }
  }

  /** With `w` at `i` replaced by `g`, the first `g` is where it was. */
  lemma {:induction false} FirstStays(s: Bytes, g: Bytes, w: Bytes, i: int, j: int)
    requires g <= w && i == Index(s, w) && j == Index(s, g) && 0 <= j <= i && MatchAt(s, w, i)
    ensures Index(s[..i] + g + s[i + |w|..], g) == j
  {
    hide IndexFrom;
    PrefixMatches(s, g, w, i);
    var t := s[..i] + g + s[i + |w|..];
    assert s[..i + |g|] == s[..i] + s[i..i + |g|] && t[..i + |g|] == s[..i] + g;
    forall k | 0 <= k <= i ensures MatchAt(t, g, k) <==> MatchAt(s, g, k) {
      SameStart(s, t, i + |g|, g, k);
    }
    IndexIs(t, g, j);
  }

  /** Putting `w` back for the `g` at `j` gives `s` exactly when `j` is where `w` was. */
  lemma {:induction false} Spliced(s: Bytes, g: Bytes, w: Bytes, t: Bytes, i: int, j: int)
    requires g <= w && i == Index(s, w) && 0 <= j <= i && MatchAt(s, w, i)
    requires t == s[..i] + g + s[i + |w|..]
    ensures t[..j] + w + t[j + |g|..] == s <==> j == i
  {
    hide IndexFrom;
    var r := t[..j] + w + t[j + |g|..];
    if j == i {
      assert s == s[..i] + s[i..i + |w|] + s[i + |w|..];
      assert t[..i] == s[..i] && t[i + |g|..] == s[i + |w|..];
    } else {
      assert r[j..j + |w|] == w;
      assert !MatchAt(s, w, j);
    }
  }

  lemma {:induction false} PrefixMatches(s: Bytes, g: Bytes, w: Bytes, i: int)
    requires g <= w && MatchAt(s, w, i)
    ensures MatchAt(s, g, i) && s[i..i + |g|] == g
  {
    assert s[i..i + |g|] == s[i..i + |w|][..|g|];
  }

  lemma {:induction false} SameStart(s: Bytes, t: Bytes, n: int, g: Bytes, k: int)
    requires 0 <= n <= |s| && n <= |t| && s[..n] == t[..n] && 0 <= k && k + |g| <= n
    ensures MatchAt(t, g, k) <==> MatchAt(s, g, k)
  {
    assert s[k..k + |g|] == s[..n][k..k + |g|] && t[k..k + |g|] == t[..n][k..k + |g|];
  }

  /**
    Any content type comes back unchanged exactly when the first "application/grpc" in it, if there is
    one, starts the first occurrence of the web type that is stripped.
   */
  lemma {:induction false} EchoedIff(contentType: Bytes)
    ensures Echoed(contentType) == contentType
       <==> Index(contentType, GRPC) == Index(contentType, WebType(IsTextFormat(contentType)))
  {
    ReplaceBackIff(contentType, GRPC, WebType(IsTextFormat(contentType)));
  }

  /** In particular every type that starts with a web type; the handler sees plain gRPC with the same suffix. */
  lemma {:induction false} WebTypesComeBack(contentType: Bytes)
    requires HasPrefix(contentType, GRPC_WEB)
    ensures var web := WebType(IsTextFormat(contentType));
      && web <= contentType
      && PlainType(contentType) == GRPC + contentType[|web|..]
      && Echoed(contentType) == contentType
  {
    var web := WebType(IsTextFormat(contentType));
    assert MatchAt(contentType, web, 0);
    PrefixMatches(contentType, GRPC, web, 0);
    IndexIs(contentType, web, 0);
    IndexIs(contentType, GRPC, 0);
    EchoedIff(contentType);
    assert contentType[..0] + GRPC == GRPC;
  }

  // ---------- what the handler gets ----------

  /** A web content type of either mode, spelled out; in binary mode the rest must not say "-text". */
  predicate WebTypeOf(contentType: Bytes, text: bool, suffix: Bytes) {
    if text then contentType == "application/grpc-web-text" + suffix
    else contentType == "application/grpc-web" + suffix && !("-text" <= suffix)
  }

  lemma {:induction false} PrefixOfSumIff(a: Bytes, b: Bytes, s: Bytes)
    ensures a + b <= a + s <==> b <= s
  {
    if a + b <= a + s {
      assert b == (a + s)[|a|..|a + b|] == s[..|b|];
    }
  }

  lemma {:induction false} TextSaysSo(c: Bytes, text: bool, suffix: Bytes)
    requires WebTypeOf(c, text, suffix)
    ensures IsTextFormat(c) == text && HasPrefix(c, GRPC_WEB)
    ensures WebType(text) <= c && c[|WebType(text)|..] == suffix
  {
    assert GRPC_WEB_TEXT == GRPC_WEB + "-text";
    if text {
      assert c == GRPC_WEB + ("-text" + suffix);
    } else {
      PrefixOfSumIff(GRPC_WEB, "-text", suffix);
    }
  }

  /**
    For every header map whose first content type is a web type: text mode is chosen exactly by "-text",
    the handler gets plain gRPC with the same suffix and nothing else there, no content length, and every
    other header as it was.
   */
  lemma {:induction false} WebRequestBecomesPlain(h: Header, text: bool, suffix: Bytes)
    requires "Content-Type" in h && h["Content-Type"] != [] && WebTypeOf(h["Content-Type"][0], text, suffix)
    ensures IsTextFormat(FirstValue(h, CONTENT_TYPE)) == text
    ensures var g := InterceptedHeader(h);
      && "Content-Type" in g && g["Content-Type"] == ["application/grpc" + suffix]
      && "Content-Length" !in g
      && (forall k :: k != "Content-Type" && k != "Content-Length" ==>
            (k in g <==> k in h) && (k in h ==> g[k] == h[k]))
  {
    hide IndexFrom, ReplaceFirst;
    var c := h["Content-Type"][0];
    TextSaysSo(c, text, suffix);
    WebTypesComeBack(c);
  }

  /** Any other request: its content type stays, empty if there was none, and so does the rest but the length. */
  lemma {:induction false} OtherRequestKeepsType(h: Header, contentType: Bytes)
    requires contentType == if "Content-Type" in h && h["Content-Type"] != [] then h["Content-Type"][0] else []
    requires forall i :: !MatchAt(contentType, "application/grpc-web", i)
    ensures !IsTextFormat(FirstValue(h, CONTENT_TYPE))
    ensures InterceptedHeader(h) == h["Content-Type" := [contentType]] - {"Content-Length"}
  {
    hide IndexFrom;
    if IsTextFormat(contentType) {
      assert MatchAt(contentType, GRPC_WEB_TEXT, 0);
      PrefixMatches(contentType, GRPC_WEB, GRPC_WEB_TEXT, 0);
    }
    assert !MatchAt(contentType, GRPC_WEB, Index(contentType, GRPC_WEB));
  }
}
