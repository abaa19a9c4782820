/** URL helpers of the search service (src/search/SearchService.cpp):
    percent-encoding of query values (`urlEncode`) and the splitting of a
    URL into host, port and path (`parseUrl`).

    `urlEncode` follows section 2.1 of RFC 3986 (a percent sign and two hex
    digits per escaped byte), leaving exactly the unreserved characters of
    section 2.3 of RFC 3986 as they are; it writes the hex digits in lower
    case. */
module Url {
  import opened Wrappers
  import opened Bytes

  // ---------------------------------------------------------------------
  // Percent-encoding

  /** The unreserved characters: ASCII letters, digits and `- _ . ~`. */
  predicate Unreserved(c: char) {
    IsAlnum(c) || c == '-' || c == '_' || c == '.' || c == '~'
  }

  predicate IsLowerHex(c: char) {
    IsDigit(c) || 'a' <= c <= 'f'
  }

  function HexDigit(d: nat): (c: Byte)
    requires d < 16
    ensures IsLowerHex(c)
  {
    "0123456789abcdef"[d]
  }

  /** One byte as `urlEncode` writes it. */
  function EncodeByte(c: Byte): Bytes {
    if Unreserved(c) then [c] else ['%', HexDigit(c as int / 16), HexDigit(c as int % 16)]
  }

  /** The reference encoding, byte after byte. */
  function Encoded(s: Bytes): Bytes {
    if s == [] then [] else EncodeByte(s[0]) + Encoded(s[1..])
  }

  lemma {:induction false} EncodedSnoc(s: Bytes, c: Byte)
    ensures Encoded(s + [c]) == Encoded(s) + EncodeByte(c)
  {
    if s == [] {
      assert [c][1..] == [];
    } else {
      assert (s + [c])[1..] == s[1..] + [c];
      EncodedSnoc(s[1..], c);
    }
  }

  /** `urlEncode`: the loop over the bytes of `value`. */
  method UrlEncode(value: Bytes) returns (escaped: Bytes)
    ensures escaped == Encoded(value)
  {
    escaped := [];
    for i := 0 to |value|
      invariant escaped == Encoded(value[..i])
    {
      var c := value[i];
      if IsAlnum(c) || c == '-' || c == '_' || c == '.' || c == '~' {
        escaped := escaped + [c];
      } else {
        escaped := escaped + ['%', HexDigit(c as int / 16), HexDigit(c as int % 16)];
      }
      EncodedSnoc(value[..i], c);
      assert value[..i + 1] == value[..i] + [c];
    }
    assert value[..|value|] == value;
  }

  /** How many bytes of `s` get escaped. */
  function EscapedCount(s: Bytes): nat {
    if s == [] then 0 else (if Unreserved(s[0]) then 0 else 1) + EscapedCount(s[1..])
  }

  /** Each escaped byte costs two extra characters. */
  lemma {:induction false} EncodedLength(s: Bytes)
    ensures |Encoded(s)| == |s| + 2 * EscapedCount(s)
  {
    if s != [] {
      EncodedLength(s[1..]);
    }
  }

  /** The output holds only unreserved characters, `%` and lower-case hex
      digits. */
  lemma {:induction false} EncodedAlphabet(s: Bytes)
    ensures forall i :: 0 <= i < |Encoded(s)| ==>
              Unreserved(Encoded(s)[i]) || Encoded(s)[i] == '%' || IsLowerHex(Encoded(s)[i])
  {
    if s != [] {
      EncodedAlphabet(s[1..]);
      var head, tail := EncodeByte(s[0]), Encoded(s[1..]);
      assert Encoded(s) == head + tail;
      forall i | 0 <= i < |Encoded(s)|
        ensures Unreserved(Encoded(s)[i]) || Encoded(s)[i] == '%' || IsLowerHex(Encoded(s)[i])
      {
        if i >= |head| {
          assert Encoded(s)[i] == tail[i - |head|];
        }
      }
    }
  }

  function HexValue(c: char): nat
    requires IsLowerHex(c) || 'A' <= c <= 'F'
  {
    if IsDigit(c) then c as int - '0' as int
    else if 'a' <= c <= 'f' then c as int - 'a' as int + 10
    else c as int - 'A' as int + 10
  }

  /** Percent-decoding, section 2.1 of RFC 3986: `%` and two hex digits of
      either case stand for one byte; every other byte stands for itself. */
  function PercentDecode(t: Bytes): Option<Bytes> {
    if t == [] then Some([])
    else if t[0] != '%' then
      match PercentDecode(t[1..])
      case None => None
      case Some(rest) => Some([t[0]] + rest)
    else if |t| >= 3 && (IsLowerHex(t[1]) || 'A' <= t[1] <= 'F') && (IsLowerHex(t[2]) || 'A' <= t[2] <= 'F') then
      match PercentDecode(t[3..])
      case None => None
      case Some(rest) => Some([(HexValue(t[1]) * 16 + HexValue(t[2])) as char] + rest)
    else None
  }

  lemma HexRoundTrip(d: nat)
    requires d < 16
    ensures HexValue(HexDigit(d)) == d
  {
  }

  /** Decoding undoes `urlEncode`. */
  lemma {:induction false} DecodeEncoded(s: Bytes)
    ensures PercentDecode(Encoded(s)) == Some(s)
  {
    if s != [] {
      DecodeEncoded(s[1..]);
      ByteDecodes(s[0], Encoded(s[1..]), s[1..]);
      assert s == [s[0]] + s[1..];
    }
  }

  /** One encoded byte in front of a decodable text decodes to that byte. */
  lemma ByteDecodes(c: Byte, tail: Bytes, rest: Bytes)
    requires PercentDecode(tail) == Some(rest)
    ensures PercentDecode(EncodeByte(c) + tail) == Some([c] + rest)
  {
    var t := EncodeByte(c) + tail;
    if Unreserved(c) {
      assert t[1..] == tail;
    } else {
      var hi, lo := c as int / 16, c as int % 16;
      HexRoundTrip(hi);
      HexRoundTrip(lo);
      assert t[3..] == tail;
      assert t[0] == '%' && t[1] == HexDigit(hi) && t[2] == HexDigit(lo);
      assert (HexValue(t[1]) * 16 + HexValue(t[2])) as char == c;
    }
  }

  // ---------------------------------------------------------------------
  // Splitting a URL

  /** The three parts `parseUrl` returns. */
  datatype UrlParts = UrlParts(host: Bytes, port: Bytes, path: Bytes)

  /** A line terminator, which `.` of the pattern does not match. */
  predicate IsLineTerminator(c: char) {
    c == '\n' || c == '\r'
  }

  /** The length of the longest prefix of `s` whose bytes all satisfy `p`. */
  function Span(s: Bytes, p: char -> bool): (n: nat)
    ensures n <= |s|
    ensures forall i :: 0 <= i < n ==> p(s[i])
    ensures n < |s| ==> !p(s[n])
  {
    if s == [] || !p(s[0]) then 0 else 1 + Span(s[1..], p)
  }

  predicate IsHostByte(c: char) {
    c != '/' && c != ':'
  }

  /** What may follow the host and optional port: nothing, or `/` and then
      no line terminator. */
  predicate IsPathPart(s: Bytes) {
    s == [] || (s[0] == '/' && forall i :: 1 <= i < |s| ==> !IsLineTerminator(s[i]))
  }

  /** The length of the scheme the pattern `(https?)://` accepts at the
      start of `url`, ignoring case: 5, 4, or 0 when it does not match. */
  function SchemeLength(url: Bytes): nat {
    if |url| >= 8 && Lower(url[..5]) == "https" && url[5..8] == "://" then 5
    else if |url| >= 7 && Lower(url[..4]) == "http" && url[4..7] == "://" then 4
    else 0
  }

  /** `parseUrl`: a recogniser for the whole-string match of
      `(https?)://([^/:]+)(?::(\d+))?(/.*)?`, case-insensitive, then the
      defaults: port `443` when the scheme text is exactly `https`, `80`
      otherwise, and path `/`. A URL that does not match gives three empty
      strings. */
  function ParseUrl(url: Bytes): (r: UrlParts)
    ensures r.host == [] ==> r == UrlParts([], [], [])
  {
    var n := SchemeLength(url);
    if n == 0 then UrlParts([], [], []) else ParseAuthority(url[..n], url[n + 3..])
  }

  /** After `scheme://`: the host is the longest run without `/` or `:`. */
  function ParseAuthority(scheme: Bytes, rest: Bytes): (r: UrlParts)
    ensures r.host == [] ==> r == UrlParts([], [], [])
  {
    var h := Span(rest, IsHostByte);
    if h == 0 then UrlParts([], [], []) else ParsePortPath(scheme, rest[..h], rest[h..])
  }

  /** After the host: an optional `:digits`, then the path part. */
  function ParsePortPath(scheme: Bytes, host: Bytes, afterHost: Bytes): (r: UrlParts)
    requires host != []
    ensures r.host == [] ==> r == UrlParts([], [], [])
  {
    if afterHost != [] && afterHost[0] == ':' then
      var d := Span(afterHost[1..], IsDigit);
      var path := afterHost[1 + d..];
      if d == 0 || !IsPathPart(path) then UrlParts([], [], [])
      else UrlParts(host, afterHost[1..1 + d], if path == [] then "/" else path)
    else if IsPathPart(afterHost) then
      UrlParts(host, if scheme == "https" then "443" else "80", if afterHost == [] then "/" else afterHost)
    else UrlParts([], [], [])
  }

  /** The URL built from a scheme text, a host, an optional explicit port and
      a path part. */
  function Assemble(scheme: Bytes, host: Bytes, port: Option<Bytes>, path: Bytes): Bytes {
    scheme + "://" + host + PortPath(port, path)
  }

  function PortPath(port: Option<Bytes>, path: Bytes): Bytes {
    (if port.Some? then ":" + port.value else []) + path
  }

  predicate IsScheme(scheme: Bytes) {
    Lower(scheme) == "http" || Lower(scheme) == "https"
  }

  predicate IsHost(host: Bytes) {
    |host| > 0 && forall i :: 0 <= i < |host| ==> IsHostByte(host[i])
  }

  predicate IsPort(port: Option<Bytes>) {
    port.Some? ==> |port.value| > 0 && forall i :: 0 <= i < |port.value| ==> IsDigit(port.value[i])
  }

  /** The pieces the pattern accepts. */
  predicate WellFormed(scheme: Bytes, host: Bytes, port: Option<Bytes>, path: Bytes) {
    IsScheme(scheme) && IsHost(host) && IsPort(port) && IsPathPart(path)
  }

  lemma SpanOfPrefix(a: Bytes, b: Bytes, p: char -> bool)
    requires forall i :: 0 <= i < |a| ==> p(a[i])
    requires b == [] || !p(b[0])
    ensures Span(a + b, p) == |a|
    decreases |a|
  {
    if a != [] {
      assert (a + b)[1..] == a[1..] + b;
      SpanOfPrefix(a[1..], b, p);
    }
  }

  lemma SchemeLengthOf(scheme: Bytes, rest: Bytes)
    requires IsScheme(scheme)
    ensures SchemeLength(scheme + "://" + rest) == |scheme|
  {
    var url := scheme + "://" + rest;
    assert url[..|scheme|] == scheme;
    assert url[|scheme|..|scheme| + 3] == "://";
    if |scheme| == 4 {
      assert url[4] == ':';
      assert Lower(url[..5])[4] == ':';
    }
  }

  lemma ParsePortPathOf(scheme: Bytes, host: Bytes, port: Option<Bytes>, path: Bytes)
    requires host != [] && IsPort(port) && IsPathPart(path)
    ensures ParsePortPath(scheme, host, PortPath(port, path))
            == UrlParts(host,
                        if port.Some? then port.value else if scheme == "https" then "443" else "80",
                        if path == [] then "/" else path)
  {
    var tail := PortPath(port, path);
    if port.Some? {
      assert tail[1..] == port.value + path;
      SpanOfPrefix(port.value, path, IsDigit);
      assert tail[1..1 + |port.value|] == port.value;
      assert tail[1 + |port.value|..] == path;
    } else {
      assert tail == path;
    }
  }

  /** Every well-formed URL is split into its own host, its own port or the
      scheme's default, and its own path or `/`. The default port is `443`
      only for the exact scheme text `https`: `HTTPS://` gets `80`. */
  lemma ParseAssembled(scheme: Bytes, host: Bytes, port: Option<Bytes>, path: Bytes)
    requires WellFormed(scheme, host, port, path)
    ensures ParseUrl(Assemble(scheme, host, port, path))
            == UrlParts(host,
                        if port.Some? then port.value else if scheme == "https" then "443" else "80",
                        if path == [] then "/" else path)
  {
    var tail := PortPath(port, path);
    var url := Assemble(scheme, host, port, path);
    assert url == scheme + "://" + (host + tail);
    SchemeLengthOf(scheme, host + tail);
    assert url[..|scheme|] == scheme;
    assert url[|scheme| + 3..] == host + tail;
    assert tail == [] || !IsHostByte(tail[0]);
    SpanOfPrefix(host, tail, IsHostByte);
    assert (host + tail)[..|host|] == host && (host + tail)[|host|..] == tail;
    ParsePortPathOf(scheme, host, port, path);
  }

  /** The port-and-path stage accepts only an optional `:digits` followed
      by a path part. */
  lemma PortPathParsed(scheme: Bytes, host: Bytes, afterHost: Bytes) returns (port: Option<Bytes>, path: Bytes)
    requires host != [] && ParsePortPath(scheme, host, afterHost).host != []
    ensures IsPort(port) && IsPathPart(path)
    ensures afterHost == PortPath(port, path)
  {
    if afterHost != [] && afterHost[0] == ':' {
      var d := Span(afterHost[1..], IsDigit);
      port := Some(afterHost[1..1 + d]);
      path := afterHost[1 + d..];
      assert afterHost == ":" + port.value + path;
    } else {
      port := None;
      path := afterHost;
    }
  }

  /** A recognised scheme is `http` or `https` in any case, followed by `://`. */
  lemma SchemeSplit(url: Bytes)
    requires SchemeLength(url) > 0
    ensures IsScheme(url[..SchemeLength(url)])
    ensures url == url[..SchemeLength(url)] + "://" + url[SchemeLength(url) + 3..]
  {
    var n := SchemeLength(url);
    assert url[n..n + 3] == "://";
  }

  /** Conversely a URL that `parseUrl` splits is a well-formed assembly of
      the host it returns, so the empty result means no match. */
  lemma ParsedIsAssembled(url: Bytes) returns (scheme: Bytes, port: Option<Bytes>, path: Bytes)
    requires ParseUrl(url).host != []
    ensures WellFormed(scheme, ParseUrl(url).host, port, path)
    ensures url == Assemble(scheme, ParseUrl(url).host, port, path)
  {
    var n := SchemeLength(url);
    var rest := url[n + 3..];
    scheme := url[..n];
    SchemeSplit(url);
    var h := Span(rest, IsHostByte);
    var host, afterHost := rest[..h], rest[h..];
    assert rest == host + afterHost;
    assert ParseUrl(url) == ParseAuthority(scheme, rest);
    assert h > 0 && ParseAuthority(scheme, rest) == ParsePortPath(scheme, host, afterHost);
    port, path := PortPathParsed(scheme, host, afterHost);
    assert ParseUrl(url).host == host;
    calc {
      url;
      scheme + "://" + (host + afterHost);
      (scheme + "://" + host) + PortPath(port, path);
    }
  }
}
