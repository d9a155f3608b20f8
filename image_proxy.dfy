/**
 * Rewriting of Reddit image URLs so that they go through the site's own image
 * route: `getProxiedImageUrl` and `getProxiedImageUrls`. `null` and
 * `undefined` are both `None`.
 */
module ImageProxy {
  import opened JsString
  import opened JsArray

  const ProxyPrefix: string := "/api/images?url="

  // ---------------------------------------------------------------------------
  // encodeURIComponent

  /** The characters `encodeURIComponent` leaves as they are. */
  predicate Unreserved(c: char)
  {
    ('A' <= c <= 'Z') || ('a' <= c <= 'z') || ('0' <= c <= '9') ||
    c == '-' || c == '_' || c == '.' || c == '!' || c == '~' || c == '*' || c == '\'' || c == '(' || c == ')'
  }

  /** The UTF-8 encoding of one Unicode scalar value. */
  function Utf8(c: char): (bytes: seq<int>)
    ensures 1 <= |bytes| <= 4
    ensures forall i :: 0 <= i < |bytes| ==> 0 <= bytes[i] < 256
  {
    var cp := c as int;
    if cp < 0x80 then [cp]
    else if cp < 0x800 then [0xC0 + cp / 64, 0x80 + cp % 64]
    else if cp < 0x10000 then [0xE0 + cp / 4096, 0x80 + (cp / 64) % 64, 0x80 + cp % 64]
    else [0xF0 + cp / 262144, 0x80 + (cp / 4096) % 64, 0x80 + (cp / 64) % 64, 0x80 + cp % 64]
  }

  const HexDigits: string := "0123456789ABCDEF"

  predicate IsHexDigit(c: char)
  {
    ('0' <= c <= '9') || ('A' <= c <= 'F')
  }

  /** `%XX` with upper-case hexadecimal digits. */
  function PercentByte(b: int): (r: string)
    requires 0 <= b < 256
    ensures |r| == 3 && r[0] == '%' && IsHexDigit(r[1]) && IsHexDigit(r[2])
  {
    ['%', HexDigits[b / 16], HexDigits[b % 16]]
  }

  function PercentBytes(bytes: seq<int>): string
    requires forall i :: 0 <= i < |bytes| ==> 0 <= bytes[i] < 256
  {
    if bytes == [] then [] else PercentByte(bytes[0]) + PercentBytes(bytes[1..])
  }

  /** `encodeURIComponent`: unreserved characters kept, every other character as the `%XX` of its UTF-8 bytes. */
  function EncodeUriComponent(s: string): string
  {
    if s == [] then []
    else (if Unreserved(s[0]) then [s[0]] else PercentBytes(Utf8(s[0]))) + EncodeUriComponent(s[1..])
  }

  /** Well-formed percent-encoded text: unreserved characters and `%XX` triples only. */
  predicate WellEncoded(r: string)
    decreases |r|
  {
    r == [] ||
    (Unreserved(r[0]) && WellEncoded(r[1..])) ||
    (|r| >= 3 && r[0] == '%' && IsHexDigit(r[1]) && IsHexDigit(r[2]) && WellEncoded(r[3..]))
  }

  lemma {:induction false} WellEncodedAppend(a: string, b: string)
    requires WellEncoded(a) && WellEncoded(b)
    ensures WellEncoded(a + b)
    decreases |a|
  {
    if a == [] {
      assert a + b == b;
    } else {
      assert (a + b)[0] == a[0];
      if Unreserved(a[0]) && WellEncoded(a[1..]) {
        assert (a + b)[1..] == a[1..] + b;
        WellEncodedAppend(a[1..], b);
      } else {
        assert (a + b)[1] == a[1] && (a + b)[2] == a[2];
        assert (a + b)[3..] == a[3..] + b;
        WellEncodedAppend(a[3..], b);
      }
    }
  }

  lemma {:induction false} PercentBytesWellEncoded(bytes: seq<int>)
    requires forall i :: 0 <= i < |bytes| ==> 0 <= bytes[i] < 256
    ensures WellEncoded(PercentBytes(bytes))
    ensures |PercentBytes(bytes)| == 3 * |bytes|
  {
    if bytes != [] {
      var p := PercentByte(bytes[0]);
      PercentBytesWellEncoded(bytes[1..]);
      assert p[3..] == [];
      assert WellEncoded(p);
      WellEncodedAppend(p, PercentBytes(bytes[1..]));
    }
  }

  /** The output of `encodeURIComponent` is well-formed percent-encoding. */
  lemma {:induction false} EncodeWellFormed(s: string)
    ensures WellEncoded(EncodeUriComponent(s))
  {
    if s != [] {
      var head := if Unreserved(s[0]) then [s[0]] else PercentBytes(Utf8(s[0]));
      if Unreserved(s[0]) {
        assert head[1..] == [];
      } else {
        PercentBytesWellEncoded(Utf8(s[0]));
      }
      EncodeWellFormed(s[1..]);
      WellEncodedAppend(head, EncodeUriComponent(s[1..]));
    }
  }

  /** Encoding leaves a string unchanged exactly when every character is unreserved. */
  lemma {:induction false} EncodeIdentity(s: string)
    ensures |EncodeUriComponent(s)| >= |s|
    ensures EncodeUriComponent(s) == s <==> forall i :: 0 <= i < |s| ==> Unreserved(s[i])
  {
    if s != [] {
      EncodeIdentity(s[1..]);
      if !Unreserved(s[0]) {
        PercentBytesWellEncoded(Utf8(s[0]));
      }
      assert forall i :: 1 <= i < |s| ==> s[i] == s[1..][i - 1];
    }
  }

  // ---------------------------------------------------------------------------
  // getProxiedImageUrl

  /** The HTML-entity clean-up: `&amp;` first, then `&lt; &gt; &quot; &#x27;`. */
  function DecodeEntities(url: string): string
  {
    var amp := ReplaceAll(url, "&amp;", "&");
    var lt := ReplaceAll(amp, "&lt;", "<");
    var gt := ReplaceAll(lt, "&gt;", ">");
    var quot := ReplaceAll(gt, "&quot;", "\"");
    ReplaceAll(quot, "&#x27;", "'")
  }

  /** `getProxiedImageUrl`; a missing or empty URL gives `None` (`null`). */
  function ProxiedImageUrl(originalUrl: Option<string>): Option<string>
  {
    if originalUrl.None? || originalUrl.value == "" then None
    else if Contains(originalUrl.value, ProxyPrefix) then originalUrl
    else Some(ProxyPrefix + EncodeUriComponent(DecodeEntities(originalUrl.value)))
  }

  /** `getProxiedImageUrls`: the same rewrite applied to each URL. */
  function ProxiedImageUrls(urls: seq<Option<string>>): (r: seq<Option<string>>)
    ensures |r| == |urls|
    ensures forall i :: 0 <= i < |urls| ==> r[i] == ProxiedImageUrl(urls[i])
  {
    Map(urls, ProxiedImageUrl)
  }

  /**
   * `null`, `undefined` and `''` give `null`; any other URL gives a URL,
   * unchanged when already proxied, and otherwise the proxy route with the
   * decoded URL as a well-formed percent-encoded parameter.
   */
  lemma ProxiedImageUrlSpec(u: Option<string>)
    ensures ProxiedImageUrl(u).None? <==> u.None? || u.value == ""
    ensures u.Some? && Contains(u.value, ProxyPrefix) ==> ProxiedImageUrl(u) == u
    ensures u.Some? && u.value != "" && !Contains(u.value, ProxyPrefix) ==>
      var r := ProxiedImageUrl(u).value;
      && ProxyPrefix <= r
      && r[|ProxyPrefix|..] == EncodeUriComponent(DecodeEntities(u.value))
      && WellEncoded(r[|ProxyPrefix|..])
  {
    if u.Some? && u.value != "" && !Contains(u.value, ProxyPrefix) {
      var e := EncodeUriComponent(DecodeEntities(u.value));
      EncodeWellFormed(DecodeEntities(u.value));
      assert (ProxyPrefix + e)[|ProxyPrefix|..] == e;
    }
  }

  /** Proxying a proxied URL changes nothing. */
  lemma ProxiedImageUrlIdempotent(u: Option<string>)
    ensures ProxiedImageUrl(ProxiedImageUrl(u)) == ProxiedImageUrl(u)
  {
    var r := ProxiedImageUrl(u);
    if r.Some? && r != u {
      var e := EncodeUriComponent(DecodeEntities(u.value));
      ContainsPrefix(ProxyPrefix, e);
    }
  }

  /** A URL without `&` has no entities to decode. */
  lemma DecodeNoAmp(url: string)
    requires '&' !in url
    ensures DecodeEntities(url) == url
  {
    ReplaceSkip(url, [], "&amp;", "&");
    ReplaceSkip(url, [], "&lt;", "<");
    ReplaceSkip(url, [], "&gt;", ">");
    ReplaceSkip(url, [], "&quot;", "\"");
    ReplaceSkip(url, [], "&#x27;", "'");
    assert url + [] == url;
  }

  /** The decoding is not a single pass: `&amp;lt;` becomes `&lt;` and then `<`. */
  lemma DoubleEscapedDecodes()
    ensures DecodeEntities("&amp;lt;") == "<"
  {
    var s := "&amp;lt;";
    assert "&amp;" <= s;
    assert s[5..] == "lt;";
    ReplaceSkip("lt;", [], "&amp;", "&");
    assert "lt;" + [] == "lt;";
    var amp := ReplaceAll(s, "&amp;", "&");
    assert amp == "&lt;";
    assert "&lt;" <= amp && amp[4..] == [];
    var lt := ReplaceAll(amp, "&lt;", "<");
    assert lt == "<";
    DecodeNoAmp("<");
    ReplaceSkip("<", [], "&gt;", ">");
    ReplaceSkip("<", [], "&quot;", "\"");
    ReplaceSkip("<", [], "&#x27;", "'");
    assert "<" + [] == "<";
  }
}
