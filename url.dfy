/** `getSafeHostname`: a display hostname for any string, never failing. */
module SafeUrl {
  import opened Wrappers
  import opened Text

  /** What the WHATWG URL parser yields; only the hostname is used. */
  datatype Url = Url(hostname: string)

  /** A URL parser: `None` when `new URL(s)` throws. */
  type Parser = string -> Option<Url>

  function GetSafeHostname(url: Option<string>, parse: Parser): (r: string)
    ensures !Present(url) ==> r == "unknown"
    ensures Present(url) && parse(url.value).Some? ==> r == parse(url.value).value.hostname
    ensures Present(url) && parse(url.value).None? && StartsWith(url.value, "http") ==> r == url.value
    ensures Present(url) && parse(url.value).None? && !StartsWith(url.value, "http") ==>
              match parse("https://" + url.value)
              case Some(u) => r == u.hostname
              case None =>
                var head := BeforeFirst(url.value, '/');
                r == (if head == "" then "invalid url" else head)
  {
    if !Present(url) then "unknown"
    else
      var s := url.value;
      match parse(s)
      case Some(u) => u.hostname
      case None =>
        if StartsWith(s, "http") then s
        else
          match parse("https://" + s)
          case Some(u) => u.hostname
          case None =>
            var head := BeforeFirst(s, '/');
            if head == "" then "invalid url" else head
  }

  /** When neither parse succeeds, an input starting with '/' yields
      "invalid url", and any other yields its non-empty first path segment. */
  lemma FallbackSegment(s: string, parse: Parser)
    requires s != "" && parse(s).None? && !StartsWith(s, "http") && parse("https://" + s).None?
    ensures s[0] == '/' ==> GetSafeHostname(Some(s), parse) == "invalid url"
    ensures s[0] != '/' ==>
              var r := GetSafeHostname(Some(s), parse);
              r != "" && StartsWith(s, r) && '/' !in r
  {
    var head := BeforeFirst(s, '/');
    assert head == "" <==> s[0] == '/';
  }

  /** A string with no '/' is its own first path segment. */
  lemma BeforeFirstAbsent(s: string, c: char)
    requires c !in s
    ensures BeforeFirst(s, c) == s
  {
  }

  /** A bare domain that the parser only accepts with a scheme yields that
      domain as the hostname. */
  lemma BareDomain(parse: Parser)
    requires parse("example.com").None?
    requires parse("https://example.com") == Some(Url("example.com"))
    ensures GetSafeHostname(Some("example.com"), parse) == "example.com"
  {
    assert "example.com"[..4][0] != "http"[0];
    assert "https://" + "example.com" == "https://example.com";
  }

  /** Free text that no parse accepts comes back unchanged, not as a
      sentinel: it has no '/' to cut at. */
  lemma FreeTextKept(parse: Parser)
    requires parse("not a url at all").None?
    requires parse("https://not a url at all").None?
    ensures GetSafeHostname(Some("not a url at all"), parse) == "not a url at all"
  {
    var s := "not a url at all";
    assert s[..4][0] != "http"[0];
    assert "https://" + s == "https://not a url at all";
    BeforeFirstAbsent(s, '/');
  }
}
