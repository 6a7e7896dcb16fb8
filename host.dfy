/**
 * The domain a request is matched against: the Host header with any port
 * cut off, or the host of the request URI when there is no Host header.
 */
module Host {
  import opened Wrappers
  import opened Text

  /**
   * The request domain. A null or empty header falls back to uriHost; a
   * header whose first ':' stands after position 0 is cut at that ':';
   * any other header is used as it is.
   */
  function RequestDomain(hostHeader: Option<string>, uriHost: string): (r: string)
    ensures hostHeader.Some? && hostHeader.value != "" ==> r <= hostHeader.value
  {
    match hostHeader
    case None => uriHost
    case Some(h) =>
      if h == "" then uriHost
      else
        var colon := IndexOf(h, ':');
        if colon > 0 then h[..colon] else h
  }

  /**
   * What the request domain is: the URI host when the header is missing
   * or empty; otherwise the part of the header before its first ':' when
   * that ':' is not the first character, and the whole header when it is
   * or when there is no ':'.
   */
  lemma RequestDomainOf(hostHeader: Option<string>, uriHost: string)
    ensures var r := RequestDomain(hostHeader, uriHost);
      (hostHeader.None? || hostHeader.value == "" ==> r == uriHost)
      && (hostHeader.Some? && hostHeader.value != "" ==>
        var h := hostHeader.value;
        if ':' in h && h[0] != ':' then
          0 < |r| < |h| && r == h[..|r|] && h[|r|] == ':' && ':' !in r
        else
          r == h)
  {
  }

  /** A port after the host name is ignored: "acme.auth10.com:8080" is matched as "acme.auth10.com". */
  lemma PortIgnored(host: string, port: string, uriHost: string)
    requires host != "" && ':' !in host
    ensures RequestDomain(Some(host + ":" + port), uriHost) == host
    ensures RequestDomain(Some(host), uriHost) == host
  {
    var h := host + ":" + port;
    assert h[|host|] == ':';
  }

  /** A header that starts with ':' is not cut at all, even when it has a port. */
  lemma LeadingColonKept(h: string, uriHost: string)
    requires h != "" && h[0] == ':'
    ensures RequestDomain(Some(h), uriHost) == h
  {
  }
}
