/**
 * The route itself: a Web API route that matches the request's host
 * against a domain template as well as its path against a route template,
 * and that strips the domain's tokens from the route values before an
 * outgoing URL is built.
 */
module DomainRoute {
  import opened Wrappers
  import opened Host
  import opened Template
  import opened RouteData
  import opened DomainTokens

  /** The route-value dictionary the framework passes by reference and the route edits in place. */
  class RouteValueDictionary {
    var entries: RouteValues

    constructor (entries: RouteValues)
      ensures this.entries == entries
    {
      this.entries := entries;
    }
  }

  /**
   * The path a request is matched against: the application-relative path
   * without its leading "~/", followed by the extra path information.
   */
  function RequestPath(appRelativePath: string, pathInfo: string): (r: string)
    requires |appRelativePath| >= 2
    ensures appRelativePath[..2] + r == appRelativePath + pathInfo
  {
    appRelativePath[2..] + pathInfo
  }

  class HttpDomainRoute {
    /** The domain template, such as "{tenant}.auth10.com". */
    var Domain: string
    /** The path template, such as "test". */
    const RouteTemplate: string
    /** The default route values. */
    const Defaults: RouteValues
    /** The compiled domain and path patterns, built anew by every GetRouteData; None until then. */
    var domainRegex: Option<string>
    var pathRegex: Option<string>

    constructor (domain: string, routeTemplate: string, defaults: RouteValues)
      ensures Domain == domain && RouteTemplate == routeTemplate && Defaults == defaults
      ensures domainRegex == None && pathRegex == None
    {
      Domain := domain;
      RouteTemplate := routeTemplate;
      Defaults := defaults;
      domainRegex := None;
      pathRegex := None;
    }

    /**
     * Matches a request: compiles both templates, matches the request
     * domain against the domain pattern and the request path against the
     * path pattern with engine, and builds the route values when both
     * match (None otherwise).
     */
    method GetRouteData(hostHeader: Option<string>, uriHost: string, requestPath: string,
                        engine: (string, string) -> RegexMatch)
      returns (data: Option<RouteValues>)
      modifies this`domainRegex, this`pathRegex
      ensures domainRegex == Some(CreateRegex(Domain)) && pathRegex == Some(CreateRegex(RouteTemplate))
      ensures data == Merge(Defaults,
                            engine(CreateRegex(Domain), RequestDomain(hostHeader, uriHost)),
                            engine(CreateRegex(RouteTemplate), requestPath))
    {
      var domainPattern := CreateRegex(Domain);
      var pathPattern := CreateRegex(RouteTemplate);
      domainRegex := Some(domainPattern);
      pathRegex := Some(pathPattern);

      var requestDomain := RequestDomain(hostHeader, uriHost);
      var domainMatch := engine(domainPattern, requestDomain);
      var pathMatch := engine(pathPattern, requestPath);
      data := MergeRouteValues(Defaults, domainMatch, pathMatch);
    }

    /**
     * Removes from values, in place, the key of every group the token regex
     * finds in the domain template, and returns the same dictionary.
     */
    method RemoveDomainTokens(values: RouteValueDictionary) returns (r: RouteValueDictionary)
      modifies values
      ensures r == values
      ensures values.entries == old(values.entries) - TokenKeys(Domain)
    {
      var groups := TokenGroups(Domain);
      RemoveGroupKeys(values, groups);
      r := values;
    }

    /**
     * Builds an outgoing URL: the domain's tokens are removed from values
     * (in place, so the caller sees it) and the rest is handed to the
     * framework's own path builder, basePath.
     */
    method GetVirtualPath(values: RouteValueDictionary, basePath: RouteValues -> Option<string>)
      returns (path: Option<string>)
      modifies values
      ensures values.entries == old(values.entries) - TokenKeys(Domain)
      ensures path == basePath(old(values.entries) - TokenKeys(Domain))
    {
      var stripped := RemoveDomainTokens(values);
      path := basePath(stripped.entries);
    }
  }

  /** Removing one more key from a dictionary the keys a were removed from. */
  lemma RemoveOneMore(m: RouteValues, a: set<string>, k: string)
    ensures (m - a) - {k} == m - (a + {k})
    ensures k !in m - a ==> m - a == m - (a + {k})
  {
  }

  /**
   * The loop of RemoveDomainTokens: for each group of the token match, in
   * order, the group's key is removed from values when the group succeeded
   * and values holds that key.
   */
  method RemoveGroupKeys(values: RouteValueDictionary, groups: seq<Option<string>>)
    modifies values
    ensures values.entries == old(values.entries) - KeysOf(groups)
  {
    for i := 0 to |groups|
      invariant values.entries == old(values.entries) - KeysOf(groups[..i])
    {
      KeysOfPrefix(groups, i);
      var group := groups[i];
      if group.Some? {
        var key := StripBraces(group.value);
        RemoveOneMore(old(values.entries), KeysOf(groups[..i]), key);
        if key in values.entries {
          values.entries := values.entries - {key};
        }
      }
    }
    assert groups[..|groups|] == groups;
  }
}
