# HttpDomainRoute, modelled in Dafny

`HttpDomainRoute` is an ASP.NET Web API route for multi-tenant sites. It
matches the request's host against a domain template such as
`{tenant}.auth10.com`, and it matches the request path against an ordinary
route template. When both match, it merges the route defaults, then the
domain captures, then the path captures into one route-value dictionary.
Before an outgoing URL is built, it removes the domain template's
placeholders from the caller's route values.

The project models the four parts of that class:

- `host.dfy`: the host normalisation. The Host header is cut at its first
  `:` when that colon is not the first character. A missing or empty header
  falls back to the request URI's host.
- `template.dfy`: `CreateRegex` as the five replace-all steps and the `^…$`
  anchors. The same file also reads a template as tokens (literal,
  optional separator, named placeholder) and proves that the rewrite
  produces the regex text of those tokens. `matching.dfy` states what that
  regex accepts, as a relation between tokens, an input and the captures
  the engine reports.
- `route_data.dfy`: the merge in `GetRouteData`, as a method with its three
  loops, proved against the function `Merge`. It also describes which
  groups the .NET engine reports for a compiled template: group 0, the
  unnamed inner groups, then the named groups. From that it proves which
  value each key ends up with.
- `domain_tokens.dfy`: the fixed twelve-group token regex that
  `RemoveDomainTokens` runs over the domain template. Every part of that
  regex can match the empty string, so the engine's first, greedy path
  succeeds at index 0 and is modelled exactly. `domain_route.dfy` holds the
  route class itself, with `GetRouteData`, `RemoveDomainTokens` (an in-place
  edit of a dictionary object) and `GetVirtualPath`.

The regex engine is a parameter of `GetRouteData`: a function from pattern
text and input to the match it reports. The framework's own path builder is
a parameter of `GetVirtualPath`.

A host that is only the literal part of the domain template is accepted.
The placeholder's group is `([a-zA-Z0-9_-]*)` and each separator is
optional, so the host `auth10.com` matches `{tenant}.auth10.com`: `tenant`
captures the empty string, and the merge then leaves it out
(`RouteData.EmptyPlaceholderMatches`). The code validates no template:
`CreateRegex` rewrites any text, and only the token reading
(`Template.Tokenize`) returns None for a template it cannot split.

## Model

| member | source | states |
|---|---|---|
| Host.RequestDomain | TestApiWithSubdomains/App_Start/WebApiConfig.cs:51-62 | For a non-empty Host header, the domain is a prefix of the header. |
| Host.RequestDomainOf | TestApiWithSubdomains/App_Start/WebApiConfig.cs:51-62 | A null or empty Host header gives the URI host. A header whose first `:` is after index 0 gives the non-empty part before that colon, which contains no colon. Any other header is returned unchanged. |
| Host.PortIgnored | TestApiWithSubdomains/App_Start/WebApiConfig.cs:54-57 | `host:port` and `host` normalise to the same domain, for any host without a colon. |
| Host.LeadingColonKept | TestApiWithSubdomains/App_Start/WebApiConfig.cs:54 | A header that starts with `:` is not cut, even when it has a port. |
| Text.IndexOf | TestApiWithSubdomains/App_Start/WebApiConfig.cs:54-56 | -1 exactly when the character is absent; otherwise an index holding the character with no earlier occurrence. |
| Text.Replace | TestApiWithSubdomains/App_Start/WebApiConfig.cs:134-138 | Replace-all leaves a text without the character unchanged, and no occurrence survives when the replacement lacks it. |
| Text.ReplaceAppend | TestApiWithSubdomains/App_Start/WebApiConfig.cs:134-138 | Replace-all distributes over concatenation. |
| Template.CreateRegex | TestApiWithSubdomains/App_Start/WebApiConfig.cs:131-141 | The pattern starts with `^`, ends with `$`, and keeps no `{` or `}`. |
| Template.Rewrite | TestApiWithSubdomains/App_Start/WebApiConfig.cs:133-138 | After the five replace-all steps no brace is left. The `}` step does not reintroduce a `{`. |
| Template.LiteralTemplate | TestApiWithSubdomains/App_Start/WebApiConfig.cs:131-140 | A template with no separator and no brace compiles to itself, anchored. |
| Template.RewriteChar | TestApiWithSubdomains/App_Start/WebApiConfig.cs:134-138 | The five steps, in order, turn `/`, `.`, `-`, `{` and `}` into `\/?`, `\.?`, `\-?`, `(?<` and `>([a-zA-Z0-9_-]*))`, and leave any other character as it is. |
| Template.RewritePlaceholder | TestApiWithSubdomains/App_Start/WebApiConfig.cs:137-138 | `{name}` becomes the named group `(?<name>([a-zA-Z0-9_-]*))`. |
| Template.Tokenize | TestApiWithSubdomains/App_Start/WebApiConfig.cs:134-138 | A successful split gives well-formed tokens whose text is the template again. |
| Template.TokenizeRender | TestApiWithSubdomains/App_Start/WebApiConfig.cs:134-138 | Splitting the text of well-formed tokens gives those tokens back. |
| Template.RewriteRender | TestApiWithSubdomains/App_Start/WebApiConfig.cs:134-138 | The rewrite of a token sequence's text is the concatenated regex text of its tokens. |
| Template.CreateRegexOfTokens | TestApiWithSubdomains/App_Start/WebApiConfig.cs:131-141 | The compiled pattern of any template that splits into tokens is `^`, the tokens' regex text, then `$`. |
| Matching.Matches | TestApiWithSubdomains/App_Start/WebApiConfig.cs:134-140 | The anchored pattern of a token sequence matches the whole input exactly: each literal present, each separator present or absent, each placeholder a possibly empty run of `[a-zA-Z0-9_-]` captured under its name. |
| Matching.FillMatches | TestApiWithSubdomains/App_Start/WebApiConfig.cs:134-138 | Every filling of a template matches it: any subset of the separators may be present, and each placeholder may take any run of `[a-zA-Z0-9_-]`, the empty run included. |
| Matching.MatchIsFill | TestApiWithSubdomains/App_Start/WebApiConfig.cs:134-138 | Every input the anchored pattern matches exactly is such a filling, built from its own captures. So the two relations agree. |
| Matching.Accepts | TestApiWithSubdomains/App_Start/WebApiConfig.cs:140 | What `Regex.Match` accepts for a `^…$` pattern: an exact match, or an exact match followed by one final newline, which .NET's `$` also allows. |
| Matching.FillAccepted | TestApiWithSubdomains/App_Start/WebApiConfig.cs:134-140 | Every filling is accepted, both on its own and followed by one newline. |
| Matching.AcceptedIsFill | TestApiWithSubdomains/App_Start/WebApiConfig.cs:134-140 | Every accepted input is a filling built from its own captures, possibly followed by one newline. |
| Matching.AcceptedCaptures | TestApiWithSubdomains/App_Start/WebApiConfig.cs:137-138 | An accepted input has one capture per placeholder, in template order, under the placeholder's name, each a run of `[a-zA-Z0-9_-]`. |
| Matching.CapturesFollowPlaceholders | TestApiWithSubdomains/App_Start/WebApiConfig.cs:137-138 | A match has one capture per placeholder, in template order, under the placeholder's name, and each is a run of `[a-zA-Z0-9_-]`. |
| Matching.LiteralsExact | TestApiWithSubdomains/App_Start/WebApiConfig.cs:134-140 | Matched exactly, a template of literals only matches its own text, with no captures, and nothing else. |
| Matching.LiteralsAccepted | TestApiWithSubdomains/App_Start/WebApiConfig.cs:134-140 | The engine accepts a template of literals only on its own text or that text plus one newline, with no captures, and on nothing else. |
| Matching.FixedWeight | TestApiWithSubdomains/App_Start/WebApiConfig.cs:134-136 | A template without placeholders captures nothing, and every input it matches has exactly as many non-separator characters as the template has literals. |
| RouteData.Merge | TestApiWithSubdomains/App_Start/WebApiConfig.cs:72-73 | There is route data exactly when both the domain match and the path match succeed. |
| RouteData.MergeRouteValues | TestApiWithSubdomains/App_Start/WebApiConfig.cs:72-123 | The three loops (defaults, domain groups from 1, path groups from 1) compute `Merge`. |
| RouteData.ApplyGroupsAt | TestApiWithSubdomains/App_Start/WebApiConfig.cs:87-100 | After the groups are written, a key holds its last contributing group's text, otherwise its earlier value. |
| RouteData.MergeAt | TestApiWithSubdomains/App_Start/WebApiConfig.cs:78-120 | Each key takes the value of the last numbered path group under that name that is written (it succeeded, its name is non-empty and does not start with a digit, and its value is non-empty), else that of the last such domain group, else the default. With none of these it is absent. |
| RouteData.Contributes | TestApiWithSubdomains/App_Start/WebApiConfig.cs:90-98 | A group is written only when it succeeded, its name is neither empty nor digit-led, and its text is not empty. |
| RouteData.ApplyGroups | TestApiWithSubdomains/App_Start/WebApiConfig.cs:87-120 | Writing the groups never removes a key. |
| RouteData.IgnoredGroups | TestApiWithSubdomains/App_Start/WebApiConfig.cs:87-120 | Whatever group 0 of either match holds, the result is the same. A group that failed, has an empty or digit-led name, or captured nothing changes nothing wherever it stands among the numbered groups of either match. |
| RouteData.SkipGroup | TestApiWithSubdomains/App_Start/WebApiConfig.cs:87-100 | A non-contributing group anywhere in a run of groups can be left out without changing the values written. |
| RouteData.EngineMatch | TestApiWithSubdomains/App_Start/WebApiConfig.cs:68-118 | The reported match succeeds and has group 0 holding the input, then two groups per placeholder. |
| RouteData.NumberName | TestApiWithSubdomains/App_Start/WebApiConfig.cs:92-94 | The name of an unnamed group is its number's decimal text, which starts with a digit. |
| RouteData.InnerGroupsSkipped | TestApiWithSubdomains/App_Start/WebApiConfig.cs:92-94 | The unnamed `([a-zA-Z0-9_-]*)` groups inside each placeholder never write a value. |
| RouteData.NamedGroupsCapture | TestApiWithSubdomains/App_Start/WebApiConfig.cs:92-98 | The named groups write exactly the last non-empty capture of each name. |
| RouteData.EngineMatchCaptures | TestApiWithSubdomains/App_Start/WebApiConfig.cs:87-118 | For a template with distinct placeholder names that accepted the input, the groups the merge visits give each key its last non-empty capture. |
| RouteData.RouteValuesOfMatch | TestApiWithSubdomains/App_Start/WebApiConfig.cs:68-120 | When the engine accepts host and path for their templates, each with distinct placeholder names, each key is the path's last non-empty capture, else the domain's last non-empty capture, else the default. |
| RouteData.SubdomainCaptured | TestApiWithSubdomains/App_Start/WebApiConfig.cs:68-98 | For `{n}` then a dot or slash then a part without placeholders, a host `v.rest` is accepted with capture `v` and with no other capture (when `v` does not end with `-` and the host does not end with a newline), and `n` takes `v` unless the path captured `n`. |
| RouteData.SubdomainUnique | TestApiWithSubdomains/App_Start/WebApiConfig.cs:137-138 | The only capture the engine can report for such a host is `v`. |
| RouteData.EmptyPlaceholderMatches | TestApiWithSubdomains/App_Start/WebApiConfig.cs:68-98 | A host `rest` is also accepted for `{n}.rest`, with an empty capture and no other (when `rest` neither starts with `-` nor ends with a newline). The empty capture is not written, so `n` takes the path's non-empty capture if the path captured `n`, and otherwise keeps its default or stays absent. |
| RouteData.BareDomainUnique | TestApiWithSubdomains/App_Start/WebApiConfig.cs:137-138 | The only capture the engine can report for such a host is the empty one. |
| DomainTokens.BraceTokenLength | TestApiWithSubdomains/App_Start/WebApiConfig.cs:145 | A `{[a-zA-Z0-9_-]*}` token at the start of the text: its length is 0, or it starts with `{`, ends with `}` and holds capture characters only. |
| DomainTokens.RepeatTokens | TestApiWithSubdomains/App_Start/WebApiConfig.cs:145 | A starred group succeeds exactly when it consumed something, and it never consumes more than the text. |
| DomainTokens.SepLength | TestApiWithSubdomains/App_Start/WebApiConfig.cs:145 | `-?\.?\/?` consumes at most three characters. |
| DomainTokens.ScanGroups | TestApiWithSubdomains/App_Start/WebApiConfig.cs:145-146 | The repeated parts report one group each and consume no more than the text. |
| DomainTokens.TokenGroups | TestApiWithSubdomains/App_Start/WebApiConfig.cs:145-146 | The token match always succeeds at index 0 and reports thirteen groups: group 0 and the twelve repeated groups. |
| DomainTokens.StripBraces | TestApiWithSubdomains/App_Start/WebApiConfig.cs:152 | The key has no braces left. |
| DomainTokens.StripBracesOfToken | TestApiWithSubdomains/App_Start/WebApiConfig.cs:152 | The key of `{name}` is `name`. |
| DomainTokens.TokenKeys | TestApiWithSubdomains/App_Start/WebApiConfig.cs:147-155 | At most thirteen keys are removed, one per group. |
| DomainTokens.ScanStuck | TestApiWithSubdomains/App_Start/WebApiConfig.cs:145-146 | From a character that is neither a brace nor a separator, no group succeeds and nothing is consumed. |
| DomainTokens.LeadingLiteralHidesTokens | TestApiWithSubdomains/App_Start/WebApiConfig.cs:145-155 | A domain template that starts with a literal, such as `api.{tenant}.com`, yields only the empty key. None of its placeholders is removed. |
| DomainTokens.ScanSegments | TestApiWithSubdomains/App_Start/WebApiConfig.cs:145-146 | A leading run of `{name}` tokens, each followed by one separator, fills the groups in order, one token per group. |
| DomainTokens.LeadingPlaceholdersFound | TestApiWithSubdomains/App_Start/WebApiConfig.cs:145-155 | Every placeholder in such a leading run of at most twelve is removed. |
| DomainTokens.ScanRun | TestApiWithSubdomains/App_Start/WebApiConfig.cs:145-146 | A leading run of `{name}`-plus-separator segments, then a character that is neither a brace nor a separator (or the end), fills one group per segment in order, is consumed whole, and every group after it fails. |
| DomainTokens.LeadingRunKeys | TestApiWithSubdomains/App_Start/WebApiConfig.cs:145-155 | For such a run of at most twelve placeholders, the keys removed are exactly the run's names and the run itself with its braces stripped (group 0); a placeholder after the first literal character is never removed. |
| DomainTokens.OnePlaceholderKeys | TestApiWithSubdomains/App_Start/WebApiConfig.cs:145-155 | For `{name}` plus a separator plus literal text, as in `{tenant}.auth10.com`, exactly `name` and `name` followed by the separator (`tenant.`) are removed. |
| DomainTokens.TooManyPlaceholders | TestApiWithSubdomains/App_Start/WebApiConfig.cs:145-155 | Of more than thirteen distinct names, at least one is never removed. |
| DomainTokens.ScanSegmentsLength | TestApiWithSubdomains/App_Start/WebApiConfig.cs:145-146 | Twelve leading `{name}` tokens, each followed by one separator, are consumed whole by the twelve parts. |
| DomainTokens.ThirteenthPlaceholderKept | TestApiWithSubdomains/App_Start/WebApiConfig.cs:145-155 | After twelve leading placeholders each followed by one separator, a thirteenth placeholder with a new name is not removed (when the twelfth separator is `.` or `/`), while the twelve are. |
| DomainRoute.RequestPath | TestApiWithSubdomains/App_Start/WebApiConfig.cs:65 | The request path is the application-relative path after its first two characters, followed by the path info. |
| DomainRoute.HttpDomainRoute.constructor | TestApiWithSubdomains/App_Start/WebApiConfig.cs:36-40 | The route keeps its domain template, path template and defaults, and has no compiled patterns yet. |
| DomainRoute.HttpDomainRoute.GetRouteData | TestApiWithSubdomains/App_Start/WebApiConfig.cs:44-124 | Both patterns are recompiled into the route's fields. The result is `Merge` of the defaults, the domain pattern's match on the normalised host, and the path pattern's match on the path. |
| DomainRoute.HttpDomainRoute.RemoveDomainTokens | TestApiWithSubdomains/App_Start/WebApiConfig.cs:143-159 | The caller's dictionary loses exactly the token keys of the domain template. Every other entry keeps its value. The same object is returned. |
| DomainRoute.RemoveGroupKeys | TestApiWithSubdomains/App_Start/WebApiConfig.cs:147-156 | The loop over the groups removes the key of every successful group that the dictionary holds, and nothing else. |
| DomainRoute.HttpDomainRoute.GetVirtualPath | TestApiWithSubdomains/App_Start/WebApiConfig.cs:126-129 | The caller's values lose the domain's token keys, and the framework's path builder sees exactly the remaining values. |

## Left out

- `WebApiConfig.Register` (route-table registration) is configuration through the framework. The registered route `{tenant}.auth10.com` appears only as the shape that `DomainTokens.OnePlaceholderKeys`, `RouteData.SubdomainCaptured` and `RouteData.EmptyPlaceholderMatches` describe.
- DomainRoute.HttpDomainRoute.GetRouteData: takes the request path as an input. `HttpContext.Current` is ambient ASP.NET state. `DomainRoute.RequestPath` states how the path is formed from it.
- The .NET regex engine is a parameter. `RouteData.EngineMatch` and `Matching.Accepts` describe what it reports for a template that splits into tokens with distinct placeholder names. Which of several possible capture assignments the backtracking engine picks is left open in general: any assignment the relation allows is covered. `RouteData.SubdomainUnique` and `RouteData.BareDomainUnique` show that for the registered shape there is only one.
- Template.CreateRegex: yields pattern text for every template. For a template whose rewrite is not a valid .NET pattern (an unbalanced brace as in `{tenant`, or a name that starts with a digit as in `{1a}`), the `Regex` constructor throws `ArgumentException`, and so does `GetRouteData`. The model does not capture that exception.
- DomainRoute.HttpDomainRoute.GetRouteData: compiles every template to pattern text and hands it to the engine, so it returns a result where the source throws for an invalid pattern (see the line above). Templates that do not split into tokens, because of regex metacharacters, unbalanced braces or names outside `[A-Za-z0-9_]+`, get no statement about what they match.
- RouteData.SubdomainCaptured: a subdomain ending in `-` can be split between the capture and a `-` separator in more than one way, and which split the engine picks is not modelled; the lemma leaves those hosts out, and hosts ending in a newline too.
- RouteData.EmptyPlaceholderMatches: for a host starting with `-` the capture may take that `-` instead of a `-` separator; the lemma leaves those hosts out, and hosts ending in a newline too.
- RouteData.Merge: keys are compared as exact strings. The source writes into `HttpRouteValueDictionary`, whose keys are compared case-insensitively, so `Tenant` and `tenant` would share one entry there.
- RouteData.MergeRouteValues: the same exact-string key comparison as `RouteData.Merge`.
- DomainRoute.HttpDomainRoute.RemoveDomainTokens: `ContainsKey` and `Remove` are modelled with exact-string keys. When the caller's dictionary is an `HttpRouteValueDictionary`, the source removes keys case-insensitively.
- Host.RequestDomain: `IndexOf(":")` is modelled as an ordinal character search. The source calls the culture-sensitive string overload, which can differ for hosts holding characters that culture comparison ignores.
- With a repeated placeholder name the .NET engine reports a single group, so `RouteData.EngineMatch` does not describe that case.
- `base.GetVirtualPath` and the framework's path-template substitution are in a library that is not part of this model. They are a parameter of `GetVirtualPath`.
- Route constraints are handed to the base class and never read by this code, so the constructor does not take them.
- Route values are modelled as strings. The source holds `object` values: the defaults come from an anonymous object's properties, and the captures are strings.
- The `Defaults != null` test is not modelled. The constructor always builds a dictionary, so `Defaults` is never null.
- RouteData.Contributes: `char.IsNumber` is modelled as the ASCII digits. In .NET it is true for every Unicode number character (such as `٣` or `½`). A group name starting with such a character is skipped by the source but would be written by the model. Names from templates that split into tokens are ASCII, so this only affects other templates.
- The compiled patterns are kept as pattern text rather than `Regex` objects. Concurrent requests sharing the two pattern fields are not modelled.
- `HttpRouteData`'s reference to its route is not modelled. Only its values are.
