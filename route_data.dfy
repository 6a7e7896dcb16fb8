/**
 * Building the route values of a matched request: the defaults, then the
 * named groups of the domain match, then those of the path match, each
 * write overwriting an earlier one with the same key.
 */
module RouteData {
  import opened Wrappers
  import opened Text
  import opened Template
  import opened Matching

  /**
   * One group of a regex match, as the engine reports it: the name
   * GroupNameFromNumber gives for its number (the number's decimal text
   * for an unnamed group), whether it took part in the match, and its text.
   */
  datatype Group = Group(name: string, success: bool, value: string)

  /** A regex match: whether it succeeded, and its groups by number; group 0 is the whole match. */
  datatype RegexMatch = RegexMatch(success: bool, groups: seq<Group>)

  /** Route values: the dictionary from route-value name to value. */
  type RouteValues = map<string, string>

  /**
   * A group is written into the route values only when it succeeded, its
   * name is neither empty nor starts with a digit (so the engine's unnamed
   * groups are skipped), and its text is not empty.
   */
  predicate Contributes(g: Group)
  {
    g.success && g.name != "" && !IsDigit(g.name[0]) && g.value != ""
  }

  /** The values after writing each contributing group of gs, in order; no key is ever removed. */
  function ApplyGroups(values: RouteValues, gs: seq<Group>): (r: RouteValues)
    ensures values.Keys <= r.Keys
    decreases |gs|
  {
    if gs == [] then values
    else
      var before := ApplyGroups(values, gs[..|gs| - 1]);
      var g := gs[|gs| - 1];
      if Contributes(g) then before[g.name := g.value] else before
  }

  /** The groups the merge visits: every group but group 0. */
  function NumberedGroups(m: RegexMatch): seq<Group>
  {
    if m.groups == [] then [] else m.groups[1..]
  }

  /** The text of the last contributing group named k, if any. */
  function LastCapture(gs: seq<Group>, k: string): (r: Option<string>)
    ensures r.Some? ==> r.value != ""
    decreases |gs|
  {
    if gs == [] then None
    else
      var g := gs[|gs| - 1];
      if Contributes(g) && g.name == k then Some(g.value) else LastCapture(gs[..|gs| - 1], k)
  }

  /**
   * The value a key has after the groups are written: the text of the last
   * contributing group with that name, otherwise the value it had before.
   */
  lemma {:induction false} ApplyGroupsAt(values: RouteValues, gs: seq<Group>, k: string)
    ensures Lookup(ApplyGroups(values, gs), k) == Or(LastCapture(gs, k), Lookup(values, k))
    decreases |gs|
  {
    if gs != [] {
      ApplyGroupsAt(values, gs[..|gs| - 1], k);
    }
  }

  /** The route values of a request, or None unless both the domain and the path matched. */
  function Merge(defaults: RouteValues, domainMatch: RegexMatch, pathMatch: RegexMatch): (r: Option<RouteValues>)
    ensures r.Some? <==> domainMatch.success && pathMatch.success
  {
    if domainMatch.success && pathMatch.success then
      Some(ApplyGroups(ApplyGroups(defaults, NumberedGroups(domainMatch)), NumberedGroups(pathMatch)))
    else
      None
  }

  /**
   * Precedence of the merge: a key takes the value of the last path group
   * under that name that is written (it succeeded, its name does not start
   * with a digit, and its value is non-empty); failing that the last such
   * domain group; failing that its default; and is absent when none of the
   * three gives it a value.
   */
  lemma MergeAt(defaults: RouteValues, domainMatch: RegexMatch, pathMatch: RegexMatch, k: string)
    requires domainMatch.success && pathMatch.success
    ensures Lookup(Merge(defaults, domainMatch, pathMatch).value, k)
         == Or(LastCapture(NumberedGroups(pathMatch), k),
               Or(LastCapture(NumberedGroups(domainMatch), k), Lookup(defaults, k)))
  {
    var afterDomain := ApplyGroups(defaults, NumberedGroups(domainMatch));
    ApplyGroupsAt(defaults, NumberedGroups(domainMatch), k);
    ApplyGroupsAt(afterDomain, NumberedGroups(pathMatch), k);
  }

  /** Two dictionaries that agree on every key are equal. */
  lemma SameLookups(m1: RouteValues, m2: RouteValues)
    requires forall k :: Lookup(m1, k) == Lookup(m2, k)
    ensures m1 == m2
  {
    forall k | k in m1 ensures k in m2 && m2[k] == m1[k] {
      assert Lookup(m1, k) == Lookup(m2, k);
    }
    forall k | k in m2 ensures k in m1 {
      assert Lookup(m1, k) == Lookup(m2, k);
    }
  }

  /** A group that does not contribute can be left out wherever it stands. */
  lemma SkipGroup(values: RouteValues, a: seq<Group>, g: Group, b: seq<Group>)
    requires !Contributes(g)
    ensures ApplyGroups(values, a + [g] + b) == ApplyGroups(values, a + b)
  {
    forall k ensures Lookup(ApplyGroups(values, a + [g] + b), k) == Lookup(ApplyGroups(values, a + b), k) {
      ApplyGroupsAt(values, a + [g] + b, k);
      ApplyGroupsAt(values, a + b, k);
      LastCaptureAppend(a + [g], b, k);
      LastCaptureAppend(a, [g], k);
      LastCaptureAppend(a, b, k);
      assert [g][..0] == [];
    }
    SameLookups(ApplyGroups(values, a + [g] + b), ApplyGroups(values, a + b));
  }

  /**
   * Group 0, the whole match, is never written, in either match; and a
   * group that does not contribute (failed, unnamed or numbered, or empty)
   * leaves the route values as they were wherever it stands among the
   * numbered groups of either match.
   */
  lemma IgnoredGroups(defaults: RouteValues, domainMatch: RegexMatch, pathMatch: RegexMatch,
                      domainWhole: Group, pathWhole: Group, g: Group, i: nat, j: nat)
    requires domainMatch.success && pathMatch.success
    requires 1 <= i <= |domainMatch.groups| && 1 <= j <= |pathMatch.groups|
    requires !Contributes(g)
    ensures Merge(defaults, RegexMatch(true, [domainWhole] + domainMatch.groups[1..]),
                  RegexMatch(true, [pathWhole] + pathMatch.groups[1..]))
         == Merge(defaults, domainMatch, pathMatch)
    ensures Merge(defaults, RegexMatch(true, domainMatch.groups[..i] + [g] + domainMatch.groups[i..]), pathMatch)
         == Merge(defaults, domainMatch, pathMatch)
    ensures Merge(defaults, domainMatch, RegexMatch(true, pathMatch.groups[..j] + [g] + pathMatch.groups[j..]))
         == Merge(defaults, domainMatch, pathMatch)
  {
    var dg := domainMatch.groups;
    var pg := pathMatch.groups;
    assert NumberedGroups(RegexMatch(true, [domainWhole] + dg[1..])) == NumberedGroups(domainMatch);
    assert NumberedGroups(RegexMatch(true, [pathWhole] + pg[1..])) == NumberedGroups(pathMatch);

    assert NumberedGroups(RegexMatch(true, dg[..i] + [g] + dg[i..])) == dg[1..i] + [g] + dg[i..];
    assert NumberedGroups(domainMatch) == dg[1..i] + dg[i..];
    SkipGroup(defaults, dg[1..i], g, dg[i..]);

    var afterDomain := ApplyGroups(defaults, NumberedGroups(domainMatch));
    assert NumberedGroups(RegexMatch(true, pg[..j] + [g] + pg[j..])) == pg[1..j] + [g] + pg[j..];
    assert NumberedGroups(pathMatch) == pg[1..j] + pg[j..];
    SkipGroup(afterDomain, pg[1..j], g, pg[j..]);
  }

  /**
   * The route values of a request whose domain and path matched: the
   * defaults are written first, then each domain group, then each path
   * group, a group only when it contributes.
   */
  method MergeRouteValues(defaults: RouteValues, domainMatch: RegexMatch, pathMatch: RegexMatch)
    returns (data: Option<RouteValues>)
    ensures data == Merge(defaults, domainMatch, pathMatch)
  {
    data := None;
    if domainMatch.success && pathMatch.success {
      var values: RouteValues := map[];

      // Defaults first.
      var pending := defaults.Keys;
      while pending != {}
        invariant pending <= defaults.Keys
        invariant values == map k | k in defaults && k !in pending :: defaults[k]
        decreases pending
      {
        var key :| key in pending;
        values := values[key := defaults[key]];
        pending := pending - {key};
      }
      assert values == defaults;

      // Then the domain groups.
      var groups := NumberedGroups(domainMatch);
      var i := 0;
      while i < |groups|
        invariant 0 <= i <= |groups|
        invariant values == ApplyGroups(defaults, groups[..i])
      {
        var group := groups[i];
        if group.success {
          var key := group.name;
          if key != "" && !IsDigit(key[0]) {
            if group.value != "" {
              values := values[key := group.value];
            }
          }
        }
        assert groups[..i + 1][..i] == groups[..i];
        i := i + 1;
      }
      assert groups[..i] == groups;

      // Then the path groups.
      var afterDomain := values;
      groups := NumberedGroups(pathMatch);
      i := 0;
      while i < |groups|
        invariant 0 <= i <= |groups|
        invariant values == ApplyGroups(afterDomain, groups[..i])
      {
        var group := groups[i];
        if group.success {
          var key := group.name;
          if key != "" && !IsDigit(key[0]) {
            if group.value != "" {
              values := values[key := group.value];
            }
          }
        }
        assert groups[..i + 1][..i] == groups[..i];
        i := i + 1;
      }
      assert groups[..i] == groups;
      data := Some(values);
    }
  }

  // The groups the .NET engine reports for a compiled template.

  /** The decimal digit for d. */
  function DigitChar(d: nat): (c: char)
    requires d < 10
    ensures IsDigit(c)
  {
    ('0' as int + d) as char
  }

  /** The decimal text of a group number: the name the engine gives an unnamed group. */
  function NumberName(i: nat): (r: string)
    ensures r != [] && IsDigit(r[0])
  {
    if i < 10 then [DigitChar(i)] else NumberName(i / 10) + [DigitChar(i % 10)]
  }

  /**
   * The unnamed `([a-zA-Z0-9_-]*)` group inside each placeholder's named
   * group, numbered from first on, with the text of that placeholder.
   */
  function InnerGroups(caps: seq<Capture>, first: nat): (r: seq<Group>)
    ensures |r| == |caps|
    ensures forall j :: 0 <= j < |r| ==> r[j].name != [] && IsDigit(r[j].name[0])
  {
    if caps == [] then [] else [Group(NumberName(first), true, caps[0].1)] + InnerGroups(caps[1..], first + 1)
  }

  /** The named group of each placeholder, in template order. */
  function NamedGroups(caps: seq<Capture>): (r: seq<Group>)
    ensures |r| == |caps|
    ensures forall j :: 0 <= j < |r| ==> r[j] == Group(caps[j].0, true, caps[j].1)
  {
    if caps == [] then [] else [Group(caps[0].0, true, caps[0].1)] + NamedGroups(caps[1..])
  }

  /**
   * The match the .NET engine reports when the anchored regex of a template
   * accepts s with captures caps: group 0 holds s, the input; the unnamed
   * inner groups come next, numbered from 1; the named groups follow in
   * template order. When s is accepted only through the final newline that
   * `$` allows, the engine's group 0 leaves that newline out; no merge
   * reads group 0 (IgnoredGroups), so the route values are the same. (With
   * two placeholders of the same name the engine would report one group;
   * this describes templates whose names are distinct.)
   */
  function EngineMatch(s: string, caps: seq<Capture>): (r: RegexMatch)
    ensures r.success && |r.groups| == 1 + 2 * |caps| && r.groups[0].value == s
  {
    RegexMatch(true, [Group("0", true, s)] + InnerGroups(caps, 1) + NamedGroups(caps))
  }

  /** The last non-empty text captured under name k, if any. */
  function CaptureOf(caps: seq<Capture>, k: string): (r: Option<string>)
    ensures r.Some? ==> r.value != "" && exists j :: 0 <= j < |caps| && caps[j] == (k, r.value)
    ensures r.None? ==> forall j :: 0 <= j < |caps| && caps[j].0 == k ==> caps[j].1 == ""
    decreases |caps|
  {
    if caps == [] then None
    else
      var c := caps[|caps| - 1];
      if c.0 == k && c.1 != "" then Some(c.1)
      else
        var r := CaptureOf(caps[..|caps| - 1], k);
        assert forall j :: 0 <= j < |caps| - 1 ==> caps[..|caps| - 1][j] == caps[j];
        r
  }

  /** The last contributing group of a concatenation. */
  lemma {:induction false} LastCaptureAppend(a: seq<Group>, b: seq<Group>, k: string)
    ensures LastCapture(a + b, k) == Or(LastCapture(b, k), LastCapture(a, k))
    decreases |b|
  {
    if b == [] {
      assert a + b == a;
    } else {
      assert (a + b)[..|a + b| - 1] == a + b[..|b| - 1];
      LastCaptureAppend(a, b[..|b| - 1], k);
    }
  }

  /** The unnamed inner groups never contribute. */
  lemma {:induction false} InnerGroupsSkipped(caps: seq<Capture>, first: nat, k: string)
    ensures LastCapture(InnerGroups(caps, first), k) == None
    decreases |caps|
  {
    var gs := InnerGroups(caps, first);
    if gs != [] {
      InnerGroupsSkipped(caps[..|caps| - 1], first, k);
      assert gs[..|gs| - 1] == InnerGroups(caps[..|caps| - 1], first) by {
        InnerGroupsPrefix(caps, first);
      }
    }
  }

  /** Dropping the last capture drops the last inner group. */
  lemma {:induction false} InnerGroupsPrefix(caps: seq<Capture>, first: nat)
    requires caps != []
    ensures InnerGroups(caps, first)[..|caps| - 1] == InnerGroups(caps[..|caps| - 1], first)
    decreases |caps|
  {
    if |caps| > 1 {
      InnerGroupsPrefix(caps[1..], first + 1);
      assert caps[..|caps| - 1][1..] == caps[1..][..|caps| - 2];
    }
  }

  /** The named groups contribute exactly the non-empty captures of names that do not start with a digit. */
  lemma {:induction false} NamedGroupsCapture(caps: seq<Capture>, k: string)
    requires forall j :: 0 <= j < |caps| ==> IsName(caps[j].0)
    ensures LastCapture(NamedGroups(caps), k) == CaptureOf(caps, k)
    decreases |caps|
  {
    if caps != [] {
      var gs := NamedGroups(caps);
      var init := caps[..|caps| - 1];
      assert gs[..|gs| - 1] == NamedGroups(init);
      NamedGroupsCapture(init, k);
    }
  }

  /**
   * What the merge makes of the engine's report for a template the input
   * matched: each placeholder's last non-empty capture; unnamed groups and
   * empty captures add nothing.
   */
  lemma EngineMatchCaptures(toks: seq<Token>, s: string, caps: seq<Capture>, k: string)
    requires WellFormed(toks) && DistinctNames(toks) && Accepts(toks, s, caps)
    ensures LastCapture(NumberedGroups(EngineMatch(s, caps)), k) == CaptureOf(caps, k)
  {
    AcceptedCaptures(toks, s, caps);
    NamesAreNames(toks);
    EngineNumberedGroups(s, caps);
    LastCaptureAppend(InnerGroups(caps, 1), NamedGroups(caps), k);
    InnerGroupsSkipped(caps, 1, k);
    NamedGroupsCapture(caps, k);
  }

  /** The groups the merge visits in the engine's report: the inner groups, then the named ones. */
  lemma EngineNumberedGroups(s: string, caps: seq<Capture>)
    ensures NumberedGroups(EngineMatch(s, caps)) == InnerGroups(caps, 1) + NamedGroups(caps)
  {
    var whole := Group("0", true, s);
    var rest := InnerGroups(caps, 1) + NamedGroups(caps);
    assert EngineMatch(s, caps).groups == [whole] + rest;
    DropHead(whole, rest);
  }

  lemma DropHead<T>(x: T, m: seq<T>)
    ensures ([x] + m)[1..] == m
  {
  }

  /** The placeholder names of well-formed tokens are names. */
  lemma {:induction false} NamesAreNames(toks: seq<Token>)
    requires WellFormed(toks)
    ensures forall j :: 0 <= j < |Names(toks)| ==> IsName(Names(toks)[j])
  {
    if toks != [] {
      assert WellFormed(toks[1..]) by {
        forall i | 0 <= i < |toks[1..]| ensures WellFormedToken(toks[1..][i]) {
          assert toks[1..][i] == toks[i + 1];
        }
      }
      NamesAreNames(toks[1..]);
      assert WellFormedToken(toks[0]);
    }
  }

  /**
   * The route values of a request whose host the engine accepted for the
   * domain template and whose path it accepted for the path template, each
   * template with distinct placeholder names: for every key, the path's
   * non-empty capture, else the domain's, else the default.
   */
  lemma RouteValuesOfMatch(defaults: RouteValues,
                           domain: seq<Token>, host: string, domainCaps: seq<Capture>,
                           path: seq<Token>, requestPath: string, pathCaps: seq<Capture>,
                           k: string)
    requires WellFormed(domain) && DistinctNames(domain) && Accepts(domain, host, domainCaps)
    requires WellFormed(path) && DistinctNames(path) && Accepts(path, requestPath, pathCaps)
    ensures var r := Merge(defaults, EngineMatch(host, domainCaps), EngineMatch(requestPath, pathCaps));
      r.Some? && Lookup(r.value, k) == Or(CaptureOf(pathCaps, k), Or(CaptureOf(domainCaps, k), Lookup(defaults, k)))
  {
    MergeAt(defaults, EngineMatch(host, domainCaps), EngineMatch(requestPath, pathCaps), k);
    EngineMatchCaptures(domain, host, domainCaps, k);
    EngineMatchCaptures(path, requestPath, pathCaps, k);
  }

  /**
   * A domain template made of a placeholder, a separator and a part
   * without placeholders captures one text, a prefix of the host, and the
   * host has as many non-separator characters as that text and the
   * template's literals together.
   */
  lemma LeadingCapture(n: string, c: char, toks: seq<Token>, host: string, caps: seq<Capture>)
    requires IsSep(c) && WellFormed(toks) && NoPlaceholders(toks)
    requires Matches([Placeholder(n), Sep(c)] + toks, host, caps)
    ensures caps != [] && caps == [(n, caps[0].1)]
    ensures IsCaptureText(caps[0].1) && |caps[0].1| <= |host| && host[..|caps[0].1|] == caps[0].1
    ensures Weight(host) == Weight(caps[0].1) + LiteralCount(toks)
  {
    var domain := [Placeholder(n), Sep(c)] + toks;
    var rest := [Sep(c)] + toks;
    var w := caps[0].1;
    assert domain[1..] == rest && rest[1..] == toks;
    assert WellFormed(rest) by {
      forall i | 0 <= i < |rest| ensures WellFormedToken(rest[i]) {
        if i > 0 {
          assert rest[i] == toks[i - 1];
        }
      }
    }
    assert NoPlaceholders(rest) by {
      forall i | 0 <= i < |rest| ensures !rest[i].Placeholder? {
        if i > 0 {
          assert rest[i] == toks[i - 1];
        }
      }
    }
    FixedWeight(rest, host[|w|..], caps[1..]);
    assert LiteralCount(rest) == LiteralCount(toks);
    assert host == w + host[|w|..];
    WeightAppend(w, host[|w|..]);
    assert caps == [caps[0]] + caps[1..];
  }

  /**
   * For a host v + c + s with c a dot or a slash, the only capture the
   * engine can report is v itself, as long as v does not end with a
   * hyphen and the host does not end with a newline.
   */
  lemma SubdomainUnique(n: string, c: char, toks: seq<Token>, v: string, s: string, caps: seq<Capture>)
    requires (c == '.' || c == '/') && WellFormed(toks) && NoPlaceholders(toks) && Matches(toks, s, [])
    requires IsCaptureText(v) && (v == [] || v[|v| - 1] != '-')
    requires s == [] || s[|s| - 1] != '\n'
    requires Accepts([Placeholder(n), Sep(c)] + toks, v + [c] + s, caps)
    ensures caps == [(n, v)]
  {
    var host := v + [c] + s;
    assert host[|host| - 1] == if s == [] then c else s[|s| - 1];
    LeadingCapture(n, c, toks, host, caps);
    var w := caps[0].1;
    assert host[|v|] == c && host[..|v|] == v;
    CaptureStops(w, host, |v|);
    assert w == v[..|w|];
    FixedWeight(toks, s, []);
    WeightAppend(v + [c], s);
    WeightAppend(v, [c]);
    assert [c][1..] == [];
    EqualWeightPrefix(w, v);
  }

  /** A prefix of v as heavy as v is v itself, when v ends with a non-separator. */
  lemma EqualWeightPrefix(w: string, v: string)
    requires |w| <= |v| && w == v[..|w|] && Weight(w) == Weight(v)
    requires v == [] || !IsSep(v[|v| - 1])
    ensures w == v
  {
    var tail := v[|w|..];
    assert v == w + tail;
    WeightAppend(w, tail);
    WeightLast(tail);
  }

  /**
   * For a host that is only the part after the separator, the only
   * capture the engine can report is the empty one, as long as the host
   * neither starts with a hyphen nor ends with a newline.
   */
  lemma BareDomainUnique(n: string, c: char, toks: seq<Token>, s: string, caps: seq<Capture>)
    requires IsSep(c) && WellFormed(toks) && NoPlaceholders(toks) && Matches(toks, s, [])
    requires s == [] || (s[0] != '-' && s[|s| - 1] != '\n')
    requires Accepts([Placeholder(n), Sep(c)] + toks, s, caps)
    ensures caps == [(n, "")]
  {
    LeadingCapture(n, c, toks, s, caps);
    var w := caps[0].1;
    FixedWeight(toks, s, []);
    WeightZero(w);
    LeadingChar(w, s);
  }

  /** The only name of a leading placeholder followed by a part without placeholders. */
  lemma LeadingPlaceholderNames(n: string, c: char, toks: seq<Token>)
    requires NoPlaceholders(toks)
    ensures Names([Placeholder(n), Sep(c)] + toks) == [n]
    ensures DistinctNames([Placeholder(n), Sep(c)] + toks)
  {
    var domain := [Placeholder(n), Sep(c)] + toks;
    assert domain[1..][1..] == toks;
    NoPlaceholdersNoNames(toks);
  }

  /**
   * A host that is only the literal part of a domain template, such as
   * "auth10.com" for "{tenant}.auth10.com", is still accepted: the
   * placeholder captures nothing and the separator is skipped, and no
   * other capture is possible. The empty capture is not written, so the
   * key takes the path's non-empty capture if there is one, and otherwise
   * keeps its default or stays absent.
   */
  lemma {:induction false} EmptyPlaceholderMatches(n: string, c: char, toks: seq<Token>, s: string, defaults: RouteValues,
                                                   path: seq<Token>, requestPath: string, pathCaps: seq<Capture>)
    requires IsName(n) && IsSep(c) && WellFormed(toks) && NoPlaceholders(toks) && Matches(toks, s, [])
    requires s == [] || (s[0] != '-' && s[|s| - 1] != '\n')
    requires WellFormed(path) && DistinctNames(path) && Accepts(path, requestPath, pathCaps)
    ensures Accepts([Placeholder(n), Sep(c)] + toks, s, [(n, "")])
    ensures forall caps :: Accepts([Placeholder(n), Sep(c)] + toks, s, caps) ==> caps == [(n, "")]
    ensures var r := Merge(defaults, EngineMatch(s, [(n, "")]), EngineMatch(requestPath, pathCaps));
      r.Some? && Lookup(r.value, n) == Or(CaptureOf(pathCaps, n), Lookup(defaults, n))
  {
    var domain := [Placeholder(n), Sep(c)] + toks;
    var caps: seq<Capture> := [(n, "")];
    BareDomainAccepted(n, c, toks, s);
    forall other | Accepts(domain, s, other) ensures other == caps {
      BareDomainUnique(n, c, toks, s, other);
    }
    LeadingPlaceholderWellFormed(n, c, toks);
    LeadingPlaceholderNames(n, c, toks);
    RouteValuesOfMatch(defaults, domain, s, caps, path, requestPath, pathCaps, n);
    assert CaptureOf(caps, n) == None;
  }

  /**
   * A host with a subdomain, such as "acme.auth10.com" for
   * "{tenant}.auth10.com", is accepted with the subdomain as the capture
   * and with no other, and the route values take it unless the path
   * captured the same name.
   */
  lemma SubdomainCaptured(n: string, c: char, toks: seq<Token>, v: string, s: string, defaults: RouteValues,
                          path: seq<Token>, requestPath: string, pathCaps: seq<Capture>)
    requires IsName(n) && (c == '.' || c == '/') && WellFormed(toks) && NoPlaceholders(toks) && Matches(toks, s, [])
    requires v != "" && IsCaptureText(v) && v[|v| - 1] != '-'
    requires s == [] || s[|s| - 1] != '\n'
    requires WellFormed(path) && DistinctNames(path) && Accepts(path, requestPath, pathCaps)
    ensures Accepts([Placeholder(n), Sep(c)] + toks, v + [c] + s, [(n, v)])
    ensures forall caps :: Accepts([Placeholder(n), Sep(c)] + toks, v + [c] + s, caps) ==> caps == [(n, v)]
    ensures var r := Merge(defaults, EngineMatch(v + [c] + s, [(n, v)]), EngineMatch(requestPath, pathCaps));
      r.Some? && Lookup(r.value, n) == Or(CaptureOf(pathCaps, n), Some(v))
  {
    var domain := [Placeholder(n), Sep(c)] + toks;
    var host := v + [c] + s;
    var caps: seq<Capture> := [(n, v)];
    SubdomainAccepted(n, c, toks, v, s);
    forall other | Accepts(domain, host, other) ensures other == caps {
      SubdomainUnique(n, c, toks, v, s, other);
    }
    LeadingPlaceholderWellFormed(n, c, toks);
    LeadingPlaceholderNames(n, c, toks);
    RouteValuesOfMatch(defaults, domain, host, caps, path, requestPath, pathCaps, n);
    assert CaptureOf(caps, n) == Some(v);
  }

  /** The witness of EmptyPlaceholderMatches: nothing captured, the separator skipped. */
  lemma BareDomainAccepted(n: string, c: char, toks: seq<Token>, s: string)
    requires Matches(toks, s, [])
    ensures Matches([Placeholder(n), Sep(c)] + toks, s, [(n, "")])
  {
    var rest := [Sep(c)] + toks;
    assert rest[1..] == toks;
    assert Matches(rest, s, []);
    PlaceholderThen(n, rest, "", s);
    assert [Placeholder(n)] + rest == [Placeholder(n), Sep(c)] + toks;
    assert "" + s == s;
  }

  /** The witness of SubdomainCaptured: the subdomain captured, the separator present. */
  lemma SubdomainAccepted(n: string, c: char, toks: seq<Token>, v: string, s: string)
    requires Matches(toks, s, []) && IsCaptureText(v)
    ensures Matches([Placeholder(n), Sep(c)] + toks, v + [c] + s, [(n, v)])
  {
    var rest := [Sep(c)] + toks;
    var after := [c] + s;
    assert rest[1..] == toks && after[0] == c && after[1..] == s;
    assert Matches(rest, after, []);
    PlaceholderThen(n, rest, v, after);
    assert [Placeholder(n)] + rest == [Placeholder(n), Sep(c)] + toks;
    assert v + after == v + [c] + s;
  }

  /** A placeholder capturing v, followed by tokens that match the rest without captures. */
  lemma PlaceholderThen(n: string, rest: seq<Token>, v: string, t: string)
    requires IsCaptureText(v) && Matches(rest, t, [])
    ensures Matches([Placeholder(n)] + rest, v + t, [(n, v)])
  {
    var toks := [Placeholder(n)] + rest;
    var caps: seq<Capture> := [(n, v)];
    assert toks[1..] == rest && caps[1..] == [];
    assert (v + t)[..|v|] == v && (v + t)[|v|..] == t;
  }

  lemma LeadingPlaceholderWellFormed(n: string, c: char, toks: seq<Token>)
    requires IsName(n) && IsSep(c) && WellFormed(toks)
    ensures WellFormed([Placeholder(n), Sep(c)] + toks)
  {
    var domain := [Placeholder(n), Sep(c)] + toks;
    forall i | 0 <= i < |domain| ensures WellFormedToken(domain[i]) {
      if i >= 2 {
        assert domain[i] == toks[i - 2];
      }
    }
  }
}
