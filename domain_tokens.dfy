/**
 * The token regex RemoveDomainTokens runs over the domain template:
 * twelve repetitions of `({[a-zA-Z0-9_-]*})*-?\.?\/?`, unanchored.
 *
 * Every part of that regex may match nothing, so it matches at index 0
 * and the first path the engine tries succeeds: each starred group takes
 * as many `{…}` tokens as it can, each optional separator is taken when
 * present, and nothing is ever backtracked. The functions below follow
 * that path exactly.
 */
module DomainTokens {
  import opened Wrappers
  import opened Text
  import opened Template

  /** The number of repeated groups in the token regex. */
  const GroupCount: nat := 12

  /** Length of a `{[a-zA-Z0-9_-]*}` token at the start of s, or 0 when s does not start with one. */
  function BraceTokenLength(s: string): (n: nat)
    ensures n <= |s|
    ensures n != 0 ==> 2 <= n && s[0] == '{' && s[n - 1] == '}' && IsCaptureText(s[1..n - 1])
  {
    if s != [] && s[0] == '{' then
      var w := Span(s[1..], IsCaptureChar);
      if w + 1 < |s| && s[w + 1] == '}' then
        assert s[1..w + 1] == s[1..][..w];
        w + 2
      else 0
    else 0
  }

  /**
   * What one starred group `({[a-zA-Z0-9_-]*})*` matched: the text of its
   * last iteration, which is what the engine reports as the group's value
   * (None when it iterated zero times, so the group did not succeed), and
   * the length consumed.
   */
  datatype Repeat = Repeat(last: Option<string>, length: nat)

  function RepeatTokens(s: string): (r: Repeat)
    ensures r.length <= |s|
    ensures r.last.Some? <==> r.length > 0
    decreases |s|
  {
    var n := BraceTokenLength(s);
    if n == 0 then Repeat(None, 0)
    else
      var more := RepeatTokens(s[n..]);
      Repeat(if more.last.Some? then more.last else Some(s[..n]), n + more.length)
  }

  /** Length matched by `-?\.?\/?` at the start of s. */
  function SepLength(s: string): (n: nat)
    ensures n <= |s| && n <= 3
  {
    var dash := if s != [] && s[0] == '-' then 1 else 0;
    var dot := if dash < |s| && s[dash] == '.' then dash + 1 else dash;
    if dot < |s| && s[dot] == '/' then dot + 1 else dot
  }

  /** What count consecutive `({…})*-?\.?\/?` parts matched: each group's value, and the total length. */
  datatype Scan = Scan(groups: seq<Option<string>>, length: nat)

  function ScanGroups(s: string, count: nat): (r: Scan)
    ensures |r.groups| == count && r.length <= |s|
    decreases count
  {
    if count == 0 then Scan([], 0)
    else
      var g := RepeatTokens(s);
      var m := g.length + SepLength(s[g.length..]);
      var rest := ScanGroups(s[m..], count - 1);
      Scan([g.last] + rest.groups, m + rest.length)
  }

  /**
   * The groups of the token match over a domain template, by number:
   * group 0 is the text matched from index 0; groups 1 to 12 follow.
   */
  function TokenGroups(domain: string): (r: seq<Option<string>>)
    ensures |r| == GroupCount + 1 && r[0].Some?
  {
    var scan := ScanGroups(domain, GroupCount);
    [Some(domain[..scan.length])] + scan.groups
  }

  /** The key a group's text names: the text with every brace removed. */
  function StripBraces(v: string): (r: string)
    ensures '{' !in r && '}' !in r
  {
    var open := Replace(v, '{', "");
    ReplaceAbsent(open, '}', "", '{');
    Replace(open, '}', "")
  }

  /** The keys of the successful groups among gs. */
  function KeysOf(gs: seq<Option<string>>): set<string>
  {
    set j | 0 <= j < |gs| && gs[j].Some? :: StripBraces(gs[j].value)
  }

  /** The keys of a run of groups and one more group. */
  lemma KeysOfPrefix(gs: seq<Option<string>>, i: nat)
    requires i < |gs|
    ensures KeysOf(gs[..i + 1]) == KeysOf(gs[..i]) + (if gs[i].Some? then {StripBraces(gs[i].value)} else {})
  {
    var before, after := gs[..i], gs[..i + 1];
    assert forall j :: 0 <= j < i ==> after[j] == before[j];
    assert after[i] == gs[i];
  }

  /** Each group gives at most one key. */
  lemma {:induction false} KeysOfSize(gs: seq<Option<string>>)
    ensures |KeysOf(gs)| <= |gs|
    decreases |gs|
  {
    if gs != [] {
      var n := |gs| - 1;
      KeysOfSize(gs[..n]);
      KeysOfPrefix(gs, n);
      assert gs[..n + 1] == gs;
    }
  }

  /** The keys RemoveDomainTokens removes for a domain template: at most one per group, thirteen in all. */
  function TokenKeys(domain: string): (r: set<string>)
    ensures |r| <= GroupCount + 1
  {
    KeysOfSize(TokenGroups(domain));
    KeysOf(TokenGroups(domain))
  }

  // What the scan finds.

  /** n unsuccessful groups. */
  function Failed(n: nat): (r: seq<Option<string>>)
    ensures |r| == n && forall j :: 0 <= j < n ==> r[j] == None
  {
    if n == 0 then [] else [None] + Failed(n - 1)
  }

  /** From a position that holds neither a brace nor a separator, no group succeeds and nothing is consumed. */
  lemma {:induction false} ScanStuck(s: string, count: nat)
    requires s == [] || (s[0] != '{' && !IsSep(s[0]))
    ensures ScanGroups(s, count) == Scan(Failed(count), 0)
    decreases count
  {
    if count > 0 {
      ScanStuck(s, count - 1);
      assert s[0..] == s;
    }
  }

  /**
   * A domain template that starts with a literal character yields only the
   * empty key from group 0: every placeholder after it is left in the
   * route values.
   */
  lemma LeadingLiteralHidesTokens(domain: string)
    requires domain != [] && domain[0] != '{' && !IsSep(domain[0])
    ensures TokenKeys(domain) == {""}
  {
    ScanStuck(domain, GroupCount);
    TokenGroupsOfScan(domain, Scan(Failed(GroupCount), 0));
    assert domain[..0] == "";
    EmptyKeyOnly(GroupCount);
  }

  /** The keys of an empty group 0 followed by failed groups. */
  lemma EmptyKeyOnly(n: nat)
    ensures KeysOf([Some("")] + Failed(n)) == {""}
  {
    var gs := [Some("")] + Failed(n);
    assert StripBraces("") == "";
    assert gs[0] == Some("");
    forall k | k in KeysOf(gs) ensures k == "" {
      var j :| 0 <= j < |gs| && gs[j].Some? && StripBraces(gs[j].value) == k;
      assert j == 0;
    }
  }

  /** The template text `{name}` followed by one separator. */
  function Segment(name: string, sep: char): string
  {
    "{" + name + "}" + [sep]
  }

  /** Segments joined. */
  function Segments(names: seq<string>, seps: seq<char>): string
    requires |names| == |seps|
  {
    if names == [] then [] else Segment(names[0], seps[0]) + Segments(names[1..], seps[1..])
  }

  /** The group values of placeholders: the text `{name}` of each. */
  function Braced(names: seq<string>): (r: seq<Option<string>>)
    ensures |r| == |names| && forall j :: 0 <= j < |names| ==> r[j] == Some("{" + names[j] + "}")
  {
    if names == [] then [] else [Some("{" + names[0] + "}")] + Braced(names[1..])
  }

  /** A `{name}` token is recognised whatever follows it. */
  lemma BraceTokenOf(name: string, tail: string)
    requires IsCaptureText(name)
    ensures BraceTokenLength("{" + name + "}" + tail) == |name| + 2
  {
    var s := "{" + name + "}" + tail;
    var n := |name|;
    assert s[1..] == name + "}" + tail;
    assert s[1..][..n] == name;
    assert s[1..][n] == '}';
    assert Span(s[1..], IsCaptureChar) == n;
  }

  /** One segment is one group: its token, then its separator. */
  lemma RepeatOfSegment(name: string, sep: char, more: string)
    requires IsCaptureText(name) && IsSep(sep)
    requires more == [] || !IsSep(more[0])
    ensures var s := Segment(name, sep) + more;
      RepeatTokens(s) == Repeat(Some("{" + name + "}"), |name| + 2)
      && SepLength(s[|name| + 2..]) == 1
  {
    var s := Segment(name, sep) + more;
    var n := |name|;
    var after := [sep] + more;
    assert s == "{" + name + "}" + after;
    BraceTokenOf(name, after);
    assert s[n + 2..] == after;
    assert s[..n + 2] == "{" + name + "}";
    NoRepeatAtSep(sep, more);
  }

  /** After a token, a separator stops the repetition and is consumed alone. */
  lemma NoRepeatAtSep(sep: char, more: string)
    requires IsSep(sep) && (more == [] || !IsSep(more[0]))
    ensures RepeatTokens([sep] + more) == Repeat(None, 0)
    ensures SepLength([sep] + more) == 1
  {
    var t := [sep] + more;
    assert t[0] == sep && t[1..] == more;
  }

  /** A placeholder and a single separator fill exactly one group. */
  lemma ScanSegment(name: string, sep: char, more: string, count: nat)
    requires IsCaptureText(name) && IsSep(sep) && count > 0
    requires more == [] || !IsSep(more[0])
    ensures ScanGroups(Segment(name, sep) + more, count).groups
         == [Some("{" + name + "}")] + ScanGroups(more, count - 1).groups
    ensures ScanGroups(Segment(name, sep) + more, count).length
         == |name| + 3 + ScanGroups(more, count - 1).length
  {
    var s := Segment(name, sep) + more;
    RepeatOfSegment(name, sep, more);
    assert s[|name| + 3..] == more;
  }

  /** A run of placeholders, each followed by one separator, as Segments joins them. */
  predicate ValidSegments(names: seq<string>, seps: seq<char>)
  {
    |names| == |seps|
    && forall j :: 0 <= j < |names| ==> IsCaptureText(names[j]) && IsSep(seps[j])
  }

  /** The groups found for a leading run of placeholders, each followed by one separator. */
  lemma {:induction false} ScanSegments(names: seq<string>, seps: seq<char>, rest: string, count: nat)
    requires ValidSegments(names, seps) && |names| <= count
    requires rest == [] || !IsSep(rest[0])
    ensures ScanGroups(Segments(names, seps) + rest, count).groups[..|names|] == Braced(names)
  {
    if names == [] {
      assert Braced(names) == [];
    } else {
      ValidSegmentsTail(names, seps);
      ScanSegments(names[1..], seps[1..], rest, count - 1);
      ScanSegmentsStep(names, seps, rest, count);
    }
  }

  lemma ValidSegmentsTail(names: seq<string>, seps: seq<char>)
    requires ValidSegments(names, seps) && names != []
    ensures ValidSegments(names[1..], seps[1..])
    ensures IsCaptureText(names[0]) && IsSep(seps[0])
  {
    assert forall j :: 0 <= j < |names| - 1 ==> names[1..][j] == names[j + 1] && seps[1..][j] == seps[j + 1];
  }

  /** The inductive step of ScanSegments: the first segment fills the first group. */
  lemma ScanSegmentsStep(names: seq<string>, seps: seq<char>, rest: string, count: nat)
    requires |names| == |seps| && 0 < |names| <= count
    requires IsCaptureText(names[0]) && IsSep(seps[0])
    requires rest == [] || !IsSep(rest[0])
    requires ScanGroups(Segments(names[1..], seps[1..]) + rest, count - 1).groups[..|names| - 1] == Braced(names[1..])
    ensures ScanGroups(Segments(names, seps) + rest, count).groups[..|names|] == Braced(names)
  {
    var more := SegmentsCons(names, seps, rest);
    ScanSegment(names[0], seps[0], more, count);
    PrefixCons(Some("{" + names[0] + "}"), ScanGroups(more, count - 1).groups, Braced(names[1..]));
  }

  /** Peels the first segment off a run of segments. */
  lemma SegmentsCons(names: seq<string>, seps: seq<char>, rest: string) returns (more: string)
    requires 0 < |names| == |seps|
    ensures more == Segments(names[1..], seps[1..]) + rest
    ensures Segments(names, seps) + rest == Segment(names[0], seps[0]) + more
    ensures rest == [] || !IsSep(rest[0]) ==> more == [] || !IsSep(more[0])
  {
    more := Segments(names[1..], seps[1..]) + rest;
    if |names| > 1 {
      assert more[0] == '{';
    } else {
      assert more == rest;
    }
  }

  /** Taking a prefix of a sequence with one more element in front. */
  lemma PrefixCons<T>(x: T, m: seq<T>, p: seq<T>)
    requires |p| <= |m| && m[..|p|] == p
    ensures ([x] + m)[..|p| + 1] == [x] + p
  {
  }

  /** The elements after the head of a sequence with one more element in front. */
  lemma SliceAfterHead<T>(x: T, m: seq<T>, k: nat)
    requires k <= |m|
    ensures ([x] + m)[1..k + 1] == m[..k]
  {
  }

  /** Stripping the braces of `{name}` gives the name back. */
  lemma StripBracesOfToken(name: string)
    requires '{' !in name && '}' !in name
    ensures StripBraces("{" + name + "}") == name
  {
    ReplaceAppend(['{'], name + ['}'], '{', "");
    ReplaceAppend(name, ['}'], '{', "");
    ReplaceSingle('{', '{', "");
    ReplaceSingle('}', '{', "");
    assert "{" + name + "}" == ['{'] + (name + ['}']);
    assert Replace("{" + name + "}", '{', "") == name + ['}'];
    ReplaceAppend(name, ['}'], '}', "");
    ReplaceSingle('}', '}', "");
  }

  /** Every `{name}` among the groups gives its name as a key. */
  lemma {:induction false} BracedKeys(gs: seq<Option<string>>, names: seq<string>)
    requires |names| < |gs| && gs[1..|names| + 1] == Braced(names)
    requires forall j :: 0 <= j < |names| ==> IsCaptureText(names[j])
    ensures forall j :: 0 <= j < |names| ==> names[j] in KeysOf(gs)
  {
    forall j | 0 <= j < |names|
      ensures names[j] in KeysOf(gs)
    {
      assert gs[j + 1] == gs[1..|names| + 1][j];
      assert '{' !in names[j] && '}' !in names[j] by {
        assert forall x :: x in names[j] ==> IsCaptureChar(x);
      }
      StripBracesOfToken(names[j]);
    }
  }

  /**
   * Every placeholder in a leading run of at most twelve, each followed by
   * one separator, is one of the keys removed.
   */
  lemma LeadingPlaceholdersFound(names: seq<string>, seps: seq<char>, rest: string)
    requires ValidSegments(names, seps) && |names| <= GroupCount
    requires rest == [] || !IsSep(rest[0])
    ensures forall j :: 0 <= j < |names| ==> names[j] in TokenKeys(Segments(names, seps) + rest)
  {
    var domain := Segments(names, seps) + rest;
    ScanSegments(names, seps, rest, GroupCount);
    var scan := ScanGroups(domain, GroupCount);
    SliceAfterHead(Some(domain[..scan.length]), scan.groups, |names|);
    BracedKeys(TokenGroups(domain), names);
  }

  /**
   * The whole scan of a leading run of placeholders, each followed by one
   * separator, and then a character that is neither a brace nor a
   * separator: the run fills its groups in order and is consumed whole,
   * and the free groups after it fail.
   */
  lemma {:induction false} ScanRun(names: seq<string>, seps: seq<char>, rest: string, count: nat, free: nat)
    requires ValidSegments(names, seps) && count == |names| + free
    requires rest == [] || (rest[0] != '{' && !IsSep(rest[0]))
    ensures ScanGroups(Segments(names, seps) + rest, count)
         == Scan(Braced(names) + Failed(free), |Segments(names, seps)|)
  {
    if names == [] {
      ScanRunNil(names, seps, rest, free);
    } else {
      ValidSegmentsTail(names, seps);
      ScanRun(names[1..], seps[1..], rest, count - 1, free);
      ScanRunStep(names, seps, rest, count, free);
    }
  }

  /** The base case of ScanRun: no placeholders, so every group fails. */
  lemma ScanRunNil(names: seq<string>, seps: seq<char>, rest: string, free: nat)
    requires names == [] && seps == []
    requires rest == [] || (rest[0] != '{' && !IsSep(rest[0]))
    ensures ScanGroups(Segments(names, seps) + rest, free)
         == Scan(Braced(names) + Failed(free), |Segments(names, seps)|)
  {
    SegmentsNil(names, seps, rest);
    ScanStuck(rest, free);
    assert Braced(names) + Failed(free) == Failed(free);
  }

  /** The inductive step of ScanRun: the first segment fills the first group and is consumed. */
  lemma ScanRunStep(names: seq<string>, seps: seq<char>, rest: string, count: nat, free: nat)
    requires |names| == |seps| && 0 < |names| && count == |names| + free
    requires IsCaptureText(names[0]) && IsSep(seps[0])
    requires rest == [] || !IsSep(rest[0])
    requires ScanGroups(Segments(names[1..], seps[1..]) + rest, count - 1)
          == Scan(Braced(names[1..]) + Failed(free), |Segments(names[1..], seps[1..])|)
    ensures ScanGroups(Segments(names, seps) + rest, count)
         == Scan(Braced(names) + Failed(free), |Segments(names, seps)|)
  {
    var more := SegmentsCons(names, seps, rest);
    var x := Some("{" + names[0] + "}");
    var scan := ScanGroups(Segments(names, seps) + rest, count);
    assert scan.groups == [x] + (Braced(names[1..]) + Failed(free))
        && scan.length == |names[0]| + 3 + |Segments(names[1..], seps[1..])| by {
      ScanSegment(names[0], seps[0], more, count);
    }
    assert [x] + (Braced(names[1..]) + Failed(free)) == Braced(names) + Failed(free) by {
      assert Braced(names) == [x] + Braced(names[1..]);
      ConcatAssoc([x], Braced(names[1..]), Failed(free));
    }
    assert |Segments(names, seps)| == |names[0]| + 3 + |Segments(names[1..], seps[1..])|;
  }

  /** The keys of group 0 with text head, then the braced names, then failed groups. */
  lemma KeysOfRun(head: string, names: seq<string>, n: nat)
    requires forall j :: 0 <= j < |names| ==> IsCaptureText(names[j])
    ensures KeysOf([Some(head)] + Braced(names) + Failed(n))
         == (set j | 0 <= j < |names| :: names[j]) + {StripBraces(head)}
  {
    KeysOfRunWithin(head, names, n);
    KeysOfRunCovers(head, names, n);
  }

  /** Group j + 1 of such a run is `{names[j]}`, whose key is names[j]. */
  lemma RunGroup(head: string, names: seq<string>, n: nat, j: nat)
    requires j < |names| && IsCaptureText(names[j])
    ensures var gs := [Some(head)] + Braced(names) + Failed(n);
      gs[j + 1] == Some("{" + names[j] + "}") && StripBraces(gs[j + 1].value) == names[j]
  {
    assert '{' !in names[j] && '}' !in names[j] by {
      assert forall x :: x in names[j] ==> IsCaptureChar(x);
    }
    StripBracesOfToken(names[j]);
  }

  lemma KeysOfRunWithin(head: string, names: seq<string>, n: nat)
    requires forall j :: 0 <= j < |names| ==> IsCaptureText(names[j])
    ensures KeysOf([Some(head)] + Braced(names) + Failed(n))
         <= (set j | 0 <= j < |names| :: names[j]) + {StripBraces(head)}
  {
    var gs := [Some(head)] + Braced(names) + Failed(n);
    forall k | k in KeysOf(gs)
      ensures k in (set j | 0 <= j < |names| :: names[j]) + {StripBraces(head)}
    {
      var j :| 0 <= j < |gs| && gs[j].Some? && StripBraces(gs[j].value) == k;
      if j == 0 {
        assert gs[0] == Some(head);
      } else {
        assert j - 1 < |names|;
        RunGroup(head, names, n, j - 1);
      }
    }
  }

  lemma KeysOfRunCovers(head: string, names: seq<string>, n: nat)
    requires forall j :: 0 <= j < |names| ==> IsCaptureText(names[j])
    ensures (set j | 0 <= j < |names| :: names[j]) + {StripBraces(head)}
         <= KeysOf([Some(head)] + Braced(names) + Failed(n))
  {
    var gs := [Some(head)] + Braced(names) + Failed(n);
    assert gs[0] == Some(head);
    forall k | k in (set j | 0 <= j < |names| :: names[j])
      ensures k in KeysOf(gs)
    {
      var j :| 0 <= j < |names| && names[j] == k;
      RunGroup(head, names, n, j);
    }
  }

  /**
   * Exactly the keys removed for a domain template that starts with a run
   * of at most twelve placeholders, each followed by one separator, and
   * then a literal character (or ends): the names of the run and the run
   * itself with its braces stripped, and nothing else. A placeholder after
   * the first literal character is never removed.
   */
  lemma LeadingRunKeys(names: seq<string>, seps: seq<char>, rest: string)
    requires ValidSegments(names, seps) && |names| <= GroupCount
    requires rest == [] || (rest[0] != '{' && !IsSep(rest[0]))
    ensures TokenKeys(Segments(names, seps) + rest)
         == (set j | 0 <= j < |names| :: names[j]) + {StripBraces(Segments(names, seps))}
  {
    var run := Segments(names, seps);
    var gs := [Some(run)] + Braced(names) + Failed(GroupCount - |names|);
    assert TokenKeys(run + rest) == KeysOf(gs) by {
      LeadingRunGroups(names, seps, rest);
      TokenKeysOfGroups(run + rest, gs);
    }
    assert KeysOf(gs) == (set j | 0 <= j < |names| :: names[j]) + {StripBraces(run)} by {
      KeysOfRun(run, names, GroupCount - |names|);
    }
  }

  /** The keys of a domain template, given its groups. */
  lemma TokenKeysOfGroups(domain: string, gs: seq<Option<string>>)
    requires TokenGroups(domain) == gs
    ensures TokenKeys(domain) == KeysOf(gs)
  {
  }

  /** The groups of a domain template that starts with a run of at most twelve placeholders. */
  lemma LeadingRunGroups(names: seq<string>, seps: seq<char>, rest: string)
    requires ValidSegments(names, seps) && |names| <= GroupCount
    requires rest == [] || (rest[0] != '{' && !IsSep(rest[0]))
    ensures TokenGroups(Segments(names, seps) + rest)
         == [Some(Segments(names, seps))] + Braced(names) + Failed(GroupCount - |names|)
  {
    var run := Segments(names, seps);
    var domain := run + rest;
    var free := GroupCount - |names|;
    var scan := Scan(Braced(names) + Failed(free), |run|);
    assert ScanGroups(domain, GroupCount) == scan by {
      ScanRun(names, seps, rest, GroupCount, free);
    }
    assert TokenGroups(domain) == [Some(run)] + (Braced(names) + Failed(free)) by {
      TokenGroupsOfScan(domain, scan);
      assert domain[..|run|] == run;
    }
    ConcatAssoc([Some(run)], Braced(names), Failed(free));
  }

  lemma ConcatAssoc<T>(a: seq<T>, b: seq<T>, c: seq<T>)
    ensures a + (b + c) == a + b + c
  {
  }

  /** Braces are stripped piece by piece. */
  lemma StripBracesAppend(a: string, b: string)
    ensures StripBraces(a + b) == StripBraces(a) + StripBraces(b)
  {
    ReplaceAppend(a, b, '{', "");
    ReplaceAppend(Replace(a, '{', ""), Replace(b, '{', ""), '}', "");
  }

  /** The key of a `{name}` token with its separator: the name and the separator. */
  lemma StripBracesOfSegment(name: string, sep: char)
    requires '{' !in name && '}' !in name && IsSep(sep)
    ensures StripBraces(Segment(name, sep)) == name + [sep]
  {
    StripBracesAppend("{" + name + "}", [sep]);
    StripBracesOfToken(name);
    ReplaceSingle(sep, '{', "");
    ReplaceSingle(sep, '}', "");
  }

  /** The keys of two successful groups followed by failed ones. */
  lemma KeysOfTwo(a: string, b: string, n: nat)
    ensures KeysOf([Some(a), Some(b)] + Failed(n)) == {StripBraces(a), StripBraces(b)}
  {
    var gs := [Some(a), Some(b)] + Failed(n);
    assert gs[0] == Some(a) && gs[1] == Some(b);
    KeysOfTwoWithin(a, b, n);
  }

  lemma KeysOfTwoWithin(a: string, b: string, n: nat)
    ensures forall k :: k in KeysOf([Some(a), Some(b)] + Failed(n)) ==> k == StripBraces(a) || k == StripBraces(b)
  {
    var gs := [Some(a), Some(b)] + Failed(n);
    forall k | k in KeysOf(gs)
      ensures k == StripBraces(a) || k == StripBraces(b)
    {
      var j :| 0 <= j < |gs| && gs[j].Some? && StripBraces(gs[j].value) == k;
      assert j < 2;
    }
  }

  /**
   * A domain template with one placeholder, its separator and then literal
   * text, such as "{tenant}.auth10.com": group 0 is the placeholder with
   * its separator and group 1 the placeholder, so both the name and the
   * name followed by the separator ("tenant" and "tenant.") are removed,
   * and nothing else.
   */
  lemma OnePlaceholderKeys(name: string, sep: char, rest: string)
    requires IsCaptureText(name) && IsSep(sep)
    requires rest != [] && rest[0] != '{' && !IsSep(rest[0])
    ensures TokenKeys(Segment(name, sep) + rest) == {name + [sep], name}
  {
    OnePlaceholderGroups(name, sep, rest);
    OnePlaceholderGroupKeys(name, sep, GroupCount - 1);
  }

  /** The keys of the groups of a one-placeholder domain template. */
  lemma OnePlaceholderGroupKeys(name: string, sep: char, n: nat)
    requires IsCaptureText(name) && IsSep(sep)
    ensures KeysOf([Some(Segment(name, sep)), Some("{" + name + "}")] + Failed(n)) == {name + [sep], name}
  {
    assert '{' !in name && '}' !in name by {
      assert forall x :: x in name ==> IsCaptureChar(x);
    }
    StripBracesOfSegment(name, sep);
    StripBracesOfToken(name);
    KeysOfTwo(Segment(name, sep), "{" + name + "}", n);
  }

  /** The groups of a domain template with one placeholder, its separator and then literal text. */
  lemma OnePlaceholderGroups(name: string, sep: char, rest: string)
    requires IsCaptureText(name) && IsSep(sep)
    requires rest != [] && rest[0] != '{' && !IsSep(rest[0])
    ensures TokenGroups(Segment(name, sep) + rest)
         == [Some(Segment(name, sep)), Some("{" + name + "}")] + Failed(GroupCount - 1)
  {
    var d := Segment(name, sep) + rest;
    OnePlaceholderScan(name, sep, rest);
    TokenGroupsOfScan(d, Scan([Some("{" + name + "}")] + Failed(GroupCount - 1), |name| + 3));
    assert d[..|name| + 3] == Segment(name, sep);
    ConsPair(Some(Segment(name, sep)), Some("{" + name + "}"), Failed(GroupCount - 1));
  }

  lemma ConsPair<T>(x: T, y: T, m: seq<T>)
    ensures [x] + ([y] + m) == [x, y] + m
  {
  }

  /** The scan of a domain template with one placeholder, its separator and then literal text. */
  lemma OnePlaceholderScan(name: string, sep: char, rest: string)
    requires IsCaptureText(name) && IsSep(sep)
    requires rest != [] && rest[0] != '{' && !IsSep(rest[0])
    ensures ScanGroups(Segment(name, sep) + rest, GroupCount)
         == Scan([Some("{" + name + "}")] + Failed(GroupCount - 1), |name| + 3)
  {
    ScanSegment(name, sep, rest, GroupCount);
    ScanStuck(rest, GroupCount - 1);
  }

  /** The groups of a domain template, given its scan. */
  lemma TokenGroupsOfScan(domain: string, scan: Scan)
    requires ScanGroups(domain, GroupCount) == scan
    ensures TokenGroups(domain) == [Some(domain[..scan.length])] + scan.groups
  {
  }

  /**
   * At most thirteen keys are removed, one per group: of more than thirteen
   * distinct names, some are always left in the route values.
   */
  lemma TooManyPlaceholders(domain: string, names: set<string>)
    requires |names| > GroupCount + 1
    ensures exists n :: n in names && n !in TokenKeys(domain)
  {
    var keys := TokenKeys(domain);
    if names <= keys {
      SubsetSize(names, keys);
      assert false;
    }
  }

  lemma {:induction false} SubsetSize<T>(a: set<T>, b: set<T>)
    requires a <= b
    ensures |a| <= |b|
    decreases a
  {
    if a != {} {
      var x :| x in a;
      SubsetSize(a - {x}, b - {x});
    }
  }

  /** The scan over exactly as many placeholders as it has groups consumes all of them. */
  lemma {:induction false} ScanSegmentsLength(names: seq<string>, seps: seq<char>, rest: string, count: nat)
    requires ValidSegments(names, seps) && |names| == count
    requires rest == [] || !IsSep(rest[0])
    ensures ScanGroups(Segments(names, seps) + rest, count).length == |Segments(names, seps)|
  {
    if names == [] {
      SegmentsNil(names, seps, rest);
    } else {
      ValidSegmentsTail(names, seps);
      ScanSegmentsLength(names[1..], seps[1..], rest, count - 1);
      ScanSegmentsLengthStep(names, seps, rest, count);
    }
  }

  /** No segments before rest. */
  lemma SegmentsNil(names: seq<string>, seps: seq<char>, rest: string)
    requires names == [] && seps == []
    ensures Segments(names, seps) + rest == rest && |Segments(names, seps)| == 0
  {
  }

  /** The inductive step of ScanSegmentsLength: the first segment is consumed whole. */
  lemma ScanSegmentsLengthStep(names: seq<string>, seps: seq<char>, rest: string, count: nat)
    requires |names| == |seps| && 0 < |names| == count
    requires IsCaptureText(names[0]) && IsSep(seps[0])
    requires rest == [] || !IsSep(rest[0])
    requires ScanGroups(Segments(names[1..], seps[1..]) + rest, count - 1).length == |Segments(names[1..], seps[1..])|
    ensures ScanGroups(Segments(names, seps) + rest, count).length == |Segments(names, seps)|
  {
    var more := SegmentsCons(names, seps, rest);
    ScanSegment(names[0], seps[0], more, count);
    assert |Segments(names, seps)| == |names[0]| + 3 + |Segments(names[1..], seps[1..])|;
  }

  /** A run of segments ends with its last separator. */
  lemma {:induction false} SegmentsLast(names: seq<string>, seps: seq<char>)
    requires 0 < |names| == |seps|
    ensures var s := Segments(names, seps); s != [] && s[|s| - 1] == seps[|seps| - 1]
  {
    var s := Segments(names, seps);
    if |names| == 1 {
      assert s == Segment(names[0], seps[0]) + Segments(names[1..], seps[1..]);
      assert Segments(names[1..], seps[1..]) == [];
    } else {
      SegmentsLast(names[1..], seps[1..]);
      assert s == Segment(names[0], seps[0]) + Segments(names[1..], seps[1..]);
    }
  }

  /** Stripping the braces keeps a last character that is not a brace. */
  lemma StripBracesKeepsLast(v: string)
    requires v != [] && v[|v| - 1] != '{' && v[|v| - 1] != '}'
    ensures var r := StripBraces(v); r != [] && r[|r| - 1] == v[|v| - 1]
  {
    var last := v[|v| - 1];
    assert v == v[..|v| - 1] + [last];
    StripBracesAppend(v[..|v| - 1], [last]);
    ReplaceSingle(last, '{', "");
    ReplaceSingle(last, '}', "");
  }

  /** A text with a character outside the capture class is not capture text. */
  lemma NotCaptureText(s: string, i: nat)
    requires i < |s| && !IsCaptureChar(s[i])
    ensures !IsCaptureText(s)
  {
  }

  /**
   * The key of group 0 for twelve leading placeholders: the whole run with
   * its braces stripped, which ends with the last separator.
   */
  lemma TwelveSegmentsKey(names: seq<string>, seps: seq<char>)
    requires ValidSegments(names, seps) && |names| == GroupCount
    requires seps[GroupCount - 1] != '-'
    ensures !IsCaptureText(StripBraces(Segments(names, seps)))
  {
    var run := Segments(names, seps);
    SegmentsLast(names, seps);
    assert IsSep(seps[GroupCount - 1]);
    StripBracesKeepsLast(run);
    var key := StripBraces(run);
    NotCaptureText(key, |key| - 1);
  }

  /**
   * The token regex repeats its group twelve times: after twelve leading
   * placeholders, each followed by one separator, a thirteenth placeholder
   * is not removed (when its name is new and the twelfth separator is a
   * dot or a slash, so that group 0's key cannot be that name), while the
   * twelve before it are.
   */
  lemma ThirteenthPlaceholderKept(names: seq<string>, seps: seq<char>, last: string, rest: string)
    requires ValidSegments(names, seps) && |names| == GroupCount
    requires seps[GroupCount - 1] != '-'
    requires IsCaptureText(last) && last !in names
    ensures var domain := Segments(names, seps) + ("{" + last + "}" + rest);
      last !in TokenKeys(domain) && forall j :: 0 <= j < |names| ==> names[j] in TokenKeys(domain)
  {
    var run := Segments(names, seps);
    var tail := "{" + last + "}" + rest;
    var domain := run + tail;
    assert tail[0] == '{';
    LeadingPlaceholdersFound(names, seps, tail);
    ScanSegments(names, seps, tail, GroupCount);
    ScanSegmentsLength(names, seps, tail, GroupCount);
    var scan := ScanGroups(domain, GroupCount);
    assert scan.groups == Braced(names);
    assert domain[..scan.length] == run;
    var gs := TokenGroups(domain);
    TokenGroupsOfScan(domain, scan);
    TwelveSegmentsKey(names, seps);
    forall j | 0 <= j < |gs| && gs[j].Some?
      ensures StripBraces(gs[j].value) != last
    {
      if j > 0 {
        assert gs[j] == Some("{" + names[j - 1] + "}");
        assert '{' !in names[j - 1] && '}' !in names[j - 1] by {
          assert forall x :: x in names[j - 1] ==> IsCaptureChar(x);
        }
        StripBracesOfToken(names[j - 1]);
      }
    }
  }
}
