/**
 * What a compiled template accepts. The regex engine itself is not
 * modelled; instead Matches states when the anchored regex of a token
 * sequence accepts an input with a given assignment of captures, which is
 * the witness the engine would report.
 */
module Matching {
  import opened Text
  import opened Template

  /** A named group's name and the text it captured. */
  type Capture = (string, string)

  /**
   * The anchored regex of toks accepts the whole of s, with caps the
   * captures of its placeholders in template order: a literal must be
   * present, a separator may be present or absent, a placeholder consumes
   * a possibly empty run of `[a-zA-Z0-9_-]`.
   */
  predicate Matches(toks: seq<Token>, s: string, caps: seq<Capture>)
    decreases |toks|
  {
    if toks == [] then s == [] && caps == []
    else
      match toks[0]
      case Literal(c) =>
        s != [] && s[0] == c && Matches(toks[1..], s[1..], caps)
      case Sep(c) =>
        (s != [] && s[0] == c && Matches(toks[1..], s[1..], caps)) || Matches(toks[1..], s, caps)
      case Placeholder(n) =>
        caps != [] && caps[0].0 == n && IsCaptureText(caps[0].1)
        && |caps[0].1| <= |s| && s[..|caps[0].1|] == caps[0].1
        && Matches(toks[1..], s[|caps[0].1|..], caps[1..])
  }

  /** The placeholder names of a template, in order. */
  function Names(toks: seq<Token>): (r: seq<string>)
    ensures |r| <= |toks|
  {
    if toks == [] then []
    else (if toks[0].Placeholder? then [toks[0].name] else []) + Names(toks[1..])
  }

  /** The captured texts of a capture list. */
  function Texts(caps: seq<Capture>): (r: seq<string>)
    ensures |r| == |caps|
    ensures forall j :: 0 <= j < |caps| ==> r[j] == caps[j].1
  {
    if caps == [] then [] else [caps[0].1] + Texts(caps[1..])
  }

  /** Pairs names with texts. */
  function Pair(names: seq<string>, texts: seq<string>): (r: seq<Capture>)
    requires |names| == |texts|
    ensures |r| == |names|
    ensures forall j :: 0 <= j < |r| ==> r[j] == (names[j], texts[j])
  {
    if names == [] then [] else [(names[0], texts[0])] + Pair(names[1..], texts[1..])
  }

  /**
   * The input that fills each placeholder with the next text and keeps or
   * drops each separator as keep says.
   */
  function Fill(toks: seq<Token>, texts: seq<string>, keep: seq<bool>): string
    requires |keep| == |toks| && |texts| == |Names(toks)|
  {
    if toks == [] then []
    else
      match toks[0]
      case Literal(c) => [c] + Fill(toks[1..], texts, keep[1..])
      case Sep(c) => (if keep[0] then [c] else []) + Fill(toks[1..], texts, keep[1..])
      case Placeholder(n) => texts[0] + Fill(toks[1..], texts[1..], keep[1..])
  }

  /**
   * Each separator is optional and each placeholder takes any run of
   * `[a-zA-Z0-9_-]`, the empty one included: every filling of a template
   * matches it, with the fill texts as captures.
   */
  lemma {:induction false} FillMatches(toks: seq<Token>, texts: seq<string>, keep: seq<bool>)
    requires |keep| == |toks| && |texts| == |Names(toks)|
    requires forall j :: 0 <= j < |texts| ==> IsCaptureText(texts[j])
    ensures Matches(toks, Fill(toks, texts, keep), Pair(Names(toks), texts))
  {
    if toks != [] {
      var s := Fill(toks, texts, keep);
      var rest := keep[1..];
      if toks[0].Placeholder? {
        FillMatches(toks[1..], texts[1..], rest);
        FillPlaceholderStep(toks, texts, keep);
      } else {
        FillMatches(toks[1..], texts, rest);
        FillFixedStep(toks, texts, keep);
      }
    }
  }

  /** FillMatches past a placeholder, given that the rest matches. */
  lemma FillPlaceholderStep(toks: seq<Token>, texts: seq<string>, keep: seq<bool>)
    requires toks != [] && toks[0].Placeholder?
    requires |keep| == |toks| && |texts| == |Names(toks)|
    requires IsCaptureText(texts[0])
    requires Matches(toks[1..], Fill(toks[1..], texts[1..], keep[1..]), Pair(Names(toks[1..]), texts[1..]))
    ensures Matches(toks, Fill(toks, texts, keep), Pair(Names(toks), texts))
  {
    var s := Fill(toks, texts, keep);
    var caps := Pair(Names(toks), texts);
    assert caps[1..] == Pair(Names(toks[1..]), texts[1..]);
    assert s == texts[0] + Fill(toks[1..], texts[1..], keep[1..]);
    assert s[..|texts[0]|] == texts[0];
    assert s[|texts[0]|..] == Fill(toks[1..], texts[1..], keep[1..]);
  }

  /** FillMatches past a literal or a separator, given that the rest matches. */
  lemma FillFixedStep(toks: seq<Token>, texts: seq<string>, keep: seq<bool>)
    requires toks != [] && !toks[0].Placeholder?
    requires |keep| == |toks| && |texts| == |Names(toks)|
    requires Matches(toks[1..], Fill(toks[1..], texts, keep[1..]), Pair(Names(toks[1..]), texts))
    ensures Matches(toks, Fill(toks, texts, keep), Pair(Names(toks), texts))
  {
    var s := Fill(toks, texts, keep);
    assert Names(toks) == Names(toks[1..]);
    if toks[0].Literal? || keep[0] {
      assert s == [toks[0].c] + Fill(toks[1..], texts, keep[1..]);
      assert s[1..] == Fill(toks[1..], texts, keep[1..]);
    } else {
      assert s == Fill(toks[1..], texts, keep[1..]);
    }
  }

  /**
   * The captures of a match are named after the template's placeholders,
   * in order, and each captured text is a run of `[a-zA-Z0-9_-]`.
   */
  lemma {:induction false} CapturesFollowPlaceholders(toks: seq<Token>, s: string, caps: seq<Capture>)
    requires Matches(toks, s, caps)
    ensures |caps| == |Names(toks)|
    ensures forall j :: 0 <= j < |caps| ==> caps[j].0 == Names(toks)[j] && IsCaptureText(caps[j].1)
  {
    if toks != [] {
      match toks[0]
      case Literal(c) =>
        CapturesFollowPlaceholders(toks[1..], s[1..], caps);
      case Sep(c) =>
        if s != [] && s[0] == c && Matches(toks[1..], s[1..], caps) {
          CapturesFollowPlaceholders(toks[1..], s[1..], caps);
        } else {
          CapturesFollowPlaceholders(toks[1..], s, caps);
        }
      case Placeholder(n) =>
        CapturesFollowPlaceholders(toks[1..], s[|caps[0].1|..], caps[1..]);
        forall j | 0 < j < |caps|
          ensures caps[j].0 == Names(toks)[j] && IsCaptureText(caps[j].1)
        {
          assert caps[j] == caps[1..][j - 1];
        }
    }
  }

  /**
   * Conversely to FillMatches, every input a template matches is one of
   * its fillings: the captured texts with the literals and some of the
   * separators between them.
   */
  lemma {:induction false} MatchIsFill(toks: seq<Token>, s: string, caps: seq<Capture>)
    requires Matches(toks, s, caps)
    ensures |caps| == |Names(toks)|
    decreases |toks|, 2
    ensures exists keep :: |keep| == |toks| && s == Fill(toks, Texts(caps), keep)
  {
    CapturesFollowPlaceholders(toks, s, caps);
    if toks == [] {
      assert s == Fill(toks, Texts(caps), []);
    } else if toks[0].Placeholder? {
      var keep := MatchIsFillPlaceholder(toks, s, caps);
    } else {
      var keep := MatchIsFillFixed(toks, s, caps);
    }
  }

  /** The induction step of MatchIsFill at a placeholder. */
  lemma MatchIsFillPlaceholder(toks: seq<Token>, s: string, caps: seq<Capture>) returns (keep: seq<bool>)
    requires toks != [] && toks[0].Placeholder? && Matches(toks, s, caps)
    requires |caps| == |Names(toks)|
    decreases |toks|, 1
    ensures |keep| == |toks| && s == Fill(toks, Texts(caps), keep)
  {
    var v := caps[0].1;
    MatchIsFill(toks[1..], s[|v|..], caps[1..]);
    assert Texts(caps)[1..] == Texts(caps[1..]);
    var tail :| |tail| == |toks| - 1 && s[|v|..] == Fill(toks[1..], Texts(caps[1..]), tail);
    keep := [true] + tail;
    assert keep[1..] == tail;
    assert s == v + s[|v|..];
  }

  /** The induction step of MatchIsFill at a literal or a separator. */
  lemma MatchIsFillFixed(toks: seq<Token>, s: string, caps: seq<Capture>) returns (keep: seq<bool>)
    requires toks != [] && !toks[0].Placeholder? && Matches(toks, s, caps)
    requires |caps| == |Names(toks)|
    decreases |toks|, 1
    ensures |keep| == |toks| && s == Fill(toks, Texts(caps), keep)
  {
    var c := toks[0].c;
    if s != [] && s[0] == c && Matches(toks[1..], s[1..], caps) {
      var tail := MatchIsFillTail(toks, s[1..], caps);
      assert s == [c] + s[1..];
      keep := [true] + tail;
    } else {
      var tail := MatchIsFillTail(toks, s, caps);
      keep := [false] + tail;
    }
  }

  /** The induction step of MatchIsFill past a literal or separator token. */
  lemma MatchIsFillTail(toks: seq<Token>, rest: string, caps: seq<Capture>) returns (keep: seq<bool>)
    requires toks != [] && !toks[0].Placeholder?
    requires Matches(toks[1..], rest, caps)
    requires |caps| == |Names(toks)|
    decreases |toks|, 0
    ensures |keep| == |toks| - 1
    ensures Fill(toks, Texts(caps), [true] + keep) == [toks[0].c] + rest
    ensures Fill(toks, Texts(caps), [false] + keep) == (if toks[0].Sep? then rest else [toks[0].c] + rest)
  {
    MatchIsFill(toks[1..], rest, caps);
    assert Names(toks) == Names(toks[1..]);
    keep :| |keep| == |toks| - 1 && rest == Fill(toks[1..], Texts(caps), keep);
    assert ([true] + keep)[1..] == keep;
    assert ([false] + keep)[1..] == keep;
  }

  /** Literal characters must appear exactly: a template of literals only matches its own text and nothing else. */
  lemma {:induction false} LiteralsExact(toks: seq<Token>, s: string, caps: seq<Capture>)
    requires forall i :: 0 <= i < |toks| ==> toks[i].Literal?
    ensures Matches(toks, s, caps) <==> s == Render(toks) && caps == []
  {
    if toks != [] {
      if s != [] {
        LiteralsExact(toks[1..], s[1..], caps);
        assert s == [s[0]] + s[1..];
      }
    }
  }

  /**
   * What the .NET engine accepts for the anchored pattern of toks: its `$`
   * also matches just before a final newline, so an input made of a
   * matching text and one trailing '\n' is accepted with the same captures.
   */
  predicate Accepts(toks: seq<Token>, s: string, caps: seq<Capture>)
  {
    Matches(toks, s, caps) || (s != [] && s[|s| - 1] == '\n' && Matches(toks, s[..|s| - 1], caps))
  }

  /** Every filling of a template is accepted, with or without one trailing newline. */
  lemma FillAccepted(toks: seq<Token>, texts: seq<string>, keep: seq<bool>)
    requires |keep| == |toks| && |texts| == |Names(toks)|
    requires forall j :: 0 <= j < |texts| ==> IsCaptureText(texts[j])
    ensures Accepts(toks, Fill(toks, texts, keep), Pair(Names(toks), texts))
    ensures Accepts(toks, Fill(toks, texts, keep) + "\n", Pair(Names(toks), texts))
  {
    var f := Fill(toks, texts, keep);
    FillMatches(toks, texts, keep);
    assert (f + "\n")[..|f + "\n"| - 1] == f;
  }

  /**
   * Every input the engine accepts is a filling of the template, possibly
   * followed by one newline, and its captures are the fill texts.
   */
  lemma AcceptedIsFill(toks: seq<Token>, s: string, caps: seq<Capture>)
    requires Accepts(toks, s, caps)
    ensures |caps| == |Names(toks)|
    ensures exists keep :: |keep| == |toks| && (s == Fill(toks, Texts(caps), keep) || s == Fill(toks, Texts(caps), keep) + "\n")
  {
    if Matches(toks, s, caps) {
      MatchIsFill(toks, s, caps);
    } else {
      var t := s[..|s| - 1];
      MatchIsFill(toks, t, caps);
      var keep :| |keep| == |toks| && t == Fill(toks, Texts(caps), keep);
      assert s == t + "\n";
    }
  }

  /** CapturesFollowPlaceholders for what the engine accepts. */
  lemma AcceptedCaptures(toks: seq<Token>, s: string, caps: seq<Capture>)
    requires Accepts(toks, s, caps)
    ensures |caps| == |Names(toks)|
    ensures forall j :: 0 <= j < |caps| ==> caps[j].0 == Names(toks)[j] && IsCaptureText(caps[j].1)
  {
    if Matches(toks, s, caps) {
      CapturesFollowPlaceholders(toks, s, caps);
    } else {
      CapturesFollowPlaceholders(toks, s[..|s| - 1], caps);
    }
  }

  /**
   * A template of literals only is accepted on its own text, or on that
   * text and one newline, and on nothing else; it captures nothing.
   */
  lemma LiteralsAccepted(toks: seq<Token>, s: string, caps: seq<Capture>)
    requires forall i :: 0 <= i < |toks| ==> toks[i].Literal?
    ensures Accepts(toks, s, caps) <==> (s == Render(toks) || s == Render(toks) + "\n") && caps == []
  {
    var r := Render(toks);
    LiteralsExact(toks, s, caps);
    if s != [] {
      LiteralsExact(toks, s[..|s| - 1], caps);
      assert s == s[..|s| - 1] + [s[|s| - 1]];
    }
    assert (r + "\n")[..|r + "\n"| - 1] == r;
  }

  /** No two placeholders of the template share a name. */
  predicate DistinctNames(toks: seq<Token>)
  {
    forall i, j :: 0 <= i < j < |Names(toks)| ==> Names(toks)[i] != Names(toks)[j]
  }

  /** The template has no placeholder. */
  predicate NoPlaceholders(toks: seq<Token>)
  {
    forall i :: 0 <= i < |toks| ==> !toks[i].Placeholder?
  }

  /** The number of characters of s that are not separators. */
  function Weight(s: string): (r: nat)
    ensures r <= |s|
  {
    if s == [] then 0 else (if IsSep(s[0]) then 0 else 1) + Weight(s[1..])
  }

  /** The number of literal tokens of a template. */
  function LiteralCount(toks: seq<Token>): (r: nat)
    ensures r <= |toks|
  {
    if toks == [] then 0 else (if toks[0].Literal? then 1 else 0) + LiteralCount(toks[1..])
  }

  /** Weight adds up over concatenation. */
  lemma {:induction false} WeightAppend(a: string, b: string)
    ensures Weight(a + b) == Weight(a) + Weight(b)
  {
    if a != [] {
      assert (a + b)[0] == a[0] && (a + b)[1..] == a[1..] + b;
      WeightAppend(a[1..], b);
    } else {
      assert a + b == b;
    }
  }

  /** A text of weight zero is made of separators only. */
  lemma {:induction false} WeightZero(s: string)
    ensures Weight(s) == 0 ==> forall j :: 0 <= j < |s| ==> IsSep(s[j])
  {
    if s != [] {
      WeightZero(s[1..]);
      assert forall j :: 0 < j < |s| ==> s[j] == s[1..][j - 1];
    }
  }

  /** A template without placeholders has no names. */
  lemma {:induction false} NoPlaceholdersNoNames(toks: seq<Token>)
    requires NoPlaceholders(toks)
    ensures Names(toks) == []
  {
    if toks != [] {
      NoPlaceholdersNoNames(toks[1..]);
    }
  }

  /**
   * A template without placeholders captures nothing, and every input it
   * matches has exactly as many non-separator characters as the template
   * has literals: separators consume separators only and literals are
   * never separators.
   */
  lemma {:induction false} FixedWeight(toks: seq<Token>, s: string, caps: seq<Capture>)
    requires WellFormed(toks) && NoPlaceholders(toks) && Matches(toks, s, caps)
    ensures caps == [] && Weight(s) == LiteralCount(toks)
  {
    if toks != [] {
      assert WellFormedToken(toks[0]);
      assert WellFormed(toks[1..]) && NoPlaceholders(toks[1..]);
      if toks[0].Literal? {
        FixedWeight(toks[1..], s[1..], caps);
      } else if s != [] && s[0] == toks[0].c && Matches(toks[1..], s[1..], caps) {
        FixedWeight(toks[1..], s[1..], caps);
      } else {
        FixedWeight(toks[1..], s, caps);
      }
    }
  }

  /**
   * A capture is a prefix of the input made of capture characters, so it
   * ends before the first character outside that class.
   */
  lemma CaptureStops(w: string, s: string, i: nat)
    requires IsCaptureText(w) && |w| <= |s| && s[..|w|] == w
    requires i < |s| && !IsCaptureChar(s[i])
    ensures |w| <= i
  {
    assert forall j :: 0 <= j < |w| ==> IsCaptureChar(s[j]) by {
      forall j | 0 <= j < |w| ensures IsCaptureChar(s[j]) {
        assert s[j] == w[j];
      }
    }
  }

  /** A text that ends with a non-separator has positive weight. */
  lemma WeightLast(s: string)
    ensures s != [] && !IsSep(s[|s| - 1]) ==> Weight(s) > 0
  {
    if s != [] {
      WeightAppend(s[..|s| - 1], [s[|s| - 1]]);
      assert s == s[..|s| - 1] + [s[|s| - 1]];
    }
  }

  /** A non-empty prefix starts with the text's first character. */
  lemma LeadingChar(w: string, s: string)
    ensures w != [] && |w| <= |s| && s[..|w|] == w ==> w[0] == s[0]
  {
  }
}
