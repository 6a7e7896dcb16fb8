/**
 * Template compilation. CreateRegex is the literal rewrite the route
 * performs: five replace-all steps and the ^…$ anchors. Below it, the same
 * template seen as what it means: a sequence of literal characters,
 * optional separators and named placeholders, and the proof that the
 * rewrite produces exactly the regex text of those tokens.
 */
module Template {
  import opened Wrappers
  import opened Text

  /** The group body that every '}' is rewritten to: a named capture of `[a-zA-Z0-9_-]*`. */
  const CaptureTail: string := ">([a-zA-Z0-9_-]*))"

  /**
   * The five replace-all steps, in the source's order: '/', '.', '-', '{',
   * '}'. Every brace is rewritten into group syntax, so none is left.
   */
  function Rewrite(source: string): (r: string)
    ensures '{' !in r && '}' !in r
  {
    var slash := Replace(source, '/', "\\/?");
    var dot := Replace(slash, '.', "\\.?");
    var dash := Replace(dot, '-', "\\-?");
    var open := Replace(dash, '{', "(?<");
    assert '{' !in CaptureTail && '}' !in CaptureTail;
    ReplaceAbsent(open, '}', CaptureTail, '{');
    Replace(open, '}', CaptureTail)
  }

  /**
   * The anchored pattern text for a template. It matches whole strings
   * only, and no brace survives the rewrite.
   */
  function CreateRegex(source: string): (r: string)
    ensures |r| >= 2 && r[0] == '^' && r[|r| - 1] == '$'
    ensures '{' !in r && '}' !in r
  {
    "^" + Rewrite(source) + "$"
  }

  /** A template without separators or braces compiles to itself, anchored. */
  lemma LiteralTemplate(source: string)
    requires forall i :: 0 <= i < |source| ==> !IsSyntax(source[i])
    ensures CreateRegex(source) == "^" + source + "$"
  {
  }

  /** The characters the rewrite acts on. */
  predicate IsSyntax(c: char)
  {
    IsSep(c) || c == '{' || c == '}'
  }

  /** One piece of a template. */
  datatype Token =
    | Literal(c: char)        // a character the input must contain as it is
    | Sep(c: char)            // '/', '.' or '-': the input may or may not contain it
    | Placeholder(name: string)  // `{name}`: captures a run of `[a-zA-Z0-9_-]`

  predicate IsSep(c: char)
  {
    c == '/' || c == '.' || c == '-'
  }

  /** A character that stands for itself both in the template and in the regex built from it. */
  predicate IsLiteralChar(c: char)
  {
    !IsSep(c) && c != '{' && c != '}' && c != '\\' && c != '*' && c != '+' && c != '?'
    && c != '|' && c != '[' && c != ']' && c != '(' && c != ')' && c != '^' && c != '$'
  }

  /** A placeholder name: `[A-Za-z0-9_]+`, not starting with a digit. */
  predicate IsName(n: string)
  {
    n != [] && !IsDigit(n[0]) && forall i :: 0 <= i < |n| ==> IsNameChar(n[i])
  }

  predicate WellFormedToken(t: Token)
  {
    match t
    case Literal(c) => IsLiteralChar(c)
    case Sep(c) => IsSep(c)
    case Placeholder(n) => IsName(n)
  }

  predicate WellFormed(toks: seq<Token>)
  {
    forall i :: 0 <= i < |toks| ==> WellFormedToken(toks[i])
  }

  /** The template text of one token. */
  function TokenText(t: Token): string
  {
    match t
    case Literal(c) => [c]
    case Sep(c) => [c]
    case Placeholder(n) => "{" + n + "}"
  }

  /** The template text of a token sequence. */
  function Render(toks: seq<Token>): string
  {
    if toks == [] then [] else TokenText(toks[0]) + Render(toks[1..])
  }

  /** The regex text one token stands for. */
  function TokenRegex(t: Token): string
  {
    match t
    case Literal(c) => [c]
    case Sep(c) => ['\\', c, '?']
    case Placeholder(n) => "(?<" + n + CaptureTail
  }

  /** The regex text of a token sequence, unanchored. */
  function Emit(toks: seq<Token>): string
  {
    if toks == [] then [] else TokenRegex(toks[0]) + Emit(toks[1..])
  }

  /** Prepends a token to a successful parse. */
  function Cons(t: Token, rest: Option<seq<Token>>): (r: Option<seq<Token>>)
    ensures r.Some? <==> rest.Some?
    ensures r.Some? ==> Render(r.value) == TokenText(t) + Render(rest.value)
    ensures r.Some? && WellFormedToken(t) && WellFormed(rest.value) ==> WellFormed(r.value)
  {
    if rest.Some? then
      var toks := [t] + rest.value;
      assert toks[1..] == rest.value;
      Some(toks)
    else None
  }

  /**
   * Splits a template into tokens; None for an unbalanced or empty brace,
   * a name outside `[A-Za-z0-9_]+` or starting with a digit, or a regex
   * metacharacter outside a placeholder.
   */
  function Tokenize(t: string): (r: Option<seq<Token>>)
    ensures r.Some? ==> WellFormed(r.value) && Render(r.value) == t
    decreases |t|
  {
    if t == [] then Some([])
    else if IsSep(t[0]) then
      assert t == [t[0]] + t[1..];
      Cons(Sep(t[0]), Tokenize(t[1..]))
    else if t[0] == '{' then
      var n := Span(t[1..], IsNameChar);
      if 0 < n && n + 1 < |t| && t[n + 1] == '}' && !IsDigit(t[1]) then
        PlaceholderAt(t, n);
        Cons(Placeholder(t[1..n + 1]), Tokenize(t[n + 2..]))
      else None
    else if IsLiteralChar(t[0]) then
      assert t == [t[0]] + t[1..];
      Cons(Literal(t[0]), Tokenize(t[1..]))
    else None
  }

  /** A `{name}` that Tokenize recognises at the start of t. */
  lemma PlaceholderAt(t: string, n: nat)
    requires t != [] && t[0] == '{' && n == Span(t[1..], IsNameChar)
    requires 0 < n && n + 1 < |t| && t[n + 1] == '}' && !IsDigit(t[1])
    ensures IsName(t[1..n + 1]) && t == "{" + t[1..n + 1] + "}" + t[n + 2..]
  {
    var name := t[1..n + 1];
    assert forall i :: 0 <= i < n ==> name[i] == t[1..][i];
  }

  /** Rendering well-formed tokens and parsing the text gives the tokens back. */
  lemma {:induction false} TokenizeRender(toks: seq<Token>)
    requires WellFormed(toks)
    ensures Tokenize(Render(toks)) == Some(toks)
  {
    if toks != [] {
      var rest := toks[1..];
      assert WellFormed(rest) by {
        forall i | 0 <= i < |rest| ensures WellFormedToken(rest[i]) {
          assert rest[i] == toks[i + 1];
        }
      }
      TokenizeRender(rest);
      TokenizeStep(toks[0], Render(rest));
      assert [toks[0]] + rest == toks;
    }
  }

  /** Parsing the text of one well-formed token followed by anything. */
  lemma TokenizeStep(t: Token, more: string)
    requires WellFormedToken(t)
    ensures Tokenize(TokenText(t) + more) == Cons(t, Tokenize(more))
  {
    var s := TokenText(t) + more;
    match t
    case Literal(c) =>
      assert s[1..] == more;
    case Sep(c) =>
      assert s[1..] == more;
    case Placeholder(n) =>
      TokenizePlaceholder(n, more);
  }

  /** Parsing `{name}` followed by anything. */
  lemma TokenizePlaceholder(n: string, more: string)
    requires IsName(n)
    ensures Tokenize("{" + n + "}" + more) == Cons(Placeholder(n), Tokenize(more))
  {
    var s := "{" + n + "}" + more;
    assert s[1..] == n + "}" + more;
    SpanOfName(n, more);
    assert s[1..|n| + 1] == n;
    assert s[|n| + 2..] == more;
  }

  /** A name followed by '}' spans exactly the name. */
  lemma SpanOfName(n: string, more: string)
    requires IsName(n)
    ensures Span(n + "}" + more, IsNameChar) == |n|
  {
    var x := n + "}" + more;
    assert x[|n|] == '}';
    assert forall i :: 0 <= i < |n| ==> x[i] == n[i];
  }

  /** The rewrite distributes over concatenation. */
  lemma RewriteAppend(a: string, b: string)
    ensures Rewrite(a + b) == Rewrite(a) + Rewrite(b)
  {
    var s1a, s1b := Replace(a, '/', "\\/?"), Replace(b, '/', "\\/?");
    ReplaceAppend(a, b, '/', "\\/?");
    var s2a, s2b := Replace(s1a, '.', "\\.?"), Replace(s1b, '.', "\\.?");
    ReplaceAppend(s1a, s1b, '.', "\\.?");
    var s3a, s3b := Replace(s2a, '-', "\\-?"), Replace(s2b, '-', "\\-?");
    ReplaceAppend(s2a, s2b, '-', "\\-?");
    var s4a, s4b := Replace(s3a, '{', "(?<"), Replace(s3b, '{', "(?<");
    ReplaceAppend(s3a, s3b, '{', "(?<");
    ReplaceAppend(s4a, s4b, '}', CaptureTail);
  }

  /** Each well-formed token's text is rewritten to exactly its regex. */
  lemma RewriteToken(t: Token)
    requires WellFormedToken(t)
    ensures Rewrite(TokenText(t)) == TokenRegex(t)
  {
    match t
    case Literal(c) =>
      RewriteChar(c);
    case Sep(c) =>
      RewriteChar(c);
    case Placeholder(n) =>
      RewritePlaceholder(n);
  }

  /** `{name}` becomes the named capture `(?<name>([a-zA-Z0-9_-]*))`. */
  lemma RewritePlaceholder(n: string)
    requires IsName(n)
    ensures Rewrite("{" + n + "}") == "(?<" + n + CaptureTail
  {
    var open, close := ['{'], ['}'];
    assert "{" + n + "}" == open + (n + close);
    RewriteAppend(open, n + close);
    RewriteAppend(n, close);
    RewriteName(n);
    RewriteChar('{');
    RewriteChar('}');
    assert Rewrite(n + close) == n + CaptureTail;
    assert Rewrite("{" + n + "}") == "(?<" + (n + CaptureTail);
  }

  /** A name has none of the characters the rewrite acts on. */
  lemma RewriteName(n: string)
    requires IsName(n)
    ensures Rewrite(n) == n
  {
    assert forall x :: x in n ==> IsNameChar(x);
  }

  /** The rewrite of a single character. */
  lemma RewriteChar(x: char)
    ensures Rewrite([x]) == match x
      case '/' => "\\/?"
      case '.' => "\\.?"
      case '-' => "\\-?"
      case '{' => "(?<"
      case '}' => CaptureTail
      case _ => [x]
  {
    ReplaceSingle(x, '/', "\\/?");
    var s1 := Replace([x], '/', "\\/?");
    if x == '/' {
      assert '.' !in s1 && '-' !in s1 && '{' !in s1 && '}' !in s1;
    } else {
      ReplaceSingle(x, '.', "\\.?");
      var s2 := Replace(s1, '.', "\\.?");
      if x == '.' {
        assert '-' !in s2 && '{' !in s2 && '}' !in s2;
      } else {
        ReplaceSingle(x, '-', "\\-?");
        var s3 := Replace(s2, '-', "\\-?");
        if x == '-' {
          assert '{' !in s3 && '}' !in s3;
        } else {
          ReplaceSingle(x, '{', "(?<");
          var s4 := Replace(s3, '{', "(?<");
          if x == '{' {
            assert '}' !in s4;
          } else {
            ReplaceSingle(x, '}', CaptureTail);
          }
        }
      }
    }
  }

  /** Rewriting the text of well-formed tokens yields the regex text of those tokens. */
  lemma {:induction false} RewriteRender(toks: seq<Token>)
    requires WellFormed(toks)
    ensures Rewrite(Render(toks)) == Emit(toks)
  {
    if toks != [] {
      assert WellFormed(toks[1..]) by {
        forall i | 0 <= i < |toks[1..]| ensures WellFormedToken(toks[1..][i]) {
          assert toks[1..][i] == toks[i + 1];
        }
      }
      RewriteRender(toks[1..]);
      RewriteAppend(TokenText(toks[0]), Render(toks[1..]));
      RewriteToken(toks[0]);
    }
  }

  /**
   * The compiled pattern of any template that parses is the anchored regex
   * of its tokens: a separator becomes an optional escaped character, a
   * placeholder a named capture of `[a-zA-Z0-9_-]*`, anything else itself.
   */
  lemma CreateRegexOfTokens(t: string, toks: seq<Token>)
    requires Tokenize(t) == Some(toks)
    ensures CreateRegex(t) == "^" + Emit(toks) + "$"
  {
    RewriteRender(toks);
  }
}
