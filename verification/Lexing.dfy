/**
 Texts and their tokens: a text that is spelled token by token has these tokens.
 */
module Lexing {
  import opened CxxReader
  import opened Reading

  /** `tokens` in front of those of the rest. */
  function Then(tokens: seq<string>, rest: Option<seq<string>>): Option<seq<string>> {
    match rest
    case None => None
    case Some(more) => Some(tokens + more)
  }

  lemma ThenThen(a: seq<string>, b: seq<string>, rest: Option<seq<string>>)
    ensures Then(a, Then(b, rest)) == Then(a + b, rest)
  {
    if rest.Some? { assert a + (b + rest.value) == a + b + rest.value; }
  }

  lemma ThenNone(rest: Option<seq<string>>)
    ensures Then([], rest) == rest
  {
    if rest.Some? { assert [] + rest.value == rest.value; }
  }

  /** White space in front of something other than a directive. */
  lemma {:induction false} LexSpace(ws: string, s: string)
    requires AllSpace(ws) && (s != "" ==> s[0] != '#')
    ensures Lex(ws + s) == Lex(s)
  {
    if ws == "" {
      assert ws + s == s;
    } else {
      assert (ws + s)[1..] == ws[1..] + s;
      LexSpace(ws[1..], s);
    }
  }

  predicate IsToken(token: string) {
    || (token != "" && forall k | 0 <= k < |token| :: IsWordChar(token[k]))
    || (|token| == 2 && IsPair(token[0], token[1]))
    || (|token| == 1 && IsPunctuation(token[0]))
  }

  /** The token does not go on with `c`. */
  predicate EndsBefore(token: string, c: char)
    requires token != ""
  {
    && (IsWordChar(token[0]) ==> !IsWordChar(c))
    && (|token| == 1 && !IsWordChar(token[0]) ==> !IsPair(token[0], c))
  }

  lemma LexToken(token: string, rest: string)
    requires IsToken(token) && (rest != "" ==> EndsBefore(token, rest[0]))
    ensures Lex(token + rest) == Then([token], Lex(rest))
  {
    var s := token + rest;
    if IsWordChar(token[0]) { MunchExact(IsWordChar, token, rest); }
    assert TokenLength(s) == |token|;
    assert s[..|token|] == token && s[|token|..] == rest;
  }

  /** White space, a token, and a rest whose tokens are known. */
  lemma LexNext(ws: string, token: string, rest: string, tokens: seq<string>)
    requires AllSpace(ws) && IsToken(token) && (rest != "" ==> EndsBefore(token, rest[0])) && Lex(rest) == Some(tokens)
    ensures Lex(ws + (token + rest)) == Some([token] + tokens)
  {
    LexSpace(ws, token + rest);
    LexToken(token, rest);
  }

  lemma LexDirective(rest: string)
    ensures Lex("\n#" + rest) == Then(["#"], Lex(rest))
  {
    var s := "\n#" + rest;
    assert s[0] == '\n' && s[1] == '#' && s[2..] == rest;
  }

  // --- Spelled texts ---

  /** White space and a token, again and again, and white space at the end. */
  datatype Spelling = End(ws: string) | Token(ws: string, token: string, rest: Spelling)

  function TextOf(x: Spelling): string {
    match x
    case End(ws) => ws
    case Token(ws, token, rest) => ws + (token + TextOf(rest))
  }

  function TokensOf(x: Spelling): seq<string> {
    match x
    case End(_) => []
    case Token(_, token, rest) => [token] + TokensOf(rest)
  }

  /** The first character of the text, which is never empty. */
  function FirstChar(x: Spelling): char {
    match x
    case End(ws) => if ws == "" then ' ' else ws[0]
    case Token(ws, token, _) => if ws != "" then ws[0] else if token != "" then token[0] else ' '
  }

  /** The tokens are tokens, none goes on into the next, and the end is white space. */
  predicate WellSpelled(x: Spelling) {
    match x
    case End(ws) => AllSpace(ws) && ws != ""
    case Token(ws, token, rest) =>
      AllSpace(ws) && IsToken(token) && EndsBefore(token, FirstChar(rest)) && WellSpelled(rest)
  }

  lemma {:induction false} SpelledStarts(x: Spelling)
    requires WellSpelled(x)
    ensures TextOf(x) != "" && TextOf(x)[0] == FirstChar(x) && FirstChar(x) != '#'
  {
  }

  /** The text has these tokens, whatever follows it but a directive. */
  ghost predicate LexesTo(text: string, tokens: seq<string>) {
    && text != "" && text[0] != '#'
    && forall rest | rest == "" || rest[0] != '#' :: Lex(text + rest) == Then(tokens, Lex(rest))
  }

  lemma {:induction false} SpelledLexes(x: Spelling, rest: string)
    requires WellSpelled(x) && (rest != "" ==> rest[0] != '#')
    ensures Lex(TextOf(x) + rest) == Then(TokensOf(x), Lex(rest))
    decreases x
  {
    match x
    case End(ws) =>
      LexSpace(ws, rest);
      ThenNone(Lex(rest));
    case Token(ws, token, more) =>
      SpelledLexes(more, rest);
      SpelledStarts(more);
      TokenThen(ws, token, TextOf(more), rest, TokensOf(more));
  }

  lemma TokenThen(ws: string, token: string, text: string, rest: string, tokens: seq<string>)
    requires AllSpace(ws) && IsToken(token) && text != "" && EndsBefore(token, text[0])
    requires Lex(text + rest) == Then(tokens, Lex(rest))
    ensures Lex(ws + (token + text) + rest) == Then([token] + tokens, Lex(rest))
  {
    assert ws + (token + text) + rest == ws + (token + (text + rest));
    assert (text + rest)[0] == text[0];
    LexSpace(ws, token + (text + rest));
    LexToken(token, text + rest);
    ThenThen([token], tokens, Lex(rest));
  }

  lemma SpellingLexes(x: Spelling)
    requires WellSpelled(x)
    ensures LexesTo(TextOf(x), TokensOf(x))
  {
    SpelledStarts(x);
    forall rest | rest == "" || rest[0] != '#' ensures Lex(TextOf(x) + rest) == Then(TokensOf(x), Lex(rest)) {
      SpelledLexes(x, rest);
    }
  }

  lemma Joined(a: string, ta: seq<string>, b: string, tb: seq<string>)
    requires LexesTo(a, ta) && LexesTo(b, tb)
    ensures LexesTo(a + b, ta + tb)
  {
    forall rest | rest == "" || rest[0] != '#' ensures Lex(a + b + rest) == Then(ta + tb, Lex(rest)) {
      LexesWith(b, tb, rest);
      LexesWith(a, ta, b + rest);
      JoinedWith(a, ta, b, tb, rest);
    }
  }

  lemma LexesWith(text: string, tokens: seq<string>, rest: string)
    requires LexesTo(text, tokens) && (rest == "" || rest[0] != '#')
    ensures Lex(text + rest) == Then(tokens, Lex(rest))
  {
  }

  lemma JoinedWith(a: string, ta: seq<string>, b: string, tb: seq<string>, rest: string)
    requires Lex(b + rest) == Then(tb, Lex(rest)) && Lex(a + (b + rest)) == Then(ta, Lex(b + rest))
    ensures Lex(a + b + rest) == Then(ta + tb, Lex(rest))
  {
    assert a + b + rest == a + (b + rest);
    ThenThen(ta, tb, Lex(rest));
  }

  lemma LexesAlone(text: string, tokens: seq<string>)
    requires LexesTo(text, tokens)
    ensures Lex(text) == Some(tokens)
  {
    assert text + "" == text && tokens + [] == tokens;
    assert Lex("") == Some([]);
  }

  lemma LexesBefore(text: string, tokens: seq<string>, end: string, more: seq<string>)
    requires LexesTo(text, tokens) && end != "" && end[0] != '#' && Lex(end) == Some(more)
    ensures Lex(text + end) == Some(tokens + more)
  {
    LexesWith(text, tokens, end);
  }

  lemma DirectiveLexes(text: string, tokens: seq<string>)
    requires LexesTo(text, tokens)
    ensures Lex("\n#" + text) == Some(["#"] + tokens)
  {
    LexDirective(text);
    LexesAlone(text, tokens);
  }
}
