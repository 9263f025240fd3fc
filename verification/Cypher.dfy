/** The Cypher highlighter (ui/src/cypher.ts): a tokenizer and the HTML it is printed as. */
module Cypher {
  datatype Kind = Keyword | Ident | Str | Number | Comment | Punct | Space
  datatype Token = Token(kind: Kind, text: string)

  const KEYWORDS: set<string> := {
    "and", "as", "asc", "by", "case", "contains", "create", "delete", "desc", "detach", "distinct", "else", "end",
    "ends", "false", "in", "is", "limit", "match", "merge", "not", "null", "on", "optional", "or", "order", "remove",
    "return", "set", "skip", "starts", "then", "true", "unwind", "when", "where", "with", "xor" }

  predicate IsDigit(c: char) { '0' <= c <= '9' }
  predicate IsIdentStart(c: char) { 'A' <= c <= 'Z' || 'a' <= c <= 'z' || c == '_' }
  predicate IsIdentPart(c: char) { IsIdentStart(c) || IsDigit(c) }
  predicate IsSpace(c: char) { c == ' ' || c == '\t' || c == '\n' || c == '\r' }
  predicate IsQuote(c: char) { c == '\'' || c == '"' }

  /** `toLowerCase` on identifier characters, which are all ASCII. */
  function Lower(text: string): (r: string)
    ensures |r| == |text|
  {
    seq(|text|, i requires 0 <= i < |text| => if 'A' <= text[i] <= 'Z' then text[i] - 'A' + 'a' else text[i])
  }

  predicate IsKeyword(text: string) { Lower(text) in KEYWORDS }

  // ---- the lexical grammar -------------------------------------------------

  /** How many backslashes stand right before position `j`. */
  ghost function Backslashes(t: string, j: nat): nat
    requires j <= |t|
  {
    if j == 0 || t[j - 1] != '\\' then 0 else 1 + Backslashes(t, j - 1)
  }

  /** Position `j` closes the string opened at 0: the same quote, not escaped. */
  ghost predicate Closes(t: string, j: nat) {
    0 < j < |t| && t[j] == t[0] && Backslashes(t, j) % 2 == 0
  }

  ghost predicate Closed(t: string) {
    |t| > 1 && Closes(t, |t| - 1)
  }

  /** A character that prolongs a run of this kind. */
  predicate Continues(kind: Kind, c: char) {
    match kind
    case Comment => c != '\n'
    case Number => IsDigit(c) || c == '.'
    case Keyword | Ident => IsIdentPart(c)
    case Space => IsSpace(c)
    case Str | Punct => false
  }

  ghost predicate Run(kind: Kind, t: string, from: nat) {
    forall k :: from <= k < |t| ==> Continues(kind, t[k])
  }

  /** What a token of each kind looks like. */
  ghost predicate Lexeme(t: Token) {
    var s := t.text;
    s != "" &&
    match t.kind
    case Comment => |s| >= 2 && s[0] == s[1] == '/' && Run(Comment, s, 2)
    case Str => IsQuote(s[0]) && forall j :: 0 < j < |s| - 1 ==> !Closes(s, j)
    case Number => IsDigit(s[0]) && Run(Number, s, 1)
    case Keyword => IsIdentStart(s[0]) && Run(Keyword, s, 1) && IsKeyword(s)
    case Ident => IsIdentStart(s[0]) && Run(Ident, s, 1) && !IsKeyword(s)
    case Space => IsSpace(s[0]) && Run(Space, s, 1)
    case Punct => |s| == 1 && !IsQuote(s[0]) && !IsDigit(s[0]) && !IsIdentStart(s[0]) && !IsSpace(s[0])
  }

  /** The token ends where it must: what follows could not prolong it. */
  ghost predicate Stops(t: Token, rest: string) {
    rest == "" ||
    match t.kind
    case Str => Closed(t.text)
    case Punct => t.text == "/" ==> rest[0] != '/'
    case _ => !Continues(t.kind, rest[0])
  }

  ghost predicate Starts(source: string, t: Token) {
    t.text <= source && Lexeme(t) && Stops(t, source[|t.text|..])
  }

  /** `tokens` is a reading of `source`: longest tokens, one after the other. */
  ghost predicate Lexes(source: string, tokens: seq<Token>)
    decreases |tokens|
  {
    if tokens == [] then source == "" else
    Starts(source, tokens[0]) && Lexes(source[|tokens[0].text|..], tokens[1..])
  }

  function Concat(tokens: seq<Token>): string {
    if tokens == [] then "" else tokens[0].text + Concat(tokens[1..])
  }

  // ---- the grammar has one reading of each source --------------------------

  lemma {:induction false} BackslashesOfPrefix(a: string, b: string, j: nat)
    requires a <= b && j <= |a|
    ensures Backslashes(a, j) == Backslashes(b, j)
  {
    if j > 0 { BackslashesOfPrefix(a, b, j - 1); }
  }

  lemma StringsEndTogether(source: string, a: Token, b: Token)
    requires Starts(source, a) && Starts(source, b) && a.kind == b.kind == Str
    ensures |b.text| <= |a.text|
  {
    if |a.text| < |b.text| {
      var j := |a.text| - 1;
      assert source[|a.text|..] != "" && Closed(a.text);
      BackslashesOfPrefix(a.text, source, j);
      BackslashesOfPrefix(b.text, source, j);
      assert Closes(b.text, j);
    }
  }

  lemma SameKind(source: string, a: Token, b: Token)
    requires Starts(source, a) && Starts(source, b)
    ensures a.kind == b.kind || (a.kind in {Keyword, Ident} && b.kind in {Keyword, Ident})
  {
    assert a.text[0] == source[0] == b.text[0];
    SlashSlash(source, a);
    SlashSlash(source, b);
  }

  lemma SlashSlash(source: string, t: Token)
    requires Starts(source, t)
    ensures source != "" && (t.kind == Comment <==> |source| > 1 && source[0] == source[1] == '/')
  {
    if t.kind == Punct && |source| > 1 { assert source[1..][0] == source[1]; }
  }

  lemma NotShorter(source: string, a: Token, b: Token)
    requires Starts(source, a) && Starts(source, b)
    ensures |b.text| <= |a.text|
  {
    SameKind(source, a, b);
    if a.kind == Str {
      StringsEndTogether(source, a, b);
    } else if a.kind != Punct && |a.text| < |b.text| {
      assert Continues(b.kind, b.text[|a.text|]);
    }
  }

  /** No two tokens can start the same text. */
  lemma FirstTokenIsUnique(source: string, a: Token, b: Token)
    requires Starts(source, a) && Starts(source, b)
    ensures a == b
  {
    SameKind(source, a, b);
    NotShorter(source, a, b);
    NotShorter(source, b, a);
  }

  /** A source has at most one reading, so the tokenizer's is the reading. */
  lemma {:induction false} ReadingIsUnique(source: string, a: seq<Token>, b: seq<Token>)
    requires Lexes(source, a) && Lexes(source, b)
    ensures a == b
    decreases |a|
  {
    if a != [] && b != [] {
      FirstTokenIsUnique(source, a[0], b[0]);
      ReadingIsUnique(source[|a[0].text|..], a[1..], b[1..]);
      assert a == [a[0]] + a[1..] && b == [b[0]] + b[1..];
    }
  }

  /** Nothing is lost: the texts are non-empty and join to the source. */
  lemma {:induction false} ReadingIsLossless(source: string, tokens: seq<Token>)
    requires Lexes(source, tokens)
    ensures Concat(tokens) == source
    ensures forall t <- tokens :: t.text != ""
    decreases |tokens|
  {
    if tokens != [] {
      var rest := source[|tokens[0].text|..];
      assert source == tokens[0].text + rest && tokens == [tokens[0]] + tokens[1..];
      ReadingIsLossless(rest, tokens[1..]);
    }
  }

  /** Every token text, read alone, is that one token. */
  lemma {:induction false} ReadingIsLocal(source: string, tokens: seq<Token>, k: nat)
    requires Lexes(source, tokens) && k < |tokens|
    ensures Lexes(tokens[k].text, [tokens[k]])
    decreases k
  {
    if k == 0 {
      assert Starts(tokens[0].text, tokens[0]);
    } else {
      ReadingIsLocal(source[|tokens[0].text|..], tokens[1..], k - 1);
    }
  }

  // ---- the tokenizer -------------------------------------------------------

  /** `tokens` reads the source up to `end`: a reading of the rest completes it. */
  ghost predicate ReadsTo(source: string, tokens: seq<Token>, end: nat) {
    end <= |source| && forall more :: Completes(source, tokens, end, more)
  }

  ghost predicate Completes(source: string, tokens: seq<Token>, end: nat, more: seq<Token>)
    requires end <= |source|
  {
    Lexes(source[end..], more) ==> Lexes(source, tokens + more)
  }

  lemma Push(source: string, tokens: seq<Token>, start: nat, t: Token)
    requires ReadsTo(source, tokens, start) && Starts(source[start..], t)
    ensures ReadsTo(source, tokens + [t], start + |t.text|)
  {
    var longer, end := tokens + [t], start + |t.text|;
    forall more ensures Completes(source, longer, end, more) {
      assert Completes(source, tokens, start, [t] + more);
      PushOne(source, tokens, start, t, more);
    }
  }

  lemma PushOne(source: string, tokens: seq<Token>, start: nat, t: Token, more: seq<Token>)
    requires start <= |source| && Starts(source[start..], t) && Completes(source, tokens, start, [t] + more)
    ensures Completes(source, tokens + [t], start + |t.text|, more)
  {
    var end := start + |t.text|;
    assert tokens + [t] + more == tokens + ([t] + more);
    assert source[start..][|t.text|..] == source[end..];
    if Lexes(source[end..], more) {
      OneMore(source[start..], source[end..], t, more);
    }
  }

  lemma OneMore(source: string, rest: string, t: Token, more: seq<Token>)
    requires Starts(source, t) && source[|t.text|..] == rest && Lexes(rest, more)
    ensures Lexes(source, [t] + more)
  {
    assert ([t] + more)[1..] == more;
  }

  /** The loops that run over one kind of character. */
  method ScanRun(source: string, kind: Kind, from: nat) returns (i: nat)
    requires from <= |source|
    ensures from <= i <= |source|
    ensures forall k :: from <= k < i ==> Continues(kind, source[k])
    ensures i < |source| ==> !Continues(kind, source[i])
  {
    i := from;
    while i < |source| && Continues(kind, source[i])
      invariant from <= i <= |source|
      invariant forall k :: from <= k < i ==> Continues(kind, source[k])
    {
      i := i + 1;
    }
  }

  /** One past the escape at `i`, no closing quote was passed. */
  lemma EscapeSkips(t: string, i: nat)
    requires 0 < i < |t| && IsQuote(t[0]) && t[i] == '\\' && Backslashes(t, i) % 2 == 0
    ensures !Closes(t, i) && !Closes(t, i + 1)
    ensures i + 2 <= |t| ==> Backslashes(t, i + 2) % 2 == 0
  {
    assert Backslashes(t, i + 1) == 1 + Backslashes(t, i);
  }

  /** The string loop, on the text from the opening quote on. A backslash steps over the
      next character, and so past the end when it is the last one. */
  method ScanString(t: string) returns (i: nat)
    requires t != "" && IsQuote(t[0])
    ensures 0 < i <= |t| + 1
    ensures var end := if i <= |t| then i else |t|;
            && Lexeme(Token(Str, t[..end]))
            && Stops(Token(Str, t[..end]), t[end..])
  {
    i := 1;
    var closed := false;
    while i < |t| && !closed
      invariant 0 < i <= |t| + 1
      invariant !closed ==> (i <= |t| ==> Backslashes(t, i) % 2 == 0) && forall j: nat :: j < i ==> !Closes(t, j)
      invariant closed ==> 1 < i <= |t| && Closes(t, i - 1) && forall j: nat :: j < i - 1 ==> !Closes(t, j)
      decreases |t| - i, if closed then 0 else 1
    {
      if t[i] == '\\' {
        EscapeSkips(t, i);
        i := i + 2;
      } else if t[i] == t[0] {
        assert Closes(t, i);
        i := i + 1;
        closed := true;
      } else {
        i := i + 1;
      }
    }
    var end := if i <= |t| then i else |t|;
    forall j: nat | j < end ensures Closes(t[..end], j) <==> Closes(t, j) {
      BackslashesOfPrefix(t[..end], t, j);
    }
    assert t[end..] == "" || Closed(t[..end]);
  }

  /** `tokenize`: the result is the one reading of the source. */
  method Tokenize(source: string) returns (tokens: seq<Token>)
    ensures Lexes(source, tokens)
  {
    tokens := [];
    var i := 0;
    assert source[0..] == source && forall more: seq<Token> :: [] + more == more;
    while i < |source|
      invariant ReadsTo(source, tokens, if i <= |source| then i else |source|)
    {
      var n, t := NextToken(source[i..]);
      Push(source, tokens, i, t);
      tokens, i := tokens + [t], i + n;
    }
    assert Completes(source, tokens, |source|, []);
    assert tokens + [] == tokens;
  }

  /** Where a run stops, the token is complete. */
  lemma RunStarts(text: string, n: nat, t: Token)
    requires n <= |text| && t.text == text[..n] && Lexeme(t)
    requires t.kind != Str && t.kind != Punct && (n < |text| ==> !Continues(t.kind, text[n]))
    ensures Starts(text, t)
  {
  }

  /** One turn of the loop: the branches in the order of the source. */
  method NextToken(text: string) returns (i: nat, t: Token)
    requires text != ""
    ensures 0 < i && Starts(text, t)
    ensures |t.text| == if i <= |text| then i else |text|
  {
    var ch := text[0];
    if ch == '/' && 1 < |text| && text[1] == '/' {
      i := ScanRun(text, Comment, 2);
      t := Token(Comment, text[..i]);
      RunStarts(text, i, t);
    } else if IsQuote(ch) {
      i := ScanString(text);
      t := Token(Str, text[..if i <= |text| then i else |text|]);
    } else if IsDigit(ch) {
      i := ScanRun(text, Number, 1);
      t := Token(Number, text[..i]);
      RunStarts(text, i, t);
    } else if IsIdentStart(ch) {
      i := ScanRun(text, Ident, 1);
      t := Token(if IsKeyword(text[..i]) then Keyword else Ident, text[..i]);
      RunStarts(text, i, t);
    } else if IsSpace(ch) {
      i := ScanRun(text, Space, 1);
      t := Token(Space, text[..i]);
      RunStarts(text, i, t);
    } else {
      i := 1;
      t := Token(Punct, [ch]);
    }
  }
}
