/** How written-out texts are read (ui/src/cypher.ts). These statements name characters, not
    the tokenizer's own tests, and so say what those tests let through. */
module CypherReadings {
  import opened Cypher

  predicate Digits(s: string) { forall i :: 0 <= i < |s| ==> '0' <= s[i] <= '9' }

  predicate Letter(c: char) { 'a' <= c <= 'z' || 'A' <= c <= 'Z' || c == '_' }

  /** A letter or underscore, then letters, underscores and digits. */
  predicate Word(s: string) {
    s != "" && Letter(s[0]) && forall i :: 0 <= i < |s| ==> Letter(s[i]) || '0' <= s[i] <= '9'
  }

  /** One token, followed by nothing. */
  lemma ReadsAlone(t: Token)
    requires Lexeme(t)
    ensures Lexes(t.text, [t])
  {
    assert t.text[|t.text|..] == "";
    assert Lexes("", []);
    OneMore(t.text, "", t, []);
    assert [t] + [] == [t];
  }

  /** One token, and a text whose reading is known. */
  lemma ReadsThen(t: Token, rest: string, more: seq<Token>)
    requires Lexeme(t) && Stops(t, rest) && Lexes(rest, more)
    ensures Lexes(t.text + rest, [t] + more)
  {
    assert (t.text + rest)[|t.text|..] == rest;
    OneMore(t.text + rest, rest, t, more);
  }

  /** Digits are one number, and so are digits with a point and digits behind it. */
  lemma NumberReads(a: string, b: string)
    requires Digits(a) && Digits(b) && a != "" && b != ""
    ensures Lexes(a, [Token(Number, a)])
    ensures Lexes(a + "." + b, [Token(Number, a + "." + b)])
  {
    ReadsAlone(Token(Number, a));
    ReadsAlone(Token(Number, a + "." + b));
  }

  /** Which words are keywords: the clauses, the operators, the literals and the rest. */
  const CLAUSES := {"match", "optional", "where", "return", "with", "unwind", "create", "merge", "set", "remove", "delete",
                    "detach", "order", "by", "skip", "limit", "on"}
  const OPERATORS := {"and", "or", "xor", "not", "in", "is", "starts", "ends", "contains"}
  const LITERALS := {"true", "false", "null"}
  const OTHERS := {"as", "asc", "desc", "distinct", "case", "when", "then", "else", "end"}

  lemma KeywordsListed()
    ensures KEYWORDS == CLAUSES + OPERATORS + LITERALS + OTHERS
  {
  }

  /** The words are the same up to case, letter by letter. */
  predicate SameWord(a: string, b: string) {
    |a| == |b| && forall i :: 0 <= i < |a| ==> SameLetter(a[i], b[i])
  }

  predicate SameLetter(c: char, d: char) {
    c == d || ('A' <= c <= 'Z' && d as int == c as int + 32) || ('A' <= d <= 'Z' && c as int == d as int + 32)
  }

  /** A word in lower case. */
  predicate InLowerCase(w: string) { forall i :: 0 <= i < |w| ==> !('A' <= w[i] <= 'Z') }

  lemma LowerIsSameWord(w: string, k: string)
    requires InLowerCase(k)
    ensures Lower(w) == k <==> SameWord(w, k)
  {
    if SameWord(w, k) {
      forall i | 0 <= i < |w| ensures Lower(w)[i] == k[i] {
        assert SameLetter(w[i], k[i]);
      }
    }
    if Lower(w) == k {
      forall i | 0 <= i < |w| ensures SameLetter(w[i], k[i]) { assert Lower(w)[i] == k[i]; }
    }
  }

  /** A word is one token: a keyword if it is one of the words listed, in any case, and an
      identifier otherwise. */
  lemma WordReads(w: string)
    requires Word(w)
    ensures Lexes(w, [Token(if IsKeyword(w) then Keyword else Ident, w)])
  {
    ReadsAlone(Token(if IsKeyword(w) then Keyword else Ident, w));
  }

  lemma KeywordInAnyCase(w: string, k: string)
    requires Word(w) && k in KEYWORDS && InLowerCase(k) && SameWord(w, k)
    ensures Lexes(w, [Token(Keyword, w)])
  {
    LowerIsSameWord(w, k);
    WordReads(w);
  }

  lemma OtherWordsAreNames(w: string)
    requires Word(w) && forall k <- KEYWORDS :: |k| != |w| || exists i :: 0 <= i < |w| && !SameLetter(w[i], k[i])
    ensures Lexes(w, [Token(Ident, w)])
  {
    NotAmong(w, KEYWORDS);
    WordReads(w);
  }

  lemma NotAmong(w: string, words: set<string>)
    requires forall k <- words :: |k| != |w| || exists i :: 0 <= i < |w| && !SameLetter(w[i], k[i])
    ensures Lower(w) !in words
  {
    var k := Lower(w);
    assert forall i :: 0 <= i < |w| ==> SameLetter(w[i], k[i]);
  }

  predicate Blank(c: char) { c == ' ' || c == '\t' || c == '\n' || c == '\r' }

  /** White space is one token. */
  lemma SpaceReads(s: string)
    requires s != "" && forall i :: 0 <= i < |s| ==> Blank(s[i])
    ensures Lexes(s, [Token(Space, s)])
  {
    BlanksAreSpace(s);
    ReadsAlone(Token(Space, s));
  }

  lemma BlanksAreSpace(s: string)
    requires s != "" && forall i :: 0 <= i < |s| ==> Blank(s[i])
    ensures Lexeme(Token(Space, s))
  {
    assert Blank(s[0]);
    forall i | 1 <= i < |s| ensures Continues(Space, s[i]) { assert Blank(s[i]); }
  }

  /** A comment reaches to the end of its line. */
  lemma CommentReads(body: string)
    requires '\n' !in body
    ensures Lexes("//" + body, [Token(Comment, "//" + body)])
    ensures Lexes("//" + body + "\n", [Token(Comment, "//" + body), Token(Space, "\n")])
  {
    var t := Token(Comment, "//" + body);
    forall i | 2 <= i < |t.text| ensures t.text[i] != '\n' { assert t.text[i] == body[i - 2]; }
    ReadsAlone(t);
    SpaceReads("\n");
    ReadsThen(t, "\n", [Token(Space, "\n")]);
    assert [t] + [Token(Space, "\n")] == [t, Token(Space, "\n")];
  }

  /** A string in either quote, with the other quote free inside it. */
  lemma StringReads(quote: char, body: string)
    requires (quote == '\'' || quote == '"') && quote !in body && '\\' !in body
    ensures Lexes([quote] + body + [quote], [Token(Str, [quote] + body + [quote])])
  {
    var s := [quote] + body + [quote];
    forall j: nat | 0 < j < |s| - 1 ensures !Closes(s, j) { assert s[j] == body[j - 1]; }
    ReadsAlone(Token(Str, s));
  }

  /** Any other character is a token of its own. */
  lemma MarkReads(c: char)
    requires !Letter(c) && !('0' <= c <= '9') && !Blank(c) && c != '\'' && c != '"'
    ensures Lexes([c], [Token(Punct, [c])])
  {
    ReadsAlone(Token(Punct, [c]));
  }

  /** A point does not belong to a name: two words with one between are three tokens. */
  lemma PointSplitsNames(a: string, b: string)
    requires Word(a) && Word(b)
    ensures var kind := (w: string) => if IsKeyword(w) then Keyword else Ident;
            Lexes(a + ("." + b), [Token(kind(a), a), Token(Punct, "."), Token(kind(b), b)])
  {
    var ta := Token(if IsKeyword(a) then Keyword else Ident, a);
    var tb := Token(if IsKeyword(b) then Keyword else Ident, b);
    var dot := Token(Punct, ".");
    WordReads(b);
    ReadsThen(dot, b, [tb]);
    assert [dot] + [tb] == [dot, tb];
    ReadsThen(ta, "." + b, [dot, tb]);
    assert [ta] + [dot, tb] == [ta, dot, tb];
  }

  /** A number ends where a name begins. */
  lemma NumberThenName(a: string, b: string)
    requires Digits(a) && a != "" && Word(b)
    ensures Lexes(a + b, [Token(Number, a), Token(if IsKeyword(b) then Keyword else Ident, b)])
  {
    var t := Token(if IsKeyword(b) then Keyword else Ident, b);
    WordReads(b);
    ReadsThen(Token(Number, a), b, [t]);
    assert [Token(Number, a)] + [t] == [Token(Number, a), t];
  }
}
