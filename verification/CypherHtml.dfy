/** The HTML the highlighter prints (ui/src/cypher.ts), read back. */
module CypherHtml {
  import opened Common
  import opened Cypher

  // ---- escaping ------------------------------------------------------------

  /** `text.replace(/c/g, with)`. */
  function ReplaceAll(text: string, c: char, with: string): string {
    if text == "" then "" else
    (if text[0] == c then with else [text[0]]) + ReplaceAll(text[1..], c, with)
  }

  /** Four replacements, one after the other. */
  function EscapeHtml(text: string): string {
    ReplaceAll(ReplaceAll(ReplaceAll(ReplaceAll(text, '&', "&amp;"), '<', "&lt;"), '>', "&gt;"), '"', "&quot;")
  }

  /** What one character should become. */
  function Entity(c: char): string {
    match c
    case '&' => "&amp;"
    case '<' => "&lt;"
    case '>' => "&gt;"
    case '"' => "&quot;"
    case _ => [c]
  }

  function EscapeEach(text: string): (r: string)
    ensures '<' !in r && '>' !in r && '"' !in r
  {
    if text == "" then "" else Entity(text[0]) + EscapeEach(text[1..])
  }

  lemma {:induction false} ReplaceAppends(a: string, b: string, c: char, with: string)
    ensures ReplaceAll(a + b, c, with) == ReplaceAll(a, c, with) + ReplaceAll(b, c, with)
  {
    if a == "" {
      assert a + b == b;
    } else {
      assert (a + b)[1..] == a[1..] + b;
      ReplaceAppends(a[1..], b, c, with);
    }
  }

  lemma {:induction false} ReplaceNothing(text: string, c: char, with: string)
    requires c !in text
    ensures ReplaceAll(text, c, with) == text
  {
    if text != "" { ReplaceNothing(text[1..], c, with); }
  }

  lemma ReplaceOne(x: char, c: char, with: string)
    ensures ReplaceAll([x], c, with) == if x == c then with else [x]
  {
    assert [x][1..] == "";
  }

  /** One pass on one character, or on what an earlier pass made of it. */
  lemma PassOnEntity(x: char, c: char, with: string)
    ensures (c == '<' || c == '>' || c == '"') && x != c ==> ReplaceAll(Entity(x), c, with) == Entity(x)
    ensures ReplaceAll([x], c, with) == if x == c then with else [x]
  {
    ReplaceOne(x, c, with);
    if c !in Entity(x) { ReplaceNothing(Entity(x), c, with); }
  }

  lemma EscapeAppends(a: string, b: string)
    ensures EscapeHtml(a + b) == EscapeHtml(a) + EscapeHtml(b)
  {
    ReplaceAppends(a, b, '&', "&amp;");
    var a1, b1 := ReplaceAll(a, '&', "&amp;"), ReplaceAll(b, '&', "&amp;");
    ReplaceAppends(a1, b1, '<', "&lt;");
    var a2, b2 := ReplaceAll(a1, '<', "&lt;"), ReplaceAll(b1, '<', "&lt;");
    ReplaceAppends(a2, b2, '>', "&gt;");
    ReplaceAppends(ReplaceAll(a2, '>', "&gt;"), ReplaceAll(b2, '>', "&gt;"), '"', "&quot;");
  }

  /** On one character the four passes do not see each other's output: no character
      reference holds a bracket or a quote, and the ampersand goes first. */
  lemma EscapeOne(x: char, amp: string, lt: string, gt: string, quot: string)
    requires amp == Entity('&') && lt == Entity('<') && gt == Entity('>') && quot == Entity('"')
    ensures ReplaceAll(ReplaceAll(ReplaceAll(ReplaceAll([x], '&', amp), '<', lt), '>', gt), '"', quot) == Entity(x)
  {
    PassOnEntity(x, '&', amp);
    PassOnEntity(x, '<', lt);
    PassOnEntity(x, '>', gt);
    PassOnEntity(x, '"', quot);
  }

  /** The four passes are one map over the characters. */
  lemma {:induction false} EscapeIsOnePass(text: string)
    ensures EscapeHtml(text) == EscapeEach(text)
  {
    if text != "" {
      assert text == [text[0]] + text[1..];
      EscapeAppends([text[0]], text[1..]);
      EscapeOne(text[0], "&amp;", "&lt;", "&gt;", "&quot;");
      EscapeIsOnePass(text[1..]);
    }
  }

  // ---- printing ------------------------------------------------------------

  function KindClass(kind: Kind): Option<string> {
    match kind
    case Keyword => Some("hl-kw")
    case Str => Some("hl-str")
    case Number => Some("hl-num")
    case Comment => Some("hl-cmt")
    case Ident | Punct | Space => None
  }

  function OpenTag(cls: string): string { "<span class=\"" + cls + "\">" }
  const CLOSE_TAG := "</span>"

  function Print(t: Token): string {
    match KindClass(t.kind)
    case None => EscapeHtml(t.text)
    case Some(cls) => OpenTag(cls) + EscapeHtml(t.text) + CLOSE_TAG
  }

  /** How each kind is printed. */
  lemma KindsPrinted(text: string)
    ensures Print(Token(Keyword, text)) == "<span class=\"hl-kw\">" + EscapeHtml(text) + "</span>"
    ensures Print(Token(Str, text)) == "<span class=\"hl-str\">" + EscapeHtml(text) + "</span>"
    ensures Print(Token(Number, text)) == "<span class=\"hl-num\">" + EscapeHtml(text) + "</span>"
    ensures Print(Token(Comment, text)) == "<span class=\"hl-cmt\">" + EscapeHtml(text) + "</span>"
    ensures Print(Token(Ident, text)) == Print(Token(Punct, text)) == Print(Token(Space, text)) == EscapeHtml(text)
  {
    assert OpenTag("hl-kw") == "<span class=\"hl-kw\">" && OpenTag("hl-str") == "<span class=\"hl-str\">";
    assert OpenTag("hl-num") == "<span class=\"hl-num\">" && OpenTag("hl-cmt") == "<span class=\"hl-cmt\">";
  }

  function PrintAll(tokens: seq<Token>): string {
    if tokens == [] then "" else Print(tokens[0]) + PrintAll(tokens[1..])
  }

  // ---- reading back --------------------------------------------------------

  /** One character of the page and the class it is drawn in. */
  datatype Glyph = Glyph(c: char, cls: Option<string>)

  function DropThrough(html: string, c: char): (r: string)
    ensures |r| <= |html|
    ensures html != "" ==> |r| < |html|
  {
    if html == "" then "" else if html[0] == c then html[1..] else DropThrough(html[1..], c)
  }

  function TakeUntil(html: string, c: char): string {
    if html == "" || html[0] == c then "" else [html[0]] + TakeUntil(html[1..], c)
  }

  /** The class a tag puts in force: what its first quoted text says, none for a closing tag. */
  function TagClass(tag: string): Option<string> {
    if |tag| > 1 && tag[1] == '/' then None else Some(TakeUntil(DropThrough(tag, '"'), '"'))
  }

  /** The character reference at the head of `html`, and how long it is. */
  function ReadChar(html: string): (r: (char, nat))
    requires html != ""
    ensures 0 < r.1 <= |html|
  {
    ReadReference(html, ESCAPED)
  }

  const ESCAPED := ['&', '<', '>', '"']

  function ReadReference(html: string, among: seq<char>): (r: (char, nat))
    requires html != ""
    ensures 0 < r.1 <= |html|
  {
    if among == [] then (html[0], 1)
    else if Entity(among[0]) <= html then (among[0], |Entity(among[0])|)
    else ReadReference(html, among[1..])
  }

  /** What a browser draws: tags switch the class, the rest is text. */
  function Draw(html: string, cls: Option<string>): seq<Glyph>
    decreases |html|
  {
    if html == "" then [] else
    if html[0] == '<' then Draw(DropThrough(html, '>'), TagClass(html)) else
    var (c, n) := ReadChar(html);
    [Glyph(c, cls)] + Draw(html[n..], cls)
  }

  /** The text of a page: tags removed, then character references resolved. */
  function StripTags(html: string): string
    decreases |html|
  {
    if html == "" then "" else
    if html[0] == '<' then StripTags(DropThrough(html, '>')) else [html[0]] + StripTags(html[1..])
  }

  function Unescape(text: string): string
    decreases |text|
  {
    if text == "" then "" else
    var (c, n) := ReadChar(text);
    [c] + Unescape(text[n..])
  }

  /** What should be drawn: every character of every token in its kind's class. */
  function Paint(text: string, cls: Option<string>): (r: seq<Glyph>)
    ensures |r| == |text|
  {
    seq(|text|, i requires 0 <= i < |text| => Glyph(text[i], cls))
  }

  function PaintAll(tokens: seq<Token>): seq<Glyph> {
    if tokens == [] then [] else Paint(tokens[0].text, KindClass(tokens[0].kind)) + PaintAll(tokens[1..])
  }

  lemma {:induction false} DropThroughFirst(a: string, c: char, rest: string)
    requires c !in a
    ensures DropThrough(a + [c] + rest, c) == rest
  {
    if a == "" {
      assert a + [c] + rest == [c] + rest;
    } else {
      assert (a + [c] + rest)[1..] == a[1..] + [c] + rest;
      DropThroughFirst(a[1..], c, rest);
    }
  }

  lemma {:induction false} TakeUntilFirst(a: string, c: char, rest: string)
    requires c !in a
    ensures TakeUntil(a + [c] + rest, c) == a
  {
    if a == "" {
      assert a + [c] + rest == [c] + rest;
    } else {
      assert (a + [c] + rest)[1..] == a[1..] + [c] + rest;
      TakeUntilFirst(a[1..], c, rest);
    }
  }

  /** A character written by `Entity` is read back. */
  lemma EntityRoundTrip(x: char, rest: string)
    ensures ReadChar(Entity(x) + rest) == (x, |Entity(x)|)
    ensures (Entity(x) + rest)[|Entity(x)|..] == rest
    ensures (Entity(x) + rest)[0] != '<'
  {
    assert (Entity(x) + rest)[0] == Entity(x)[0];
    ReferenceFound(x, rest, ESCAPED);
  }

  /** No reference is a prefix of another, so the order of the four does not matter. */
  lemma {:induction false} ReferenceFound(x: char, rest: string, among: seq<char>)
    requires forall c <- among :: c in ESCAPED
    requires x in ESCAPED ==> x in among
    ensures ReadReference(Entity(x) + rest, among) == (x, |Entity(x)|)
  {
    if among != [] && among[0] != x {
      NoOtherPrefix(x, among[0], rest);
      ReferenceFound(x, rest, among[1..]);
    }
  }

  lemma NoOtherPrefix(x: char, y: char, rest: string)
    requires x != y && y in ESCAPED
    ensures !(Entity(y) <= Entity(x) + rest)
  {
    var s := Entity(x) + rest;
    assert s[0] == Entity(x)[0];
    if x in ESCAPED {
      assert s[1] == Entity(x)[1] && Entity(x)[1] != Entity(y)[1];
    } else {
      assert s[0] == x && Entity(y)[0] == '&';
    }
  }

  lemma DrawsChar(x: char, cls: Option<string>, rest: string)
    ensures Draw(Entity(x) + rest, cls) == [Glyph(x, cls)] + Draw(rest, cls)
  {
    EntityRoundTrip(x, rest);
  }

  lemma {:induction false} DrawsText(text: string, cls: Option<string>, rest: string)
    ensures Draw(EscapeEach(text) + rest, cls) == Paint(text, cls) + Draw(rest, cls)
  {
    if text == "" {
      assert EscapeEach(text) + rest == rest;
    } else {
      var tail := EscapeEach(text[1..]) + rest;
      Associate(Entity(text[0]), EscapeEach(text[1..]), rest);
      DrawsChar(text[0], cls, tail);
      DrawsText(text[1..], cls, rest);
      Associate([Glyph(text[0], cls)], Paint(text[1..], cls), Draw(rest, cls));
      PaintFirst(text, cls);
    }
  }

  lemma Associate<T>(a: seq<T>, b: seq<T>, c: seq<T>)
    ensures (a + b) + c == a + (b + c)
  {
  }

  lemma PaintFirst(text: string, cls: Option<string>)
    requires text != ""
    ensures Paint(text, cls) == [Glyph(text[0], cls)] + Paint(text[1..], cls)
  {
  }

  lemma DrawsOpenTag(cls: string, now: Option<string>, rest: string)
    requires '"' !in cls && '>' !in cls
    ensures Draw(OpenTag(cls) + rest, now) == Draw(rest, Some(cls))
    ensures StripTags(OpenTag(cls) + rest) == StripTags(rest)
  {
    var head := "<span class=";
    var html := OpenTag(cls) + rest;
    assert html == head + ['"'] + (cls + ['"'] + (">" + rest));
    DropThroughFirst(head, '"', cls + ['"'] + (">" + rest));
    TakeUntilFirst(cls, '"', ">" + rest);
    assert html == (head + ['"'] + cls + ['"']) + ['>'] + rest;
    DropThroughFirst(head + ['"'] + cls + ['"'], '>', rest);
    assert html[0] == '<' && html[1] == 's';
  }

  lemma DrawsCloseTag(now: Option<string>, rest: string)
    ensures Draw(CLOSE_TAG + rest, now) == Draw(rest, None)
    ensures StripTags(CLOSE_TAG + rest) == StripTags(rest)
  {
    var html := CLOSE_TAG + rest;
    assert html == "</span" + ['>'] + rest;
    DropThroughFirst("</span", '>', rest);
    assert html[0] == '<' && html[1] == '/';
  }

  /** A text in a span is drawn in its class, and the class ends with it. */
  lemma DrawsSpan(text: string, cls: string, rest: string)
    requires '"' !in cls && '>' !in cls
    ensures Draw(OpenTag(cls) + (EscapeEach(text) + (CLOSE_TAG + rest)), None) == Paint(text, Some(cls)) + Draw(rest, None)
  {
    DrawsOpenTag(cls, None, EscapeEach(text) + (CLOSE_TAG + rest));
    DrawsText(text, Some(cls), CLOSE_TAG + rest);
    DrawsCloseTag(Some(cls), rest);
  }

  lemma StripsSpan(text: string, cls: string, rest: string)
    requires '"' !in cls && '>' !in cls
    ensures StripTags(OpenTag(cls) + (EscapeEach(text) + (CLOSE_TAG + rest))) == EscapeEach(text) + StripTags(rest)
  {
    DrawsOpenTag(cls, None, EscapeEach(text) + (CLOSE_TAG + rest));
    StripsNothing(EscapeEach(text), CLOSE_TAG + rest);
    DrawsCloseTag(None, rest);
  }

  lemma ClassIsPlain(kind: Kind)
    ensures KindClass(kind).Some? ==> '"' !in KindClass(kind).value && '>' !in KindClass(kind).value
  {
  }

  lemma PrintIsSpan(t: Token, rest: string)
    requires KindClass(t.kind).Some?
    ensures Print(t) + rest == OpenTag(KindClass(t.kind).value) + (EscapeEach(t.text) + (CLOSE_TAG + rest))
  {
    EscapeIsOnePass(t.text);
    var open, body := OpenTag(KindClass(t.kind).value), EscapeEach(t.text);
    Associate(open + body, CLOSE_TAG, rest);
    Associate(open, body, CLOSE_TAG + rest);
  }

  lemma DrawsToken(t: Token, rest: string)
    ensures Draw(Print(t) + rest, None) == Paint(t.text, KindClass(t.kind)) + Draw(rest, None)
  {
    ClassIsPlain(t.kind);
    match KindClass(t.kind)
    case None =>
      EscapeIsOnePass(t.text);
      DrawsText(t.text, None, rest);
    case Some(cls) =>
      PrintIsSpan(t, rest);
      DrawsSpan(t.text, cls, rest);
  }

  /** The page shows exactly the tokens, each in the class of its kind. */
  lemma {:induction false} PageShowsTokens(tokens: seq<Token>)
    ensures Draw(PrintAll(tokens), None) == PaintAll(tokens)
  {
    if tokens != [] {
      DrawsToken(tokens[0], PrintAll(tokens[1..]));
      PageShowsTokens(tokens[1..]);
    }
  }

  lemma {:induction false} StripsNothing(text: string, rest: string)
    requires '<' !in text
    ensures StripTags(text + rest) == text + StripTags(rest)
  {
    if text == "" {
      assert text + rest == rest;
    } else {
      assert (text + rest)[1..] == text[1..] + rest;
      StripsNothing(text[1..], rest);
    }
  }

  lemma StripsToken(t: Token, rest: string)
    ensures StripTags(Print(t) + rest) == EscapeEach(t.text) + StripTags(rest)
  {
    ClassIsPlain(t.kind);
    match KindClass(t.kind)
    case None =>
      EscapeIsOnePass(t.text);
      StripsNothing(EscapeEach(t.text), rest);
    case Some(cls) =>
      PrintIsSpan(t, rest);
      StripsSpan(t.text, cls, rest);
  }

  lemma {:induction false} EscapeEachAppends(a: string, b: string)
    ensures EscapeEach(a + b) == EscapeEach(a) + EscapeEach(b)
  {
    if a == "" {
      assert a + b == b;
    } else {
      assert (a + b)[1..] == a[1..] + b;
      EscapeEachAppends(a[1..], b);
    }
  }

  lemma {:induction false} StripsToEscapedText(tokens: seq<Token>)
    ensures StripTags(PrintAll(tokens)) == EscapeEach(Concat(tokens))
  {
    if tokens != [] {
      StripsToken(tokens[0], PrintAll(tokens[1..]));
      StripsToEscapedText(tokens[1..]);
      EscapeEachAppends(tokens[0].text, Concat(tokens[1..]));
    }
  }

  lemma {:induction false} UnescapeInverts(text: string)
    ensures Unescape(EscapeHtml(text)) == text
  {
    EscapeIsOnePass(text);
    if text != "" {
      EntityRoundTrip(text[0], EscapeEach(text[1..]));
      UnescapeInverts(text[1..]);
      EscapeIsOnePass(text[1..]);
    }
  }

  /** `highlightHtml`: the page without its tags is the source, and the page draws every
      token of the source's one reading in the class of its kind. */
  method HighlightHtml(source: string) returns (html: string)
    ensures Unescape(StripTags(html)) == source
    ensures forall tokens :: Lexes(source, tokens) ==> Draw(html, None) == PaintAll(tokens)
  {
    html := "";
    var tokens := Tokenize(source);
    for k := 0 to |tokens|
      invariant html + PrintAll(tokens[k..]) == PrintAll(tokens)
    {
      PrintNext(tokens, k);
      Associate(html, Print(tokens[k]), PrintAll(tokens[k + 1..]));
      html := AppendToken(html, tokens[k]);
    }
    assert html == PrintAll(tokens);
    PageIsFaithful(source, tokens);
  }

  /** The body of the printing loop. */
  method AppendToken(html: string, t: Token) returns (longer: string)
    ensures longer == html + Print(t)
  {
    var escaped := EscapeHtml(t.text);
    var cls := KindClass(t.kind);
    if cls.None? {
      longer := html + escaped;
    } else {
      longer := html + (OpenTag(cls.value) + escaped + CLOSE_TAG);
    }
  }

  lemma PrintNext(tokens: seq<Token>, k: nat)
    requires k < |tokens|
    ensures PrintAll(tokens[k..]) == Print(tokens[k]) + PrintAll(tokens[k + 1..])
  {
    assert tokens[k..][1..] == tokens[k + 1..];
  }

  lemma PageIsFaithful(source: string, tokens: seq<Token>)
    requires Lexes(source, tokens)
    ensures Unescape(StripTags(PrintAll(tokens))) == source
    ensures forall other :: Lexes(source, other) ==> Draw(PrintAll(tokens), None) == PaintAll(other)
  {
    ReadingIsLossless(source, tokens);
    StripsToEscapedText(tokens);
    EscapeIsOnePass(source);
    UnescapeInverts(source);
    PageShowsTokens(tokens);
    forall other | Lexes(source, other) ensures other == tokens {
      ReadingIsUnique(source, other, tokens);
    }
  }
}
