/**
 * Alert templates: one pass over the text, substituting placeholders, with each
 * value escaped for a JSON string literal when the body is JSON (section 7 of
 * RFC 8259). The proofs say when the JSON a body stands for is the template's own
 * with the values in place, whatever the values are.
 */
module Template {
  import opened Basics

  const KEYS := ["{{event}}", "{{node}}", "{{title}}", "{{message}}", "{{site}}", "{{time}}"]

  /** One value for each placeholder. */
  type Values = v: seq<string> | |v| == 6 witness ["", "", "", "", "", ""]

  predicate StartsWith(s: string, prefix: string) { |prefix| <= |s| && s[..|prefix|] == prefix }

  /** The first placeholder that `s` starts with; six when there is none. */
  function KeyAt(s: string, from: nat): (k: nat)
    requires from <= |KEYS|
    ensures k <= |KEYS| && (k < |KEYS| ==> StartsWith(s, KEYS[k]))
    decreases |KEYS| - from
  {
    if from == |KEYS| then from else if StartsWith(s, KEYS[from]) then from else KeyAt(s, from + 1)
  }

  // ---- escaping ----

  const HEX := "0123456789abcdef"

  function HexDigit(d: int): char
    requires 0 <= d < 16
  {
    HEX[d]
  }

  /** The letter a character is escaped by, if it has one. */
  function Shorthand(c: char): Option<char> {
    var n := c as int;
    if c == '\"' || c == '\\' then Some(c)
    else if n == 8 then Some('b')
    else if n == 9 then Some('t')
    else if n == 10 then Some('n')
    else if n == 12 then Some('f')
    else if n == 13 then Some('r')
    else None
  }

  function UnicodeEscape(n: int): string
    requires 0 <= n < 32
  {
    ['\\', 'u', '0', '0', HexDigit(n / 16), HexDigit(n % 16)]
  }

  function EscapedChar(c: char): string {
    match Shorthand(c)
    case Some(letter) => ['\\', letter]
    case None => if (c as int) < 32 then UnicodeEscape(c as int) else [c]
  }

  function Escaped(v: string): string { if v == "" then "" else EscapedChar(v[0]) + Escaped(v[1..]) }

  // ---- rendering ----

  datatype Token = Literal(c: char) | Hole(k: nat)

  /** The text read left to right: at each `{{` a placeholder if one starts there, else the braces. */
  function Tokens(t: string): seq<Token> {
    if t == "" then []
    else if !StartsWith(t, "{{") then [Literal(t[0])] + Tokens(t[1..])
    else
      var k := KeyAt(t, 0);
      if k < |KEYS| then [Hole(k)] + Tokens(t[|KEYS[k]|..])
      else [Literal('{'), Literal('{')] + Tokens(t[2..])
  }

  function TextOf(token: Token, values: Values, json: bool): string {
    match token
    case Literal(c) => [c]
    case Hole(k) => if k >= |values| then "" else if json then Escaped(values[k]) else values[k]
  }

  function Expanded(tokens: seq<Token>, values: Values, json: bool): string {
    if tokens == [] then "" else TextOf(tokens[0], values, json) + Expanded(tokens[1..], values, json)
  }

  /** Where `{{` first occurs, or the length of the text. */
  function FindBraces(s: string): (at: nat)
    ensures at <= |s| && (at < |s| ==> StartsWith(s[at..], "{{"))
  {
    if s == "" || StartsWith(s, "{{") then 0
    else
      assert s[1..][FindBraces(s[1..])..] == s[1 + FindBraces(s[1..])..];
      1 + FindBraces(s[1..])
  }

  lemma {:induction false} TextBeforeBracesIsLiteral(s: string, values: Values, json: bool)
    ensures var at := FindBraces(s);
            Expanded(Tokens(s), values, json) == s[..at] + Expanded(Tokens(s[at..]), values, json)
  {
    if s == "" || StartsWith(s, "{{") {
      assert s[0..] == s;
    } else {
      var at, rest := FindBraces(s), Tokens(s[1..]);
      assert Tokens(s) == [Literal(s[0])] + rest;
      hide Tokens, Expanded;
      TextBeforeBracesIsLiteral(s[1..], values, json);
      ShiftedSlices(s, at);
      LiteralExpands(s[0], rest, values, json);
      Regrouped(s[0], s[1..][..at - 1], Expanded(Tokens(s[at..]), values, json));
    }
  }

  lemma ShiftedSlices(s: string, at: nat)
    requires 1 <= at <= |s|
    ensures s[at..] == s[1..][at - 1..] && s[..at] == [s[0]] + s[1..][..at - 1]
  {
  }

  lemma Regrouped(c: char, a: string, b: string)
    ensures [c] + (a + b) == ([c] + a) + b
  {
  }

  lemma LiteralExpands(c: char, rest: seq<Token>, values: Values, json: bool)
    ensures Expanded([Literal(c)] + rest, values, json) == [c] + Expanded(rest, values, json)
  {
  }

  lemma BracesExpand(s: string, values: Values, json: bool)
    requires StartsWith(s, "{{")
    ensures var k := KeyAt(s, 0);
            Expanded(Tokens(s), values, json) ==
              if k < |KEYS| then TextOf(Hole(k), values, json) + Expanded(Tokens(s[|KEYS[k]|..]), values, json)
              else "{{" + Expanded(Tokens(s[2..]), values, json)
  {
    var k := KeyAt(s, 0);
    if k < |KEYS| {
      var rest := Tokens(s[|KEYS[k]|..]);
      assert ([Hole(k)] + rest)[1..] == rest;
    } else {
      var rest := Tokens(s[2..]);
      assert [Literal('{'), Literal('{')] + rest == [Literal('{')] + ([Literal('{')] + rest);
      LiteralExpands('{', rest, values, json);
      LiteralExpands('{', [Literal('{')] + rest, values, json);
    }
  }

  lemma Joined(out: string, a: string, b: string, c: string, all: string)
    requires out + (a + (b + c)) == all
    ensures ((out + a) + b) + c == all
  {
  }

  /** What one turn of the loop writes for the braces it found: a value, or the braces themselves. */
  function Written(s: string, values: Values, json: bool): string {
    var k := KeyAt(s, 0);
    if k == |KEYS| then "{{" else if json then Escaped(values[k]) else values[k]
  }

  /** And how much of the template that takes. */
  function Taken(s: string): (n: nat)
    requires StartsWith(s, "{{")
    ensures 2 <= n <= |s|
  {
    var k := KeyAt(s, 0);
    if k == |KEYS| then 2 else KeysAreBracedWords(k); |KEYS[k]|
  }

  /** Values are inserted verbatim (or escaped) and never read again. */
  method Render(template: string, values: Values, json: bool) returns (out: string)
    ensures out == Expanded(Tokens(template), values, json)
  {
    hide Tokens, Expanded, Written, Taken;
    out := "";
    var rest := template;
    ghost var all := Expanded(Tokens(template), values, json);
    while FindBraces(rest) < |rest|
      invariant out + Expanded(Tokens(rest), values, json) == all
      decreases |rest|
    {
      var at := FindBraces(rest);
      RenderStep(rest, values, json);
      var braced := rest[at..];
      var text := Written(braced, values, json);
      ghost var tail := Expanded(Tokens(braced[Taken(braced)..]), values, json);
      Joined(out, rest[..at], text, tail, all);
      out := (out + rest[..at]) + text;
      rest := braced[Taken(braced)..];
    }
    TextBeforeBracesIsLiteral(rest, values, json);
    NothingExpandsToNothing(values, json);
    assert rest[|rest|..] == "" && rest[..|rest|] == rest;
    out := out + rest;
  }

  lemma RenderStep(rest: string, values: Values, json: bool)
    requires FindBraces(rest) < |rest|
    ensures var at := FindBraces(rest);
            var braced := rest[at..];
            Expanded(Tokens(rest), values, json)
            == rest[..at] + (Written(braced, values, json) + Expanded(Tokens(braced[Taken(braced)..]), values, json))
  {
    hide Tokens, Expanded, Escaped, KeyAt;
    TextBeforeBracesIsLiteral(rest, values, json);
    BracesExpand(rest[FindBraces(rest)..], values, json);
  }

  lemma NothingExpandsToNothing(values: Values, json: bool)
    ensures Expanded(Tokens(""), values, json) == ""
  {
  }

  // ---- braces before a placeholder ----

  function Braces(n: nat): string { if n == 0 then "" else "{" + Braces(n - 1) }

  function Literals(s: string): seq<Token> { if s == "" then [] else [Literal(s[0])] + Literals(s[1..]) }

  function LiteralBraces(n: nat): seq<Token> { if n == 0 then [] else [Literal('{')] + LiteralBraces(n - 1) }

  lemma TokensAtBraces(t: string)
    requires StartsWith(t, "{{")
    ensures KeyAt(t, 0) == |KEYS| ==> Tokens(t) == [Literal('{'), Literal('{')] + Tokens(t[2..])
    ensures KeyAt(t, 0) < |KEYS| ==> Tokens(t) == [Hole(KeyAt(t, 0))] + Tokens(t[|KEYS[KeyAt(t, 0)]|..])
  {
    hide KeyAt;
  }

  /** Every placeholder opens with two braces and a letter, and closes with no further opening brace. */
  lemma KeysAreBracedWords(k: nat)
    requires k < |KEYS|
    ensures 6 <= |KEYS[k]| && KEYS[k][..2] == "{{"
    ensures forall i :: 2 <= i < |KEYS[k]| ==> KEYS[k][i] != '{'
  {
  }

  lemma NoKeyStartsTheOther(i: nat, j: nat)
    requires i < j < |KEYS|
    ensures KEYS[i][2] != KEYS[j][2] || KEYS[i][4] != KEYS[j][4]
  {
  }

  lemma {:induction false} KeyIsFound(k: nat, from: nat, rest: string)
    requires from <= k < |KEYS|
    ensures KeyAt(KEYS[k] + rest, from) == k
    decreases k - from
  {
    var t := KEYS[k] + rest;
    KeysAreBracedWords(k);
    assert t[..|KEYS[k]|] == KEYS[k];
    if from < k {
      KeysAreBracedWords(from);
      NoKeyStartsTheOther(from, k);
      NotAPrefix(t, KEYS[from], if KEYS[from][2] != KEYS[k][2] then 2 else 4);
      KeyIsFound(k, from + 1, rest);
    }
  }

  lemma NotAPrefix(t: string, key: string, i: nat)
    requires i < |key| && i < |t| && t[i] != key[i]
    ensures !StartsWith(t, key)
  {
    assert |key| <= |t| ==> t[..|key|][i] == t[i];
  }

  /** Three braces in a row start no placeholder. */
  lemma {:induction false} ThreeBracesStartNone(t: string, from: nat)
    requires from <= |KEYS| && 3 <= |t| && t[2] == '{'
    ensures KeyAt(t, from) == |KEYS|
    decreases |KEYS| - from
  {
    if from < |KEYS| {
      KeysAreBracedWords(from);
      NotAPrefix(t, KEYS[from], 2);
      ThreeBracesStartNone(t, from + 1);
    }
  }

  lemma {:induction false} PlainIsLiteral(s: string, rest: string)
    requires forall i :: 0 <= i < |s| ==> s[i] != '{'
    ensures Tokens(s + rest) == Literals(s) + Tokens(rest)
  {
    if s == "" {
      assert s + rest == rest && Literals(s) == [];
      hide Tokens;
    } else {
      var t := s + rest;
      assert t[0] == s[0] && t[1..] == s[1..] + rest;
      assert Literals(s) == [Literal(s[0])] + Literals(s[1..]);
      hide Tokens, Literals;
      PlainIsLiteral(s[1..], rest);
      NotBraced(t);
    }
  }

  lemma NotBraced(t: string)
    requires t != "" && t[0] != '{'
    ensures Tokens(t) == [Literal(t[0])] + Tokens(t[1..])
  {
    assert 2 <= |t| ==> t[..2][0] == t[0];
  }

  lemma LoneBraceIsLiteral(t: string)
    requires 2 <= |t| && t[0] == '{' && t[1] != '{'
    ensures Tokens(t) == [Literal('{')] + Tokens(t[1..])
  {
    assert t[..2][1] == t[1];
  }

  /**
   * A placeholder with further braces before it is found exactly when their number
   * is even: they are consumed in pairs from the left, and an odd one takes the
   * placeholder's first brace with it.
   */
  lemma {:induction false} BracesBeforeAPlaceholder(n: nat, k: nat, rest: string)
    requires k < |KEYS|
    ensures Tokens(Braces(n) + (KEYS[k] + rest))
         == LiteralBraces(n) + ((if n % 2 == 0 then [Hole(k)] else Literals(KEYS[k])) + Tokens(rest))
    decreases n
  {
    hide Tokens, KeyAt, Literals, Braces, LiteralBraces;
    FewBraces();
    var tail := KEYS[k] + rest;
    var found := if n % 2 == 0 then [Hole(k)] else Literals(KEYS[k]);
    if n == 0 {
      PlaceholderAlone(k, rest);
      assert Braces(0) + tail == tail && LiteralBraces(0) + (found + Tokens(rest)) == found + Tokens(rest);
    } else if n == 1 {
      OneBraceTakesAnother(k, rest);
    } else {
      BracesBeforeAPlaceholder(n - 2, k, rest);
      BracesLead(n - 2, k, rest);
      PairIsLiteral(Braces(n - 2) + tail);
      TwoBraces(n, tail, found + Tokens(rest));
    }
  }

  lemma FewBraces()
    ensures Braces(0) == "" && Braces(1) == "{" && LiteralBraces(0) == [] && LiteralBraces(1) == [Literal('{')]
  {
  }

  lemma TwoBraces(n: nat, tail: string, found: seq<Token>)
    requires 2 <= n
    ensures Braces(n) + tail == "{{" + (Braces(n - 2) + tail)
    ensures LiteralBraces(n) + found == [Literal('{'), Literal('{')] + (LiteralBraces(n - 2) + found)
  {
    var s, ts := Braces(n - 2), LiteralBraces(n - 2);
    assert Braces(n - 1) == "{" + s && LiteralBraces(n - 1) == [Literal('{')] + ts;
    hide Braces, LiteralBraces;
    PairMoves('{', s, tail);
    PairMoves(Literal('{'), ts, found);
  }

  lemma PairMoves<T>(x: T, s: seq<T>, tail: seq<T>)
    ensures ([x] + ([x] + s)) + tail == [x, x] + (s + tail)
  {
  }

  /** Two braces that a third follows stand for themselves. */
  lemma PairIsLiteral(t: string)
    requires t != "" && t[0] == '{'
    ensures Tokens("{{" + t) == [Literal('{'), Literal('{')] + Tokens(t)
  {
    var all := "{{" + t;
    assert all[..2] == "{{" && all[2] == '{' && all[2..] == t;
    ThreeBracesStartNone(all, 0);
    hide Tokens, KeyAt;
    TokensAtBraces(all);
  }

  lemma BracesLead(n: nat, k: nat, rest: string)
    requires k < |KEYS|
    ensures var t := Braces(n) + (KEYS[k] + rest); t != "" && t[0] == '{'
  {
    KeysAreBracedWords(k);
    assert KEYS[k][0] == KEYS[k][..2][0];
  }

  lemma PlaceholderAlone(k: nat, rest: string)
    requires k < |KEYS|
    ensures Tokens(KEYS[k] + rest) == [Hole(k)] + Tokens(rest)
  {
    hide Tokens, KeyAt;
    var t := KEYS[k] + rest;
    KeysAreBracedWords(k);
    KeyIsFound(k, 0, rest);
    assert t[..2] == KEYS[k][..2];
    TokensAtBraces(t);
    assert t[|KEYS[k]|..] == rest;
  }

  lemma OneBraceTakesAnother(k: nat, rest: string)
    requires k < |KEYS|
    ensures Tokens("{" + (KEYS[k] + rest)) == [Literal('{')] + (Literals(KEYS[k]) + Tokens(rest))
  {
    hide Tokens, Literals;
    var word := KEYS[k][2..];
    KeysAreBracedWords(k);
    BracedWord(KEYS[k], rest);
    PairIsLiteral("{" + (word + rest));
    BraceBeforeAWord(word, rest);
    Regroup(Literal('{'), Literals(word), Tokens(rest));
  }

  lemma BracedWord(key: string, rest: string)
    requires 2 <= |key| && key[..2] == "{{"
    ensures "{" + (key + rest) == "{{" + ("{" + (key[2..] + rest))
    ensures Literals(key) == [Literal('{'), Literal('{')] + Literals(key[2..])
  {
    hide Literals;
    assert key == "{{" + key[2..];
    BraceMoves(key[2..], rest);
    LiteralsAppend("{{", key[2..]);
    TwoLiteralBraces();
  }

  lemma BraceMoves(word: string, rest: string)
    ensures "{" + (("{{" + word) + rest) == "{{" + ("{" + (word + rest))
  {
    var a, b := "{" + (("{{" + word) + rest), "{{" + ("{" + (word + rest));
    assert |a| == |b|;
    assert forall i :: 0 <= i < |a| ==> a[i] == b[i];
  }

  lemma TwoLiteralBraces()
    ensures Literals("{{") == [Literal('{'), Literal('{')]
  {
    assert "{{"[1..] == "{" && "{"[1..] == "";
    assert Literals("{") == [Literal('{')];
  }

  lemma {:induction false} LiteralsAppend(a: string, b: string)
    ensures Literals(a + b) == Literals(a) + Literals(b)
  {
    if a == "" {
      assert a + b == b;
    } else {
      assert (a + b)[1..] == a[1..] + b;
      LiteralsAppend(a[1..], b);
    }
  }

  lemma BraceBeforeAWord(word: string, rest: string)
    requires word != "" && forall i :: 0 <= i < |word| ==> word[i] != '{'
    ensures Tokens("{" + (word + rest)) == [Literal('{')] + (Literals(word) + Tokens(rest))
  {
    hide Tokens, Literals;
    PlainIsLiteral(word, rest);
    var t := "{" + (word + rest);
    assert t[1] == word[0] && t[1..] == word + rest;
    LoneBraceIsLiteral(t);
  }

  lemma Regroup(l: Token, a: seq<Token>, b: seq<Token>)
    ensures [l, l] + ([l] + (a + b)) == [l] + (([l, l] + a) + b)
  {
  }

  // ---- what is written where ----

  lemma {:induction false} LiteralsExpandToThemselves(s: string, rest: seq<Token>, values: Values, json: bool)
    ensures Expanded(Literals(s) + rest, values, json) == s + Expanded(rest, values, json)
  {
    if s == "" {
      assert Literals(s) + rest == rest && s + Expanded(rest, values, json) == Expanded(rest, values, json);
    } else {
      FirstLiteral(s);
      hide Expanded, Literals;
      LiteralsExpandToThemselves(s[1..], rest, values, json);
      LiteralExpands(s[0], Literals(s[1..]) + rest, values, json);
      OneMoves(Literal(s[0]), Literals(s[1..]), rest);
      OneMoves(s[0], s[1..], Expanded(rest, values, json));
    }
  }

  lemma FirstLiteral(s: string)
    requires s != ""
    ensures Literals(s) == [Literal(s[0])] + Literals(s[1..]) && s == [s[0]] + s[1..]
  {
  }

  lemma OneMoves<T>(x: T, a: seq<T>, b: seq<T>)
    ensures ([x] + a) + b == [x] + (a + b)
  {
  }

  /**
   * Text without braces is copied, a placeholder after it becomes its own value --
   * as it is in a plain template, escaped in a JSON one -- and what follows is read
   * on from there, whatever the value holds.
   */
  lemma ValuesGoWhereTheirPlaceholdersStand(before: string, k: nat, after: string, values: Values, json: bool)
    requires k < |KEYS| && forall i :: 0 <= i < |before| ==> before[i] != '{'
    ensures Expanded(Tokens(before + (KEYS[k] + after)), values, json)
         == before + ((if json then Escaped(values[k]) else values[k]) + Expanded(Tokens(after), values, json))
  {
    PlainIsLiteral(before, KEYS[k] + after);
    PlaceholderAlone(k, after);
    LiteralsExpandToThemselves(before, Tokens(KEYS[k] + after), values, json);
    var rest := Tokens(after);
    assert ([Hole(k)] + rest)[0] == Hole(k) && ([Hole(k)] + rest)[1..] == rest;
  }

  lemma TextWithoutBracesIsCopied(text: string, values: Values, json: bool)
    requires forall i :: 0 <= i < |text| ==> text[i] != '{'
    ensures Expanded(Tokens(text), values, json) == text
  {
    PlainIsLiteral(text, "");
    assert text + "" == text;
    LiteralsExpandToThemselves(text, Tokens(""), values, json);
    NothingExpandsToNothing(values, json);
  }

  // ---- reading JSON strings ----

  datatype Mode = Outside | Inside | Escape | Hex(digits: nat, value: int) | Broken

  /** What a JSON text is made of once its strings are decoded; a `\u` unit stands for itself. */
  datatype Piece = Structure(c: char) | Quote | Unit(code: int)

  function HexValue(c: char): int {
    if '0' <= c <= '9' then c as int - '0' as int
    else if 'a' <= c <= 'f' then c as int - 'a' as int + 10
    else if 'A' <= c <= 'F' then c as int - 'A' as int + 10
    else -1
  }

  function Unescaped(c: char): int {
    if c == '\"' || c == '\\' || c == '/' then c as int
    else if c == 'b' then 8 else if c == 't' then 9 else if c == 'n' then 10
    else if c == 'f' then 12 else if c == 'r' then 13 else -1
  }

  function Read(m: Mode, c: char): (Mode, seq<Piece>) {
    match m
    case Outside => if c == '\"' then (Inside, [Quote]) else (Outside, [Structure(c)])
    case Inside =>
      if c == '\"' then (Outside, [Quote])
      else if c == '\\' then (Escape, [])
      else if (c as int) < 32 then (Broken, [])
      else (Inside, [Unit(c as int)])
    case Escape =>
      if c == 'u' then (Hex(0, 0), [])
      else if Unescaped(c) < 0 then (Broken, [])
      else (Inside, [Unit(Unescaped(c))])
    case Hex(n, v) =>
      if HexValue(c) < 0 then (Broken, [])
      else if n == 3 then (Inside, [Unit(v * 16 + HexValue(c))])
      else (Hex(n + 1, v * 16 + HexValue(c)), [])
    case Broken => (Broken, [])
  }

  function ModeAfter(m: Mode, s: string): Mode
    decreases s
  {
    if s == "" then m else ModeAfter(Read(m, s[0]).0, s[1..])
  }

  function Pieces(m: Mode, s: string): seq<Piece>
    decreases s
  {
    if s == "" then [] else Read(m, s[0]).1 + Pieces(Read(m, s[0]).0, s[1..])
  }

  lemma {:induction false} ReadAppends(m: Mode, s: string, t: string)
    ensures ModeAfter(m, s + t) == ModeAfter(ModeAfter(m, s), t)
    ensures Pieces(m, s + t) == Pieces(m, s) + Pieces(ModeAfter(m, s), t)
    decreases s
  {
    hide Read, ModeAfter, Pieces;
    ReadFirst(m, s);
    if s == "" {
      assert s + t == t;
    } else {
      var m', ps := Read(m, s[0]).0, Read(m, s[0]).1;
      ReadFirst(m, s + t);
      assert (s + t)[1..] == s[1..] + t;
      ReadAppends(m', s[1..], t);
      PiecesRegroup(ps, Pieces(m', s[1..]), Pieces(ModeAfter(m, s), t));
    }
  }

  lemma ReadFirst(m: Mode, s: string)
    ensures s == "" ==> ModeAfter(m, s) == m && Pieces(m, s) == []
    ensures s != "" ==>
      && ModeAfter(m, s) == ModeAfter(Read(m, s[0]).0, s[1..])
      && Pieces(m, s) == Read(m, s[0]).1 + Pieces(Read(m, s[0]).0, s[1..])
  {
    hide Read;
  }

  lemma PiecesRegroup(a: seq<Piece>, b: seq<Piece>, c: seq<Piece>)
    ensures a + (b + c) == (a + b) + c
  {
  }

  function Units(v: string): seq<Piece> { if v == "" then [] else [Unit(v[0] as int)] + Units(v[1..]) }

  lemma ReadOne(m: Mode, c: char)
    ensures ModeAfter(m, [c]) == Read(m, c).0 && Pieces(m, [c]) == Read(m, c).1
  {
  }

  lemma ReadTwo(m: Mode, c: char, d: char)
    ensures ModeAfter(m, [c, d]) == Read(Read(m, c).0, d).0
    ensures Pieces(m, [c, d]) == Read(m, c).1 + Read(Read(m, c).0, d).1
  {
    assert [c, d][1..] == [d];
    ReadOne(Read(m, c).0, d);
  }

  lemma ReadUnicodeEscape(a: char, b: char)
    requires 0 <= HexValue(a) && 0 <= HexValue(b)
    ensures var s := ['\\', 'u', '0', '0', a, b];
            ModeAfter(Inside, s) == Inside && Pieces(Inside, s) == [Unit(HexValue(a) * 16 + HexValue(b))]
  {
    ZeroIsADigit();
    var s4 := ['0', '0', a, b];
    assert ['\\', 'u', '0', '0', a, b] == ['\\', 'u'] + s4 && s4 == ['0', '0'] + [a, b];
    ReadAppends(Inside, ['\\', 'u'], s4);
    ReadAppends(Hex(0, 0), ['0', '0'], [a, b]);
    UnicodeStarts('u', '0');
    UnicodeEnds(a, b);
  }

  lemma UnicodeStarts(u: char, z: char)
    requires u == 'u' && z == '0'
    ensures ModeAfter(Inside, ['\\', u]) == Hex(0, 0) && Pieces(Inside, ['\\', u]) == []
    ensures ModeAfter(Hex(0, 0), [z, z]) == Hex(2, 0) && Pieces(Hex(0, 0), [z, z]) == []
  {
    hide ModeAfter, Pieces, Read;
    ReadTwo(Inside, '\\', u);
    ReadsBackslashU();
    ReadTwo(Hex(0, 0), z, z);
    ReadsZero(0);
    ReadsZero(1);
  }

  lemma ReadsBackslashU()
    ensures Read(Inside, '\\') == (Escape, []) && Read(Escape, 'u') == (Hex(0, 0), [])
  {
  }

  lemma ReadsZero(n: nat)
    requires n < 3
    ensures Read(Hex(n, 0), '0') == (Hex(n + 1, 0), [])
  {
    ZeroIsADigit();
  }

  lemma UnicodeEnds(a: char, b: char)
    requires 0 <= HexValue(a) && 0 <= HexValue(b)
    ensures ModeAfter(Hex(2, 0), [a, b]) == Inside
    ensures Pieces(Hex(2, 0), [a, b]) == [Unit(HexValue(a) * 16 + HexValue(b))]
  {
    ReadTwo(Hex(2, 0), a, b);
  }

  lemma ZeroIsADigit()
    ensures HexValue('0') == 0
  {
  }

  lemma HexDigitsReadBack(d: int)
    requires 0 <= d < 16
    ensures HexValue(HexDigit(d)) == d
  {
  }

  lemma ShorthandsReadBack(c: char)
    requires Shorthand(c).Some?
    ensures var e := ['\\', Shorthand(c).value];
            ModeAfter(Inside, e) == Inside && Pieces(Inside, e) == [Unit(c as int)]
  {
    hide ModeAfter, Pieces;
    ReadTwo(Inside, '\\', Shorthand(c).value);
  }

  lemma EscapedCharReadsBack(c: char)
    ensures ModeAfter(Inside, EscapedChar(c)) == Inside && Pieces(Inside, EscapedChar(c)) == [Unit(c as int)]
  {
    hide ModeAfter, Pieces, HexValue, HexDigit;
    var n := c as int;
    if Shorthand(c).Some? {
      ShorthandsReadBack(c);
    } else if n < 32 {
      HexDigitsReadBack(n / 16);
      HexDigitsReadBack(n % 16);
      ReadUnicodeEscape(HexDigit(n / 16), HexDigit(n % 16));
    } else {
      ReadOne(Inside, c);
    }
  }

  /** An escaped value reads back as itself and leaves the string open. */
  lemma {:induction false} EscapedReadsBack(v: string)
    ensures ModeAfter(Inside, Escaped(v)) == Inside && Pieces(Inside, Escaped(v)) == Units(v)
  {
    if v != "" {
      EscapedCharReadsBack(v[0]);
      EscapedReadsBack(v[1..]);
      ReadAppends(Inside, EscapedChar(v[0]), Escaped(v[1..]));
    }
  }

  /**
   * Inside a string with no escape pending is the only place where every value
   * leaves the scanner as it found it.
   */
  lemma ValuesAreSafeExactlyInsideStrings(m: Mode)
    requires m != Broken
    ensures (forall v :: ModeAfter(m, Escaped(v)) == m) <==> m == Inside
  {
    hide ModeAfter, Pieces, Escaped, HexValue;
    if m == Inside {
      forall v ensures ModeAfter(m, Escaped(v)) == m { EscapedReadsBack(v); }
    } else if m == Outside {
      EscapesOneChar('\"');
      ReadTwo(Outside, '\\', '\"');
      assert ModeAfter(m, Escaped(['\"'])) != m;
    } else {
      EscapesOneChar('x');
      ReadOne(m, 'x');
      XIsNoDigit();
      assert ModeAfter(m, Escaped(['x'])) != m;
    }
  }

  lemma XIsNoDigit()
    ensures HexValue('x') < 0
  {
  }

  lemma EscapesOneChar(c: char)
    ensures Escaped([c]) == EscapedChar(c)
  {
  }

  // ---- whole bodies ----

  /** A template's own pieces, with the places where values go. */
  datatype Mark = Is(p: Piece) | Slot(k: nat)

  function Marked(ps: seq<Piece>): seq<Mark> { if ps == [] then [] else [Is(ps[0])] + Marked(ps[1..]) }

  function Skeleton(m: Mode, tokens: seq<Token>): seq<Mark>
    decreases tokens
  {
    if tokens == [] then []
    else match tokens[0]
      case Literal(c) => Marked(Read(m, c).1) + Skeleton(Read(m, c).0, tokens[1..])
      case Hole(k) => [Slot(k)] + Skeleton(m, tokens[1..])
  }

  /** Every placeholder sits inside a string literal with no escape pending. */
  predicate HolesInside(m: Mode, tokens: seq<Token>)
    decreases tokens
  {
    tokens == [] ||
    match tokens[0]
    case Literal(c) => HolesInside(Read(m, c).0, tokens[1..])
    case Hole(k) => m == Inside && HolesInside(m, tokens[1..])
  }

  function ModeThrough(m: Mode, tokens: seq<Token>): Mode
    decreases tokens
  {
    if tokens == [] then m
    else match tokens[0]
      case Literal(c) => ModeThrough(Read(m, c).0, tokens[1..])
      case Hole(k) => ModeThrough(m, tokens[1..])
  }

  function Filled(marks: seq<Mark>, values: Values): seq<Piece> {
    if marks == [] then [] else PieceOf(marks[0], values) + Filled(marks[1..], values)
  }

  function PieceOf(mark: Mark, values: Values): seq<Piece> {
    match mark
    case Is(p) => [p]
    case Slot(k) => if k < |values| then Units(values[k]) else []
  }

  lemma {:induction false} FilledAppends(a: seq<Mark>, b: seq<Mark>, values: Values)
    ensures Filled(a + b, values) == Filled(a, values) + Filled(b, values)
  {
    if a == [] {
      assert a + b == b;
    } else {
      assert (a + b)[1..] == a[1..] + b;
      FilledAppends(a[1..], b, values);
    }
  }

  lemma {:induction false} MarkedFillsItself(ps: seq<Piece>, values: Values)
    ensures Filled(Marked(ps), values) == ps
  {
    if ps != [] { MarkedFillsItself(ps[1..], values); }
  }

  lemma {:induction false} ExpansionFillsTheSkeleton(m: Mode, tokens: seq<Token>, values: Values)
    requires HolesInside(m, tokens)
    ensures var s := Expanded(tokens, values, true);
            ModeAfter(m, s) == ModeThrough(m, tokens) && Pieces(m, s) == Filled(Skeleton(m, tokens), values)
    decreases tokens
  {
    if tokens != [] {
      var text, rest := TextOf(tokens[0], values, true), Expanded(tokens[1..], values, true);
      ReadAppends(m, text, rest);
      match tokens[0]
      case Literal(c) =>
        ReadOne(m, c);
        ExpansionFillsTheSkeleton(Read(m, c).0, tokens[1..], values);
        MarkedFillsItself(Read(m, c).1, values);
        FilledAppends(Marked(Read(m, c).1), Skeleton(Read(m, c).0, tokens[1..]), values);
      case Hole(k) =>
        if k < |values| { EscapedReadsBack(values[k]); }
        ExpansionFillsTheSkeleton(m, tokens[1..], values);
        assert ([Slot(k)] + Skeleton(m, tokens[1..]))[1..] == Skeleton(m, tokens[1..]);
    }
  }

  /** What a body reads as: the template's own pieces, with each value decoded where its placeholder was. */
  ghost predicate ReadsAsFilled(template: string, values: Values) {
    Pieces(Outside, Expanded(Tokens(template), values, true)) == Filled(Skeleton(Outside, Tokens(template)), values)
  }

  /**
   * A body reads as its template filled in, whatever the note, if and only if every
   * placeholder sits inside a string literal with no escape pending; it then ends
   * as the template does, read in full or broken alike.
   */
  lemma BodyIsTheTemplateWithItsValues(template: string)
    ensures (forall values :: ReadsAsFilled(template, values)) <==> HolesInside(Outside, Tokens(template))
    ensures HolesInside(Outside, Tokens(template)) ==>
      forall values: Values :: ModeAfter(Outside, Expanded(Tokens(template), values, true)) == ModeThrough(Outside, Tokens(template))
  {
    var tokens := Tokens(template);
    if HolesInside(Outside, tokens) {
      forall values: Values
        ensures ReadsAsFilled(template, values)
        ensures ModeAfter(Outside, Expanded(tokens, values, true)) == ModeThrough(Outside, tokens)
      {
        ExpansionFillsTheSkeleton(Outside, tokens, values);
      }
    } else if forall values :: ReadsAsFilled(template, values) {
      assert ReadsAsFilled(template, XS);
      HolesAreKeys(template);
      FilledOnlyInside(Outside, tokens);
    }
  }

  /** A note that tells the two apart wherever they differ: `x` starts no escape and is no hex digit. */
  const XS: Values := ["x", "x", "x", "x", "x", "x"]

  predicate Keyed(tokens: seq<Token>) { forall t <- tokens :: t.Hole? ==> t.k < |KEYS| }

  lemma {:induction false} HolesAreKeys(t: string)
    ensures Keyed(Tokens(t))
    decreases t
  {
    if t == "" {
    } else if !StartsWith(t, "{{") {
      HolesAreKeys(t[1..]);
    } else if KeyAt(t, 0) < |KEYS| {
      HolesAreKeys(t[|KEYS[KeyAt(t, 0)]|..]);
    } else {
      HolesAreKeys(t[2..]);
    }
  }

  lemma {:induction false} FilledOnlyInside(m: Mode, tokens: seq<Token>)
    requires Keyed(tokens)
    requires Pieces(m, Expanded(tokens, XS, true)) == Filled(Skeleton(m, tokens), XS)
    ensures HolesInside(m, tokens)
    decreases tokens
  {
    if tokens != [] {
      var rest := tokens[1..];
      var tail := Expanded(rest, XS, true);
      match tokens[0]
      case Literal(c) =>
        var m', ps := Read(m, c).0, Read(m, c).1;
        ReadAppends(m, [c], tail);
        ReadOne(m, c);
        MarkedFillsItself(ps, XS);
        FilledAppends(Marked(ps), Skeleton(m', rest), XS);
        SameAfter(ps, Pieces(m', tail), Filled(Skeleton(m', rest), XS));
        FilledOnlyInside(m', rest);
      case Hole(k) =>
        SlotFirst(m, k, rest);
        XReadsAsItself(m, tail);
        if m == Inside {
          SameAfter([Unit('x' as int)], Pieces(m, tail), Filled(Skeleton(m, rest), XS));
          FilledOnlyInside(m, rest);
        }
    }
  }

  lemma SameAfter(p: seq<Piece>, a: seq<Piece>, b: seq<Piece>)
    requires p + a == p + b
    ensures a == b
  {
    assert a == (p + a)[|p|..] && b == (p + b)[|p|..];
  }

  lemma SlotFirst(m: Mode, k: nat, rest: seq<Token>)
    requires k < |KEYS|
    ensures var tokens := [Hole(k)] + rest;
            && Expanded(tokens, XS, true) == "x" + Expanded(rest, XS, true)
            && Filled(Skeleton(m, tokens), XS) == [Unit('x' as int)] + Filled(Skeleton(m, rest), XS)
  {
    var tokens := [Hole(k)] + rest;
    assert tokens[1..] == rest && XS[k] == "x";
    EscapesOneChar('x');
    XNeedsNoEscape();
    assert ([Slot(k)] + Skeleton(m, rest))[1..] == Skeleton(m, rest);
    OneUnit();
  }

  lemma XNeedsNoEscape()
    ensures EscapedChar('x') == "x"
  {
  }

  lemma OneUnit()
    ensures Units("x") == [Unit('x' as int)]
  {
    assert "x"[1..] == "";
  }

  /** Inside a string an `x` is one unit of it; anywhere else what follows begins with no such unit. */
  lemma XReadsAsItself(m: Mode, tail: string)
    ensures m == Inside ==> Pieces(m, "x" + tail) == [Unit('x' as int)] + Pieces(m, tail)
    ensures m != Inside ==> var ps := Pieces(m, "x" + tail); ps == [] || ps[0] != Unit('x' as int)
  {
    ReadAppends(m, "x", tail);
    ReadOne(m, 'x');
    XIsNoDigit();
    NothingFromBroken(tail);
  }

  lemma {:induction false} NothingFromBroken(s: string)
    ensures Pieces(Broken, s) == []
    decreases s
  {
    if s != "" { NothingFromBroken(s[1..]); }
  }

  /**
   * The one sample note a template is checked with is not enough: the body
   * `"\{{event}}"` reads as a string when the event is `test`, since `\t` is an
   * escape, and breaks when it is `login`.
   */
  lemma OneSampleCannotVouchForATemplate(test: Values, login: Values)
    requires test[0] == "test" && login[0] == "login"
    ensures var tokens := Tokens(['\"', '\\'] + KEYS[0] + ['\"']);
            && ModeAfter(Outside, Expanded(tokens, test, true)) == Outside
            && ModeAfter(Outside, Expanded(tokens, login, true)) == Broken
  {
    hide Tokens, Expanded, ModeAfter, EscapedChar;
    EventBehindABackslash(test);
    EventBehindABackslash(login);
    OpenThenEscape("test" + ['\"']);
    TestReadsAsAString();
    OpenThenEscape("login" + ['\"']);
    LoginBreaks(['\"']);
  }

  lemma LettersAreNotEscaped()
    ensures forall c :: 'a' <= c <= 'z' ==> EscapedChar(c) == [c]
  {
  }

  lemma OpenThenEscape(rest: string)
    ensures ModeAfter(Outside, ['\"', '\\'] + rest) == ModeAfter(Escape, rest)
  {
    ReadTwo(Outside, '\"', '\\');
    ReadAppends(Outside, ['\"', '\\'], rest);
  }

  lemma TestReadsAsAString()
    ensures ModeAfter(Escape, "test" + ['\"']) == Outside
  {
    hide ModeAfter, Pieces;
    ReadTwo(Escape, 't', 'e');
    ReadTwo(Inside, 's', 't');
    ReadOne(Inside, '\"');
    ReadAppends(Inside, ['s', 't'], ['\"']);
    ReadAppends(Escape, ['t', 'e'], ['s', 't'] + ['\"']);
    assert "test" + ['\"'] == ['t', 'e'] + (['s', 't'] + ['\"']);
  }

  lemma LoginBreaks(rest: string)
    ensures ModeAfter(Escape, "login" + rest) == Broken
  {
    assert ("login" + rest)[0] == 'l';
    BrokenStaysBroken(("login" + rest)[1..]);
  }

  lemma {:induction false} BrokenStaysBroken(s: string)
    ensures ModeAfter(Broken, s) == Broken
    decreases s
  {
    if s != "" { BrokenStaysBroken(s[1..]); }
  }

  lemma EventBehindABackslash(values: Values)
    requires forall c <- values[0] :: 'a' <= c <= 'z'
    ensures Expanded(Tokens(['\"', '\\'] + KEYS[0] + ['\"']), values, true) == ['\"', '\\'] + (values[0] + ['\"'])
  {
    var r := KEYS[0] + ['\"'];
    var s := ['\"', '\\'] + KEYS[0] + ['\"'];
    assert s == ['\"', '\\'] + r && s[1..] == ['\\'] + r && s[1..][1..] == r;
    BracesAfterTwo(s, r);
    JustAQuote(values);
    LettersAreNotEscaped();
    PlainTextIsNotEscaped(values[0]);
    hide Tokens, Expanded, FindBraces;
    TextBeforeBracesIsLiteral(s, values, true);
    assert s[2..] == r && s[..2] == ['\"', '\\'];
    assert StartsWith(r, KEYS[0]) && KeyAt(r, 0) == 0;
    BracesExpand(r, values, true);
    assert r[|KEYS[0]|..] == ['\"'];
  }

  lemma BracesAfterTwo(s: string, r: string)
    requires |s| == |r| + 2 && s[1..][1..] == r && StartsWith(r, "{{") && s[0] != '{' && s[1] != '{'
    ensures FindBraces(s) == 2
  {
    assert FindBraces(r) == 0 && s[1..][0] == s[1];
    assert FindBraces(s[1..]) == 1;
  }

  lemma JustAQuote(values: Values)
    ensures Expanded(Tokens(['\"']), values, true) == ['\"']
  {
  }

  lemma {:induction false} PlainTextIsNotEscaped(v: string)
    requires forall c <- v :: EscapedChar(c) == [c]
    ensures Escaped(v) == v
  {
    if v != "" {
      assert v == [v[0]] + v[1..] && v[0] in v;
      PlainTextIsNotEscaped(v[1..]);
    }
  }
}
