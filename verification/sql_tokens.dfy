/** Cutting a predicate string into tokens. */
module SqlTokens {
  import opened Storage

  datatype Comparison = GT | LT | GE | LE | EQ

  datatype Token =
    | IDENTIFIER(name: Str)
    | NUMBER(digits: Str)
    | AND
    | OPERATOR(op: Comparison)
    | LPAREN
    | RPAREN
    | END

  const UNEXPECTED_CHARACTER := "SQL Tokenizer Error: Unexpected character"

  // Character classes of the C locale
  predicate IsSpace(c: byte) { c == 32 || 9 <= c <= 13 }

  predicate IsDigit(c: byte) { 48 <= c <= 57 }

  predicate IsAlpha(c: byte) { 65 <= c <= 90 || 97 <= c <= 122 }

  predicate IsWordStart(c: byte) { IsAlpha(c) || c == 95 }

  predicate IsWord(c: byte) { IsAlpha(c) || IsDigit(c) || c == 95 }

  const OPEN: byte := 40
  const CLOSE: byte := 41
  const LESS: byte := 60
  const EQUAL: byte := 61
  const GREATER: byte := 62

  function Upper(c: byte): byte { if 97 <= c <= 122 then c - 32 else c }

  /** Is the word AND, in any case? */
  predicate IsAnd(word: Str) { |word| == 3 && Upper(word[0]) == 65 && Upper(word[1]) == 78 && Upper(word[2]) == 68 }

  function WordToken(word: Str): Token { if IsAnd(word) then AND else IDENTIFIER(word) }

  /** AND in one of its eight spellings. */
  predicate Keyword(s: Str) { |s| == 3 && s[0] in {65, 97} && s[1] in {78, 110} && s[2] in {68, 100} }

  /** Comparing the upper-cased word finds exactly these. */
  lemma AndInAnyCase(word: Str)
    ensures IsAnd(word) <==> Keyword(word)
  {
  }

  /** The characters of tokens. */
  lemma Characters(c: byte)
    ensures IsSpace(c) <==> c in {9, 10, 11, 12, 13, ' ' as int}
    ensures IsDigit(c) <==> '0' as int <= c <= '9' as int
    ensures IsWordStart(c) <==> 'A' as int <= c <= 'Z' as int || 'a' as int <= c <= 'z' as int || c == '_' as int
    ensures IsWord(c) <==> IsWordStart(c) || IsDigit(c)
    ensures OPEN == '(' as int && CLOSE == ')' as int
    ensures LESS == '<' as int && EQUAL == '=' as int && GREATER == '>' as int
  {
  }

  function DigitRun(src: Str): (n: nat)
    ensures n <= |src| && forall i :: 0 <= i < n ==> IsDigit(src[i])
    ensures n < |src| ==> !IsDigit(src[n])
  {
    if src != [] && IsDigit(src[0]) then 1 + DigitRun(src[1..]) else 0
  }

  function WordRun(src: Str): (n: nat)
    ensures n <= |src| && forall i :: 0 <= i < n ==> IsWord(src[i])
    ensures n < |src| ==> !IsWord(src[n])
  {
    if src != [] && IsWord(src[0]) then 1 + WordRun(src[1..]) else 0
  }

  /** What stands at the front: tokens (none for a space) and their length; no length means an error. */
  function Front(src: Str): (r: (seq<Token>, nat))
    requires src != []
    ensures r.1 <= |src|
  {
    var c := src[0];
    if IsSpace(c) then ([], 1)
    else if c == OPEN then ([LPAREN], 1)
    else if c == CLOSE then ([RPAREN], 1)
    else if c == GREATER then if |src| > 1 && src[1] == EQUAL then ([OPERATOR(GE)], 2) else ([OPERATOR(GT)], 1)
    else if c == LESS then if |src| > 1 && src[1] == EQUAL then ([OPERATOR(LE)], 2) else ([OPERATOR(LT)], 1)
    else if c == EQUAL then ([OPERATOR(EQ)], 1)
    else if IsDigit(c) then ([NUMBER(src[..DigitRun(src)])], DigitRun(src))
    else if IsWordStart(c) then ([WordToken(src[..WordRun(src)])], WordRun(src))
    else ([], 0)
  }

  /** Tokens found so far, in front of what the rest gives. */
  function After(tokens: seq<Token>, r: Result<seq<Token>>): Result<seq<Token>> {
    match r
    case Err(e) => Err(e)
    case Ok(rest) => Ok(tokens + rest)
  }

  function Scan(src: Str): Result<seq<Token>> {
    if src == [] then Ok([END])
    else if Front(src).1 == 0 then Err(UNEXPECTED_CHARACTER)
    else After(Front(src).0, Scan(src[Front(src).1..]))
  }

  lemma AfterNothing(r: Result<seq<Token>>)
    ensures After([], r) == r
  {
    if r.Ok? { assert [] + r.value == r.value; }
  }

  lemma AfterEnd(tokens: seq<Token>)
    ensures After(tokens, Ok([END])) == Ok(tokens + [END])
  {
  }

  lemma ScanEnd(src: Str, i: nat)
    requires i == |src|
    ensures Scan(src[i..]) == Ok([END])
  {
  }

  lemma ScanStep(src: Str, i: nat, tokens: seq<Token>, found: seq<Token>, next: nat)
    requires i < |src| && i <= next <= |src| && Front(src[i..]) == (found, next - i)
    ensures next == i ==> After(tokens, Scan(src[i..])) == Err(UNEXPECTED_CHARACTER)
    ensures next > i ==> After(tokens, Scan(src[i..])) == After(tokens + found, Scan(src[next..]))
  {
    hide Front;
    assert src[i..][next - i..] == src[next..];
    AfterTwice(tokens, found, Scan(src[next..]));
  }

  lemma AfterTwice(x: seq<Token>, y: seq<Token>, r: Result<seq<Token>>)
    ensures After(x, After(y, r)) == After(x + y, r)
  {
    if r.Ok? { assert x + (y + r.value) == (x + y) + r.value; }
  }

  method ReadDigits(src: Str, start: nat) returns (digits: Str, i: nat)
    requires start < |src|
    ensures i == start + DigitRun(src[start..]) && digits == src[start..i]
  {
    digits, i := [], start;
    while i < |src| && IsDigit(src[i])
      invariant start <= i <= |src| && digits == src[start..i]
      invariant DigitRun(src[start..]) == i - start + DigitRun(src[i..])
    {
      assert src[i..][1..] == src[i + 1..];
      digits := digits + [src[i]];
      i := i + 1;
    }
  }

  method ReadWord(src: Str, start: nat) returns (word: Str, i: nat)
    requires start < |src|
    ensures i == start + WordRun(src[start..]) && word == src[start..i]
  {
    word, i := [], start;
    while i < |src| && IsWord(src[i])
      invariant start <= i <= |src| && word == src[start..i]
      invariant WordRun(src[start..]) == i - start + WordRun(src[i..])
    {
      assert src[i..][1..] == src[i + 1..];
      word := word + [src[i]];
      i := i + 1;
    }
  }

  /** One round of the scanning loop. */
  method Step(src: Str, i: nat) returns (found: seq<Token>, next: nat)
    requires i < |src|
    ensures (found, next - i) == Front(src[i..]) && i <= next <= |src|
  {
    var c := src[i];
    found, next := [], i + 1;
    if IsSpace(c) {
    } else if c == OPEN {
      found := [LPAREN];
    } else if c == CLOSE {
      found := [RPAREN];
    } else if c == GREATER {
      if i + 1 < |src| && src[i + 1] == EQUAL { found, next := [OPERATOR(GE)], i + 2; } else { found := [OPERATOR(GT)]; }
    } else if c == LESS {
      if i + 1 < |src| && src[i + 1] == EQUAL { found, next := [OPERATOR(LE)], i + 2; } else { found := [OPERATOR(LT)]; }
    } else if c == EQUAL {
      found := [OPERATOR(EQ)];
    } else if IsDigit(c) {
      var digits;
      digits, next := ReadDigits(src, i);
      found := [NUMBER(digits)];
      assert src[i..][..next - i] == src[i..next];
    } else if IsWordStart(c) {
      var word;
      word, next := ReadWord(src, i);
      found := [WordToken(word)];
      assert src[i..][..next - i] == src[i..next];
    } else {
      next := i;
    }
  }

  method Tokenize(src: Str) returns (r: Result<seq<Token>>)
    ensures r == Scan(src)
  {
    hide *;
    var tokens: seq<Token> := [];
    var i := 0;
    assert src[0..] == src;
    AfterNothing(Scan(src));
    while i < |src|
      invariant i <= |src| && Scan(src) == After(tokens, Scan(src[i..]))
      decreases |src| - i
    {
      var found, next := Step(src, i);
      ScanStep(src, i, tokens, found, next);
      if next == i { return Err(UNEXPECTED_CHARACTER); }
      tokens, i := tokens + found, next;
    }
    ScanEnd(src, i);
    AfterEnd(tokens);
    tokens := tokens + [END];
    return Ok(tokens);
  }

  // ----- which strings have tokens

  predicate Legal(c: byte) { IsSpace(c) || c in {OPEN, CLOSE, GREATER, LESS, EQUAL} || IsWord(c) }

  predicate AllLegal(src: Str) { forall i :: 0 <= i < |src| ==> Legal(src[i]) }

  lemma FrontLegal(src: Str)
    requires src != []
    ensures var n := Front(src).1; (n == 0 ==> !Legal(src[0])) && forall i :: 0 <= i < n ==> Legal(src[i])
  {
  }

  lemma LegalSplit(src: Str, n: nat)
    requires n <= |src| && forall i :: 0 <= i < n ==> Legal(src[i])
    ensures AllLegal(src) <==> AllLegal(src[n..])
  {
    hide Legal;
    assert forall i :: n <= i < |src| ==> src[i] == src[n..][i - n];
    assert forall i :: 0 <= i < |src[n..]| ==> src[n..][i] == src[n + i];
  }

  /** Scanning fails exactly on strings with a character of no token. */
  lemma {:induction false} ScansExactly(src: Str)
    ensures Scan(src).Ok? <==> AllLegal(src)
    decreases |src|
  {
    if src != [] {
      var n := Front(src).1;
      FrontLegal(src);
      hide Front, Legal;
      LegalSplit(src, n);
      if n > 0 { ScansExactly(src[n..]); }
    }
  }

  /** A token list ends with END and holds no other. */
  lemma {:induction false} EndsOnce(src: Str)
    requires Scan(src).Ok?
    ensures var tokens := Scan(src).value; tokens != [] && tokens[|tokens| - 1] == END
    ensures forall i :: 0 <= i < |Scan(src).value| - 1 ==> Scan(src).value[i] != END
    decreases |src|
  {
    if src != [] {
      var (found, n) := Front(src);
      assert forall i :: 0 <= i < |found| ==> found[i] != END;
      hide Front;
      EndsOnce(src[n..]);
    }
  }

  // ----- spelling tokens

  function Space(): Str { [32] }

  function OperatorText(op: Comparison): Str {
    match op
    case GT => [GREATER]
    case LT => [LESS]
    case GE => [GREATER, EQUAL]
    case LE => [LESS, EQUAL]
    case EQ => [EQUAL]
  }

  predicate Digits(s: Str) { s != [] && forall i :: 0 <= i < |s| ==> IsDigit(s[i]) }

  predicate Identifier(s: Str) { s != [] && IsWordStart(s[0]) && !Keyword(s) && forall i :: 0 <= i < |s| ==> IsWord(s[i]) }

  /** Tokens the scanner can produce, except the end. */
  predicate Spellable(t: Token) {
    match t
    case IDENTIFIER(name) => Identifier(name)
    case NUMBER(digits) => Digits(digits)
    case AND => true
    case OPERATOR(op) => true
    case LPAREN => true
    case RPAREN => true
    case END => false
  }

  function TokenText(t: Token): Str {
    match t
    case IDENTIFIER(name) => name
    case NUMBER(digits) => digits
    case AND => [65, 78, 68]
    case OPERATOR(op) => OperatorText(op)
    case LPAREN => [OPEN]
    case RPAREN => [CLOSE]
    case END => []
  }

  function Spell(tokens: seq<Token>): Str {
    if tokens == [] then [] else TokenText(tokens[0]) + Space() + Spell(tokens[1..])
  }

  lemma {:induction false} DigitRunIs(s: Str, n: nat)
    requires n <= |s| && (n < |s| ==> !IsDigit(s[n])) && forall i :: 0 <= i < n ==> IsDigit(s[i])
    ensures DigitRun(s) == n
  {
    if n > 0 { DigitRunIs(s[1..], n - 1); }
  }

  lemma {:induction false} WordRunIs(s: Str, n: nat)
    requires n <= |s| && (n < |s| ==> !IsWord(s[n])) && forall i :: 0 <= i < n ==> IsWord(s[i])
    ensures WordRun(s) == n
  {
    if n > 0 { WordRunIs(s[1..], n - 1); }
  }

  /** The texts of a token. */
  predicate Spells(t: Token, text: Str) {
    match t
    case IDENTIFIER(name) => Identifier(name) && text == name
    case NUMBER(digits) => Digits(digits) && text == digits
    case AND => Keyword(text)
    case OPERATOR(op) => text == OperatorText(op)
    case LPAREN => text == [OPEN]
    case RPAREN => text == [CLOSE]
    case END => false
  }

  /** White space, at least one character of it. */
  predicate Gap(s: Str) { s != [] && forall i :: 0 <= i < |s| ==> s[i] in {9, 10, 11, 12, 13, 32} }

  lemma FrontOfToken(t: Token, text: Str, rest: Str)
    requires Spells(t, text) && (rest != [] ==> IsSpace(rest[0]))
    ensures text != [] && Front(text + rest) == ([t], |text|)
  {
    var src := text + rest;
    assert rest != [] ==> src[|text|] == rest[0];
    assert forall i :: 0 <= i < |text| ==> src[i] == text[i];
    assert src[..|text|] == text;
    AndInAnyCase(text);
    if t.NUMBER? { DigitRunIs(src, |text|); }
    if t.IDENTIFIER? || t.AND? { WordRunIs(src, |text|); }
  }

  lemma SkipSpace(c: byte, rest: Str)
    requires IsSpace(c)
    ensures Scan([c] + rest) == Scan(rest)
  {
    assert ([c] + rest)[1..] == rest;
    assert Front([c] + rest) == ([], 1);
    AfterNothing(Scan(rest));
    hide Front;
  }

  lemma {:induction false} SkipGap(gap: Str, rest: Str)
    requires forall i :: 0 <= i < |gap| ==> gap[i] in {9, 10, 11, 12, 13, 32}
    ensures Scan(gap + rest) == Scan(rest)
  {
    if gap == [] {
      assert gap + rest == rest;
    } else {
      assert gap + rest == [gap[0]] + (gap[1..] + rest);
      hide Scan;
      SkipSpace(gap[0], gap[1..] + rest);
      SkipGap(gap[1..], rest);
    }
  }

  lemma ScanIs(src: Str, tokens: seq<Token>, n: nat)
    requires src != [] && Front(src) == (tokens, n) && n > 0
    ensures n <= |src| && Scan(src) == After(tokens, Scan(src[n..]))
  {
    hide Front;
  }

  lemma ScanToken(t: Token, text: Str, gap: Str, rest: Str)
    requires Spells(t, text) && Gap(gap)
    ensures Scan(text + gap + rest) == After([t], Scan(rest))
  {
    var src := text + (gap + rest);
    assert text + gap + rest == src;
    assert gap + rest != [] && (gap + rest)[0] == gap[0];
    hide Scan, Spells, Front;
    FrontOfToken(t, text, gap + rest);
    SkipGap(gap, rest);
    ScanIs(src, [t], |text|);
    assert src[|text|..] == gap + rest;
  }

  /** The text of a token alone. */
  lemma ScanAlone(t: Token, text: Str)
    requires Spells(t, text)
    ensures Scan(text) == Ok([t, END])
  {
    hide *;
    FrontOfToken(t, text, []);
    assert text + [] == text;
    ScanIs(text, [t], |text|);
    ScanEnd(text, |text|);
    AfterEnd([t]);
    assert [t] + [END] == [t, END];
  }

  /** A word alone is the keyword in any of its spellings, or an identifier. */
  lemma WordScans(w: Str)
    requires w != [] && IsWordStart(w[0]) && forall i :: 0 <= i < |w| ==> IsWord(w[i])
    ensures Scan(w) == Ok([if Keyword(w) then AND else IDENTIFIER(w), END])
  {
    var t := if Keyword(w) then AND else IDENTIFIER(w);
    assert Spells(t, w);
    hide *;
    ScanAlone(t, w);
  }

  /** Texts, each followed by white space. */
  function Joined(texts: seq<Str>, gaps: seq<Str>): Str
    requires |texts| == |gaps|
  {
    if texts == [] then [] else texts[0] + gaps[0] + Joined(texts[1..], gaps[1..])
  }

  /** However tokens are spelled and spaced, they scan as themselves. */
  lemma {:induction false} AnySpelling(tokens: seq<Token>, texts: seq<Str>, gaps: seq<Str>)
    requires |tokens| == |texts| == |gaps|
    requires forall i :: 0 <= i < |tokens| ==> Spells(tokens[i], texts[i]) && Gap(gaps[i])
    ensures Scan(Joined(texts, gaps)) == Ok(tokens + [END])
  {
    if tokens == [] {
      assert Scan([]) == Ok([END]) && [] + [END] == [END];
    } else {
      hide Scan, Spells, Gap;
      ScanToken(tokens[0], texts[0], gaps[0], Joined(texts[1..], gaps[1..]));
      AnySpelling(tokens[1..], texts[1..], gaps[1..]);
      assert [tokens[0]] + (tokens[1..] + [END]) == tokens + [END];
    }
  }

  predicate AllSpellable(tokens: seq<Token>) { forall i :: 0 <= i < |tokens| ==> Spellable(tokens[i]) }

  /** Spelled tokens scan as themselves. */
  lemma {:induction false} SpellScan(tokens: seq<Token>)
    requires AllSpellable(tokens)
    ensures Scan(Spell(tokens)) == Ok(tokens + [END])
  {
    if tokens == [] {
      assert Scan([]) == Ok([END]) && [] + [END] == [END];
    } else {
      assert Spellable(tokens[0]) && Spells(tokens[0], TokenText(tokens[0])) && Gap(Space());
      hide Scan, TokenText, Spellable, Spells;
      ScanToken(tokens[0], TokenText(tokens[0]), Space(), Spell(tokens[1..]));
      SpellScan(tokens[1..]);
      assert [tokens[0]] + (tokens[1..] + [END]) == tokens + [END];
    }
  }
}
