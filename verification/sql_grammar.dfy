/** The parser accepts exactly the grammar, and inverts a fully parenthesising
    printer. */
module SqlGrammar {
  import opened Storage
  import opened SqlTokens
  import opened SqlParser

  // ----- whatever parses derives from the grammar

  lemma SliceOne(tokens: seq<Token>, pos: nat)
    requires pos < |tokens|
    ensures tokens[pos..pos + 1] == [tokens[pos]]
  {
  }

  lemma SliceJoin(tokens: seq<Token>, a: nat, b: nat, c: nat)
    requires a <= b <= c <= |tokens|
    ensures tokens[a..b] + tokens[b..c] == tokens[a..c]
  {
  }

  lemma PrimarySound(tokens: seq<Token>, pos: nat) returns (p: Primary)
    requires Terminated(tokens) && ParsePrimary(tokens, pos).Ok?
    ensures var (node, next) := ParsePrimary(tokens, pos).value;
            pos < next < |tokens| && tokens[pos..next] == PrimaryTokens(p) && PrimaryFits(p) && PrimaryTree(p) == node
    decreases |tokens| - pos, 0
  {
    SliceOne(tokens, pos);
    if tokens[pos] == LPAREN {
      var e := ExpressionSound(tokens, pos + 1);
      var (node, close) := ParseExpression(tokens, pos + 1).value;
      p := Nested(e);
      SliceOne(tokens, close);
      SliceJoin(tokens, pos, pos + 1, close);
      SliceJoin(tokens, pos, close, close + 1);
    } else if tokens[pos].IDENTIFIER? {
      p := Name(tokens[pos].name);
    } else {
      p := Number(tokens[pos].digits);
    }
  }

  lemma TermSound(tokens: seq<Token>, pos: nat) returns (t: Term)
    requires Terminated(tokens) && ParseTerm(tokens, pos).Ok?
    ensures var (node, next) := ParseTerm(tokens, pos).value;
            && pos < next < |tokens| && tokens[pos..next] == TermTokens(t) && TermFits(t) && TermTree(t) == node
            && (tokens[next].OPERATOR? ==> t.Related?)
    decreases |tokens| - pos, 1
  {
    var left := PrimarySound(tokens, pos);
    var p := ParsePrimary(tokens, pos).value.1;
    if tokens[p].OPERATOR? {
      var right := PrimarySound(tokens, p + 1);
      var q := ParsePrimary(tokens, p + 1).value.1;
      t := Related(left, tokens[p].op, right);
      SliceOne(tokens, p);
      SliceJoin(tokens, pos, p, p + 1);
      SliceJoin(tokens, pos, p + 1, q);
    } else {
      t := Single(left);
    }
  }

  /** The token cannot continue the expression: no AND, and an operator only after a comparison. */
  predicate Ends(e: Expression, next: Token) { next != AND && (next.OPERATOR? ==> e.t.Related?) }

  lemma ExpressionSound(tokens: seq<Token>, pos: nat) returns (e: Expression)
    requires Terminated(tokens) && ParseExpression(tokens, pos).Ok?
    ensures var (node, next) := ParseExpression(tokens, pos).value;
            && pos < next < |tokens| && tokens[pos..next] == ExpressionTokens(e) && ExpressionFits(e) && ExpressionTree(e) == node
            && Ends(e, tokens[next])
    decreases |tokens| - pos, 2
  {
    var t := TermSound(tokens, pos);
    var (node, p) := ParseTerm(tokens, pos).value;
    e := MoreSound(tokens, pos, p, One(t));
  }

  lemma MoreSound(tokens: seq<Token>, start: nat, pos: nat, e: Expression) returns (e': Expression)
    requires Terminated(tokens) && start < pos < |tokens| && ParseMore(tokens, pos, ExpressionTree(e)).Ok?
    requires tokens[start..pos] == ExpressionTokens(e) && ExpressionFits(e) && (tokens[pos].OPERATOR? ==> e.t.Related?)
    ensures var (node, next) := ParseMore(tokens, pos, ExpressionTree(e)).value;
            && start < next < |tokens| && tokens[start..next] == ExpressionTokens(e') && ExpressionFits(e') && ExpressionTree(e') == node
            && Ends(e', tokens[next])
    decreases |tokens| - pos, 3
  {
    if tokens[pos] == AND {
      var t := TermSound(tokens, pos + 1);
      var p := ParseTerm(tokens, pos + 1).value.1;
      SliceOne(tokens, pos);
      SliceJoin(tokens, start, pos, pos + 1);
      SliceJoin(tokens, start, pos + 1, p);
      e' := MoreSound(tokens, start, p, More(e, t));
    } else {
      e' := e;
    }
  }

  // ----- whatever derives from the grammar parses

  predicate At(tokens: seq<Token>, pos: nat, ts: seq<Token>) { pos + |ts| <= |tokens| && tokens[pos..pos + |ts|] == ts }

  lemma AtJoin(tokens: seq<Token>, pos: nat, x: seq<Token>, y: seq<Token>)
    requires At(tokens, pos, x + y)
    ensures At(tokens, pos, x) && At(tokens, pos + |x|, y)
  {
    assert tokens[pos..pos + |x|] == tokens[pos..pos + |x + y|][..|x|];
    assert tokens[pos + |x|..pos + |x| + |y|] == tokens[pos..pos + |x + y|][|x|..];
  }

  lemma AtOne(tokens: seq<Token>, pos: nat, t: Token)
    requires At(tokens, pos, [t])
    ensures pos < |tokens| && tokens[pos] == t
  {
    assert tokens[pos..pos + 1][0] == t;
  }

  lemma {:induction false} PrimaryComplete(tokens: seq<Token>, pos: nat, p: Primary)
    requires Terminated(tokens) && At(tokens, pos, PrimaryTokens(p)) && PrimaryFits(p)
    ensures ParsePrimary(tokens, pos) == Ok((PrimaryTree(p), pos + |PrimaryTokens(p)|))
    decreases p, 0
  {
    match p {
      case Name(name) => AtOne(tokens, pos, IDENTIFIER(name));
      case Number(digits) => AtOne(tokens, pos, NUMBER(digits));
      case Nested(e) =>
        var inner := ExpressionTokens(e);
        AtJoin(tokens, pos, [LPAREN] + inner, [RPAREN]);
        AtJoin(tokens, pos, [LPAREN], inner);
        AtOne(tokens, pos, LPAREN);
        AtOne(tokens, pos + 1 + |inner|, RPAREN);
        hide At;
        ExpressionComplete(tokens, pos + 1, e);
    }
  }

  lemma RelatedParts(tokens: seq<Token>, pos: nat, l: Primary, op: Comparison, r: Primary)
    requires At(tokens, pos, TermTokens(Related(l, op, r)))
    ensures var n := |PrimaryTokens(l)|;
            && At(tokens, pos, PrimaryTokens(l)) && pos + n < |tokens| && tokens[pos + n] == OPERATOR(op)
            && At(tokens, pos + n + 1, PrimaryTokens(r))
            && |TermTokens(Related(l, op, r))| == n + 1 + |PrimaryTokens(r)|
  {
    var x, y := PrimaryTokens(l), PrimaryTokens(r);
    AtJoin(tokens, pos, x + [OPERATOR(op)], y);
    AtJoin(tokens, pos, x, [OPERATOR(op)]);
    AtOne(tokens, pos + |x|, OPERATOR(op));
    hide At, PrimaryTokens;
  }

  lemma TermWhen(tokens: seq<Token>, pos: nat, left: Node, p: nat)
    requires Terminated(tokens) && ParsePrimary(tokens, pos) == Ok((left, p))
    ensures p < |tokens|
    ensures !tokens[p].OPERATOR? ==> ParseTerm(tokens, pos) == Ok((left, p))
    ensures forall right, q :: tokens[p].OPERATOR? && ParsePrimary(tokens, p + 1) == Ok((right, q)) ==>
              ParseTerm(tokens, pos) == Ok((Compare(tokens[p].op, left, right), q))
  {
    hide ParsePrimary;
  }

  lemma TermMeans(t: Term)
    ensures t.Single? ==> TermTokens(t) == PrimaryTokens(t.p) && TermTree(t) == PrimaryTree(t.p) && TermFits(t) == PrimaryFits(t.p)
    ensures t.Related? ==> TermTree(t) == Compare(t.op, PrimaryTree(t.left), PrimaryTree(t.right))
                           && TermFits(t) == (PrimaryFits(t.left) && PrimaryFits(t.right))
  {
  }

  lemma {:induction false} TermComplete(tokens: seq<Token>, pos: nat, t: Term)
    requires Terminated(tokens) && At(tokens, pos, TermTokens(t)) && TermFits(t)
    requires pos + |TermTokens(t)| < |tokens| && (tokens[pos + |TermTokens(t)|].OPERATOR? ==> t.Related?)
    ensures ParseTerm(tokens, pos) == Ok((TermTree(t), pos + |TermTokens(t)|))
    decreases t, 1
  {
    hide *;
    TermMeans(t);
    if t.Single? {
      PrimaryComplete(tokens, pos, t.p);
      TermWhen(tokens, pos, PrimaryTree(t.p), pos + |PrimaryTokens(t.p)|);
    } else {
      var n := |PrimaryTokens(t.left)|;
      RelatedParts(tokens, pos, t.left, t.op, t.right);
      PrimaryComplete(tokens, pos, t.left);
      PrimaryComplete(tokens, pos + n + 1, t.right);
      TermWhen(tokens, pos, PrimaryTree(t.left), pos + n);
    }
  }

  lemma MoreNext(tokens: seq<Token>, pos: nat, node: Node, right: Node, p: nat)
    requires Terminated(tokens) && pos < |tokens| && tokens[pos] == AND && ParseTerm(tokens, pos + 1) == Ok((right, p))
    ensures pos < p < |tokens| && ParseMore(tokens, pos, node) == ParseMore(tokens, p, And(node, right))
  {
    hide ParseTerm;
  }

  lemma ExpressionStart(tokens: seq<Token>, pos: nat, node: Node, p: nat)
    requires Terminated(tokens) && ParseTerm(tokens, pos) == Ok((node, p))
    ensures p < |tokens| && ParseExpression(tokens, pos) == ParseMore(tokens, p, node)
  {
    hide ParseTerm, ParseMore;
  }

  lemma MoreParts(tokens: seq<Token>, pos: nat, rest: Expression, t: Term)
    requires At(tokens, pos, ExpressionTokens(More(rest, t)))
    ensures var n := |ExpressionTokens(rest)|;
            && At(tokens, pos, ExpressionTokens(rest)) && pos + n < |tokens| && tokens[pos + n] == AND
            && At(tokens, pos + n + 1, TermTokens(t))
            && |ExpressionTokens(More(rest, t))| == n + 1 + |TermTokens(t)|
  {
    var x, y := ExpressionTokens(rest), TermTokens(t);
    AtJoin(tokens, pos, x + [AND], y);
    AtJoin(tokens, pos, x, [AND]);
    AtOne(tokens, pos + |x|, AND);
    hide At, TermTokens;
  }

  lemma MoreFits(rest: Expression, t: Term)
    ensures ExpressionFits(More(rest, t)) <==> ExpressionFits(rest) && TermFits(t)
    ensures ExpressionTree(More(rest, t)) == And(ExpressionTree(rest), TermTree(t))
    ensures ExpressionFits(One(t)) <==> TermFits(t)
    ensures ExpressionTree(One(t)) == TermTree(t) && ExpressionTokens(One(t)) == TermTokens(t)
  {
  }

  /** The loop goes through the terms of an expression and is left with what follows. */
  lemma {:induction false} ExpressionPrefix(tokens: seq<Token>, pos: nat, e: Expression)
    requires Terminated(tokens) && At(tokens, pos, ExpressionTokens(e)) && ExpressionFits(e)
    requires pos + |ExpressionTokens(e)| < |tokens| && (tokens[pos + |ExpressionTokens(e)|].OPERATOR? ==> e.t.Related?)
    ensures ParseExpression(tokens, pos) == ParseMore(tokens, pos + |ExpressionTokens(e)|, ExpressionTree(e))
    decreases e, 2
  {
    hide *;
    if e.One? {
      MoreFits(e, e.t);
      TermComplete(tokens, pos, e.t);
      ExpressionStart(tokens, pos, TermTree(e.t), pos + |TermTokens(e.t)|);
    } else {
      var n := |ExpressionTokens(e.e)|;
      MoreFits(e.e, e.t);
      MoreParts(tokens, pos, e.e, e.t);
      ExpressionPrefix(tokens, pos, e.e);
      TermComplete(tokens, pos + n + 1, e.t);
      MoreNext(tokens, pos + n, ExpressionTree(e.e), TermTree(e.t), pos + n + 1 + |TermTokens(e.t)|);
    }
  }

  lemma {:induction false} ExpressionComplete(tokens: seq<Token>, pos: nat, e: Expression)
    requires Terminated(tokens) && At(tokens, pos, ExpressionTokens(e)) && ExpressionFits(e)
    requires pos + |ExpressionTokens(e)| < |tokens| && tokens[pos + |ExpressionTokens(e)|] in {RPAREN, END}
    ensures ParseExpression(tokens, pos) == Ok((ExpressionTree(e), pos + |ExpressionTokens(e)|))
    decreases e, 3
  {
    ExpressionPrefix(tokens, pos, e);
  }

  // ----- the grammar, exactly

  /** The tokens derive from the grammar, with literals in range, and mean the tree. */
  predicate Derives(e: Expression, tokens: seq<Token>, node: Node) {
    tokens == ExpressionTokens(e) + [END] && ExpressionFits(e) && ExpressionTree(e) == node
  }

  predicate EndsWithEnd(tokens: seq<Token>) {
    Terminated(tokens) && forall i :: 0 <= i < |tokens| - 1 ==> tokens[i] != END
  }

  lemma ParsedDerives(tokens: seq<Token>, node: Node) returns (e: Expression)
    requires EndsWithEnd(tokens) && ParseTokens(tokens) == Ok(node)
    ensures Derives(e, tokens, node)
  {
    e := ExpressionSound(tokens, 0);
    var p := ParseExpression(tokens, 0).value.1;
    assert p == |tokens| - 1;
    assert tokens == tokens[0..p] + [END];
  }

  lemma DerivedParses(e: Expression, tokens: seq<Token>, node: Node)
    requires Derives(e, tokens, node) && EndsWithEnd(tokens)
    ensures ParseTokens(tokens) == Ok(node)
  {
    assert tokens[0..|ExpressionTokens(e)|] == ExpressionTokens(e);
    ExpressionComplete(tokens, 0, e);
  }

  /** Parsing succeeds exactly on the token lists the grammar derives, and gives
      the left-associated tree. */
  lemma ParsesExactly(tokens: seq<Token>, node: Node)
    requires EndsWithEnd(tokens)
    ensures ParseTokens(tokens) == Ok(node) <==> exists e :: Derives(e, tokens, node)
  {
    hide ParseTokens, Derives;
    if ParseTokens(tokens) == Ok(node) {
      var e := ParsedDerives(tokens, node);
    }
    forall e | Derives(e, tokens, node) ensures ParseTokens(tokens) == Ok(node) {
      DerivedParses(e, tokens, node);
    }
  }

  /** From characters to tree: legal characters, and tokens that derive from the grammar. */
  lemma ParsesStringExactly(src: Str, node: Node)
    ensures ParseString(src) == Ok(node) <==>
            AllLegal(src) && Scan(src).Ok? && exists e :: Derives(e, Scan(src).value, node)
  {
    ScansExactly(src);
    hide Scan, ParseTokens, Derives, AllLegal;
    if Scan(src).Ok? {
      EndsOnce(src);
      ParsesExactly(Scan(src).value, node);
    }
  }

  /** Two derivations of one token list mean the same tree. */
  lemma Unambiguous(x: Expression, y: Expression, tokens: seq<Token>, a: Node, b: Node)
    requires EndsWithEnd(tokens) && Derives(x, tokens, a) && Derives(y, tokens, b)
    ensures a == b
  {
    hide Derives, ParseTokens;
    DerivedParses(x, tokens, a);
    DerivedParses(y, tokens, b);
  }

  // ----- printing

  function DigitsOf(n: nat): (s: Str)
    ensures s != []
    decreases n
  {
    if n < 10 then [48 + n] else DigitsOf(n / 10) + [48 + n % 10]
  }

  lemma {:induction false} DigitsValue(n: nat)
    ensures NumberValue(DigitsOf(n)) == n && Digits(DigitsOf(n))
    decreases n
  {
    if n < 10 {
      assert [48 + n][..0] == [];
    } else {
      DigitsValue(n / 10);
      assert DigitsOf(n)[..|DigitsOf(n)| - 1] == DigitsOf(n / 10);
    }
  }

  /** Trees the parser can produce. */
  predicate Printable(node: Node) {
    match node
    case Load(name) => Identifier(name)
    case Const(value) => value < INT64_LIMIT
    case And(l, r) => Printable(l) && Printable(r)
    case Compare(_, l, r) => Printable(l) && Printable(r)
  }

  /** Every operand that is not a leaf is put in parentheses. */
  function Full(node: Node): Expression
    decreases node, 0
  {
    match node
    case Load(name) => One(Single(Name(name)))
    case Const(value) => One(Single(Number(DigitsOf(value))))
    case And(l, r) => More(One(Single(Operand(l))), Single(Operand(r)))
    case Compare(op, l, r) => One(Related(Operand(l), op, Operand(r)))
  }

  function Operand(node: Node): Primary
    decreases node, 1
  {
    match node
    case Load(name) => Name(name)
    case Const(value) => Number(DigitsOf(value))
    case And(_, _) => Nested(Full(node))
    case Compare(_, _, _) => Nested(Full(node))
  }

  function Print(node: Node): Str { Spell(ExpressionTokens(Full(node))) }

  lemma {:induction false} FullMeaning(node: Node)
    requires Printable(node)
    ensures ExpressionTree(Full(node)) == node && ExpressionFits(Full(node))
    ensures AllSpellable(ExpressionTokens(Full(node)))
    decreases node, 0
  {
    match node {
      case Load(name) => Leaf(Name(name));
      case Const(value) =>
        DigitsValue(value);
        Leaf(Number(DigitsOf(value)));
      case And(l, r) =>
        OperandMeaning(l);
        OperandMeaning(r);
        Conjunction(Operand(l), Operand(r));
        assert Full(node) == More(One(Single(Operand(l))), Single(Operand(r)));
        hide Operand, Full;
      case Compare(op, l, r) =>
        OperandMeaning(l);
        OperandMeaning(r);
        Relation(Operand(l), op, Operand(r));
        assert Full(node) == One(Related(Operand(l), op, Operand(r)));
        hide Operand, Full;
    }
  }

  lemma Leaf(p: Primary)
    ensures var e := One(Single(p));
            ExpressionTree(e) == PrimaryTree(p) && ExpressionFits(e) == PrimaryFits(p) && ExpressionTokens(e) == PrimaryTokens(p)
  {
    assert TermTree(Single(p)) == PrimaryTree(p) && TermFits(Single(p)) == PrimaryFits(p) && TermTokens(Single(p)) == PrimaryTokens(p);
  }

  lemma Conjunction(x: Primary, y: Primary)
    ensures var e := More(One(Single(x)), Single(y));
            && ExpressionTree(e) == And(PrimaryTree(x), PrimaryTree(y)) && (ExpressionFits(e) <==> PrimaryFits(x) && PrimaryFits(y))
            && (AllSpellable(PrimaryTokens(x)) && AllSpellable(PrimaryTokens(y)) ==> AllSpellable(ExpressionTokens(e)))
  {
    var rest, t := One(Single(x)), Single(y);
    assert ExpressionTokens(rest) == TermTokens(Single(x)) == PrimaryTokens(x) && TermTokens(t) == PrimaryTokens(y);
    assert ExpressionTokens(More(rest, t)) == ExpressionTokens(rest) + [AND] + TermTokens(t);
    assert ExpressionTree(rest) == TermTree(Single(x)) == PrimaryTree(x) && TermTree(t) == PrimaryTree(y);
    assert ExpressionFits(rest) == TermFits(Single(x)) == PrimaryFits(x) && TermFits(t) == PrimaryFits(y);
    assert Spellable(AND);
    hide PrimaryTokens, PrimaryTree, PrimaryFits, Spellable;
  }

  lemma Relation(x: Primary, op: Comparison, y: Primary)
    ensures var e := One(Related(x, op, y));
            && ExpressionTree(e) == Compare(op, PrimaryTree(x), PrimaryTree(y)) && (ExpressionFits(e) <==> PrimaryFits(x) && PrimaryFits(y))
            && (AllSpellable(PrimaryTokens(x)) && AllSpellable(PrimaryTokens(y)) ==> AllSpellable(ExpressionTokens(e)))
  {
    var t := Related(x, op, y);
    assert ExpressionTokens(One(t)) == TermTokens(t) == PrimaryTokens(x) + [OPERATOR(op)] + PrimaryTokens(y);
    assert ExpressionTree(One(t)) == TermTree(t) && ExpressionFits(One(t)) == TermFits(t);
    assert Spellable(OPERATOR(op));
    hide PrimaryTokens, PrimaryTree, PrimaryFits, Spellable;
  }

  lemma {:induction false} OperandMeaning(node: Node)
    requires Printable(node)
    ensures PrimaryTree(Operand(node)) == node && PrimaryFits(Operand(node))
    ensures AllSpellable(PrimaryTokens(Operand(node)))
    decreases node, 1
  {
    match node {
      case Load(_) =>
      case Const(value) => DigitsValue(value);
      case And(_, _) => FullMeaning(node);
      case Compare(_, _, _) => FullMeaning(node);
    }
  }

  /** Parsing inverts printing. */
  lemma PrintParse(node: Node)
    requires Printable(node)
    ensures ParseString(Print(node)) == Ok(node)
  {
    var e := Full(node);
    FullMeaning(node);
    SpellScan(ExpressionTokens(e));
    var tokens := ExpressionTokens(e) + [END];
    assert forall i :: 0 <= i < |tokens| - 1 ==> Spellable(tokens[i]);
    hide Full, Scan, Spell, ParseTokens, Printable, ExpressionTree, ExpressionFits, ExpressionTokens;
    DerivedParses(e, tokens, node);
  }

  /** A literal alone parses exactly if it is below 2^63. */
  lemma LiteralRange(digits: Str)
    requires Digits(digits)
    ensures ParseString(digits) == if NumberValue(digits) < 9223372036854775808 then Ok(Const(NumberValue(digits))) else Err(OUT_OF_RANGE)
  {
    assert Spells(NUMBER(digits), digits);
    ScanAlone(NUMBER(digits), digits);
    hide Scan, NumberValue, Spells, Digits;
    var tokens := [NUMBER(digits), END];
    assert Terminated(tokens);
    if NumberValue(digits) < 9223372036854775808 {
      assert ParsePrimary(tokens, 0) == Ok((Const(NumberValue(digits)), 1));
      assert ParseTerm(tokens, 0) == Ok((Const(NumberValue(digits)), 1));
      assert ParseMore(tokens, 1, Const(NumberValue(digits))) == Ok((Const(NumberValue(digits)), 1));
      assert ParseExpression(tokens, 0) == Ok((Const(NumberValue(digits)), 1));
    } else {
      assert ParsePrimary(tokens, 0) == Err(OUT_OF_RANGE);
      assert ParseTerm(tokens, 0) == Err(OUT_OF_RANGE);
      assert ParseExpression(tokens, 0) == Err(OUT_OF_RANGE);
    }
  }

  /** An expression parses to its tree however its tokens are spelled and spaced. */
  lemma AnyTextParses(e: Expression, texts: seq<Str>, gaps: seq<Str>)
    requires ExpressionFits(e) && |texts| == |ExpressionTokens(e)| == |gaps|
    requires forall i :: 0 <= i < |texts| ==> Spells(ExpressionTokens(e)[i], texts[i]) && Gap(gaps[i])
    ensures ParseString(Joined(texts, gaps)) == Ok(ExpressionTree(e))
  {
    var tokens := ExpressionTokens(e) + [END];
    assert forall i :: 0 <= i < |tokens| - 1 ==> Spells(tokens[i], texts[i]);
    assert forall i :: 0 <= i < |tokens| - 1 ==> tokens[i] != END;
    hide Scan, Spells, Gap, Joined, ParseTokens, ExpressionTree, ExpressionFits, ExpressionTokens;
    AnySpelling(ExpressionTokens(e), texts, gaps);
    DerivedParses(e, tokens, ExpressionTree(e));
  }
}
