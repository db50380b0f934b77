/** Why a parse fails: which error is reported, exactly, for every text. */
module SqlErrors {
  import opened Storage
  import opened SqlTokens
  import opened SqlParser
  import opened SqlGrammar

  // ----- what has been read when the parser waits for a primary

  /** Finished terms and an AND; then a left operand and its operator; then the inside
      of an open parenthesis. Each part may be missing. */
  datatype Open = Open(before: Option<Expression>, left: Option<(Primary, Comparison)>, inner: Option<Open>)

  function BeforeTokens(before: Option<Expression>): seq<Token> {
    match before
    case None => []
    case Some(e) => ExpressionTokens(e) + [AND]
  }

  function LeftTokens(left: Option<(Primary, Comparison)>): seq<Token> {
    match left
    case None => []
    case Some((p, op)) => PrimaryTokens(p) + [OPERATOR(op)]
  }

  function InnerTokens(inner: Option<Open>): seq<Token> {
    match inner
    case None => []
    case Some(o) => [LPAREN] + OpenTokens(o)
  }

  function OpenTokens(o: Open): seq<Token> { BeforeTokens(o.before) + LeftTokens(o.left) + InnerTokens(o.inner) }

  predicate BeforeFits(before: Option<Expression>) { before.Some? ==> ExpressionFits(before.value) }

  predicate LeftFits(left: Option<(Primary, Comparison)>) { left.Some? ==> PrimaryFits(left.value.0) }

  predicate InnerFits(inner: Option<Open>) { inner.Some? ==> OpenFits(inner.value) }

  predicate OpenFits(o: Open) { BeforeFits(o.before) && LeftFits(o.left) && InnerFits(o.inner) }

  // ----- what stops it there

  /** An expression, read whole, that the next token cannot continue. */
  predicate Stops(tokens: seq<Token>, pos: nat, e: Expression) {
    && At(tokens, pos, ExpressionTokens(e)) && ExpressionFits(e)
    && pos + |ExpressionTokens(e)| < |tokens| && Ends(e, tokens[pos + |ExpressionTokens(e)|])
  }

  /** The token that stops it is not the wanted one. */
  predicate StopsWrongly(tokens: seq<Token>, pos: nat, e: Expression, wanted: Token) {
    Stops(tokens, pos, e) && tokens[pos + |ExpressionTokens(e)|] != wanted
  }

  /** Inside a parenthesis: an expression that something else than `)` follows. */
  ghost predicate Unclosed(tokens: seq<Token>, pos: nat) { exists e :: StopsWrongly(tokens, pos, e, RPAREN) }

  /** Where a primary should start there is no such thing: a token that starts none,
      a literal out of range, or a parenthesis that is not closed. */
  ghost predicate Blocked(tokens: seq<Token>, q: nat, err: string) {
    q < |tokens| && match tokens[q]
      case NUMBER(digits) => NumberValue(digits) >= 0x8000_0000_0000_0000 && err == OUT_OF_RANGE
      case IDENTIFIER(_) => false
      case LPAREN => Unclosed(tokens, q + 1) && err == MISMATCHED
      case _ => err == UNEXPECTED_TOKEN
  }

  // ----- every failure of the parser is one of these

  lemma PrimaryFailsIf(tokens: seq<Token>, q: nat, err: string)
    requires Terminated(tokens) && Blocked(tokens, q, err)
    ensures ParsePrimary(tokens, q) == Err(err)
  {
    hide Stops, ParseExpression, NumberValue, ExpressionTokens;
    if tokens[q] == LPAREN {
      var e :| StopsWrongly(tokens, q + 1, e, RPAREN);
      StoppedParses(tokens, q + 1, e);
    }
  }

  lemma StoppedParses(tokens: seq<Token>, pos: nat, e: Expression)
    requires Terminated(tokens) && Stops(tokens, pos, e)
    ensures pos + |ExpressionTokens(e)| < |tokens|
    ensures ParseExpression(tokens, pos) == Ok((ExpressionTree(e), pos + |ExpressionTokens(e)|))
  {
    hide At, ExpressionTokens, ExpressionTree, ExpressionFits, ParseExpression;
    ExpressionPrefix(tokens, pos, e);
  }

  lemma ParsedStops(tokens: seq<Token>, pos: nat) returns (e: Expression)
    requires Terminated(tokens) && ParseExpression(tokens, pos).Ok?
    ensures Stops(tokens, pos, e) && ParseExpression(tokens, pos).value.1 == pos + |ExpressionTokens(e)|
  {
    hide ParseExpression, ExpressionTree, ExpressionFits, Ends;
    e := ExpressionSound(tokens, pos);
    hide ExpressionTokens;
  }

  lemma NothingAt(tokens: seq<Token>, pos: nat)
    requires pos <= |tokens|
    ensures At(tokens, pos, [])
  {
  }

  lemma JoinAt(tokens: seq<Token>, pos: nat, x: seq<Token>, y: seq<Token>)
    requires At(tokens, pos, x) && At(tokens, pos + |x|, y)
    ensures At(tokens, pos, x + y)
  {
    assert tokens[pos..pos + |x + y|] == tokens[pos..pos + |x|] + tokens[pos + |x|..pos + |x| + |y|];
  }

  lemma TokenAt(tokens: seq<Token>, pos: nat)
    requires pos < |tokens|
    ensures At(tokens, pos, [tokens[pos]])
  {
  }

  lemma PrimaryStuck(tokens: seq<Token>, pos: nat, err: string) returns (inner: Option<Open>)
    requires Terminated(tokens) && pos < |tokens| && ParsePrimary(tokens, pos) == Err(err)
    ensures InnerFits(inner) && At(tokens, pos, InnerTokens(inner)) && Blocked(tokens, pos + |InnerTokens(inner)|, err)
    decreases |tokens| - pos, 0
  {
    hide At, ExpressionTokens, OpenTokens, OpenFits, NumberValue, Stops, Terminated;
    inner := None;
    NothingAt(tokens, pos);
    if tokens[pos] == LPAREN {
      hide ParseExpression;
      OpenEnds(tokens, pos);
      if ParseExpression(tokens, pos + 1).Err? {
        var o := ExpressionStuck(tokens, pos + 1, err);
        inner := Some(o);
        TokenAt(tokens, pos);
        JoinAt(tokens, pos, [LPAREN], OpenTokens(o));
      } else {
        var e := ParsedStops(tokens, pos + 1);
        assert StopsWrongly(tokens, pos + 1, e, RPAREN);
      }
    }
  }

  /** No list ends with an open parenthesis, an AND or an operator. */
  lemma OpenEnds(tokens: seq<Token>, pos: nat)
    requires Terminated(tokens) && pos < |tokens| && tokens[pos] != END
    ensures pos + 1 < |tokens|
  {
  }

  lemma TermStuck(tokens: seq<Token>, pos: nat, err: string) returns (left: Option<(Primary, Comparison)>, inner: Option<Open>)
    requires Terminated(tokens) && pos < |tokens| && ParseTerm(tokens, pos) == Err(err)
    ensures LeftFits(left) && InnerFits(inner) && At(tokens, pos, LeftTokens(left) + InnerTokens(inner))
    ensures Blocked(tokens, pos + |LeftTokens(left) + InnerTokens(inner)|, err)
    decreases |tokens| - pos, 1
  {
    hide At, InnerTokens, Blocked, InnerFits, ParsePrimary, PrimaryTokens, PrimaryFits, Terminated;
    left := None;
    if ParsePrimary(tokens, pos).Err? {
      inner := PrimaryStuck(tokens, pos, err);
      assert [] + InnerTokens(inner) == InnerTokens(inner);
    } else {
      var p := ParsePrimary(tokens, pos).value.1;
      var primary := PrimarySound(tokens, pos);
      OpenEnds(tokens, p);
      inner := PrimaryStuck(tokens, p + 1, err);
      left := Some((primary, tokens[p].op));
      LeftAt(tokens, pos, primary, p, inner);
    }
  }

  lemma LeftAt(tokens: seq<Token>, pos: nat, primary: Primary, p: nat, inner: Option<Open>)
    requires pos <= p < |tokens| && tokens[pos..p] == PrimaryTokens(primary) && tokens[p].OPERATOR?
    requires At(tokens, p + 1, InnerTokens(inner))
    ensures var ts := LeftTokens(Some((primary, tokens[p].op))) + InnerTokens(inner);
            At(tokens, pos, ts) && pos + |ts| == p + 1 + |InnerTokens(inner)|
  {
    hide InnerTokens, PrimaryTokens;
    assert At(tokens, pos, PrimaryTokens(primary));
    TokenAt(tokens, p);
    JoinAt(tokens, pos, PrimaryTokens(primary), [tokens[p]]);
    JoinAt(tokens, pos, PrimaryTokens(primary) + [tokens[p]], InnerTokens(inner));
  }

  lemma ExpressionStuck(tokens: seq<Token>, pos: nat, err: string) returns (o: Open)
    requires Terminated(tokens) && pos < |tokens| && ParseExpression(tokens, pos) == Err(err)
    ensures OpenFits(o) && At(tokens, pos, OpenTokens(o)) && Blocked(tokens, pos + |OpenTokens(o)|, err)
    decreases |tokens| - pos, 2
  {
    hide At, LeftTokens, InnerTokens, Blocked, LeftFits, InnerFits, ParseTerm, Terminated, ParseMore, TermTokens, TermFits, TermTree;
    if ParseTerm(tokens, pos).Err? {
      var left, inner := TermStuck(tokens, pos, err);
      o := Open(None, left, inner);
      assert OpenTokens(o) == LeftTokens(left) + InnerTokens(inner);
    } else {
      var t := TermSound(tokens, pos);
      var p := ParseTerm(tokens, pos).value.1;
      o := MoreStuck(tokens, pos, p, One(t), err);
    }
  }

  lemma MoreStuck(tokens: seq<Token>, start: nat, pos: nat, e: Expression, err: string) returns (o: Open)
    requires Terminated(tokens) && start < pos < |tokens| && ParseMore(tokens, pos, ExpressionTree(e)) == Err(err)
    requires tokens[start..pos] == ExpressionTokens(e) && ExpressionFits(e)
    ensures OpenFits(o) && At(tokens, start, OpenTokens(o)) && Blocked(tokens, start + |OpenTokens(o)|, err)
    decreases |tokens| - pos, 3
  {
    hide At, LeftTokens, InnerTokens, Blocked, LeftFits, InnerFits, ParseTerm, Terminated, TermTokens, TermFits, TermTree;
    OpenEnds(tokens, pos);
    if ParseTerm(tokens, pos + 1).Err? {
      var left, inner := TermStuck(tokens, pos + 1, err);
      o := Open(Some(e), left, inner);
      BeforeAt(tokens, start, e, pos, left, inner);
    } else {
      var t := TermSound(tokens, pos + 1);
      var p := ParseTerm(tokens, pos + 1).value.1;
      MoreTokens(tokens, start, pos, p, e, t);
      o := MoreStuck(tokens, start, p, More(e, t), err);
    }
  }

  lemma MoreTokens(tokens: seq<Token>, start: nat, pos: nat, p: nat, e: Expression, t: Term)
    requires start <= pos < p <= |tokens| && tokens[start..pos] == ExpressionTokens(e) && tokens[pos] == AND && tokens[pos + 1..p] == TermTokens(t)
    ensures tokens[start..p] == ExpressionTokens(More(e, t))
  {
    hide TermTokens;
    SliceOne(tokens, pos);
    SliceJoin(tokens, start, pos, pos + 1);
    SliceJoin(tokens, start, pos + 1, p);
  }

  lemma BeforeAt(tokens: seq<Token>, start: nat, e: Expression, pos: nat, left: Option<(Primary, Comparison)>, inner: Option<Open>)
    requires start <= pos < |tokens| && tokens[start..pos] == ExpressionTokens(e) && tokens[pos] == AND
    requires At(tokens, pos + 1, LeftTokens(left) + InnerTokens(inner))
    ensures var ts := OpenTokens(Open(Some(e), left, inner));
            At(tokens, start, ts) && start + |ts| == pos + 1 + |LeftTokens(left) + InnerTokens(inner)|
  {
    hide InnerTokens, LeftTokens, ExpressionTokens;
    assert At(tokens, start, ExpressionTokens(e));
    TokenAt(tokens, pos);
    JoinAt(tokens, start, ExpressionTokens(e), [AND]);
    JoinAt(tokens, start, ExpressionTokens(e) + [AND], LeftTokens(left) + InnerTokens(inner));
    assert OpenTokens(Open(Some(e), left, inner)) == ExpressionTokens(e) + [AND] + (LeftTokens(left) + InnerTokens(inner));
  }

  // ----- and each of these makes it fail

  lemma {:induction false} OpenFails(tokens: seq<Token>, pos: nat, o: Open, err: string)
    requires Terminated(tokens) && OpenFits(o) && At(tokens, pos, OpenTokens(o))
    requires ParsePrimary(tokens, pos + |OpenTokens(o)|) == Err(err)
    ensures ParseExpression(tokens, pos) == Err(err)
    decreases o
  {
    hide *;
    OpenParts(tokens, pos, o);
    var p1 := pos + |BeforeTokens(o.before)|;
    var p2 := p1 + |LeftTokens(o.left)|;
    if o.inner.Some? {
      InnerParts(tokens, p2, o.inner.value);
      OpenFails(tokens, p2 + 1, o.inner.value, err);
      ParenthesisFails(tokens, p2, err);
    } else {
      NoInner(o.inner);
    }
    LeftFails(tokens, p1, o.left, err);
    BeforeFails(tokens, pos, o.before, err);
  }

  lemma NoInner(inner: Option<Open>)
    ensures inner.None? ==> InnerTokens(inner) == []
  {
  }

  lemma OpenParts(tokens: seq<Token>, pos: nat, o: Open)
    requires At(tokens, pos, OpenTokens(o)) && OpenFits(o)
    ensures BeforeFits(o.before) && LeftFits(o.left) && (o.inner.Some? ==> OpenFits(o.inner.value))
    ensures At(tokens, pos, BeforeTokens(o.before))
    ensures At(tokens, pos + |BeforeTokens(o.before)|, LeftTokens(o.left))
    ensures At(tokens, pos + |BeforeTokens(o.before)| + |LeftTokens(o.left)|, InnerTokens(o.inner))
    ensures |OpenTokens(o)| == |BeforeTokens(o.before)| + |LeftTokens(o.left)| + |InnerTokens(o.inner)|
  {
    hide BeforeTokens, LeftTokens, InnerTokens, BeforeFits, LeftFits, At;
    AtJoin(tokens, pos, BeforeTokens(o.before) + LeftTokens(o.left), InnerTokens(o.inner));
    AtJoin(tokens, pos, BeforeTokens(o.before), LeftTokens(o.left));
  }

  lemma InnerParts(tokens: seq<Token>, pos: nat, o: Open)
    requires At(tokens, pos, InnerTokens(Some(o)))
    ensures pos < |tokens| && tokens[pos] == LPAREN && At(tokens, pos + 1, OpenTokens(o)) && |InnerTokens(Some(o))| == 1 + |OpenTokens(o)|
  {
    hide OpenTokens, At;
    AtJoin(tokens, pos, [LPAREN], OpenTokens(o));
    AtOne(tokens, pos, LPAREN);
  }

  lemma ParenthesisFails(tokens: seq<Token>, pos: nat, err: string)
    requires Terminated(tokens) && pos < |tokens| && tokens[pos] == LPAREN && ParseExpression(tokens, pos + 1) == Err(err)
    ensures ParsePrimary(tokens, pos) == Err(err)
  {
    hide ParseExpression;
  }

  lemma LeftFails(tokens: seq<Token>, pos: nat, left: Option<(Primary, Comparison)>, err: string)
    requires Terminated(tokens) && LeftFits(left) && At(tokens, pos, LeftTokens(left))
    requires ParsePrimary(tokens, pos + |LeftTokens(left)|) == Err(err)
    ensures ParseTerm(tokens, pos) == Err(err)
  {
    hide At, ParsePrimary, PrimaryTokens, PrimaryFits, Terminated, PrimaryTree;
    if left.Some? {
      var (p, op) := left.value;
      AtJoin(tokens, pos, PrimaryTokens(p), [OPERATOR(op)]);
      AtOne(tokens, pos + |PrimaryTokens(p)|, OPERATOR(op));
      PrimaryComplete(tokens, pos, p);
    }
  }

  lemma BeforeFails(tokens: seq<Token>, pos: nat, before: Option<Expression>, err: string)
    requires Terminated(tokens) && BeforeFits(before) && At(tokens, pos, BeforeTokens(before))
    requires ParseTerm(tokens, pos + |BeforeTokens(before)|) == Err(err)
    ensures ParseExpression(tokens, pos) == Err(err)
  {
    hide At, ParseTerm, ExpressionTokens, ExpressionFits, Terminated, ExpressionTree;
    if before.Some? {
      var e := before.value;
      var p := pos + |ExpressionTokens(e)|;
      AtJoin(tokens, pos, ExpressionTokens(e), [AND]);
      AtOne(tokens, p, AND);
      ExpressionPrefix(tokens, pos, e);
      assert ParseMore(tokens, p, ExpressionTree(e)) == Err(err);
    }
  }

  // ----- the errors, exactly

  /** The parser stops inside an unfinished expression, or an expression is followed by
      something that neither ends nor continues it. */
  ghost predicate FailsWith(tokens: seq<Token>, err: string) {
    || (exists o :: OpenFits(o) && At(tokens, 0, OpenTokens(o)) && Blocked(tokens, |OpenTokens(o)|, err))
    || (err == TRAILING && exists e :: StopsWrongly(tokens, 0, e, END))
  }

  lemma FailureFound(tokens: seq<Token>, err: string)
    requires Terminated(tokens) && ParseTokens(tokens) == Err(err)
    ensures FailsWith(tokens, err)
  {
    hide ParseExpression, Blocked, Stops, OpenFits, At, OpenTokens, ExpressionTokens;
    if ParseExpression(tokens, 0).Err? {
      var o := ExpressionStuck(tokens, 0, err);
    } else {
      var e := ParsedStops(tokens, 0);
      assert StopsWrongly(tokens, 0, e, END);
    }
  }

  lemma FailureReported(tokens: seq<Token>, err: string)
    requires Terminated(tokens) && FailsWith(tokens, err)
    ensures ParseTokens(tokens) == Err(err)
  {
    hide ParseExpression, Blocked, Stops, OpenFits, At, OpenTokens, Terminated, ExpressionTokens;
    if o :| OpenFits(o) && At(tokens, 0, OpenTokens(o)) && Blocked(tokens, |OpenTokens(o)|, err) {
      PrimaryFailsIf(tokens, |OpenTokens(o)|, err);
      OpenFails(tokens, 0, o, err);
    } else {
      var e :| StopsWrongly(tokens, 0, e, END);
      StoppedParses(tokens, 0, e);
    }
  }

  /** Which error is reported, for every token list and every error. */
  lemma FailsExactly(tokens: seq<Token>, err: string)
    requires Terminated(tokens)
    ensures ParseTokens(tokens) == Err(err) <==> FailsWith(tokens, err)
  {
    hide *;
    if ParseTokens(tokens) == Err(err) { FailureFound(tokens, err); }
    if FailsWith(tokens, err) { FailureReported(tokens, err); }
  }

  /** The check for the end of the list is never reached. */
  lemma EndNeverReported(tokens: seq<Token>)
    requires Terminated(tokens)
    ensures ParseTokens(tokens) != Err(UNEXPECTED_END)
  {
    hide OpenFits, At, OpenTokens, StopsWrongly, Unclosed, NumberValue, ParseTokens, Terminated;
    FailsExactly(tokens, UNEXPECTED_END);
    assert |UNEXPECTED_END| != |TRAILING| && |UNEXPECTED_END| != |MISMATCHED| && |UNEXPECTED_END| != |OUT_OF_RANGE| && |UNEXPECTED_END| != |UNEXPECTED_TOKEN|;
  }

  lemma {:induction false} ScanError(src: Str)
    requires Scan(src).Err?
    ensures Scan(src) == Err(UNEXPECTED_CHARACTER)
    decreases |src|
  {
    if src != [] && Front(src).1 > 0 {
      hide Front;
      ScanError(src[Front(src).1..]);
    }
  }

  /** The same for texts: an illegal character first of all, wherever it stands. */
  lemma FailsStringExactly(src: Str, err: string)
    ensures ParseString(src) == Err(err) <==>
            if AllLegal(src) then Scan(src).Ok? && FailsWith(Scan(src).value, err) else err == UNEXPECTED_CHARACTER
  {
    ScansExactly(src);
    hide Scan, AllLegal, FailsWith, ParseTokens;
    if Scan(src).Ok? {
      ScanTerminated(src);
      FailsExactly(Scan(src).value, err);
    } else {
      ScanError(src);
    }
  }
}
