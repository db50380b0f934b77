/** Recursive descent over the tokens of a predicate, the grammar it implements,
    and a printer it inverts. */
module SqlParser {
  import opened Storage
  import opened SqlTokens

  datatype Node =
    | Load(name: Str)
    | Const(value: nat)
    | And(left: Node, right: Node)
    | Compare(op: Comparison, left: Node, right: Node)

  const TRAILING := "SQL Parser Error: Trailing tokens"
  const UNEXPECTED_END := "SQL Parser Error: Unexpected end of input"
  const MISMATCHED := "SQL Parser Error: Mismatched parentheses, expected ')'"
  const UNEXPECTED_TOKEN := "SQL Parser Error: Unexpected token"
  const OUT_OF_RANGE := "stoll"

  const INT64_LIMIT: nat := 0x8000_0000_0000_0000

  /** The number a run of digits denotes. */
  function NumberValue(digits: Str): nat {
    if digits == [] then 0
    else 10 * NumberValue(digits[..|digits| - 1]) + if IsDigit(digits[|digits| - 1]) then digits[|digits| - 1] - 48 else 0
  }

  // ----- the grammar

  /** Expression ::= Term { "AND" Term } */
  datatype Expression = One(t: Term) | More(e: Expression, t: Term)

  /** Term ::= Primary [ comparison Primary ] */
  datatype Term = Single(p: Primary) | Related(left: Primary, op: Comparison, right: Primary)

  /** Primary ::= Identifier | Number | "(" Expression ")" */
  datatype Primary = Name(name: Str) | Number(digits: Str) | Nested(e: Expression)

  function ExpressionTokens(e: Expression): (ts: seq<Token>)
    ensures ts != []
  {
    match e
    case One(t) => TermTokens(t)
    case More(rest, t) => ExpressionTokens(rest) + [AND] + TermTokens(t)
  }

  function TermTokens(t: Term): (ts: seq<Token>)
    ensures ts != []
  {
    match t
    case Single(p) => PrimaryTokens(p)
    case Related(l, op, r) => PrimaryTokens(l) + [OPERATOR(op)] + PrimaryTokens(r)
  }

  function PrimaryTokens(p: Primary): (ts: seq<Token>)
    ensures ts != []
  {
    match p
    case Name(name) => [IDENTIFIER(name)]
    case Number(digits) => [NUMBER(digits)]
    case Nested(e) => [LPAREN] + ExpressionTokens(e) + [RPAREN]
  }

  /** Every literal fits a signed 64-bit integer. */
  predicate ExpressionFits(e: Expression) {
    match e
    case One(t) => TermFits(t)
    case More(rest, t) => ExpressionFits(rest) && TermFits(t)
  }

  predicate TermFits(t: Term) {
    match t
    case Single(p) => PrimaryFits(p)
    case Related(l, _, r) => PrimaryFits(l) && PrimaryFits(r)
  }

  predicate PrimaryFits(p: Primary) {
    match p
    case Name(_) => true
    case Number(digits) => NumberValue(digits) < INT64_LIMIT
    case Nested(e) => ExpressionFits(e)
  }

  /** The tree an expression stands for; conjunctions associate to the left. */
  function ExpressionTree(e: Expression): Node {
    match e
    case One(t) => TermTree(t)
    case More(rest, t) => And(ExpressionTree(rest), TermTree(t))
  }

  function TermTree(t: Term): Node {
    match t
    case Single(p) => PrimaryTree(p)
    case Related(l, op, r) => Compare(op, PrimaryTree(l), PrimaryTree(r))
  }

  function PrimaryTree(p: Primary): Node {
    match p
    case Name(name) => Load(name)
    case Number(digits) => Const(NumberValue(digits))
    case Nested(e) => ExpressionTree(e)
  }

  // ----- the parser as functions of a position

  predicate Terminated(tokens: seq<Token>) { tokens != [] && tokens[|tokens| - 1] == END }

  type Parsed = Result<(Node, nat)>

  /** The position moves forward and stays within the token list. */
  predicate Within(r: Parsed, tokens: seq<Token>, pos: nat) { r.Ok? ==> pos < r.value.1 < |tokens| }

  function ParsePrimary(tokens: seq<Token>, pos: nat): (r: Parsed)
    requires Terminated(tokens)
    ensures Within(r, tokens, pos)
    decreases |tokens| - pos, 0
  {
    if pos >= |tokens| then Err(UNEXPECTED_END)
    else if tokens[pos] == LPAREN then
      match ParseExpression(tokens, pos + 1)
      case Err(e) => Err(e)
      case Ok((node, p)) => if tokens[p] != RPAREN then Err(MISMATCHED) else Ok((node, p + 1))
    else if tokens[pos].IDENTIFIER? then Ok((Load(tokens[pos].name), pos + 1))
    else if tokens[pos].NUMBER? then
      if NumberValue(tokens[pos].digits) >= INT64_LIMIT then Err(OUT_OF_RANGE) else Ok((Const(NumberValue(tokens[pos].digits)), pos + 1))
    else Err(UNEXPECTED_TOKEN)
  }

  function ParseTerm(tokens: seq<Token>, pos: nat): (r: Parsed)
    requires Terminated(tokens)
    ensures Within(r, tokens, pos)
    decreases |tokens| - pos, 1
  {
    match ParsePrimary(tokens, pos)
    case Err(e) => Err(e)
    case Ok((left, p)) =>
      if tokens[p].OPERATOR? then
        match ParsePrimary(tokens, p + 1)
        case Err(e) => Err(e)
        case Ok((right, q)) => Ok((Compare(tokens[p].op, left, right), q))
      else Ok((left, p))
  }

  function ParseExpression(tokens: seq<Token>, pos: nat): (r: Parsed)
    requires Terminated(tokens)
    ensures Within(r, tokens, pos)
    decreases |tokens| - pos, 2
  {
    match ParseTerm(tokens, pos)
    case Err(e) => Err(e)
    case Ok((node, p)) => ParseMore(tokens, p, node)
  }

  /** The loop over "AND" Term. */
  function ParseMore(tokens: seq<Token>, pos: nat, node: Node): (r: Parsed)
    requires Terminated(tokens) && pos < |tokens|
    ensures r.Ok? ==> pos <= r.value.1 < |tokens|
    decreases |tokens| - pos, 3
  {
    if tokens[pos] == AND then
      match ParseTerm(tokens, pos + 1)
      case Err(e) => Err(e)
      case Ok((right, p)) => ParseMore(tokens, p, And(node, right))
    else Ok((node, pos))
  }

  function ParseTokens(tokens: seq<Token>): Result<Node>
    requires Terminated(tokens)
  {
    match ParseExpression(tokens, 0)
    case Err(e) => Err(e)
    case Ok((node, p)) => if tokens[p] != END then Err(TRAILING) else Ok(node)
  }

  lemma ScanTerminated(src: Str)
    requires Scan(src).Ok?
    ensures Terminated(Scan(src).value)
  {
    EndsOnce(src);
  }

  function ParseString(src: Str): Result<Node> {
    match Scan(src)
    case Err(e) => Err(e)
    case Ok(tokens) =>
      ScanTerminated(src);
      ParseTokens(tokens)
  }

  // ----- the parser as it runs: a shared position

  class Parser {
    const tokens: seq<Token>
    var pos: nat

    constructor (tokens: seq<Token>)
      ensures this.tokens == tokens && pos == 0
    {
      this.tokens := tokens;
      pos := 0;
    }

    /** The result and the new position are those of a parse function. */
    ghost predicate Agrees(r: Result<Node>, p: Parsed)
      reads this
    {
      match p
      case Err(e) => r == Err(e)
      case Ok((node, next)) => r == Ok(node) && pos == next
    }

    method Primary() returns (r: Result<Node>)
      requires Terminated(tokens)
      modifies this`pos
      ensures Agrees(r, ParsePrimary(tokens, old(pos)))
      decreases |tokens| - pos, 0
    {
      if pos >= |tokens| { return Err(UNEXPECTED_END); }
      if tokens[pos] == LPAREN {
        pos := pos + 1;
        r := Expression();
        if r.Err? { return; }
        if tokens[pos] != RPAREN { return Err(MISMATCHED); }
        pos := pos + 1;
        return;
      }
      if tokens[pos].IDENTIFIER? {
        r := Ok(Load(tokens[pos].name));
        pos := pos + 1;
        return;
      }
      if tokens[pos].NUMBER? {
        var value := NumberValue(tokens[pos].digits);
        if value >= INT64_LIMIT { return Err(OUT_OF_RANGE); }
        pos := pos + 1;
        return Ok(Const(value));
      }
      return Err(UNEXPECTED_TOKEN);
    }

    method Term() returns (r: Result<Node>)
      requires Terminated(tokens)
      modifies this`pos
      ensures Agrees(r, ParseTerm(tokens, old(pos)))
      decreases |tokens| - pos, 1
    {
      r := Primary();
      if r.Err? { return; }
      var left, token := r.value, tokens[pos];
      if token.OPERATOR? {
        pos := pos + 1;
        r := Primary();
        if r.Err? { return; }
        return Ok(Compare(token.op, left, r.value));
      }
    }

    method Expression() returns (r: Result<Node>)
      requires Terminated(tokens)
      modifies this`pos
      ensures Agrees(r, ParseExpression(tokens, old(pos)))
      decreases |tokens| - pos, 2
    {
      r := Term();
      if r.Err? { return; }
      var node := r.value;
      while tokens[pos] == AND
        invariant old(pos) < pos < |tokens|
        invariant ParseExpression(tokens, old(pos)) == ParseMore(tokens, pos, node)
        decreases |tokens| - pos
      {
        pos := pos + 1;
        r := Term();
        if r.Err? { return; }
        node := And(node, r.value);
      }
      return Ok(node);
    }
  }

  method Parse(src: Str) returns (r: Result<Node>)
    ensures r == ParseString(src)
  {
    hide Scan, ParseExpression;
    var scanned := Tokenize(src);
    if scanned.Err? { return Err(scanned.reason); }
    ScanTerminated(src);
    var parser := new Parser(scanned.value);
    r := parser.Expression();
    if r.Err? { return; }
    if parser.tokens[parser.pos] != END { return Err(TRAILING); }
  }
}
