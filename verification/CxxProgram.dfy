/**
 The rest of the C++ that the embedded-file generator writes, beyond its string
 constants: a table of pointers, and a function that searches it. What they are made
 of, how they are read from tokens, and what a call of the function does.
 */
module CxxProgram {
  import opened CxxReader

  type Tokens = seq<string>

  // --- Syntax ---

  /** `static const struct NAME { const std::string *MEMBER; ... } ARRAY[] = {` */
  datatype Table = Table(struct_: string, members: seq<string>, array_: string)

  datatype Expr = NullPointer | Variable(name: string) | Member(pointer: string, member: string) | Deref(of: Expr)

  datatype Condition = Condition(equal: bool, left: Expr, right: Expr)

  datatype Simple =
    | If(condition: Condition, body: seq<Simple>)
    | Assign(name: string, value: Expr)
    | Return(result: bool)

  /** `const struct STRUCT *NAME;`, `for (NAME = ARRAY; CONDITION; STEP++) { ... }`, or a simple one. */
  datatype Statement =
    | Declare(struct_: string, name: string)
    | For(pointer: string, array_: string, condition: Condition, step: string, body: seq<Simple>)
    | Plainly(simple: Simple)

  /** `static bool NAME(const std::string &INPUT, std::string &OUTPUT) { ... }` */
  datatype Function = Function(name: string, input: string, output: string, body: seq<Statement>)

  /** What the fixed text of a header declares besides its string constants. */
  datatype Unit = Unit(table: Table, search: Function)

  // --- Reading from tokens ---

  const KEYWORDS: set<string> := {
    "static", "const", "struct", "bool", "std", "for", "if", "return", "true", "false", "NULL"
  }

  predicate IsName(token: string) {
    token != "" && IsWordChar(token[0]) && !IsDigit(token[0]) && token !in KEYWORDS
  }

  function Eat(expected: Tokens, ts: Tokens): (r: Option<Tokens>)
    ensures r.Some? ==> ts == expected + r.value
  {
    if expected <= ts then Some(ts[|expected|..]) else None
  }

  function ParseName(ts: Tokens): (r: Option<(string, Tokens)>)
    ensures r.Some? ==> ts == [r.value.0] + r.value.1
  {
    if ts != [] && IsName(ts[0]) then Some((ts[0], ts[1..])) else None
  }

  /** `const std::string *NAME;`, any number of times. */
  function ParseMembers(ts: Tokens): (r: Option<(seq<string>, Tokens)>)
    ensures r.Some? ==> |r.value.1| <= |ts|
    decreases |ts|
  {
    match Eat(["const", "std", "::", "string", "*"], ts)
    case None => Some(([], ts))
    case Some(rest) =>
      var (name, rest) :- ParseName(rest);
      var rest :- Eat([";"], rest);
      var (names, rest) :- ParseMembers(rest);
      Some(([name] + names, rest))
  }

  /** The struct and the array up to its opening brace. */
  function ParseTable(ts: Tokens): Option<(Table, Tokens)> {
    var rest :- Eat(["static", "const", "struct"], ts);
    var (struct_, rest) :- ParseName(rest);
    var rest :- Eat(["{"], rest);
    var (members, rest) :- ParseMembers(rest);
    var rest :- Eat(["}"], rest);
    var (array_, rest) :- ParseName(rest);
    var rest :- Eat(["[", "]", "=", "{"], rest);
    Some((Table(struct_, members, array_), rest))
  }

  function ParseExpr(ts: Tokens): (r: Option<(Expr, Tokens)>)
    ensures r.Some? ==> |r.value.1| < |ts|
    decreases |ts|
  {
    if ts == [] then None
    else if ts[0] == "NULL" then Some((NullPointer, ts[1..]))
    else if ts[0] == "*" then
      var (e, rest) :- ParseExpr(ts[1..]);
      Some((Deref(e), rest))
    else
      var (name, rest) :- ParseName(ts);
      match Eat(["->"], rest)
      case None => Some((Variable(name), rest))
      case Some(rest) =>
        var (member, rest) :- ParseName(rest);
        Some((Member(name, member), rest))
  }

  function ParseCondition(ts: Tokens): (r: Option<(Condition, Tokens)>)
    ensures r.Some? ==> |r.value.1| < |ts|
  {
    var (left, rest) :- ParseExpr(ts);
    if rest == [] || (rest[0] != "==" && rest[0] != "!=") then None
    else
      var (right, after) :- ParseExpr(rest[1..]);
      Some((Condition(rest[0] == "==", left, right), after))
  }

  function ParseSimple(ts: Tokens): (r: Option<(Simple, Tokens)>)
    ensures r.Some? ==> |r.value.1| < |ts|
    decreases |ts|, 0
  {
    if ts == [] then None
    else if ts[0] == "if" then
      var rest :- Eat(["("], ts[1..]);
      var (condition, rest) :- ParseCondition(rest);
      var rest :- Eat([")", "{"], rest);
      var (body, rest) :- ParseSimples(rest);
      var rest :- Eat(["}"], rest);
      Some((If(condition, body), rest))
    else if ["return", "true", ";"] <= ts then Some((Return(true), ts[3..]))
    else if ["return", "false", ";"] <= ts then Some((Return(false), ts[3..]))
    else
      var (name, rest) :- ParseName(ts);
      var rest :- Eat(["="], rest);
      var (value, rest) :- ParseExpr(rest);
      var rest :- Eat([";"], rest);
      Some((Assign(name, value), rest))
  }

  /** Statements up to a closing brace. */
  function ParseSimples(ts: Tokens): (r: Option<(seq<Simple>, Tokens)>)
    ensures r.Some? ==> |r.value.1| <= |ts|
    decreases |ts|, 1
  {
    if ts == [] || ts[0] == "}" then Some(([], ts))
    else
      var (statement, rest) :- ParseSimple(ts);
      var (statements, rest) :- ParseSimples(rest);
      Some(([statement] + statements, rest))
  }

  function ParseDeclare(ts: Tokens): (r: Option<(Statement, Tokens)>)
    ensures r.Some? ==> |r.value.1| < |ts|
  {
    var rest :- Eat(["const", "struct"], ts);
    var (struct_, rest) :- ParseName(rest);
    var rest :- Eat(["*"], rest);
    var (name, rest) :- ParseName(rest);
    var rest :- Eat([";"], rest);
    Some((Declare(struct_, name), rest))
  }

  function ParseFor(ts: Tokens): (r: Option<(Statement, Tokens)>)
    ensures r.Some? ==> |r.value.1| < |ts|
  {
    var rest :- Eat(["for", "("], ts);
    var (pointer, rest) :- ParseName(rest);
    var rest :- Eat(["="], rest);
    var (array_, rest) :- ParseName(rest);
    var rest :- Eat([";"], rest);
    var (condition, rest) :- ParseCondition(rest);
    var rest :- Eat([";"], rest);
    var (step, rest) :- ParseName(rest);
    var rest :- Eat(["++", ")", "{"], rest);
    var (body, rest) :- ParseSimples(rest);
    var rest :- Eat(["}"], rest);
    Some((For(pointer, array_, condition, step, body), rest))
  }

  function ParseStatement(ts: Tokens): (r: Option<(Statement, Tokens)>)
    ensures r.Some? ==> |r.value.1| < |ts|
  {
    if ts == [] then None
    else if ts[0] == "const" then ParseDeclare(ts)
    else if ts[0] == "for" then ParseFor(ts)
    else
      var (simple, rest) :- ParseSimple(ts);
      Some((Plainly(simple), rest))
  }

  function ParseStatements(ts: Tokens): (r: Option<(seq<Statement>, Tokens)>)
    ensures r.Some? ==> |r.value.1| <= |ts|
    decreases |ts|
  {
    if ts == [] || ts[0] == "}" then Some(([], ts))
    else
      var (statement, rest) :- ParseStatement(ts);
      var (statements, rest) :- ParseStatements(rest);
      Some(([statement] + statements, rest))
  }

  function ParseFunction(ts: Tokens): Option<(Function, Tokens)> {
    var rest :- Eat(["static", "bool"], ts);
    var (name, rest) :- ParseName(rest);
    var rest :- Eat(["(", "const", "std", "::", "string", "&"], rest);
    var (input, rest) :- ParseName(rest);
    var rest :- Eat([",", "std", "::", "string", "&"], rest);
    var (output, rest) :- ParseName(rest);
    var rest :- Eat([")", "{"], rest);
    var (body, rest) :- ParseStatements(rest);
    var rest :- Eat(["}"], rest);
    Some((Function(name, input, output, body), rest))
  }

  /** `#endif`, perhaps with a comment of one word. */
  predicate IsEnd(ts: Tokens) {
    ts == ["#", "endif"] || (|ts| == 5 && ts[..3] == ["#", "endif", "/*"] && ts[4] == "*/")
  }

  /** The pieces around the declarations are what they should be: the guard and the include, the type of
      a constant, its constructor, and two null pointers. */
  predicate StandardPieces(p: Pieces) {
    && ReadPrelude(p.before).Some?
    && Lex(p.decl) == Some(["static", "const", "std", "::", "string"]) && IsSpace(p.decl[|p.decl| - 1])
    && Lex(p.construct) == Some(["std", "::", "string", "("])
    && Lex(p.nulls) == Some(["NULL", ",", "NULL"])
  }

  /** The table, the function and the end of the guard, read from the fixed text. */
  function ReadUnit(p: Pieces): Option<Unit> {
    var ts :- Lex(p.table);
    var (table, rest) :- ParseTable(ts);
    var us :- Lex(p.after);
    var (search, end) :- ParseFunction(us);
    if StandardPieces(p) && rest == [] && IsEnd(end) then Some(Unit(table, search)) else None
  }

  // --- What a call does ---

  /** What the members of a row point to. */
  type Fields = map<string, Option<string>>

  /** A compiled header: the table with its pointers followed, and the function. */
  datatype Linked = Linked(struct_: string, array_: string, rows: seq<Fields>, search: Function)

  datatype Value = Text(text: string) | Address(target: Option<string>)

  /** The state of a call: the declared pointer and the row it points to, if any, and the output parameter. */
  datatype State = State(pointer: Option<string>, row: Option<nat>, data: string)

  /** Where the execution of a statement leads. */
  datatype Flow = Next(state: State) | Returned(value: bool, data: string)

  /** `None` stands for what is not defined, such as to follow a null pointer or to leave the table. */
  function Evaluate(unit: Linked, arg: string, e: Expr, st: State): Option<Value> {
    match e
    case NullPointer => Some(Address(None))
    case Variable(name) =>
      if name == unit.search.input then Some(Text(arg))
      else if name == unit.search.output then Some(Text(st.data)) else None
    case Member(pointer, member) =>
      if st.pointer == Some(pointer) && st.row.Some? && st.row.value < |unit.rows| && member in unit.rows[st.row.value]
      then Some(Address(unit.rows[st.row.value][member])) else None
    case Deref(of) =>
      var v :- Evaluate(unit, arg, of, st);
      if v.Address? && v.target.Some? then Some(Text(v.target.value)) else None
  }

  /** Strings are compared by contents; of addresses only whether they are null. */
  function Decide(unit: Linked, arg: string, c: Condition, st: State): Option<bool> {
    var a :- Evaluate(unit, arg, c.left, st);
    var b :- Evaluate(unit, arg, c.right, st);
    if a.Text? && b.Text? then Some((a.text == b.text) == c.equal)
    else if a.Address? && b.Address? && (a.target.None? || b.target.None?) then
      Some((a.target == b.target) == c.equal)
    else None
  }

  function RunSimple(unit: Linked, arg: string, s: Simple, st: State): Option<Flow>
    decreases s
  {
    match s
    case If(condition, body) =>
      var holds :- Decide(unit, arg, condition, st);
      if holds then RunSimples(unit, arg, body, st) else Some(Next(st))
    case Assign(name, value) =>
      var v :- Evaluate(unit, arg, value, st);
      if name == unit.search.output && v.Text? then Some(Next(st.(data := v.text))) else None
    case Return(result) => Some(Returned(result, st.data))
  }

  function RunSimples(unit: Linked, arg: string, body: seq<Simple>, st: State): Option<Flow>
    decreases body
  {
    if body == [] then Some(Next(st))
    else
      var flow :- RunSimple(unit, arg, body[0], st);
      match flow
      case Returned(_, _) => Some(flow)
      case Next(st') => RunSimples(unit, arg, body[1..], st')
  }

  /** The loop, with the pointer at row `k`. */
  function RunLoop(unit: Linked, arg: string, condition: Condition, body: seq<Simple>, k: nat, st: State): Option<Flow>
    requires k <= |unit.rows|
    decreases |unit.rows| - k
  {
    var at := st.(row := Some(k));
    var holds :- Decide(unit, arg, condition, at);
    if !holds then Some(Next(at))
    else
      var flow :- RunSimples(unit, arg, body, at);
      match flow
      case Returned(_, _) => Some(flow)
      case Next(st') => if k < |unit.rows| then RunLoop(unit, arg, condition, body, k + 1, st') else None
  }

  function RunStatement(unit: Linked, arg: string, s: Statement, st: State): Option<Flow> {
    match s
    case Declare(struct_, name) =>
      if struct_ == unit.struct_ && st.pointer.None? then Some(Next(st.(pointer := Some(name)))) else None
    case For(pointer, array_, condition, step, body) =>
      if st.pointer == Some(pointer) && array_ == unit.array_ && step == pointer
      then RunLoop(unit, arg, condition, body, 0, st) else None
    case Plainly(simple) => RunSimple(unit, arg, simple, st)
  }

  function RunStatements(unit: Linked, arg: string, body: seq<Statement>, st: State): Option<Flow> {
    if body == [] then Some(Next(st))
    else
      var flow :- RunStatement(unit, arg, body[0], st);
      match flow
      case Returned(_, _) => Some(flow)
      case Next(st') => RunStatements(unit, arg, body[1..], st')
  }

  /** A call `NAME(arg, data)`, with what `data` holds before it: the result, and what it holds after it. */
  function Call(unit: Linked, name: string, arg: string, data: string): Option<(bool, string)> {
    if unit.search.name != name || unit.search.input == unit.search.output then None
    else
      var flow :- RunStatements(unit, arg, unit.search.body, State(None, None, data));
      match flow
      case Next(_) => None
      case Returned(value, after) => Some((value, after))
  }
}
