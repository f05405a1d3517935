/**
 From the tokens of the printed table and function to what they stand for.
 */
module Parsing {
  import opened CxxReader
  import opened CxxProgram
  import opened Search

  // --- The pieces of the grammar, in front of whatever follows ---

  lemma Eats(expected: Tokens, more: Tokens)
    ensures Eat(expected, expected + more) == Some(more)
  {
  }

  lemma EatsNot(expected: Tokens, token: string, more: Tokens)
    requires expected != [] && expected[0] != token
    ensures Eat(expected, [token] + more) == None
  {
    assert ([token] + more)[0] == token;
  }

  lemma NameParses(name: string, more: Tokens)
    requires IsName(name)
    ensures ParseName([name] + more) == Some((name, more))
  {
    assert ([name] + more)[1..] == more;
  }

  lemma Names()
    ensures IsName("embedded_file") && IsName("embedded_files") && IsName("find_embedded_file")
    ensures IsName("name") && IsName("data") && IsName("p")
  {
    var a, b, c := "embedded_file", "embedded_files", "find_embedded_file";
    assert a[0] == 'e' && b[0] == 'e' && c[0] == 'f' && a[1] == 'm' && b[1] == 'm' && |c| == 18;
  }

  lemma MemberParses(pointer: string, member: string, more: Tokens)
    requires IsName(pointer) && IsName(member)
    ensures ParseExpr([pointer] + (["->"] + ([member] + more))) == Some((Member(pointer, member), more))
  {
    var rest := ["->"] + ([member] + more);
    var ts := [pointer] + rest;
    assert ts[0] == pointer && "NULL" in KEYWORDS && IsWordChar(pointer[0]) && !IsWordChar("*"[0]);
    NameParses(pointer, rest);
    Eats(["->"], [member] + more);
    NameParses(member, more);
  }

  lemma VariableParses(name: string, token: string, more: Tokens)
    requires IsName(name) && token != "->"
    ensures ParseExpr([name] + ([token] + more)) == Some((Variable(name), [token] + more))
  {
    var ts := [name] + ([token] + more);
    assert ts[0] == name && "NULL" in KEYWORDS && IsWordChar(name[0]) && !IsWordChar("*"[0]);
    NameParses(name, [token] + more);
    EatsNot(["->"], token, more);
  }

  lemma DerefParses(e: Expr, ts: Tokens, more: Tokens)
    requires ParseExpr(ts) == Some((e, more))
    ensures ParseExpr(["*"] + ts) == Some((Deref(e), more))
  {
    assert (["*"] + ts)[1..] == ts && (["*"] + ts)[0] == "*";
  }

  lemma NullParses(more: Tokens)
    ensures ParseExpr(["NULL"] + more) == Some((NullPointer, more))
  {
    assert (["NULL"] + more)[1..] == more;
  }

  lemma ConditionParses(left: Expr, ts: Tokens, op: string, us: Tokens, right: Expr, more: Tokens)
    requires op == "==" || op == "!="
    requires ParseExpr(ts) == Some((left, [op] + us)) && ParseExpr(us) == Some((right, more))
    ensures ParseCondition(ts) == Some((Condition(op == "==", left, right), more))
  {
    assert ([op] + us)[1..] == us;
  }

  // --- The table ---

  const MEMBERS: Tokens := ["const", "std", "::", "string", "*"]

  lemma MembersParse(name: string, ts: Tokens, names: seq<string>, more: Tokens)
    requires IsName(name) && ParseMembers(ts) == Some((names, more))
    ensures ParseMembers(MEMBERS + ([name] + ([";"] + ts))) == Some(([name] + names, more))
  {
    Eats(MEMBERS, [name] + ([";"] + ts));
    NameParses(name, [";"] + ts);
    Eats([";"], ts);
  }

  lemma NoMembersParse(more: Tokens)
    ensures ParseMembers(["}"] + more) == Some(([], ["}"] + more))
  {
    EatsNot(MEMBERS, "}", more);
  }

  function TableTokens(): Tokens {
    ["static", "const", "struct"] + (["embedded_file"] + (["{"] + (
      MEMBERS + (["name"] + ([";"] + (MEMBERS + (["data"] + ([";"] + (
        ["}"] + (["embedded_files"] + ["[", "]", "=", "{"]))))))))))
  }

  lemma TableParses()
    ensures ParseTable(TableTokens()) == Some((TABLE, []))
  {
    var t4 := ["embedded_files"] + ["[", "]", "=", "{"];
    var t3 := MEMBERS + (["data"] + ([";"] + (["}"] + t4)));
    var t2 := MEMBERS + (["name"] + ([";"] + t3));
    Names();
    NoMembersParse(t4);
    MembersParse("data", ["}"] + t4, [], ["}"] + t4);
    MembersParse("name", t3, ["data"] + [], ["}"] + t4);
    assert ["name"] + (["data"] + []) == ["name", "data"];
    TableSteps(t2, t4);
  }

  lemma TableSteps(members: Tokens, rest: Tokens)
    requires ParseMembers(members) == Some((["name", "data"], ["}"] + rest))
    requires rest == ["embedded_files"] + ["[", "]", "=", "{"]
    ensures ParseTable(["static", "const", "struct"] + (["embedded_file"] + (["{"] + members))) == Some((TABLE, []))
  {
    Names();
    Eats(["static", "const", "struct"], ["embedded_file"] + (["{"] + members));
    NameParses("embedded_file", ["{"] + members);
    Eats(["{"], members);
    Eats(["}"], rest);
    NameParses("embedded_files", ["[", "]", "=", "{"]);
    assert ["[", "]", "=", "{"] + [] == ["[", "]", "=", "{"];
    Eats(["[", "]", "=", "{"], []);
  }

  // --- The function ---

  /** `p->name != NULL` */
  lemma TestParses(more: Tokens)
    ensures ParseCondition(["p"] + (["->"] + (["name"] + (["!="] + (["NULL"] + more))))) == Some((AT_END, more))
  {
    Names();
    MemberParses("p", "name", ["!="] + (["NULL"] + more));
    NullParses(more);
    ConditionParses(Member("p", "name"), ["p"] + (["->"] + (["name"] + (["!="] + (["NULL"] + more)))), "!=",
                    ["NULL"] + more, NullPointer, more);
  }

  /** `*p->name == name` */
  lemma MatchConditionParses(token: string, more: Tokens)
    requires token != "->"
    ensures ParseCondition(["*"] + (["p"] + (["->"] + (["name"] + (["=="] + (["name"] + ([token] + more)))))))
            == Some((Condition(true, Deref(Member("p", "name")), Variable("name")), [token] + more))
  {
    Names();
    var right := ["name"] + ([token] + more);
    MemberParses("p", "name", ["=="] + right);
    DerefParses(Member("p", "name"), ["p"] + (["->"] + (["name"] + (["=="] + right))), ["=="] + right);
    VariableParses("name", token, more);
    ConditionParses(Deref(Member("p", "name")), ["*"] + (["p"] + (["->"] + (["name"] + (["=="] + right)))), "==",
                    right, Variable("name"), [token] + more);
  }

  const ASSIGN: Tokens := ["data", "=", "*", "p", "->", "data", ";"]
  const RETURN_TRUE: Tokens := ["return", "true", ";"]
  const RETURN_FALSE: Tokens := ["return", "false", ";"]

  lemma AssignParses(more: Tokens)
    ensures ParseSimple(ASSIGN + more) == Some((Assign("data", Deref(Member("p", "data"))), more))
  {
    Names();
    var value := ["p"] + (["->"] + (["data"] + ([";"] + more)));
    assert ASSIGN + more == ["data"] + (["="] + (["*"] + value));
    MemberParses("p", "data", [";"] + more);
    DerefParses(Member("p", "data"), value, [";"] + more);
    AssignmentParses("data", ["*"] + value, Deref(Member("p", "data")), more);
  }

  lemma AssignmentParses(name: string, ts: Tokens, value: Expr, more: Tokens)
    requires IsName(name) && ParseExpr(ts) == Some((value, [";"] + more))
    ensures ParseSimple([name] + (["="] + ts)) == Some((Assign(name, value), more))
  {
    var us := [name] + (["="] + ts);
    assert us[0] == name && "if" in KEYWORDS && "return" in KEYWORDS;
    NameParses(name, ["="] + ts);
    Eats(["="], ts);
    Eats([";"], more);
  }

  lemma ReturnParses(result: bool, more: Tokens)
    ensures ParseSimple((if result then RETURN_TRUE else RETURN_FALSE) + more) == Some((Return(result), more))
  {
    var ts := (if result then RETURN_TRUE else RETURN_FALSE) + more;
    assert ts[0] == "return" && ts[1] == (if result then "true" else "false") && ts[3..] == more;
    assert ["return", "true", ";"] <= ts <==> result by { assert "true"[0] != "false"[0]; }
  }

  lemma SimplesNext(ts: Tokens, simple: Simple, rest: Tokens, simples: seq<Simple>, more: Tokens)
    requires ts != [] && ts[0] != "}" && ParseSimple(ts) == Some((simple, rest))
    requires ParseSimples(rest) == Some((simples, more))
    ensures ParseSimples(ts) == Some(([simple] + simples, more))
  {
  }

  lemma SimplesEnd(more: Tokens)
    ensures ParseSimples(["}"] + more) == Some(([], ["}"] + more))
  {
  }

  /** The two statements of the match, and the brace that closes them. */
  lemma MatchBodyParses(more: Tokens)
    ensures ParseSimples(ASSIGN + (RETURN_TRUE + (["}"] + more))) == Some((MATCH.body, ["}"] + more))
  {
    SimplesEnd(more);
    ReturnParses(true, ["}"] + more);
    SimplesNext(RETURN_TRUE + (["}"] + more), Return(true), ["}"] + more, [], ["}"] + more);
    AssignParses(RETURN_TRUE + (["}"] + more));
    SimplesNext(ASSIGN + (RETURN_TRUE + (["}"] + more)), Assign("data", Deref(Member("p", "data"))),
                RETURN_TRUE + (["}"] + more), [Return(true)] + [], ["}"] + more);
    assert [Assign("data", Deref(Member("p", "data")))] + ([Return(true)] + []) == MATCH.body;
  }

  /** What precedes the body of the match. */
  function MatchHead(body: Tokens): Tokens {
    ["if"] + (["("] + (["*"] + (["p"] + (["->"] + (["name"] + (["=="] + (["name"] + ([")", "{"] + body))))))))
  }

  lemma MatchParses(body: Tokens, more: Tokens)
    requires ParseSimples(body) == Some((MATCH.body, ["}"] + more))
    ensures ParseSimple(MatchHead(body)) == Some((MATCH, more))
  {
    assert [")", "{"] + body == [")"] + (["{"] + body);
    MatchConditionParses(")", ["{"] + body);
    IfParses(["*"] + (["p"] + (["->"] + (["name"] + (["=="] + (["name"] + ([")", "{"] + body)))))), MATCH.condition,
             body, MATCH.body, more);
  }

  lemma IfParses(ts: Tokens, condition: Condition, body: Tokens, simples: seq<Simple>, more: Tokens)
    requires ParseCondition(ts) == Some((condition, [")", "{"] + body))
    requires ParseSimples(body) == Some((simples, ["}"] + more))
    ensures ParseSimple(["if"] + (["("] + ts)) == Some((If(condition, simples), more))
  {
    var us := ["if"] + (["("] + ts);
    assert us[0] == "if" && us[1..] == ["("] + ts;
    Eats(["("], ts);
    Eats([")", "{"], body);
    Eats(["}"], more);
  }

  /** What precedes the body of the loop. */
  function LoopHead(body: Tokens): Tokens {
    ["for", "("] + (["p"] + (["="] + (["embedded_files"] + ([";"] + TestHead(body)))))
  }

  function TestHead(body: Tokens): Tokens {
    ["p"] + (["->"] + (["name"] + (["!="] + (["NULL"] + ([";"] + (["p"] + (["++", ")", "{"] + body)))))))
  }

  lemma LoopParses(body: Tokens, more: Tokens)
    requires ParseSimples(body) == Some(([MATCH], ["}"] + more))
    ensures ParseStatement(LoopHead(body)) == Some((For("p", "embedded_files", AT_END, "p", [MATCH]), more))
  {
    Names();
    var step := ["p"] + (["++", ")", "{"] + body);
    var test := ["p"] + (["->"] + (["name"] + (["!="] + (["NULL"] + ([";"] + step)))));
    var ts := ["for", "("] + (["p"] + (["="] + (["embedded_files"] + ([";"] + test))));
    Eats(["for", "("], ["p"] + (["="] + (["embedded_files"] + ([";"] + test))));
    NameParses("p", ["="] + (["embedded_files"] + ([";"] + test)));
    Eats(["="], ["embedded_files"] + ([";"] + test));
    NameParses("embedded_files", [";"] + test);
    Eats([";"], test);
    TestParses([";"] + step);
    Eats([";"], step);
    NameParses("p", ["++", ")", "{"] + body);
    Eats(["++", ")", "{"], body);
    Eats(["}"], more);
    assert ts[0] == "for";
    assert ParseFor(ts) == Some((For("p", "embedded_files", AT_END, "p", [MATCH]), more));
  }

  function DeclareTokens(more: Tokens): Tokens {
    ["const", "struct"] + (["embedded_file"] + (["*"] + (["p"] + ([";"] + more))))
  }

  lemma DeclareParses(more: Tokens)
    ensures ParseStatement(DeclareTokens(more)) == Some((Declare("embedded_file", "p"), more))
  {
    Names();
    Eats(["const", "struct"], ["embedded_file"] + (["*"] + (["p"] + ([";"] + more))));
    NameParses("embedded_file", ["*"] + (["p"] + ([";"] + more)));
    Eats(["*"], ["p"] + ([";"] + more));
    NameParses("p", [";"] + more);
    Eats([";"], more);
    assert DeclareTokens(more)[0] == "const";
    assert ParseDeclare(DeclareTokens(more)) == Some((Declare("embedded_file", "p"), more));
  }

  lemma StatementsNext(ts: Tokens, statement: Statement, rest: Tokens, statements: seq<Statement>, more: Tokens)
    requires ts != [] && ts[0] != "}" && ParseStatement(ts) == Some((statement, rest))
    requires ParseStatements(rest) == Some((statements, more))
    ensures ParseStatements(ts) == Some(([statement] + statements, more))
  {
  }

  /** The body of the function: the pointer, the loop with the match in it, and the last return. */
  function BodyTokens(more: Tokens): Tokens {
    DeclareTokens(LoopHead(MatchHead(ASSIGN + (RETURN_TRUE + (["}"] + (["}"] + (RETURN_FALSE + (["}"] + more))))))))
  }

  lemma LastParses(more: Tokens)
    ensures ParseStatements(RETURN_FALSE + (["}"] + more)) == Some(([Plainly(Return(false))], ["}"] + more))
  {
    var ts := RETURN_FALSE + (["}"] + more);
    ReturnParses(false, ["}"] + more);
    assert ts[0] == "return" && ParseStatements(["}"] + more) == Some(([], ["}"] + more));
    assert ParseStatement(ts) == Some((Plainly(Return(false)), ["}"] + more));
    StatementsNext(ts, Plainly(Return(false)), ["}"] + more, [], ["}"] + more);
    assert [Plainly(Return(false))] + [] == [Plainly(Return(false))];
  }

  lemma LoopBodyParses(last: Tokens)
    ensures ParseSimples(MatchHead(ASSIGN + (RETURN_TRUE + (["}"] + (["}"] + last))))) == Some(([MATCH], ["}"] + last))
  {
    var body := ASSIGN + (RETURN_TRUE + (["}"] + (["}"] + last)));
    MatchBodyParses(["}"] + last);
    MatchParses(body, ["}"] + last);
    SimplesEnd(last);
    assert MatchHead(body)[0] == "if";
    SimplesNext(MatchHead(body), MATCH, ["}"] + last, [], ["}"] + last);
    assert [MATCH] + [] == [MATCH];
  }

  lemma BodyParses(more: Tokens)
    ensures ParseStatements(BodyTokens(more)) == Some((SEARCH.body, ["}"] + more))
  {
    var last := RETURN_FALSE + (["}"] + more);
    var body := MatchHead(ASSIGN + (RETURN_TRUE + (["}"] + (["}"] + last))));
    LoopBodyParses(last);
    LoopParses(body, last);
    LastParses(more);
    StatementsParse(LoopHead(body), last, ["}"] + more);
  }

  lemma StatementsParse(ts: Tokens, last: Tokens, more: Tokens)
    requires ts != [] && ts[0] == "for"
    requires ParseStatement(ts) == Some((For("p", "embedded_files", AT_END, "p", [MATCH]), last))
    requires ParseStatements(last) == Some(([Plainly(Return(false))], more))
    ensures ParseStatements(DeclareTokens(ts)) == Some((SEARCH.body, more))
  {
    var loop := For("p", "embedded_files", AT_END, "p", [MATCH]);
    StatementsNext(ts, loop, last, [Plainly(Return(false))], more);
    DeclareParses(ts);
    assert DeclareTokens(ts)[0] == "const";
    StatementsNext(DeclareTokens(ts), Declare("embedded_file", "p"), ts, [loop] + [Plainly(Return(false))], more);
    assert [Declare("embedded_file", "p")] + ([loop] + [Plainly(Return(false))]) == SEARCH.body;
  }

  function FunctionHead(body: Tokens): Tokens {
    ["static", "bool"] + (["find_embedded_file"] + (["(", "const", "std", "::", "string", "&"] + (["name"] + (
      [",", "std", "::", "string", "&"] + (["data"] + ([")", "{"] + body))))))
  }

  function FunctionTokens(more: Tokens): Tokens {
    FunctionHead(BodyTokens(more))
  }

  /** The printed function is the search. */
  lemma FunctionParses(more: Tokens)
    ensures ParseFunction(FunctionTokens(more)) == Some((SEARCH, more))
  {
    Names();
    var t4 := [")", "{"] + BodyTokens(more);
    var t3 := [",", "std", "::", "string", "&"] + (["data"] + t4);
    var t2 := ["(", "const", "std", "::", "string", "&"] + (["name"] + t3);
    Eats(["static", "bool"], ["find_embedded_file"] + t2);
    NameParses("find_embedded_file", t2);
    Eats(["(", "const", "std", "::", "string", "&"], ["name"] + t3);
    NameParses("name", t3);
    Eats([",", "std", "::", "string", "&"], ["data"] + t4);
    NameParses("data", t4);
    Eats([")", "{"], BodyTokens(more));
    BodyParses(more);
    Eats(["}"], more);
  }
}
