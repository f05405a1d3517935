/**
 The fixed text of the generated header, as it is printed: its tokens, the table
 and the function that they make, and what sets it apart from everything before it.
 */
module Printed {
  import opened CxxReader
  import opened CxxProgram
  import opened Header
  import opened Reading
  import opened Lexing
  import opened Search
  import opened Parsing

  // --- The text, token by token ---

  const STRUCT_START: Spelling := Token("", "static", Token(" ", "const", Token(" ", "struct", End(" "))))
  const STRUCT_NAME: Spelling := Token("", "embedded_file", Token(" ", "{", End("\n")))

  lemma StructText()
    ensures TextOf(STRUCT_START) == "static const struct "
    ensures TextOf(STRUCT_NAME) == "embedded_file {\n"
  {
  }

  lemma StructSpelled()
    ensures WellSpelled(STRUCT_START)
    ensures WellSpelled(STRUCT_NAME)
  {
  }

  const NAME_MEMBER: Spelling := Token("", "std", Token("", "::", Token("", "string", Token(" ", "*",
    Token("", "name", Token("", ";", End("\n")))))))

  lemma NameFieldText()
    ensures TextOf(NAME_MEMBER) == "std::string *name;\n"
  {
  }

  lemma NameFieldSpelled()
    ensures WellSpelled(NAME_MEMBER)
  {
  }

  const DATA_MEMBER: Spelling := Token("", "std", Token("", "::", Token("", "string", Token(" ", "*",
    Token("", "data", Token("", ";", End("\n")))))))

  lemma DataFieldText()
    ensures TextOf(DATA_MEMBER) == "std::string *data;\n"
  {
  }

  lemma DataFieldSpelled()
    ensures WellSpelled(DATA_MEMBER)
  {
  }

  const ARRAY_NAME: Spelling := Token("", "}", Token(" ", "embedded_files", Token("", "[", Token("", "]",
    End(" ")))))
  const ARRAY_START: Spelling := Token("", "=", Token(" ", "{", End("\n")))

  lemma ArrayText()
    ensures TextOf(ARRAY_NAME) == "} embedded_files[] "
    ensures TextOf(ARRAY_START) == "= {\n"
  {
  }

  lemma ArraySpelled()
    ensures WellSpelled(ARRAY_NAME)
    ensures WellSpelled(ARRAY_START)
  {
  }

  const DECL_TEXT: Spelling := Token("", "static", Token(" ", "const", Token(" ", "std", Token("", "::",
    Token("", "string", End(" "))))))

  lemma DeclText()
    ensures TextOf(DECL_TEXT) == "static const std::string "
  {
  }

  lemma DeclSpelled()
    ensures WellSpelled(DECL_TEXT)
  {
  }

  const FUNCTION_START: Spelling := Token("", "static", Token(" ", "bool", End(" ")))
  const INPUT_START: Spelling := Token("", "find_embedded_file", Token("", "(", Token("", "const", End(" "))))

  lemma FunctionText()
    ensures TextOf(FUNCTION_START) == "static bool "
    ensures TextOf(INPUT_START) == "find_embedded_file(const "
  {
  }

  lemma FunctionSpelled()
    ensures WellSpelled(FUNCTION_START)
    ensures WellSpelled(INPUT_START)
  {
  }

  const INPUT_REST: Spelling := Token("", "std", Token("", "::", Token("", "string", Token(" ", "&",
    Token("", "name", Token("", ",", End(" ")))))))

  lemma InputText()
    ensures TextOf(INPUT_REST) == "std::string &name, "
  {
  }

  lemma InputSpelled()
    ensures WellSpelled(INPUT_REST)
  {
  }

  const OUTPUT_REST: Spelling := Token("", "std", Token("", "::", Token("", "string", Token(" ", "&",
    Token("", "data", Token("", ")", Token(" ", "{", End("\n"))))))))

  lemma OutputText()
    ensures TextOf(OUTPUT_REST) == "std::string &data) {\n"
  {
  }

  lemma OutputSpelled()
    ensures WellSpelled(OUTPUT_REST)
  {
  }

  const POINTER_START: Spelling := Token("  ", "const", Token(" ", "struct", End(" ")))
  const POINTER_REST: Spelling := Token("", "embedded_file", Token(" ", "*", Token("", "p", Token("", ";",
    End("\n")))))

  lemma PointerText()
    ensures TextOf(POINTER_START) == "  const struct "
    ensures TextOf(POINTER_REST) == "embedded_file *p;\n"
  {
  }

  lemma PointerSpelled()
    ensures WellSpelled(POINTER_START)
    ensures WellSpelled(POINTER_REST)
  {
  }

  const LOOP_START: Spelling := Token("  ", "for", Token(" ", "(", Token("", "p", Token(" ", "=", End(" ")))))
  const LOOP_ARRAY: Spelling := Token("", "embedded_files", Token("", ";", End(" ")))

  lemma LoopText()
    ensures TextOf(LOOP_START) == "  for (p = "
    ensures TextOf(LOOP_ARRAY) == "embedded_files; "
  {
  }

  lemma LoopSpelled()
    ensures WellSpelled(LOOP_START)
    ensures WellSpelled(LOOP_ARRAY)
  {
  }

  const LOOP_TEST: Spelling := Token("", "p", Token("", "->", Token("", "name", Token(" ", "!=", Token(" ", "NULL",
    Token("", ";", End(" ")))))))
  const LOOP_STEP: Spelling := Token("", "p", Token("", "++", Token("", ")", Token(" ", "{", End("\n")))))

  lemma TestText()
    ensures TextOf(LOOP_TEST) == "p->name != NULL; "
    ensures TextOf(LOOP_STEP) == "p++) {\n"
  {
  }

  lemma TestSpelled()
    ensures WellSpelled(LOOP_TEST)
    ensures WellSpelled(LOOP_STEP)
  {
  }

  const MATCH_START: Spelling := Token("    ", "if", Token(" ", "(", Token("", "*", Token("", "p", Token("", "->",
    Token("", "name", End(" ")))))))
  const MATCH_REST: Spelling := Token("", "==", Token(" ", "name", Token("", ")", Token(" ", "{", End("\n")))))

  lemma MatchText()
    ensures TextOf(MATCH_START) == "    if (*p->name "
    ensures TextOf(MATCH_REST) == "== name) {\n"
  {
  }

  lemma MatchSpelled()
    ensures WellSpelled(MATCH_START)
    ensures WellSpelled(MATCH_REST)
  {
  }

  const ASSIGN_LINE: Spelling := Token("      ", "data", Token(" ", "=", Token(" ", "*", Token("", "p",
    Token("", "->", Token("", "data", Token("", ";", End("\n"))))))))

  lemma AssignText()
    ensures TextOf(ASSIGN_LINE) == "      data = *p->data;\n"
  {
  }

  lemma AssignSpelled()
    ensures WellSpelled(ASSIGN_LINE)
  {
  }

  const TRUE_LINE: Spelling := Token("      ", "return", Token(" ", "true", Token("", ";", End("\n"))))
  const FALSE_LINE: Spelling := Token("  ", "return", Token(" ", "false", Token("", ";", End("\n"))))

  lemma ReturnText()
    ensures TextOf(TRUE_LINE) == "      return true;\n"
    ensures TextOf(FALSE_LINE) == "  return false;\n"
  {
  }

  lemma ReturnSpelled()
    ensures WellSpelled(TRUE_LINE)
    ensures WellSpelled(FALSE_LINE)
  {
  }

  const CONST_TEXT: Spelling := Token("  ", "const", End(" "))
  const INNER_BRACE: Spelling := Token("    ", "}", End("\n"))
  const OUTER_BRACE: Spelling := Token("  ", "}", End("\n"))
  const LAST_BRACE: Spelling := Token("", "}", End("\n"))

  lemma ShortText()
    ensures TextOf(CONST_TEXT) == "  const "
    ensures TextOf(INNER_BRACE) == "    }\n"
    ensures TextOf(OUTER_BRACE) == "  }\n"
    ensures TextOf(LAST_BRACE) == "}\n"
  {
  }

  lemma ShortSpelled()
    ensures WellSpelled(CONST_TEXT)
    ensures WellSpelled(INNER_BRACE)
    ensures WellSpelled(OUTER_BRACE)
    ensures WellSpelled(LAST_BRACE)
  {
  }

  const ENDIF_START: Spelling := Token("", "endif", Token(" ", "/*", End(" ")))
  const ENDIF_REST: Spelling := Token("", "TRANSLATION_FILES_H", Token(" ", "*/", End("\n")))

  lemma EndifText()
    ensures TextOf(ENDIF_START) == "endif /* "
    ensures TextOf(ENDIF_REST) == "TRANSLATION_FILES_H */\n"
  {
  }

  lemma EndifSpelled()
    ensures WellSpelled(ENDIF_START)
    ensures WellSpelled(ENDIF_REST)
  {
  }

  /** One more spelled text at the end. */
  lemma Add(text: string, tokens: Tokens, x: Spelling)
    requires LexesTo(text, tokens) && WellSpelled(x)
    ensures LexesTo(text + TextOf(x), tokens + TokensOf(x))
  {
    SpellingLexes(x);
    Joined(text, tokens, TextOf(x), TokensOf(x));
  }

  lemma TableLexes()
    ensures LexesTo(TextOf(STRUCT_START) + TextOf(STRUCT_NAME) + TextOf(CONST_TEXT)
                    + TextOf(NAME_MEMBER) + TextOf(CONST_TEXT) + TextOf(DATA_MEMBER)
                    + TextOf(ARRAY_NAME) + TextOf(ARRAY_START),
                    TokensOf(STRUCT_START) + TokensOf(STRUCT_NAME) + TokensOf(CONST_TEXT)
                    + TokensOf(NAME_MEMBER) + TokensOf(CONST_TEXT) + TokensOf(DATA_MEMBER)
                    + TokensOf(ARRAY_NAME) + TokensOf(ARRAY_START))
  {
    StructSpelled();
    ShortSpelled();
    NameFieldSpelled();
    DataFieldSpelled();
    ArraySpelled();
    SpellingLexes(STRUCT_START);
    var text, tokens := TextOf(STRUCT_START), TokensOf(STRUCT_START);
    Add(text, tokens, STRUCT_NAME);
    var t1, k1 := text + TextOf(STRUCT_NAME), tokens + TokensOf(STRUCT_NAME);
    Add(t1, k1, CONST_TEXT);
    var t2, k2 := t1 + TextOf(CONST_TEXT), k1 + TokensOf(CONST_TEXT);
    Add(t2, k2, NAME_MEMBER);
    var t3, k3 := t2 + TextOf(NAME_MEMBER), k2 + TokensOf(NAME_MEMBER);
    Add(t3, k3, CONST_TEXT);
    var t4, k4 := t3 + TextOf(CONST_TEXT), k3 + TokensOf(CONST_TEXT);
    Add(t4, k4, DATA_MEMBER);
    var t5, k5 := t4 + TextOf(DATA_MEMBER), k4 + TokensOf(DATA_MEMBER);
    Add(t5, k5, ARRAY_NAME);
    var t6, k6 := t5 + TextOf(ARRAY_NAME), k5 + TokensOf(ARRAY_NAME);
    Add(t6, k6, ARRAY_START);
  }

  lemma SignatureLexes()
    ensures LexesTo(TextOf(FUNCTION_START) + TextOf(INPUT_START) + TextOf(INPUT_REST)
                    + TextOf(OUTPUT_REST),
                    TokensOf(FUNCTION_START) + TokensOf(INPUT_START) + TokensOf(INPUT_REST)
                    + TokensOf(OUTPUT_REST))
  {
    FunctionSpelled();
    InputSpelled();
    OutputSpelled();
    SpellingLexes(FUNCTION_START);
    var text, tokens := TextOf(FUNCTION_START), TokensOf(FUNCTION_START);
    Add(text, tokens, INPUT_START);
    var t1, k1 := text + TextOf(INPUT_START), tokens + TokensOf(INPUT_START);
    Add(t1, k1, INPUT_REST);
    var t2, k2 := t1 + TextOf(INPUT_REST), k1 + TokensOf(INPUT_REST);
    Add(t2, k2, OUTPUT_REST);
  }

  lemma HeadLexes(text: string, tokens: Tokens)
    requires LexesTo(text, tokens)
    ensures LexesTo(text + TextOf(POINTER_START) + TextOf(POINTER_REST) + TextOf(LOOP_START)
                    + TextOf(LOOP_ARRAY) + TextOf(LOOP_TEST) + TextOf(LOOP_STEP),
                    tokens + TokensOf(POINTER_START) + TokensOf(POINTER_REST) + TokensOf(LOOP_START)
                    + TokensOf(LOOP_ARRAY) + TokensOf(LOOP_TEST) + TokensOf(LOOP_STEP))
  {
    PointerSpelled();
    LoopSpelled();
    TestSpelled();
    Add(text, tokens, POINTER_START);
    var t1, k1 := text + TextOf(POINTER_START), tokens + TokensOf(POINTER_START);
    Add(t1, k1, POINTER_REST);
    var t2, k2 := t1 + TextOf(POINTER_REST), k1 + TokensOf(POINTER_REST);
    Add(t2, k2, LOOP_START);
    var t3, k3 := t2 + TextOf(LOOP_START), k2 + TokensOf(LOOP_START);
    Add(t3, k3, LOOP_ARRAY);
    var t4, k4 := t3 + TextOf(LOOP_ARRAY), k3 + TokensOf(LOOP_ARRAY);
    Add(t4, k4, LOOP_TEST);
    var t5, k5 := t4 + TextOf(LOOP_TEST), k4 + TokensOf(LOOP_TEST);
    Add(t5, k5, LOOP_STEP);
  }

  lemma MatchLexes(text: string, tokens: Tokens)
    requires LexesTo(text, tokens)
    ensures LexesTo(text + TextOf(MATCH_START) + TextOf(MATCH_REST) + TextOf(ASSIGN_LINE)
                    + TextOf(TRUE_LINE) + TextOf(INNER_BRACE) + TextOf(OUTER_BRACE)
                    + TextOf(FALSE_LINE) + TextOf(LAST_BRACE),
                    tokens + TokensOf(MATCH_START) + TokensOf(MATCH_REST) + TokensOf(ASSIGN_LINE)
                    + TokensOf(TRUE_LINE) + TokensOf(INNER_BRACE) + TokensOf(OUTER_BRACE)
                    + TokensOf(FALSE_LINE) + TokensOf(LAST_BRACE))
  {
    MatchSpelled();
    AssignSpelled();
    ReturnSpelled();
    ShortSpelled();
    Add(text, tokens, MATCH_START);
    var t1, k1 := text + TextOf(MATCH_START), tokens + TokensOf(MATCH_START);
    Add(t1, k1, MATCH_REST);
    var t2, k2 := t1 + TextOf(MATCH_REST), k1 + TokensOf(MATCH_REST);
    Add(t2, k2, ASSIGN_LINE);
    var t3, k3 := t2 + TextOf(ASSIGN_LINE), k2 + TokensOf(ASSIGN_LINE);
    Add(t3, k3, TRUE_LINE);
    var t4, k4 := t3 + TextOf(TRUE_LINE), k3 + TokensOf(TRUE_LINE);
    Add(t4, k4, INNER_BRACE);
    var t5, k5 := t4 + TextOf(INNER_BRACE), k4 + TokensOf(INNER_BRACE);
    Add(t5, k5, OUTER_BRACE);
    var t6, k6 := t5 + TextOf(OUTER_BRACE), k5 + TokensOf(OUTER_BRACE);
    Add(t6, k6, FALSE_LINE);
    var t7, k7 := t6 + TextOf(FALSE_LINE), k6 + TokensOf(FALSE_LINE);
    Add(t7, k7, LAST_BRACE);
  }

  // --- The table ---

  lemma MemberTokensAre(rest: Tokens)
    ensures TokensOf(CONST_TEXT) + TokensOf(NAME_MEMBER) + rest == MEMBERS + (["name"] + ([";"] + rest))
    ensures TokensOf(CONST_TEXT) + TokensOf(DATA_MEMBER) + rest == MEMBERS + (["data"] + ([";"] + rest))
  {
    assert TokensOf(CONST_TEXT) == ["const"];
    assert TokensOf(NAME_MEMBER) == ["std", "::", "string", "*", "name", ";"];
    assert TokensOf(DATA_MEMBER) == ["std", "::", "string", "*", "data", ";"];
  }

  lemma TableEndsAre(members: Tokens)
    ensures TokensOf(STRUCT_START) + TokensOf(STRUCT_NAME) + members
            == ["static", "const", "struct"] + (["embedded_file"] + (["{"] + members))
    ensures TokensOf(ARRAY_NAME) + TokensOf(ARRAY_START) == ["}"] + (["embedded_files"] + ["[", "]", "=", "{"])
  {
    assert TokensOf(STRUCT_START) == ["static", "const", "struct"] && TokensOf(STRUCT_NAME) == ["embedded_file", "{"];
    assert TokensOf(ARRAY_NAME) == ["}", "embedded_files", "[", "]"] && TokensOf(ARRAY_START) == ["=", "{"];
  }

  lemma TableTokensAre()
    ensures TokensOf(STRUCT_START) + TokensOf(STRUCT_NAME) + TokensOf(CONST_TEXT) + TokensOf(NAME_MEMBER)
            + TokensOf(CONST_TEXT) + TokensOf(DATA_MEMBER) + TokensOf(ARRAY_NAME) + TokensOf(ARRAY_START)
            == TableTokens()
  {
    var end := TokensOf(ARRAY_NAME) + TokensOf(ARRAY_START);
    var data := TokensOf(CONST_TEXT) + TokensOf(DATA_MEMBER) + end;
    var name := TokensOf(CONST_TEXT) + TokensOf(NAME_MEMBER) + data;
    MemberTokensAre(end);
    MemberTokensAre(data);
    TableEndsAre(name);
    EightRegrouped(TokensOf(STRUCT_START), TokensOf(STRUCT_NAME), TokensOf(CONST_TEXT), TokensOf(NAME_MEMBER),
                   TokensOf(CONST_TEXT), TokensOf(DATA_MEMBER), TokensOf(ARRAY_NAME), TokensOf(ARRAY_START));
  }

  lemma EightRegrouped(a: Tokens, b: Tokens, c: Tokens, d: Tokens, e: Tokens, f: Tokens, g: Tokens, h: Tokens)
    ensures a + b + c + d + e + f + g + h == a + b + (c + d + (e + f + (g + h)))
  {
  }

  /** The printed table is the one the search is for. */
  lemma PrintedTable()
    ensures Lex(PIECES.table) == Some(TableTokens())
  {
    StructText();
    ShortText();
    NameFieldText();
    DataFieldText();
    ArrayText();
    TableLexes();
    TableTokensAre();
    LexesAlone(PIECES.table, TableTokens());
  }

  // --- The function ---

  lemma InputTokensAre(rest: Tokens)
    ensures TokensOf(FUNCTION_START) + TokensOf(INPUT_START) + TokensOf(INPUT_REST) + rest
            == ["static", "bool"] + (["find_embedded_file"] + (
                 ["(", "const", "std", "::", "string", "&"] + (["name"] + ([","] + rest))))
  {
    assert TokensOf(FUNCTION_START) == ["static", "bool"];
    assert TokensOf(INPUT_START) == ["find_embedded_file", "(", "const"];
    assert TokensOf(INPUT_REST) == ["std", "::", "string", "&", "name", ","];
  }

  lemma OutputTokensAre(body: Tokens)
    ensures [","] + (TokensOf(OUTPUT_REST) + body)
            == [",", "std", "::", "string", "&"] + (["data"] + ([")", "{"] + body))
  {
    assert TokensOf(OUTPUT_REST) == ["std", "::", "string", "&", "data", ")", "{"];
  }

  lemma SignatureTokensAre(body: Tokens)
    ensures TokensOf(FUNCTION_START) + TokensOf(INPUT_START) + TokensOf(INPUT_REST) + TokensOf(OUTPUT_REST) + body
            == FunctionHead(body)
  {
    var input, output := TokensOf(FUNCTION_START) + TokensOf(INPUT_START) + TokensOf(INPUT_REST), TokensOf(OUTPUT_REST);
    Regrouped(input, output, body);
    InputTokensAre(output + body);
    OutputTokensAre(body);
  }

  lemma Regrouped(a: Tokens, b: Tokens, c: Tokens)
    ensures a + b + c == a + (b + c)
  {
  }

  lemma PointerTokensAre(rest: Tokens)
    ensures TokensOf(POINTER_START) + TokensOf(POINTER_REST) + rest == DeclareTokens(rest)
  {
    assert TokensOf(POINTER_START) == ["const", "struct"];
    assert TokensOf(POINTER_REST) == ["embedded_file", "*", "p", ";"];
  }

  lemma LoopTokensAre(rest: Tokens)
    ensures TokensOf(LOOP_START) + TokensOf(LOOP_ARRAY) + rest
            == ["for", "("] + (["p"] + (["="] + (["embedded_files"] + ([";"] + rest))))
  {
    assert TokensOf(LOOP_START) == ["for", "(", "p", "="];
    assert TokensOf(LOOP_ARRAY) == ["embedded_files", ";"];
  }

  lemma TestTokensAre(body: Tokens)
    ensures TokensOf(LOOP_TEST) + TokensOf(LOOP_STEP) + body == TestHead(body)
  {
    assert TokensOf(LOOP_TEST) == ["p", "->", "name", "!=", "NULL", ";"];
    assert TokensOf(LOOP_STEP) == ["p", "++", ")", "{"];
  }

  lemma HeadTokensAre(body: Tokens)
    ensures TokensOf(POINTER_START) + TokensOf(POINTER_REST) + TokensOf(LOOP_START) + TokensOf(LOOP_ARRAY)
            + TokensOf(LOOP_TEST) + TokensOf(LOOP_STEP) + body
            == DeclareTokens(LoopHead(body))
  {
    TestTokensAre(body);
    LoopTokensAre(TestHead(body));
    PointerTokensAre(LoopHead(body));
    SevenRegrouped(TokensOf(POINTER_START), TokensOf(POINTER_REST), TokensOf(LOOP_START), TokensOf(LOOP_ARRAY),
                   TokensOf(LOOP_TEST), TokensOf(LOOP_STEP), body);
  }

  lemma SevenRegrouped(a: Tokens, b: Tokens, c: Tokens, d: Tokens, e: Tokens, f: Tokens, g: Tokens)
    ensures a + b + c + d + e + f + g == a + b + (c + d + (e + f + g))
  {
  }

  lemma MatchTokensAre(body: Tokens)
    ensures TokensOf(MATCH_START) + TokensOf(MATCH_REST) + body == MatchHead(body)
  {
    assert TokensOf(MATCH_START) == ["if", "(", "*", "p", "->", "name"];
    assert TokensOf(MATCH_REST) == ["==", "name", ")", "{"];
  }

  lemma LastTokensAre(more: Tokens)
    ensures TokensOf(ASSIGN_LINE) + TokensOf(TRUE_LINE) + TokensOf(INNER_BRACE) + TokensOf(OUTER_BRACE)
            + TokensOf(FALSE_LINE) + TokensOf(LAST_BRACE) + more
            == ASSIGN + (RETURN_TRUE + (["}"] + (["}"] + (RETURN_FALSE + (["}"] + more)))))
  {
    assert TokensOf(ASSIGN_LINE) == ASSIGN && TokensOf(TRUE_LINE) == RETURN_TRUE;
    assert TokensOf(FALSE_LINE) == RETURN_FALSE;
    assert TokensOf(INNER_BRACE) == ["}"] && TokensOf(OUTER_BRACE) == ["}"] && TokensOf(LAST_BRACE) == ["}"];
  }

  lemma CodeTokensAre(more: Tokens)
    ensures TokensOf(FUNCTION_START) + TokensOf(INPUT_START) + TokensOf(INPUT_REST) + TokensOf(OUTPUT_REST)
            + (TokensOf(POINTER_START) + TokensOf(POINTER_REST) + TokensOf(LOOP_START) + TokensOf(LOOP_ARRAY)
               + TokensOf(LOOP_TEST) + TokensOf(LOOP_STEP)
               + (TokensOf(MATCH_START) + TokensOf(MATCH_REST)
                  + (TokensOf(ASSIGN_LINE) + TokensOf(TRUE_LINE) + TokensOf(INNER_BRACE) + TokensOf(OUTER_BRACE)
                     + TokensOf(FALSE_LINE) + TokensOf(LAST_BRACE) + more)))
            == FunctionTokens(more)
  {
    var last := ASSIGN + (RETURN_TRUE + (["}"] + (["}"] + (RETURN_FALSE + (["}"] + more)))));
    LastTokensAre(more);
    MatchTokensAre(last);
    HeadTokensAre(MatchHead(last));
    SignatureTokensAre(DeclareTokens(LoopHead(MatchHead(last))));
  }

  const CODE_TOKENS: Tokens :=
    TokensOf(FUNCTION_START) + TokensOf(INPUT_START) + TokensOf(INPUT_REST) + TokensOf(OUTPUT_REST)
    + TokensOf(POINTER_START) + TokensOf(POINTER_REST) + TokensOf(LOOP_START) + TokensOf(LOOP_ARRAY)
    + TokensOf(LOOP_TEST) + TokensOf(LOOP_STEP) + TokensOf(MATCH_START) + TokensOf(MATCH_REST)
    + TokensOf(ASSIGN_LINE) + TokensOf(TRUE_LINE) + TokensOf(INNER_BRACE) + TokensOf(OUTER_BRACE)
    + TokensOf(FALSE_LINE) + TokensOf(LAST_BRACE)

  lemma CodeLexes()
    ensures LexesTo(CODE, CODE_TOKENS)
  {
    CodeTexts();
    SignatureLexes();
    var text := TextOf(FUNCTION_START) + TextOf(INPUT_START) + TextOf(INPUT_REST) + TextOf(OUTPUT_REST);
    var tokens := TokensOf(FUNCTION_START) + TokensOf(INPUT_START) + TokensOf(INPUT_REST) + TokensOf(OUTPUT_REST);
    HeadLexes(text, tokens);
    text := text + TextOf(POINTER_START) + TextOf(POINTER_REST) + TextOf(LOOP_START) + TextOf(LOOP_ARRAY)
            + TextOf(LOOP_TEST) + TextOf(LOOP_STEP);
    tokens := tokens + TokensOf(POINTER_START) + TokensOf(POINTER_REST) + TokensOf(LOOP_START)
              + TokensOf(LOOP_ARRAY) + TokensOf(LOOP_TEST) + TokensOf(LOOP_STEP);
    MatchLexes(text, tokens);
  }

  lemma CodeTexts()
    ensures CODE == TextOf(FUNCTION_START) + TextOf(INPUT_START) + TextOf(INPUT_REST) + TextOf(OUTPUT_REST)
                    + TextOf(POINTER_START) + TextOf(POINTER_REST) + TextOf(LOOP_START) + TextOf(LOOP_ARRAY)
                    + TextOf(LOOP_TEST) + TextOf(LOOP_STEP) + TextOf(MATCH_START) + TextOf(MATCH_REST)
                    + TextOf(ASSIGN_LINE) + TextOf(TRUE_LINE) + TextOf(INNER_BRACE) + TextOf(OUTER_BRACE)
                    + TextOf(FALSE_LINE) + TextOf(LAST_BRACE)
  {
    FunctionText();
    InputText();
    OutputText();
    PointerText();
    LoopText();
    TestText();
    MatchText();
    AssignText();
    ReturnText();
    ShortText();
  }

  lemma CodeTokensRegrouped(more: Tokens)
    ensures CODE_TOKENS + more == FunctionTokens(more)
  {
    var a := TokensOf(FUNCTION_START) + TokensOf(INPUT_START) + TokensOf(INPUT_REST) + TokensOf(OUTPUT_REST);
    CodeTokensAre(more);
    SixMore(a, TokensOf(POINTER_START), TokensOf(POINTER_REST), TokensOf(LOOP_START), TokensOf(LOOP_ARRAY),
            TokensOf(LOOP_TEST), TokensOf(LOOP_STEP));
    var b := TokensOf(POINTER_START) + TokensOf(POINTER_REST) + TokensOf(LOOP_START) + TokensOf(LOOP_ARRAY)
             + TokensOf(LOOP_TEST) + TokensOf(LOOP_STEP);
    var c := TokensOf(MATCH_START) + TokensOf(MATCH_REST);
    Regrouped(a + b, TokensOf(MATCH_START), TokensOf(MATCH_REST));
    SixMore(a + b + c, TokensOf(ASSIGN_LINE), TokensOf(TRUE_LINE), TokensOf(INNER_BRACE), TokensOf(OUTER_BRACE),
            TokensOf(FALSE_LINE), TokensOf(LAST_BRACE));
    var d := TokensOf(ASSIGN_LINE) + TokensOf(TRUE_LINE) + TokensOf(INNER_BRACE) + TokensOf(OUTER_BRACE)
             + TokensOf(FALSE_LINE) + TokensOf(LAST_BRACE);
    AllRegrouped(a, b, c, d, more);
  }

  lemma SixMore(a: Tokens, t1: Tokens, t2: Tokens, t3: Tokens, t4: Tokens, t5: Tokens, t6: Tokens)
    ensures a + t1 + t2 + t3 + t4 + t5 + t6 == a + (t1 + t2 + t3 + t4 + t5 + t6)
  {
  }

  lemma AllRegrouped(a: Tokens, b: Tokens, c: Tokens, d: Tokens, more: Tokens)
    ensures a + b + c + d + more == a + (b + (c + (d + more)))
  {
  }

  const END_TOKENS: Tokens := ["#", "endif", "/*", "TRANSLATION_FILES_H", "*/"]

  /** The printed function and the end of the guard. */
  lemma PrintedCode()
    ensures Lex(PIECES.after) == Some(FunctionTokens(END_TOKENS))
  {
    EndLexes();
    CodeLexes();
    LexesBefore(CODE, CODE_TOKENS, "\n#" + ("endif /* " + "TRANSLATION_FILES_H */\n"), END_TOKENS);
    AfterRegrouped(CODE, "endif /* ", "TRANSLATION_FILES_H */\n");
    CodeTokensRegrouped(END_TOKENS);
  }

  lemma AfterRegrouped(code: string, a: string, b: string)
    ensures code + "\n#" + a + b == code + ("\n#" + (a + b))
  {
  }

  lemma EndTokensAre()
    ensures ["#"] + (TokensOf(ENDIF_START) + TokensOf(ENDIF_REST)) == END_TOKENS
  {
    assert TokensOf(ENDIF_START) == ["endif", "/*"] && TokensOf(ENDIF_REST) == ["TRANSLATION_FILES_H", "*/"];
  }

  lemma EndLexes()
    ensures Lex("\n#" + ("endif /* " + "TRANSLATION_FILES_H */\n")) == Some(END_TOKENS)
  {
    EndifText();
    EndifSpelled();
    SpellingLexes(ENDIF_START);
    Add(TextOf(ENDIF_START), TokensOf(ENDIF_START), ENDIF_REST);
    DirectiveLexes(TextOf(ENDIF_START) + TextOf(ENDIF_REST), TokensOf(ENDIF_START) + TokensOf(ENDIF_REST));
    EndTokensAre();
  }

  // --- The pieces around the declarations ---

  lemma DeclTokensAre()
    ensures TokensOf(DECL_TEXT) == ["static", "const", "std", "::", "string"]
  {
  }

  lemma PrintedDecl()
    ensures Lex(PIECES.decl) == Some(TokensOf(DECL_TEXT))
  {
    DeclText();
    DeclSpelled();
    SpellingLexes(DECL_TEXT);
    LexesAlone(TextOf(DECL_TEXT), TokensOf(DECL_TEXT));
  }

  lemma PrintedConstruct()
    ensures Lex(PIECES.construct) == Some(["std"] + (["::"] + (["string"] + (["("] + []))))
  {
    assert PIECES.construct == "" + ("std" + ("" + ("::" + ("" + ("string" + ("" + ("(" + "")))))));
    LexNext("", "(", "", []);
    LexNext("", "string", "" + ("(" + ""), ["("] + []);
    LexNext("", "::", "" + ("string" + ("" + ("(" + ""))), ["string"] + (["("] + []));
    LexNext("", "std", "" + ("::" + ("" + ("string" + ("" + ("(" + ""))))), ["::"] + (["string"] + (["("] + [])));
  }

  lemma PrintedNulls()
    ensures Lex(PIECES.nulls) == Some(["NULL"] + ([","] + (["NULL"] + [])))
  {
    assert PIECES.nulls == "" + ("NULL" + ("" + ("," + (" " + ("NULL" + "")))));
    LexNext(" ", "NULL", "", []);
    LexNext("", ",", " " + ("NULL" + ""), ["NULL"] + []);
    LexNext("", "NULL", "" + ("," + (" " + ("NULL" + ""))), [","] + (["NULL"] + []));
  }

  // --- The guard and the include ---

  lemma DirectiveReads(name: string, rest: string)
    requires IsIdentifier(name) && (rest != "" ==> !IsWordChar(rest[0]))
    ensures ReadDirective(name, "#" + (name + rest)) == Some(rest)
  {
    assert ("#" + (name + rest))[1..] == name + rest;
    assert "" + (name + rest) == name + rest;
    ReadsIdentifier("", name, rest);
  }

  lemma LineEndReads(ws: string, rest: string)
    requires AllSpace(ws) && ws != "" && ws[0] == '\n' && (rest != "" ==> !IsSpace(rest[0]))
    ensures ReadLineEnd(ws + rest) == Some(rest)
  {
    SkipsSpace(ws, rest);
  }

  /** `#NAME GUARD` and the end of its line. */
  lemma GuardLineReads(name: string, guard: string, ws: string, rest: string)
    requires IsIdentifier(name) && IsIdentifier(guard) && AllSpace(ws) && ws != "" && ws[0] == '\n'
    requires rest != "" ==> !IsSpace(rest[0])
    ensures ReadDirective(name, "#" + (name + (" " + (guard + (ws + rest))))) == Some(" " + (guard + (ws + rest)))
    ensures ReadIdentifier(" " + (guard + (ws + rest))) == Some((guard, ws + rest))
    ensures ReadLineEnd(ws + rest) == Some(rest)
  {
    DirectiveReads(name, " " + (guard + (ws + rest)));
    ReadsIdentifier(" ", guard, ws + rest);
    LineEndReads(ws, rest);
  }

  lemma IncludeLineReads()
    ensures ReadDirective("include", "#" + ("include" + (" " + ("<" + ("string" + (">" + "\n\n"))))))
            == Some(" " + ("<" + ("string" + (">" + "\n\n"))))
    ensures Expect("<", " " + ("<" + ("string" + (">" + "\n\n")))) == Some("string" + (">" + "\n\n"))
    ensures ReadWord("string", "string" + (">" + "\n\n")) == Some(">" + "\n\n")
    ensures Expect(">", ">" + "\n\n") == Some("\n\n") && ReadLineEnd("\n\n") == Some("")
  {
    DirectiveReads("include", " " + ("<" + ("string" + (">" + "\n\n"))));
    ExpectHere(" ", "<", "string" + (">" + "\n\n"));
    assert "" + ("string" + (">" + "\n\n")) == "string" + (">" + "\n\n");
    ReadsIdentifier("", "string", ">" + "\n\n");
    ExpectNow(">", "\n\n");
    assert "\n\n" + "" == "\n\n";
    LineEndReads("\n\n", "");
  }

  lemma PreludeReads(guard: string, third: string)
    requires IsIdentifier(guard)
    requires third == "#" + ("include" + (" " + ("<" + ("string" + (">" + "\n\n")))))
    ensures ReadPrelude("#" + ("ifndef" + (" " + (guard + ("\n" + (
                        "#" + ("define" + (" " + (guard + ("\n\n" + third)))))))))) == Some(guard)
  {
    var second := "#" + ("define" + (" " + (guard + ("\n\n" + third))));
    GuardLineReads("ifndef", guard, "\n", second);
    GuardLineReads("define", guard, "\n\n", third);
    IncludeLineReads();
    PreludeSteps(guard, "#" + ("ifndef" + (" " + (guard + ("\n" + second)))), " " + (guard + ("\n" + second)),
                 "\n" + second, second, " " + (guard + ("\n\n" + third)), "\n\n" + third, third,
                 " " + ("<" + ("string" + (">" + "\n\n"))), "string" + (">" + "\n\n"), ">" + "\n\n", "\n\n");
  }

  lemma PreludeSteps(guard: string, s0: string, s1: string, s2: string, s3: string, s4: string, s5: string, s6: string,
                     s7: string, s8: string, s9: string, s10: string)
    requires ReadDirective("ifndef", s0) == Some(s1) && ReadIdentifier(s1) == Some((guard, s2))
    requires ReadLineEnd(s2) == Some(s3)
    requires ReadDirective("define", s3) == Some(s4) && ReadIdentifier(s4) == Some((guard, s5))
    requires ReadLineEnd(s5) == Some(s6)
    requires ReadDirective("include", s6) == Some(s7) && Expect("<", s7) == Some(s8)
    requires ReadWord("string", s8) == Some(s9) && Expect(">", s9) == Some(s10) && ReadLineEnd(s10) == Some("")
    ensures ReadPrelude(s0) == Some(guard)
  {
  }

  lemma PrintedPrelude()
    ensures ReadPrelude(PIECES.before) == Some("TRANSLATION_FILES_H")
  {
    var guard, third := "TRANSLATION_FILES_H", "#" + ("include" + (" " + ("<" + ("string" + (">" + "\n\n")))));
    GuardIsIdentifier();
    PreludeReads(guard, third);
    PreludeRegrouped();
  }

  lemma GuardIsIdentifier()
    ensures IsIdentifier("TRANSLATION_FILES_H")
  {
  }

  lemma GuardLine()
    ensures "#ifndef TRANSLATION_FILES_H\n" == "#" + ("ifndef" + (" " + ("TRANSLATION_FILES_H" + "\n")))
  {
  }

  lemma DefineLine()
    ensures "#define TRANSLATION_FILES_H\n\n" == "#" + ("define" + (" " + ("TRANSLATION_FILES_H" + "\n\n")))
  {
  }

  lemma IncludeLine()
    ensures "#include <string>\n\n" == "#" + ("include" + (" " + ("<" + ("string" + (">" + "\n\n")))))
  {
  }

  lemma LineRegrouped(name: string, guard: string, ws: string, rest: string)
    ensures "#" + (name + (" " + (guard + ws))) + rest == "#" + (name + (" " + (guard + (ws + rest))))
  {
  }

  lemma PreludeRegrouped()
    ensures PIECES.before
            == "#" + ("ifndef" + (" " + ("TRANSLATION_FILES_H" + ("\n" + (
                 "#" + ("define" + (" " + ("TRANSLATION_FILES_H" + ("\n\n" + (
                   "#" + ("include" + (" " + ("<" + ("string" + (">" + "\n\n")))))))))))))))
  {
    var first, second := "#ifndef TRANSLATION_FILES_H\n", "#define TRANSLATION_FILES_H\n\n";
    var third := "#include <string>\n\n";
    GuardLine();
    DefineLine();
    IncludeLine();
    assert first + second + third == first + (second + third);
    LineRegrouped("define", "TRANSLATION_FILES_H", "\n\n", third);
    LineRegrouped("ifndef", "TRANSLATION_FILES_H", "\n", second + third);
  }

  // --- All together ---

  lemma PieceTokensAre()
    ensures ["std"] + (["::"] + (["string"] + (["("] + []))) == ["std", "::", "string", "("]
    ensures ["NULL"] + ([","] + (["NULL"] + [])) == ["NULL", ",", "NULL"]
    ensures |PIECES.decl| == 25 && PIECES.decl[24] == ' '
  {
  }

  lemma PiecesAre(p: Pieces, guard: string)
    requires ReadPrelude(p.before) == Some(guard)
    requires Lex(p.decl) == Some(["static", "const", "std", "::", "string"])
    requires |p.decl| > 0 && p.decl[|p.decl| - 1] == ' '
    requires Lex(p.construct) == Some(["std", "::", "string", "("]) && Lex(p.nulls) == Some(["NULL", ",", "NULL"])
    ensures StandardPieces(p)
  {
  }

  lemma PrintedPieces()
    ensures StandardPieces(PIECES)
  {
    PrintedPrelude();
    PrintedDecl();
    DeclTokensAre();
    PrintedConstruct();
    PrintedNulls();
    PieceTokensAre();
    PiecesAre(PIECES, "TRANSLATION_FILES_H");
  }

  lemma UnitReads(p: Pieces, ts: Tokens, table: Table, us: Tokens, search: Function, end: Tokens)
    requires StandardPieces(p) && Lex(p.table) == Some(ts) && ParseTable(ts) == Some((table, []))
    requires Lex(p.after) == Some(us) && ParseFunction(us) == Some((search, end)) && IsEnd(end)
    ensures ReadUnit(p) == Some(Unit(table, search))
  {
  }

  /** The fixed text that the generator prints declares the table with its members in this order, and the
      search. */
  lemma PrintedUnit()
    ensures ReadUnit(PIECES) == Some(Unit(TABLE, SEARCH))
  {
    PrintedPieces();
    PrintedTable();
    TableParses();
    PrintedCode();
    FunctionParses(END_TOKENS);
    EndIsEnd();
    UnitReads(PIECES, TableTokens(), TABLE, FunctionTokens(END_TOKENS), SEARCH, END_TOKENS);
  }

  lemma EndIsEnd()
    ensures IsEnd(END_TOKENS)
  {
    assert END_TOKENS[..3] == ["#", "endif", "/*"];
  }
}
