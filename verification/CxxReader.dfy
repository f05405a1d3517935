/**
 A reader for the subset of C++ that the embedded-file generator writes. String
 literals follow section 5.13.3 of C++17 (escape sequences; a hexadecimal escape
 takes as many digits as follow) and section 5.13.5 (adjacent literals are joined,
 after their escapes have been replaced).
 */
module CxxReader {

  datatype Option<+T> = None | Some(value: T) {
    predicate IsFailure() { None? }

    function PropagateFailure<U>(): Option<U>
      requires None?
    {
      None
    }

    function Extract(): T
      requires Some?
    {
      value
    }
  }

  // --- White space, words and numbers ---

  predicate IsSpace(c: char) {
    c == ' ' || c == '\n' || c == '\t' || c == '\r'
  }

  function SkipSpace(s: string): (r: string)
    ensures |r| <= |s|
    ensures r != "" ==> !IsSpace(r[0])
  {
    if s != "" && IsSpace(s[0]) then SkipSpace(s[1..]) else s
  }

  /** Reads exactly `token`, white space before it aside. */
  function Expect(token: string, s: string): (r: Option<string>)
    ensures r.Some? ==> |r.value| + |token| <= |s|
  {
    var s := SkipSpace(s);
    if token <= s then Some(s[|token|..]) else None
  }

  predicate IsDigit(c: char) {
    '0' <= c <= '9'
  }

  predicate IsWordChar(c: char) {
    IsDigit(c) || 'a' <= c <= 'z' || 'A' <= c <= 'Z' || c == '_'
  }

  /** The longest beginning made of characters in `class_`. */
  function Munch(class_: char -> bool, s: string): (r: string)
    ensures r <= s
    ensures forall k | 0 <= k < |r| :: class_(r[k])
    ensures |r| < |s| ==> !class_(s[|r|])
  {
    if s != "" && class_(s[0]) then [s[0]] + Munch(class_, s[1..]) else ""
  }

  function ReadIdentifier(s: string): (r: Option<(string, string)>)
    ensures r.Some? ==> |r.value.1| < |s|
  {
    var s := SkipSpace(s);
    var word := Munch(IsWordChar, s);
    if word == "" || IsDigit(word[0]) then None else Some((word, s[|word|..]))
  }

  function DecimalValue(digits: string): nat
    requires forall k | 0 <= k < |digits| :: IsDigit(digits[k])
  {
    if digits == "" then 0
    else
      var d := digits[|digits| - 1];
      assert IsDigit(d);
      10 * DecimalValue(digits[..|digits| - 1]) + (d as int - '0' as int)
  }

  /** A decimal literal; a longer one that starts with 0 would be octal and is not read. */
  function ReadNumber(s: string): (r: Option<(nat, string)>)
    ensures r.Some? ==> |r.value.1| < |s|
  {
    var s := SkipSpace(s);
    var digits := Munch(IsDigit, s);
    if digits == "" || (|digits| > 1 && digits[0] == '0') then None
    else Some((DecimalValue(digits), s[|digits|..]))
  }

  // --- String literals ---

  predicate IsHexDigit(c: char) {
    IsDigit(c) || 'a' <= c <= 'f' || 'A' <= c <= 'F'
  }

  function HexDigitValue(c: char): (v: nat)
    requires IsHexDigit(c)
    ensures v < 16
  {
    if IsDigit(c) then c as int - '0' as int
    else if 'a' <= c <= 'f' then c as int - 'a' as int + 10
    else c as int - 'A' as int + 10
  }

  function HexValue(digits: string): nat
    requires forall k | 0 <= k < |digits| :: IsHexDigit(digits[k])
  {
    if digits == "" then 0
    else 16 * HexValue(digits[..|digits| - 1]) + HexDigitValue(digits[|digits| - 1])
  }

  predicate IsOctalDigit(c: char) {
    '0' <= c <= '7'
  }

  function OctalValue(digits: string): nat
    requires forall k | 0 <= k < |digits| :: IsOctalDigit(digits[k])
  {
    if digits == "" then 0
    else
      var d := digits[|digits| - 1];
      assert IsOctalDigit(d);
      8 * OctalValue(digits[..|digits| - 1]) + (d as int - '0' as int)
  }

  /** The character of a simple escape. */
  function SimpleEscape(c: char): Option<char> {
    if c == '\\' || c == '"' || c == '\'' || c == '?' then Some(c)
    else if c == 'a' then Some(7 as char)
    else if c == 'b' then Some(8 as char)
    else if c == 't' then Some('\t')
    else if c == 'n' then Some('\n')
    else if c == 'v' then Some(11 as char)
    else if c == 'f' then Some(12 as char)
    else if c == 'r' then Some('\r')
    else None
  }

  /** How many characters a numeric escape takes: an `x` and all hexadecimal digits that follow it, or
      up to three octal digits. */
  function EscapeLength(s: string): (n: nat)
    requires s != ""
    ensures n <= |s|
  {
    if s[0] == 'x' then 1 + |Munch(IsHexDigit, s[1..])|
    else
      var digits := |Munch(IsOctalDigit, s)|;
      if digits > 3 then 3 else digits
  }

  function EscapeValue(s: string): nat
    requires s != ""
  {
    if s[0] == 'x' then HexValue(s[1..EscapeLength(s)]) else OctalValue(s[..EscapeLength(s)])
  }

  /** What follows a backslash: a simple escape, or a numeric one whose value must fit a `char`. */
  function ReadEscape(s: string): (r: Option<(char, string)>)
    ensures r.Some? ==> |r.value.1| < |s|
  {
    if s == "" then None
    else if SimpleEscape(s[0]).Some? then Some((SimpleEscape(s[0]).value, s[1..]))
    else
      var n := EscapeLength(s);
      if n == 0 || (s[0] == 'x' && n == 1) || EscapeValue(s) >= 256 then None
      else Some((EscapeValue(s) as char, s[n..]))
  }

  /** The characters of a literal whose opening quote has been read, up to its closing quote;
      a literal does not extend over the end of a line. */
  function ReadCharacters(s: string): (r: Option<(string, string)>)
    ensures r.Some? ==> |r.value.1| < |s|
    decreases |s|
  {
    if s == "" || s[0] == '\n' then None
    else if s[0] == '"' then Some(("", s[1..]))
    else if s[0] == '\\' then
      var (c, s') :- ReadEscape(s[1..]);
      var (value, rest) :- ReadCharacters(s');
      Some(([c] + value, rest))
    else
      var (value, rest) :- ReadCharacters(s[1..]);
      Some(([s[0]] + value, rest))
  }

  /** One or more adjacent literals: their values, in order. */
  function ReadLiterals(s: string): (r: Option<(seq<string>, string)>)
    ensures r.Some? ==> |r.value.1| < |s|
    decreases |s|
  {
    var s := SkipSpace(s);
    if s == "" || s[0] != '"' then None
    else
      var (value, s') :- ReadCharacters(s[1..]);
      var next := SkipSpace(s');
      if next == "" || next[0] != '"' then Some(([value], s'))
      else
        var (values, rest) :- ReadLiterals(s');
        Some(([value] + values, rest))
  }

  function Concat(parts: seq<string>): string {
    if parts == [] then "" else parts[0] + Concat(parts[1..])
  }

  // --- Declarations ---

  /** The longer pieces of fixed text between which the variable parts of a header stand. */
  datatype Pieces = Pieces(
    before: string,      // all that precedes the declarations
    decl: string,        // the specifiers and the type of a declaration
    construct: string,   // the constructor up to its parenthesis
    table: string,       // the struct and the table up to its brace
    nulls: string,       // the inside of the sentinel row
    after: string        // all that follows the table
  )

  /** A constant of type `std::string` and its value. */
  datatype Decl = Decl(name: string, value: string)

  /** `static const std::string NAME = LITERALS;` or `... = std::string(LITERALS, COUNT);` */
  function ReadDecl(p: Pieces, s: string): (r: Option<(Decl, string)>)
    ensures r.Some? ==> |r.value.1| < |s|
  {
    var s :- Expect(p.decl, s);
    var (name, s) :- ReadIdentifier(s);
    var s :- Expect("=", s);
    var (value, s) :- ReadInitializer(p, s);
    var s :- Expect(";", s);
    Some((Decl(name, value), s))
  }

  predicate NotNul(c: char) {
    c != 0 as char
  }

  /** A `std::string` made from a literal alone ends before the first NUL in it. */
  function ReadInitializer(p: Pieces, s: string): (r: Option<(string, string)>)
    ensures r.Some? ==> |r.value.1| < |s|
  {
    match Expect(p.construct, s)
    case None =>
      var (values, s) :- ReadLiterals(s);
      Some((Munch(NotNul, Concat(values)), s))
    case Some(s') =>
      var (values, s') :- ReadLiterals(s');
      var s' :- Expect(",", s');
      var (count, s') :- ReadNumber(s');
      var s' :- Expect(")", s');
      var value :- FirstOf(Concat(values), count);
      Some((value, s'))
  }

  /** `std::string(literal, count)`: the literal has a NUL at its end, and nothing beyond. */
  function FirstOf(value: string, count: nat): Option<string> {
    if count > |value| + 1 then None else Some((value + [0 as char])[..count])
  }

  function ReadDecls(p: Pieces, s: string): (r: Option<(seq<Decl>, string)>)
    ensures r.Some? ==> |r.value.1| <= |s|
    decreases |s|
  {
    if Expect(p.decl, s).None? then Some(([], SkipSpace(s)))
    else
      var (decl, s') :- ReadDecl(p, s);
      var (decls, rest) :- ReadDecls(p, s');
      Some(([decl] + decls, rest))
  }

  // --- The table and the whole header ---

  /** A row of the table: the addresses of two constants, or two null pointers. */
  datatype Row = Entry(first: string, second: string) | Null

  function ReadRow(p: Pieces, s: string): (r: Option<(Row, string)>)
    ensures r.Some? ==> |r.value.1| < |s|
  {
    var s :- Expect("{", s);
    match Expect(p.nulls, s)
    case Some(s') =>
      var rest :- Expect("}", s');
      Some((Null, rest))
    case None =>
      var s :- Expect("&", s);
      var (first, s) :- ReadIdentifier(s);
      var s :- Expect(",", s);
      var s :- Expect("&", s);
      var (second, s) :- ReadIdentifier(s);
      var s :- Expect("}", s);
      Some((Entry(first, second), s))
  }

  /** Rows separated by commas. */
  function ReadRows(p: Pieces, s: string): (r: Option<(seq<Row>, string)>)
    ensures r.Some? ==> |r.value.1| < |s|
    decreases |s|
  {
    var (row, s') :- ReadRow(p, s);
    match Expect(",", s')
    case None => Some(([row], s'))
    case Some(next) =>
      var (rows, rest) :- ReadRows(p, next);
      Some(([row] + rows, rest))
  }

  /** The table and all that follows it. */
  function ReadTable(p: Pieces, s: string): Option<seq<Row>> {
    var s :- Expect(p.table, s);
    var (rows, s) :- ReadRows(p, s);
    var s :- Expect("};", s);
    var s :- Expect(p.after, s);
    if SkipSpace(s) == "" then Some(rows) else None
  }

  /** A whole header: its constants and the rows of its table. */
  function ReadHeader(p: Pieces, s: string): Option<(seq<Decl>, seq<Row>)> {
    var s :- Expect(p.before, s);
    var (decls, s) :- ReadDecls(p, s);
    var rows :- ReadTable(p, s);
    Some((decls, rows))
  }

  // --- The guard and the include ---

  /** Reads exactly this word. */
  function ReadWord(word: string, s: string): (r: Option<string>)
    ensures r.Some? ==> |r.value| < |s|
  {
    var (id, rest) :- ReadIdentifier(s);
    if id == word then Some(rest) else None
  }

  /** `#NAME`, at the start of a line. */
  function ReadDirective(name: string, s: string): (r: Option<string>)
    ensures r.Some? ==> |r.value| < |s|
  {
    if s == "" || s[0] != '#' then None else ReadWord(name, s[1..])
  }

  /** The end of a line, and any empty lines after it. */
  function ReadLineEnd(s: string): Option<string> {
    if s == "" || s[0] != '\n' then None else Some(SkipSpace(s))
  }

  /** `#ifndef GUARD`, `#define GUARD`, `#include <string>`, each on a line of its own; the name of the
      guard. */
  function ReadPrelude(s: string): Option<string> {
    var s :- ReadDirective("ifndef", s);
    var (guard, s) :- ReadIdentifier(s);
    var s :- ReadLineEnd(s);
    var s :- ReadDirective("define", s);
    var (defined, s) :- ReadIdentifier(s);
    var s :- ReadLineEnd(s);
    var s :- ReadDirective("include", s);
    var s :- Expect("<", s);
    var s :- ReadWord("string", s);
    var s :- Expect(">", s);
    var end :- ReadLineEnd(s);
    if guard == defined && end == "" then Some(guard) else None
  }

  // --- Tokens ---

  /** Two characters that are one token. */
  predicate IsPair(a: char, b: char) {
    || (a == ':' && b == ':') || (a == '-' && b == '>') || (a == '+' && b == '+') || (a == '=' && b == '=')
    || (a == '!' && b == '=') || (a == '/' && b == '*') || (a == '*' && b == '/')
  }

  predicate IsPunctuation(c: char) {
    || c == '{' || c == '}' || c == '[' || c == ']' || c == '(' || c == ')' || c == '<' || c == '>'
    || c == '=' || c == ';' || c == ',' || c == '&' || c == '*'
  }

  /** The length of the token at the start of the text: a word, a pair or a single character; 0 if there
      is none. */
  function TokenLength(s: string): (n: nat)
    ensures n <= |s|
  {
    if s == "" then 0
    else if IsWordChar(s[0]) then |Munch(IsWordChar, s)|
    else if |s| >= 2 && IsPair(s[0], s[1]) then 2
    else if IsPunctuation(s[0]) then 1
    else 0
  }

  /** All tokens up to the end of the text; a `#` is one only at the start of a line. */
  function Lex(s: string): Option<seq<string>> {
    if s == "" then Some([])
    else if |s| >= 2 && s[0] == '\n' && s[1] == '#' then
      var tokens :- Lex(s[2..]);
      Some(["#"] + tokens)
    else if IsSpace(s[0]) then Lex(s[1..])
    else
      var n := TokenLength(s);
      if n == 0 then None
      else
        var tokens :- Lex(s[n..]);
        Some([s[..n]] + tokens)
  }
}
