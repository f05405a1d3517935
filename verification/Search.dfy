/**
 The search that the header ends with: the function as it is printed, and what a
 call of it does with a table that ends in null pointers.
 */
module Search {
  import opened CxxReader
  import opened CxxProgram

  // --- The function ---

  const AT_END: Condition := Condition(false, Member("p", "name"), NullPointer)

  const MATCH: Simple :=
    If(Condition(true, Deref(Member("p", "name")), Variable("name")),
       [Assign("data", Deref(Member("p", "data"))), Return(true)])

  const SEARCH: Function :=
    Function("find_embedded_file", "name", "data",
             [Declare("embedded_file", "p"), For("p", "embedded_files", AT_END, "p", [MATCH]), Plainly(Return(false))])

  const TABLE: Table := Table("embedded_file", ["name", "data"], "embedded_files")

  // --- What a caller expects of it ---

  /** A row for each file, and a last one without a name. */
  predicate Terminated(rows: seq<Fields>) {
    && rows != []
    && (forall k | 0 <= k < |rows| :: "name" in rows[k] && "data" in rows[k])
    && rows[|rows| - 1]["name"].None?
    && forall k | 0 <= k < |rows| - 1 :: rows[k]["name"].Some? && rows[k]["data"].Some?
  }

  predicate Named(row: Fields, name: string) {
    "name" in row && row["name"] == Some(name)
  }

  /** Row `k` is the first from `from` on with that name. */
  predicate IsFirst(rows: seq<Fields>, name: string, from: nat, k: nat) {
    from <= k < |rows| && Named(rows[k], name) && forall j | from <= j < k :: !Named(rows[j], name)
  }

  /** The data of the first row of the name, or nothing new if there is none. */
  predicate Answers(rows: seq<Fields>, name: string, before: string, found: bool, data: string) {
    && (found <==> exists k | 0 <= k < |rows| :: Named(rows[k], name))
    && (found ==> exists k | 0 <= k < |rows| :: IsFirst(rows, name, 0, k) && "data" in rows[k]
                                                && rows[k]["data"] == Some(data))
    && (!found ==> data == before)
  }

  // --- What it does ---

  lemma EvaluateMember(unit: Linked, arg: string, st: State, member: string)
    requires st.pointer == Some("p") && st.row.Some? && st.row.value < |unit.rows| && member in unit.rows[st.row.value]
    ensures Evaluate(unit, arg, Member("p", member), st) == Some(Address(unit.rows[st.row.value][member]))
  {
  }

  /** The loop's test: the row has a name. */
  lemma TestDecides(unit: Linked, arg: string, st: State)
    requires st.pointer == Some("p") && st.row.Some? && st.row.value < |unit.rows| && "name" in unit.rows[st.row.value]
    ensures Decide(unit, arg, AT_END, st) == Some(unit.rows[st.row.value]["name"].Some?)
  {
    EvaluateMember(unit, arg, st, "name");
  }

  /** The loop's body: the row of the right name ends the search. */
  lemma BodyRuns(unit: Linked, arg: string, st: State)
    requires unit.search == SEARCH && st.pointer == Some("p") && st.row.Some? && st.row.value < |unit.rows|
    requires var row := unit.rows[st.row.value];
             "name" in row && "data" in row && row["name"].Some? && row["data"].Some?
    ensures var row := unit.rows[st.row.value];
            RunSimples(unit, arg, [MATCH], st)
            == Some(if Named(row, arg) then Returned(true, row["data"].value) else Next(st))
  {
    var row := unit.rows[st.row.value];
    EvaluateMember(unit, arg, st, "name");
    assert Evaluate(unit, arg, Deref(Member("p", "name")), st) == Some(Text(row["name"].value));
    assert Evaluate(unit, arg, Variable("name"), st) == Some(Text(arg));
    assert Decide(unit, arg, MATCH.condition, st) == Some(row["name"].value == arg);
    assert [MATCH][1..] == [];
    if Named(row, arg) {
      EvaluateMember(unit, arg, st, "data");
      ThenRuns(unit, arg, st, row["data"].value);
    }
  }

  lemma ThenRuns(unit: Linked, arg: string, st: State, data: string)
    requires unit.search == SEARCH && Evaluate(unit, arg, Deref(Member("p", "data")), st) == Some(Text(data))
    ensures RunSimples(unit, arg, MATCH.body, st) == Some(Returned(true, data))
  {
    var body := MATCH.body;
    assert RunSimple(unit, arg, body[0], st) == Some(Next(st.(data := data)));
    assert body[1..] == [Return(true)];
    assert RunSimples(unit, arg, [Return(true)], st.(data := data)) == Some(Returned(true, data));
  }

  /** From row `k` on: up to the first row of the name, or to the end. */
  lemma {:induction false} LoopRuns(unit: Linked, arg: string, k: nat, st: State)
    requires unit.search == SEARCH && Terminated(unit.rows) && st.pointer == Some("p") && k < |unit.rows|
    ensures var r := RunLoop(unit, arg, AT_END, [MATCH], k, st);
            match r
            case None => false
            case Some(Next(st')) => st'.data == st.data && forall j | k <= j < |unit.rows| :: !Named(unit.rows[j], arg)
            case Some(Returned(value, data)) =>
              value && exists j | 0 <= j < |unit.rows| :: IsFirst(unit.rows, arg, k, j)
                                                          && unit.rows[j]["data"] == Some(data)
    decreases |unit.rows| - k
  {
    var at := st.(row := Some(k));
    TestDecides(unit, arg, at);
    if k < |unit.rows| - 1 {
      BodyRuns(unit, arg, at);
      if Named(unit.rows[k], arg) {
        assert IsFirst(unit.rows, arg, k, k);
      } else {
        LoopRuns(unit, arg, k + 1, at);
        FirstFromBefore(unit.rows, arg, k);
      }
    }
  }

  lemma FirstFromBefore(rows: seq<Fields>, name: string, k: nat)
    requires k < |rows| && !Named(rows[k], name)
    ensures forall j | 0 <= j < |rows| :: IsFirst(rows, name, k + 1, j) ==> IsFirst(rows, name, k, j)
  {
  }

  lemma BodySteps(unit: Linked, arg: string, data: string)
    requires unit.search == SEARCH && unit.struct_ == "embedded_file" && unit.array_ == "embedded_files"
    ensures RunStatements(unit, arg, SEARCH.body, State(None, None, data))
            == match RunLoop(unit, arg, AT_END, [MATCH], 0, State(Some("p"), None, data))
               case None => None
               case Some(Next(st)) => Some(Returned(false, st.data))
               case Some(Returned(value, after)) => Some(Returned(value, after))
  {
    var body, st := SEARCH.body, State(None, None, data);
    var st1 := State(Some("p"), None, data);
    assert RunStatement(unit, arg, body[0], st) == Some(Next(st1));
    assert body[1..][0] == For("p", "embedded_files", AT_END, "p", [MATCH]);
    var flow := RunLoop(unit, arg, AT_END, [MATCH], 0, st1);
    assert RunStatement(unit, arg, body[1..][0], st1) == flow;
    assert body[1..][1..] == [Plainly(Return(false))];
    if flow.Some? && flow.value.Next? { LastRuns(unit, arg, flow.value.state); }
  }

  lemma LastRuns(unit: Linked, arg: string, st: State)
    ensures RunStatements(unit, arg, [Plainly(Return(false))], st) == Some(Returned(false, st.data))
  {
    assert RunStatement(unit, arg, Plainly(Return(false)), st) == Some(Returned(false, st.data));
  }

  /** A call of the printed function is defined, and answers as a caller expects. */
  lemma CallAnswers(unit: Linked, arg: string, data: string)
    requires unit.search == SEARCH && unit.struct_ == "embedded_file" && unit.array_ == "embedded_files"
    requires Terminated(unit.rows)
    ensures var r := Call(unit, "find_embedded_file", arg, data);
            r.Some? && Answers(unit.rows, arg, data, r.value.0, r.value.1)
  {
    BodySteps(unit, arg, data);
    LoopRuns(unit, arg, 0, State(Some("p"), None, data));
  }

  lemma AnswerIsUnique(rows: seq<Fields>, name: string, before: string, f1: bool, d1: string, f2: bool, d2: string)
    requires Answers(rows, name, before, f1, d1) && Answers(rows, name, before, f2, d2)
    ensures f1 == f2 && d1 == d2
  {
    if f1 {
      var i :| 0 <= i < |rows| && IsFirst(rows, name, 0, i) && "data" in rows[i] && rows[i]["data"] == Some(d1);
      var j :| 0 <= j < |rows| && IsFirst(rows, name, 0, j) && "data" in rows[j] && rows[j]["data"] == Some(d2);
      assert i == j;
    }
  }

  /** `find_embedded_file`, with the pointer as an index; `before` is what the caller's string holds. The
      search never leaves the table, and does what the printed function does. */
  method FindEmbeddedFile(unit: Linked, name: string, before: string) returns (found: bool, data: string)
    requires unit.search == SEARCH && unit.struct_ == "embedded_file" && unit.array_ == "embedded_files"
    requires Terminated(unit.rows)
    ensures Answers(unit.rows, name, before, found, data)
    ensures Call(unit, "find_embedded_file", name, before) == Some((found, data))
  {
    var rows := unit.rows;
    var p := 0;
    found, data := false, before;
    while rows[p]["name"] != None
      invariant 0 <= p < |rows| && !found && data == before
      invariant forall k | 0 <= k < p :: !Named(rows[k], name)
      decreases |rows| - p
    {
      if rows[p]["name"] == Some(name) {
        assert IsFirst(rows, name, 0, p);
        found, data := true, rows[p]["data"].value;
        break;
      }
      p := p + 1;
    }
    CallAnswers(unit, name, before);
    var r := Call(unit, "find_embedded_file", name, before);
    AnswerIsUnique(rows, name, before, found, data, r.value.0, r.value.1);
  }
}
