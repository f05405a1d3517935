/**
 `apply_replacements`: the entries of an ordered replacement list, each applied
 to the whole text in turn, and what such a chain achieves as a whole.
 */
module Chain {
  import opened Substitution
  import opened WholeWord

  /** A two-element entry is a plain string; a three-element one is the pattern `\bpat\b`. */
  datatype Rule = Plain(pat: string, rep: string) | Ticker(pat: string, rep: string)

  /** What Python promises of its word characters here. */
  ghost predicate LettersAreWord(isWord: char -> bool) {
    forall c | 'A' <= c <= 'Z' || 'a' <= c <= 'z' :: isWord(c)
  }

  function Step(isWord: char -> bool, rule: Rule, t: string): string
    requires rule.pat != ""
  {
    match rule
    case Plain(pat, rep) => Replace(t, pat, rep)
    case Ticker(pat, rep) => Sub(isWord, t, pat, rep)
  }

  /** The entry has something to rewrite in `t`. */
  predicate Present(isWord: char -> bool, rule: Rule, t: string) {
    match rule
    case Plain(pat, _) => Contains(t, pat)
    case Ticker(pat, _) => HasWord(isWord, t, pat)
  }

  /** `str.replace` treats an empty search string specially; no list here has one. */
  predicate Proper(rules: seq<Rule>) {
    forall j | 0 <= j < |rules| :: rules[j].pat != ""
  }

  /** The text once the first `j` entries have been applied. */
  function After(isWord: char -> bool, rules: seq<Rule>, t: string, j: nat): string
    requires Proper(rules) && j <= |rules|
  {
    if j == 0 then t else Step(isWord, rules[j - 1], After(isWord, rules, t, j - 1))
  }

  function Apply(isWord: char -> bool, rules: seq<Rule>, t: string): string
    requires Proper(rules)
  {
    After(isWord, rules, t, |rules|)
  }

  /** The text is free of what any entry looks for. */
  ghost predicate Clean(isWord: char -> bool, rules: seq<Rule>, t: string) {
    forall i | 0 <= i < |rules| :: !Present(isWord, rules[i], t)
  }

  /** The step of `rule` cannot bring back what `earlier` looks for (`earlier` may be `rule` itself). */
  ghost predicate Spares(isWord: char -> bool, rule: Rule, earlier: Rule) {
    && VFree(earlier.pat) && earlier.pat != ""
    && (exists k | 0 <= k < |rule.rep| :: IsV(rule.rep[k]))
    && match rule
       case Plain(pat, rep) =>
         earlier.Plain? && exists p :: Shields(pat, rep, p) && Inert(pat, rep, p, earlier.pat)
       case Ticker(pat, rep) =>
         if earlier.Plain? then pat != "" && rep != "" && IsV(rep[0]) && earlier.pat[0] !in rep
         else earlier == rule && TickerLike(isWord, pat, rep)
  }

  /** Every entry spares itself and those before it. */
  ghost predicate Disciplined(isWord: char -> bool, rules: seq<Rule>) {
    forall i, j | 0 <= i <= j < |rules| :: Spares(isWord, rules[j], rules[i])
  }

  method ApplyReplacements(isWord: char -> bool, rules: seq<Rule>, original: string) returns (text: string)
    requires Proper(rules)
    ensures text == Apply(isWord, rules, original)
    ensures Disciplined(isWord, rules) ==> Clean(isWord, rules, text)
    ensures Disciplined(isWord, rules) ==> (text == original <==> Clean(isWord, rules, original))
  {
    text := original;
    for j := 0 to |rules|
      invariant text == After(isWord, rules, original, j)
    {
      match rules[j]
      case Plain(pat, rep) => text := Replace(text, pat, rep);
      case Ticker(pat, rep) => text := Sub(isWord, text, pat, rep);
    }
    if Disciplined(isWord, rules) {
      OutputIsClean(isWord, rules, original);
      UnchangedIffClean(isWord, rules, original);
    }
  }

  // --- One step ---

  /** An entry with nothing to rewrite changes nothing. */
  lemma StepAbsent(isWord: char -> bool, rule: Rule, t: string)
    requires rule.pat != "" && !Present(isWord, rule, t)
    ensures Step(isWord, rule, t) == t
  {
    match rule
    case Plain(pat, rep) => ReplaceAbsent(t, pat, rep);
    case Ticker(pat, rep) => SubAbsent(isWord, t, pat, rep);
  }

  /** A single pass removes all that its entry looks for. */
  lemma StepRemoves(isWord: char -> bool, rule: Rule, t: string)
    requires Spares(isWord, rule, rule)
    ensures !Present(isWord, rule, Step(isWord, rule, t))
  {
    match rule
    case Plain(pat, rep) =>
      var p :| Shields(pat, rep, p) && Inert(pat, rep, p, pat);
      NotReborn(t, pat, rep, p, pat);
    case Ticker(pat, rep) =>
      NoWordLeft(isWord, t, pat, rep);
  }

  /** A step does not bring back what an earlier entry looks for, not even across the seams
      between inserted and kept text. */
  lemma StepSpares(isWord: char -> bool, rule: Rule, earlier: Rule, t: string)
    requires Spares(isWord, rule, earlier) && rule.pat != "" && !Present(isWord, earlier, t)
    ensures !Present(isWord, earlier, Step(isWord, rule, t))
  {
    if rule == earlier {
      StepRemoves(isWord, rule, t);
    } else {
      match rule
      case Plain(pat, rep) =>
        var p :| Shields(pat, rep, p) && Inert(pat, rep, p, earlier.pat);
        NotReborn(t, pat, rep, p, earlier.pat);
      case Ticker(pat, rep) =>
        SubNotReborn(isWord, t, pat, rep, earlier.pat);
    }
  }

  // --- The whole chain ---

  lemma {:induction false} CleanSoFar(isWord: char -> bool, rules: seq<Rule>, t: string, i: nat, j: nat)
    requires Disciplined(isWord, rules) && Proper(rules) && i < j <= |rules|
    ensures !Present(isWord, rules[i], After(isWord, rules, t, j))
  {
    if i == j - 1 {
      StepRemoves(isWord, rules[i], After(isWord, rules, t, i));
    } else {
      CleanSoFar(isWord, rules, t, i, j - 1);
      StepSpares(isWord, rules[j - 1], rules[i], After(isWord, rules, t, j - 1));
    }
  }

  /** Whatever the input, nothing any entry looks for is left in the output. */
  lemma OutputIsClean(isWord: char -> bool, rules: seq<Rule>, t: string)
    requires Disciplined(isWord, rules) && Proper(rules)
    ensures Clean(isWord, rules, Apply(isWord, rules, t))
  {
    forall i | 0 <= i < |rules| ensures !Present(isWord, rules[i], Apply(isWord, rules, t)) {
      CleanSoFar(isWord, rules, t, i, |rules|);
    }
  }

  lemma {:induction false} CleanIsKept(isWord: char -> bool, rules: seq<Rule>, t: string, j: nat)
    requires Proper(rules) && Clean(isWord, rules, t) && j <= |rules|
    ensures After(isWord, rules, t, j) == t
  {
    if j > 0 {
      CleanIsKept(isWord, rules, t, j - 1);
      StepAbsent(isWord, rules[j - 1], t);
    }
  }

  /** `updated == original` decides whether the text held anything to rewrite. */
  lemma UnchangedIffClean(isWord: char -> bool, rules: seq<Rule>, t: string)
    requires Disciplined(isWord, rules) && Proper(rules)
    ensures Apply(isWord, rules, t) == t <==> Clean(isWord, rules, t)
  {
    OutputIsClean(isWord, rules, t);
    if Clean(isWord, rules, t) { CleanIsKept(isWord, rules, t, |rules|); }
  }

  /** A second application does nothing. */
  lemma Idempotent(isWord: char -> bool, rules: seq<Rule>, t: string)
    requires Disciplined(isWord, rules) && Proper(rules)
    ensures Apply(isWord, rules, Apply(isWord, rules, t)) == Apply(isWord, rules, t)
  {
    OutputIsClean(isWord, rules, t);
    UnchangedIffClean(isWord, rules, Apply(isWord, rules, t));
  }

  /** The chain brings in no characters but those of the replacements. */
  lemma {:induction false} AfterChars(isWord: char -> bool, rules: seq<Rule>, t: string, j: nat, c: char)
    requires Proper(rules) && j <= |rules| && c in After(isWord, rules, t, j)
    ensures c in t || exists i | 0 <= i < |rules| :: c in rules[i].rep
  {
    if j > 0 && c !in rules[j - 1].rep {
      var text := After(isWord, rules, t, j - 1);
      match rules[j - 1] {
        case Plain(pat, rep) => ReplaceChars(text, pat, rep, c);
        case Ticker(pat, rep) => SubChars(isWord, text, pat, rep, 0, c);
      }
      AfterChars(isWord, rules, t, j - 1, c);
    }
  }

  // --- The measure ---

  /** How often an entry rewrites in `t`. */
  function Hits(isWord: char -> bool, rule: Rule, t: string): nat
    requires rule.pat != ""
  {
    match rule
    case Plain(pat, _) => Matches(t, pat)
    case Ticker(pat, _) => WordMatches(isWord, t, pat, 0)
  }

  /** The v's an entry inserts into `t`. */
  function Added(isWord: char -> bool, rule: Rule, t: string): nat
    requires rule.pat != ""
  {
    Hits(isWord, rule, t) * VCount(rule.rep)
  }

  /** The v's inserted by the first `j` entries. */
  function Inserted(isWord: char -> bool, rules: seq<Rule>, t: string, j: nat): nat
    requires Proper(rules) && j <= |rules|
  {
    if j == 0 then 0
    else
      Inserted(isWord, rules, t, j - 1) + Added(isWord, rules[j - 1], After(isWord, rules, t, j - 1))
  }

  lemma StepVCount(isWord: char -> bool, rule: Rule, t: string)
    requires rule.pat != "" && VFree(rule.pat) && VCount(rule.rep) > 0
    ensures VCount(Step(isWord, rule, t)) == VCount(t) + Added(isWord, rule, t)
    ensures Added(isWord, rule, t) == 0 ==> Step(isWord, rule, t) == t
  {
    match rule
    case Plain(pat, rep) =>
      ReplaceVCount(t, pat, rep);
      if Matches(t, pat) == 0 { NoMatches(t, pat, rep); }
    case Ticker(pat, rep) =>
      SubVCountFrom(isWord, t, pat, rep, 0);
      assert t[0..] == t;
      if WordMatches(isWord, t, pat, 0) == 0 { NoWordMatches(isWord, t, pat, rep, 0); }
  }

  lemma NoMatches(t: string, pat: string, rep: string)
    requires pat != "" && Matches(t, pat) == 0
    ensures Replace(t, pat, rep) == t
  {
    SplitJoin(t, pat);
    ReplaceIsSplitThenJoin(t, pat, rep);
  }

  lemma {:induction false} NoWordMatches(isWord: char -> bool, t: string, word: string, rep: string, k: nat)
    requires word != "" && k <= |t| && WordMatches(isWord, t, word, k) == 0
    ensures SubFrom(isWord, t, word, rep, k) == t[k..]
    decreases |t| - k
  {
    if k < |t| { NoWordMatches(isWord, t, word, rep, k + 1); }
  }

  lemma EntryVCount(isWord: char -> bool, rule: Rule)
    requires Spares(isWord, rule, rule)
    ensures VFree(rule.pat) && VCount(rule.rep) > 0
  {
    var k :| 0 <= k < |rule.rep| && IsV(rule.rep[k]);
    VCountPositive(rule.rep, k);
  }

  lemma {:induction false} VCountAfter(isWord: char -> bool, rules: seq<Rule>, t: string, j: nat)
    requires Proper(rules) && j <= |rules|
    requires forall i | 0 <= i < |rules| :: VFree(rules[i].pat) && VCount(rules[i].rep) > 0
    ensures VCount(After(isWord, rules, t, j)) == VCount(t) + Inserted(isWord, rules, t, j)
    ensures Inserted(isWord, rules, t, j) == 0 ==> After(isWord, rules, t, j) == t
  {
    if j > 0 {
      VCountAfter(isWord, rules, t, j - 1);
      StepVCount(isWord, rules[j - 1], After(isWord, rules, t, j - 1));
    }
  }

  /** The v's are accounted for: the output has those of the input plus those of each inserted
      replacement, so the count never falls, and it stays the same only for an unchanged text. */
  lemma VCountGrows(isWord: char -> bool, rules: seq<Rule>, t: string)
    requires Disciplined(isWord, rules) && Proper(rules)
    ensures VCount(Apply(isWord, rules, t)) == VCount(t) + Inserted(isWord, rules, t, |rules|)
    ensures VCount(Apply(isWord, rules, t)) == VCount(t) <==> Apply(isWord, rules, t) == t
  {
    forall i | 0 <= i < |rules| ensures VFree(rules[i].pat) && VCount(rules[i].rep) > 0 {
      EntryVCount(isWord, rules[i]);
    }
    VCountAfter(isWord, rules, t, |rules|);
  }
}
