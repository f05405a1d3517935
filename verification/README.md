# Velkavo: the rebranding script, the translation header generator, and compile-time powers

Three programs of the repository, modelled and proved in Dafny.

**The rebranding script** (`scripts/rebrand.py`) applies an ordered list of 36 global
substitutions to a text: 35 plain strings and one `\bXMR\b` pattern. The passes can
interact, because one pass may put together what another looks for across the seam
between inserted and kept text. `Substitution.dfy` and `WholeWord.dfy` model `str.replace`
and `re.sub` as leftmost, non-overlapping scans. `Chain.dfy` proves what any list achieves
whose entries spare each other, `Rules.dfy` holds the script's list and shows that it is
such a list, `Rebrand.dfy` draws the consequences for it, and `Entries.dfy` says what each
search string becomes in the end. `DaemonName.dfy` and `ProjectPhrase.dfy`, on the grounds
of `Progress.dfy`, determine when the name of the daemon and the name of the project end up
half rewritten. `Paths.dfy`, `Walk.dfy` and `RebrandRun.dfy` model the pruned directory
walk, the rewriting of files in place (also of files that several paths lead to), and the
report. `Places.dfy` says which files of a tree the walk comes by and in which order, and
`ScriptRun.dfy` what a whole run of the script does to the disk and reports, in terms of
the tree, the texts and the script's own strings.

The main results: no later step brings back what an earlier entry looks for; nothing that
any entry looks for is left in the output; a second application does nothing; the output
differs from the input exactly when the input held something to rewrite; the count of `v`
and `V` is accounted for step by step; a whole run rewrites exactly the files that a
selected path leads to and that have something to rewrite, and is a fixpoint; and the pruned
walk rewrites the same files as one that enters every directory.

The script's comment promises that the order of the list avoids partial matches. That
holds for `velkavod` and `VELKAVOD`. It does not hold for `Velkavod`, which the phrase
`The Monero Project` followed by a `d` turns into; `DaemonName.HalfRewrittenIff` states
exactly when each spelling is in the output. Nor does it hold for the phrase itself, which
is to become `Velkavo` and never `The Velkavo Project`: once rewritten, the text
`The The Monero Project Project` contains the latter. `ProjectPhrase.ProjectPhraseIff`
shows that this is the only way, apart from texts that contain it to begin with.

**The header generator** (`translations/generate_translations_header.c`) prints files as
C++ string literals, a table of pointers with a sentinel, and a lookup function.
`Header.dfy` models the program that prints, `CxxReader.dfy` a reader for the C++ it
prints (escape sequences after section 5.13.3 of C++17, adjacent literals after section
5.13.5). `Reading.dfy` and `RoundTrip.dfy` prove that reading undoes printing, and
`Lookup.dfy` carries this on to name lookup, the table and the search. What the fixed text
declares is read from it as well: `CxxProgram.dfy` reads the struct with its members in
order and the search function from tokens and defines what a call of the function does,
`Lexing.dfy`, `Parsing.dfy` and `Printed.dfy` do so for the text that the generator prints,
and `Search.dfy` proves that the function finds what its callers expect. Names are printed
as they are, and a file without any byte leaves a literal open, so the header reads back as
what was meant exactly when every name is free of `"`, `\`, line ends and NUL and no file is
empty; both directions are proved. `Misreading.dfy` proves the same condition for the
compiled table: whatever else a name makes of the text, the table that the program ends up
with is then not the one that the files call for. The comment at the head of the generator says that it
writes to standard output; the code writes `translation_files.h`, and the model follows
the code.

**Compile-time powers** (`src/common/powerof.h`): `PowerOf.dfy` shows that wrapping at
every step is wrapping once, and when the result is 0.

Parameters instead of code that is not part of the model: which characters are word
characters (all ASCII letters at least), case folding, the text codec (what is written
reads back), which file a path leads to, and which files cannot be written. Long fixed strings are fields of a record
(`Pieces`, `Stems`) or of a list of rules; the theorems hold for every such value with the
stated properties, and `Rules.ListIsDisciplined`, `RebrandRun.TheScriptIsSound`,
`Lookup.LayoutIsReadable`, `Printed.PrintedUnit` and `Misreading.PiecesAreUnmistakable` show
that the repository's own values have them.

## Model

| member | source | states |
|---|---|---|
| Substitution.ReplaceReference | scripts/rebrand.py:116 | whatever gaps join back to the text without hiding an earlier match, `str.replace` keeps exactly these gaps and puts the replacement between them |
| Substitution.SplitIsLeftmost | scripts/rebrand.py:116 | `Split` finds such gaps for every text |
| Substitution.SplitJoin | scripts/rebrand.py:116 | joining the gaps with the search string gives the text back |
| Substitution.ReplaceIsSplitThenJoin | scripts/rebrand.py:116 | `t.replace(a, b)` is `b.join(t.split(a))` |
| Substitution.ReplaceAbsent | scripts/rebrand.py:116 | a text without the search string is left alone |
| Substitution.NotReborn | scripts/rebrand.py:116 | a substitution creates no occurrence of a v-free string, not even across a seam, unless the replacement can supply its beginning |
| Substitution.ReplaceVCount | scripts/rebrand.py:116 | a substitution adds the replacement's v's once a match and removes none |
| Substitution.ReplaceKeeps | scripts/rebrand.py:116 | an occurrence survives that no match can overlap but in what search string and replacement share |
| Substitution.NotCompleted | scripts/rebrand.py:116 | a string whose beginning the replacement supplies is created only where a match is followed by its last character |
| Substitution.CompletedAt | scripts/rebrand.py:116 | and there it is created, if matches cannot overlap |
| Substitution.NotEnclosed | scripts/rebrand.py:116 | a string that the replacement fits into at one place only is created only where the search string stood in that place of it |
| Substitution.EnclosedAt | scripts/rebrand.py:116 | and there it is created, if no other match can reach into what surrounds it |
| WholeWord.MatchAtIff | scripts/rebrand.py:85-113 | `\bword\b` matches exactly where the word stands with no word character before or after it |
| WholeWord.SubReference | scripts/rebrand.py:113 | whatever gaps surround the whole-word matches, `re.sub` keeps exactly these gaps and puts the replacement between them |
| WholeWord.GapsAreText | scripts/rebrand.py:113 | joined with the word, such gaps are the text |
| WholeWord.FindGaps | scripts/rebrand.py:113 | every text has such gaps |
| WholeWord.SubAbsent | scripts/rebrand.py:113 | `re.sub` leaves a text without a whole-word match alone |
| WholeWord.NoWordLeft | scripts/rebrand.py:85-113 | one pass leaves no whole-word match, with boundaries judged in the new text |
| WholeWord.SubNotReborn | scripts/rebrand.py:85-113 | the ticker substitution creates no occurrence of a v-free string that cannot start in the replacement |
| WholeWord.SubVCountFrom | scripts/rebrand.py:113 | it adds the replacement's v's once a match and removes none |
| WholeWord.SubKeepsApart | scripts/rebrand.py:113 | an occurrence that the word cannot overlap survives |
| WholeWord.SubCreatesNoneAt | scripts/rebrand.py:113 | a string that meets the replacement in at most its last character is created nowhere, because no word character follows a match |
| Chain.ApplyReplacements | scripts/rebrand.py:109-117 | the loop computes the chain; for a disciplined list its result is free of what any entry looks for, and equals the input exactly when the input was |
| Chain.StepRemoves | scripts/rebrand.py:109-117 | each pass removes all that its entry looks for |
| Chain.StepSpares | scripts/rebrand.py:109-117 | a pass does not bring back what an entry it spares looks for |
| Chain.OutputIsClean | scripts/rebrand.py:109-117 | nothing any entry of a disciplined list looks for is left |
| Chain.UnchangedIffClean | scripts/rebrand.py:129-131 | the output equals the input exactly when the input held nothing to rewrite |
| Chain.Idempotent | scripts/rebrand.py:109-117 | a second application does nothing |
| Chain.VCountGrows | scripts/rebrand.py:109-117 | the v's of the output are those of the input plus those inserted at each step; equal counts only for an unchanged text |
| Chain.AfterChars | scripts/rebrand.py:109-117 | every character of the output stems from the input or from a replacement |
| Rules.ListIsDisciplined | scripts/rebrand.py:37-86 | every entry of the script's list spares itself and all entries before it |
| Rules.AllHarmless | scripts/rebrand.py:37-86 | the facts about the 35 plain entries behind that |
| Rebrand.NoLaterStepRevives | scripts/rebrand.py:37-117 | for all i < j, a text free of what entry i looks for is still free of it after step j |
| Rebrand.EarlierStepCreates | scripts/rebrand.py:40-57 | a text without `monerod` that contains it after the first step |
| Rebrand.HasTickerIff | scripts/rebrand.py:85 | the pattern finds something exactly when `XMR` stands somewhere with no word character on either side |
| Rebrand.NothingIsLeft | scripts/rebrand.py:37-117 | the output contains none of the 35 plain search strings, and no `XMR` without a word character on either side |
| Rebrand.RebrandedTwice | scripts/rebrand.py:109-117 | `apply_replacements` is idempotent on every text |
| Rebrand.ChangedIffBranded | scripts/rebrand.py:109-131 | a text changes exactly when it contains a search string or a whole-word `XMR` |
| Rebrand.VsOnlyGrow | scripts/rebrand.py:37-117 | the count of v and V never falls and stays the same only for an unchanged text |
| Rebrand.RebrandText | scripts/rebrand.py:109-117 | `apply_replacements` with the script's list: nothing is left, and changed exactly when there was something |
| Entries.MostSpecificFirst | scripts/rebrand.py:35-82 | no search string contains an earlier one |
| Entries.EachBecomes | scripts/rebrand.py:37-117 | what each of the 35 search strings becomes in the end, between any texts that share no character with the list |
| Entries.TickerBecomes | scripts/rebrand.py:85-113 | the same for `XMR`, where no word character stands next to it |
| DaemonName.HalfRewrittenIff | scripts/rebrand.py:35-82 | each spelling of the half-rewritten daemon name is in the output exactly when it is in the input, except that `Velkavod` also stems from `The Monero Projectd` |
| DaemonName.HalfRewrittenExample | scripts/rebrand.py:35-82 | a text without `Velkavod` whose output contains it |
| ProjectPhrase.ProjectPhraseIff | scripts/rebrand.py:35-85 | `The Velkavo Project` is in the output exactly when the input contains it or `The The Monero Project Project` |
| ProjectPhrase.ProjectPhraseExample | scripts/rebrand.py:35-82 | a text without `The Velkavo Project` whose output contains it |
| Paths.Extension | scripts/rebrand.py:104 | the extension is a suffix with its only dot at its start |
| Paths.ExtensionOf | scripts/rebrand.py:104 | it is what follows the last dot, unless only dots precede that |
| Paths.BasenameOfJoin | scripts/rebrand.py:103-158 | the basename of a listed file is the name it was listed by |
| Paths.DescendIs | scripts/rebrand.py:15-158 | joined names make the path with one separator between them |
| Paths.SkippedIff | scripts/rebrand.py:14-101 | a path below the root is skipped exactly when its first name is `build` or `.git`, or its first names are `scripts`, `rebrand.py` or `utils`, `gpg_keys`, `moneromooo.asc`; so not for `.github` |
| Paths.ShouldProcessIff | scripts/rebrand.py:13-107 | a path below the root is processed exactly when it is not skipped and its last name is one of the three fixed ones or, case aside, has one of the 30 extensions |
| Paths.SkippedBelow | scripts/rebrand.py:97-101 | whatever is below a skipped path is skipped |
| Paths.Relative | scripts/rebrand.py:163 | the reported path, joined to the root, is the path of the file |
| Places.Tour | scripts/rebrand.py:146-158 | the walk comes by exactly the files of the tree outside pruned directories, each under the path that its names make, the files of a directory before what is below it, one subdirectory after the other |
| Places.VisitedIff | scripts/rebrand.py:146-158 | a path is visited exactly when it leads through listed subdirectories, none of them pruned, to a listed file |
| Places.FilesFirst | scripts/rebrand.py:146-158 | in that order, a directory's own files come before all that is below it |
| Walk.ProcessedIsDone | scripts/rebrand.py:119-140 | a processed file would not be rewritten again |
| Walk.PruningRefines | scripts/rebrand.py:146-165 | pruning changes no file, no content and no report; only the files below pruned directories go uncounted |
| Walk.SameChosen | scripts/rebrand.py:146-159 | both walks come by the same eligible files in the same order |
| Walk.PrunedCount | scripts/rebrand.py:148-155 | the walks differ by exactly the files below the directories not entered |
| Walk.SecondRunIsIdle | scripts/rebrand.py:142-168 | a second run right after the first rewrites nothing and reports nothing changed |
| Walk.DiskAfter | scripts/rebrand.py:119-165 | every file that some visited, eligible path leads to, by links or not, is processed once and as if alone; all else stays as it was |
| Walk.FileEffect | scripts/rebrand.py:88-140 | a file is rewritten exactly when some visited, eligible path leads to it and it is without a NUL in its first 8192 bytes, writable, and with something to rewrite |
| Walk.StillDirty | scripts/rebrand.py:119-165 | when its turn comes, a file is still to be rewritten exactly if it was before the run and no earlier path led to it |
| Walk.ReportIsExact | scripts/rebrand.py:157-165 | the report lists, in the order of the walk, exactly the paths that are the first to lead to a file to be rewritten |
| Walk.ReportedOnce | scripts/rebrand.py:157-165 | each file that is rewritten is reported under exactly one path, whatever links lead to it |
| Walk.ReportWithoutLinks | scripts/rebrand.py:157-165 | where no two paths lead to one file, every path to a file to be rewritten is reported |
| Walk.VisitedDistinct | scripts/rebrand.py:146-158 | no path is visited twice |
| RebrandRun.Rebrander.constructor | scripts/rebrand.py:142-144 | a run starts with an empty report |
| RebrandRun.Rebrander.ProcessFile | scripts/rebrand.py:119-140 | updates the one file, or nothing, and says which |
| RebrandRun.Rebrander.VisitFiles | scripts/rebrand.py:157-165 | handles the files of a directory in order |
| RebrandRun.Rebrander.Prune | scripts/rebrand.py:148-155 | keeps exactly the directories not in the skip list, in order |
| RebrandRun.Rebrander.VisitDir | scripts/rebrand.py:146-165 | the top-down walk has the effect of handling the visited files one by one |
| RebrandRun.Rebrander.RunOnce | scripts/rebrand.py:142-168 | a run of `main` from the root |
| RebrandRun.TheScriptIsSound | scripts/rebrand.py:13-107 | the script's own list and selection meet what the theorems about runs ask for |
| RebrandRun.RunTheorem | scripts/rebrand.py:142-168 | on any tree, the script's second run is idle and its pruned walk refines the plain one |
| ScriptRun.ChoiceIff | scripts/rebrand.py:97-160 | the script processes a file of the tree exactly when its names are selected, and no pruning hides such a file |
| ScriptRun.ScriptEffect | scripts/rebrand.py:88-168 | after a run, a file holds its rebranded text exactly when a selected path leads to it, none of its first 8192 bytes is NUL, it can be written, and its text holds a search string or a whole-word `XMR`; otherwise it is as before |
| ScriptRun.ScriptReport | scripts/rebrand.py:157-165 | the run reports, in the order of the walk and by their names below the root, exactly the selected places that are the first to lead to such a file |
| ScriptRun.ScriptSkips | scripts/rebrand.py:157-167 | it counts as skipped exactly the files outside skipped directories that are not selected |
| Header.Output.PrintData | translations/generate_translations_header.c:56-65 | the byte loop prints the literals of the file's pieces of 16 bytes and returns the count |
| Header.Output.PrintByte | translations/generate_translations_header.c:57-63 | one turn of the loop, with a new literal every 16 bytes |
| Header.Output.PrintFile | translations/generate_translations_header.c:54-65 | the two declarations of a file |
| Header.Output.PrintTable | translations/generate_translations_header.c:70-82 | the table with its sentinel, and the end of the header |
| Header.Output.Generate | translations/generate_translations_header.c:37-87 | prints the whole header, or stops before the first file that cannot be opened |
| Header.NextByte | translations/generate_translations_header.c:56-64 | byte by byte, the loop's text is that of the pieces |
| Reading.ReadsHexBytes | translations/generate_translations_header.c:63 | bytes of any value and any neighbours read back under greedy escapes |
| Reading.ReadsChunks | translations/generate_translations_header.c:56-65 | each piece is read as one literal, and the literals are adjacent |
| Reading.ChunksShape | translations/generate_translations_header.c:56-65 | ceil(n/16) pieces, all of 16 bytes but the last of 1 to 16 |
| Reading.ChunksTogether | translations/generate_translations_header.c:56-65 | together the pieces are the file |
| Reading.DecDigits | translations/generate_translations_header.c:54-76 | printed numbers read back, without leading zeros |
| Reading.ReadsVerbatimLiteral | translations/generate_translations_header.c:54 | a name free of `"`, `\` and line ends reads back as a literal |
| Reading.LiteralsShorter | translations/generate_translations_header.c:54 | what a printed name reads as is never longer than the name, and as long only if the name is free of `"`, `\` and line ends |
| RoundTrip.DataReads | translations/generate_translations_header.c:55-65 | the data declaration of a file with any byte reads back as its bytes, by literals and count |
| RoundTrip.EmptyDataFails | translations/generate_translations_header.c:55-65 | that of an empty file cannot be read |
| RoundTrip.PlainNameReads | translations/generate_translations_header.c:54 | the declaration of a plain name, free of NUL as well, reads back as the name |
| RoundTrip.OnlyPlainNameReads | translations/generate_translations_header.c:54 | only a plain name reads back |
| RoundTrip.DeclsRead | translations/generate_translations_header.c:49-68 | all declarations read back, in order |
| RoundTrip.RowsRead | translations/generate_translations_header.c:73-79 | the rows of the table read back, the sentinel last |
| RoundTrip.HeaderIff | translations/generate_translations_header.c:45-82 | the header reads back as meant exactly when all names are plain and no file is empty |
| Lookup.IdInjective | translations/generate_translations_header.c:54-76 | numbered names are distinct for distinct numbers |
| Lookup.BindsMeant | translations/generate_translations_header.c:49-68 | no constant is declared twice and each has the value printed for it |
| Lookup.ResolvesMeant | translations/generate_translations_header.c:75-78 | every row leads to the name and the data of its own file |
| Lookup.LoadsTable | translations/generate_translations_header.c:45-82 | the compiled header has one row for each file, its name in the member `name` and its contents in the member `data`, then the sentinel |
| Search.CallAnswers | translations/generate_translations_header.c:25-35 | a call of the printed function never leaves the table or follows a null pointer, gives the data of the first row of the name, and leaves the caller's string alone without one |
| Search.FindEmbeddedFile | translations/generate_translations_header.c:26-35 | the search as a loop does what the printed function does |
| Parsing.TableParses | translations/generate_translations_header.c:70-73 | the printed struct has the members `name` and `data`, in this order |
| Parsing.FunctionParses | translations/generate_translations_header.c:25-35 | the printed function is that search |
| Printed.PrintedUnit | translations/generate_translations_header.c:25-82 | the generator's fixed text declares this table and this function, inside its guard |
| Lookup.AskFinds | translations/generate_translations_header.c:25-82 | compiling the header of printable files and calling its function gives the contents of the first file of the name, told apart from any other bytes, or nothing |
| Lookup.LookUp | translations/generate_translations_header.c:25-82 | the same for the search as a loop |
| Lookup.GenerateAndFind | translations/generate_translations_header.c:25-87 | from the files on the disk through the printed header to an answer that only the bytes of that file could give |
| Lookup.GeneratedFinds | translations/generate_translations_header.c:25-82 | compiling and calling, for the generator's own fixed text |
| Lookup.GeneratedHeaderIff | translations/generate_translations_header.c:25-82 | reading back as meant, under the same condition, for the generator's own fixed text |
| Misreading.TableIsFound | translations/generate_translations_header.c:49-82 | however the declarations were read, what then reads as the table is the printed table |
| Misreading.HeldIsPrintable | translations/generate_translations_header.c:49-68 | only of printable files do the constants have the values that were meant |
| Misreading.LoadIff | translations/generate_translations_header.c:45-82 | the header compiles to the table that the files call for exactly when all names are plain and no file is empty |
| Misreading.GeneratedLoadIff | translations/generate_translations_header.c:25-82 | the same condition for the generator's own fixed text |
| Lookup.LayoutIsReadable | translations/generate_translations_header.c:25-82 | the generator's fixed text meets what the theorems ask for |
| PowerOf.ValueIsPow | src/common/powerof.h:7-25 | the wrapped recursion computes a^b modulo 2^64 |
| PowerOf.ValueAdd | src/common/powerof.h:7-25 | P(a, m+n) = P(a, m) P(a, n) modulo 2^64 |
| PowerOf.ExactIffFits | src/common/powerof.h:7-25 | the value is a^b exactly when that fits 64 bits |
| PowerOf.OddStaysOdd | src/common/powerof.h:7-25 | for an odd base every value is odd |
| PowerOf.Factors | src/common/powerof.h:7-25 | every positive base is 2 to the number of its factors 2, times an odd number |
| PowerOf.ZeroIff | src/common/powerof.h:7-25 | for every base a and exponent b: the value is 0 exactly when a has k factors 2 with kb at least 64, or a is 0 and b is not |
| PowerOf.EvenVanishes | src/common/powerof.h:7-25 | for an even base every value from b = 64 on is 0 |

## Left out

- Failures in the middle of reading or writing a file (a write that stops half way, a file that vanishes between two reads) and the printed messages of the script.
- Links whose target changes during a run, and a directory tree that changes during a run. A link to a directory, and a directory that cannot be listed, is an empty directory of the model, as `os.walk` treats it.
- The UTF-8 decoder, universal newlines, Unicode case folding and Unicode word characters: they are parameters with the stated properties.
- Output errors of the generator, files of more than 2147483647 bytes and that many arguments: the counters are C `int`s, so these are preconditions of `Header.Output.Generate`.
- C++ beyond the printed subset: the reader knows simple, octal and hexadecimal escapes, the declarations, the table, the statements and the expressions that the generator prints; universal character names, raw literals, other comments and the rest of the language are not read. Two non-null pointers are not compared.
- Compilers' limits on template recursion depth.
- The constants, the consensus and wallet code, the translations and the build files of the repository.
