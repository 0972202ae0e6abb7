# NSEchatbot statement guard, modelled in Dafny

NSEchatbot is a Streamlit chatbot that turns a banking user's question into SQL with
a local language model and runs it against the bank's database. Each user logs in
under a role, and the role-access sheet decides which tables and columns that role
may see. This project models the text-level guard around the model's output:

- **The role-access sheet** (`create_role_access.py`). `build_access_matrix` writes
  the sheet. `authenticate` gives the demo login. `get_allowed_tables` and
  `get_allowed_columns` read a role's row.
- **Reading the generated statement** (`enhanced_llm_interface.py`, module `Llm`).
  `clean_sql_response` rewrites the text with regular expressions.
  `validate_sql_syntax` checks it. `generate_simple_sql` is the fallback, and
  `generate_sql_llm` decides which of them answers. The compact table listing of
  the prompt is also modelled.
- **The retriever** (`enhanced_embedding.py`, module `Embedding`). `SchemaEmbedder`
  caches the texts it embeds and dispatches `search`. Its lexical fallback,
  `_basic_search`, ranks data-dictionary rows by how many question words they
  contain.
- **The guard** (`enhanced_query_agent.py`, module `Agent`).
  `filter_sql_to_allowed` is the coarse check. `validate_sql` extracts tables and
  SELECT items, refuses or auto-corrects them with `difflib`, and checks the
  statement's shape. `QueryAgent.answer_query` chooses a statement, validates it
  at most twice and runs it only once it is valid.
- **The application** (`enhanced_app.py`, module `App`). It covers the login
  against the sheet and the allowed-column map handed to the agent. It also covers
  follow-up detection and the lookup of the previous answered turn, the history a
  submission appends to, and the sidebar.

Supporting modules:

- `Text`: Python string operations, with case folding limited to ASCII.
- `Patterns`: the regular expressions of the core, as hand-written scanners plus a
  generic `re.sub`.
- `Fuzzy`: `difflib.get_close_matches(word, cands, n=1, cutoff=0.5)`, over a
  match-count parameter.
- `Dict`: an insertion-ordered Python dictionary.
- `Schema`: data-dictionary rows, grants and the role-access frame.
- `Policy`: the sheet reader. `enhanced_app.py` and `create_role_access.py` carry
  identical copies of it, so it is defined once.

Where the source loops, the model has a method with the loop and its invariants.
The method is proved equal to a specification function, and the properties are
lemmas about that function. Examples: `Agent.ValidateSql` against
`Agent.Validation`, `Roles.BuildAccessMatrix` against `Roles.IsAccessMatrix`, and
`Embedding.SchemaEmbedder.BasicSearch` against `Embedding.BasicHits`. The chat
session's history is a class field that `App.Session.Submit` appends to. A flag of
`App.Turn` and `App.Session.Submit` selects `answer_query` as written
(`Agent.AnswerQueryAsWritten`) or with the first row of "## Findings" corrected
(`Agent.AnswerQuery`).

Parameters stand for the code this project cannot see:

- the language model's reply (`Llm.Reply`);
- `difflib`'s match count (`Fuzzy.MatchCount`);
- the regular-expression engine, for patterns built from data (`Agent.RegexSub`);
- the database (`Agent.Executor`);
- the embedding model and the hits of its semantic search.

## Model

| member | source | states |
|---|---|---|
| `Agent.FilterSqlToAllowed` | enhanced_query_agent.py:7-34 | answers true exactly when there is an allowed table and the lowered statement mentions one of them, or contains both `select` and `from`; the column grants never change the answer |
| `Agent.NothingAdmissibleWithoutTables` | enhanced_query_agent.py:26-34 | with no allowed table, no statement is admissible |
| `Agent.UnknownTableMessage` | enhanced_query_agent.py:131 | the unknown-table message is a refusal (it opens with the refusal prefix) |
| `Agent.UnknownColumnMessage` | enhanced_query_agent.py:143 | the unknown-column message is a refusal |
| `Agent.Norms` | enhanced_query_agent.py:79-80 | one normal form (lowered, backticks removed, stripped) per name, in order |
| `Agent.Unknown` | enhanced_query_agent.py:83 | a name is unknown exactly when it is mentioned and not allowed |
| `Agent.TableSuggestion` | enhanced_query_agent.py:86-94 | a correction, when there is one, is an allowed table in its original spelling |
| `Agent.Suggestions` | enhanced_query_agent.py:85-94 | one suggestion per unknown table |
| `Agent.SuggestionAt` | enhanced_query_agent.py:85-94 | the k-th suggestion is the one for the k-th unknown table |
| `Agent.ItemsUnquoted` | enhanced_query_agent.py:105-109 | each SELECT item is one comma piece without backticks, and a matched SELECT list gives at least one item |
| `Agent.MainTable` | enhanced_query_agent.py:110-113 | the main table is an allowed table whose normal form is the first extracted name, and the first such |
| `Agent.IndexFirstAllowed` | enhanced_query_agent.py:112-129 | the index lookup of line 112 and the first-match loop of lines 126-129 find the same table |
| `Agent.FirstAllowed` | enhanced_query_agent.py:125-129 | finds an allowed table whose normal form is the table part, or reports that none has it |
| `Agent.CheckAgainst` | enhanced_query_agent.py:132-143 | a column passes exactly when its grant admits it; a correction keeps the table and picks a granted column; the statement is refused exactly when the grant does not admit the column and difflib finds nothing |
| `Agent.CheckQualified` | enhanced_query_agent.py:118-143 | a `table.column` item passes exactly when the table part names a non-empty allowed table whose grant admits the column; an unknown table part is refused, never corrected |
| `Agent.CheckIn` | enhanced_query_agent.py:130-143 | the same, once the table part has been looked up |
| `Agent.CheckBare` | enhanced_query_agent.py:144-159 | a bare item passes exactly when it is `*`, when there is no main table, or when the main table's grant admits it lowered; a correction names a granted column of the main table |
| `Agent.CheckColumn` | enhanced_query_agent.py:115-159 | one SELECT item passes exactly when it is admitted; a qualified item with an unknown table part is refused with that table's message; every rejection is a refusal |
| `Agent.Structural` | enhanced_query_agent.py:166-176 | valid exactly when the parentheses balance, a statement that starts with `select` contains `from`, and there is no bracket or brace |
| `Agent.Validation` | enhanced_query_agent.py:48-176 | an empty statement gives `Empty SQL query`; a statement containing `interval` gives the INTERVAL message |
| `Agent.ScanKeeps` | enhanced_query_agent.py:114-159 | the column scan never drops a recorded correction |
| `Agent.ScanClean` | enhanced_query_agent.py:114-159 | the scan ends with no correction exactly when every item is admitted |
| `Agent.ScanStops` | enhanced_query_agent.py:115-159 | a rejected item stops the scan, whatever was corrected before it |
| `Agent.ScanStopRefuses` | enhanced_query_agent.py:130-159 | a stopped scan reports a refusal |
| `Agent.NoUnknownIff` | enhanced_query_agent.py:78-84 | no table is unknown exactly when every extracted table is allowed |
| `Agent.AfterScanPasses` | enhanced_query_agent.py:160-176 | after the scan, the statement passes exactly when nothing was corrected or rejected and its shape is right |
| `Agent.ColumnStagePasses` | enhanced_query_agent.py:104-176 | once the tables are allowed, the column stage passes exactly when every item is admitted and the shape is right |
| `Agent.ValidationPasses` | enhanced_query_agent.py:48-176 | `validate_sql` answers `(True, "SQL validation passed.")` exactly when the statement passes every check; neither difflib nor the regex engine affects this |
| `Agent.SystemQueryBypasses` | enhanced_query_agent.py:62-72 | a statement naming a system table or pragma is let through with no table or column check |
| `Agent.NoTableRefused` | enhanced_query_agent.py:102-103 | a statement with no table after FROM, JOIN, UPDATE or INTO is refused |
| `Agent.UnmatchedTableRefused` | enhanced_query_agent.py:84-97 | one unknown table without a close match makes the statement invalid, and the refusal lists the suggestions for all unknown tables |
| `Agent.NormNoParen` | enhanced_query_agent.py:79-80 | normalising never introduces a `(` |
| `Agent.CorrectionNoteMatches` | enhanced_query_agent.py:92-96 | an auto-correction note never reads as `(no close match)` when neither name holds a `(` |
| `Agent.SingleParenMisses` | enhanced_query_agent.py:96 | a text whose only `(` is followed by another character than the pattern's second one does not contain the pattern |
| `Agent.UnknownNoParen` | enhanced_query_agent.py:77-83 | an unknown table name holds no `(` |
| `Agent.AllUnknownTablesCorrected` | enhanced_query_agent.py:84-101 | provided no allowed table name holds `(`: when every unknown table has a close match, the result is `corrected`, with each unknown name replaced as a whole word by its allowed table |
| `Agent.CorrectionStep` | enhanced_query_agent.py:91 | storing one more correction keeps every stored one an unknown-to-allowed pair |
| `Agent.TableCorrectionsAllowed` | enhanced_query_agent.py:85-91 | the table corrections map unknown tables to allowed tables only |
| `Agent.UnknownTablesIgnoreGrants` | enhanced_query_agent.py:83-101 | while some table is unknown, the column grants and the regex engine play no part |
| `Agent.RejectedItemRefused` | enhanced_query_agent.py:130-159 | once the tables are allowed, an item that can be neither admitted nor corrected makes the statement invalid with a refusal |
| `Agent.RefusalIsNotDateMessage` | enhanced_query_agent.py:59-60 | a refusal is never the date-arithmetic message |
| `Agent.AfterScanNotDateMessage` | enhanced_query_agent.py:160-176 | nor is any message after the scan |
| `Agent.UnknownTablesNotDateMessage` | enhanced_query_agent.py:96-101 | nor is the unknown-table refusal |
| `Agent.TableStageNotDateMessage` | enhanced_query_agent.py:77-103 | nor is any message of the table stage |
| `Agent.ColumnStageNotDateMessage` | enhanced_query_agent.py:104-176 | nor is any message of the column stage |
| `Agent.DateArithmeticUnreachable` | enhanced_query_agent.py:56-60 | `validate_sql` never gives the date-arithmetic message: its condition includes `interval`, which lines 56-57 already refuse |
| `Agent.Suggest` | enhanced_query_agent.py:87-94 | the loop body for one unknown table computes `TableSuggestion` |
| `Agent.CollectSuggestions` | enhanced_query_agent.py:85-94 | the suggestion loop computes the suggestions and the correction dictionary |
| `Agent.RewriteTables` | enhanced_query_agent.py:99-100 | the rewrite loop applies every table correction in dictionary order |
| `Agent.FindAllowedTable` | enhanced_query_agent.py:125-129 | the search loop finds `FirstAllowed` |
| `Agent.CheckItem` | enhanced_query_agent.py:116-159 | the loop body for one SELECT item computes `CheckColumn` |
| `Agent.ScanColumns` | enhanced_query_agent.py:114-159 | the item loop computes the scan, stopping at the first rejection |
| `Agent.RewriteColumns` | enhanced_query_agent.py:161-165 | the column rewrite loop; a pattern error leaves it as the exception does |
| `Agent.ValidateColumns` | enhanced_query_agent.py:104-176 | the column stage, step by step |
| `Agent.StructuralChecks` | enhanced_query_agent.py:166-176 | the structural checks, step by step |
| `Agent.ValidateTables` | enhanced_query_agent.py:74-103 | the table stage, step by step |
| `Agent.ValidateSql` | enhanced_query_agent.py:48-176 | `validate_sql` written with the source's loops computes `Validation` |
| `Agent.RewriteNeedsDot` | enhanced_query_agent.py:163-164 | both column patterns need a `.`, so for plain names they change nothing in a statement without one |
| `Agent.DotFreeUnchanged` | enhanced_query_agent.py:161-165 | the rewrite loop leaves such a statement unchanged |
| `Agent.CorrectionLeavesStatement` | enhanced_query_agent.py:144-165 | a statement without `.` whose bare items get plain corrections comes back `corrected` but unchanged |
| `Agent.NaturalResponse` | enhanced_query_agent.py:277-283 | the no-data reply exactly when there is no result or it is empty; otherwise the reply is the sentence of line 282 with the row count and the field count |
| `Agent.Chosen` | enhanced_query_agent.py:238-246 | the RAG statement when it is non-empty and admissible, else the full-schema one under the same test, else nothing |
| `Agent.Run` | enhanced_query_agent.py:267-275 | executing records one execution and answers with the statement |
| `Agent.Recheck` | enhanced_query_agent.py:254-260 | after a correction, only a valid corrected statement runs; as written, a second `corrected` raises the unpacking error |
| `Agent.Attempt` | enhanced_query_agent.py:248-275 | the first validation is of the chosen statement; there are at most two validations; a statement runs only after a `True` verdict on it; a raise comes from validation or, as written, from the unpacking |
| `Agent.Respond` | enhanced_query_agent.py:228-275 | as `Attempt`, plus: validation starts from the chosen statement, and with nothing chosen the answer is the not-allowed message with no step taken |
| `Agent.AnswerQuery` | enhanced_query_agent.py:219-275 | with the second correction reported as a failed validation, `answer_query` raises only when generation failed or validation raised, and runs only statements validation found valid |
| `Agent.AnswerQueryAsWritten` | enhanced_query_agent.py:219-275 | as written, `answer_query` raises only when generation failed, validation raised or the unpacking of line 255 failed, and runs only statements validation found valid |
| `Agent.AnswerQueryVersions` | enhanced_query_agent.py:249-260 | the two versions take the same steps and part only where the one as written raises the unpacking error, while the corrected one answers without a result |
| `Agent.DoubleCorrectionRaises` | enhanced_query_agent.py:249-260 | as written, a corrected statement that validation corrects again makes `answer_query` raise |
| `Agent.CorrectedTwice` | enhanced_query_agent.py:249-260 | on that path the answer is the unpacking error as written, and the failed-validation reply once corrected |
| `Agent.BareColumnCorrectionRaises` | enhanced_query_agent.py:144-165 | a misspelt bare column in a statement without `.` leads to that path |
| `Agent.ContextLines` | enhanced_query_agent.py:40-45 | one context line per row, in order |
| `Agent.FormatContextRows` | enhanced_query_agent.py:36-46 | the formatting loop joins the context lines with newlines |
| `Agent.ContextRoundTrip` | enhanced_query_agent.py:36-46 | split back at newlines, the context gives one line per row, naming its table and column |
| `Llm.Statement` | enhanced_llm_interface.py:16-19 | the statement after lines 17-19 holds a `;` only as its last character |
| `Llm.SelectAll` | enhanced_llm_interface.py:46 | the fallback statement ends with `;` |
| `Llm.Terminate` | enhanced_llm_interface.py:47-49 | the result ends with `;` and is the text, or the text plus `;` |
| `Llm.CleanSqlResponse` | enhanced_llm_interface.py:8-50 | `None` exactly for an empty input; a cleaned statement ends with `;`; the fallback raises IndexError only on an empty table list |
| `Llm.RewriteSemicolon` | enhanced_llm_interface.py:12-27 | after the rewrites, a `;` can only be the last character |
| `Llm.SpacedSemicolon` | enhanced_llm_interface.py:20-21 | collapsing whitespace keeps that |
| `Llm.ExcisedSemicolon` | enhanced_llm_interface.py:22-27 | so do the ILIKE and JOIN rewrites |
| `Llm.CleanSingleSemicolon` | enhanced_llm_interface.py:8-50 | outside the fallback, the cleaned statement has exactly one `;`, its last character |
| `Llm.TerminateSingle` | enhanced_llm_interface.py:47-49 | terminating text whose only `;` can be last leaves exactly one `;` |
| `Llm.CleanCollapsed` | enhanced_llm_interface.py:20-50 | outside the fallback, the only whitespace in the statement is single spaces |
| `Llm.TerminateCollapsed` | enhanced_llm_interface.py:47-49 | terminating keeps the whitespace collapsed |
| `Llm.CleanFallback` | enhanced_llm_interface.py:28-46 | a simple question whose SELECT names columns of two tables gives the full scan of the first allowed table |
| `Llm.CleanWithoutQuestion` | enhanced_llm_interface.py:28-50 | without a question the fallback never fires |
| `Llm.FirstBracket` | enhanced_llm_interface.py:75-78 | the reported character is a bracket or brace in the text |
| `Llm.CleanOfStatement` | enhanced_llm_interface.py:20-50 | a reply whose statement after lines 13-19 is clean comes out as that statement, terminated |
| `Llm.StagesFixed` | enhanced_llm_interface.py:16-27 | lines 17-27 leave a clean statement as it is |
| `Llm.UnfencedClean` | enhanced_llm_interface.py:13-15 | the fence rewrites leave a clean statement as it is |
| `Llm.CleanKeepsStatement` | enhanced_llm_interface.py:8-50 | with no question, a clean statement comes back as it is, with `;` appended when it has none |
| `Llm.FencedUnfenced` | enhanced_llm_interface.py:13-15 | a clean statement between a ```` ```sql ```` fence and a closing fence, with whitespace on either side, loses exactly the fences and that whitespace |
| `Llm.CleanFencedStatement` | enhanced_llm_interface.py:8-50 | such a fenced statement is cleaned into the statement, terminated |
| `Llm.ProseUnfenced` | enhanced_llm_interface.py:13-15 | prose before the keyword and a tail without backticks leave no fence to remove |
| `Llm.ProseStatement` | enhanced_llm_interface.py:13-19 | lines 13-19 keep exactly the statement between the prose and what follows its `;` |
| `Llm.CleanProseAround` | enhanced_llm_interface.py:8-50 | prose before a clean statement and text after its `;` go |
| `Llm.CleanWithoutIJ` | enhanced_llm_interface.py:20-27 | a collapsed statement with neither `i` nor `j` and a `;` at most last is clean |
| `Llm.CleaningFencedCase` | test_sql_generation.py:74 | the fenced test input cleans to `SELECT * FROM table;` |
| `Llm.CleaningProseCase` | test_sql_generation.py:77 | the test input with text before and after cleans to `SELECT * FROM table;` |
| `Llm.CleaningPlainCases` | test_sql_generation.py:80-83 | the bare test statement cleans to itself, and without its `;` it gains one |
| `Llm.IlikeAfterExcision` | enhanced_llm_interface.py:22-25 | `ILIKEJOIN b ON c = 1` has no whole-word ILIKE, yet lines 23-26 turn it into `ILIKE 1`, which opens with one: the ILIKE rewrite runs before the JOIN cuts that can expose an ILIKE |
| `Llm.IlikeMissed` | enhanced_llm_interface.py:23 | line 23 finds no whole-word ILIKE in `ILIKEJOIN b ON c = 1` |
| `Llm.DanglingJoinCut` | enhanced_llm_interface.py:25 | line 25 cuts `JOIN b ON c = ` out of it |
| `Llm.ValidateSqlSyntax` | enhanced_llm_interface.py:52-80 | valid exactly when the text is non-empty, opens with a statement keyword, balances parentheses, has FROM when it is a SELECT, and has no bracket or brace; the message is `Valid SQL syntax` exactly then |
| `Llm.GenerateSimpleSql` | enhanced_llm_interface.py:264-284 | nothing without tables; the average query over the second granted column for average words; otherwise the count query over the first table for count words; nothing otherwise |
| `Llm.GenerateSqlLlm` | enhanced_llm_interface.py:82-262 | it raises exactly on a connection failure; an answer is either syntax-valid or the simple fallback; a non-200 status, a missing `response` text, any other request failure, and a reply that cleans to nothing, raises in cleaning or fails the syntax check all give the fallback |
| `Llm.GenerateAcceptsValidReply` | enhanced_llm_interface.py:235-246 | a status-200 reply whose cleaned text passes the syntax check is used as it is |
| `Llm.ListingLines` | enhanced_llm_interface.py:91-94 | one listing line per allowed table |
| `Llm.TableListing` | enhanced_llm_interface.py:91-95 | the listing loop joins those lines with newlines |
| `Llm.ListingRoundTrip` | enhanced_llm_interface.py:91-95 | split back at newlines, the listing gives one line per table, opening with its name |
| `Patterns.JoinHead` | enhanced_llm_interface.py:25-26 | the shared head of the dangling-JOIN patterns stops at the first `=` after `ON` |
| `Patterns.EmptyJoinTail` | enhanced_llm_interface.py:25 | the tail of the empty-JOIN pattern ends after the `=` |
| `Patterns.NullJoinTail` | enhanced_llm_interface.py:26 | the tail of the NULL-JOIN pattern ends after the `=` |
| `Patterns.MatchAt` | enhanced_llm_interface.py:23-27 | a match starting at `i` ends after `i`, within the text |
| `Patterns.ReplaceNoMatch` | enhanced_llm_interface.py:23-27 | where a pattern matches nowhere, `re.sub` leaves the text as it is |
| `Patterns.ReplaceKeepsSemicolonLast` | enhanced_llm_interface.py:23-27 | a substitution whose replacement has no `;` keeps a `;` last, and creates none |
| `Patterns.CollapseFrom` | enhanced_llm_interface.py:21 | the result of collapsing from `i` on is collapsed, and opens with a space only where the input does |
| `Patterns.Collapse` | enhanced_llm_interface.py:21 | `re.sub(r'\s+', ' ', s)` leaves no whitespace other than single spaces |
| `Patterns.DropSqlFence` | enhanced_llm_interface.py:13 | an opening sql fence and the whitespace after it go; nothing else changes |
| `Patterns.DropFence` | enhanced_llm_interface.py:14 | an opening fence and the whitespace after it go; nothing else changes |
| `Patterns.FirstKeyword` | enhanced_llm_interface.py:17 | the first position where a statement keyword starts |
| `Patterns.DropLeadingProse` | enhanced_llm_interface.py:17 | the text before the first statement keyword goes, and the result opens with that keyword |
| `Patterns.DropAfterSemicolon` | enhanced_llm_interface.py:19 | everything after the first `;` goes, so a `;` can only be last |
| `Patterns.ReplaceUntil` | enhanced_llm_interface.py:15-27 | `re.sub` copies the text up to the first position where the pattern matches |
| `Patterns.IlikeFree` | enhanced_llm_interface.py:23 | without the letters `ilike`, the ILIKE pattern matches nowhere |
| `Patterns.JoinFree` | enhanced_llm_interface.py:25-26 | without the letters `join`, neither dangling-JOIN pattern matches |
| `Patterns.NoTrailingFence` | enhanced_llm_interface.py:15 | `\s*```$` matches only in a text ending with a fence, or with a fence and a newline |
| `Patterns.NoOpeningFence` | enhanced_llm_interface.py:13-14 | a text that does not open with a backtick passes both opening-fence rewrites unchanged |
| `Patterns.NoClosingFence` | enhanced_llm_interface.py:15 | a text ending in no backtick, nor in a backtick and a newline, passes the closing-fence rewrite unchanged |
| `Patterns.SqlFenceDropped` | enhanced_llm_interface.py:13-14 | an opening sql fence and the whitespace after it go, and the second rewrite then finds nothing |
| `Patterns.ClosingFenceDropped` | enhanced_llm_interface.py:15 | a closing fence and the whitespace before it go |
| `Patterns.ProseDropped` | enhanced_llm_interface.py:17 | the text before the first keyword goes and nothing else |
| `Patterns.SemicolonCut` | enhanced_llm_interface.py:19 | what follows a statement whose only `;` is last goes |
| `Patterns.CollapsedFixed` | enhanced_llm_interface.py:21 | collapsing whitespace leaves a collapsed text as it is |
| `Patterns.DropAfterSemicolonFixed` | enhanced_llm_interface.py:19 | the semicolon rewrite leaves a text whose `;` can only be last as it is |
| `Patterns.FirstKeywordAt` | enhanced_llm_interface.py:17 | the first keyword is the one at `k` when none starts earlier |
| `Patterns.TableRefAt` | enhanced_query_agent.py:77 | a table match at `i` captures a plain name and ends after `i` |
| `Patterns.TableRefs` | enhanced_query_agent.py:77-78 | every extracted table name is plain (letters, digits, `_`) |
| `Patterns.LazyEnd` | enhanced_query_agent.py:105 | the lazy SELECT group ends at the first `\s+FROM` |
| `Patterns.SelectItems` | enhanced_query_agent.py:107-109 | one item per comma piece, stripped, backticks removed |
| `Fuzzy.CloseMatch` | enhanced_query_agent.py:87 | no hit exactly when no candidate clears the cutoff; a hit is an accepted candidate that no other accepted candidate outranks |
| `Fuzzy.AcceptsIff` | enhanced_query_agent.py:137 | the 0.5 cutoff in integer terms: `4 * M >= |x| + |word|` |
| `Fuzzy.OutranksTransitive` | enhanced_query_agent.py:153 | the ranking order of candidates is transitive |
| `Fuzzy.BestStep` | enhanced_query_agent.py:87 | one scanning step keeps the best candidate so far |
| `Fuzzy.BestFromCorrect` | enhanced_query_agent.py:87 | the scan ends with the best candidate |
| `Text.Lower` | enhanced_query_agent.py:79 | `str.lower()`: same length, each character lowered (ASCII) |
| `Text.Strip` | enhanced_app.py:138 | `str.strip()`: the result neither opens nor ends with whitespace |
| `Text.RemoveChar` | enhanced_query_agent.py:79 | `replace('`', '')`: no backtick remains, and no character is added |
| `Text.SplitOn` | create_role_access.py:137 | `str.split(',')`: at least one piece, none holding the separator |
| `Text.SplitJoin` | create_role_access.py:137 | splitting pieces that were joined with the separator gives them back |
| `Text.Words` | enhanced_embedding.py:104 | `str.split()`: no empty word |
| `Text.Sort` | create_role_access.py:72 | `sorted()`: ascending, and a permutation of its input |
| `Text.TitleLower` | enhanced_app.py:138-140 | `title()` gives the same for a name and its lowered form |
| `Text.LowerTitle` | enhanced_app.py:138-140 | lowering a name in title case gives the lowered name |
| `Text.IndexOf` | enhanced_app.py:134 | `list.index`: the first position holding the element |
| `Dict.Keys` | enhanced_query_agent.py:99 | the keys of `items()`, in order |
| `Dict.Put` | enhanced_query_agent.py:91 | `d[k] = v` for an ordered dictionary |
| `Dict.PutLookup` | enhanced_query_agent.py:141 | after `d[k] = v`, `d[k]` is `v` |
| `Dict.PutOther` | enhanced_query_agent.py:157 | `d[k] = v` leaves every other key alone |
| `Dict.PutKeys` | enhanced_query_agent.py:99 | a new key goes last; an existing key keeps its place in `items()` order |
| `Dict.LookupKeys` | enhanced_query_agent.py:162 | a key has a value exactly when it is among the keys |
| `Policy.GrantedTables` | create_role_access.py:122-127 | the granted tables are a subsequence of the sheet's columns |
| `Policy.GrantedIff` | create_role_access.py:126 | with distinct columns, a table is granted exactly when its cell grants it |
| `Policy.GetAllowedTables` | enhanced_app.py:74-78 | nothing for a missing sheet or role; otherwise exactly the tables whose cell is non-blank when stringified (a NaN cell counts), in column order |
| `Policy.ColumnList` | create_role_access.py:137 | the pieces of a comma list are clean (non-empty, not space-padded) and comma-free |
| `Policy.StrippedPieces` | enhanced_app.py:88 | the same for any comma-free pieces |
| `Policy.PiecesOfClean` | enhanced_app.py:88 | clean pieces survive |
| `Policy.ColumnListRoundTrip` | create_role_access.py:136-137 | a clean column list written with commas reads back as itself |
| `Policy.GetAllowedColumns` | create_role_access.py:129-138 | nothing for a missing sheet or role or a NaN cell; a cell `ALL` in any case or spacing gives the table's full columns; any other list gives clean names |
| `Policy.ListedColumns` | enhanced_app.py:80-89 | a cell holding clean names joined by commas grants exactly those names |
| `Policy.ColumnsOfListCell` | enhanced_app.py:87-88 | a non-blank cell other than `ALL` grants its comma pieces |
| `Policy.JoinClean` | create_role_access.py:36 | clean names joined by commas are not padded with whitespace |
| `Roles.AllRow` | create_role_access.py:48-50 | `'ALL'` under every table, nothing else |
| `Roles.InitialAccess` | create_role_access.py:34-64 | one policy row per role |
| `Roles.Filled` | create_role_access.py:65-69 | a row has an entry for a table after the fill exactly when it had one or the table is in the database |
| `Roles.FillMissing` | create_role_access.py:65-69 | the fill loop adds `''` for each database table a row lacks and keeps every existing entry |
| `Roles.FillRow` | create_role_access.py:67-69 | the inner loop for one row computes `Filled` |
| `Roles.AddNew` | create_role_access.py:71 | the union of keys so far has no repeats and holds exactly the keys seen |
| `Roles.KeyUnion` | create_role_access.py:71 | the frame's columns are the keys of some row, each once |
| `Roles.Cells` | create_role_access.py:71 | a role's cells are its entries under the columns, NaN where missing |
| `Roles.RoleOrderDistinct` | create_role_access.py:12 | the five roles are distinct |
| `Roles.SortDistinct` | create_role_access.py:72 | sorting keeps the columns free of repeats |
| `Roles.Frame` | create_role_access.py:71-72 | the frame is well formed: one row per role, sorted columns that are the keys of some row, each cell the role's entry under its column |
| `Roles.SortedColumns` | create_role_access.py:72 | the sorted columns are the row keys, each once |
| `Roles.RoleRows` | create_role_access.py:71 | role `RoleOrder[r]` gets the cells of row `r` |
| `Roles.RoleIndex` | create_role_access.py:12 | each role is found at its own position |
| `Roles.BuildAccessMatrix` | create_role_access.py:32-73 | `build_access_matrix` gives the access matrix: rows for the roles, sorted columns from the database and the fixed policies, cells the filled entries |
| `Roles.FrameOfFilled` | create_role_access.py:65-72 | the frame of the filled policies is that matrix |
| `Roles.FilledColumn` | create_role_access.py:65-71 | a table is a column exactly when it is in the database or a fixed policy names it |
| `Roles.SomeRowHas` | create_role_access.py:66-69 | filling adds exactly the database tables to the keys |
| `Roles.InitialHas` | create_role_access.py:34-64 | before the fill, some role names a table exactly when it is in the database or in the Teller or Customer Service policy |
| `Roles.EveryRoleCoversDatabase` | create_role_access.py:65-69 | every role has a string, never NaN, for every database table |
| `Roles.FixedPolicyKept` | create_role_access.py:35-69 | the Teller and Customer Service cells are their fixed entries, and `''` for database tables those policies do not name |
| `Roles.PrivilegedSeeAll` | create_role_access.py:48-50 | Manager, Auditor and IT hold `'ALL'` for every database table |
| `Roles.PrivilegedGrants` | create_role_access.py:129-135 | read back, these roles get every database table with its full column list |
| `Roles.PhantomTableGranted` | create_role_access.py:34-72 | a fixed-policy table missing from the database still becomes a column, which the privileged roles are granted with no column |
| `Roles.PhantomCell` | create_role_access.py:71 | the privileged roles' cell under such a table is NaN |
| `Roles.MissingGrantsNoColumns` | create_role_access.py:126-138 | a NaN cell grants its table (`str(nan)` is `'nan'`) and no column |
| `Roles.Authenticate` | create_role_access.py:102-107 | a login succeeds exactly when the lowered name is a login name and the password is that name plus `123`; the answer is the name in title case |
| `Roles.LoginRoles` | create_role_access.py:104-106 | a successful login names one of the five roles exactly when it is not `it`, and `it` answers `It` |
| `Roles.LoginTitles` | create_role_access.py:106 | the title case of the five login names |
| `Roles.TitleOfService` | create_role_access.py:106 | `customer service` in title case is `Customer Service` |
| `Roles.TitleOfWords` | create_role_access.py:106 | title case works word by word across a space |
| `Roles.TitleOfWord` | create_role_access.py:106 | a lower-case word in title case gets its first letter capitalised |
| `Roles.CheckUserRole` | create_role_access.py:112-115 | there is never a role |
| `App.ValidRoles` | enhanced_app.py:134 | each role name of the sheet, stripped and lowered |
| `App.Authenticate` | enhanced_app.py:129-141 | succeeds exactly when the sheet is readable, the cleaned name is a cleaned role and the password is that name plus `123`; answers the cleaned name in title case, which lowers back to it |
| `App.AuthenticateAgrees` | enhanced_app.py:129-141 | on the generator's roles, the application's login agrees with the generator's for every name without surrounding whitespace |
| `App.RoleLogins` | enhanced_app.py:134 | cleaning the five role names gives the five login names |
| `App.RoleLogin` | enhanced_app.py:134 | the same, one role at a time |
| `App.TellerLogin` | enhanced_app.py:134 | `Teller` cleans to `teller` |
| `App.ManagerLogin` | enhanced_app.py:134 | `Manager` cleans to `manager` |
| `App.AuditorLogin` | enhanced_app.py:134 | `Auditor` cleans to `auditor` |
| `App.UpperLogin` | enhanced_app.py:134 | `IT` cleans to `it` |
| `App.ServiceLogin` | enhanced_app.py:134 | `Customer Service` cleans to `customer service` |
| `App.TitledLogin` | enhanced_app.py:134-140 | a role name that is a lower-case name in title case cleans back to that name |
| `App.ItLoginSeesNothing` | enhanced_app.py:138-140 | the IT login succeeds as `It`, which is no row of the generated sheet, so it gets no table and no column |
| `App.ItLogin` | enhanced_app.py:138-140 | the IT login answers `It` |
| `App.ItNotARole` | enhanced_app.py:140 | `It` is not one of the roles |
| `App.AuthenticateRole` | enhanced_app.py:129-141 | the corrected login succeeds exactly when the original does, and answers with a role row of the sheet whose cleaned name is the typed name's |
| `App.ItLoginSeesAll` | enhanced_app.py:138-140 | with the corrected login, IT is the sheet row `IT`, granted every database table with all its columns |
| `App.ItIndex` | enhanced_app.py:134 | `it` is the fourth cleaned role name and no earlier one |
| `App.ItFourth` | create_role_access.py:104 | the login names before `it` differ from it |
| `App.FirstAt` | enhanced_app.py:134 | an element not found earlier is found at its own position |
| `App.AllowedColumns` | enhanced_app.py:661-662 | one entry per allowed table, and each entry is that role's column list for it |
| `App.GrantsAreLists` | enhanced_app.py:662 | the application never hands the agent a wholesale `'ALL'` grant, since those cells are already expanded |
| `App.ContextualWithin` | enhanced_app.py:665-670 | a question holding a follow-up phrase still does with any text around it |
| `App.ContextualIgnoresCase` | enhanced_app.py:665-670 | follow-up detection does not depend on letter case |
| `App.ResultColumns` | enhanced_app.py:678-679 | the result columns exactly when the result is present and not empty |
| `App.LastAnswered` | enhanced_app.py:675-680 | the most recent answered entry, or the fact that there is none |
| `App.Previous` | enhanced_app.py:664-680 | nothing for a question that is not a follow-up; otherwise the statement of the most recent answered entry, and its columns when its result is not empty |
| `App.PreviousTurn` | enhanced_app.py:671-680 | the newest-first lookup loop computes `Previous` |
| `App.Turn` | enhanced_app.py:661-685 | a turn answers through `answer_query` as written or corrected; a result is shown only with a non-empty statement |
| `App.TurnVersions` | enhanced_app.py:682-705 | the two versions of a turn part only where the one as written ends in the unpacking error, whose entry has no statement and is not an answer, while the corrected one answers without a result |
| `App.DoubleCorrectionTurn` | enhanced_app.py:682-705 | when validation corrects the chosen statement and then corrects it again, the page shows `An error occurred: too many values to unpack (expected 2)` as written, while the corrected entry carries the corrected statement |
| `App.PreviousSkipsUnanswered` | enhanced_app.py:673-680 | appending an entry that is not an answer leaves the previous turn as it was |
| `App.UnpackErrorSkipped` | enhanced_app.py:673-680 | after a turn that ended in the unpacking error, a follow-up question is put in the context of the answer before that turn |
| `App.Outcome` | enhanced_app.py:682-705 | the answer becomes an assistant entry: the response, statement and result, or the error text when the agent raised |
| `App.Preview` | enhanced_app.py:514 | the first 40 characters, plus `...` when there were more |
| `App.SidebarLines` | enhanced_app.py:512-514 | one line for each of the last five entries, oldest first |
| `App.SidebarAppend` | enhanced_app.py:513 | a new entry becomes the last line, pushing out the oldest once five are shown |
| `App.Session.constructor` | enhanced_app.py:149 | the history starts empty |
| `App.Session.Submit` | enhanced_app.py:655-707 | a submitted, non-empty question while connected appends the question and exactly one answer entry, the outcome of `App.Turn` as written or corrected as the flag says; anything else leaves the history alone |
| `App.Session.ClearHistory` | enhanced_app.py:516-518 | the history is emptied |
| `App.SidebarAfterSubmit` | enhanced_app.py:655-692 | after a submission, the sidebar ends with the question and its answer |
| `Embedding.Score` | enhanced_embedding.py:104 | at most one point per question word; zero exactly when no word occurs in the row text |
| `Embedding.ScoreAppend` | enhanced_embedding.py:104 | scores add up over the words, so a repeated word counts each time |
| `Embedding.Insert` | enhanced_embedding.py:106 | inserting into a ranked list keeps it ranked and adds the element |
| `Embedding.Rank` | enhanced_embedding.py:106 | `sort(reverse=True)` gives a ranked permutation of the pairs |
| `Embedding.Scores` | enhanced_embedding.py:101-105 | one `(score, idx)` pair per row, in row order, with no repeats |
| `Embedding.Ranking` | enhanced_embedding.py:102-106 | the sorted pairs are ranked: descending score, ties to the larger index |
| `Embedding.RankingEntries` | enhanced_embedding.py:102-106 | the sorted pairs are exactly the rows' pairs |
| `Embedding.Kept` | enhanced_embedding.py:107 | only positive pairs of the list are kept |
| `Embedding.KeptPositive` | enhanced_embedding.py:107 | every positive pair is kept |
| `Embedding.KeptRanked` | enhanced_embedding.py:107 | the kept pairs stay ranked |
| `Embedding.KeptAll` | enhanced_embedding.py:107 | from a list of positive pairs, all are kept |
| `Embedding.TopBound` | enhanced_embedding.py:107 | at most `top_k` rows come back |
| `Embedding.TopEntries` | enhanced_embedding.py:100-107 | each answer is a row with its own, positive, score |
| `Embedding.TopRanked` | enhanced_embedding.py:106-107 | the answers come by descending score, ties to the larger row index |
| `Embedding.TopComplete` | enhanced_embedding.py:106-107 | a row with a positive score is left out only when `top_k` rows come back, each ranked above it |
| `Embedding.BasicHits` | enhanced_embedding.py:96-107 | an empty dictionary gives no row |
| `Embedding.ScoreRows` | enhanced_embedding.py:101-105 | the scoring loop computes `Scores` |
| `Embedding.KeepHits` | enhanced_embedding.py:107 | the filtering comprehension gives the rows of the kept pairs |
| `Embedding.SchemaTexts` | enhanced_embedding.py:48 | one text per dictionary row: table, column and description |
| `Embedding.SchemaEmbedder.constructor` | enhanced_embedding.py:22-42 | the schema is embedded exactly when the model loads and the dictionary is not empty; row texts are kept only when the model loads, rows are wanted and reading the database did not fail |
| `Embedding.SchemaEmbedder.EmbedSchema` | enhanced_embedding.py:44-51 | one text per dictionary row, embedded |
| `Embedding.SchemaEmbedder.EmbedDataRows` | enhanced_embedding.py:53-76 | the database's row texts, or none when reading raised |
| `Embedding.SchemaEmbedder.BasicSearch` | enhanced_embedding.py:96-107 | `_basic_search` computes `BasicHits` |
| `Embedding.SchemaEmbedder.Search` | enhanced_embedding.py:78-94 | the lexical fallback without a model, schema embeddings or dictionary, otherwise the rows at the semantic hits; data rows only with a model, row embeddings and row texts; at most `top_k` and `data_row_k` results |

## Left out

- Network, database and file I/O are outside the model. That covers the Ollama
  request and its prompt text, MySQL and SQLite access, the Excel sheet, logging,
  and every Streamlit widget, rerun and message.
- The reader outcomes are parameters. `Llm.Reply` is the model's reply,
  `Agent.Executor` is `execute_sql_safely`, and the sheet is an
  `Option<RoleAccess>`.
- The embedding model and `util.semantic_search` are foreign code, so their hits
  are parameters of `Embedding.SchemaEmbedder.Search`.
- `Embedding.SchemaEmbedder.EmbedDataRows` receives the row texts. Building them
  (line 66) reads the database.
- The prompt does not influence what can be proved about the guard, so building it
  is left out. That covers the schema lines, foreign keys, few-shot examples and
  the RAG context assembly of `answer_query` (lines 222-226). Only the compact
  table listing is modelled.
- `hash_password` is only a SHA-256 call, so it is not modelled.
- `get_tables_and_columns`, `get_table_list` and `get_table_columns` only read the
  database. Their result is the `tables` / `tableCols` parameter.
- `get_connection`, `save_to_db`, `load_role_access` and the `main` functions are
  pure I/O.
- Case folding is ASCII: `Text.Lower` and `Text.Upper` change only `A`-`Z` and
  `a`-`z`, unlike Python's Unicode-wide `lower()`, `upper()` and `title()`.
  Whitespace is Python's `str.isspace` set over the characters it names.
- `difflib`'s ratio is a float. The model keeps its match count as a parameter
  and compares `2 * M / (|a| + |b|)` with 0.5 in integers. It also does not model
  how `SequenceMatcher` counts matches. `get_close_matches` keeps the best
  candidate, with `heapq.nlargest` tie-breaking on the larger string.
- `Agent.RegexSub` is the regular-expression engine for the column patterns of
  lines 163-164. Those patterns are built from name fragments. The hand-written
  scanners cover only plain names, so any other name goes through the parameter,
  which may also report `re.error`.
- `Agent.FormatContextRows` takes data-dictionary rows only. The `str(row)`
  branch for values that are not a pandas `Series` is left out.
- `Agent.Validation`: its own ensures state only the empty-statement and INTERVAL
  answers. The other outcomes are lemmas (`Agent.ValidationPasses`,
  `Agent.AllUnknownTablesCorrected`, `Agent.UnmatchedTableRefused` and the rest),
  and `sql == []` is stated in one direction only.
- `Llm.CleanSqlResponse`: its own ensures are partial. That the result has one `;`
  and collapsed whitespace is stated in `Llm.CleanSingleSemicolon` and
  `Llm.CleanCollapsed`. What it does to an ordinary statement is stated in
  `Llm.CleanKeepsStatement`, `Llm.CleanFencedStatement` and `Llm.CleanProseAround`.
  The cleaning stages (`Llm.Unfenced`, `Llm.Statement`, `Llm.Spaced`,
  `Llm.Excised`, `Llm.Rewrite`) and the fallback test `Llm.FallbackFires` are
  definitions. The lemmas above and `Llm.CleanFallback` state their meaning.
- `\b` and `\w` are Unicode-aware in Python's `str` patterns. That affects
  enhanced_llm_interface.py:23 and enhanced_query_agent.py:77 and 100. The model's
  word characters are ASCII letters, digits and `_`, so a text with other letters
  is split into words differently.
- `re.sub` processes backslash escapes and group references in its replacement
  string: the sheet names substituted at enhanced_query_agent.py:100 and 163-164.
  The model inserts the replacement literally, which agrees for names made of word
  characters only.
- The syntax cases of test_sql_generation.py:105-113 expect `SELECT * FROM table`
  and the statements with `<` or `>` to be refused. `validate_sql_syntax` accepts
  all three, and `Llm.ValidateSqlSyntax` follows the code.
- `Embedding.BasicHits`: its own ensures give only the empty-dictionary answer. Its
  bound, order and completeness are `Embedding.TopBound`, `Embedding.TopRanked`,
  `Embedding.TopEntries` and `Embedding.TopComplete`.
- Pandas details:
  - `iloc[idx]` is read as the row at position `idx`, which holds for the default
    index.
  - `DataFrame.empty` is read as "no rows or no columns" for a query result
    (`Schema.ResultTable.Empty`), and as "no rows" for the data dictionary, whose
    columns are always present.
  - A cell the Excel round trip turns from `''` into NaN is not modelled: the
    sheet's cells are the strings the generator wrote, or NaN where a role's
    policy lacks a column.
- `Embedding.Rank` assumes that the pairs being sorted are all different, which
  holds because each pair carries its row index. Python's stable sort is
  therefore not needed.
- Throughout, `sorted()` on table names is lexicographic order on characters.

## Findings

| source | as written | input that shows it | evidently intended | confidence | as-written member | corrected member |
|---|---|---|---|---|---|---|
| enhanced_query_agent.py:249-260 | a statement corrected by `validate_sql` is validated again and unpacked into two names, but the second validation can answer `corrected` again (three values) | `SELECT balanc FROM acct_mast;` with grant `acct_mast: [acct_id, balance]` and a match count that accepts `balance`: the bare column is corrected, the rewrite of lines 163-164 needs a `.`, so the statement comes back unchanged and corrected again, and the unpacking raises `ValueError` | report the second correction as a failed validation | not executed | `Agent.BareColumnCorrectionRaises` | `Agent.AnswerQuery` |
| enhanced_app.py:138-140 | the login answers `username_clean.title()`, which for `it` is `It`, while the sheet's row is `IT` | user `it`, password `it123`, on the sheet `build_access_matrix` generates: `get_allowed_tables('It', ...)` is `[]` although IT holds `ALL` everywhere | answer with the sheet's own role name | not executed | `App.ItLoginSeesNothing` | `App.ItLoginSeesAll` |
