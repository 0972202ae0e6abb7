/** The text processing around the language model in enhanced_llm_interface.py: cleaning
    a model reply into one statement, the structural syntax check, the heuristic fallback
    statement, what `generate_sql_llm` makes of a reply, and the compact table listing
    that opens the prompt. The HTTP request itself is a parameter (`Reply`). */
module Llm {
  import opened Maybe
  import opened Text
  import opened Patterns
  import opened Schema

  // ---------------------------------------------------------------------------
  // clean_sql_response

  /** The question prefixes that mark a "show me everything" request. */
  const SimplePrefixes: seq<string> := ["show me all", "list all", "show all", "display all", "give me all"]

  /** `any(re.match(p, question.strip().lower()) for p in simple_patterns)`. */
  predicate IsSimpleQuestion(question: string) {
    exists k :: 0 <= k < |SimplePrefixes| && StartsWith(Lower(Strip(question)), SimplePrefixes[k])
  }

  /** Lines 13-15: the Markdown fences go. */
  function Unfenced(sql: string): string {
    Sub(TrailingFence, DropFence(DropSqlFence(sql)), "")
  }

  /** Lines 17-19: the text from the first statement keyword up to the first `;`. */
  function Statement(sql: string): (r: string)
    ensures SemicolonOnlyLast(r)
  {
    DropAfterSemicolon(DropLeadingProse(Unfenced(sql)))
  }

  /** Line 21: whitespace runs become one space, and the ends are stripped. */
  function Spaced(s: string): string {
    Strip(Sub(Spaces, s, " "))
  }

  /** Lines 23-26: ILIKE becomes LIKE, and the two kinds of dangling JOIN are cut out. */
  function Excised(s: string): string {
    Sub(NullJoin, Sub(EmptyJoin, Sub(Ilike, s, "LIKE"), " "), " ")
  }

  /** The rewrites of lines 13-27, in their order. */
  function Rewrite(sql: string): string {
    Sub(Spaces, Excised(Spaced(Statement(sql))), " ")
  }

  /** The table prefixes of the qualified SELECT items: `t.strip()` for each item
      `t.rest`. */
  function SelectTables(items: seq<string>): set<string> {
    set k | 0 <= k < |items| && '.' in items[k] :: Strip(SplitFirst(items[k], '.').0)
  }

  /** The single-table fallback applies. */
  predicate FallbackFires(s: string, tables: Option<seq<string>>, grants: Option<Grants>,
                          question: Option<string>) {
    && question.Some? && tables.Some? && grants.Some?
    && IsSimpleQuestion(question.value)
    && SelectGroup(s).Some?
    && |SelectTables(SelectItems(SelectGroup(s).value))| > 1
  }

  /** `SELECT * FROM `t`;`. */
  function SelectAll(table: string): (r: string)
    ensures EndsWith(r, ";")
  {
    "SELECT * FROM `" + table + "`;"
  }

  /** `if not sql.endswith(';'): sql += ';'`. */
  function Terminate(s: string): (r: string)
    ensures EndsWith(r, ";") && (r == s || r == s + ";")
  {
    if EndsWith(s, ";") then s else s + ";"
  }

  /** The outcome of `clean_sql_response`: None, a statement, or the IndexError that
      `allowed_tables[0]` raises when the fallback fires with no allowed table. */
  datatype Cleaned = NoSql | Sql(text: string) | IndexError

  function CleanSqlResponse(sql: string, tables: Option<seq<string>>, grants: Option<Grants>,
                            question: Option<string>): (r: Cleaned)
    ensures r == NoSql <==> sql == []
    ensures r.Sql? ==> EndsWith(r.text, ";")
    ensures r == IndexError ==> tables == Some([])
  {
    if sql == [] then NoSql
    else
      var s := Rewrite(sql);
      if FallbackFires(s, tables, grants, question) then
        if tables.value == [] then IndexError else Sql(SelectAll(tables.value[0]))
      else Sql(Terminate(s))
  }

  /** Everything from the first `;` on is one `;`, and it survives the later rewrites. */
  lemma RewriteSemicolon(sql: string)
    ensures SemicolonOnlyLast(Rewrite(sql))
  {
    var s5 := Statement(sql);
    SpacedSemicolon(s5);
    var s6 := Spaced(s5);
    ExcisedSemicolon(s6);
    ReplaceKeepsSemicolonLast(Spaces, Excised(s6), " ", 0);
  }

  /** Whitespace collapsing and stripping keep a `;` last. */
  lemma SpacedSemicolon(s: string)
    requires SemicolonOnlyLast(s)
    ensures SemicolonOnlyLast(Spaced(s))
  {
    ReplaceKeepsSemicolonLast(Spaces, s, " ", 0);
    var x := Sub(Spaces, s, " ");
    var a, b := StripSlice(x);
    SemicolonOnlyLastSlice(x, a, b);
  }

  /** The ILIKE and JOIN rewrites keep a `;` last. */
  lemma ExcisedSemicolon(s: string)
    requires SemicolonOnlyLast(s)
    ensures SemicolonOnlyLast(Excised(s))
  {
    ReplaceKeepsSemicolonLast(Ilike, s, "LIKE", 0);
    var s7 := Sub(Ilike, s, "LIKE");
    ReplaceKeepsSemicolonLast(EmptyJoin, s7, " ", 0);
    var s8 := Sub(EmptyJoin, s7, " ");
    ReplaceKeepsSemicolonLast(NullJoin, s8, " ", 0);
  }

  /** Outside the fallback the statement holds exactly one `;`, as its last character. */
  lemma CleanSingleSemicolon(sql: string, tables: Option<seq<string>>, grants: Option<Grants>,
                             question: Option<string>)
    requires sql != [] && !FallbackFires(Rewrite(sql), tables, grants, question)
    ensures var r := CleanSqlResponse(sql, tables, grants, question);
            && r.Sql? && r.text[|r.text| - 1] == ';'
            && (forall k :: 0 <= k < |r.text| - 1 ==> r.text[k] != ';')
            && Count(r.text, ';') == 1
  {
    RewriteSemicolon(sql);
    assert CleanSqlResponse(sql, tables, grants, question) == Sql(Terminate(Rewrite(sql)));
    TerminateSingle(Rewrite(sql));
  }

  /** Terminating a text whose only `;` can be its last character leaves exactly one
      `;`, at the end. */
  lemma TerminateSingle(s: string)
    requires SemicolonOnlyLast(s)
    ensures var t := Terminate(s);
            && t[|t| - 1] == ';'
            && (forall k :: 0 <= k < |t| - 1 ==> t[k] != ';')
            && Count(t, ';') == 1
  {
    var t := Terminate(s);
    if t == s + ";" {
      assert ';' !in s;
    }
    assert t == t[..|t| - 1] + [';'];
    assert ';' !in t[..|t| - 1];
    assert multiset(t) == multiset(t[..|t| - 1]) + multiset{';'};
  }

  /** Outside the fallback the statement has no tab, newline or other whitespace than
      single spaces. */
  lemma CleanCollapsed(sql: string, tables: Option<seq<string>>, grants: Option<Grants>,
                       question: Option<string>)
    requires sql != [] && !FallbackFires(Rewrite(sql), tables, grants, question)
    ensures var r := CleanSqlResponse(sql, tables, grants, question);
            r.Sql? && Collapsed(r.text)
  {
    Collapse(Excised(Spaced(Statement(sql))));
    TerminateCollapsed(Rewrite(sql));
  }

  lemma TerminateCollapsed(s: string)
    requires Collapsed(s)
    ensures Collapsed(Terminate(s))
  {
    var t := Terminate(s);
    if t != s {
      assert forall k :: 0 <= k < |s| ==> t[k] == s[k];
      assert t[|s|] == ';';
    }
  }

  /** The fallback, when it fires on a non-empty table list, gives exactly the full scan
      of the first allowed table. */
  lemma CleanFallback(sql: string, tables: seq<string>, grants: Grants, question: string)
    requires sql != [] && tables != []
    requires IsSimpleQuestion(question)
    requires SelectGroup(Rewrite(sql)).Some?
    requires |SelectTables(SelectItems(SelectGroup(Rewrite(sql)).value))| > 1
    ensures CleanSqlResponse(sql, Some(tables), Some(grants), Some(question))
            == Sql("SELECT * FROM `" + tables[0] + "`;")
  {
  }

  /** Without a question (or a table list, or column grants) the fallback never fires:
      the result is the rewritten text, terminated. */
  lemma CleanWithoutQuestion(sql: string, tables: Option<seq<string>>, grants: Option<Grants>)
    requires sql != []
    ensures CleanSqlResponse(sql, tables, grants, None) == Sql(Terminate(Rewrite(sql)))
  {
  }

  // ---------------------------------------------------------------------------
  // What cleaning leaves of a reply that already is a statement

  /** A statement that needs no cleaning: it opens with a statement keyword, ends
      neither with whitespace nor with a closing fence, has no whitespace but single
      spaces, holds a `;` at most as its last character, and neither the ILIKE pattern
      nor the dangling-JOIN patterns match in it. */
  predicate CleanStatement(t: string) {
    && t != [] && StatementKeywordAt(t, 0) && !IsSpace(t[|t| - 1]) && !EndsWith(t, "```")
    && Collapsed(t) && SemicolonOnlyLast(t)
    && Untouched(Ilike, t) && Untouched(EmptyJoin, t) && Untouched(NullJoin, t)
  }

  /** Once the fences are gone, lines 17-27 leave such a statement as it is. */
  lemma StagesFixed(t: string)
    requires CleanStatement(t)
    ensures DropAfterSemicolon(DropLeadingProse(t)) == t
    ensures Sub(Spaces, Excised(Spaced(t)), " ") == t
  {
    FirstKeywordAt(t, 0, 0);
    assert t[0..] == t;
    DropAfterSemicolonFixed(t);
    CollapsedFixed(t, 0);
    KeywordStart(t);
    StripClean(t);
    assert Spaced(t) == t;
    ReplaceNoMatch(Ilike, t, "LIKE", 0);
    ReplaceNoMatch(EmptyJoin, t, " ", 0);
    ReplaceNoMatch(NullJoin, t, " ", 0);
  }

  /** A reply whose statement (lines 13-19) is clean is cleaned into that statement,
      terminated. */
  lemma CleanOfStatement(sql: string, t: string, tables: Option<seq<string>>, grants: Option<Grants>)
    requires sql != [] && Statement(sql) == t && CleanStatement(t)
    ensures CleanSqlResponse(sql, tables, grants, None) == Sql(Terminate(t))
  {
    StagesFixed(t);
    assert Rewrite(sql) == t;
  }

  /** A clean statement starts with no fence and ends with none. */
  lemma UnfencedClean(t: string)
    requires CleanStatement(t)
    ensures Unfenced(t) == t
  {
    KeywordStart(t);
    NoOpeningFence(t);
    NoTrailingFence(t);
    ReplaceNoMatch(TrailingFence, t, "", 0);
    assert t[0..] == t;
  }

  /** A reply that is a clean statement comes back as it is, with a `;` added when it
      has none. */
  lemma CleanKeepsStatement(t: string, tables: Option<seq<string>>, grants: Option<Grants>)
    requires CleanStatement(t)
    ensures CleanSqlResponse(t, tables, grants, None) == Sql(Terminate(t))
    ensures ';' !in t ==> CleanSqlResponse(t, tables, grants, None) == Sql(t + ";")
    ensures EndsWith(t, ";") ==> CleanSqlResponse(t, tables, grants, None) == Sql(t)
  {
    StatementOfClean(t);
    CleanOfStatement(t, t, tables, grants);
    TerminateCases(t);
  }

  lemma StatementOfClean(t: string)
    requires CleanStatement(t)
    ensures Statement(t) == t
  {
    UnfencedClean(t);
    StagesFixed(t);
  }

  /** `Terminate` appends a `;` to a text without one and keeps a text ending in one. */
  lemma TerminateCases(t: string)
    ensures ';' !in t ==> Terminate(t) == t + ";"
    ensures EndsWith(t, ";") ==> Terminate(t) == t
  {
    assert |t| >= 1 ==> t[|t| - 1..] == [t[|t| - 1]];
  }

  /** The fences of lines 13 and 15 around a clean statement go. */
  lemma FencedUnfenced(w: string, t: string, w2: string)
    requires forall k :: 0 <= k < |w| ==> IsSpace(w[k])
    requires forall k :: 0 <= k < |w2| ==> IsSpace(w2[k])
    requires CleanStatement(t)
    ensures Unfenced("```sql" + w + t + w2 + "```") == t
  {
    KeywordStart(t);
    var y := t + w2 + "```";
    assert y[0] == t[0];
    assert "```sql" + w + t + w2 + "```" == "```sql" + w + y;
    SqlFenceDropped(w, y);
    ClosingFenceDropped(t, w2);
  }

  /** A clean statement between an opening ```` ```sql ```` fence with the whitespace
      after it and a closing ```` ``` ```` with the whitespace before it is cleaned into
      the statement, terminated. */
  lemma CleanFencedStatement(w: string, t: string, w2: string,
                             tables: Option<seq<string>>, grants: Option<Grants>)
    requires forall k :: 0 <= k < |w| ==> IsSpace(w[k])
    requires forall k :: 0 <= k < |w2| ==> IsSpace(w2[k])
    requires CleanStatement(t)
    ensures CleanSqlResponse("```sql" + w + t + w2 + "```", tables, grants, None) == Sql(Terminate(t))
  {
    FencedUnfenced(w, t, w2);
    StagesFixed(t);
    CleanOfStatement("```sql" + w + t + w2 + "```", t, tables, grants);
  }

  /** Text before the first keyword that opens with no backtick, and text after the
      `;` that holds none, leave no fence to remove. */
  lemma ProseUnfenced(p: string, t: string, tail: string)
    requires CleanStatement(t) && EndsWith(t, ";")
    requires p == [] || p[0] != '`'
    requires '`' !in tail
    ensures Unfenced(p + t + tail) == p + t + tail
  {
    var x := p + t + tail;
    KeywordStart(t);
    assert x[0] != '`';
    NoOpeningFence(x);
    assert t[|t| - 1..] == ";";
    assert x[|x| - 1] != '`';
    assert |x| >= 2 && x[|x| - 1] == '\n' ==> x[|x| - 2] != '`';
    NoClosingFence(x);
  }

  /** Lines 13-19 keep exactly the statement between the prose and what follows its
      `;`. */
  lemma ProseStatement(p: string, t: string, tail: string)
    requires CleanStatement(t) && EndsWith(t, ";")
    requires p == [] || p[0] != '`'
    requires forall j :: 0 <= j < |p| ==> !StatementKeywordAt(p + t + tail, j)
    requires '`' !in tail
    ensures Statement(p + t + tail) == t
  {
    ProseUnfenced(p, t, tail);
    ProseDropped(p, t, tail);
    SemicolonCut(t, tail);
  }

  /** Prose before the statement, and whatever follows its `;`, go. */
  lemma CleanProseAround(p: string, t: string, tail: string,
                         tables: Option<seq<string>>, grants: Option<Grants>)
    requires CleanStatement(t) && EndsWith(t, ";")
    requires p == [] || p[0] != '`'
    requires forall j :: 0 <= j < |p| ==> !StatementKeywordAt(p + t + tail, j)
    requires '`' !in tail
    ensures CleanSqlResponse(p + t + tail, tables, grants, None) == Sql(t)
  {
    ProseStatement(p, t, tail);
    KeywordStart(t);
    CleanOfStatement(p + t + tail, t, tables, grants);
    assert t[|t| - 1..] == ";";
  }

  /** The ILIKE pattern starts only at an `i`. */
  lemma IlikeNeedsI(s: string, k: nat)
    requires k < |s| && LowerChar(s[k]) != 'i'
    ensures MatchAt(Ilike, s, k).None?
  {
    if k + 5 <= |s| {
      assert Lower(s[k..k + 5])[0] == LowerChar(s[k]);
    }
  }

  /** A statement with neither an `i` nor a `j` in it, that opens with a keyword, ends
      in neither whitespace nor a backtick, is collapsed and has a `;` at most last, is
      clean. */
  lemma CleanWithoutIJ(t: string)
    requires t != [] && StatementKeywordAt(t, 0) && !IsSpace(t[|t| - 1]) && t[|t| - 1] != '`'
    requires Collapsed(t) && SemicolonOnlyLast(t)
    requires forall k :: 0 <= k < |t| ==> LowerChar(t[k]) != 'i' && LowerChar(t[k]) != 'j'
    ensures CleanStatement(t)
  {
    assert !EndsWith(t, "```") by {
      assert |t| >= 3 ==> t[|t| - 3..][2] == t[|t| - 1];
    }
    forall k | 0 <= k < |t|
      ensures MatchAt(Ilike, t, k).None? && MatchAt(EmptyJoin, t, k).None? && MatchAt(NullJoin, t, k).None?
    {
      IlikeNeedsI(t, k);
      JoinNeedsJ(t, k);
    }
  }

  /** The two letters a statement keyword at `j` opens with. */
  lemma KeywordLetters(s: string, j: nat)
    ensures StatementKeywordAt(s, j) ==>
              && j + 4 <= |s|
              && var a, b := LowerChar(s[j]), LowerChar(s[j + 1]);
                 (a, b) in {('s', 'e'), ('w', 'i'), ('i', 'n'), ('u', 'p'), ('d', 'e')}
  {
    if j + 4 <= |s| {
      assert Lower(s[j..j + 4])[0] == LowerChar(s[j]) && Lower(s[j..j + 4])[1] == LowerChar(s[j + 1]);
      if j + 6 <= |s| {
        assert Lower(s[j..j + 6])[0] == LowerChar(s[j]) && Lower(s[j..j + 6])[1] == LowerChar(s[j + 1]);
      }
    }
  }

  /** `SELECT * FROM table` is collapsed and has neither an `i` nor a `j`. */
  lemma TestTextShape()
    ensures Collapsed("SELECT * FROM table")
    ensures forall k :: 0 <= k < |"SELECT * FROM table"| ==>
              LowerChar("SELECT * FROM table"[k]) != 'i' && LowerChar("SELECT * FROM table"[k]) != 'j'
  {
  }

  /** The same holds with the `;` after it. */
  lemma TestStatementShape()
    ensures Collapsed("SELECT * FROM table;") && SemicolonOnlyLast("SELECT * FROM table;")
    ensures forall k :: 0 <= k < |"SELECT * FROM table;"| ==>
              LowerChar("SELECT * FROM table;"[k]) != 'i' && LowerChar("SELECT * FROM table;"[k]) != 'j'
  {
  }

  /** Both open with SELECT. */
  lemma TestKeyword()
    ensures StatementKeywordAt("SELECT * FROM table;", 0) && StatementKeywordAt("SELECT * FROM table", 0)
  {
    assert Lower("SELECT") == "select";
    assert "SELECT * FROM table;"[0..6] == "SELECT" && "SELECT * FROM table"[0..6] == "SELECT";
  }

  /** `SELECT * FROM table;` and `SELECT * FROM table` are clean statements. */
  lemma TestStatementsClean()
    ensures CleanStatement("SELECT * FROM table;") && CleanStatement("SELECT * FROM table")
  {
    TestKeyword();
    TestTextShape();
    TestStatementShape();
    CleanWithoutIJ("SELECT * FROM table;");
    CleanWithoutIJ("SELECT * FROM table");
  }

  /** Cleaning case 1 of test_sql_generation.py:74: the fenced statement. */
  lemma CleaningFencedCase(w: string, t: string)
    requires w == "\n" && t == "SELECT * FROM table;"
    ensures CleanSqlResponse("```sql" + w + t + w + "```", None, None, None) == Sql(t)
  {
    TestStatementsClean();
    assert IsSpace(w[0]);
    CleanFencedStatement(w, t, w, None, None);
    assert t[|t| - 1..] == ";";
  }

  /** No statement keyword starts inside `Here's the query: `. */
  lemma TestProseFree(x: string)
    requires StartsWith(x, "Here's the query: ")
    ensures forall j :: 0 <= j < 18 ==> !StatementKeywordAt(x, j)
  {
    forall j | 0 <= j < 18 ensures !StatementKeywordAt(x, j) {
      KeywordLetters(x, j);
      assert x[j] == "Here's the query: "[j];
      assert j + 1 < 18 ==> x[j + 1] == "Here's the query: "[j + 1];
    }
  }

  /** Cleaning case 2 of test_sql_generation.py:77: text before and after. */
  lemma CleaningProseCase(p: string, t: string, tail: string)
    requires p == "Here's the query: " && t == "SELECT * FROM table;" && tail == " This should be removed"
    ensures CleanSqlResponse(p + t + tail, None, None, None) == Sql(t)
  {
    var x := p + t + tail;
    assert x[..18] == p;
    TestProseFree(x);
    TestStatementsClean();
    CleanProseAround(p, t, tail, None, None);
  }

  /** Cleaning cases 3 and 4 of test_sql_generation.py:80-83: the bare statement, with
      and without its `;`. */
  lemma CleaningPlainCases(u: string)
    requires u == "SELECT * FROM table"
    ensures CleanSqlResponse(u + ";", None, None, None) == Sql(u + ";")
    ensures CleanSqlResponse(u, None, None, None) == Sql(u + ";")
  {
    TestStatementsClean();
    assert u + ";" == "SELECT * FROM table;";
    CleanKeepsStatement(u + ";", None, None);
    CleanKeepsStatement(u, None, None);
    assert (u + ";")[|u + ";"| - 1..] == ";";
  }

  /** A reply where a dangling JOIN directly follows the letters ILIKE. */
  const IlikeJoin: string := "ILIKEJOIN b ON c = 1"

  /** No JOIN pattern starts where no `j` does. */
  lemma JoinNeedsJ(s: string, k: nat)
    requires k < |s| && LowerChar(s[k]) != 'j'
    ensures JoinHead(s, k).None?
  {
    if k + 4 <= |s| {
      assert Lower(s[k..k + 4])[0] == LowerChar(s[k]);
    }
  }

  /** Line 23 sees no whole-word ILIKE in `IlikeJoin`. */
  lemma IlikeMissed()
    ensures Untouched(Ilike, IlikeJoin)
    ensures Sub(Ilike, IlikeJoin, "LIKE") == IlikeJoin
  {
    IlikeNowhere(IlikeJoin);
    ReplaceNoMatch(Ilike, IlikeJoin, "LIKE", 0);
    assert IlikeJoin[0..] == IlikeJoin;
  }

  lemma IlikeNowhere(s: string)
    requires s == IlikeJoin
    ensures Untouched(Ilike, s)
  {
    forall k | 0 <= k < |s| ensures MatchAt(Ilike, s, k).None? {
      if k + 5 <= |s| {
        assert Lower(s[k..k + 5])[0] == LowerChar(s[k]);
        assert Lower(s[k..k + 5])[1] == LowerChar(s[k + 1]);
      }
    }
  }

  /** The keywords of `JOIN b ON c = ` in `IlikeJoin`. */
  lemma DanglingJoinWords()
    ensures LiteralAt(IlikeJoin, 5, "join") && LiteralAt(IlikeJoin, 12, "on")
  {
    assert IlikeJoin[5..9] == "JOIN" && IlikeJoin[12..14] == "ON";
  }

  /** The runs of `JOIN b ON c = ` in `IlikeJoin`. */
  lemma DanglingJoinParts()
    ensures LiteralAt(IlikeJoin, 5, "join") && LiteralAt(IlikeJoin, 12, "on")
    ensures SkipSpaces(IlikeJoin, 9) == 10 && SkipTicked(IlikeJoin, 10) == 11
    ensures SkipSpaces(IlikeJoin, 11) == 12 && IsSpace(IlikeJoin[14])
    ensures FindFrom(IlikeJoin, 14, '=') == 17 && SkipSpaces(IlikeJoin, 18) == 19
  {
    DanglingJoinWords();
    DanglingJoinRuns();
    SkipSpacesRun(IlikeJoin, 18, 1);
    assert FindFrom(IlikeJoin, 14, '=') == 17;
  }

  lemma DanglingJoinRuns()
    ensures SkipSpaces(IlikeJoin, 9) == 10 && SkipTicked(IlikeJoin, 10) == 11
    ensures SkipSpaces(IlikeJoin, 11) == 12 && IsSpace(IlikeJoin[14])
  {
    SkipSpacesRun(IlikeJoin, 9, 1);
    SkipSpacesRun(IlikeJoin, 11, 1);
  }

  /** Line 25 matches `JOIN b ON c = ` at index 5. */
  lemma DanglingJoinAt5()
    ensures MatchAt(EmptyJoin, IlikeJoin, 5) == Some(19)
  {
    DanglingJoinParts();
    assert JoinHead(IlikeJoin, 5) == Some(17);
  }

  /** Line 25 copies the characters of `IlikeJoin` before index 5. */
  lemma DanglingJoinPrefix()
    ensures Sub(EmptyJoin, IlikeJoin, " ") == "ILIKE" + ReplaceFrom(EmptyJoin, IlikeJoin, " ", 5)
  {
    CopiedBeforeJ(IlikeJoin, 5);
    assert IlikeJoin[..5] == "ILIKE";
  }

  /** Line 25 copies every character before the first `j`. */
  lemma CopiedBeforeJ(s: string, n: nat)
    requires n <= |s|
    requires forall k :: 0 <= k < n ==> LowerChar(s[k]) != 'j'
    ensures Sub(EmptyJoin, s, " ") == s[..n] + ReplaceFrom(EmptyJoin, s, " ", n)
  {
    forall k | 0 <= k < n ensures MatchAt(EmptyJoin, s, k).None? {
      JoinNeedsJ(s, k);
    }
    ReplaceUntil(EmptyJoin, s, " ", 0, n);
    assert s[0..n] == s[..n];
  }

  /** Line 25 leaves the `1` after the cut. */
  lemma DanglingJoinRest()
    ensures ReplaceFrom(EmptyJoin, IlikeJoin, " ", 19) == "1"
  {
    var s := IlikeJoin;
    JoinNeedsJ(s, 19);
    assert ReplaceFrom(EmptyJoin, s, " ", 20) == [];
  }

  /** Line 25 turns `IlikeJoin` into `ILIKE 1`. */
  lemma DanglingJoinCut()
    ensures Sub(EmptyJoin, IlikeJoin, " ") == "ILIKE 1"
  {
    DanglingJoinPrefix();
    DanglingJoinAt5();
    DanglingJoinRest();
  }

  /** ILIKE is rewritten (line 23) before the dangling JOINs are cut out (line 25), so
      a cut can join an ILIKE that the rewrite skipped, as in `ILIKEJOIN`, into a whole
      word that stays in the cleaned text. */
  lemma IlikeAfterExcision()
    ensures Untouched(Ilike, IlikeJoin)
    ensures Excised(IlikeJoin) == "ILIKE 1"
    ensures MatchAt(Ilike, "ILIKE 1", 0) == Some(5)
  {
    IlikeMissed();
    DanglingJoinCut();
    NoNullJoinLeft();
    IlikeWhole();
  }

  /** Line 26 finds nothing in `ILIKE 1`. */
  lemma NoNullJoinLeft()
    ensures Sub(NullJoin, "ILIKE 1", " ") == "ILIKE 1"
  {
    var u := "ILIKE 1";
    forall k | 0 <= k < |u| ensures MatchAt(NullJoin, u, k).None? {
      JoinNeedsJ(u, k);
    }
    ReplaceNoMatch(NullJoin, u, " ", 0);
    assert u[0..] == u;
  }

  /** `ILIKE 1` opens with a whole-word ILIKE. */
  lemma IlikeWhole()
    ensures MatchAt(Ilike, "ILIKE 1", 0) == Some(5)
  {
    var u := "ILIKE 1";
    assert u[0..5] == "ILIKE";
  }

  // ---------------------------------------------------------------------------
  // validate_sql_syntax

  const StatementKeywords: seq<string> := ["SELECT", "WITH", "INSERT", "UPDATE", "DELETE"]

  /** None of `{ } [ ]` occurs. */
  predicate NoBrackets(s: string) {
    '{' !in s && '}' !in s && '[' !in s && ']' !in s
  }

  /** The first of `{ } [ ]` in that order that occurs in `s`. */
  function FirstBracket(s: string): (c: char)
    requires !NoBrackets(s)
    ensures c in s && c in "{}[]"
  {
    if '{' in s then '{' else if '}' in s then '}' else if '[' in s then '[' else ']'
  }

  function ValidateSqlSyntax(sql: string): (r: (bool, string))
    ensures r.0 <==> && sql != []
                     && (exists k :: 0 <= k < |StatementKeywords| && StartsWith(Upper(sql), StatementKeywords[k]))
                     && Count(sql, '(') == Count(sql, ')')
                     && (StartsWith(Upper(sql), "SELECT") ==> Contains(Upper(sql), "FROM"))
                     && NoBrackets(sql)
    ensures r.0 <==> r.1 == "Valid SQL syntax"
  {
    var up := Upper(sql);
    if sql == [] then (false, "Empty SQL query")
    else if !(exists k :: 0 <= k < |StatementKeywords| && StartsWith(up, StatementKeywords[k])) then
      (false, "Query must start with SELECT, WITH, INSERT, UPDATE, or DELETE")
    else if Count(sql, '(') != Count(sql, ')') then (false, "Unbalanced parentheses")
    else if StartsWith(up, "SELECT") && !Contains(up, "FROM") then
      (false, "SELECT query missing FROM clause")
    else if !NoBrackets(sql) then
      (false, "Invalid character '" + [FirstBracket(sql)] + "' in SQL query")
    else (true, "Valid SQL syntax")
  }

  // ---------------------------------------------------------------------------
  // generate_simple_sql

  predicate MentionsAny(text: string, words: seq<string>) {
    exists k :: 0 <= k < |words| && Contains(text, words[k])
  }

  const AverageWords: seq<string> := ["average", "avg", "mean"]
  const CountWords: seq<string> := ["count", "total", "number"]

  /** The heuristic statement over the first allowed table. A grant of `'ALL'` is iterated
      as its characters, as the source does with the string. */
  function GenerateSimpleSql(question: string, tables: seq<string>, grants: Grants): (r: Option<string>)
    ensures tables == [] ==> r == None
    ensures r.Some? ==> tables != [] && EndsWith(r.value, ";")
    ensures r.Some? && MentionsAny(Lower(question), AverageWords)
            && |GrantItems(GetGrant(grants, tables[0]))| > 1
            ==> r.value == "SELECT AVG(`" + GrantItems(GetGrant(grants, tables[0]))[1]
                           + "`) as average_value FROM `" + tables[0] + "`;"
    ensures tables != [] && MentionsAny(Lower(question), CountWords) ==> r.Some?
    ensures tables != [] && MentionsAny(Lower(question), CountWords)
            && !(MentionsAny(Lower(question), AverageWords) && |GrantItems(GetGrant(grants, tables[0]))| > 1)
            ==> r.value == "SELECT COUNT(*) as total_count FROM `" + tables[0] + "`;"
    ensures tables != [] && !MentionsAny(Lower(question), CountWords)
            && !(MentionsAny(Lower(question), AverageWords) && |GrantItems(GetGrant(grants, tables[0]))| > 1)
            ==> r == None
  {
    if tables == [] then None
    else
      var table := tables[0];
      var columns := GrantItems(GetGrant(grants, table));
      var q := Lower(question);
      if MentionsAny(q, AverageWords) && |columns| > 1 then
        Some("SELECT AVG(`" + columns[1] + "`) as average_value FROM `" + table + "`;")
      else if MentionsAny(q, CountWords) then
        Some("SELECT COUNT(*) as total_count FROM `" + table + "`;")
      else None
  }

  // ---------------------------------------------------------------------------
  // generate_sql_llm: what becomes of the reply

  /** The outcome of the HTTP request: a response with its status code and the
      `response` string of its JSON body (None when the body cannot be decoded or
      `response` is not a string), a connection error, or any other exception. */
  datatype Reply = Reply(status: int, text: Option<string>) | ConnectionFailed | RequestFailed

  /** A statement (None when the fallback has nothing), or the exception that leaves
      `generate_sql_llm`. */
  datatype Generated = Generated(sql: Option<string>) | GenerationFailed(message: string)

  const ConnectionMessage: string :=
    "Ollama connection failed. Please ensure Ollama is running and sqlcoder model is installed."

  /** Lines 235-262. Every failure other than a connection error, including a non-200
      status (raised at 254 and caught at 260) and the IndexError of the cleaning
      fallback, ends in `generate_simple_sql`. */
  function GenerateSqlLlm(question: string, tables: seq<string>, grants: Grants, reply: Reply): (r: Generated)
    ensures r.GenerationFailed? <==> reply.ConnectionFailed?
    ensures r.GenerationFailed? ==> r.message == ConnectionMessage
    ensures r.Generated? && r.sql.Some? ==>
              ValidateSqlSyntax(r.sql.value).0 || r.sql == GenerateSimpleSql(question, tables, grants)
    ensures reply.Reply? && reply.status != 200 ==> r == Generated(GenerateSimpleSql(question, tables, grants))
    ensures reply.Reply? && reply.text.None? ==> r == Generated(GenerateSimpleSql(question, tables, grants))
    ensures reply.RequestFailed? ==> r == Generated(GenerateSimpleSql(question, tables, grants))
    ensures reply.Reply? && reply.text.Some? ==>
            var c := CleanSqlResponse(Strip(reply.text.value), Some(tables), Some(grants), Some(question));
            !(c.Sql? && ValidateSqlSyntax(c.text).0)
            ==> r == Generated(GenerateSimpleSql(question, tables, grants))
  {
    match reply
    case ConnectionFailed => GenerationFailed(ConnectionMessage)
    case RequestFailed => Generated(GenerateSimpleSql(question, tables, grants))
    case Reply(status, text) =>
      if status != 200 || text.None? then Generated(GenerateSimpleSql(question, tables, grants))
      else
        match CleanSqlResponse(Strip(text.value), Some(tables), Some(grants), Some(question))
        case Sql(s) =>
          if ValidateSqlSyntax(s).0 then Generated(Some(s))
          else Generated(GenerateSimpleSql(question, tables, grants))
        case _ => Generated(GenerateSimpleSql(question, tables, grants))
  }

  /** A status-200 reply whose cleaned text passes the syntax check is used as it is. */
  lemma GenerateAcceptsValidReply(question: string, tables: seq<string>, grants: Grants, text: string)
    requires CleanSqlResponse(Strip(text), Some(tables), Some(grants), Some(question)).Sql?
    requires ValidateSqlSyntax(CleanSqlResponse(Strip(text), Some(tables), Some(grants), Some(question)).text).0
    ensures GenerateSqlLlm(question, tables, grants, Reply(200, Some(text)))
            == Generated(Some(CleanSqlResponse(Strip(text), Some(tables), Some(grants), Some(question)).text))
  {
  }

  // ---------------------------------------------------------------------------
  // The compact table listing of lines 91-95

  /** `f"{table}: {', '.join(columns)}"`. */
  function ListingLine(table: string, grants: Grants): string {
    table + ": " + Join(GrantItems(GetGrant(grants, table)), ", ")
  }

  function ListingLines(tables: seq<string>, grants: Grants): (r: seq<string>)
    ensures |r| == |tables|
    ensures forall k :: 0 <= k < |tables| ==> r[k] == ListingLine(tables[k], grants)
  {
    seq(|tables|, k requires 0 <= k < |tables| => ListingLine(tables[k], grants))
  }

  method TableListing(tables: seq<string>, grants: Grants) returns (text: string)
    ensures text == Join(ListingLines(tables, grants), "\n")
  {
    var lines: seq<string> := [];
    for i := 0 to |tables|
      invariant lines == ListingLines(tables[..i], grants)
    {
      lines := lines + [ListingLine(tables[i], grants)];
    }
    assert tables[..|tables|] == tables;
    text := Join(lines, "\n");
  }

  /** Splitting the listing at newlines gives one line per allowed table, each opening
      with the table's name, provided no name holds a newline. */
  lemma ListingRoundTrip(tables: seq<string>, grants: Grants)
    requires tables != []
    requires forall k :: 0 <= k < |tables| ==> '\n' !in ListingLine(tables[k], grants)
    ensures var lines := SplitOn(Join(ListingLines(tables, grants), "\n"), '\n');
            && |lines| == |tables|
            && forall k :: 0 <= k < |tables| ==> StartsWith(lines[k], tables[k] + ": ")
  {
    var lines := ListingLines(tables, grants);
    SplitJoin(lines, '\n');
    forall k | 0 <= k < |tables| ensures StartsWith(lines[k], tables[k] + ": ") {
      assert lines[k] == (tables[k] + ": ") + Join(GrantItems(GetGrant(grants, tables[k])), ", ");
    }
  }
}
