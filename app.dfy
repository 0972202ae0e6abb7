/** The chat application around the agent: its login check against the role sheet,
    the allowed-column map it hands the agent, the detection of follow-up questions
    and the lookup of the previous answered turn, the conversation history a
    submission appends to, and the history shown in the sidebar. */
module App {
  import opened Maybe
  import opened Text
  import opened Schema
  import opened Policy
  import opened Fuzzy
  import opened Llm
  import Agent
  import Roles

  // ---------------------------------------------------------------------------
  // Login (lines 129-141)
  // ---------------------------------------------------------------------------

  /** `[r.strip().lower() for r in roles_df.index.tolist()]`. */
  function ValidRoles(index: seq<string>): (r: seq<string>)
    ensures |r| == |index| && forall k :: 0 <= k < |index| ==> r[k] == Lower(Strip(index[k]))
  {
    seq(|index|, k requires 0 <= k < |index| => Lower(Strip(index[k])))
  }

  /** `authenticate(username, password)`. `index` is the role column of the sheet, or
      `None` when the sheet is absent or unreadable. The cleaned name (stripped, then
      lowered) must be a cleaned role name and the password that name plus `123`; the
      answer is the cleaned name in title case. */
  function Authenticate(index: Option<seq<string>>, username: string, password: string): (r: Option<string>)
    ensures r.Some? <==> && index.Some?
                         && Lower(Strip(username)) in ValidRoles(index.value)
                         && password == Lower(Strip(username)) + "123"
    ensures r.Some? ==> r.value == Title(Lower(Strip(username))) && Lower(r.value) == Lower(Strip(username))
  {
    if index.None? then None
    else
      var name := Lower(Strip(username));
      if name in ValidRoles(index.value) && password == name + "123" then
        LowerTitle(name, false);
        Some(Title(name))
      else None
  }

  /** On a sheet whose roles are `ROLES`, the application's login agrees with the
      generator's for every name without surrounding whitespace. */
  lemma AuthenticateAgrees(username: string, password: string)
    requires Strip(username) == username
    ensures Authenticate(Some(Roles.RoleOrder), username, password) == Roles.Authenticate(username, password)
  {
    RoleLogins();
    TitleLower(username, false);
  }

  /** Cleaning the five role names gives the generator's five login names. */
  lemma RoleLogins()
    ensures ValidRoles(Roles.RoleOrder) == Roles.LoginNames
  {
    var v := ValidRoles(Roles.RoleOrder);
    forall k | 0 <= k < 5 ensures v[k] == Roles.LoginNames[k] {
      RoleLogin(k);
    }
  }

  lemma RoleLogin(k: nat)
    requires k < 5
    ensures Lower(Strip(Roles.RoleOrder[k])) == Roles.LoginNames[k]
  {
    if k == 0 {
      TellerLogin();
    } else if k == 1 {
      ManagerLogin();
    } else if k == 2 {
      AuditorLogin();
    } else if k == 3 {
      UpperLogin();
    } else {
      ServiceLogin();
    }
  }

  // Four role names are their login names in title case.

  lemma TellerLogin()
    ensures Lower(Strip(Roles.RoleOrder[0])) == Roles.LoginNames[0]
  {
    assert Roles.RoleOrder[0] == "Teller" && Roles.LoginNames[0] == "teller";
    Roles.TitleOfWord("teller", "Teller");
    TitledLogin("Teller", "teller");
  }

  lemma ManagerLogin()
    ensures Lower(Strip(Roles.RoleOrder[1])) == Roles.LoginNames[1]
  {
    assert Roles.RoleOrder[1] == "Manager" && Roles.LoginNames[1] == "manager";
    Roles.TitleOfWord("manager", "Manager");
    TitledLogin("Manager", "manager");
  }

  lemma AuditorLogin()
    ensures Lower(Strip(Roles.RoleOrder[2])) == Roles.LoginNames[2]
  {
    assert Roles.RoleOrder[2] == "Auditor" && Roles.LoginNames[2] == "auditor";
    Roles.TitleOfWord("auditor", "Auditor");
    TitledLogin("Auditor", "auditor");
  }

  lemma ServiceLogin()
    ensures Lower(Strip(Roles.RoleOrder[4])) == Roles.LoginNames[4]
  {
    assert Roles.RoleOrder[4] == "Customer Service" && Roles.LoginNames[4] == "customer service";
    Roles.TitleOfService();
    TitledLogin("Customer Service", "customer service");
  }

  /** `IT` is stored in capitals and lowers to its login name. */
  lemma UpperLogin()
    ensures Lower(Strip(Roles.RoleOrder[3])) == Roles.LoginNames[3]
  {
    assert Roles.RoleOrder[3] == "IT" && Roles.LoginNames[3] == "it";
    StripClean("IT");
    var l := Lower("IT");
    assert |l| == 2 && l[0] == 'i' && l[1] == 't';
  }

  /** A role name that is a name without capitals in title case, with no whitespace at
      either end, cleans back to that name. */
  lemma TitledLogin(name: string, login: string)
    requires name != [] && !IsSpace(name[0]) && !IsSpace(name[|name| - 1])
    requires name == Title(login)
    requires forall j :: 0 <= j < |login| ==> !('A' <= login[j] <= 'Z')
    ensures Lower(Strip(name)) == login
  {
    StripClean(name);
    LowerTitle(login, false);
    LowerUnchanged(login);
  }

  /** The IT login as written: it succeeds and names the role `It`, which is not a row
      of a sheet built by the generator, so the session gets no table and no column. */
  lemma ItLoginSeesNothing(df: RoleAccess, tables: seq<string>, username: string, table: string,
                           tableCols: map<string, seq<string>>)
    requires Roles.IsAccessMatrix(df, tables)
    requires Lower(Strip(username)) == "it"
    ensures Authenticate(Some(Roles.RoleOrder), username, "it123") == Some("It")
    ensures GetAllowedTables("It", Some(df)) == []
    ensures GetAllowedColumns("It", table, Some(df), tableCols) == []
  {
    ItLogin(username);
    ItNotARole();
    assert "It" !in df.rows;
  }

  lemma ItLogin(username: string)
    requires Lower(Strip(username)) == "it"
    ensures Authenticate(Some(Roles.RoleOrder), username, "it123") == Some("It")
  {
    RoleLogins();
    assert Roles.LoginNames[3] == "it";
    assert "it" + "123" == "it123";
    Roles.TitleOfWord("it", "It");
  }

  /** Title case turns `it` into `It`, which differs from `IT` in its second letter. */
  lemma ItNotARole()
    ensures "It" !in Roles.RoleOrder
  {
    forall k | 0 <= k < 5 ensures Roles.RoleOrder[k] != "It" {
      if k == 3 {
        assert Roles.RoleOrder[k][1] != "It"[1];
      } else {
        assert |Roles.RoleOrder[k]| != 2;
      }
    }
  }

  /** The login as evidently intended: the same test, answering with the sheet's own
      spelling of the role (the first row whose cleaned name matches) rather than
      the title case of the typed name. */
  function AuthenticateRole(index: Option<seq<string>>, username: string, password: string): (r: Option<string>)
    ensures r.Some? <==> Authenticate(index, username, password).Some?
    ensures r.Some? ==> r.value in index.value && Lower(Strip(r.value)) == Lower(Strip(username))
  {
    if index.None? then None
    else
      var name := Lower(Strip(username));
      var roles := ValidRoles(index.value);
      if name in roles && password == name + "123" then
        Some(index.value[IndexOf(roles, name)])
      else None
  }

  /** With the sheet's spelling, the IT login is the sheet's `IT` row, which holds every
      database table with its full column list. */
  lemma ItLoginSeesAll(df: RoleAccess, tables: seq<string>, username: string,
                       tableCols: map<string, seq<string>>, t: string)
    requires Roles.IsAccessMatrix(df, tables)
    requires Lower(Strip(username)) == "it" && t in tables
    ensures AuthenticateRole(Some(Roles.RoleOrder), username, "it123") == Some("IT")
    ensures t in GetAllowedTables("IT", Some(df))
    ensures GetAllowedColumns("IT", t, Some(df), tableCols) == if t in tableCols then tableCols[t] else []
  {
    ItLogin(username);
    ItIndex();
    Roles.PrivilegedGrants(df, tables, tableCols, 3, t);
  }

  /** `it` is the fourth cleaned role name and no earlier one. */
  lemma ItIndex()
    ensures "it" in ValidRoles(Roles.RoleOrder) && IndexOf(ValidRoles(Roles.RoleOrder), "it") == 3
  {
    RoleLogins();
    ItFourth();
    FirstAt(Roles.LoginNames, 3);
  }

  /** The login names before `it` are longer than it. */
  lemma ItFourth()
    ensures Roles.LoginNames[3] == "it"
    ensures forall j :: 0 <= j < 3 ==> Roles.LoginNames[j] != Roles.LoginNames[3]
  {
    forall j | 0 <= j < 3 ensures Roles.LoginNames[j] != Roles.LoginNames[3] {
      assert |Roles.LoginNames[j]| > 2;
    }
  }

  /** An element that occurs at no earlier position is found at its own. */
  lemma FirstAt(xs: seq<string>, k: nat)
    requires k < |xs| && forall j :: 0 <= j < k ==> xs[j] != xs[k]
    ensures IndexOf(xs, xs[k]) == k
  {
    var i := IndexOf(xs, xs[k]);
    assert forall j :: 0 <= j < i ==> xs[..i][j] == xs[j];
  }

  // ---------------------------------------------------------------------------
  // The allowed-column map (lines 661-662)
  // ---------------------------------------------------------------------------

  /** `{t: get_allowed_columns(role, t, ...) for t in allowed_tables}`: one entry per
      allowed table, each a column list, never the string `'ALL'`. */
  function AllowedColumns(role: string, ra: Option<RoleAccess>, tableCols: map<string, seq<string>>): (r: Grants)
    requires ra.Some? ==> ra.value.WellFormed()
    ensures forall t :: t in r <==> t in GetAllowedTables(role, ra)
    ensures forall t :: t in r ==> r[t] == Cols(GetAllowedColumns(role, t, ra, tableCols))
  {
    var tables := GetAllowedTables(role, ra);
    map t | t in tables :: Cols(GetAllowedColumns(role, t, ra, tableCols))
  }

  /** The map the application builds never grants a table wholesale: `'ALL'` cells were
      already expanded to the table's column list. */
  lemma GrantsAreLists(role: string, ra: Option<RoleAccess>, tableCols: map<string, seq<string>>, t: string)
    requires ra.Some? ==> ra.value.WellFormed()
    requires t in AllowedColumns(role, ra, tableCols)
    ensures AllowedColumns(role, ra, tableCols)[t].Cols?
  {
  }

  // ---------------------------------------------------------------------------
  // Follow-up questions (lines 665-680)
  // ---------------------------------------------------------------------------

  const ContextPhrases: seq<string> := [
    "from the above", "from previous", "previous result", "above result",
    "based on the above", "based on previous", "using the last result", "based on this",
    "using previous result"
  ]

  /** `any(phrase in query.lower() for phrase in contextual_phrases)`. */
  predicate IsContextual(query: string) {
    exists k :: 0 <= k < |ContextPhrases| && Contains(Lower(query), ContextPhrases[k])
  }

  /** Lower-casing the query first changes nothing: the phrases are lower case, and
      so is what they are looked for in. */
  lemma ContextualIgnoresCase(query: string)
    ensures IsContextual(Upper(query)) <==> IsContextual(query)
  {
    assert Lower(Upper(query)) == Lower(query);
  }

  /** A question that holds a follow-up phrase still does with any text around it. */
  lemma ContextualWithin(before: string, query: string, after: string)
    ensures IsContextual(query) ==> IsContextual(before + query + after)
  {
    if IsContextual(query) {
      var k :| 0 <= k < |ContextPhrases| && Contains(Lower(query), ContextPhrases[k]);
      var phrase := ContextPhrases[k];
      var i: nat :| i <= |Lower(query)| && OccursAt(Lower(query), phrase, i);
      var x := before + query + after;
      assert forall j :: |before| <= j < |before| + |query| ==> x[j] == query[j - |before|];
      assert Lower(x)[|before| + i..|before| + i + |phrase|] == Lower(query)[i..i + |phrase|];
      assert OccursAt(Lower(x), phrase, |before| + i);
    }
  }

  /** One history entry: who spoke, the text, and for an answer its statement and
      result. */
  datatype Entry = Entry(role: string, content: string, sql: Option<string>, results: Option<ResultTable>)

  /** An answer that came with a statement: `role == "assistant"` and a truthy
      `sql_query`. */
  predicate Answered(e: Entry) {
    e.role == "assistant" && e.sql.Some? && e.sql.value != []
  }

  /** The result columns of an entry whose result is present and not empty. */
  function ResultColumns(e: Entry): (r: Option<seq<string>>)
    ensures r.Some? <==> e.results.Some? && !e.results.value.Empty()
    ensures r.Some? ==> r.value == e.results.value.columns
  {
    if e.results.Some? && !e.results.value.Empty() then Some(e.results.value.columns) else None
  }

  /** The position of the most recent answered entry among `history[..n]`. */
  function LastAnswered(history: seq<Entry>, n: nat): (k: Option<nat>)
    requires n <= |history|
    ensures k.None? <==> forall j :: 0 <= j < n ==> !Answered(history[j])
    ensures k.Some? ==> k.value < n && Answered(history[k.value])
                        && forall j :: k.value < j < n ==> !Answered(history[j])
  {
    if n == 0 then None
    else if Answered(history[n - 1]) then Some(n - 1)
    else LastAnswered(history, n - 1)
  }

  /** `(previous_query, previous_result_columns)`: for a follow-up question, the
      statement of the most recent answered entry and, when its result is not empty,
      that result's columns; nothing otherwise. */
  function Previous(history: seq<Entry>, query: string): (r: (Option<string>, Option<seq<string>>))
    ensures !IsContextual(query) ==> r == (None, None)
    ensures r.0.None? ==> r.1.None?
    ensures IsContextual(query) && r.0.None? ==> forall j :: 0 <= j < |history| ==> !Answered(history[j])
    ensures r.0.Some? ==> exists k :: && 0 <= k < |history| && Answered(history[k])
                                      && r.0 == history[k].sql && r.1 == ResultColumns(history[k])
                                      && forall j :: k < j < |history| ==> !Answered(history[j])
  {
    if !IsContextual(query) then (None, None)
    else
      match LastAnswered(history, |history|)
      case None => (None, None)
      case Some(k) => (history[k].sql, ResultColumns(history[k]))
  }

  /** The lookup loop at lines 673-680, newest entry first, stopping at the first
      answered one. */
  method PreviousTurn(history: seq<Entry>, query: string) returns (prevQuery: Option<string>, prevColumns: Option<seq<string>>)
    ensures (prevQuery, prevColumns) == Previous(history, query)
  {
    prevQuery := None;
    prevColumns := None;
    if IsContextual(query) {
      var i := |history|;
      while i > 0
        invariant 0 <= i <= |history|
        invariant LastAnswered(history, |history|) == LastAnswered(history, i)
        invariant prevQuery.None? && prevColumns.None?
      {
        var msg := history[i - 1];
        if Answered(msg) {
          prevQuery := msg.sql;
          if msg.results.Some? && !msg.results.value.Empty() {
            prevColumns := Some(msg.results.value.columns);
          }
          return;
        }
        i := i - 1;
      }
    }
  }

  // ---------------------------------------------------------------------------
  // One submission (lines 655-707) and the sidebar (lines 512-518)
  // ---------------------------------------------------------------------------

  /** Generation of the two candidate statements for a question, given the allowed
      tables and columns and the previous turn: the language model is not modelled. */
  type Generator = (string, seq<string>, Grants, Option<string>, Option<seq<string>>) -> (Generated, Generated)

  /** The history entry of an answer: the success entry, or the error entry when
      `answer_query` raised. */
  function Outcome(a: Agent.Answer): (e: Entry)
    ensures e.role == "assistant"
    ensures a.Raising? ==> e == Entry("assistant", "An error occurred: " + a.message, None, None)
    ensures a.Answer? ==> e.content == a.response && e.sql == a.sql && e.results == a.result
  {
    match a
    case Answer(sql, response, result) => Entry("assistant", response, sql, result)
    case Raising(message) => Entry("assistant", "An error occurred: " + message, None, None)
  }

  /** The two statements generated for a submission, with the previous turn looked up
      in the history that already holds the question. */
  function Candidates(history: seq<Entry>, query: string, role: string, ra: Option<RoleAccess>,
                      tableCols: map<string, seq<string>>, gen: Generator): (Generated, Generated)
    requires ra.Some? ==> ra.value.WellFormed()
  {
    var prev := Previous(history, query);
    gen(query, GetAllowedTables(role, ra), AllowedColumns(role, ra, tableCols), prev.0, prev.1)
  }

  /** What `answer_query` gives for a submission (lines 661-685): as written when
      `asWritten` holds, otherwise with a second correction reported as a failed
      validation. A result is shown only with the statement that produced it. */
  function Turn(history: seq<Entry>, query: string, role: string, ra: Option<RoleAccess>,
                tableCols: map<string, seq<string>>, gen: Generator,
                m: MatchCount, rx: Agent.RegexSub, exec: Agent.Executor, asWritten: bool): (r: Agent.Answer)
    requires ra.Some? ==> ra.value.WellFormed()
    ensures r.Answer? && r.result.Some? ==> r.sql.Some? && r.sql.value != []
  {
    var tables := GetAllowedTables(role, ra);
    var grants := AllowedColumns(role, ra, tableCols);
    var (rag, full) := Candidates(history, query, role, ra, tableCols, gen);
    if asWritten then Agent.AnswerQueryAsWritten(tables, grants, rag, full, m, rx, exec).0
    else Agent.AnswerQuery(tables, grants, rag, full, m, rx, exec).0
  }

  /** The two versions of a turn part only where the one as written ends in the
      unpacking error, whose entry carries no statement. */
  lemma TurnVersions(history: seq<Entry>, query: string, role: string, ra: Option<RoleAccess>,
                     tableCols: map<string, seq<string>>, gen: Generator,
                     m: MatchCount, rx: Agent.RegexSub, exec: Agent.Executor)
    requires ra.Some? ==> ra.value.WellFormed()
    ensures var written := Turn(history, query, role, ra, tableCols, gen, m, rx, exec, true);
            var fixed := Turn(history, query, role, ra, tableCols, gen, m, rx, exec, false);
            written != fixed ==>
              && Outcome(written) == Entry("assistant", "An error occurred: " + Agent.UnpackMessage, None, None)
              && !Answered(Outcome(written))
              && fixed.Answer? && fixed.result.None?
  {
    var tables := GetAllowedTables(role, ra);
    var grants := AllowedColumns(role, ra, tableCols);
    var (rag, full) := Candidates(history, query, role, ra, tableCols, gen);
    Agent.AnswerQueryVersions(tables, grants, rag, full, m, rx, exec);
  }

  /** A turn whose chosen statement validation corrects, and corrects again: as
      written the page shows the unpacking error with no statement, so the turn does
      not count as answered; corrected, the entry carries the corrected statement. */
  lemma DoubleCorrectionTurn(history: seq<Entry>, query: string, role: string, ra: Option<RoleAccess>,
                             tableCols: map<string, seq<string>>, gen: Generator,
                             m: MatchCount, rx: Agent.RegexSub, exec: Agent.Executor)
    requires ra.Some? ==> ra.value.WellFormed()
    requires var tables := GetAllowedTables(role, ra);
             var grants := AllowedColumns(role, ra, tableCols);
             var (rag, full) := Candidates(history, query, role, ra, tableCols, gen);
             && rag.Generated? && full.Generated? && Agent.Chosen(rag.sql, full.sql, tables).Some?
             && var v := Agent.Validation(Agent.Chosen(rag.sql, full.sql, tables).value, tables, grants, m, rx);
                v.Corrected? && Agent.Validation(v.sql, tables, grants, m, rx).Corrected?
    ensures Outcome(Turn(history, query, role, ra, tableCols, gen, m, rx, exec, true))
            == Entry("assistant", "An error occurred: " + Agent.UnpackMessage, None, None)
    ensures var tables := GetAllowedTables(role, ra);
            var grants := AllowedColumns(role, ra, tableCols);
            var (rag, full) := Candidates(history, query, role, ra, tableCols, gen);
            var v := Agent.Validation(Agent.Chosen(rag.sql, full.sql, tables).value, tables, grants, m, rx);
            Outcome(Turn(history, query, role, ra, tableCols, gen, m, rx, exec, false)).sql == Some(v.sql)
  {
    var tables := GetAllowedTables(role, ra);
    var grants := AllowedColumns(role, ra, tableCols);
    var (rag, full) := Candidates(history, query, role, ra, tableCols, gen);
    var validate := Agent.SessionValidator(tables, grants, m, rx);
    Agent.CorrectedTwice(tables, validate, rag, full, exec, true);
    Agent.CorrectedTwice(tables, validate, rag, full, exec, false);
  }

  /** Appending an entry that is not an answer leaves the previous turn as it was. */
  lemma PreviousSkipsUnanswered(history: seq<Entry>, e: Entry, query: string)
    requires !Answered(e)
    ensures Previous(history + [e], query) == Previous(history, query)
  {
    var h := history + [e];
    assert forall j :: 0 <= j < |history| ==> h[j] == history[j];
    var a := LastAnswered(h, |h|);
    var b := LastAnswered(history, |history|);
    if a.Some? {
      assert a.value < |history|;
      assert b.Some? && b.value == a.value;
    } else {
      assert b.None?;
    }
  }

  /** As written, a follow-up question after a turn that ended in the unpacking error
      is put in the context of the last answer before that turn, not of the statement
      the turn corrected. */
  lemma UnpackErrorSkipped(before: seq<Entry>, query: string, e: Entry, next: string)
    requires e == Entry("assistant", "An error occurred: " + Agent.UnpackMessage, None, None)
    ensures Previous(before + [Entry("user", query, None, None)] + [e], next) == Previous(before, next)
  {
    PreviousSkipsUnanswered(before, Entry("user", query, None, None), next);
    PreviousSkipsUnanswered(before + [Entry("user", query, None, None)], e, next);
  }

  /** A sidebar line's text preview: the first 40 characters, and `...` when there
      were more. */
  function Preview(content: string): (r: string)
    ensures |content| <= 40 ==> r == content
    ensures |content| > 40 ==> |r| == 43 && r[..40] == content[..40] && r[40..] == "..."
  {
    if |content| > 40 then content[..40] + "..." else content
  }

  function SidebarLine(e: Entry): string {
    Title(e.role) + ": " + Preview(e.content)
  }

  /** The sidebar: one line for each of the last five history entries, oldest first. */
  function SidebarLines(history: seq<Entry>): (r: seq<string>)
    ensures |r| == if |history| < 5 then |history| else 5
    ensures forall k :: 0 <= k < |r| ==> r[k] == SidebarLine(history[|history| - |r| + k])
  {
    var recent := if |history| < 5 then history else history[|history| - 5..];
    seq(|recent|, k requires 0 <= k < |recent| => SidebarLine(recent[k]))
  }

  /** A new entry shows up as the sidebar's last line, pushing out the oldest line once
      five are shown. */
  lemma SidebarAppend(history: seq<Entry>, e: Entry)
    ensures SidebarLines(history + [e]) ==
            (if |history| < 5 then SidebarLines(history) else SidebarLines(history)[1..]) + [SidebarLine(e)]
  {
    var h := history + [e];
    var a := SidebarLines(h);
    var b := (if |history| < 5 then SidebarLines(history) else SidebarLines(history)[1..]) + [SidebarLine(e)];
    assert |a| == |b|;
    forall k | 0 <= k < |a| ensures a[k] == b[k] {
      if k < |a| - 1 {
        assert h[|h| - |a| + k] == history[|h| - |a| + k];
      }
    }
  }

  /** The state the page keeps across reruns that the modelled code changes. */
  class Session {
    var history: seq<Entry>

    constructor ()
      ensures history == []
    {
      history := [];
    }

    /** A submitted, non-empty question while connected appends the question and then
        exactly one answer entry, from `answer_query` as written when `asWritten` holds
        and from the corrected version otherwise; anything else leaves the history as
        it was. */
    method Submit(submitted: bool, query: string, connected: bool,
                  role: string, ra: Option<RoleAccess>, tableCols: map<string, seq<string>>,
                  gen: Generator, m: MatchCount, rx: Agent.RegexSub, exec: Agent.Executor,
                  asWritten: bool)
      requires ra.Some? ==> ra.value.WellFormed()
      modifies this
      ensures !(submitted && query != [] && connected) ==> history == old(history)
      ensures submitted && query != [] && connected ==>
                var asked := old(history) + [Entry("user", query, None, None)];
                history == asked + [Outcome(Turn(asked, query, role, ra, tableCols, gen, m, rx, exec, asWritten))]
    {
      if submitted && query != [] && connected {
        history := history + [Entry("user", query, None, None)];
        var tables := GetAllowedTables(role, ra);
        var grants := AllowedColumns(role, ra, tableCols);
        var prevQuery, prevColumns := PreviousTurn(history, query);
        var (rag, full) := gen(query, tables, grants, prevQuery, prevColumns);
        var answer;
        if asWritten {
          answer := Agent.AnswerQueryAsWritten(tables, grants, rag, full, m, rx, exec).0;
        } else {
          answer := Agent.AnswerQuery(tables, grants, rag, full, m, rx, exec).0;
        }
        history := history + [Outcome(answer)];
      }
    }

    /** The Clear History button. */
    method ClearHistory()
      modifies this
      ensures history == []
    {
      history := [];
    }
  }

  /** After a submission the sidebar ends with the question and its answer. */
  lemma SidebarAfterSubmit(before: seq<Entry>, question: Entry, answer: Entry)
    ensures var lines := SidebarLines(before + [question] + [answer]);
            |lines| >= 2
            && lines[|lines| - 2] == SidebarLine(question)
            && lines[|lines| - 1] == SidebarLine(answer)
  {
    var h := before + [question] + [answer];
    assert h[|h| - 2] == question && h[|h| - 1] == answer;
  }
}
