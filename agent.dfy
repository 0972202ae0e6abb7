/** The statement guard of enhanced_query_agent.py: the coarse admissibility check
    `filter_sql_to_allowed`, the schema validation `validate_sql` with its fuzzy
    auto-correction, the control flow of `QueryAgent.answer_query`, and the two small
    formatters. `Validation` is the specification of `validate_sql`; the method
    `ValidateSql` follows the source's loops and is proved to compute it. */
module Agent {
  import opened Maybe
  import opened Text
  import opened Patterns
  import opened Schema
  import opened Fuzzy
  import opened Llm
  import Dict

  // ---------------------------------------------------------------------------
  // filter_sql_to_allowed

  /** `str(value).lower()` of a grant contains `all`: the string `'ALL'` does, and a
      list does when one of its names does (the brackets, quotes and commas of a list's
      text cannot complete the word). */
  predicate GrantMentionsAll(g: Grant) {
    match g
    case All => true
    case Cols(names) => exists k :: 0 <= k < |names| && Contains(Lower(names[k]), "all")
  }

  /** What `filter_sql_to_allowed` decides. The grants do not appear: a mentioned table
      makes the statement admissible whatever its columns are. */
  predicate Admissible(sql: string, tables: seq<string>) {
    && tables != []
    && ((exists k :: 0 <= k < |tables| && Contains(Lower(sql), Lower(tables[k])))
        || (Contains(Lower(sql), "select") && Contains(Lower(sql), "from")))
  }

  method FilterSqlToAllowed(sql: string, tables: seq<string>, grants: Grants) returns (r: bool)
    ensures r == Admissible(sql, tables)
  {
    var low := Lower(sql);
    var found := false;
    var i := 0;
    while i < |tables|
      invariant 0 <= i <= |tables|
      invariant found <==> exists k :: 0 <= k < i && Contains(low, Lower(tables[k]))
    {
      var table := tables[i];
      if Contains(low, Lower(table)) {
        found := true;
        var g := GetGrant(grants, table);
        if g == All || GrantMentionsAll(g) {
          return true;
        }
        var cols := GrantItems(g);
        for j := 0 to |cols| {
          if Contains(low, Lower(cols[j])) {
            return true;
          }
        }
      }
      i := i + 1;
    }
    if |tables| > 0 && found {
      return true;
    }
    if |tables| > 0 && Contains(low, "select") && Contains(low, "from") {
      return true;
    }
    return false;
  }

  /** With no allowed table nothing is admissible. */
  lemma NothingAdmissibleWithoutTables(sql: string)
    ensures !Admissible(sql, [])
  {
  }

  // ---------------------------------------------------------------------------
  // validate_sql: the outcome and the messages

  /** `(True, msg)`, `(False, msg)`, `('corrected', msg, sql)`, or an exception
      (`re.error` from a rewrite pattern built from the statement's text). */
  datatype Verdict = Valid(message: string) | Invalid(message: string)
                   | Corrected(message: string, sql: string) | Raised(message: string)

  const IntervalMessage: string :=
    "SQLite doesn't support INTERVAL syntax. Use date('now', '-1 month') instead."
  const DateArithmeticMessage: string :=
    "Use date('now', '-1 month') for date arithmetic in SQLite."
  const SystemMessage: string := "System query allowed."
  const NoTablesMessage: string := "No allowed tables found in query."
  const ColumnsCorrectedMessage: string :=
    "The model tried to use non-existent columns. The query was auto-corrected to use your schema."
  const PassedMessage: string := "SQL validation passed."

  /** How every refusal of a hallucinated name opens. */
  const RefusalPrefix: string := "Your request could not be completed because the model tried to use "

  const MissingTablesTail: string := " which do not exist in your database. Please rephrase your question."
  const MissingTableTail: string := "' which does not exist in your database. Please rephrase your question."
  const MissingColumnTail: string := "', which does not exist in your database. Please rephrase your question."
  const CorrectedTablesHead: string := "The model tried to use table(s) "
  const CorrectedTail: string := ". The query was auto-corrected to use your schema."

  function UnknownTablesMessage(suggestions: seq<string>): string {
    RefusalPrefix + "table(s) " + Join(suggestions, ", ") + MissingTablesTail
  }

  function CorrectedTablesMessage(suggestions: seq<string>): string {
    CorrectedTablesHead + Join(suggestions, ", ") + CorrectedTail
  }

  function UnknownTableMessage(table: string): (r: string)
    ensures StartsWith(r, RefusalPrefix)
  {
    var tail := "table '" + table + MissingTableTail;
    assert (RefusalPrefix + tail)[..|RefusalPrefix|] == RefusalPrefix;
    RefusalPrefix + tail
  }

  function UnknownColumnMessage(column: string, table: string): (r: string)
    ensures StartsWith(r, RefusalPrefix)
  {
    var tail := "column '" + column + "' for table '" + table + MissingColumnTail;
    assert (RefusalPrefix + tail)[..|RefusalPrefix|] == RefusalPrefix;
    RefusalPrefix + tail
  }

  const SystemQueries: seq<string> :=
    ["sqlite_master", "pragma table_info", "pragma foreign_key_list", "pragma index_list"]

  predicate IsSystemQuery(low: string) {
    exists k :: 0 <= k < |SystemQueries| && Contains(low, SystemQueries[k])
  }

  // ---------------------------------------------------------------------------
  // Table extraction and correction (lines 77-103)

  /** `t.lower().replace('`', '').strip()`. */
  function Norm(t: string): string {
    Strip(RemoveChar(Lower(t), '`'))
  }

  function Norms(ts: seq<string>): (r: seq<string>)
    ensures |r| == |ts| && forall k :: 0 <= k < |ts| ==> r[k] == Norm(ts[k])
  {
    seq(|ts|, k requires 0 <= k < |ts| => Norm(ts[k]))
  }

  /** The extracted tables, normalised. */
  function Mentioned(sql: string): seq<string> {
    Norms(TableRefs(sql))
  }

  /** `[t for t in mentioned if t not in allowed]`. */
  function Unknown(mentioned: seq<string>, allowed: seq<string>): (r: seq<string>)
    ensures forall x :: x in r <==> x in mentioned && x !in allowed
  {
    if mentioned == [] then []
    else (if mentioned[0] in allowed then [] else [mentioned[0]]) + Unknown(mentioned[1..], allowed)
  }

  /** The suggestion text for one unknown table, and the allowed table (in its original
      spelling) it is corrected to, if difflib finds one. */
  function TableSuggestion(m: MatchCount, unknown: string, tables: seq<string>): (r: (string, Option<string>))
    ensures r.1.Some? ==> r.1.value in tables
  {
    var norms := Norms(tables);
    match CloseMatch(m, unknown, norms)
    case None => ("'" + unknown + "' " + NoMatchNote, None)
    case Some(best) =>
      var corrected := tables[IndexOf(norms, best)];
      ("'" + unknown + "' (auto-corrected to '" + corrected + "')", Some(corrected))
  }

  function Suggestions(m: MatchCount, unknowns: seq<string>, tables: seq<string>): (r: seq<string>)
    ensures |r| == |unknowns|
  {
    if unknowns == [] then []
    else [TableSuggestion(m, unknowns[0], tables).0] + Suggestions(m, unknowns[1..], tables)
  }

  lemma {:induction false} SuggestionAt(m: MatchCount, unknowns: seq<string>, tables: seq<string>, k: nat)
    requires k < |unknowns|
    ensures Suggestions(m, unknowns, tables)[k] == TableSuggestion(m, unknowns[k], tables).0
  {
    if k > 0 {
      SuggestionAt(m, unknowns[1..], tables, k - 1);
    }
  }

  lemma SuggestionsStep(m: MatchCount, unknowns: seq<string>, tables: seq<string>, i: nat)
    requires i < |unknowns|
    ensures Suggestions(m, unknowns[i..], tables)
         == [TableSuggestion(m, unknowns[i], tables).0] + Suggestions(m, unknowns[i + 1..], tables)
  {
    assert unknowns[i..][1..] == unknowns[i + 1..];
  }

  const NoMatchNote: string := "(no close match)"

  /** `any('(no close match)' in s for s in suggestions)`. */
  predicate AnyNoMatch(suggestions: seq<string>) {
    exists k :: 0 <= k < |suggestions| && Contains(suggestions[k], NoMatchNote)
  }

  /** The `table_corrections` dictionary built from `unknowns[i..]` onto `acc`. */
  function TableCorrectionsFrom(m: MatchCount, unknowns: seq<string>, tables: seq<string>, i: nat,
                                acc: seq<(string, string)>): seq<(string, string)>
    requires i <= |unknowns|
    decreases |unknowns| - i
  {
    if i == |unknowns| then acc
    else
      var next := match TableSuggestion(m, unknowns[i], tables).1
                  case Some(c) => Dict.Put(acc, unknowns[i], c)
                  case None => acc;
      TableCorrectionsFrom(m, unknowns, tables, i + 1, next)
  }

  function TableCorrections(m: MatchCount, unknowns: seq<string>, tables: seq<string>): seq<(string, string)> {
    TableCorrectionsFrom(m, unknowns, tables, 0, [])
  }

  /** `re.sub(rf'\b{unknown}\b', corrected, sql, flags=re.IGNORECASE)` for the
      corrections from `i` on, in dictionary order. */
  function ApplyTablesFrom(sql: string, corrections: seq<(string, string)>, i: nat): string
    requires i <= |corrections|
    decreases |corrections| - i
  {
    if i == |corrections| then sql
    else ApplyTablesFrom(Sub(Word(corrections[i].0), sql, corrections[i].1), corrections, i + 1)
  }

  // ---------------------------------------------------------------------------
  // Column checks (lines 105-159)

  /** The SELECT items, or none when the SELECT-list pattern does not match. */
  function Items(sql: string): seq<string> {
    match SelectGroup(sql)
    case Some(g) => SelectItems(g)
    case None => []
  }

  /** Each SELECT item is one comma-separated piece, without backticks; a matched
      SELECT list gives at least one item. */
  lemma ItemsUnquoted(sql: string)
    ensures forall k :: 0 <= k < |Items(sql)| ==> '`' !in Items(sql)[k] && ',' !in Items(sql)[k]
    ensures SelectGroup(sql).Some? ==> Items(sql) != []
  {
    if SelectGroup(sql).Some? {
      var parts := SplitOn(SelectGroup(sql).value, ',');
      forall k | 0 <= k < |parts| ensures ',' !in RemoveChar(Strip(parts[k]), '`') {
        StripSubset(parts[k]);
      }
    }
  }

  /** The first allowed table whose normal form is `part` (the loop of lines 126-129). */
  function FirstAllowed(tables: seq<string>, part: string): (r: Option<string>)
    ensures r.Some? ==> r.value in tables && Norm(r.value) == part
    ensures r.None? ==> forall k :: 0 <= k < |tables| ==> Norm(tables[k]) != part
  {
    if tables == [] then None
    else if Norm(tables[0]) == part then Some(tables[0])
    else FirstAllowed(tables[1..], part)
  }

  /** The outcome of checking one SELECT item: accepted, corrected under a
      `(table_part, col_part)` key to `(actual_table, column)`, or rejected. */
  datatype ColumnCheck = Pass | Fix(key: (string, string), fix: (string, string)) | Reject(message: string)

  /** A column, lowered, against a grant: `'ALL'` accepts everything, a list accepts its
      normalised names and otherwise asks difflib for a correction. */
  function CheckAgainst(g: Grant, name: string, key: (string, string), table: string,
                        m: MatchCount, message: string): (r: ColumnCheck)
    ensures r == Pass <==> GrantAdmits(g, name)
    ensures r.Fix? ==> r.key == key && r.fix.0 == table && g.Cols? && r.fix.1 in g.names
    ensures r.Reject? ==> r.message == message
    ensures r.Reject? <==> !GrantAdmits(g, name) && CloseMatch(m, name, Norms(g.names)).None?
  {
    match g
    case All => Pass
    case Cols(names) =>
      var lows := Norms(names);
      if name in lows then Pass
      else
        match CloseMatch(m, name, lows)
        case Some(best) => Fix(key, (table, names[IndexOf(lows, best)]))
        case None => Reject(message)
  }

  /** A grant lets a lowered column name through without correction: `'ALL'`, or a
      listed name equal to it once lowered, unquoted and stripped. */
  predicate GrantAdmits(g: Grant, name: string) {
    g.All? || name in Norms(g.names)
  }

  function QualifiedParts(col: string): (string, string)
    requires '.' in col
  {
    var parts := SplitFirst(col, '.');
    (Lower(Strip(parts.0)), Lower(Strip(parts.1)))
  }

  /** A SELECT item that needs neither correction nor rejection: empty, a wildcard, a
      `table.column` whose table part names an allowed table that grants the column, or
      a bare column that the main table grants (anything goes when there is no main
      table). No fuzzy matching is involved. */
  predicate Admitted(col: string, tables: seq<string>, grants: Grants, main: string) {
    if Strip(col) == [] then true
    else if '.' in col then
      var (tp, cp) := QualifiedParts(col);
      var actual := FirstAllowed(tables, tp);
      cp == "*" || (actual.Some? && actual.value != [] && GrantAdmits(GetGrant(grants, actual.value), cp))
    else col == "*" || main == [] || GrantAdmits(GetGrant(grants, main), Lower(col))
  }

  /** A `table.column` item (lines 119-143): the table part must name an allowed table,
      and is never corrected; the column part is checked against that table's grant. */
  function CheckQualified(tp: string, cp: string, tables: seq<string>, grants: Grants,
                          m: MatchCount): (r: ColumnCheck)
    requires cp != "*"
    ensures r == Pass <==> var actual := FirstAllowed(tables, tp);
                           actual.Some? && actual.value != [] && GrantAdmits(GetGrant(grants, actual.value), cp)
    ensures FirstAllowed(tables, tp).None? ==> r == Reject(UnknownTableMessage(tp))
    ensures r.Fix? ==> r.fix.0 in tables && GetGrant(grants, r.fix.0).Cols?
                        && r.fix.1 in GetGrant(grants, r.fix.0).names
    ensures r.Reject? ==> StartsWith(r.message, RefusalPrefix)
  {
    CheckIn(FirstAllowed(tables, tp), tp, cp, grants, m)
  }

  /** `CheckQualified` once the table part has been looked up. */
  function CheckIn(actual: Option<string>, tp: string, cp: string, grants: Grants,
                   m: MatchCount): (r: ColumnCheck)
    ensures r == Pass <==> actual.Some? && actual.value != [] && GrantAdmits(GetGrant(grants, actual.value), cp)
    ensures actual.None? ==> r == Reject(UnknownTableMessage(tp))
    ensures r.Fix? ==> actual.Some? && r.fix.0 == actual.value && GetGrant(grants, r.fix.0).Cols?
                        && r.fix.1 in GetGrant(grants, r.fix.0).names
    ensures r.Reject? ==> StartsWith(r.message, RefusalPrefix)
  {
    match actual
    case None => Reject(UnknownTableMessage(tp))
    case Some(name) =>
      if name == [] then Reject(UnknownTableMessage(tp))
      else CheckAgainst(GetGrant(grants, name), cp, (tp, cp), name, m,
                        UnknownColumnMessage(cp, name))
  }

  /** A bare column item (lines 145-159), checked against the main table's grant. */
  function CheckBare(col: string, grants: Grants, main: string, m: MatchCount): (r: ColumnCheck)
    ensures r == Pass <==> col == "*" || main == [] || GrantAdmits(GetGrant(grants, main), Lower(col))
    ensures r.Fix? ==> r.fix.0 == main && GetGrant(grants, main).Cols?
                        && r.fix.1 in GetGrant(grants, main).names
    ensures r.Reject? ==> StartsWith(r.message, RefusalPrefix)
  {
    if col == "*" then Pass
    else if main == [] then Pass
    else CheckAgainst(GetGrant(grants, main), Lower(col), (Lower(main), Lower(col)), main, m,
                      UnknownColumnMessage(col, main))
  }

  /** One iteration of the loop over the SELECT items; `main` is the table of the first
      extracted name. An item passes exactly when it is admitted; a table part that names
      no allowed table is rejected, never corrected; a correction keeps the table and
      picks a granted column. */
  function CheckColumn(col: string, tables: seq<string>, grants: Grants, main: string,
                       m: MatchCount): (r: ColumnCheck)
    ensures r == Pass <==> Admitted(col, tables, grants, main)
    ensures Strip(col) != [] && '.' in col && QualifiedParts(col).1 != "*"
            && FirstAllowed(tables, QualifiedParts(col).0).None?
            ==> r == Reject(UnknownTableMessage(QualifiedParts(col).0))
    ensures r.Fix? ==> r.fix.0 in tables + [main] && GetGrant(grants, r.fix.0).Cols?
                        && r.fix.1 in GetGrant(grants, r.fix.0).names
    ensures r.Reject? ==> StartsWith(r.message, RefusalPrefix)
  {
    if Strip(col) == [] then Pass
    else if '.' in col then
      var (tp, cp) := QualifiedParts(col);
      if cp == "*" then Pass else CheckQualified(tp, cp, tables, grants, m)
    else CheckBare(col, grants, main, m)
  }

  type Corrections = seq<((string, string), (string, string))>

  datatype Scan = Continue(corrections: Corrections) | Stop(message: string)

  /** The loop over the SELECT items from `i` on, with `column_corrections` so far. */
  function ScanFrom(items: seq<string>, i: nat, acc: Corrections, tables: seq<string>,
                    grants: Grants, main: string, m: MatchCount): Scan
    requires i <= |items|
    decreases |items| - i
  {
    if i == |items| then Continue(acc)
    else
      match CheckColumn(items[i], tables, grants, main, m)
      case Pass => ScanFrom(items, i + 1, acc, tables, grants, main, m)
      case Fix(k, v) => ScanFrom(items, i + 1, Dict.Put(acc, k, v), tables, grants, main, m)
      case Reject(msg) => Stop(msg)
  }

  /** What `re.sub(pattern, repl, s, flags=re.IGNORECASE)` gives for a pattern built from
      text that is not a plain name: the new text, or the `re.error` it raises. */
  datatype SubResult = Replaced(text: string) | PatternError(message: string)

  /** `re.sub` for such patterns, taking (pattern, replacement, text). */
  type RegexSub = (string, string, string) -> SubResult

  /** The two rewrites of lines 163-164 for one correction. Plain names are matched by
      the scanners; anything else goes to the regular-expression engine. */
  function RewriteColumn(s: string, key: (string, string), fix: (string, string), rx: RegexSub): SubResult {
    var (tp, cp) := key;
    var (actual, corrected) := fix;
    var bare := actual + "." + corrected;
    var ticked := "`" + actual + "`.`" + corrected + "`";
    if Plain(tp) && Plain(cp) then
      Replaced(Sub(Ticked(tp, cp), Sub(Dotted(tp, cp), s, bare), ticked))
    else
      match rx(tp + "\\.\\s*" + cp, bare, s)
      case PatternError(e) => PatternError(e)
      case Replaced(t) => rx("`?" + tp + "`?\\.\\s*`?" + cp + "`?", ticked, t)
  }

  function ApplyColumnsFrom(s: string, corrections: Corrections, i: nat, rx: RegexSub): SubResult
    requires i <= |corrections|
    decreases |corrections| - i
  {
    if i == |corrections| then Replaced(s)
    else
      match RewriteColumn(s, corrections[i].0, corrections[i].1, rx)
      case PatternError(e) => PatternError(e)
      case Replaced(t) => ApplyColumnsFrom(t, corrections, i + 1, rx)
  }

  /** The final structural checks of lines 167-176, on the unchanged statement. */
  function Structural(sql: string): (v: Verdict)
    ensures v.Valid? <==> && Count(sql, '(') == Count(sql, ')')
                          && (StartsWith(Lower(sql), "select") ==> Contains(Lower(sql), "from"))
                          && NoBrackets(sql)
    ensures v.Valid? || v.Invalid?
  {
    if Count(sql, '(') != Count(sql, ')') then Invalid("Unbalanced parentheses")
    else if StartsWith(Lower(sql), "select") && !Contains(Lower(sql), "from") then
      Invalid("SELECT query missing FROM clause")
    else if !NoBrackets(sql) then Invalid("Invalid character '" + [FirstBracket(sql)] + "' in SQL query")
    else Valid(PassedMessage)
  }

  // ---------------------------------------------------------------------------
  // validate_sql

  /** The table of the first extracted name, in its original spelling. */
  function MainTable(sql: string, tables: seq<string>): (r: string)
    requires Mentioned(sql) != [] && Mentioned(sql)[0] in Norms(tables)
    ensures r in tables && Norm(r) == Mentioned(sql)[0]
    ensures FirstAllowed(tables, Mentioned(sql)[0]) == Some(r)
  {
    IndexFirstAllowed(tables, Mentioned(sql)[0]);
    tables[IndexOf(Norms(tables), Mentioned(sql)[0])]
  }

  lemma NormsTail(tables: seq<string>)
    requires tables != []
    ensures Norms(tables)[1..] == Norms(tables[1..])
  {
    assert forall k :: 0 <= k < |tables| - 1 ==> tables[1..][k] == tables[k + 1];
  }

  /** `allowed_tables[allowed_tables_norm.index(part)]` is the first allowed table
      whose normal form is `part`. */
  lemma {:induction false} IndexFirstAllowed(tables: seq<string>, part: string)
    requires part in Norms(tables)
    ensures IndexOf(Norms(tables), part) < |tables|
    ensures FirstAllowed(tables, part) == Some(tables[IndexOf(Norms(tables), part)])
  {
    var ns := Norms(tables);
    if ns[0] == part {
      assert IndexOf(ns, part) == 0;
    } else {
      NormsTail(tables);
      assert part in ns[1..];
      IndexFirstAllowed(tables[1..], part);
      var i := IndexOf(ns[1..], part);
      assert IndexOf(ns, part) == 1 + i;
      assert tables[1..][i] == tables[1 + i];
    }
  }

  /** Lines 160-176, after the scan of the SELECT items. */
  function AfterScan(sql: string, scan: Scan, rx: RegexSub): Verdict {
    match scan
    case Stop(msg) => Invalid(msg)
    case Continue(corrections) =>
      if corrections != [] then
        match ApplyColumnsFrom(sql, corrections, 0, rx)
        case PatternError(e) => Raised(e)
        case Replaced(t) => Corrected(ColumnsCorrectedMessage, t)
      else Structural(sql)
  }

  function ColumnStage(sql: string, tables: seq<string>, grants: Grants, m: MatchCount, rx: RegexSub): Verdict
    requires Mentioned(sql) != [] && Mentioned(sql)[0] in Norms(tables)
  {
    AfterScan(sql, ScanFrom(Items(sql), 0, [], tables, grants, MainTable(sql, tables), m), rx)
  }

  /** Lines 95-101, once some extracted table is unknown. */
  function UnknownTablesVerdict(sql: string, suggestions: seq<string>, corrections: seq<(string, string)>): Verdict {
    if AnyNoMatch(suggestions) then Invalid(UnknownTablesMessage(suggestions))
    else Corrected(CorrectedTablesMessage(suggestions), ApplyTablesFrom(sql, corrections, 0))
  }

  function TableStage(sql: string, tables: seq<string>, grants: Grants, m: MatchCount, rx: RegexSub): Verdict {
    var unknowns := Unknown(Mentioned(sql), Norms(tables));
    if unknowns != [] then
      UnknownTablesVerdict(sql, Suggestions(m, unknowns, tables), TableCorrections(m, unknowns, tables))
    else if Mentioned(sql) == [] then Invalid(NoTablesMessage)
    else ColumnStage(sql, tables, grants, m, rx)
  }

  /** `validate_sql(sql, tables, grants)`, with difflib's match count `m` and the regular
      expression engine `rx` as parameters. */
  function Validation(sql: string, tables: seq<string>, grants: Grants, m: MatchCount, rx: RegexSub): (v: Verdict)
    ensures sql == [] ==> v == Invalid("Empty SQL query")
    ensures sql != [] && Contains(Lower(sql), "interval") ==> v == Invalid(IntervalMessage)
  {
    if sql == [] then Invalid("Empty SQL query")
    else
      var low := Lower(sql);
      if Contains(low, "interval") then Invalid(IntervalMessage)
      else if Contains(low, "current_date") && Contains(low, "interval") then Invalid(DateArithmeticMessage)
      else if IsSystemQuery(low) then Valid(SystemMessage)
      else TableStage(sql, tables, grants, m, rx)
  }

  // ---------------------------------------------------------------------------
  // What validate_sql guarantees

  /** The column scan never drops a correction it has recorded. */
  lemma {:induction false} ScanKeeps(items: seq<string>, i: nat, acc: Corrections, tables: seq<string>,
                                     grants: Grants, main: string, m: MatchCount)
    requires i <= |items|
    ensures var r := ScanFrom(items, i, acc, tables, grants, main, m);
            r.Continue? ==> |r.corrections| >= |acc|
    decreases |items| - i
  {
    if i < |items| {
      match CheckColumn(items[i], tables, grants, main, m)
      case Pass => ScanKeeps(items, i + 1, acc, tables, grants, main, m);
      case Fix(k, v) => ScanKeeps(items, i + 1, Dict.Put(acc, k, v), tables, grants, main, m);
      case Reject(_) =>
    }
  }

  /** Every SELECT item from `i` on is admitted. */
  predicate AdmittedFrom(items: seq<string>, i: nat, tables: seq<string>, grants: Grants, main: string)
    requires i <= |items|
    decreases |items| - i
  {
    i == |items| || (Admitted(items[i], tables, grants, main) && AdmittedFrom(items, i + 1, tables, grants, main))
  }

  /** The scan finishes without any correction exactly when every item is admitted. */
  lemma {:induction false} ScanClean(items: seq<string>, i: nat, tables: seq<string>, grants: Grants,
                                     main: string, m: MatchCount)
    requires i <= |items|
    ensures ScanFrom(items, i, [], tables, grants, main, m) == Continue([])
            <==> AdmittedFrom(items, i, tables, grants, main)
    decreases |items| - i
  {
    if i < |items| {
      match CheckColumn(items[i], tables, grants, main, m)
      case Pass => ScanClean(items, i + 1, tables, grants, main, m);
      case Fix(k, v) => ScanKeeps(items, i + 1, Dict.Put([], k, v), tables, grants, main, m);
      case Reject(_) =>
    }
  }

  /** A rejected item stops the scan, whatever was corrected before it. */
  lemma {:induction false} ScanStops(items: seq<string>, i: nat, acc: Corrections, tables: seq<string>,
                                     grants: Grants, main: string, m: MatchCount, k: nat)
    requires i <= k < |items| && CheckColumn(items[k], tables, grants, main, m).Reject?
    ensures ScanFrom(items, i, acc, tables, grants, main, m).Stop?
    decreases k - i
  {
    if i < k {
      match CheckColumn(items[i], tables, grants, main, m)
      case Pass => ScanStops(items, i + 1, acc, tables, grants, main, m, k);
      case Fix(a, b) => ScanStops(items, i + 1, Dict.Put(acc, a, b), tables, grants, main, m, k);
      case Reject(_) =>
    }
  }

  /** A stopped scan reports a refusal. */
  lemma {:induction false} ScanStopRefuses(items: seq<string>, i: nat, acc: Corrections, tables: seq<string>,
                                           grants: Grants, main: string, m: MatchCount)
    requires i <= |items|
    ensures var r := ScanFrom(items, i, acc, tables, grants, main, m);
            r.Stop? ==> StartsWith(r.message, RefusalPrefix)
    decreases |items| - i
  {
    if i < |items| {
      match CheckColumn(items[i], tables, grants, main, m)
      case Pass => ScanStopRefuses(items, i + 1, acc, tables, grants, main, m);
      case Fix(k, v) => ScanStopRefuses(items, i + 1, Dict.Put(acc, k, v), tables, grants, main, m);
      case Reject(_) =>
    }
  }

  /** Every extracted table, normalised, is one of the allowed tables. */
  predicate AllMentionedAllowed(sql: string, tables: seq<string>) {
    forall k :: 0 <= k < |Mentioned(sql)| ==> Mentioned(sql)[k] in Norms(tables)
  }

  /** The unknown tables are none exactly when every extracted table is allowed. */
  lemma NoUnknownIff(sql: string, tables: seq<string>)
    ensures Unknown(Mentioned(sql), Norms(tables)) == [] <==> AllMentionedAllowed(sql, tables)
  {
    var u := Unknown(Mentioned(sql), Norms(tables));
    if u != [] {
      assert u[0] in u;
    } else {
      forall k | 0 <= k < |Mentioned(sql)| ensures Mentioned(sql)[k] in Norms(tables) {
        assert Mentioned(sql)[k] in Mentioned(sql);
      }
    }
  }

  /** What a statement must satisfy for `validate_sql` to pass it: it is not empty, has
      no `interval`, is not a system query, names at least one table and only allowed
      ones, every SELECT item is admitted as it stands, and the structural checks hold. */
  predicate Passes(sql: string, tables: seq<string>, grants: Grants) {
    && sql != []
    && !Contains(Lower(sql), "interval")
    && !IsSystemQuery(Lower(sql))
    && Mentioned(sql) != []
    && AllMentionedAllowed(sql, tables)
    && AdmittedFrom(Items(sql), 0, tables, grants, MainTable(sql, tables))
    && WellShaped(sql)
  }

  /** The structural checks of lines 167-176 hold. */
  predicate WellShaped(sql: string) {
    && Count(sql, '(') == Count(sql, ')')
    && (StartsWith(Lower(sql), "select") ==> Contains(Lower(sql), "from"))
    && NoBrackets(sql)
  }

  /** After the scan, the statement passes exactly when nothing was corrected or
      rejected and it is well shaped. */
  lemma AfterScanPasses(sql: string, scan: Scan, rx: RegexSub)
    ensures AfterScan(sql, scan, rx) == Valid(PassedMessage) <==> scan == Continue([]) && WellShaped(sql)
  {
    if scan.Continue? && scan.corrections != [] {
      var v := AfterScan(sql, scan, rx);
      assert v.Raised? || v.Corrected?;
    }
  }

  /** Once every extracted table is allowed, the column stage passes exactly when every
      item is admitted and the statement is well shaped. */
  lemma ColumnStagePasses(sql: string, tables: seq<string>, grants: Grants, m: MatchCount, rx: RegexSub)
    requires Mentioned(sql) != [] && Mentioned(sql)[0] in Norms(tables)
    ensures ColumnStage(sql, tables, grants, m, rx) == Valid(PassedMessage)
            <==> AdmittedFrom(Items(sql), 0, tables, grants, MainTable(sql, tables)) && WellShaped(sql)
  {
    var items, main := Items(sql), MainTable(sql, tables);
    var scan := ScanFrom(items, 0, [], tables, grants, main, m);
    assert ColumnStage(sql, tables, grants, m, rx) == AfterScan(sql, scan, rx);
    ScanClean(items, 0, tables, grants, main, m);
    AfterScanPasses(sql, scan, rx);
  }

  /** `validate_sql` answers `(True, "SQL validation passed.")` exactly when the statement
      passes. Neither difflib nor the regular-expression engine has a say in it. */
  lemma ValidationPasses(sql: string, tables: seq<string>, grants: Grants, m: MatchCount, rx: RegexSub)
    ensures Validation(sql, tables, grants, m, rx) == Valid(PassedMessage) <==> Passes(sql, tables, grants)
  {
    if sql != [] && !Contains(Lower(sql), "interval") && !IsSystemQuery(Lower(sql)) {
      assert Validation(sql, tables, grants, m, rx) == TableStage(sql, tables, grants, m, rx);
      NoUnknownIff(sql, tables);
      if Unknown(Mentioned(sql), Norms(tables)) != [] {
        var v := TableStage(sql, tables, grants, m, rx);
        assert v.Invalid? || v.Corrected?;
      } else if Mentioned(sql) != [] {
        assert Mentioned(sql)[0] in Norms(tables);
        assert TableStage(sql, tables, grants, m, rx) == ColumnStage(sql, tables, grants, m, rx);
        ColumnStagePasses(sql, tables, grants, m, rx);
      }
    } else if sql != [] && !Contains(Lower(sql), "interval") {
      assert Validation(sql, tables, grants, m, rx) == Valid(SystemMessage);
    }
  }

  /** A statement that mentions one of the system tables or pragmas is let through
      without any table or column check. */
  lemma SystemQueryBypasses(sql: string, tables: seq<string>, grants: Grants, m: MatchCount, rx: RegexSub)
    requires sql != [] && !Contains(Lower(sql), "interval") && IsSystemQuery(Lower(sql))
    ensures Validation(sql, tables, grants, m, rx) == Valid(SystemMessage)
  {
  }

  /** A statement with no table after FROM, JOIN, UPDATE or INTO is refused. */
  lemma NoTableRefused(sql: string, tables: seq<string>, grants: Grants, m: MatchCount, rx: RegexSub)
    requires sql != [] && !Contains(Lower(sql), "interval") && !IsSystemQuery(Lower(sql))
    requires TableRefs(sql) == []
    ensures Validation(sql, tables, grants, m, rx) == Invalid(NoTablesMessage)
  {
  }

  /** An unknown table for which difflib finds nothing makes the statement invalid, and
      the refusal lists the suggestion for every unknown table. */
  lemma UnmatchedTableRefused(sql: string, tables: seq<string>, grants: Grants, m: MatchCount,
                              rx: RegexSub, k: nat)
    requires sql != [] && !Contains(Lower(sql), "interval") && !IsSystemQuery(Lower(sql))
    requires k < |Unknown(Mentioned(sql), Norms(tables))|
    requires CloseMatch(m, Unknown(Mentioned(sql), Norms(tables))[k], Norms(tables)).None?
    ensures var unknowns := Unknown(Mentioned(sql), Norms(tables));
            Validation(sql, tables, grants, m, rx) == Invalid(UnknownTablesMessage(Suggestions(m, unknowns, tables)))
  {
    var unknowns := Unknown(Mentioned(sql), Norms(tables));
    var suggestions := Suggestions(m, unknowns, tables);
    assert Validation(sql, tables, grants, m, rx)
           == UnknownTablesVerdict(sql, suggestions, TableCorrections(m, unknowns, tables));
    SuggestionAt(m, unknowns, tables, k);
    var h := unknowns[k];
    var lead := "'" + h + "' ";
    assert suggestions[k] == lead + NoMatchNote;
    ContainsSuffix(lead, NoMatchNote);
  }

  /** Normalising a name never introduces a `(`. */
  lemma NormNoParen(t: string)
    requires '(' !in t
    ensures '(' !in Norm(t)
  {
    var low := Lower(t);
    assert '(' !in low by {
      forall i | 0 <= i < |low| ensures low[i] != '(' {
        assert t[i] in t;
      }
    }
    var a, b := StripSlice(RemoveChar(low, '`'));
  }

  /** A correction note never reads as a missing match, when neither name has a `(`. */
  lemma CorrectionNoteMatches(h: string, c: string)
    requires '(' !in h && '(' !in c
    ensures !Contains("'" + h + "' (auto-corrected to '" + c + "')", NoMatchNote)
  {
    var left := "'" + h + "' ";
    var right := "auto-corrected to '" + c + "')";
    assert "'" + h + "' (auto-corrected to '" + c + "')" == left + "(" + right;
    assert '(' !in right && right[0] == 'a';
    assert NoMatchNote[0] == '(' && NoMatchNote[1] == 'n';
    SingleParenMisses(left, right, NoMatchNote);
  }

  /** A text whose only `(` is followed by a character other than the second one of
      `sub`, where `sub` opens with `(`, does not contain `sub`. */
  lemma SingleParenMisses(left: string, right: string, sub: string)
    requires '(' !in left && '(' !in right && right != []
    requires |sub| >= 2 && sub[0] == '(' && sub[1] != right[0]
    ensures !Contains(left + "(" + right, sub)
  {
    var s := left + "(" + right;
    forall p: nat | p <= |s| ensures !OccursAt(s, sub, p) {
      if p + |sub| <= |s| {
        if p < |left| {
          assert s[p] == left[p];
          assert s[p..p + |sub|][0] != sub[0];
        } else if p == |left| {
          assert s[p + 1] == right[0];
          assert s[p..p + |sub|][1] != sub[1];
        } else {
          assert s[p] == right[p - |left| - 1];
          assert s[p..p + |sub|][0] != sub[0];
        }
      }
    }
  }

  /** Every unknown table is an extracted name, normalised, so it holds no `(`. */
  lemma UnknownNoParen(sql: string, tables: seq<string>, x: string)
    requires x in Unknown(Mentioned(sql), Norms(tables))
    ensures '(' !in x
  {
    var k :| 0 <= k < |Mentioned(sql)| && Mentioned(sql)[k] == x;
    var t := TableRefs(sql)[k];
    assert Plain(t);
    assert '(' !in t by {
      forall i | 0 <= i < |t| ensures t[i] != '(' {
        assert IsWordChar(t[i]);
      }
    }
    NormNoParen(t);
  }

  /** When difflib finds an allowed table for every unknown one, and no allowed name
      holds a `(`, the statement comes back corrected: each unknown name, as a whole
      word, is replaced by its allowed table. */
  lemma AllUnknownTablesCorrected(sql: string, tables: seq<string>, grants: Grants, m: MatchCount, rx: RegexSub)
    requires sql != [] && !Contains(Lower(sql), "interval") && !IsSystemQuery(Lower(sql))
    requires Unknown(Mentioned(sql), Norms(tables)) != []
    requires forall k :: 0 <= k < |Unknown(Mentioned(sql), Norms(tables))| ==>
               CloseMatch(m, Unknown(Mentioned(sql), Norms(tables))[k], Norms(tables)).Some?
    requires forall t :: t in tables ==> '(' !in t
    ensures var unknowns := Unknown(Mentioned(sql), Norms(tables));
            Validation(sql, tables, grants, m, rx)
            == Corrected(CorrectedTablesMessage(Suggestions(m, unknowns, tables)),
                         ApplyTablesFrom(sql, TableCorrections(m, unknowns, tables), 0))
  {
    var unknowns := Unknown(Mentioned(sql), Norms(tables));
    var suggestions := Suggestions(m, unknowns, tables);
    assert Validation(sql, tables, grants, m, rx)
           == UnknownTablesVerdict(sql, suggestions, TableCorrections(m, unknowns, tables));
    forall j | 0 <= j < |suggestions| ensures !Contains(suggestions[j], NoMatchNote) {
      SuggestionAt(m, unknowns, tables, j);
      var c := TableSuggestion(m, unknowns[j], tables).1.value;
      UnknownNoParen(sql, tables, unknowns[j]);
      CorrectionNoteMatches(unknowns[j], c);
    }
  }

  /** Storing one more unknown-to-allowed correction keeps every stored one such. */
  lemma CorrectionStep(acc: seq<(string, string)>, x: string, c: string, h: string,
                       unknowns: seq<string>, tables: seq<string>)
    requires x in unknowns && c in tables
    requires Dict.Lookup(acc, h).Some? ==> h in unknowns && Dict.Lookup(acc, h).value in tables
    ensures var next := Dict.Put(acc, x, c);
            Dict.Lookup(next, h).Some? ==> h in unknowns && Dict.Lookup(next, h).value in tables
  {
    if h == x {
      Dict.PutLookup(acc, h, c);
    } else {
      Dict.PutOther(acc, x, c, h);
    }
  }

  /** The table corrections map an unknown table to an allowed table, so the rewrite
      only ever introduces allowed table names. */
  lemma {:induction false} TableCorrectionsAllowed(m: MatchCount, unknowns: seq<string>, tables: seq<string>,
                                                   i: nat, acc: seq<(string, string)>, h: string)
    requires i <= |unknowns|
    requires Dict.Lookup(acc, h).Some? ==> h in unknowns && Dict.Lookup(acc, h).value in tables
    ensures var d := TableCorrectionsFrom(m, unknowns, tables, i, acc);
            Dict.Lookup(d, h).Some? ==> h in unknowns && Dict.Lookup(d, h).value in tables
    decreases |unknowns| - i
  {
    if i < |unknowns| {
      var corrected := TableSuggestion(m, unknowns[i], tables).1;
      if corrected.Some? {
        var next := Dict.Put(acc, unknowns[i], corrected.value);
        CorrectionStep(acc, unknowns[i], corrected.value, h, unknowns, tables);
        assert TableCorrectionsFrom(m, unknowns, tables, i, acc) == TableCorrectionsFrom(m, unknowns, tables, i + 1, next);
        TableCorrectionsAllowed(m, unknowns, tables, i + 1, next, h);
      } else {
        assert TableCorrectionsFrom(m, unknowns, tables, i, acc) == TableCorrectionsFrom(m, unknowns, tables, i + 1, acc);
        TableCorrectionsAllowed(m, unknowns, tables, i + 1, acc, h);
      }
    }
  }

  /** While some table is unknown, the column grants and the rewrite engine play no part. */
  lemma UnknownTablesIgnoreGrants(sql: string, tables: seq<string>, grants: Grants, grants': Grants,
                                  m: MatchCount, rx: RegexSub, rx': RegexSub)
    requires Unknown(Mentioned(sql), Norms(tables)) != []
    ensures Validation(sql, tables, grants, m, rx) == Validation(sql, tables, grants', m, rx')
  {
  }

  /** An item that can be neither admitted nor corrected makes the statement invalid
      with a refusal, once every extracted table is allowed. */
  lemma RejectedItemRefused(sql: string, tables: seq<string>, grants: Grants, m: MatchCount,
                            rx: RegexSub, k: nat)
    requires sql != [] && !Contains(Lower(sql), "interval") && !IsSystemQuery(Lower(sql))
    requires Mentioned(sql) != [] && AllMentionedAllowed(sql, tables)
    requires k < |Items(sql)| && CheckColumn(Items(sql)[k], tables, grants, MainTable(sql, tables), m).Reject?
    ensures var v := Validation(sql, tables, grants, m, rx);
            v.Invalid? && StartsWith(v.message, RefusalPrefix)
  {
    NoUnknownIff(sql, tables);
    assert Mentioned(sql)[0] in Norms(tables);
    var items, main := Items(sql), MainTable(sql, tables);
    var scan := ScanFrom(items, 0, [], tables, grants, main, m);
    ScanStops(items, 0, [], tables, grants, main, m, k);
    ScanStopRefuses(items, 0, [], tables, grants, main, m);
    assert Validation(sql, tables, grants, m, rx) == TableStage(sql, tables, grants, m, rx);
    assert TableStage(sql, tables, grants, m, rx) == ColumnStage(sql, tables, grants, m, rx);
    assert ColumnStage(sql, tables, grants, m, rx) == AfterScan(sql, scan, rx) == Invalid(scan.message);
  }

  /** A refusal is never the date-arithmetic message. */
  lemma RefusalIsNotDateMessage(message: string)
    requires StartsWith(message, RefusalPrefix)
    ensures message != DateArithmeticMessage
  {
    assert |DateArithmeticMessage| < |RefusalPrefix|;
  }

  /** Nor is a message from the structural checks or from after the scan. */
  lemma AfterScanNotDateMessage(sql: string, scan: Scan, rx: RegexSub)
    requires scan.Stop? ==> StartsWith(scan.message, RefusalPrefix)
    ensures AfterScan(sql, scan, rx) != Invalid(DateArithmeticMessage)
  {
    if scan.Stop? {
      RefusalIsNotDateMessage(scan.message);
    } else if scan.corrections == [] && !NoBrackets(sql) && Count(sql, '(') == Count(sql, ')')
              && !(StartsWith(Lower(sql), "select") && !Contains(Lower(sql), "from")) {
      var message := "Invalid character '" + [FirstBracket(sql)] + "' in SQL query";
      assert Structural(sql) == Invalid(message);
      assert |message| < |DateArithmeticMessage|;
    }
  }

  /** Nor is the refusal of unknown tables. */
  lemma UnknownTablesNotDateMessage(sql: string, suggestions: seq<string>, corrections: seq<(string, string)>)
    ensures UnknownTablesVerdict(sql, suggestions, corrections) != Invalid(DateArithmeticMessage)
  {
    var message := UnknownTablesMessage(suggestions);
    assert message == RefusalPrefix + ("table(s) " + Join(suggestions, ", ")
                      + " which do not exist in your database. Please rephrase your question.");
    assert message[..|RefusalPrefix|] == RefusalPrefix;
    RefusalIsNotDateMessage(message);
  }

  /** Nor is any message of the table stage. */
  lemma TableStageNotDateMessage(sql: string, tables: seq<string>, grants: Grants, m: MatchCount, rx: RegexSub)
    ensures TableStage(sql, tables, grants, m, rx) != Invalid(DateArithmeticMessage)
  {
    var unknowns := Unknown(Mentioned(sql), Norms(tables));
    if unknowns != [] {
      var suggestions, corrections := Suggestions(m, unknowns, tables), TableCorrections(m, unknowns, tables);
      assert TableStage(sql, tables, grants, m, rx) == UnknownTablesVerdict(sql, suggestions, corrections);
      UnknownTablesNotDateMessage(sql, suggestions, corrections);
    } else if Mentioned(sql) != [] {
      NoUnknownIff(sql, tables);
      assert Mentioned(sql)[0] in Norms(tables);
      ColumnStageNotDateMessage(sql, tables, grants, m, rx);
    }
  }

  lemma ColumnStageNotDateMessage(sql: string, tables: seq<string>, grants: Grants, m: MatchCount, rx: RegexSub)
    requires Mentioned(sql) != [] && Mentioned(sql)[0] in Norms(tables)
    ensures ColumnStage(sql, tables, grants, m, rx) != Invalid(DateArithmeticMessage)
  {
    var items, main := Items(sql), MainTable(sql, tables);
    var scan := ScanFrom(items, 0, [], tables, grants, main, m);
    assert ColumnStage(sql, tables, grants, m, rx) == AfterScan(sql, scan, rx);
    ScanStopRefuses(items, 0, [], tables, grants, main, m);
    AfterScanNotDateMessage(sql, scan, rx);
  }

  /** The date-arithmetic message of lines 59-60 is never given: its condition includes
      the `interval` that lines 56-57 have already refused. */
  lemma DateArithmeticUnreachable(sql: string, tables: seq<string>, grants: Grants, m: MatchCount, rx: RegexSub)
    ensures Validation(sql, tables, grants, m, rx) != Invalid(DateArithmeticMessage)
  {
    if sql != [] && !Contains(Lower(sql), "interval") && !IsSystemQuery(Lower(sql)) {
      assert Validation(sql, tables, grants, m, rx) == TableStage(sql, tables, grants, m, rx);
      TableStageNotDateMessage(sql, tables, grants, m, rx);
    }
  }

  // ---------------------------------------------------------------------------
  // validate_sql as the source writes it: loops that build the suggestion list and
  // the correction dictionaries, and that rewrite the statement

  /** Lines 87-94 for one unknown table: the suggestion and the correction, if any. */
  method Suggest(m: MatchCount, unknown: string, tables: seq<string>, norms: seq<string>)
    returns (text: string, corrected: Option<string>)
    requires norms == Norms(tables)
    ensures (text, corrected) == TableSuggestion(m, unknown, tables)
  {
    var close := CloseMatch(m, unknown, norms);
    if close.Some? {
      var c := tables[IndexOf(norms, close.value)];
      text, corrected := "'" + unknown + "' (auto-corrected to '" + c + "')", Some(c);
    } else {
      text, corrected := "'" + unknown + "' " + NoMatchNote, None;
    }
  }

  /** Lines 85-94. */
  method CollectSuggestions(m: MatchCount, unknowns: seq<string>, tables: seq<string>)
    returns (suggestions: seq<string>, corrections: seq<(string, string)>)
    ensures suggestions == Suggestions(m, unknowns, tables)
    ensures corrections == TableCorrections(m, unknowns, tables)
  {
    var norms := Norms(tables);
    suggestions, corrections := [], [];
    for i := 0 to |unknowns|
      invariant Suggestions(m, unknowns, tables) == suggestions + Suggestions(m, unknowns[i..], tables)
      invariant TableCorrections(m, unknowns, tables) == TableCorrectionsFrom(m, unknowns, tables, i, corrections)
    {
      var text, corrected := Suggest(m, unknowns[i], tables, norms);
      if corrected.Some? {
        corrections := Dict.Put(corrections, unknowns[i], corrected.value);
      }
      SuggestionsStep(m, unknowns, tables, i);
      suggestions := suggestions + [text];
    }
    assert unknowns[|unknowns|..] == [];
  }

  /** Lines 99-100. */
  method RewriteTables(sql: string, corrections: seq<(string, string)>) returns (s: string)
    ensures s == ApplyTablesFrom(sql, corrections, 0)
  {
    s := sql;
    for i := 0 to |corrections|
      invariant ApplyTablesFrom(sql, corrections, 0) == ApplyTablesFrom(s, corrections, i)
    {
      var (unknown, corrected) := corrections[i];
      s := Sub(Word(unknown), s, corrected);
    }
  }

  /** Lines 126-129: the first allowed table whose normal form is `part`. */
  method FindAllowedTable(tables: seq<string>, part: string) returns (actual: Option<string>)
    ensures actual == FirstAllowed(tables, part)
  {
    var j := 0;
    while j < |tables|
      invariant j <= |tables|
      invariant FirstAllowed(tables, part) == FirstAllowed(tables[j..], part)
    {
      var t := tables[j];
      assert tables[j..][0] == t && tables[j..][1..] == tables[j + 1..];
      if Norm(t) == part {
        return Some(t);
      }
      j := j + 1;
    }
    assert tables[j..] == [];
    return None;
  }

  /** Lines 116-159 for one SELECT item. */
  method CheckItem(col: string, tables: seq<string>, grants: Grants, main: string, m: MatchCount)
    returns (check: ColumnCheck)
    ensures check == CheckColumn(col, tables, grants, main, m)
  {
    check := Pass;
    if Strip(col) == [] {
      // an empty item, as after a trailing comma
    } else if '.' in col {
      var (tp, cp) := QualifiedParts(col);
      if cp != "*" {
        var actual := FindAllowedTable(tables, tp);
        if actual.None? || actual.value == [] {
          check := Reject(UnknownTableMessage(tp));
        } else {
          check := CheckAgainst(GetGrant(grants, actual.value), cp, (tp, cp), actual.value, m,
                                UnknownColumnMessage(cp, actual.value));
        }
      }
    } else if col != "*" && main != [] {
      check := CheckAgainst(GetGrant(grants, main), Lower(col), (Lower(main), Lower(col)), main, m,
                            UnknownColumnMessage(col, main));
    }
  }

  /** Lines 115-159: the SELECT items in order, stopping at the first rejection. */
  method ScanColumns(items: seq<string>, tables: seq<string>, grants: Grants, main: string, m: MatchCount)
    returns (r: Scan)
    ensures r == ScanFrom(items, 0, [], tables, grants, main, m)
  {
    var corrections: Corrections := [];
    for i := 0 to |items|
      invariant ScanFrom(items, 0, [], tables, grants, main, m) == ScanFrom(items, i, corrections, tables, grants, main, m)
    {
      var check := CheckItem(items[i], tables, grants, main, m);
      match check {
        case Reject(msg) => return Stop(msg);
        case Fix(k, v) => corrections := Dict.Put(corrections, k, v);
        case Pass =>
      }
    }
    r := Continue(corrections);
  }

  /** Lines 162-164; a pattern error leaves the loop as the exception does. */
  method RewriteColumns(sql: string, corrections: Corrections, rx: RegexSub) returns (r: SubResult)
    ensures r == ApplyColumnsFrom(sql, corrections, 0, rx)
  {
    var s := sql;
    for i := 0 to |corrections|
      invariant ApplyColumnsFrom(sql, corrections, 0, rx) == ApplyColumnsFrom(s, corrections, i, rx)
    {
      var step := RewriteColumn(s, corrections[i].0, corrections[i].1, rx);
      if step.PatternError? {
        return step;
      }
      s := step.text;
    }
    r := Replaced(s);
  }

  /** Lines 110-176, once every extracted table is allowed. */
  method ValidateColumns(sql: string, tables: seq<string>, grants: Grants, m: MatchCount, rx: RegexSub,
                         main: string)
    returns (v: Verdict)
    requires Mentioned(sql) != [] && Mentioned(sql)[0] in Norms(tables)
    requires main == MainTable(sql, tables)
    ensures v == ColumnStage(sql, tables, grants, m, rx)
  {
    var scan := ScanColumns(Items(sql), tables, grants, main, m);
    if scan.Stop? {
      return Invalid(scan.message);
    }
    if scan.corrections != [] {
      var rewritten := RewriteColumns(sql, scan.corrections, rx);
      if rewritten.PatternError? {
        return Raised(rewritten.message);
      }
      return Corrected(ColumnsCorrectedMessage, rewritten.text);
    }
    v := StructuralChecks(sql);
  }

  /** Lines 167-176. */
  method StructuralChecks(sql: string) returns (v: Verdict)
    ensures v == Structural(sql)
  {
    if Count(sql, '(') != Count(sql, ')') {
      return Invalid("Unbalanced parentheses");
    }
    var low := Lower(sql);
    if StartsWith(low, "select") && !Contains(low, "from") {
      return Invalid("SELECT query missing FROM clause");
    }
    var invalidChars := "{}[]";
    for k := 0 to |invalidChars|
      invariant forall j :: 0 <= j < k ==> invalidChars[j] !in sql
    {
      if invalidChars[k] in sql {
        return Invalid("Invalid character '" + [invalidChars[k]] + "' in SQL query");
      }
    }
    return Valid(PassedMessage);
  }

  /** Lines 77-103. */
  method ValidateTables(sql: string, tables: seq<string>, grants: Grants, m: MatchCount, rx: RegexSub)
    returns (v: Verdict)
    ensures v == TableStage(sql, tables, grants, m, rx)
  {
    var mentioned := Norms(TableRefs(sql));
    var allowedNorm := Norms(tables);
    var unknowns := Unknown(mentioned, allowedNorm);
    if unknowns != [] {
      var suggestions, corrections := CollectSuggestions(m, unknowns, tables);
      if AnyNoMatch(suggestions) {
        return Invalid(UnknownTablesMessage(suggestions));
      }
      var rewritten := RewriteTables(sql, corrections);
      return Corrected(CorrectedTablesMessage(suggestions), rewritten);
    }
    if mentioned == [] {
      return Invalid(NoTablesMessage);
    }
    assert mentioned[0] in mentioned;
    var main := tables[IndexOf(allowedNorm, mentioned[0])];
    v := ValidateColumns(sql, tables, grants, m, rx, main);
  }

  /** `validate_sql`, step by step as in lines 50-176. */
  method ValidateSql(sql: string, tables: seq<string>, grants: Grants, m: MatchCount, rx: RegexSub)
    returns (v: Verdict)
    ensures v == Validation(sql, tables, grants, m, rx)
  {
    if sql == [] {
      return Invalid("Empty SQL query");
    }
    var low := Lower(sql);
    if Contains(low, "interval") {
      return Invalid(IntervalMessage);
    }
    if Contains(low, "current_date") && Contains(low, "interval") {
      return Invalid(DateArithmeticMessage);
    }
    for k := 0 to |SystemQueries|
      invariant forall j :: 0 <= j < k ==> !Contains(low, SystemQueries[j])
    {
      if Contains(low, SystemQueries[k]) {
        return Valid(SystemMessage);
      }
    }
    v := ValidateTables(sql, tables, grants, m, rx);
  }

  // ---------------------------------------------------------------------------
  // A correction that rewrites nothing (lines 160-165)

  /** Both rewrite patterns of lines 163-164 need a `.`, so for plain names they change
      nothing in a statement without one. */
  lemma RewriteNeedsDot(s: string, key: (string, string), fix: (string, string), rx: RegexSub)
    requires Plain(key.0) && Plain(key.1) && '.' !in s
    ensures RewriteColumn(s, key, fix, rx) == Replaced(s)
  {
    var (tp, cp) := key;
    var (actual, corrected) := fix;
    forall k | 0 <= k < |s| ensures MatchAt(Dotted(tp, cp), s, k).None? {
      if k + |tp| < |s| {
        assert s[k + |tp|] in s;
      }
    }
    ReplaceNoMatch(Dotted(tp, cp), s, actual + "." + corrected, 0);
    forall k | 0 <= k < |s| ensures MatchAt(Ticked(tp, cp), s, k).None? {
      forall b | 0 <= b < |s| ensures s[b] != '.' {
        assert s[b] in s;
      }
    }
    ReplaceNoMatch(Ticked(tp, cp), s, "`" + actual + "`.`" + corrected + "`", 0);
  }

  lemma {:induction false} DotFreeUnchanged(s: string, corrections: Corrections, i: nat, rx: RegexSub)
    requires i <= |corrections| && '.' !in s
    requires forall j :: i <= j < |corrections| ==> Plain(corrections[j].0.0) && Plain(corrections[j].0.1)
    ensures ApplyColumnsFrom(s, corrections, i, rx) == Replaced(s)
    decreases |corrections| - i
  {
    if i < |corrections| {
      RewriteNeedsDot(s, corrections[i].0, corrections[i].1, rx);
      DotFreeUnchanged(s, corrections, i + 1, rx);
    }
  }

  /** A statement without a `.` whose SELECT items get plain corrections comes back
      "corrected" but unchanged, so validating the result gives the same answer again. */
  lemma CorrectionLeavesStatement(sql: string, tables: seq<string>, grants: Grants, m: MatchCount, rx: RegexSub)
    requires sql != [] && !Contains(Lower(sql), "interval") && !IsSystemQuery(Lower(sql))
    requires Mentioned(sql) != [] && AllMentionedAllowed(sql, tables) && '.' !in sql
    requires var scan := ScanFrom(Items(sql), 0, [], tables, grants, MainTable(sql, tables), m);
             && scan.Continue? && scan.corrections != []
             && forall j :: 0 <= j < |scan.corrections| ==>
                  Plain(scan.corrections[j].0.0) && Plain(scan.corrections[j].0.1)
    ensures Validation(sql, tables, grants, m, rx) == Corrected(ColumnsCorrectedMessage, sql)
  {
    NoUnknownIff(sql, tables);
    var scan := ScanFrom(Items(sql), 0, [], tables, grants, MainTable(sql, tables), m);
    DotFreeUnchanged(sql, scan.corrections, 0, rx);
    assert Validation(sql, tables, grants, m, rx) == TableStage(sql, tables, grants, m, rx);
    assert TableStage(sql, tables, grants, m, rx) == ColumnStage(sql, tables, grants, m, rx);
    assert ColumnStage(sql, tables, grants, m, rx) == AfterScan(sql, scan, rx);
  }

  // ---------------------------------------------------------------------------
  // QueryAgent.answer_query and generate_natural_response (lines 219-283)

  /** What `execute_sql_safely` reports: the result set, or the error text. */
  datatype Execution = Rows(table: ResultTable) | ExecutionFailed(message: string)

  /** `execute_sql_safely(sql, db_type, db_info)` against the configured database. */
  type Executor = string -> Execution

  /** A step `answer_query` takes with a statement. */
  datatype Event = Validate(sql: string) | Execute(sql: string)

  /** The `(sql, response, result)` triple, or the exception that leaves `answer_query`. */
  datatype Answer = Answer(sql: Option<string>, response: string, result: Option<ResultTable>)
                  | Raising(message: string)

  const NotAllowedMessage: string :=
    "You are not allowed to access the requested data or the query could not be generated."
  const UnpackMessage: string := "too many values to unpack (expected 2)"
  const NoDataMessage: string := "I couldn't find any data matching your query."

  /** `generate_natural_response`: the fixed no-data reply exactly when there is no
      result or it is empty; otherwise the row and column counts. */
  function NaturalResponse(result: Option<ResultTable>): (r: string)
    ensures r == NoDataMessage <==> result.None? || result.value.Empty()
    ensures result.Some? && !result.value.Empty() ==>
              r == "I found " + NatToString(result.value.rowCount) + " record(s) with "
                   + NatToString(|result.value.columns|) + " field(s) based on your query. "
  {
    if result.None? || result.value.Empty() then NoDataMessage
    else
      var lead := "I found " + NatToString(result.value.rowCount) + " record(s) with ";
      var r := lead + NatToString(|result.value.columns|) + " field(s) based on your query. ";
      assert r[..|lead|] == lead;
      r
  }

  /** Lines 239-243: the RAG statement when it is non-empty and admissible, else the
      full-schema one under the same test. */
  function Chosen(rag: Option<string>, full: Option<string>, tables: seq<string>): (r: Option<string>)
    ensures r.Some? ==> r.value != [] && Admissible(r.value, tables) && (r == rag || r == full)
    ensures rag.Some? && rag.value != [] && Admissible(rag.value, tables) ==> r == rag
    ensures r.None? <==> !(rag.Some? && rag.value != [] && Admissible(rag.value, tables))
                         && !(full.Some? && full.value != [] && Admissible(full.value, tables))
  {
    if rag.Some? && rag.value != [] && Admissible(rag.value, tables) then rag
    else if full.Some? && full.value != [] && Admissible(full.value, tables) then full
    else None
  }

  /** Lines 268-275. */
  function Run(sql: string, exec: Executor, events: seq<Event>): (r: (Answer, seq<Event>))
    ensures r.1 == events + [Execute(sql)]
    ensures r.0.Answer? && r.0.sql == Some(sql)
  {
    match exec(sql)
    case ExecutionFailed(e) => (Answer(Some(sql), "Error executing SQL: " + e, None), events + [Execute(sql)])
    case Rows(t) => (Answer(Some(sql), NaturalResponse(Some(t)), Some(t)), events + [Execute(sql)])
  }

  /** A statement validator: `validate_sql` with its table list, grants, match count
      and regular-expression engine fixed. */
  type Validator = string -> Verdict

  /** Lines 255-260, given the verdict on the corrected statement. As written, a verdict
      with three values fails the two-name unpacking; otherwise it is reported like any
      other failed validation. Only a valid corrected statement runs. */
  function Recheck(v: Verdict, corrected: string, exec: Executor, events: seq<Event>,
                   asWritten: bool): (r: (Answer, seq<Event>))
    ensures r.1 == events || (r.1 == events + [Execute(corrected)] && v.Valid?)
    ensures r.0.Answer? && r.0.result.Some? ==> r.0.sql == Some(corrected) && r.1 == events + [Execute(corrected)]
    ensures r.0.Raising? ==> v.Raised? || (asWritten && v.Corrected? && r.0.message == UnpackMessage)
  {
    match v
    case Valid(_) => Run(corrected, exec, events)
    case Invalid(msg) =>
      (Answer(Some(corrected), "SQL validation failed after correction: " + msg, None), events)
    case Corrected(msg, _) =>
      if asWritten then (Raising(UnpackMessage), events)
      else (Answer(Some(corrected), "SQL validation failed after correction: " + msg, None), events)
    case Raised(e) => (Raising(e), events)
  }

  /** Lines 244-275 for the chosen statement: validate it, re-validate a corrected
      statement once, and run only a statement that was found valid. */
  function Attempt(sql: string, validate: Validator, exec: Executor, asWritten: bool): (r: (Answer, seq<Event>))
    ensures 1 <= |r.1| <= 3 && r.1[0] == Validate(sql)
    ensures forall k :: 0 <= k < |r.1| && r.1[k].Validate? ==> k < 2
    ensures forall k :: 0 <= k < |r.1| && r.1[k].Execute? ==>
              && k == |r.1| - 1 && k > 0
              && r.1[k - 1] == Validate(r.1[k].sql)
              && validate(r.1[k].sql).Valid?
    ensures r.0.Answer? && r.0.result.Some? ==> r.0.sql.Some? && r.1[|r.1| - 1] == Execute(r.0.sql.value)
    ensures r.0.Raising? ==> || (exists k :: 0 <= k < |r.1| && r.1[k].Validate? && validate(r.1[k].sql).Raised?)
                             || (asWritten && r.0.message == UnpackMessage)
  {
    match validate(sql)
    case Corrected(_, corrected) =>
      var r := Recheck(validate(corrected), corrected, exec, [Validate(sql), Validate(corrected)], asWritten);
      assert r.1[1] == Validate(corrected);
      r
    case Valid(_) => Run(sql, exec, [Validate(sql)])
    case Invalid(msg) => (Answer(Some(sql), "SQL validation failed: " + msg, None), [Validate(sql)])
    case Raised(e) => (Raising(e), [Validate(sql)])
  }

  /** Lines 229-275 once the two statements are generated, returning the answer and the
      statements validated and executed, in order. No statement runs before it has
      passed validation; at most two are validated; the RAG statement is preferred. */
  function Respond(tables: seq<string>, validate: Validator, rag: Generated, full: Generated,
                   exec: Executor, asWritten: bool): (r: (Answer, seq<Event>))
    ensures |r.1| <= 3
    ensures forall k :: 0 <= k < |r.1| && r.1[k].Validate? ==> k < 2
    ensures forall k :: 0 <= k < |r.1| && r.1[k].Execute? ==>
              && k == |r.1| - 1 && k > 0
              && r.1[k - 1] == Validate(r.1[k].sql)
              && validate(r.1[k].sql).Valid?
    ensures r.1 != [] ==> && rag.Generated? && full.Generated? && r.1[0].Validate?
                          && Chosen(rag.sql, full.sql, tables) == Some(r.1[0].sql)
    ensures r.0.Answer? && r.0.result.Some? ==> r.0.sql.Some? && r.1 != [] && r.1[|r.1| - 1] == Execute(r.0.sql.value)
    ensures rag.Generated? && full.Generated? && Chosen(rag.sql, full.sql, tables).None?
            ==> r == (Answer(None, NotAllowedMessage, None), [])
    ensures r.0.Raising? ==> || rag.GenerationFailed? || full.GenerationFailed?
                             || (exists k :: 0 <= k < |r.1| && r.1[k].Validate? && validate(r.1[k].sql).Raised?)
                             || (asWritten && r.0.message == UnpackMessage)
  {
    if rag.GenerationFailed? then (Raising(rag.message), [])
    else if full.GenerationFailed? then (Raising(full.message), [])
    else
      match Chosen(rag.sql, full.sql, tables)
      case None => (Answer(None, NotAllowedMessage, None), [])
      case Some(sql) => Attempt(sql, validate, exec, asWritten)
  }

  /** `validate_sql` for one session's tables and grants. */
  function SessionValidator(tables: seq<string>, grants: Grants, m: MatchCount, rx: RegexSub): Validator {
    sql => Validation(sql, tables, grants, m, rx)
  }

  /** `answer_query` as the source writes it, with the two generated statements, the
      match count, the regular-expression engine and the database as parameters. */
  function AnswerQueryAsWritten(tables: seq<string>, grants: Grants, rag: Generated, full: Generated,
                                m: MatchCount, rx: RegexSub, exec: Executor): (r: (Answer, seq<Event>))
    ensures r.0.Raising? ==> || rag.GenerationFailed? || full.GenerationFailed?
                             || r.0.message == UnpackMessage
                             || exists k :: 0 <= k < |r.1| && r.1[k].Validate?
                                  && Validation(r.1[k].sql, tables, grants, m, rx).Raised?
    ensures forall k :: 0 <= k < |r.1| && r.1[k].Execute? ==>
              && k > 0 && r.1[k - 1] == Validate(r.1[k].sql)
              && Validation(r.1[k].sql, tables, grants, m, rx).Valid?
    ensures r.0.Answer? && r.0.result.Some? ==>
              r.0.sql.Some? && Validation(r.0.sql.value, tables, grants, m, rx).Valid?
  {
    Respond(tables, SessionValidator(tables, grants, m, rx), rag, full, exec, true)
  }

  /** `answer_query` with a second correction reported as a failed validation: it
      raises only when generation failed or validation raised. */
  function AnswerQuery(tables: seq<string>, grants: Grants, rag: Generated, full: Generated,
                       m: MatchCount, rx: RegexSub, exec: Executor): (r: (Answer, seq<Event>))
    ensures r.0.Raising? ==> || rag.GenerationFailed? || full.GenerationFailed?
                             || exists k :: 0 <= k < |r.1| && r.1[k].Validate?
                                  && Validation(r.1[k].sql, tables, grants, m, rx).Raised?
    ensures forall k :: 0 <= k < |r.1| && r.1[k].Execute? ==>
              && k > 0 && r.1[k - 1] == Validate(r.1[k].sql)
              && Validation(r.1[k].sql, tables, grants, m, rx).Valid?
    ensures r.0.Answer? && r.0.result.Some? ==>
              r.0.sql.Some? && Validation(r.0.sql.value, tables, grants, m, rx).Valid?
  {
    Respond(tables, SessionValidator(tables, grants, m, rx), rag, full, exec, false)
  }

  /** The two versions of `answer_query` part only where the one as written raises the
      unpacking error; the corrected one then gives an answer, and both take the same
      steps. */
  lemma AnswerQueryVersions(tables: seq<string>, grants: Grants, rag: Generated, full: Generated,
                            m: MatchCount, rx: RegexSub, exec: Executor)
    ensures AnswerQuery(tables, grants, rag, full, m, rx, exec).1
            == AnswerQueryAsWritten(tables, grants, rag, full, m, rx, exec).1
    ensures AnswerQuery(tables, grants, rag, full, m, rx, exec).0
            != AnswerQueryAsWritten(tables, grants, rag, full, m, rx, exec).0
            ==> && AnswerQueryAsWritten(tables, grants, rag, full, m, rx, exec).0 == Raising(UnpackMessage)
                && AnswerQuery(tables, grants, rag, full, m, rx, exec).0.Answer?
                && AnswerQuery(tables, grants, rag, full, m, rx, exec).0.result.None?
  {
    RespondVersions(tables, SessionValidator(tables, grants, m, rx), rag, full, exec);
  }

  /** The same for any validator. */
  lemma RespondVersions(tables: seq<string>, validate: Validator, rag: Generated, full: Generated,
                        exec: Executor)
    ensures Respond(tables, validate, rag, full, exec, false).1 == Respond(tables, validate, rag, full, exec, true).1
    ensures Respond(tables, validate, rag, full, exec, false).0 != Respond(tables, validate, rag, full, exec, true).0
            ==> && Respond(tables, validate, rag, full, exec, true).0 == Raising(UnpackMessage)
                && Respond(tables, validate, rag, full, exec, false).0.Answer?
                && Respond(tables, validate, rag, full, exec, false).0.result.None?
  {
    if rag.Generated? && full.Generated? && Chosen(rag.sql, full.sql, tables).Some? {
      var sql := Chosen(rag.sql, full.sql, tables).value;
      if validate(sql).Corrected? {
        var c := validate(sql).sql;
        var events := [Validate(sql), Validate(c)];
        assert Attempt(sql, validate, exec, true) == Recheck(validate(c), c, exec, events, true);
        assert Attempt(sql, validate, exec, false) == Recheck(validate(c), c, exec, events, false);
      }
    }
  }

  /** As written, a corrected statement that validation corrects again makes
      `answer_query` raise instead of answering. */
  lemma DoubleCorrectionRaises(tables: seq<string>, grants: Grants, rag: Generated, full: Generated,
                               m: MatchCount, rx: RegexSub, exec: Executor)
    requires rag.Generated? && full.Generated? && Chosen(rag.sql, full.sql, tables).Some?
    requires var v := Validation(Chosen(rag.sql, full.sql, tables).value, tables, grants, m, rx);
             v.Corrected? && Validation(v.sql, tables, grants, m, rx).Corrected?
    ensures AnswerQueryAsWritten(tables, grants, rag, full, m, rx, exec).0 == Raising(UnpackMessage)
  {
    CorrectedTwice(tables, SessionValidator(tables, grants, m, rx), rag, full, exec, true);
  }

  /** What `answer_query` does with a statement that validation corrects, and whose
      correction it corrects again: as written, the unpacking raises; corrected, the
      second correction is reported as a failed validation. */
  lemma CorrectedTwice(tables: seq<string>, validate: Validator, rag: Generated, full: Generated,
                       exec: Executor, asWritten: bool)
    requires rag.Generated? && full.Generated? && Chosen(rag.sql, full.sql, tables).Some?
    requires var v := validate(Chosen(rag.sql, full.sql, tables).value);
             v.Corrected? && validate(v.sql).Corrected?
    ensures var v := validate(Chosen(rag.sql, full.sql, tables).value);
            Respond(tables, validate, rag, full, exec, asWritten).0
            == if asWritten then Raising(UnpackMessage)
               else Answer(Some(v.sql), "SQL validation failed after correction: " + validate(v.sql).message, None)
  {
    var sql := Chosen(rag.sql, full.sql, tables).value;
    var v := validate(sql);
    assert Respond(tables, validate, rag, full, exec, asWritten) == Attempt(sql, validate, exec, asWritten);
    assert Attempt(sql, validate, exec, asWritten)
           == Recheck(validate(v.sql), v.sql, exec, [Validate(sql), Validate(v.sql)], asWritten);
  }

  /** In particular when the chosen statement names a misspelt column without a table
      prefix and holds no `.`: the column correction rewrites nothing, the statement is
      corrected again, and the unpacking fails. The corrected `AnswerQuery` reports a
      failed validation instead. */
  lemma BareColumnCorrectionRaises(tables: seq<string>, grants: Grants, rag: Generated, full: Generated,
                                   m: MatchCount, rx: RegexSub, exec: Executor)
    requires rag.Generated? && full.Generated? && Chosen(rag.sql, full.sql, tables).Some?
    requires var sql := Chosen(rag.sql, full.sql, tables).value;
             && !Contains(Lower(sql), "interval") && !IsSystemQuery(Lower(sql))
             && Mentioned(sql) != [] && AllMentionedAllowed(sql, tables) && '.' !in sql
             && var scan := ScanFrom(Items(sql), 0, [], tables, grants, MainTable(sql, tables), m);
                && scan.Continue? && scan.corrections != []
                && forall j :: 0 <= j < |scan.corrections| ==>
                     Plain(scan.corrections[j].0.0) && Plain(scan.corrections[j].0.1)
    ensures AnswerQueryAsWritten(tables, grants, rag, full, m, rx, exec).0 == Raising(UnpackMessage)
    ensures var sql := Chosen(rag.sql, full.sql, tables).value;
            AnswerQuery(tables, grants, rag, full, m, rx, exec).0
            == Answer(Some(sql), "SQL validation failed after correction: " + ColumnsCorrectedMessage, None)
  {
    var sql := Chosen(rag.sql, full.sql, tables).value;
    CorrectionLeavesStatement(sql, tables, grants, m, rx);
    var validate := SessionValidator(tables, grants, m, rx);
    assert validate(sql) == Corrected(ColumnsCorrectedMessage, sql);
    CorrectedTwice(tables, validate, rag, full, exec, true);
    CorrectedTwice(tables, validate, rag, full, exec, false);
  }

  // ---------------------------------------------------------------------------
  // format_context_rows (lines 36-46)

  /** `f"{row['Table']}.{row['Column']}: {row['Column Description']}"`. */
  function ContextLine(row: DictRow): string {
    row.table + "." + row.column + ": " + row.description
  }

  function ContextLines(rows: seq<DictRow>): (r: seq<string>)
    ensures |r| == |rows| && forall k :: 0 <= k < |rows| ==> r[k] == ContextLine(rows[k])
  {
    seq(|rows|, k requires 0 <= k < |rows| => ContextLine(rows[k]))
  }

  method FormatContextRows(rows: seq<DictRow>) returns (text: string)
    ensures text == Join(ContextLines(rows), "\n")
  {
    if rows == [] {
      return "";
    }
    var lines: seq<string> := [];
    for i := 0 to |rows|
      invariant lines == ContextLines(rows[..i])
    {
      lines := lines + [ContextLine(rows[i])];
    }
    assert rows[..|rows|] == rows;
    text := Join(lines, "\n");
  }

  /** The context splits back into one line per row, each naming its table and column,
      provided no field holds a newline. */
  lemma ContextRoundTrip(rows: seq<DictRow>)
    requires rows != []
    requires forall k :: 0 <= k < |rows| ==> '\n' !in ContextLine(rows[k])
    ensures var lines := SplitOn(Join(ContextLines(rows), "\n"), '\n');
            && |lines| == |rows|
            && forall k :: 0 <= k < |rows| ==> StartsWith(lines[k], rows[k].table + "." + rows[k].column + ": ")
  {
    var lines := ContextLines(rows);
    SplitJoin(lines, '\n');
    forall k | 0 <= k < |rows| ensures StartsWith(lines[k], rows[k].table + "." + rows[k].column + ": ") {
      assert lines[k] == (rows[k].table + "." + rows[k].column + ": ") + rows[k].description;
    }
  }
}
