/** How a role's row of the role-access sheet is read: `get_allowed_tables` and
    `get_allowed_columns`. The application and the sheet generator carry the same
    definitions, so they are stated once here and used by both. */
module Policy {
  import opened Maybe
  import opened Text
  import opened Schema

  /** `str(access).strip()` is non-empty: the cell grants its table. A missing cell
      reads as `"nan"` and therefore grants it too. */
  predicate CellGrants(c: Cell) {
    Strip(CellText(c)) != []
  }

  /** `xs` is `ys` with some elements left out, the rest in their order. */
  predicate Subsequence(xs: seq<string>, ys: seq<string>)
    decreases |ys|
  {
    if xs == [] then true
    else if ys == [] then false
    else (xs[0] == ys[0] && Subsequence(xs[1..], ys[1..])) || Subsequence(xs, ys[1..])
  }

  predicate Distinct(xs: seq<string>) {
    forall i, j :: 0 <= i < j < |xs| ==> xs[i] != xs[j]
  }

  /** The tables of one row whose cells grant them, in column order. */
  function GrantedTables(tables: seq<string>, cells: seq<Cell>): (r: seq<string>)
    requires |tables| == |cells|
    ensures Subsequence(r, tables)
  {
    if tables == [] then []
    else
      var rest := GrantedTables(tables[1..], cells[1..]);
      if CellGrants(cells[0]) then [tables[0]] + rest else rest
  }

  /** A subsequence takes its elements from the longer list. */
  lemma {:induction false} SubsequenceIn(xs: seq<string>, ys: seq<string>, t: string)
    requires Subsequence(xs, ys) && t in xs
    ensures t in ys
    decreases |ys|
  {
    if xs[0] == ys[0] && Subsequence(xs[1..], ys[1..]) {
      if t != xs[0] {
        SubsequenceIn(xs[1..], ys[1..], t);
      }
    } else {
      SubsequenceIn(xs, ys[1..], t);
    }
  }

  /** With distinct table names, a table is granted exactly when its cell grants it. */
  lemma {:induction false} GrantedIff(tables: seq<string>, cells: seq<Cell>, i: nat)
    requires |tables| == |cells| && Distinct(tables) && i < |tables|
    ensures tables[i] in GrantedTables(tables, cells) <==> CellGrants(cells[i])
    decreases |tables|
  {
    var rest := GrantedTables(tables[1..], cells[1..]);
    assert GrantedTables(tables, cells) == if CellGrants(cells[0]) then [tables[0]] + rest else rest;
    if i == 0 {
      forall j | 0 <= j < |tables| - 1 ensures tables[1..][j] != tables[0] {
        assert tables[1..][j] == tables[j + 1];
      }
      if tables[0] in rest {
        SubsequenceIn(rest, tables[1..], tables[0]);
      }
    } else {
      assert tables[1..][i - 1] == tables[i] && cells[1..][i - 1] == cells[i];
      assert tables[i] != tables[0];
      assert Distinct(tables[1..]) by {
        forall a, b | 0 <= a < b < |tables| - 1 ensures tables[1..][a] != tables[1..][b] {
          assert tables[1..][a] == tables[a + 1] && tables[1..][b] == tables[b + 1];
        }
      }
      GrantedIff(tables[1..], cells[1..], i - 1);
    }
  }

  /** `role_access.loc[role]`, when the sheet exists and has the role. */
  function RoleRow(role: string, ra: Option<RoleAccess>): Option<seq<Cell>> {
    if ra.Some? && role in ra.value.rows then Some(ra.value.rows[role]) else None
  }

  /** `get_allowed_tables(role, role_access)`: nothing for an absent sheet or role;
      otherwise exactly the tables whose cell is non-blank once stringified, in the
      sheet's column order. */
  function GetAllowedTables(role: string, ra: Option<RoleAccess>): (r: seq<string>)
    requires ra.Some? ==> ra.value.WellFormed()
    ensures RoleRow(role, ra).None? ==> r == []
    ensures RoleRow(role, ra).Some? ==>
              && Subsequence(r, ra.value.tables)
              && forall i :: 0 <= i < |ra.value.tables| ==>
                   (ra.value.tables[i] in r <==> CellGrants(ra.value.rows[role][i]))
  {
    match RoleRow(role, ra)
    case None => []
    case Some(cells) =>
      forall i | 0 <= i < |ra.value.tables| ensures ra.value.tables[i] in GrantedTables(ra.value.tables, cells) <==> CellGrants(cells[i]) {
        GrantedIff(ra.value.tables, cells, i);
      }
      GrantedTables(ra.value.tables, cells)
  }

  /** The pieces `c.strip()` of `s.split(',')` that are non-blank, in order. */
  function ColumnList(s: string): (r: seq<string>)
    ensures forall k :: 0 <= k < |r| ==> Clean(r[k]) && ',' !in r[k]
  {
    StrippedPieces(SplitOn(s, ','))
  }

  /** A non-empty name without whitespace at either end. */
  predicate Clean(c: string) {
    c != [] && !IsSpace(c[0]) && !IsSpace(c[|c| - 1])
  }

  function StrippedPieces(parts: seq<string>): (r: seq<string>)
    requires forall k :: 0 <= k < |parts| ==> ',' !in parts[k]
    ensures forall k :: 0 <= k < |r| ==> Clean(r[k]) && ',' !in r[k]
  {
    if parts == [] then []
    else
      var c := Strip(parts[0]);
      StripSubset(parts[0]);
      var rest := StrippedPieces(parts[1..]);
      if c != [] then [c] + rest else rest
  }

  /** Clean piece names survive `','.join` then the comma split. */
  lemma {:induction false} PiecesOfClean(cols: seq<string>)
    requires forall k :: 0 <= k < |cols| ==> Clean(cols[k]) && ',' !in cols[k]
    ensures StrippedPieces(cols) == cols
  {
    if cols != [] {
      StripClean(cols[0]);
      PiecesOfClean(cols[1..]);
    }
  }

  /** Writing a column list the way the sheet stores it and reading it back gives the
      list back. */
  lemma ColumnListRoundTrip(cols: seq<string>)
    requires cols != []
    requires forall k :: 0 <= k < |cols| ==> Clean(cols[k]) && ',' !in cols[k]
    ensures ColumnList(Join(cols, ",")) == cols
  {
    SplitJoin(cols, ',');
    PiecesOfClean(cols);
  }

  /** `allowed.get(table, '')`. */
  function CellFor(cells: seq<Cell>, tables: seq<string>, table: string): Cell
    requires |cells| == |tables|
  {
    if table in tables then cells[IndexOf(tables, table)] else Str("")
  }

  /** `get_allowed_columns(role, table, role_access, table_cols)`. */
  function GetAllowedColumns(role: string, table: string, ra: Option<RoleAccess>,
                             tableCols: map<string, seq<string>>): (r: seq<string>)
    requires ra.Some? ==> ra.value.WellFormed()
    ensures RoleRow(role, ra).None? ==> r == []
    ensures RoleRow(role, ra).Some? ==>
              var cell := CellFor(ra.value.rows[role], ra.value.tables, table);
              && (cell.Missing? ==> r == [])
              && (cell.Str? && Upper(Strip(cell.s)) == "ALL" ==>
                    r == if table in tableCols then tableCols[table] else [])
              && (cell.Str? && Upper(Strip(cell.s)) != "ALL" ==>
                    forall k :: 0 <= k < |r| ==> Clean(r[k]) && ',' !in r[k])
    ensures table !in tableCols ==> forall k :: 0 <= k < |r| ==> Clean(r[k]) && ',' !in r[k]
  {
    match RoleRow(role, ra)
    case None => []
    case Some(cells) =>
      match CellFor(cells, ra.value.tables, table)
      case Missing => []
      case Str(s) =>
        if Upper(Strip(s)) == "ALL" then (if table in tableCols then tableCols[table] else [])
        else if Strip(s) != [] then ColumnList(s)
        else []
  }

  /** A list cell holding clean names joined by commas grants exactly those names. */
  lemma ListedColumns(role: string, table: string, ra: Option<RoleAccess>,
                      tableCols: map<string, seq<string>>, cols: seq<string>)
    requires ra.Some? && ra.value.WellFormed() && role in ra.value.rows
    requires CellFor(ra.value.rows[role], ra.value.tables, table) == Str(Join(cols, ","))
    requires cols != [] && Upper(Join(cols, ",")) != "ALL"
    requires forall k :: 0 <= k < |cols| ==> Clean(cols[k]) && ',' !in cols[k]
    ensures GetAllowedColumns(role, table, ra, tableCols) == cols
  {
    var s := Join(cols, ",");
    JoinClean(cols);
    StripClean(s);
    ColumnListRoundTrip(cols);
    ColumnsOfListCell(role, table, ra, tableCols, s);
  }

  /** A cell holding a non-blank string other than `ALL` grants its comma-separated
      pieces. */
  lemma ColumnsOfListCell(role: string, table: string, ra: Option<RoleAccess>,
                          tableCols: map<string, seq<string>>, s: string)
    requires ra.Some? && ra.value.WellFormed() && role in ra.value.rows
    requires CellFor(ra.value.rows[role], ra.value.tables, table) == Str(s)
    requires Strip(s) != [] && Upper(Strip(s)) != "ALL"
    ensures GetAllowedColumns(role, table, ra, tableCols) == ColumnList(s)
  {
  }

  /** Clean names joined by commas have no whitespace at either end. */
  lemma {:induction false} JoinClean(cols: seq<string>)
    requires cols != []
    requires forall k :: 0 <= k < |cols| ==> Clean(cols[k])
    ensures Clean(Join(cols, ","))
  {
    if |cols| > 1 {
      JoinClean(cols[1..]);
      var t := Join(cols[1..], ",");
      assert Join(cols, ",") == cols[0] + "," + t;
    }
  }
}
