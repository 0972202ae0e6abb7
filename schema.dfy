/** The values the pipeline passes around: column grants, the role-access frame, the
    data-dictionary rows and the tabular results of executed statements. */
module Schema {
  import opened Maybe

  /** One value of the `allowed_columns` dictionary: the string `'ALL'` or a list of
      column names. */
  datatype Grant = All | Cols(names: seq<string>)

  /** `allowed_columns`: table name to grant. */
  type Grants = map<string, Grant>

  /** `allowed_columns.get(table, [])`. */
  function GetGrant(grants: Grants, table: string): Grant {
    if table in grants then grants[table] else Cols([])
  }

  /** What iterating over a grant yields: a list gives its names, the string `'ALL'`
      gives its three characters. */
  function GrantItems(g: Grant): seq<string> {
    match g
    case All => ["A", "L", "L"]
    case Cols(names) => names
  }

  /** One cell of the role-access sheet: a string, or an empty cell that pandas reads
      as NaN and `str()` renders as `"nan"`. */
  datatype Cell = Str(s: string) | Missing

  function CellText(c: Cell): string {
    match c
    case Str(s) => s
    case Missing => "nan"
  }

  /** The role-access sheet: one row per role (the frame's index), one column per
      table, in column order. */
  datatype RoleAccess = RoleAccess(tables: seq<string>, rows: map<string, seq<Cell>>) {
    /** A frame has distinct column labels and a cell for every column in every row. */
    predicate WellFormed() {
      && (forall i, j :: 0 <= i < j < |tables| ==> tables[i] != tables[j])
      && (forall r :: r in rows ==> |rows[r]| == |tables|)
    }
  }

  /** One row of the data dictionary. */
  datatype DictRow = DictRow(table: string, column: string, description: string)

  /** A result set: its number of rows and its column labels. */
  datatype ResultTable = ResultTable(rowCount: nat, columns: seq<string>) {
    /** `DataFrame.empty`: no rows or no columns. */
    predicate Empty() {
      rowCount == 0 || columns == []
    }
  }
}
