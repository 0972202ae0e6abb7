/** The role-access sheet generator: the fixed policy per role, the pass that fills
    every role's row with every database table, the frame it becomes, and the
    generator's own login check. */
module Roles {
  import opened Maybe
  import opened Text
  import opened Schema
  import opened Dict
  import opened Policy

  /** `ROLES`, in the order the sheet lists them. */
  const RoleOrder: seq<string> := ["Teller", "Manager", "Auditor", "IT", "Customer Service"]

  /** One role's policy: table name to access string, in insertion order. */
  type Row = seq<(string, string)>

  const TellerRow: Row := [
    ("cust_mast", "cust_id,cust_name,phone"),
    ("acct_mast", "acct_id,cust_id,acct_type,balance"),
    ("txn_hist", "ALL"),
    ("emp_mast", ""),
    ("branch_mast", ""),
    ("dept_mast", ""),
    ("card_mast", "acct_id,card_id,card_type,status"),
    ("loan_mast", ""),
    ("amc_mast", ""),
    ("amc_bank_dtl", ""),
    ("euin_mast", "")
  ]

  const ServiceRow: Row := [
    ("cust_mast", "cust_id,cust_name,phone,address"),
    ("acct_mast", "acct_id,cust_id,acct_type,balance"),
    ("txn_hist", ""),
    ("emp_mast", ""),
    ("branch_mast", ""),
    ("dept_mast", ""),
    ("card_mast", "acct_id,card_id,card_type,status"),
    ("loan_mast", ""),
    ("amc_mast", ""),
    ("amc_bank_dtl", ""),
    ("euin_mast", "")
  ]

  /** `{t: 'ALL' for t in table_cols}`. */
  function AllRow(tables: seq<string>): (r: Row)
    ensures forall t :: Lookup(r, t) == if t in tables then Some("ALL") else None
  {
    if tables == [] then []
    else [(tables[0], "ALL")] + AllRow(tables[1..])
  }

  /** The `access` dictionary before the fill loop, one row per role of `RoleOrder`. */
  function InitialAccess(tables: seq<string>): (r: seq<Row>)
    ensures |r| == |RoleOrder|
  {
    [TellerRow, AllRow(tables), AllRow(tables), AllRow(tables), ServiceRow]
  }

  /** What the fill loop leaves under `t` in a row: the existing entry, `''` for a
      database table the row lacks, nothing otherwise. */
  function Filled(row: Row, tables: seq<string>, t: string): (r: Option<string>)
    ensures r.Some? <==> Lookup(row, t).Some? || t in tables
  {
    if Lookup(row, t).Some? then Lookup(row, t) else if t in tables then Some("") else None
  }

  /** The loop at lines 66-69: every row gains an empty entry for each table of
      `tables` it lacks, and keeps every entry it had. */
  method FillMissing(access: seq<Row>, tables: seq<string>) returns (filled: seq<Row>)
    ensures |filled| == |access|
    ensures forall r, t :: 0 <= r < |access| && t in tables ==> Lookup(filled[r], t).Some?
    ensures forall r, t :: 0 <= r < |access| && Lookup(access[r], t).Some? ==>
              Lookup(filled[r], t) == Lookup(access[r], t)
    ensures forall r, t :: 0 <= r < |access| && Lookup(access[r], t).None? ==>
              Lookup(filled[r], t) == if t in tables then Some("") else None
  {
    filled := access;
    for r := 0 to |access|
      invariant |filled| == |access|
      invariant forall q :: r <= q < |access| ==> filled[q] == access[q]
      invariant forall q, t :: 0 <= q < r ==> Lookup(filled[q], t) == Filled(access[q], tables, t)
    {
      var row := FillRow(access[r], tables);
      filled := filled[r := row];
    }
  }

  /** The inner loop at lines 67-69, for one role's row. */
  method FillRow(row: Row, tables: seq<string>) returns (out: Row)
    ensures forall t :: Lookup(out, t) == Filled(row, tables, t)
  {
    out := row;
    for j := 0 to |tables|
      invariant forall t :: Lookup(out, t) == Filled(row, tables[..j], t)
    {
      var t := tables[j];
      assert tables[..j + 1] == tables[..j] + [t];
      if Lookup(out, t).None? {
        var before := out;
        out := Put(out, t, "");
        PutLookup(before, t, "");
        forall u | u != t ensures Lookup(out, u) == Lookup(before, u) {
          PutOther(before, t, "", u);
        }
      }
    }
    assert tables[..|tables|] == tables;
  }

  /** `acc` followed by the keys of `keys` it lacks, each once. */
  function AddNew(acc: seq<string>, keys: seq<string>): (r: seq<string>)
    requires Distinct(acc)
    ensures Distinct(r)
    ensures forall t :: t in r <==> t in acc || t in keys
    decreases |keys|
  {
    if keys == [] then acc
    else if keys[0] in acc then AddNew(acc, keys[1..])
    else AddNew(acc + [keys[0]], keys[1..])
  }

  /** The union of the rows' keys: the columns of `DataFrame.from_dict(access,
      orient='index')`. */
  function KeyUnion(rows: seq<Row>): (r: seq<string>)
    ensures Distinct(r)
    ensures forall t :: t in r <==> exists i :: 0 <= i < |rows| && Lookup(rows[i], t).Some?
  {
    if rows == [] then []
    else
      var rest := KeyUnion(rows[1..]);
      forall t ensures Lookup(rows[0], t).Some? <==> t in Keys(rows[0]) {
        LookupKeys(rows[0], t);
      }
      forall t | exists i :: 0 <= i < |rows| && Lookup(rows[i], t).Some?
        ensures Lookup(rows[0], t).Some? || exists i :: 0 <= i < |rows[1..]| && Lookup(rows[1..][i], t).Some?
      {
        var i :| 0 <= i < |rows| && Lookup(rows[i], t).Some?;
        if i > 0 {
          assert rows[1..][i - 1] == rows[i];
        }
      }
      AddNew(rest, Keys(rows[0]))
  }

  /** A sequence with no repeated element counts each element at most once. */
  lemma {:induction false} DistinctCounts(xs: seq<string>, x: string)
    requires Distinct(xs)
    ensures multiset(xs)[x] <= 1
  {
    if xs != [] {
      assert xs == [xs[0]] + xs[1..];
      assert Distinct(xs[1..]) by {
        forall a, b | 0 <= a < b < |xs| - 1 ensures xs[1..][a] != xs[1..][b] {
          assert xs[1..][a] == xs[a + 1] && xs[1..][b] == xs[b + 1];
        }
      }
      DistinctCounts(xs[1..], x);
      if xs[0] == x {
        forall j | 0 <= j < |xs| - 1 ensures xs[1..][j] != x {
          assert xs[1..][j] == xs[j + 1];
        }
        assert x !in xs[1..];
      }
    }
  }

  /** An element at two positions is counted at least twice. */
  lemma TwoOccurrences(xs: seq<string>, i: nat, j: nat)
    requires i < j < |xs| && xs[i] == xs[j]
    ensures multiset(xs)[xs[i]] >= 2
  {
    assert xs == xs[..j] + xs[j..];
    assert xs[i] in xs[..j] && xs[j] in xs[j..];
    assert multiset(xs)[xs[i]] == multiset(xs[..j])[xs[i]] + multiset(xs[j..])[xs[i]];
  }

  /** A sequence that counts each element at most once repeats none. */
  lemma CountsDistinct(xs: seq<string>)
    requires forall x :: multiset(xs)[x] <= 1
    ensures Distinct(xs)
  {
    forall i, j | 0 <= i < j < |xs| ensures xs[i] != xs[j] {
      if xs[i] == xs[j] {
        TwoOccurrences(xs, i, j);
      }
    }
  }

  /** Sorting a list without repeats gives a list without repeats. */
  lemma SortDistinct(xs: seq<string>)
    requires Distinct(xs)
    ensures Distinct(Sort(xs))
  {
    forall x ensures multiset(Sort(xs))[x] <= 1 {
      DistinctCounts(xs, x);
    }
    CountsDistinct(Sort(xs));
  }

  /** A cell of the frame: the row's entry, or NaN where the row has none. */
  function CellOf(v: Option<string>): Cell {
    match v
    case Some(s) => Str(s)
    case None => Missing
  }

  function Cells(row: Row, cols: seq<string>): (r: seq<Cell>)
    ensures |r| == |cols|
    ensures forall j :: 0 <= j < |cols| ==> r[j] == CellOf(Lookup(row, cols[j]))
  {
    seq(|cols|, j requires 0 <= j < |cols| => CellOf(Lookup(row, cols[j])))
  }

  lemma RoleOrderDistinct()
    ensures Distinct(RoleOrder)
  {
  }

  /** Lines 71-72: the frame with one row per role and the union of the rows' keys
      as its columns, in sorted order. */
  function Frame(rows: seq<Row>): (df: RoleAccess)
    requires |rows| == |RoleOrder|
    ensures df.WellFormed()
    ensures forall r :: 0 <= r < |RoleOrder| ==> RoleOrder[r] in df.rows
    ensures forall role :: role in df.rows ==> role in RoleOrder
    ensures Ascending(df.tables)
    ensures forall t :: t in df.tables <==> exists i :: 0 <= i < |rows| && Lookup(rows[i], t).Some?
    ensures forall r, j :: 0 <= r < |RoleOrder| && 0 <= j < |df.tables| ==>
              df.rows[RoleOrder[r]][j] == CellOf(Lookup(rows[r], df.tables[j]))
  {
    var cols := Sort(KeyUnion(rows));
    SortedColumns(rows);
    RoleAccess(cols, RoleRows(rows, cols))
  }

  /** The sorted key union holds each key of some row, once. */
  lemma SortedColumns(rows: seq<Row>)
    ensures Distinct(Sort(KeyUnion(rows)))
    ensures forall t :: t in Sort(KeyUnion(rows)) <==> exists i :: 0 <= i < |rows| && Lookup(rows[i], t).Some?
  {
    var union := KeyUnion(rows);
    var cols := Sort(union);
    SortDistinct(union);
    forall t ensures t in cols <==> t in union {
      assert t in cols <==> t in multiset(cols);
      assert t in union <==> t in multiset(union);
    }
  }

  /** The rows of the frame, indexed by role: role `RoleOrder[r]` gets the cells of
      `rows[r]` under `cols`. */
  function RoleRows(rows: seq<Row>, cols: seq<string>): (m: map<string, seq<Cell>>)
    requires |rows| == |RoleOrder|
    ensures forall role :: role in m <==> role in RoleOrder
    ensures forall role :: role in m ==> |m[role]| == |cols|
    ensures forall r :: 0 <= r < |RoleOrder| ==> m[RoleOrder[r]] == Cells(rows[r], cols)
  {
    RoleIndex();
    map role | role in RoleOrder :: Cells(rows[IndexOf(RoleOrder, role)], cols)
  }

  /** Each role sits at its own position of `RoleOrder`. */
  lemma RoleIndex()
    ensures forall r :: 0 <= r < |RoleOrder| ==> IndexOf(RoleOrder, RoleOrder[r]) == r
  {
    RoleOrderDistinct();
    forall r | 0 <= r < |RoleOrder| ensures IndexOf(RoleOrder, RoleOrder[r]) == r {
      var k := IndexOf(RoleOrder, RoleOrder[r]);
      assert RoleOrder[k] == RoleOrder[r];
    }
  }

  /** The sheet `build_access_matrix(table_cols)` produces, for the database tables
      `tables`: one row per role, the columns sorted, every column a table of the
      database or of the fixed policies, and every cell the filled policy entry (NaN
      where a role's policy lacks a table that is not in the database). */
  ghost predicate IsAccessMatrix(df: RoleAccess, tables: seq<string>) {
    && df.WellFormed()
    && (forall r :: 0 <= r < |RoleOrder| ==> RoleOrder[r] in df.rows)
    && (forall role :: role in df.rows ==> role in RoleOrder)
    && Ascending(df.tables)
    && (forall t :: t in df.tables <==> t in tables || Lookup(TellerRow, t).Some? || Lookup(ServiceRow, t).Some?)
    && (forall r, j :: 0 <= r < |RoleOrder| && 0 <= j < |df.tables| ==>
          df.rows[RoleOrder[r]][j] == CellOf(Filled(InitialAccess(tables)[r], tables, df.tables[j])))
  }

  /** `build_access_matrix(table_cols)`, for the keys `tables` of `table_cols`. */
  method BuildAccessMatrix(tables: seq<string>) returns (df: RoleAccess)
    ensures IsAccessMatrix(df, tables)
  {
    var access := InitialAccess(tables);
    var filled := FillMissing(access, tables);
    forall r, t | 0 <= r < |RoleOrder| ensures Lookup(filled[r], t) == Filled(access[r], tables, t) {
    }
    df := Frame(filled);
    FrameOfFilled(filled, tables);
  }

  /** The frame of the filled policies is the access matrix. */
  lemma FrameOfFilled(filled: seq<Row>, tables: seq<string>)
    requires |filled| == |RoleOrder|
    requires forall r, t :: 0 <= r < |RoleOrder| ==> Lookup(filled[r], t) == Filled(InitialAccess(tables)[r], tables, t)
    ensures IsAccessMatrix(Frame(filled), tables)
  {
    var df := Frame(filled);
    forall t ensures t in df.tables <==> t in tables || Lookup(TellerRow, t).Some? || Lookup(ServiceRow, t).Some? {
      FilledColumn(filled, tables, t);
    }
  }

  /** A table has an entry in some filled policy exactly when it is a database table
      or one of the fixed policies names it. */
  lemma FilledColumn(filled: seq<Row>, tables: seq<string>, t: string)
    requires |filled| == |RoleOrder|
    requires forall r :: 0 <= r < |RoleOrder| ==> Lookup(filled[r], t) == Filled(InitialAccess(tables)[r], tables, t)
    ensures (exists i :: 0 <= i < |filled| && Lookup(filled[i], t).Some?)
            <==> t in tables || Lookup(TellerRow, t).Some? || Lookup(ServiceRow, t).Some?
  {
    var access := InitialAccess(tables);
    SomeRowHas(filled, access, tables, t);
    InitialHas(tables, t);
  }

  lemma SomeRowHas(filled: seq<Row>, access: seq<Row>, tables: seq<string>, t: string)
    requires |filled| == |access| > 0
    requires forall r :: 0 <= r < |access| ==> (Lookup(filled[r], t).Some? <==> Lookup(access[r], t).Some? || t in tables)
    ensures (exists i :: 0 <= i < |filled| && Lookup(filled[i], t).Some?)
            <==> t in tables || exists i :: 0 <= i < |access| && Lookup(access[i], t).Some?
  {
    if t in tables {
      assert Lookup(filled[0], t).Some?;
    }
  }

  lemma InitialHas(tables: seq<string>, t: string)
    ensures (exists i :: 0 <= i < |RoleOrder| && Lookup(InitialAccess(tables)[i], t).Some?)
            <==> t in tables || Lookup(TellerRow, t).Some? || Lookup(ServiceRow, t).Some?
  {
    var access := InitialAccess(tables);
    assert access[0] == TellerRow && access[4] == ServiceRow;
    assert forall i :: 1 <= i <= 3 ==> access[i] == AllRow(tables);
    if t in tables {
      assert Lookup(access[1], t).Some?;
    }
  }

  /** Every role has a string (never NaN) for every table of the database. */
  lemma EveryRoleCoversDatabase(df: RoleAccess, tables: seq<string>, r: nat, j: nat)
    requires IsAccessMatrix(df, tables)
    requires r < |RoleOrder| && j < |df.tables| && df.tables[j] in tables
    ensures df.rows[RoleOrder[r]][j].Str?
  {
    var v := Filled(InitialAccess(tables)[r], tables, df.tables[j]);
    assert v.Some?;
    assert df.rows[RoleOrder[r]][j] == CellOf(v);
  }

  /** The fill pass adds only empty entries: a database table missing from the fixed
      Teller or Customer Service policy reads `''`, and one present keeps its entry. */
  lemma FixedPolicyKept(df: RoleAccess, tables: seq<string>, r: nat, j: nat)
    requires IsAccessMatrix(df, tables)
    requires (r == 0 || r == 4) && j < |df.tables|
    ensures var fixed := if r == 0 then TellerRow else ServiceRow;
            && (Lookup(fixed, df.tables[j]).Some? ==> df.rows[RoleOrder[r]][j] == Str(Lookup(fixed, df.tables[j]).value))
            && (Lookup(fixed, df.tables[j]).None? ==> df.rows[RoleOrder[r]][j] == Str(""))
  {
    var t := df.tables[j];
    var fixed := if r == 0 then TellerRow else ServiceRow;
    assert InitialAccess(tables)[r] == fixed;
    LookupKeys(fixed, t);
  }

  /** Manager, Auditor and IT hold `'ALL'` for every table of the database (lines
      48-50); the fill pass leaves those entries alone. */
  lemma PrivilegedSeeAll(df: RoleAccess, tables: seq<string>, r: nat, j: nat)
    requires IsAccessMatrix(df, tables)
    requires 1 <= r <= 3 && j < |df.tables| && df.tables[j] in tables
    ensures df.rows[RoleOrder[r]][j] == Str("ALL")
  {
    assert InitialAccess(tables)[r] == AllRow(tables);
  }

  /** Read back by the policy functions, the sheet grants Manager, Auditor and IT every
      database table with its full column list. */
  lemma PrivilegedGrants(df: RoleAccess, tables: seq<string>, tableCols: map<string, seq<string>>,
                         r: nat, t: string)
    requires IsAccessMatrix(df, tables)
    requires 1 <= r <= 3 && t in tables
    ensures t in GetAllowedTables(RoleOrder[r], Some(df))
    ensures GetAllowedColumns(RoleOrder[r], t, Some(df), tableCols) ==
            if t in tableCols then tableCols[t] else []
  {
    var role := RoleOrder[r];
    assert t in df.tables;
    var j := IndexOf(df.tables, t);
    PrivilegedSeeAll(df, tables, r, j);
    StripClean("ALL");
    assert Upper("ALL") == "ALL";
    assert CellGrants(df.rows[role][j]);
    assert CellFor(df.rows[role], df.tables, t) == Str("ALL");
  }

  /** A table of the fixed policies that the database lacks still becomes a column;
      the roles whose policy does not name it get NaN there, which the policy reader
      takes as a grant with no columns. */
  lemma PhantomTableGranted(df: RoleAccess, tables: seq<string>, tableCols: map<string, seq<string>>,
                            r: nat, t: string)
    requires IsAccessMatrix(df, tables)
    requires 1 <= r <= 3 && Lookup(TellerRow, t).Some? && t !in tables
    ensures t in df.tables
    ensures t in GetAllowedTables(RoleOrder[r], Some(df))
    ensures GetAllowedColumns(RoleOrder[r], t, Some(df), tableCols) == []
  {
    assert t in df.tables;
    PhantomCell(df, tables, r, t);
    MissingGrantsNoColumns(df, RoleOrder[r], t, tableCols);
  }

  /** The cell of a privileged role under a table it does not name is NaN. */
  lemma PhantomCell(df: RoleAccess, tables: seq<string>, r: nat, t: string)
    requires IsAccessMatrix(df, tables)
    requires 1 <= r <= 3 && t in df.tables && t !in tables
    ensures df.rows[RoleOrder[r]][IndexOf(df.tables, t)] == Missing
  {
    assert InitialAccess(tables)[r] == AllRow(tables);
  }

  /** A NaN cell grants its table, with no column. */
  lemma MissingGrantsNoColumns(df: RoleAccess, role: string, t: string, tableCols: map<string, seq<string>>)
    requires df.WellFormed() && role in df.rows && t in df.tables
    requires df.rows[role][IndexOf(df.tables, t)] == Missing
    ensures t in GetAllowedTables(role, Some(df))
    ensures GetAllowedColumns(role, t, Some(df), tableCols) == []
  {
    StripClean("nan");
    assert CellGrants(Missing);
  }

  /** The five login names `authenticate` accepts. */
  const LoginNames: seq<string> := ["teller", "manager", "auditor", "it", "customer service"]

  /** `authenticate(username, password)`: the lowered name must be one of the five
      login names (no whitespace is stripped) and the password that name plus `123`;
      the answer is the name in title case, which lowers back to the login name. */
  function Authenticate(username: string, password: string): (r: Option<string>)
    ensures r.Some? <==> Lower(username) in LoginNames && password == Lower(username) + "123"
    ensures r.Some? ==> r.value == Title(username) && Lower(r.value) == Lower(username)
  {
    if Lower(username) in LoginNames && password == Lower(username) + "123" then
      LowerTitle(username, false);
      Some(Title(username))
    else None
  }

  /** The login names are the roles in lower case, and a login answers with the role
      name itself except for `IT`, which comes back as `It`. */
  lemma LoginRoles(username: string, password: string)
    requires Authenticate(username, password).Some?
    ensures Authenticate(username, password).value in RoleOrder <==> Lower(username) != "it"
    ensures Lower(username) == "it" ==> Authenticate(username, password) == Some("It")
  {
    TitleLower(username, false);
    var n := Lower(username);
    var v := Authenticate(username, password).value;
    assert v == Title(n);
    LoginTitles();
    if n == "it" {
      assert v == "It";
      assert |v| == 2 && v != RoleOrder[3];
    } else if n == "teller" {
      assert v == RoleOrder[0];
    } else if n == "manager" {
      assert v == RoleOrder[1];
    } else if n == "auditor" {
      assert v == RoleOrder[2];
    } else {
      assert n == "customer service";
      assert v == RoleOrder[4];
    }
  }

  /** The title-case forms of the five login names. */
  lemma LoginTitles()
    ensures Title("teller") == "Teller"
    ensures Title("manager") == "Manager"
    ensures Title("auditor") == "Auditor"
    ensures Title("it") == "It"
    ensures Title("customer service") == "Customer Service"
  {
    TitleOfWord("teller", "Teller");
    TitleOfWord("manager", "Manager");
    TitleOfWord("auditor", "Auditor");
    TitleOfWord("it", "It");
    TitleOfService();
  }

  lemma TitleOfService()
    ensures Title("customer service") == "Customer Service"
  {
    TitleOfWord("customer", "Customer");
    TitleOfWord("service", "Service");
    TitleOfWords("customer", "service", "Customer", "Service");
    assert "customer" + " " + "service" == "customer service";
    assert "Customer" + " " + "Service" == "Customer Service";
  }

  lemma TitleOfWords(a: string, b: string, ta: string, tb: string)
    requires Title(a) == ta && Title(b) == tb
    ensures Title(a + " " + b) == ta + " " + tb
  {
    TitleSpace(a, b, false);
  }

  lemma TitleOfWord(w: string, t: string)
    requires w != [] && LowerWord(w) && t == [UpperChar(w[0])] + w[1..]
    ensures Title(w) == t
  {
    TitleWord(w);
  }

  /** `check_user_role(username, db_path)`: role lookup by user no longer exists, so
      there is never a role. */
  function CheckUserRole(username: string, dbPath: string): (r: Option<string>)
    ensures r.None?
  {
    None
  }
}
