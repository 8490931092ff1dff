/** The schema description handed to the planning agent (`inspect_schema` in
    autogen_try.py, without its cache). The catalogue query and the
    per-table `PRAGMA table_info` calls are replaced by their answers: the
    rows of `sqlite_master` in the order SQLite returns them, each with the
    columns the pragma reports for it. */
module Schema {
  import opened Text
  import opened SqlLike

  /** One row of `PRAGMA table_info`: the column name and its declared type
      (which SQLite allows to be empty). */
  datatype Column = Column(name: string, declType: string)

  /** One row of `sqlite_master` (`type` and `name`) together with the
      columns `PRAGMA table_info` reports for that name. */
  datatype CatalogEntry = CatalogEntry(kind: string, name: string, columns: seq<Column>)

  /** What the description reads when no user table is left. */
  const NoTablesSentinel: string := "(no user tables found)"

  /** The `LIKE` pattern of SQLite's own internal tables. */
  const ReservedPattern: string := "sqlite_%"

  /** The catalogue query's `WHERE` clause: an ordinary table whose name is
      not `LIKE 'sqlite_%'`. Views, indexes and triggers are not tables. */
  predicate IsUserTable(e: CatalogEntry) {
    e.kind == "table" && !Like(e.name, ReservedPattern)
  }

  /** The rows the catalogue query returns, in catalogue order. */
  function UserTables(catalog: seq<CatalogEntry>): (r: seq<CatalogEntry>)
    ensures |r| <= |catalog|
    ensures forall e :: e in r <==> e in catalog && IsUserTable(e)
  {
    if catalog == [] then []
    else if IsUserTable(catalog[0]) then [catalog[0]] + UserTables(catalog[1..])
    else UserTables(catalog[1..])
  }

  /** `name (type)` for one column. */
  function RenderColumn(c: Column): string {
    c.name + " (" + c.declType + ")"
  }

  /** Every column rendered, in pragma order. */
  function RenderColumns(cols: seq<Column>): (r: seq<string>)
    ensures |r| == |cols|
    ensures forall i :: 0 <= i < |cols| ==> r[i] == RenderColumn(cols[i])
  {
    if cols == [] then [] else [RenderColumn(cols[0])] + RenderColumns(cols[1..])
  }

  /** The text after `- <table>: `: the rendered columns separated by `, `. */
  function ColumnList(t: CatalogEntry): string {
    Join(RenderColumns(t.columns), ", ")
  }

  /** The description line of one table. */
  function TableLine(t: CatalogEntry): (r: string)
    ensures StartsWith(r, "- " + t.name + ": ")
  {
    var head := "- " + t.name + ": ";
    var r := head + ColumnList(t);
    assert r[..|head|] == head;
    r
  }

  /** One description line per table, in the same order. */
  function TableLines(ts: seq<CatalogEntry>): (r: seq<string>)
    ensures |r| == |ts|
    ensures forall i :: 0 <= i < |ts| ==> r[i] == TableLine(ts[i])
  {
    if ts == [] then [] else [TableLine(ts[0])] + TableLines(ts[1..])
  }

  /** The schema description: the user tables' lines joined by newlines,
      or the sentinel when there is none. It is never empty, and it is the
      sentinel exactly when the catalogue holds no user table. */
  function Describe(catalog: seq<CatalogEntry>): (r: string)
    ensures r != []
    ensures r == NoTablesSentinel <==> UserTables(catalog) == []
  {
    var lines := TableLines(UserTables(catalog));
    if lines == [] then NoTablesSentinel
    else
      var r := Join(lines, "\n");
      assert r[0] == lines[0][0] == '-';
      r
  }

  // ---------------------------------------------------------------------
  // Properties

  /** The filter keeps catalogue order: filtering a concatenation is the
      concatenation of the filtered parts. */
  lemma {:induction false} UserTablesAppend(a: seq<CatalogEntry>, b: seq<CatalogEntry>)
    ensures UserTables(a + b) == UserTables(a) + UserTables(b)
    decreases |a|
  {
    if a == [] {
      assert a + b == b;
    } else {
      assert (a + b)[0] == a[0] && (a + b)[1..] == a[1..] + b;
      UserTablesAppend(a[1..], b);
    }
  }

  /** Which entries survive the filter: exactly the tables whose name is
      shorter than seven characters or does not begin with `sqlite` in any
      ASCII case. Views and indexes never survive. */
  lemma UserTableExactly(e: CatalogEntry)
    ensures IsUserTable(e) <==>
              && e.kind == "table"
              && !(|e.name| >= 7 && forall k :: 0 <= k < 6 ==> AsciiFold(e.name[k]) == "sqlite"[k])
  {
    ReservedNamePattern(e.name);
  }

  /** No text of a listed table contains a line break. */
  predicate SingleLineNames(tables: seq<CatalogEntry>) {
    forall i :: 0 <= i < |tables| ==>
      && Avoids(tables[i].name, '\n')
      && forall j :: 0 <= j < |tables[i].columns| ==>
           Avoids(tables[i].columns[j].name, '\n') && Avoids(tables[i].columns[j].declType, '\n')
  }

  /** A table line is free of line breaks when its names are. */
  lemma TableLineSingle(t: CatalogEntry)
    requires Avoids(t.name, '\n')
    requires forall j :: 0 <= j < |t.columns| ==>
               Avoids(t.columns[j].name, '\n') && Avoids(t.columns[j].declType, '\n')
    ensures Avoids(TableLine(t), '\n')
  {
    var rs := RenderColumns(t.columns);
    JoinAvoids(rs, ", ", '\n');
  }

  /** Joining texts free of `c` with a separator free of `c` yields a text
      free of `c`. */
  lemma {:induction false} JoinAvoids(parts: seq<string>, sep: string, c: char)
    requires Avoids(sep, c)
    requires forall i :: 0 <= i < |parts| ==> Avoids(parts[i], c)
    ensures Avoids(Join(parts, sep), c)
    decreases |parts|
  {
    if |parts| > 1 {
      JoinAvoids(parts[1..], sep, c);
    }
  }

  /** The description splits back, at its line breaks, into one line per
      user table in catalogue order, provided there is a user table and no
      text of a user table contains a line break. */
  lemma DescribeLines(catalog: seq<CatalogEntry>)
    requires UserTables(catalog) != []
    requires SingleLineNames(UserTables(catalog))
    ensures SplitOn(Describe(catalog), "\n") == TableLines(UserTables(catalog))
  {
    var ts := UserTables(catalog);
    var lines := TableLines(ts);
    forall i | 0 <= i < |lines|
      ensures Avoids(lines[i], "\n"[0])
    {
      TableLineSingle(ts[i]);
    }
    SplitJoin(lines, "\n");
  }

  /** What follows `- name: ` on a table's line splits back, at each `, `,
      into its columns rendered as `name (type)` in pragma order, provided
      the table has a column and no column name or type contains a comma. */
  lemma ColumnListSplits(t: CatalogEntry)
    requires |t.columns| > 0
    requires forall j :: 0 <= j < |t.columns| ==>
               Avoids(t.columns[j].name, ',') && Avoids(t.columns[j].declType, ',')
    ensures SplitOn(TableLine(t)[|"- " + t.name + ": "|..], ", ") == RenderColumns(t.columns)
  {
    var head := "- " + t.name + ": ";
    assert TableLine(t)[|head|..] == ColumnList(t);
    var rs := RenderColumns(t.columns);
    forall j | 0 <= j < |rs|
      ensures Avoids(rs[j], ", "[0])
    {
      assert rs[j] == t.columns[j].name + " (" + t.columns[j].declType + ")";
    }
    SplitJoin(rs, ", ");
  }
}
