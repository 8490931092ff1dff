/** The `run_sql` tool of autogen_try.py. Executing the query is a
    parameter (pandas `read_sql` on a fresh connection); the markdown and
    JSON renderings are opaque too. What is modelled is which rows the
    preview shows and the shape of the JSON text the tool returns. */
module SqlTool {
  import opened Results
  import opened Text

  /** At most this many rows go into the preview (`df.head(20)`). */
  const PreviewRows: nat := 20

  /** A query result: column names and rows, in result order. */
  datatype Frame<Cell> = Frame(columns: seq<string>, rows: seq<seq<Cell>>)

  /** The tool's answer: the preview table and the full data. */
  datatype ToolResult<Cell> = ToolResult(preview: Frame<Cell>, data: Frame<Cell>)

  /** `p` is the first `min(20, n)` rows of `d`, same columns, same order. */
  ghost predicate IsPreviewOf<Cell>(p: Frame<Cell>, d: Frame<Cell>) {
    && p.columns == d.columns
    && |p.rows| == (if |d.rows| < PreviewRows then |d.rows| else PreviewRows)
    && p.rows == d.rows[..|p.rows|]
  }

  /** `df.head(n)`. */
  function Head<Cell>(f: Frame<Cell>, n: nat): (r: Frame<Cell>)
    ensures r.columns == f.columns
    ensures |r.rows| == (if |f.rows| < n then |f.rows| else n)
    ensures r.rows == f.rows[..|r.rows|]
  {
    if |f.rows| <= n then f else f.(rows := f.rows[..n])
  }

  /** Runs the query and packages the result; a failing query is reported
      as the error it raised. The data is the complete result and the
      preview is its first rows. */
  function RunSql<Cell>(sql: string, readSql: string -> Result<Frame<Cell>, string>)
    : (r: Result<ToolResult<Cell>, string>)
    ensures readSql(sql).Err? ==> r == Err(readSql(sql).error)
    ensures readSql(sql).Ok? ==> r.Ok? && r.value.data == readSql(sql).value
    ensures r.Ok? ==> IsPreviewOf(r.value.preview, r.value.data)
  {
    match readSql(sql)
    case Err(e) => Err(e)
    case Ok(df) => Ok(ToolResult(Head(df, PreviewRows), df))
  }

  /** A result of at most 20 rows is previewed in full; in particular an
      empty result has an empty preview. */
  lemma SmallResultPreviewIsData<Cell>(p: Frame<Cell>, d: Frame<Cell>)
    requires IsPreviewOf(p, d) && |d.rows| <= PreviewRows
    ensures p == d
  {
    assert d.rows[..|d.rows|] == d.rows;
  }

  /** The pieces of the text `json.dumps({...}, indent=2)` produces around
      the two values: an opening brace and the first key, the separator
      before the second key, the second key, its colon, and the closing
      line. */
  const EnvelopeOpen: string := "{\n  \"preview_markdown\": "
  const EnvelopeNext: string := ",\n  "
  const EnvelopeDataKey: string := "\"data_json\""
  const EnvelopeColon: string := ": "
  const EnvelopeClose: string := "\n}"

  /** The text `json.dumps({...}, indent=2)` produces for the tool's
      answer, given the JSON string literals of the two values. */
  function Envelope(markdownLiteral: string, dataLiteral: string): string {
    EnvelopeOpen + markdownLiteral + EnvelopeNext + EnvelopeDataKey + EnvelopeColon + dataLiteral + EnvelopeClose
  }

  /** The tool's reply text; `toMarkdown` is `to_markdown(index=False)`,
      `toJson` is `to_json(orient="split")` and `quote` writes a JSON
      string literal. */
  function ToolText<Cell>(r: ToolResult<Cell>, toMarkdown: Frame<Cell> -> string,
                          toJson: Frame<Cell> -> string, quote: string -> string): (t: string)
    ensures t != [] && t[0] == '{' && t[|t| - 1] == '}' && Contains(t, "\"data_json\"")
  {
    EnvelopeShape(quote(toMarkdown(r.preview)), quote(toJson(r.data)));
    Envelope(quote(toMarkdown(r.preview)), quote(toJson(r.data)))
  }

  /** The reply is a braced document that names the `data_json` key. */
  lemma EnvelopeShape(m: string, d: string)
    ensures var t := Envelope(m, d);
            t != [] && t[0] == '{' && t[|t| - 1] == '}' && Contains(t, "\"data_json\"")
  {
    var t := Envelope(m, d);
    var before := EnvelopeOpen + m + EnvelopeNext;
    var after := EnvelopeColon + d + EnvelopeClose;
    assert t == before + EnvelopeDataKey + after;
    ContainsInfix(before, EnvelopeDataKey, after);
    assert t[0] == EnvelopeOpen[0];
    assert t[|t| - 1] == EnvelopeClose[1];
  }
}
