/**
  The data-driven text of the card, built by `CardDocument.fill_document` in
  station_card.py from the lists of the station JSON: the image includes with
  escaped paths, the list of measurement sites, the rows of the data table, the
  rows of the two-column acronym table and the reference list.

  Each JSON list element is a one-key object, modelled as an `Entry` (its only
  key and value); a `data_table` element is a `DataEntry`. What `fill_document`
  appends to the document inside its loops is returned here as the sequence of
  appended items, in order.
 */
module CardDocument {
  import opened Text

  /** A one-key object of `sites`, `acronym_table` or `reference`. */
  datatype Entry = Entry(key: string, value: string)

  /** An element of `data_table`; `technique` holds the JSON field `method`. */
  datatype DataEntry = DataEntry(
    name: string,
    technique: string,
    height: string,
    timeResolution: string,
    timePeriod: string,
    site: string)

  /** `\newline` */
  const NewLine: string := "\\newline"

  /** The bold heading in front of the site list. */
  const SitesHeader: string := "\\newline\\textbf{Measurement sites shown in the local map}\\newline"

  /** ` & `, between the cells of a table row. */
  const CellSep: string := " & "

  /** ` \\`, the LaTeX row break after every table row but the last. */
  const RowEnd: string := " \\\\"

  /** The command that places a map image, before its path. */
  const GraphicsCommand: string := "\\includegraphics[width=0.5\\linewidth]"

  // ---------------------------------------------------------------------------
  // Image paths

  /** The include of a map image: the command and the path in braces, with every `_` escaped. */
  function IncludeGraphics(path: string): string {
    Escape(GraphicsCommand + "{" + path + "}")
  }

  /**
    Only the path is changed by the escaping (the command holds no underscore),
    every underscore of the result is escaped, and the path can be read back.
   */
  lemma IncludeGraphicsPath(path: string)
    ensures IncludeGraphics(path) == GraphicsCommand + "{" + Escape(path) + "}"
    ensures Unescape(Escape(path)) == path
    ensures forall i :: 0 <= i < |IncludeGraphics(path)| && IncludeGraphics(path)[i] == '_' ==>
      0 < i && IncludeGraphics(path)[i - 1] == '\\'
  {
    assert '_' !in GraphicsCommand + "{";
    assert '_' !in "}";
    EscapeConcat(GraphicsCommand + "{", path);
    EscapeConcat(GraphicsCommand + "{" + path, "}");
    EscapeNoUnderscore(GraphicsCommand + "{");
    EscapeNoUnderscore("}");
    EscapeRoundTrip(path);
  }

  // ---------------------------------------------------------------------------
  // Site list

  /** `'{0}: {1}'.format(key, value)` for one site. */
  function SiteLine(s: Entry): string {
    s.key + ": " + s.value
  }

  function SiteLines(sites: seq<Entry>): (lines: seq<string>)
    ensures |lines| == |sites|
  {
    seq(|sites|, i requires 0 <= i < |sites| => SiteLine(sites[i]))
  }

  /** The site list text, accumulated as `sites_text` (station_card.py:557-564). */
  method SitesText(sites: seq<Entry>) returns (text: string)
    ensures text == SitesHeader + Join(SiteLines(sites), NewLine)
  {
    var nsite := |sites|;
    ghost var lines := SiteLines(sites);
    text := SitesHeader;
    for i := 0 to |sites|
      invariant text == SitesHeader + Join(lines[..i], NewLine) + (if 0 < i < nsite then NewLine else "")
    {
      JoinAccumulate(text, SitesHeader, lines[..i], lines[i], NewLine);
      assert lines[..i + 1] == lines[..i] + [lines[i]];
      text := text + SiteLine(sites[i]);
      if i < nsite - 1 {
        text := text + NewLine;
      }
    }
    assert lines[..|sites|] == lines;
  }

  /**
    After the heading, the site text is one `key: value` line per site, in input
    order: cut at its backslashes, it gives the first line, then `newline` and
    the next line for each further site (when no key or value holds a
    backslash). It ends with the last line, so no `\newline` follows it.
   */
  lemma SitesTextLines(sites: seq<Entry>)
    requires |sites| > 0
    requires forall i :: 0 <= i < |sites| ==> '\\' !in sites[i].key && '\\' !in sites[i].value
    ensures var body := Join(SiteLines(sites), NewLine);
      && Split(body, '\\') == Pieces(SiteLines(sites), "", "newline")
      && IsSuffix(SiteLine(sites[|sites| - 1]), body)
  {
    var lines := SiteLines(sites);
    forall i | 0 <= i < |lines|
      ensures '\\' !in lines[i]
    {
      assert lines[i] == sites[i].key + ": " + sites[i].value;
    }
    assert NewLine == "" + ['\\'] + "newline";
    SplitJoin(lines, "", '\\', "newline");
    JoinEnds(lines, NewLine);
  }

  // ---------------------------------------------------------------------------
  // Table rows

  /** Appends ` \\` to every row but the last. */
  function Terminate(rows: seq<string>): (r: seq<string>)
    ensures |r| == |rows|
    decreases |rows|
  {
    if |rows| <= 1 then rows else [rows[0] + RowEnd] + Terminate(rows[1..])
  }

  /** Row k of a terminated table is row k, followed by ` \\` exactly when it is not the last. */
  lemma {:induction false} TerminateAt(rows: seq<string>, k: nat)
    requires k < |rows|
    ensures Terminate(rows)[k] == rows[k] + (if k < |rows| - 1 then RowEnd else "")
    decreases k
  {
    if |rows| == 1 {
      assert rows[k] + "" == rows[k];
    } else if k > 0 {
      TerminateAt(rows[1..], k - 1);
    }
  }

  /** The six fields of a data-table entry, in column order. */
  function Fields(d: DataEntry): seq<string> {
    [d.name, d.technique, d.height, d.timeResolution, d.timePeriod, d.site]
  }

  /** `'{0} & {1} & {2} & {3} & {4} & {5}'.format(...)` for one data-table entry. */
  function DataRow(d: DataEntry): string {
    Join(Fields(d), CellSep)
  }

  /**
    A data row has exactly the six cells of the table's six columns, holding the
    six fields in order, each padded by the blank on its side of ` & ` (when no
    field holds `&`).
   */
  lemma DataRowCells(d: DataEntry)
    requires forall i :: 0 <= i < 6 ==> '&' !in Fields(d)[i]
    ensures Split(DataRow(d), '&') == Pieces(Fields(d), " ", " ")
    ensures |Split(DataRow(d), '&')| == 6
  {
    assert CellSep == " " + ['&'] + " ";
    SplitJoin(Fields(d), " ", '&', " ");
  }

  /** One data row per entry, in input order. */
  function DataRows(ds: seq<DataEntry>): (rows: seq<string>)
    ensures |rows| == |ds|
  {
    seq(|ds|, k requires 0 <= k < |ds| => DataRow(ds[k]))
  }

  /** The data rows in input order, each followed by ` \\` but the last. */
  function DataTableRows(ds: seq<DataEntry>): (rows: seq<string>)
    ensures |rows| == |ds|
  {
    Terminate(DataRows(ds))
  }

  /** The rows appended for the data table (station_card.py:604-612). */
  method DataTable(ds: seq<DataEntry>) returns (items: seq<string>)
    ensures items == DataTableRows(ds)
  {
    var ndata := |ds|;
    ghost var rows := DataTableRows(ds);
    items := [];
    for i := 0 to |ds|
      invariant items == rows[..i]
    {
      var row := DataRow(ds[i]);
      if i < ndata - 1 {
        row := row + RowEnd;
      }
      TerminateAt(DataRows(ds), i);
      assert DataRows(ds)[i] == DataRow(ds[i]);
      assert rows[i] == row;
      assert rows[..i + 1] == rows[..i] + [row];
      items := items + [row];
    }
    assert rows[..|ds|] == rows;
  }

  /** A full acronym row: two acronyms with their expansions, left and right. */
  function AcronymPairRow(left: Entry, right: Entry): string {
    Join([left.key, left.value, right.key, right.value], CellSep)
  }

  /** The row of the last acronym of an odd count: `'{0} & {1} & & '`, two empty cells on the right. */
  function AcronymHalfRow(left: Entry): string {
    left.key + " & " + left.value + " & & "
  }

  /** The acronym rows before any row break: entries paired two by two, the last one alone if the count is odd. */
  function AcronymPairs(acrs: seq<Entry>): seq<string>
    decreases |acrs|
  {
    if |acrs| == 0 then []
    else if |acrs| == 1 then [AcronymHalfRow(acrs[0])]
    else [AcronymPairRow(acrs[0], acrs[1])] + AcronymPairs(acrs[2..])
  }

  /**
    There are ceil(n/2) acronym rows, and row j holds entries 2j and 2j+1, or
    entry 2j alone when it is the last of an odd count.
   */
  lemma {:induction false} AcronymPairsAt(acrs: seq<Entry>, j: nat)
    ensures |AcronymPairs(acrs)| == (|acrs| + 1) / 2
    ensures j < (|acrs| + 1) / 2 ==>
      AcronymPairs(acrs)[j] ==
        if 2 * j + 1 < |acrs| then AcronymPairRow(acrs[2 * j], acrs[2 * j + 1])
        else AcronymHalfRow(acrs[2 * j])
    decreases |acrs|
  {
    if |acrs| >= 2 {
      AcronymPairsAt(acrs[2..], if j > 0 then j - 1 else 0);
      if 0 < j < (|acrs| + 1) / 2 {
        assert acrs[2..][2 * (j - 1)] == acrs[2 * j];
        if 2 * j + 1 < |acrs| {
          assert acrs[2..][2 * (j - 1) + 1] == acrs[2 * j + 1];
        }
      }
    }
  }

  /** The acronym table rows, each followed by ` \\` but the last. */
  function AcronymTableRows(acrs: seq<Entry>): (rows: seq<string>) {
    Terminate(AcronymPairs(acrs))
  }

  /** The rows appended for the acronym table (station_card.py:619-635). */
  method AcronymTable(acrs: seq<Entry>) returns (items: seq<string>)
    ensures items == AcronymTableRows(acrs)
  {
    var nacr := |acrs|;
    AcronymPairsAt(acrs, 0);
    ghost var pairs := AcronymPairs(acrs);
    ghost var rows := Terminate(pairs);
    ghost var j := 0;
    items := [];
    var i := 0;
    while i < nacr
      invariant i == 2 * j && 0 <= j <= |rows|
      invariant items == rows[..j]
    {
      AcronymPairsAt(acrs, j);
      TerminateAt(pairs, j);
      var row;
      if i + 1 < nacr {
        row := AcronymPairRow(acrs[i], acrs[i + 1]);
      } else {
        row := AcronymHalfRow(acrs[i]);
      }
      assert pairs[j] == if i + 1 < nacr then AcronymPairRow(acrs[i], acrs[i + 1]) else AcronymHalfRow(acrs[i]);
      assert !(i == nacr - 1 || i + 1 == nacr - 1) <==> j < |rows| - 1;
      if !(i == nacr - 1 || i + 1 == nacr - 1) {
        row := row + RowEnd;
      }
      assert rows[j] == row;
      assert rows[..j + 1] == rows[..j] + [row];
      items := items + [row];
      i := i + 2;
      j := j + 1;
    }
    assert rows[..j] == rows;
  }

  /**
    A full acronym row has the four cells of the table's four columns, holding
    both acronyms and expansions in order (when none holds `&`).
   */
  lemma AcronymPairCells(left: Entry, right: Entry)
    requires '&' !in left.key && '&' !in left.value && '&' !in right.key && '&' !in right.value
    ensures Split(AcronymPairRow(left, right), '&') ==
      [left.key + " ", " " + left.value + " ", " " + right.key + " ", " " + right.value]
  {
    var parts := [left.key, left.value, right.key, right.value];
    assert CellSep == " " + ['&'] + " ";
    SplitJoin(parts, " ", '&', " ");
    var p := Pieces(parts, " ", " ");
    assert p[0] == left.key + " " && p[1] == " " + left.value + " ";
    assert p[2] == " " + right.key + " " && p[3] == " " + right.value;
  }

  /**
    The row of a lone last acronym still has four cells; the two on the right
    hold nothing but a blank.
   */
  lemma AcronymHalfCells(left: Entry)
    requires '&' !in left.key && '&' !in left.value
    ensures Split(AcronymHalfRow(left), '&') == [left.key + " ", " " + left.value + " ", " ", " "]
  {
    var a := left.key + " ";
    var b := " " + left.value + " ";
    assert AcronymHalfRow(left) == a + ['&'] + (b + ['&'] + (" " + ['&'] + " "));
    SplitAround(a, '&', b + ['&'] + (" " + ['&'] + " "));
    SplitAround(b, '&', " " + ['&'] + " ");
    SplitAround(" ", '&', " ");
    SplitNoSeparator(a, '&');
    SplitNoSeparator(b, '&');
    SplitNoSeparator(" ", '&');
  }

  // ---------------------------------------------------------------------------
  // References

  /** The reference texts, each as a one-item list. */
  function ReferenceTexts(refs: seq<Entry>): (texts: seq<seq<string>>)
    ensures |texts| == |refs|
  {
    seq(|refs|, i requires 0 <= i < |refs| => [refs[i].value])
  }

  /** The items appended for the reference list (station_card.py:641-645). */
  method References(refs: seq<Entry>) returns (items: seq<string>)
    ensures items == Join(ReferenceTexts(refs), [NewLine])
  {
    var nref := |refs|;
    ghost var texts := ReferenceTexts(refs);
    items := [];
    for ir := 0 to |refs|
      invariant items == Join(texts[..ir], [NewLine]) + (if 0 < ir < nref then [NewLine] else [])
    {
      JoinAccumulate(items, [], texts[..ir], texts[ir], [NewLine]);
      assert texts[..ir + 1] == texts[..ir] + [texts[ir]];
      assert texts[ir] == [refs[ir].value];
      assert [] + Join(texts[..ir + 1], [NewLine]) == Join(texts[..ir + 1], [NewLine]);
      items := items + [refs[ir].value];
      if ir < nref - 1 {
        items := items + [NewLine];
      }
    }
    assert texts[..|refs|] == texts;
  }

  /**
    The reference list holds every reference text, in order, one `\newline` item
    between consecutive ones and none after the last: 2n - 1 items, and cutting
    at the `\newline` items gives the references back (when no reference text is
    itself `\newline`).
   */
  lemma ReferenceItems(refs: seq<Entry>)
    requires |refs| > 0
    requires forall i :: 0 <= i < |refs| ==> refs[i].value != NewLine
    ensures |Join(ReferenceTexts(refs), [NewLine])| == 2 * |refs| - 1
    ensures Split(Join(ReferenceTexts(refs), [NewLine]), NewLine) == ReferenceTexts(refs)
  {
    var texts := ReferenceTexts(refs);
    JoinLength(texts, [NewLine]);
    SingletonsLength(texts);
    SplitJoin(texts, [], NewLine, []);
    assert [] + [NewLine] + [] == [NewLine];
    var p := Pieces(texts, [], []);
    forall k | 0 <= k < |texts|
      ensures p[k] == texts[k]
    {
    }
    assert p == texts;
  }

  lemma {:induction false} SingletonsLength(texts: seq<seq<string>>)
    requires forall i :: 0 <= i < |texts| ==> |texts[i]| == 1
    ensures TotalLength(texts) == |texts|
    decreases |texts|
  {
    if |texts| > 0 {
      SingletonsLength(texts[1..]);
    }
  }
}
