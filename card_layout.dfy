/**
  The layout figure of a card, `print_card_layout_to_figure` in
  station_card.py: every section of the card gets a number of grid rows
  (`n_row`), the grid has as many rows as their sum and three columns, and the
  axes are placed top to bottom with a row cursor (`irow`).

  Creating the figure, drawing and saving it are left out; what is modelled is
  the grid size and the cells each axes occupies.
 */
module CardLayout {
  import CardDocument

  /** The keys of `n_row`, in insertion order. */
  datatype Section =
    | Title | Subtitle | Map | Desc | Org | Contact | Portal | Terms
    | DataTable | AcronymTitle | AcronymTable | Note | Reference | Version

  /** The keys of `ax`: the axes of the figure, in the order they are added. */
  datatype Axes =
    | TitleAxes | SubtitleAxes | Map1Axes | Map2Axes | DescAxes | OrgAxes | ContactAxes
    | PortalAxes | TermsAxes | DataTableAxes | AcronymTitleAxes | AcronymTableAxes
    | NoteAxes | ReferenceAxes | VersionAxes

  /** The number of columns of the grid (`n_col_total`). */
  const Columns: nat := 3

  /** The sections in the order `n_row` is filled, which is the order it is summed in. */
  const Sections: seq<Section> :=
    [Title, Subtitle, Map, Desc, Org, Contact, Portal, Terms,
     DataTable, AcronymTitle, AcronymTable, Note, Reference, Version]

  /** The axes in the order they are added to the figure. */
  const AxesOrder: seq<Axes> :=
    [TitleAxes, SubtitleAxes, Map1Axes, Map2Axes, DescAxes, OrgAxes, ContactAxes,
     PortalAxes, TermsAxes, DataTableAxes, AcronymTitleAxes, AcronymTableAxes,
     NoteAxes, ReferenceAxes, VersionAxes]

  /** `int(np.ceil(n / 2.0))`: the least whole number of rows that holds n acronyms two per row. */
  function CeilHalf(n: nat): (r: nat)
    ensures 2 * r >= n && 2 * r < n + 2
  {
    (n + 1) / 2
  }

  /** `n_row[k]` for a card with nData data variables, nAcro acronyms and nRef references. */
  function RowCount(k: Section, nData: nat, nAcro: nat, nRef: nat): nat {
    match k
    case Map => 6
    case Desc => 6
    case DataTable => 1 + nData
    case AcronymTable => CeilHalf(nAcro)
    case Reference => 1 + nRef
    case _ => 1
  }

  /** The sum of `n_row` over the keys from position k to the end. */
  function SumFrom(ks: seq<Section>, k: nat, nData: nat, nAcro: nat, nRef: nat): nat
    requires k <= |ks|
    decreases |ks| - k
  {
    if k == |ks| then 0 else RowCount(ks[k], nData, nAcro, nRef) + SumFrom(ks, k + 1, nData, nAcro, nRef)
  }

  /**
    The grid height: the fixed sections take 23 rows (the description counts its
    six rows although it sits beside the maps), plus one per data variable, one
    per pair of acronyms and one per reference.
   */
  lemma GridHeight(nData: nat, nAcro: nat, nRef: nat)
    ensures SumFrom(Sections, 0, nData, nAcro, nRef) == 23 + nData + CeilHalf(nAcro) + nRef
  {
    var s, a := Sections, CeilHalf(nAcro);
    assert SumFrom(s, 14, nData, nAcro, nRef) == 0;
    assert SumFrom(s, 13, nData, nAcro, nRef) == 1;
    assert SumFrom(s, 12, nData, nAcro, nRef) == 2 + nRef;
    assert SumFrom(s, 11, nData, nAcro, nRef) == 3 + nRef;
    assert SumFrom(s, 10, nData, nAcro, nRef) == 3 + a + nRef;
    assert SumFrom(s, 9, nData, nAcro, nRef) == 4 + a + nRef;
    assert SumFrom(s, 8, nData, nAcro, nRef) == 5 + nData + a + nRef;
    assert SumFrom(s, 7, nData, nAcro, nRef) == 6 + nData + a + nRef;
    assert SumFrom(s, 6, nData, nAcro, nRef) == 7 + nData + a + nRef;
    assert SumFrom(s, 5, nData, nAcro, nRef) == 8 + nData + a + nRef;
    assert SumFrom(s, 4, nData, nAcro, nRef) == 9 + nData + a + nRef;
    assert SumFrom(s, 3, nData, nAcro, nRef) == 15 + nData + a + nRef;
    assert SumFrom(s, 2, nData, nAcro, nRef) == 21 + nData + a + nRef;
    assert SumFrom(s, 1, nData, nAcro, nRef) == 22 + nData + a + nRef;
  }

  /** The grid cells of one axes: rows [rowStart, rowStop) and columns [colStart, colStop). */
  datatype Placement = Placement(axes: Axes, rowStart: int, rowStop: int, colStart: int, colStop: int)

  /** `gs[r, :]`: one full-width row. */
  function FullRow(a: Axes, r: int): Placement {
    Placement(a, r, r + 1, 0, Columns)
  }

  /** `gs[r:(r + n), :]`: n full-width rows. */
  function FullRows(a: Axes, r: int, n: nat): Placement {
    Placement(a, r, r + n, 0, Columns)
  }

  /** `gs[r:(r + n), c]`: n rows of column c. */
  function Column(a: Axes, r: int, n: nat, c: nat): Placement {
    Placement(a, r, r + n, c, c + 1)
  }

  /** The placement lies inside a grid of the given height. */
  predicate Inside(p: Placement, nrows: int) {
    0 <= p.rowStart <= p.rowStop <= nrows && 0 <= p.colStart < p.colStop <= Columns
  }

  /** Two placements share no grid cell. */
  predicate Apart(p: Placement, q: Placement) {
    p.rowStop <= q.rowStart || q.rowStop <= p.rowStart
    || p.colStop <= q.colStart || q.colStop <= p.colStart
  }

  /** The position of an axes in the order the axes are added. */
  function Index(a: Axes): (i: nat)
    ensures i < |AxesOrder| && AxesOrder[i] == a
  {
    match a
    case TitleAxes => 0
    case SubtitleAxes => 1
    case Map1Axes => 2
    case Map2Axes => 3
    case DescAxes => 4
    case OrgAxes => 5
    case ContactAxes => 6
    case PortalAxes => 7
    case TermsAxes => 8
    case DataTableAxes => 9
    case AcronymTitleAxes => 10
    case AcronymTableAxes => 11
    case NoteAxes => 12
    case ReferenceAxes => 13
    case VersionAxes => 14
  }

  /** How many rows each axes is given: the maps and the description six, the tables their row counts, every other axes one (the reference list included). */
  function Height(a: Axes, nData: nat, nAcro: nat): nat {
    match a
    case Map1Axes => 6
    case Map2Axes => 6
    case DescAxes => 6
    case DataTableAxes => 1 + nData
    case AcronymTableAxes => CeilHalf(nAcro)
    case _ => 1
  }

  /**
    The first row of each axes, counted independently of the cursor: the rows of
    every section above it, where the maps and the description stand side by
    side in one band of six rows and the reference section reserves 1 + nRef rows.
   */
  function FirstRow(a: Axes, nData: nat, nAcro: nat, nRef: nat): nat {
    var band := 2;
    var below := band + 6;
    var tables := below + 4;
    match a
    case TitleAxes => 0
    case SubtitleAxes => 1
    case Map1Axes => band
    case Map2Axes => band
    case DescAxes => band
    case OrgAxes => below
    case ContactAxes => below + 1
    case PortalAxes => below + 2
    case TermsAxes => below + 3
    case DataTableAxes => tables
    case AcronymTitleAxes => tables + 1 + nData
    case AcronymTableAxes => tables + 2 + nData
    case NoteAxes => tables + 2 + nData + CeilHalf(nAcro)
    case ReferenceAxes => tables + 3 + nData + CeilHalf(nAcro)
    case VersionAxes => tables + 4 + nData + CeilHalf(nAcro) + nRef
  }

  /** The column of the maps and the description; every other axes spans all three. */
  function FirstColumn(a: Axes): nat {
    match a
    case Map2Axes => 1
    case DescAxes => 2
    case _ => 0
  }

  function LastColumn(a: Axes): nat {
    match a
    case Map1Axes => 1
    case Map2Axes => 2
    case _ => Columns
  }

  /** The cells of axes a on the card's grid. */
  function Place(a: Axes, nData: nat, nAcro: nat, nRef: nat): Placement {
    var r := FirstRow(a, nData, nAcro, nRef);
    Placement(a, r, r + Height(a, nData, nAcro), FirstColumn(a), LastColumn(a))
  }

  /** The grid height of a card with nData data variables, nAcro acronyms and nRef references. */
  function GridRows(nData: nat, nAcro: nat, nRef: nat): nat {
    23 + nData + CeilHalf(nAcro) + nRef
  }

  /** `n_row_total`: the sum of `n_row` over its keys, in insertion order (station_card.py:399-401). */
  method GridRowTotal(nData: nat, nAcro: nat, nRef: nat) returns (total: nat)
    ensures total == GridRows(nData, nAcro, nRef)
  {
    total := 0;
    for i := 0 to |Sections|
      invariant total + SumFrom(Sections, i, nData, nAcro, nRef) == SumFrom(Sections, 0, nData, nAcro, nRef)
    {
      total := total + RowCount(Sections[i], nData, nAcro, nRef);
    }
    GridHeight(nData, nAcro, nRef);
  }

  /**
    The layout figure (station_card.py:371-457): the grid height is the sum of
    the section row counts, and the cursor puts every axes, in the order they
    are added, on the cells `Place` gives it. The cursor ends six rows short of
    the grid height.
   */
  method LayoutCard(nData: nat, nAcro: nat, nRef: nat) returns (nrows: nat, placements: seq<Placement>, irow: int)
    ensures nrows == GridRows(nData, nAcro, nRef)
    ensures |placements| == |AxesOrder|
    ensures forall a :: placements[Index(a)] == Place(a, nData, nAcro, nRef)
    ensures irow == nrows - 6
  {
    nrows := GridRowTotal(nData, nAcro, nRef);

    irow := 0;
    var title := FullRow(TitleAxes, irow);
    irow := irow + RowCount(Title, nData, nAcro, nRef);
    var subtitle := FullRow(SubtitleAxes, irow);
    irow := irow + RowCount(Subtitle, nData, nAcro, nRef);
    var map1 := Column(Map1Axes, irow, RowCount(Map, nData, nAcro, nRef), 0);
    var map2 := Column(Map2Axes, irow, RowCount(Map, nData, nAcro, nRef), 1);
    var desc := Column(DescAxes, irow, RowCount(Map, nData, nAcro, nRef), 2);
    irow := irow + RowCount(Map, nData, nAcro, nRef);
    var org := FullRow(OrgAxes, irow);
    irow := irow + RowCount(Org, nData, nAcro, nRef);
    var contact := FullRow(ContactAxes, irow);
    irow := irow + RowCount(Contact, nData, nAcro, nRef);
    var portal := FullRow(PortalAxes, irow);
    irow := irow + RowCount(Portal, nData, nAcro, nRef);
    var terms := FullRow(TermsAxes, irow);
    irow := irow + RowCount(Terms, nData, nAcro, nRef);
    var dtable := FullRows(DataTableAxes, irow, RowCount(DataTable, nData, nAcro, nRef));
    irow := irow + RowCount(DataTable, nData, nAcro, nRef);
    var atitle := FullRow(AcronymTitleAxes, irow);
    irow := irow + RowCount(AcronymTitle, nData, nAcro, nRef);
    var atable := FullRows(AcronymTableAxes, irow, RowCount(AcronymTable, nData, nAcro, nRef));
    irow := irow + RowCount(AcronymTable, nData, nAcro, nRef);
    var note := FullRow(NoteAxes, irow);
    irow := irow + RowCount(Note, nData, nAcro, nRef);
    var ref := FullRow(ReferenceAxes, irow);
    irow := irow + RowCount(Reference, nData, nAcro, nRef);
    var version := FullRow(VersionAxes, irow);
    irow := irow + RowCount(Version, nData, nAcro, nRef);

    placements := [title, subtitle, map1, map2, desc, org, contact, portal, terms,
                   dtable, atitle, atable, note, ref, version];
  }

  /** Every axes lies on the grid, and none reaches its last six rows. */
  lemma PlacementsInside(nData: nat, nAcro: nat, nRef: nat)
    ensures forall a :: Inside(Place(a, nData, nAcro, nRef), GridRows(nData, nAcro, nRef) - 6)
    ensures Place(VersionAxes, nData, nAcro, nRef).rowStop == GridRows(nData, nAcro, nRef) - 6
  {
  }

  /** No two axes share a grid cell. */
  lemma PlacementsApart(nData: nat, nAcro: nat, nRef: nat)
    ensures forall a, b :: a != b ==> Apart(Place(a, nData, nAcro, nRef), Place(b, nData, nAcro, nRef))
  {
  }

  /** Axes added later never start above axes added earlier. */
  lemma PlacementsTopDown(nData: nat, nAcro: nat, nRef: nat)
    ensures forall a, b :: Index(a) < Index(b) ==> Place(a, nData, nAcro, nRef).rowStart <= Place(b, nData, nAcro, nRef).rowStart
  {
  }

  /**
    The axes follow one another without gaps: each starts on the row after the
    previous one ends, but for the second map and the description, which start
    beside the first map, and the version, which starts after the rows the
    reference section reserves.
   */
  lemma PlacementsContiguous(nData: nat, nAcro: nat, nRef: nat)
    ensures forall a, b :: Index(b) == Index(a) + 1 ==>
      Place(b, nData, nAcro, nRef).rowStart ==
        if b == Map2Axes || b == DescAxes then Place(a, nData, nAcro, nRef).rowStart
        else if b == VersionAxes then Place(a, nData, nAcro, nRef).rowStop + nRef
        else Place(a, nData, nAcro, nRef).rowStop
  {
  }

  /** The acronym table is the only axes that can get no row, and it gets none exactly when there are no acronyms. */
  lemma EmptyPlacement(nData: nat, nAcro: nat, nRef: nat)
    ensures forall a ::
      (Place(a, nData, nAcro, nRef).rowStart == Place(a, nData, nAcro, nRef).rowStop <==> a == AcronymTableAxes && nAcro == 0)
  {
  }

  /** The reference section reserves 1 + nRef rows but its axes takes one: the nRef rows below it hold no axes. */
  lemma ReferenceGap(nData: nat, nAcro: nat, nRef: nat)
    ensures Place(VersionAxes, nData, nAcro, nRef).rowStart == Place(ReferenceAxes, nData, nAcro, nRef).rowStop + nRef
    ensures forall a :: a != ReferenceAxes && a != VersionAxes ==>
      Place(a, nData, nAcro, nRef).rowStop <= Place(ReferenceAxes, nData, nAcro, nRef).rowStart
  {
  }

  /** The data-table axes has a row for the header and one per data row of the card's data table. */
  lemma DataTableHeight(ds: seq<CardDocument.DataEntry>, nAcro: nat)
    ensures Height(DataTableAxes, |ds|, nAcro) == 1 + |CardDocument.DataTableRows(ds)|
  {
  }

  /** The acronym-table axes has exactly as many rows as the card's acronym table. */
  lemma AcronymTableHeight(acrs: seq<CardDocument.Entry>, nData: nat)
    ensures Height(AcronymTableAxes, nData, |acrs|) == |CardDocument.AcronymTableRows(acrs)|
  {
    CardDocument.AcronymPairsAt(acrs, 0);
  }
}
