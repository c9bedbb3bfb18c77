# station-card in Dafny

A model of the parts of `station_card.py` (the station-card generator) that
have logic of their own, and proofs about them:

- **`MarkSite`**, the interactive site marker (`mark_site.dfy`, module
  `MarkSession`). The operator clicks on the local map. Clicks inside the axes
  that carry both coordinates become markers numbered in click order. The
  click that brings the count to the number of sites saves the figure,
  disconnects the handler and resets the collected points. The class
  `MarkSite` keeps the source's fields (`nsite`, `fpathIn`, `fpathOut`,
  `points`, `npts`) and a `connected` flag. It also keeps two ghost records:
  the markers drawn on the current figure and the list of `savefig` calls. Each
  method is proved against a pure transition function (`Fresh`, `Begin`,
  `Step`). The event loop is the function `Run`, and a whole marking session is
  proved by induction over the clicks.
- **The data-driven text of `CardDocument.fill_document`** (`card_document.dfy`,
  module `CardDocument`). This covers the image includes with escaped paths,
  the site list, the data-table rows, the two-column acronym table and the
  reference list. Each loop is a method that returns the items the source
  appends, in order. Each method is proved equal to a specification function,
  and lemmas state what those functions produce: cells, row counts, row
  breaks, separators and round trips.
- **The grid of `StationCard.print_card_layout_to_figure`** (`card_layout.dfy`,
  module `CardLayout`). This covers the row count of every section, the grid
  height and the cells the row cursor gives each axes. The cursor-based method
  is proved equal to a closed-form placement, and lemmas about that placement
  show the following. Every axes lies inside the grid. No two axes share a
  cell. The axes run top to bottom without gaps, except for the rows the
  reference section reserves and never uses. The last six grid rows stay
  empty.
- **Shared text helpers** (`text.dfy`, module `Text`). These are joining with a
  separator and splitting at it, the `_` → `\_` escaping and its inverse, and
  the decimal rendering of marker numbers with its inverse.

A JSON list element of `sites`, `acronym_table` or `reference` is a one-key
object. It is modelled as an `Entry(key, value)`. A `data_table` element is a
`DataEntry`, whose field `technique` holds the JSON field `method`.

## Model

| member | source | states |
|---|---|---|
| MarkSession.Fresh | station_card.py:144-149 | a new marker has no points, a zero count, is disconnected and has drawn and saved nothing; this state satisfies the object invariant |
| MarkSession.MarkSite.constructor | station_card.py:144-149 | the constructor stores `nsite`, both paths, an empty point list and a zero count; the object invariant holds |
| MarkSession.MarkSite.Start | station_card.py:152-178 | a fresh, empty figure is created either way; the click handler is connected exactly when the operator confirms |
| MarkSession.MarkSite.OnClick | station_card.py:193-241 | one handler call performs exactly the transition `Step` and keeps the invariant: the count equals the number of points, stays below the save threshold, nothing is pending once disconnected, and the last markers drawn are the points numbered 1, 2, … |
| MarkSession.MarkSite.Disconnect | station_card.py:244-245 | afterwards the handler is no longer connected |
| MarkSession.StepEffect | station_card.py:197-241 | a click outside the axes or without a coordinate changes nothing; an accepted click draws one marker labelled with the new count; it then either appends exactly one point and adds one to the count, or, when the count reaches `nsite`, saves the figure once with every marker on it, disconnects and resets the points and the count |
| MarkSession.StepKeepsInv | station_card.py:193-241 | the handler keeps `npts == len(points)` and the other parts of the object invariant |
| MarkSession.RunFrom | station_card.py:193-241 | for any sequence of clicks from a collecting state: while fewer than N points are known, nothing is saved and the points and labelled markers are exactly the accepted clicks in order; otherwise the figure was saved exactly once with exactly the first N points, labelled 1..N, the handler is disconnected and the points are reset |
| MarkSession.MarkingSession | station_card.py:152-241 | a confirmed marking session from a new object: no save before the N-th accepted click, and exactly one save, to the output path, with the first N accepted points after it |
| MarkSession.DeclinedSession | station_card.py:158-178 | when the operator declines, no click is handled and nothing is saved |
| MarkSession.MarkerLabelsDistinct | station_card.py:207-212 | markers of one session carry pairwise different labels |
| Text.DecimalString | station_card.py:212 | a marker label is a non-empty string of digits with no leading zero |
| Text.DecimalRoundTrip | station_card.py:212 | a marker label reads back as its number |
| Text.Escape | station_card.py:549-552 | every underscore of the escaped text is preceded by a backslash, and escaping never shortens the text |
| Text.EscapeRoundTrip | station_card.py:549-552 | the escaping loses nothing: unescaping gives the original path back |
| CardDocument.IncludeGraphicsPath | station_card.py:549-552 | escaping the formatted include changes only the path inside the braces, every underscore in it is escaped, and the path can be read back |
| CardDocument.SitesText | station_card.py:557-564 | the accumulated site text is the heading followed by the `key: value` lines of the sites, in order, joined by `\newline` |
| CardDocument.SitesTextLines | station_card.py:557-564 | for at least one site, and when no key or value holds a backslash: cut at its backslashes, the part after the heading gives the first site line, then `newline` and the next line for each further site, and it ends with the last site's line, with no `\newline` after it |
| CardDocument.TerminateAt | station_card.py:610-611 | row k of a table is row k followed by ` \\` exactly when it is not the last row |
| CardDocument.DataRowCells | station_card.py:606-609 | when no field holds `&`: a data row has exactly six cells, holding name, method, height, time resolution, time period and site in that order (a field holding `&` is inserted unescaped and adds cells) |
| CardDocument.DataTable | station_card.py:604-612 | the appended rows are one row per data entry, in order, each followed by ` \\` but the last |
| CardDocument.AcronymPairsAt | station_card.py:619-628 | there are ceil(n/2) acronym rows; row j holds entries 2j and 2j+1, or entry 2j alone when it is the last of an odd count |
| CardDocument.AcronymTable | station_card.py:619-635 | the appended rows are the paired acronym rows, in order, each followed by ` \\` exactly when it is not the last row |
| CardDocument.AcronymPairCells | station_card.py:623-626 | when no acronym or expansion holds `&`: a full acronym row has four cells, both acronyms and expansions in order |
| CardDocument.AcronymHalfCells | station_card.py:627-628 | when neither the acronym nor its expansion holds `&`: the row of a lone last acronym still has four cells, and the two on the right hold only a blank |
| CardDocument.References | station_card.py:641-645 | the appended items are the reference texts in order with one `\newline` item between consecutive ones, and none at all when there are no references |
| CardDocument.ReferenceItems | station_card.py:641-645 | for n >= 1 references, none of whose texts is itself `\newline`: the list has 2n - 1 items, and cutting at the `\newline` items gives the references back |
| CardLayout.CeilHalf | station_card.py:393 | the acronym-table row count is the least r with 2r >= n_acro |
| CardLayout.GridHeight | station_card.py:383-396 | the section row counts add up to 23 + n_data + ceil(n_acro/2) + n_ref |
| CardLayout.GridRowTotal | station_card.py:399-401 | the loop over `n_row` computes that grid height |
| CardLayout.LayoutCard | station_card.py:377-457 | the grid height is that sum, every axes is placed on the cells of the closed-form placement `Place`, and the cursor ends six rows short of the grid height |
| CardLayout.PlacementsInside | station_card.py:416-457 | every axes lies inside the grid and above its last six rows; the version axes ends exactly there |
| CardLayout.PlacementsApart | station_card.py:416-457 | no two axes share a grid cell |
| CardLayout.PlacementsTopDown | station_card.py:416-457 | an axes added later never starts above one added earlier |
| CardLayout.PlacementsContiguous | station_card.py:416-457 | each axes starts on the row after the previous one ends; the second map and the description start beside the first map; the version starts n_ref rows after the reference axes ends |
| CardLayout.EmptyPlacement | station_card.py:447-448 | the acronym table is the only axes that can get no row, and it gets none exactly when there are no acronyms |
| CardLayout.ReferenceGap | station_card.py:453-457 | the reference axes takes one row of the 1 + n_ref its section reserves; no other axes uses the n_ref rows below it |
| CardLayout.DataTableHeight | station_card.py:391 | the data-table axes has one row for the header plus one per data-table row of the document |
| CardLayout.AcronymTableHeight | station_card.py:393 | the acronym-table axes has as many rows as the document's acronym table |

## Left out

- GUI and event-loop effects are not modelled beyond the abstract `connected` flag, the drawn markers and the list of saves. These are the tkinter dialog, `plt.subplots`, `imshow`, `canvas.draw`, `plt.pause`, `plt.close`, and what `savefig` writes. The operator's answer to the dialog is a parameter of `Start`.
- The marker's appearance (font, colours, circle box) is not modelled; only its position and label are.
- MarkSession.MarkSite.OnClick: requires the handler to be connected, because the canvas delivers clicks only between `mpl_connect` and `mpl_disconnect`; `Run` likewise stops delivering clicks after the disconnect.
- MarkSession.MarkSite.Start: requires a disconnected object, because `start` is called once on a fresh `MarkSite` (station_card.py:366-368).
- Click coordinates are modelled as mathematical reals, not floating point.
- `prepare_country_map` is not modelled: it is cartopy projection and raster rendering.
- The pylatex `Document`, the preamble, `generate_pdf` and `dumps` are not modelled. Neither are the fixed LaTeX pieces that `fill_document` appends around the modelled loops: the tcolorbox openings and closings, the data-table header row and `\hline`, the title, description, metadata and version texts.
- `json.load` and the `list(d.keys())[0]` extraction are not modelled; the JSON lists are given directly as sequences of `Entry` and `DataEntry` values.
- The argparse front end and `do_mark_parser` / `do_card_parser` are plumbing and not modelled.
- CardLayout.LayoutCard: records an empty row range for the acronym table when there are no acronyms. Matplotlib rejects an empty GridSpec slice when the axes is added, and that library behaviour is outside the model; `EmptyPlacement` states exactly when the case arises.
- CardLayout.CeilHalf: `np.ceil(n_acro / 2.0)` is computed in floating point; the model uses the exact integer ceiling, which agrees for every count below 2^53.
- Creating the figure, adding the axes and saving the layout image are not modelled; only the grid size and the cells of each axes are.
