/**
  The interactive site marker, `MarkSite` in station_card.py. The operator
  clicks on the local map; every click inside the axes that carries both
  coordinates becomes a marker numbered in click order, and the click that
  brings the count to the number of sites saves the figure, disconnects the
  click handler and resets the collected points.

  Drawing, saving and the event loop are abstract effects: `drawn` is the list
  of markers on the current figure (`ax.text`), `saves` the record of the
  `savefig` calls, `connected` whether the canvas still delivers clicks to
  the handler (`mpl_connect` / `mpl_disconnect`).
 */
module MarkSession {
  import opened Text

  datatype Option<T> = None | Some(value: T)

  /** Data coordinates of a click (`event.xdata`, `event.ydata`). */
  datatype Point = Point(x: real, y: real)

  /** What the handler reads from a button-press event: whether it fell inside the axes, and its coordinates, if any. */
  datatype ClickEvent = ClickEvent(inAxes: bool, xdata: Option<real>, ydata: Option<real>)

  /** A numbered circle drawn at a point. */
  datatype Marker = Marker(at: Point, caption: string)

  /** One `savefig`: the output path and the markers on the figure at that moment. */
  datatype SavedImage = SavedImage(path: string, markers: seq<Marker>)

  /** The observable state of a `MarkSite` object. */
  datatype MarkState = MarkState(
    nsite: nat,
    fpathOut: string,
    points: seq<Point>,
    npts: nat,
    connected: bool,
    drawn: seq<Marker>,
    saves: seq<SavedImage>)

  /** The handler ignores clicks outside the axes and clicks without both coordinates. */
  predicate Accepted(e: ClickEvent) {
    e.inAxes && e.xdata.Some? && e.ydata.Some?
  }

  /** The text in the k-th marker: `str(k)`. */
  function Label(k: nat): string {
    DecimalString(k)
  }

  /** The markers for the points collected so far: the i-th point (from 0) carries the label i + 1. */
  function Markers(ps: seq<Point>): (ms: seq<Marker>)
    ensures |ms| == |ps|
  {
    seq(|ps|, i requires 0 <= i < |ps| => Marker(ps[i], Label(i + 1)))
  }

  /** The number of accepted clicks after which the figure is saved: the first count with `npts >= nsite`. */
  function Needed(nsite: nat): nat {
    if nsite == 0 then 1 else nsite
  }

  /**
    The object invariant: the counter is the length of the point list, it stays
    below the save threshold between clicks, nothing is pending once the handler
    is disconnected, and the last markers drawn are the collected points numbered
    1, 2, ... in click order.
   */
  predicate Inv(s: MarkState) {
    && s.npts == |s.points|
    && s.npts < Needed(s.nsite)
    && (!s.connected ==> s.points == [])
    && IsSuffix(Markers(s.points), s.drawn)
  }

  /** The state `__init__` builds (station_card.py:144-149). */
  function Fresh(nsite: nat, fpathOut: string): (s: MarkState)
    ensures Inv(s)
  {
    MarkState(nsite, fpathOut, [], 0, false, [], [])
  }

  /** `start`: a fresh figure in any case; the handler is connected only when the operator answers yes. */
  function Begin(s: MarkState, confirmed: bool): MarkState {
    s.(connected := confirmed, drawn := [])
  }

  /** `on_click` applied to one event (station_card.py:193-241). */
  function Step(s: MarkState, e: ClickEvent): MarkState
    requires s.connected
  {
    if !Accepted(e) then s
    else
      var p := Point(e.xdata.value, e.ydata.value);
      var n := s.npts + 1;
      var drawn := s.drawn + [Marker(p, Label(n))];
      if n >= s.nsite then
        s.(points := [], npts := 0, connected := false, drawn := drawn,
           saves := s.saves + [SavedImage(s.fpathOut, drawn)])
      else
        s.(points := s.points + [p], npts := n, drawn := drawn)
  }

  /** The event loop: each event goes to the handler while it is still connected; later ones are not delivered. */
  function Run(s: MarkState, es: seq<ClickEvent>): MarkState
    decreases |es|
  {
    if |es| == 0 || !s.connected then s else Run(Step(s, es[0]), es[1..])
  }

  /** The points of the accepted events, in order. */
  function AcceptedPoints(es: seq<ClickEvent>): (ps: seq<Point>)
    ensures |ps| <= |es|
    decreases |es|
  {
    if |es| == 0 then []
    else
      (if Accepted(es[0]) then [Point(es[0].xdata.value, es[0].ydata.value)] else [])
      + AcceptedPoints(es[1..])
  }

  lemma MarkersSnoc(ps: seq<Point>, p: Point)
    ensures Markers(ps + [p]) == Markers(ps) + [Marker(p, Label(|ps| + 1))]
  {
  }

  /**
    What one call of the handler does: an ignored click changes nothing; an
    accepted one draws exactly one marker, numbered one more than the old count,
    and then either appends exactly one point and counts it, or, when the count
    reaches the number of sites, saves the figure once with every marker on it,
    disconnects and empties the point list.
   */
  lemma StepEffect(s: MarkState, e: ClickEvent)
    requires Inv(s) && s.connected
    ensures !Accepted(e) ==> Step(s, e) == s
    ensures Accepted(e) ==>
      var p := Point(e.xdata.value, e.ydata.value);
      var r := Step(s, e);
      && r.drawn == s.drawn + [Marker(p, Label(s.npts + 1))]
      && (if s.npts + 1 < Needed(s.nsite)
          then r.points == s.points + [p] && r.npts == s.npts + 1 && r.connected && r.saves == s.saves
          else r.points == [] && r.npts == 0 && !r.connected && r.saves == s.saves + [SavedImage(s.fpathOut, r.drawn)])
  {
  }

  /** The handler keeps the object invariant. */
  lemma StepKeepsInv(s: MarkState, e: ClickEvent)
    requires Inv(s) && s.connected
    ensures Inv(Step(s, e))
  {
  }

  /**
    Where a session ends, from state s, once `acc` is the list of every point
    collected: still waiting with all of them when there are fewer than N, and
    otherwise saved once with the first N, disconnected and reset.
   */
  function Outcome(s: MarkState, acc: seq<Point>): MarkState {
    var n := Needed(s.nsite);
    if |acc| < n then s.(points := acc, npts := |acc|, drawn := Markers(acc))
    else s.(points := [], npts := 0, connected := false, drawn := Markers(acc[..n]),
            saves := s.saves + [SavedImage(s.fpathOut, Markers(acc[..n]))])
  }

  /** The event loop passes over an ignored click. */
  lemma RunIgnored(s: MarkState, es: seq<ClickEvent>)
    requires s.connected && |es| > 0 && !Accepted(es[0])
    ensures Run(s, es) == Run(s, es[1..])
    ensures AcceptedPoints(es) == AcceptedPoints(es[1..])
  {
  }

  /** The event loop hands an accepted click to the handler, and collects its point. */
  lemma RunAccepted(s: MarkState, es: seq<ClickEvent>)
    requires s.connected && |es| > 0 && Accepted(es[0])
    ensures Run(s, es) == Run(Step(s, es[0]), es[1..])
    ensures AcceptedPoints(es) == [Point(es[0].xdata.value, es[0].ydata.value)] + AcceptedPoints(es[1..])
  {
  }

  /**
    A marking session from any state reached while clicks are being collected:
    with `acc` the points collected so far followed by those of the accepted
    events, and N the number of sites, the session is still waiting when fewer
    than N points are known; otherwise the figure has been saved exactly once,
    with exactly the first N points, labelled 1..N in click order, the handler
    is disconnected and the point list is empty. Clicks after the N-th are never
    delivered.
   */
  lemma {:induction false} RunFrom(s: MarkState, es: seq<ClickEvent>)
    requires Inv(s) && s.connected && s.drawn == Markers(s.points)
    ensures Run(s, es) == Outcome(s, s.points + AcceptedPoints(es))
    decreases |es|
  {
    if |es| == 0 {
      assert s.points + AcceptedPoints(es) == s.points;
    } else if !Accepted(es[0]) {
      RunIgnored(s, es);
      RunFrom(s, es[1..]);
    } else {
      var e := es[0];
      var p := Point(e.xdata.value, e.ydata.value);
      RunAccepted(s, es);
      MarkersSnoc(s.points, p);
      var rest := AcceptedPoints(es[1..]);
      var acc := s.points + AcceptedPoints(es);
      assert acc == (s.points + [p]) + rest;
      var s' := Step(s, e);
      if s.npts + 1 < Needed(s.nsite) {
        RunFrom(s', es[1..]);
        assert Outcome(s', acc) == Outcome(s, acc);
      } else {
        assert acc[..Needed(s.nsite)] == s.points + [p];
      }
    }
  }

  /**
    The whole `mark` workflow for a station with `nsite` sites, when the operator
    confirms: the k-th accepted click is drawn with label `str(k)`, no save happens
    before the N-th accepted click, and on it the figure is saved exactly once,
    to the output path, with the first N points.
   */
  lemma MarkingSession(nsite: nat, fpathOut: string, es: seq<ClickEvent>)
    ensures
      var acc := AcceptedPoints(es);
      var n := Needed(nsite);
      var r := Run(Begin(Fresh(nsite, fpathOut), true), es);
      if |acc| < n then
        r.connected && r.saves == [] && r.points == acc && r.npts == |acc| && r.drawn == Markers(acc)
      else
        !r.connected && r.points == [] && r.npts == 0
        && r.saves == [SavedImage(fpathOut, Markers(acc[..n]))]
  {
    var s := Begin(Fresh(nsite, fpathOut), true);
    assert s.points + AcceptedPoints(es) == AcceptedPoints(es);
    RunFrom(s, es);
  }

  /** When the operator declines, no click is handled and nothing is saved. */
  lemma DeclinedSession(nsite: nat, fpathOut: string, es: seq<ClickEvent>)
    ensures Run(Begin(Fresh(nsite, fpathOut), false), es) == Begin(Fresh(nsite, fpathOut), false)
  {
  }

  /** Markers of one session carry pairwise different labels. */
  lemma MarkerLabelsDistinct(ps: seq<Point>, i: nat, j: nat)
    requires i < |ps| && j < |ps| && i != j
    ensures Markers(ps)[i].caption != Markers(ps)[j].caption
  {
    if Markers(ps)[i].caption == Markers(ps)[j].caption {
      DecimalInjective(i + 1, j + 1);
    }
  }

  /**
    A `MarkSite` object. `nsite`, `fpathIn` and `fpathOut` are set once by the
    constructor; `points`, `npts` and `connected` are what the handler updates.
   */
  class MarkSite {
    const nsite: nat
    const fpathIn: string
    const fpathOut: string
    var points: seq<Point>
    var npts: nat
    var connected: bool
    ghost var drawn: seq<Marker>
    ghost var saves: seq<SavedImage>

    ghost function State(): MarkState
      reads this
    {
      MarkState(nsite, fpathOut, points, npts, connected, drawn, saves)
    }

    ghost predicate Valid()
      reads this
    {
      Inv(State())
    }

    constructor (nsite: nat, fpathIn: string, fpathOut: string)
      ensures Valid() && State() == Fresh(nsite, fpathOut) && this.fpathIn == fpathIn
    {
      this.nsite := nsite;
      this.fpathIn := fpathIn;
      this.fpathOut := fpathOut;
      points := [];
      npts := 0;
      connected := false;
      drawn := [];
      saves := [];
    }

    /**
      `start`: `confirmed` is the operator's answer to the confirmation dialog.
      A new, empty figure is created in either case; the handler is connected
      only on a yes. It is called once, on a freshly constructed object.
     */
    method Start(confirmed: bool)
      requires Valid() && !connected
      modifies this
      ensures Valid() && State() == Begin(old(State()), confirmed)
    {
      drawn := [];
      if confirmed {
        connected := true;
      }
    }

    /** `on_click`; the canvas calls it only while the handler is connected. */
    method OnClick(e: ClickEvent)
      requires Valid() && connected
      modifies this
      ensures Valid() && State() == Step(old(State()), e)
    {
      ghost var s := State();
      StepKeepsInv(s, e);
      if !e.inAxes {
        return;
      }
      if e.xdata.None? {
        return;
      }
      if e.ydata.None? {
        return;
      }
      var p := Point(e.xdata.value, e.ydata.value);
      points := points + [p];
      npts := npts + 1;
      var caption := Label(npts);
      drawn := drawn + [Marker(p, caption)];
      if npts >= nsite {
        saves := saves + [SavedImage(fpathOut, drawn)];
        Disconnect();
        points := [];
        npts := 0;
      }
    }

    /** `disconnect`: the canvas stops delivering clicks to the handler. */
    method Disconnect()
      requires connected
      modifies this`connected
      ensures !connected
    {
      connected := false;
    }
  }
}
