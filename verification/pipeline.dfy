/** One call of `update_plot`: drain the available lines into the raw window, emit at
    most one smoothed point, and cut the display history back to its bound. */
module Pipeline {
  import opened Wrappers
  import opened Text
  import opened LineParser
  import opened Gate
  import opened Geometry
  import opened Buffers
  import opened MedianWindow
  import opened OrderStats

  /** `MAX_DISPLAY_POINTS`: the display keeps the last 500 smoothed points. */
  const MaxDisplayPoints: nat := 500

  /** The filter's state between frames: the raw window (`raw_points_buffer`) and the
      smoothed history (`obstacle_points`), both oldest first. */
  datatype State = State(window: seq<Point>, display: seq<Point>)

  /** Both buffers within their bounds, as the source's globals always are. */
  predicate Valid(st: State) {
    |st.window| <= FilterWindowSize && |st.display| <= MaxDisplayPoints
  }

  /** Both buffers empty, as at start-up. */
  const Initial: State := State([], [])

  /** The point a line puts into the window, if any: the line must parse, its distance
      must pass the gate, and its angle must convert to a double. */
  function Admit(toPoint: Converter, line: string): (r: Option<Point>)
    ensures r.Some? ==> exists a, d :: (ParseLine(line) == Some(Reading(a, d))
      && 0 <= d <= MaxSensorRangeMm && r.value == toPoint(a, d))
  {
    match ParseLine(line)
    case None => None
    case Some(reading) =>
      if InRange(reading) && AngleConvertible(reading.angleDeg) then
        Some(toPoint(reading.angleDeg, reading.distanceMm))
      else
        None
  }

  /** A line printed as `"<angle>,<distance>"`, with an angle that converts, is admitted
      exactly when `0 <= distance <= 6000`, and then as the converted point. */
  lemma AdmitFormatted(toPoint: Converter, r: Reading)
    requires AngleConvertible(r.angleDeg)
    ensures Admit(toPoint, FormatLine(r)).Some? <==> 0 <= r.distanceMm <= MaxSensorRangeMm
    ensures Admit(toPoint, FormatLine(r)).Some? ==>
      Admit(toPoint, FormatLine(r)).value == toPoint(r.angleDeg, r.distanceMm)
  {
    assert ParseLine(FormatLine(r)) == Some(r) by {
      assert "" + FormatLine(r) + "" == FormatLine(r);
      ParseFormatLine(r, "", "");
    }
    AdmitParsed(toPoint, FormatLine(r), r);
  }

  /** A reading whose angle `math.radians` cannot turn into a double is dropped, whatever
      its distance: the `OverflowError` ends the line before the point is appended. */
  lemma AdmitUnconvertible(toPoint: Converter, line: string, r: Reading)
    requires ParseLine(line) == Some(r) && !AngleConvertible(r.angleDeg)
    ensures Admit(toPoint, line) == None
  {
  }

  lemma AdmitParsed(toPoint: Converter, line: string, r: Reading)
    requires ParseLine(line) == Some(r) && AngleConvertible(r.angleDeg)
    ensures Admit(toPoint, line) == if InRange(r) then Some(toPoint(r.angleDeg, r.distanceMm)) else None
  {
  }

  /** The drain loop's variables: the raw window and `new_data_received`. */
  datatype Drained = Drained(window: seq<Point>, received: bool)

  /** One pass of the drain loop over a line: a blank line is skipped; any other line
      sets the flag before it is parsed, and enters the window only if admitted. */
  function Absorb(toPoint: Converter, d: Drained, line: string): (r: Drained)
    requires |d.window| <= FilterWindowSize
    ensures |r.window| <= FilterWindowSize
  {
    if |Strip(line, IsSpace)| == 0 then d
    else
      match Admit(toPoint, line)
      case None => Drained(d.window, true)
      case Some(p) => Drained(Push(d.window, p), true)
  }

  /** The drain loop over all available lines, in arrival order. */
  function DrainLines(toPoint: Converter, w: seq<Point>, lines: seq<string>): (r: Drained)
    requires |w| <= FilterWindowSize
    ensures |r.window| <= FilterWindowSize
    decreases |lines|
  {
    if |lines| == 0 then Drained(w, false)
    else Absorb(toPoint, DrainLines(toPoint, w, lines[..|lines| - 1]), lines[|lines| - 1])
  }

  /** One call of `update_plot` on the lines waiting at the port. */
  function Frame(toPoint: Converter, st: State, lines: seq<string>): (r: State)
    requires |st.window| <= FilterWindowSize
    ensures Valid(r)
  {
    var d := DrainLines(toPoint, st.window, lines);
    var display := if d.received && |d.window| > 0 then st.display + [Smoothed(d.window)] else st.display;
    State(d.window, Keep(display, MaxDisplayPoints))
  }

  // Reference definitions the frame is proved against.

  /** The points the admitted lines stand for, in arrival order. */
  function Accepted(toPoint: Converter, lines: seq<string>): seq<Point>
    decreases |lines|
  {
    if |lines| == 0 then []
    else
      Accepted(toPoint, lines[..|lines| - 1]) +
        match Admit(toPoint, lines[|lines| - 1])
        case Some(p) => [p]
        case None => []
  }

  /** Some line is not blank once stripped. */
  predicate HasContent(lines: seq<string>) {
    exists i :: 0 <= i < |lines| && |Strip(lines[i], IsSpace)| > 0
  }

  /** The window a frame ends with: the last `FILTER_WINDOW_SIZE` of the old window
      followed by every admitted point. */
  function WindowAfter(toPoint: Converter, st: State, lines: seq<string>): seq<Point> {
    Keep(st.window + Accepted(toPoint, lines), FilterWindowSize)
  }

  /** What a frame appends to the display: one smoothed point when some line had
      content and the window is not empty, nothing otherwise. */
  function Emitted(toPoint: Converter, st: State, lines: seq<string>): seq<Point> {
    var w := WindowAfter(toPoint, st, lines);
    if HasContent(lines) && |w| > 0 then [Smoothed(w)] else []
  }

  /** A frame with content whose window ends non-empty emits the median of that window. */
  lemma EmittedFrom(toPoint: Converter, st: State, lines: seq<string>, w: seq<Point>)
    requires WindowAfter(toPoint, st, lines) == w && |w| > 0 && HasContent(lines)
    ensures Emitted(toPoint, st, lines) == [Smoothed(w)]
  {
  }

  /** A blank line is never admitted. */
  lemma BlankNotAdmitted(toPoint: Converter, line: string)
    requires |Strip(line, IsSpace)| == 0
    ensures Admit(toPoint, line) == None
  {
  }

  /** A line that is not admitted leaves the window as it was. */
  lemma RejectedLineKeepsWindow(toPoint: Converter, d: Drained, line: string)
    requires |d.window| <= FilterWindowSize
    requires Admit(toPoint, line) == None
    ensures Absorb(toPoint, d, line).window == d.window
    ensures Absorb(toPoint, d, line).received == (d.received || |Strip(line, IsSpace)| > 0)
  {
  }

  /** The drained window is the bounded window fed with exactly the admitted points. */
  lemma {:induction false} DrainWindow(toPoint: Converter, w: seq<Point>, lines: seq<string>)
    requires |w| <= FilterWindowSize
    ensures DrainLines(toPoint, w, lines).window == Keep(w + Accepted(toPoint, lines), FilterWindowSize)
    decreases |lines|
  {
    if |lines| == 0 {
      assert w + [] == w;
    } else {
      var init := lines[..|lines| - 1];
      DrainWindow(toPoint, w, init);
      AbsorbWindow(toPoint, DrainLines(toPoint, w, init), lines[|lines| - 1], w + Accepted(toPoint, init));
      AcceptedLast(toPoint, lines);
      AppendAssoc(w, Accepted(toPoint, init),
        match Admit(toPoint, lines[|lines| - 1]) case Some(p) => [p] case None => []);
    }
  }

  /** Absorbing one more line feeds the bounded window with that line's point, if any. */
  lemma AbsorbWindow(toPoint: Converter, d: Drained, line: string, fed: seq<Point>)
    requires |d.window| <= FilterWindowSize && d.window == Keep(fed, FilterWindowSize)
    ensures Absorb(toPoint, d, line).window
      == Keep(fed + (match Admit(toPoint, line) case Some(p) => [p] case None => []), FilterWindowSize)
  {
    if Admit(toPoint, line).Some? {
      BlankNotAdmittedContra(toPoint, line);
      KeepKeep(fed, [Admit(toPoint, line).value], FilterWindowSize);
    } else {
      assert fed + [] == fed;
    }
  }

  /** A last line that is admitted adds its point at the end. */
  lemma AcceptedSnoc(toPoint: Converter, lines: seq<string>, p: Point)
    requires |lines| > 0 && Admit(toPoint, lines[|lines| - 1]) == Some(p)
    ensures Accepted(toPoint, lines) == Accepted(toPoint, lines[..|lines| - 1]) + [p]
  {
    AcceptedLast(toPoint, lines);
  }

  lemma AcceptedLast(toPoint: Converter, lines: seq<string>)
    requires |lines| > 0
    ensures Accepted(toPoint, lines) == Accepted(toPoint, lines[..|lines| - 1]) +
      (match Admit(toPoint, lines[|lines| - 1]) case Some(p) => [p] case None => [])
  {
  }

  lemma BlankNotAdmittedContra(toPoint: Converter, line: string)
    requires Admit(toPoint, line).Some?
    ensures |Strip(line, IsSpace)| > 0
  {
  }

  /** The flag is set exactly when some line had content. */
  lemma {:induction false} DrainReceived(toPoint: Converter, w: seq<Point>, lines: seq<string>)
    requires |w| <= FilterWindowSize
    ensures DrainLines(toPoint, w, lines).received <==> HasContent(lines)
    decreases |lines|
  {
    if |lines| > 0 {
      var init := lines[..|lines| - 1];
      DrainReceived(toPoint, w, init);
      HasContentLast(lines);
    }
  }

  lemma HasContentLast(lines: seq<string>)
    requires |lines| > 0
    ensures HasContent(lines) <==>
      HasContent(lines[..|lines| - 1]) || |Strip(lines[|lines| - 1], IsSpace)| > 0
  {
    var init := lines[..|lines| - 1];
    assert forall i :: 0 <= i < |init| ==> init[i] == lines[i];
  }

  /** A frame in terms of the reference definitions: the window is the bounded window fed
      with the admitted points, and the display is the old display followed by what was
      emitted, cut back to its last 500 points. */
  lemma FrameSpec(toPoint: Converter, st: State, lines: seq<string>)
    requires |st.window| <= FilterWindowSize
    ensures Frame(toPoint, st, lines).window == WindowAfter(toPoint, st, lines)
    ensures Frame(toPoint, st, lines).display
      == Keep(st.display + Emitted(toPoint, st, lines), MaxDisplayPoints)
  {
    DrainWindow(toPoint, st.window, lines);
    DrainReceived(toPoint, st.window, lines);
    assert st.display + [] == st.display;
  }

  /** A frame's result, put together from the window it leaves and what it emits. */
  lemma FrameFrom(toPoint: Converter, st: State, lines: seq<string>, w: seq<Point>, e: seq<Point>)
    requires |st.window| <= FilterWindowSize
    requires WindowAfter(toPoint, st, lines) == w && Emitted(toPoint, st, lines) == e
    ensures Frame(toPoint, st, lines) == State(w, Keep(st.display + e, MaxDisplayPoints))
  {
    FrameSpec(toPoint, st, lines);
  }

  /** The same, with the display's cut-back already worked out. */
  lemma FrameInto(toPoint: Converter, st: State, lines: seq<string>, w: seq<Point>, e: seq<Point>, d: seq<Point>)
    requires |st.window| <= FilterWindowSize
    requires WindowAfter(toPoint, st, lines) == w && Emitted(toPoint, st, lines) == e
    requires Keep(st.display + e, MaxDisplayPoints) == d
    ensures Frame(toPoint, st, lines) == State(w, d)
  {
    FrameFrom(toPoint, st, lines, w, e);
  }

  /** Once a frame has admitted at least `FILTER_WINDOW_SIZE` points, the window is
      exactly the last of them, in arrival order. */
  lemma WindowHoldsLatest(toPoint: Converter, st: State, lines: seq<string>)
    requires |st.window| <= FilterWindowSize
    requires |Accepted(toPoint, lines)| >= FilterWindowSize
    ensures var a := Accepted(toPoint, lines);
      Frame(toPoint, st, lines).window == a[|a| - FilterWindowSize..]
  {
    var a := Accepted(toPoint, lines);
    assert Frame(toPoint, st, lines).window == WindowAfter(toPoint, st, lines) by {
      FrameSpec(toPoint, st, lines);
    }
    KeepLatest(st.window, a, FilterWindowSize);
  }

  /** At most one point is emitted per frame, and one is emitted exactly when some line
      had content (admitted or not) and the window ends up non-empty. */
  lemma AtMostOneEmission(toPoint: Converter, st: State, lines: seq<string>)
    requires |st.window| <= FilterWindowSize
    ensures |Emitted(toPoint, st, lines)| <= 1
    ensures |Emitted(toPoint, st, lines)| == 1 <==>
      HasContent(lines) && (|st.window| > 0 || |Accepted(toPoint, lines)| > 0)
  {
  }

  /** A frame of lines that all fail to parse or pass the gate keeps the window, yet
      appends the median of that unchanged window once more. */
  lemma GarbageFrameRepeatsMedian(toPoint: Converter, st: State, lines: seq<string>)
    requires |st.window| <= FilterWindowSize
    requires HasContent(lines) && Accepted(toPoint, lines) == [] && |st.window| > 0
    ensures Frame(toPoint, st, lines)
      == State(st.window, Keep(st.display + [Smoothed(st.window)], MaxDisplayPoints))
  {
    FrameSpec(toPoint, st, lines);
    assert st.window + [] == st.window;
  }

  /** A frame with no lines, or only blank ones, changes nothing. */
  lemma EmptyFrameIsNoOp(toPoint: Converter, st: State, lines: seq<string>)
    requires Valid(st)
    requires forall i :: 0 <= i < |lines| ==> |Strip(lines[i], IsSpace)| == 0
    ensures Frame(toPoint, st, lines) == st
  {
    FrameSpec(toPoint, st, lines);
    assert Accepted(toPoint, lines) == [] by {
      NothingAdmitted(toPoint, lines);
    }
    assert st.window + [] == st.window;
    assert st.display + [] == st.display;
  }

  lemma {:induction false} NothingAdmitted(toPoint: Converter, lines: seq<string>)
    requires forall i :: 0 <= i < |lines| ==> |Strip(lines[i], IsSpace)| == 0
    ensures Accepted(toPoint, lines) == []
    decreases |lines|
  {
    if |lines| > 0 {
      var init := lines[..|lines| - 1];
      assert forall i :: 0 <= i < |init| ==> init[i] == lines[i];
      NothingAdmitted(toPoint, init);
      BlankNotAdmitted(toPoint, lines[|lines| - 1]);
    }
  }

  // Successive frames.

  /** `update_plot` called once per frame, on each frame's lines in turn. */
  function Run(toPoint: Converter, st: State, frames: seq<seq<string>>): (r: State)
    requires |st.window| <= FilterWindowSize
    ensures |r.window| <= FilterWindowSize
    decreases |frames|
  {
    if |frames| == 0 then st
    else Frame(toPoint, Run(toPoint, st, frames[..|frames| - 1]), frames[|frames| - 1])
  }

  /** Everything the frames emitted, oldest first. */
  function Emissions(toPoint: Converter, st: State, frames: seq<seq<string>>): seq<Point>
    requires |st.window| <= FilterWindowSize
    decreases |frames|
  {
    if |frames| == 0 then []
    else
      var init := frames[..|frames| - 1];
      Emissions(toPoint, st, init) + Emitted(toPoint, Run(toPoint, st, init), frames[|frames| - 1])
  }

  /** All the frames' lines, one after the other. */
  function Concat(frames: seq<seq<string>>): seq<string>
    decreases |frames|
  {
    if |frames| == 0 then [] else Concat(frames[..|frames| - 1]) + frames[|frames| - 1]
  }

  lemma {:induction false} AcceptedAppend(toPoint: Converter, a: seq<string>, b: seq<string>)
    ensures Accepted(toPoint, a + b) == Accepted(toPoint, a) + Accepted(toPoint, b)
    decreases |b|
  {
    if |b| == 0 {
      assert a + b == a;
    } else {
      var b' := b[..|b| - 1];
      assert (a + b)[..|a + b| - 1] == a + b';
      assert (a + b)[|a + b| - 1] == b[|b| - 1];
      AcceptedAppend(toPoint, a, b');
    }
  }

  /** Over any number of frames the display is the last 500 of everything emitted: a
      bounded history that keeps arrival order. */
  lemma {:induction false} RunDisplay(toPoint: Converter, st: State, frames: seq<seq<string>>)
    requires Valid(st)
    ensures Run(toPoint, st, frames).display
      == Keep(st.display + Emissions(toPoint, st, frames), MaxDisplayPoints)
    ensures |Emissions(toPoint, st, frames)| <= |frames|
    decreases |frames|
  {
    if |frames| == 0 {
      assert st.display + [] == st.display;
    } else {
      var init := frames[..|frames| - 1];
      var last := frames[|frames| - 1];
      var mid := Run(toPoint, st, init);
      RunDisplay(toPoint, st, init);
      FrameSpec(toPoint, mid, last);
      var e := Emitted(toPoint, mid, last);
      KeepKeep(st.display + Emissions(toPoint, st, init), e, MaxDisplayPoints);
      assert Emissions(toPoint, st, frames) == Emissions(toPoint, st, init) + e;
      AppendAssoc(st.display, Emissions(toPoint, st, init), e);
    }
  }

  /** Over any number of frames the window behaves as if all the lines had arrived in one
      stream: frame boundaries do not matter to it. */
  lemma {:induction false} RunWindow(toPoint: Converter, st: State, frames: seq<seq<string>>)
    requires |st.window| <= FilterWindowSize
    ensures Run(toPoint, st, frames).window
      == Keep(st.window + Accepted(toPoint, Concat(frames)), FilterWindowSize)
    decreases |frames|
  {
    if |frames| == 0 {
      assert st.window + [] == st.window;
    } else {
      var init := frames[..|frames| - 1];
      var last := frames[|frames| - 1];
      var mid := Run(toPoint, st, init);
      RunWindow(toPoint, st, init);
      FrameSpec(toPoint, mid, last);
      assert Concat(frames) == Concat(init) + last;
      AcceptedAppend(toPoint, Concat(init), last);
      var before := Accepted(toPoint, Concat(init));
      var now := Accepted(toPoint, last);
      KeepKeep(st.window + before, now, FilterWindowSize);
      AppendAssoc(st.window, before, now);
    }
  }

  /** The drain loop after `i + 1` lines is one more pass after `i` lines. */
  lemma DrainLinesStep(toPoint: Converter, w: seq<Point>, lines: seq<string>, i: int)
    requires |w| <= FilterWindowSize && 0 <= i < |lines|
    ensures DrainLines(toPoint, w, lines[..i + 1])
      == Absorb(toPoint, DrainLines(toPoint, w, lines[..i]), lines[i])
  {
    var pre := lines[..i + 1];
    assert |pre| == i + 1 && pre[..i] == lines[..i] && pre[i] == lines[i];
  }

  /** `update_plot` as the source writes it: a loop that drains the lines, then a sort
      of each axis, then the cut-back of the display list. */
  method UpdatePlot(toPoint: Converter, st: State, lines: seq<string>) returns (next: State)
    requires |st.window| <= FilterWindowSize
    ensures next == Frame(toPoint, st, lines) && Valid(next)
    ensures next.window == Keep(st.window + Accepted(toPoint, lines), FilterWindowSize)
    ensures next.display == Keep(st.display + Emitted(toPoint, st, lines), MaxDisplayPoints)
  {
    var window := st.window;
    var received := false;
    var i := 0;
    while i < |lines|
      invariant 0 <= i <= |lines|
      invariant Drained(window, received) == DrainLines(toPoint, st.window, lines[..i])
    {
      ghost var before := Drained(window, received);
      var line := lines[i];
      if |Strip(line, IsSpace)| > 0 {
        received := true;
        match Admit(toPoint, line) {
          case Some(p) => window := Push(window, p);
          case None =>
        }
      }
      assert Drained(window, received) == Absorb(toPoint, before, line);
      DrainLinesStep(toPoint, st.window, lines, i);
      i := i + 1;
    }
    assert lines[..|lines|] == lines;
    var display := st.display;
    if received && |window| > 0 {
      var xs := Sort(Xs(window));
      var ys := Sort(Ys(window));
      assert |xs| == |multiset(xs)| == |window|;
      assert |ys| == |multiset(ys)| == |window|;
      var smoothed := Point(xs[|window| / 2], ys[|window| / 2]);
      assert smoothed == Smoothed(window);
      display := display + [smoothed];
    }
    display := Keep(display, MaxDisplayPoints);
    next := State(window, display);
    FrameSpec(toPoint, st, lines);
  }
}
