/** Worked runs of the filter on the lines a sensor looking straight ahead (angle 0)
    prints for obstacles at 1, 2, 3 and 4 metres. */
module Scenarios {
  import opened Wrappers
  import opened Text
  import opened Decimal
  import opened LineParser
  import opened Geometry
  import opened OrderStats
  import opened Buffers
  import opened MedianWindow
  import opened Pipeline
  import opened Gate

  /** The converter puts whole-metre distances at angle `a` straight ahead: `k * 1000` mm
      becomes `(k, 0)` for 1 to 6 m. At `a == 0` the floating-point conversion meets this
      exactly, since `k * 1000 / 1000.0`, `cos(0.0)` and `sin(0.0)` are all exact. */
  ghost predicate StraightAhead(toPoint: Converter, a: int) {
    && AngleConvertible(a)
    && toPoint(a, 1000) == Point(1.0, 0.0)
    && toPoint(a, 2000) == Point(2.0, 0.0)
    && toPoint(a, 3000) == Point(3.0, 0.0)
    && toPoint(a, 4000) == Point(4.0, 0.0)
    && toPoint(a, 5000) == Point(5.0, 0.0)
    && toPoint(a, 6000) == Point(6.0, 0.0)
  }

  /** A line `"<a>,<k * 1000>"` is admitted as the point `k` metres ahead. */
  lemma AdmitsAhead(toPoint: Converter, r: Reading, k: int)
    requires StraightAhead(toPoint, r.angleDeg)
    requires 1 <= k <= 6 && r.distanceMm == k * 1000
    ensures Admit(toPoint, FormatLine(r)) == Some(Point(k as real, 0.0))
  {
    assert toPoint(r.angleDeg, r.distanceMm) == Point(k as real, 0.0) by {
      MetresAhead(toPoint, r.angleDeg, k);
    }
    AdmitFormatted(toPoint, r);
  }

  /** The converter's image of `k` whole metres at that angle. */
  lemma MetresAhead(toPoint: Converter, a: int, k: int)
    requires StraightAhead(toPoint, a) && 1 <= k <= 6
    ensures toPoint(a, k * 1000) == Point(k as real, 0.0)
  {
  }

  /** The first `n` points straight ahead, 1 m apart. */
  function Ahead(n: nat): (w: seq<Point>)
    ensures |w| == n
  {
    seq(n, i => Point((i + 1) as real, 0.0))
  }

  lemma AheadSnoc(n: nat)
    ensures Ahead(n) + [Ahead(n + 1)[n]] == Ahead(n + 1)
  {
  }

  /** The per-axis median of `Ahead(n)` is the point at index `n / 2`. */
  lemma SmoothedAhead(n: nat)
    requires n > 0
    ensures Smoothed(Ahead(n)) == Point((n / 2 + 1) as real, 0.0)
  {
    var w := Ahead(n);
    assert Sorted(Xs(w));
    assert Sorted(Ys(w));
    MedianOfAnySort(Xs(w), Xs(w));
    MedianOfAnySort(Ys(w), Ys(w));
  }

  /** A frame of one admitted line, while the window still has room, appends the point
      to the window and the window's median to the display. */
  lemma OneLineFrame(toPoint: Converter, st: State, line: string, p: Point)
    requires |st.window| < FilterWindowSize
    requires Admit(toPoint, line) == Some(p)
    ensures Frame(toPoint, st, [line])
      == State(st.window + [p], Keep(st.display + [Smoothed(st.window + [p])], MaxDisplayPoints))
  {
    var w := st.window + [p];
    assert WindowAfter(toPoint, st, [line]) == w by {
      AcceptedSingle(toPoint, line, p);
    }
    assert Emitted(toPoint, st, [line]) == [Smoothed(w)] by {
      ContentSingle(toPoint, line);
    }
    FrameFrom(toPoint, st, [line], w, [Smoothed(w)]);
  }

  lemma OneLineFrameInto(toPoint: Converter, st: State, line: string, p: Point, w: seq<Point>, m: Point)
    requires |st.window| < FilterWindowSize && |st.display| < MaxDisplayPoints
    requires Admit(toPoint, line) == Some(p)
    requires w == st.window + [p] && Smoothed(w) == m
    ensures Frame(toPoint, st, [line]) == State(w, st.display + [m])
  {
    OneLineFrame(toPoint, st, line, p);
  }

  lemma AcceptedSingle(toPoint: Converter, line: string, p: Point)
    requires Admit(toPoint, line) == Some(p)
    ensures Accepted(toPoint, [line]) == [p]
  {
    assert [line][..0] == [];
  }

  lemma ContentSingle(toPoint: Converter, line: string)
    requires Admit(toPoint, line).Some?
    ensures HasContent([line])
  {
    BlankNotAdmittedContra(toPoint, line);
    assert [line][0] == line;
  }

  /** The line a sensor pointing at angle `a` prints for an obstacle at `i + 1` metres:
      for `a == 0`, `"0,1000"`, `"0,2000"`, and so on. */
  function LineAhead(a: int, i: int): string {
    FormatLine(Reading(a, (i + 1) * 1000))
  }

  /** The first `n` of those lines, in one stream. */
  function LinesAhead(a: int, n: nat): (lines: seq<string>)
    ensures |lines| == n
  {
    seq(n, i => LineAhead(a, i))
  }

  /** Line `i` of `lines` is admitted as the point `i + 1` metres ahead. */
  predicate ReportsAhead(toPoint: Converter, lines: seq<string>) {
    forall i :: 0 <= i < |lines| ==> AdmitAt(toPoint, lines, i) == Some(Point((i + 1) as real, 0.0))
  }

  /** What line `i` puts into the window; named so that facts about one line are not
      unfolded for every line. */
  function AdmitAt(toPoint: Converter, lines: seq<string>, i: int): Option<Point>
    requires 0 <= i < |lines|
  {
    Admit(toPoint, lines[i])
  }

  /** Each line in its own frame. */
  function OneLineFrames(lines: seq<string>): (frames: seq<seq<string>>)
    ensures |frames| == |lines|
  {
    seq(|lines|, i requires 0 <= i < |lines| => [lines[i]])
  }

  /** What the display holds after `n` one-line frames: frame `i` emits the median of the
      first `i + 1` points, `Ahead(i + 1)[(i + 1) / 2]`. */
  function DisplayAhead(n: nat): (d: seq<Point>)
    ensures |d| == n
  {
    seq(n, i => Point(((i + 1) / 2 + 1) as real, 0.0))
  }

  lemma DisplayAheadSnoc(n: nat)
    ensures DisplayAhead(n + 1) == DisplayAhead(n) + [Point(((n + 1) / 2 + 1) as real, 0.0)]
  {
    var d, e := DisplayAhead(n + 1), DisplayAhead(n);
    assert forall k :: 0 <= k < n ==> d[k] == e[k];
  }

  /** Up to six lines ahead (6 m is the gate's bound) are each admitted as their point. */
  lemma LinesAheadReport(toPoint: Converter, a: int, n: nat)
    requires StraightAhead(toPoint, a) && n <= 6
    ensures ReportsAhead(toPoint, LinesAhead(a, n))
  {
    forall i | 0 <= i < n
      ensures AdmitAt(toPoint, LinesAhead(a, n), i) == Some(Point((i + 1) as real, 0.0))
    {
      MetresAhead(toPoint, a, i + 1);
      LineAheadAdmitted(toPoint, a, n, i);
    }
  }

  lemma LineAheadAdmitted(toPoint: Converter, a: int, n: nat, i: int)
    requires AngleConvertible(a) && 0 <= i < n <= 6
    requires toPoint(a, (i + 1) * 1000) == Point((i + 1) as real, 0.0)
    ensures AdmitAt(toPoint, LinesAhead(a, n), i) == Some(Point((i + 1) as real, 0.0))
  {
    var r := Reading(a, (i + 1) * 1000);
    var p := Point((i + 1) as real, 0.0);
    assert Admit(toPoint, FormatLine(r)) == Some(p) by {
      AdmitFormatted(toPoint, r);
    }
    assert LinesAhead(a, n)[i] == FormatLine(r);
    AdmitAtLine(toPoint, LinesAhead(a, n), i, FormatLine(r), p);
  }

  lemma AdmitAtLine(toPoint: Converter, lines: seq<string>, i: int, line: string, p: Point)
    requires 0 <= i < |lines| && lines[i] == line && Admit(toPoint, line) == Some(p)
    ensures AdmitAt(toPoint, lines, i) == Some(p)
  {
  }

  /** Lines that report the points ahead are all admitted, in order. */
  lemma {:induction false} AcceptedAhead(toPoint: Converter, lines: seq<string>)
    requires ReportsAhead(toPoint, lines)
    ensures Accepted(toPoint, lines) == Ahead(|lines|)
    decreases |lines|
  {
    var n := |lines|;
    if n > 0 {
      var init := lines[..n - 1];
      var p := Ahead(n)[n - 1];
      assert Accepted(toPoint, init) == Ahead(n - 1) by {
        ReportsAheadInit(toPoint, lines);
        AcceptedAhead(toPoint, init);
      }
      assert Accepted(toPoint, lines) == Accepted(toPoint, init) + [p] by {
        assert AdmitAt(toPoint, lines, n - 1) == Some(p);
        AcceptedSnoc(toPoint, lines, p);
      }
      AheadSnoc(n - 1);
    }
  }

  /** Dropping the last line keeps the earlier lines' reports. */
  lemma ReportsAheadInit(toPoint: Converter, lines: seq<string>)
    requires ReportsAhead(toPoint, lines) && |lines| > 0
    ensures ReportsAhead(toPoint, lines[..|lines| - 1])
  {
    var init := lines[..|lines| - 1];
    assert forall i :: 0 <= i < |init| ==> AdmitAt(toPoint, init, i) == AdmitAt(toPoint, lines, i);
  }

  /** The facts about the points ahead that one more frame needs. */
  lemma AheadStep(n: nat)
    ensures Ahead(n) + [Point((n + 1) as real, 0.0)] == Ahead(n + 1)
    ensures Smoothed(Ahead(n + 1)) == Point(((n + 1) / 2 + 1) as real, 0.0)
    ensures DisplayAhead(n + 1) == DisplayAhead(n) + [Point(((n + 1) / 2 + 1) as real, 0.0)]
  {
    AheadSnoc(n);
    SmoothedAhead(n + 1);
    DisplayAheadSnoc(n);
  }

  /** Up to a full window of one-line frames: each frame emits the median of the points
      so far. */
  lemma {:induction false} RunAhead(toPoint: Converter, lines: seq<string>)
    requires ReportsAhead(toPoint, lines) && |lines| <= FilterWindowSize
    ensures Run(toPoint, Initial, OneLineFrames(lines)) == State(Ahead(|lines|), DisplayAhead(|lines|))
    decreases |lines|
  {
    var n := |lines|;
    if n > 0 {
      var init := lines[..n - 1];
      assert Run(toPoint, Initial, OneLineFrames(init)) == State(Ahead(n - 1), DisplayAhead(n - 1)) by {
        ReportsAheadInit(toPoint, lines);
        RunAhead(toPoint, init);
      }
      RunAheadStep(toPoint, lines);
    }
  }

  lemma RunAheadStep(toPoint: Converter, lines: seq<string>)
    requires ReportsAhead(toPoint, lines) && 0 < |lines| <= FilterWindowSize
    requires var n := |lines|;
      Run(toPoint, Initial, OneLineFrames(lines[..n - 1])) == State(Ahead(n - 1), DisplayAhead(n - 1))
    ensures Run(toPoint, Initial, OneLineFrames(lines)) == State(Ahead(|lines|), DisplayAhead(|lines|))
  {
    var n := |lines|;
    RunOneLineFramesLast(toPoint, lines);
    assert AdmitAt(toPoint, lines, n - 1) == Some(Point(n as real, 0.0));
    StepAheadInto(toPoint, Run(toPoint, Initial, OneLineFrames(lines[..n - 1])), lines[n - 1], n - 1,
      Run(toPoint, Initial, OneLineFrames(lines)));
  }

  /** One frame holding the next line ahead, while the window has room: the window grows
      by that point and the display gains the median of the window. */
  lemma StepAheadInto(toPoint: Converter, prev: State, line: string, n: nat, next: State)
    requires n < FilterWindowSize && Admit(toPoint, line) == Some(Point((n + 1) as real, 0.0))
    requires prev == State(Ahead(n), DisplayAhead(n))
    requires next == Frame(toPoint, prev, [line])
    ensures next == State(Ahead(n + 1), DisplayAhead(n + 1))
  {
    var p := Point((n + 1) as real, 0.0);
    var m := Point(((n + 1) / 2 + 1) as real, 0.0);
    assert Ahead(n) + [p] == Ahead(n + 1) && Smoothed(Ahead(n + 1)) == m
      && DisplayAhead(n) + [m] == DisplayAhead(n + 1) by {
      AheadStep(n);
    }
    OneLineFrameInto(toPoint, prev, line, p, Ahead(n + 1), m);
  }

  /** The last one-line frame runs on the state the earlier ones left. */
  lemma RunOneLineFramesLast(toPoint: Converter, lines: seq<string>)
    requires |lines| > 0
    ensures var n := |lines|;
      Run(toPoint, Initial, OneLineFrames(lines))
        == Frame(toPoint, Run(toPoint, Initial, OneLineFrames(lines[..n - 1])), [lines[n - 1]])
  {
    var n := |lines|;
    var frames := OneLineFrames(lines);
    assert frames[..n - 1] == OneLineFrames(lines[..n - 1]);
    assert frames[n - 1] == [lines[n - 1]];
  }

  lemma DisplayAheadFour()
    ensures DisplayAhead(4) == [Point(1.0, 0.0), Point(2.0, 0.0), Point(2.0, 0.0), Point(3.0, 0.0)]
  {
  }

  /** Obstacles at 1, 2, 3 and 4 m straight ahead, one line per frame: the display reads
      1, 2, 2, 3 m. */
  lemma OneLinePerFrame(toPoint: Converter, a: int)
    requires StraightAhead(toPoint, a)
    ensures Run(toPoint, Initial, OneLineFrames(LinesAhead(a, 4)))
      == State(Ahead(4), [Point(1.0, 0.0), Point(2.0, 0.0), Point(2.0, 0.0), Point(3.0, 0.0)])
  {
    LinesAheadReport(toPoint, a, 4);
    RunAhead(toPoint, LinesAhead(a, 4));
    DisplayAheadFour();
  }

  /** The same lines arriving together in one frame: the window takes them all, but the
      frame emits once, the median of the whole window. */
  lemma AllLinesOneFrame(toPoint: Converter, lines: seq<string>, n: nat)
    requires ReportsAhead(toPoint, lines) && |lines| == n && 0 < n <= FilterWindowSize
    ensures Frame(toPoint, Initial, lines) == State(Ahead(n), [Point((n / 2 + 1) as real, 0.0)])
  {
    var m := Point((n / 2 + 1) as real, 0.0);
    AllLinesParts(toPoint, lines, n, m);
    FrameInto(toPoint, Initial, lines, Ahead(n), [m], [m]);
  }

  /** The window, the emission and the display of that frame, worked out separately. */
  lemma AllLinesParts(toPoint: Converter, lines: seq<string>, n: nat, m: Point)
    requires ReportsAhead(toPoint, lines) && |lines| == n && 0 < n <= FilterWindowSize
    requires m == Point((n / 2 + 1) as real, 0.0)
    ensures WindowAfter(toPoint, Initial, lines) == Ahead(n) && Emitted(toPoint, Initial, lines) == [m]
    ensures Keep(Initial.display + [m], MaxDisplayPoints) == [m]
  {
    assert WindowAfter(toPoint, Initial, lines) == Ahead(n) && Emitted(toPoint, Initial, lines) == [m] by {
      EmittedAhead(toPoint, lines);
    }
    assert Initial.display + [m] == [m];
    KeepWithinBound([m], MaxDisplayPoints);
  }

  lemma WindowAhead(toPoint: Converter, lines: seq<string>)
    requires ReportsAhead(toPoint, lines) && |lines| <= FilterWindowSize
    ensures WindowAfter(toPoint, Initial, lines) == Ahead(|lines|)
  {
    var acc := Accepted(toPoint, lines);
    AcceptedAhead(toPoint, lines);
    assert Initial.window + acc == acc;
    KeepWithinBound(acc, FilterWindowSize);
  }

  lemma EmittedAhead(toPoint: Converter, lines: seq<string>)
    requires ReportsAhead(toPoint, lines) && 0 < |lines| <= FilterWindowSize
    ensures WindowAfter(toPoint, Initial, lines) == Ahead(|lines|)
    ensures Emitted(toPoint, Initial, lines) == [Point((|lines| / 2 + 1) as real, 0.0)]
  {
    var w := Ahead(|lines|);
    assert WindowAfter(toPoint, Initial, lines) == w by {
      WindowAhead(toPoint, lines);
    }
    assert Emitted(toPoint, Initial, lines) == [Smoothed(w)] by {
      ContentAhead(toPoint, lines);
      EmittedFrom(toPoint, Initial, lines, w);
    }
    SmoothedAhead(|lines|);
  }

  /** Lines that report points ahead are not blank. */
  lemma ContentAhead(toPoint: Converter, lines: seq<string>)
    requires ReportsAhead(toPoint, lines) && 0 < |lines|
    ensures HasContent(lines)
  {
    assert AdmitAt(toPoint, lines, 0).Some?;
    BlankNotAdmittedContra(toPoint, lines[0]);
  }

  /** `n` lines ahead in one frame: one emission, the middle of them (for the four lines
      at 1 to 4 m, the point at 3 m). */
  lemma LinesAheadOneFrame(toPoint: Converter, a: int, n: nat)
    requires StraightAhead(toPoint, a) && 0 < n <= FilterWindowSize
    ensures Frame(toPoint, Initial, LinesAhead(a, n)) == State(Ahead(n), [Point((n / 2 + 1) as real, 0.0)])
  {
    LinesAheadReport(toPoint, a, n);
    AllLinesOneFrame(toPoint, LinesAhead(a, n), n);
  }
}
