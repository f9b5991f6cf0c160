# Sonar map filter — a Dafny model of `update_plot`

The sonar visualiser reads lines such as `"90,1234"` from an Arduino over a serial port.
Each line holds a servo angle in degrees and a distance in millimetres. On every animation
frame, `update_plot` does the following:

- It drains the lines that are waiting. Lines that are blank after `strip()` are skipped.
- It splits each line on `,` and reads the two fields with `int()`. A line that cannot be
  read is dropped without a message.
- It keeps a reading only if `0 <= distance_mm <= 6000`. That reading becomes the point
  `(d·cos θ, d·sin θ)` in metres and is appended to a `deque(maxlen=5)` of raw points.
- If any non-blank line arrived in the frame and the window is not empty, it appends one
  smoothed point to the display history. That point is the per-axis median of the window:
  element `n // 2` of the sorted x values, and the same for y.
- It cuts the history back to its last 500 points.

The model describes one frame as a pure function, `Pipeline.Frame(toPoint, state, lines)`.
`state` holds the raw window and the display history. `lines` are the decoded lines
available in that frame. `Pipeline.UpdatePlot` is the same step written as the source
writes it: a drain loop, a sort of each axis, and the cut-back.

Trigonometry is not modelled. The polar-to-Cartesian conversion is a parameter `toPoint`,
and coordinates are `real`. Finite doubles are ordered as reals are, so sorting and the
median behave the same.

The model also covers one float effect that the gate does not: `math.radians(angle_deg)`
first turns the integer into a double. For a huge angle that raises `OverflowError`, and
the per-line `except Exception` swallows it. `Geometry.AngleConvertible` is the range in
which the conversion succeeds. A reading outside that range is dropped even when its
distance passes the gate (`Pipeline.AdmitUnconvertible`).

Modules follow the steps of the frame:

| module | step |
|---|---|
| `Text` | `strip()` and `split()` |
| `Decimal` | `int()` |
| `LineParser` | one line to a reading |
| `Gate` | the range check |
| `Geometry` | points and the converter |
| `Buffers` | the bounded deque and the cut-back list |
| `OrderStats` | sorting and the median as an order statistic |
| `MedianWindow` | the window and its smoothed point |
| `Pipeline` | one frame and a run of frames |
| `Scenarios` | worked runs for a sensor looking straight ahead |

Two behaviours are easy to miss:

- A smoothed point is emitted at most once per frame, after the drain loop
  (visualize_sonar.py:74-83), not once per accepted line.
- For an even window the median is the upper of the two middle values, because the index
  is `n // 2`.

`Pipeline.AtMostOneEmission` and `OrderStats.MedianOfTwo` state these two behaviours.

## Model

| member | source | states |
|---|---|---|
| Text.Strip | visualize_sonar.py:52 | `strip()` returns the slice of the line between its leading and trailing white space; the result neither starts nor ends with white space, and it is empty exactly when the line is all white space |
| Text.StripUnique | visualize_sonar.py:52 | any text padded only by white space, and neither starting nor ending with it, is what `strip()` returns |
| Text.StripPadded | visualize_sonar.py:52 | adding white space (such as a line ending) around a line does not change what `strip()` returns |
| Text.StripNoPadding | visualize_sonar.py:52 | `strip()` leaves unchanged a text with non-space characters at both ends |
| Text.Split | visualize_sonar.py:56 | `split(',')` gives one more field than there are commas; no field holds a comma, and joining the fields with commas gives back the line |
| Text.SplitJoin | visualize_sonar.py:56 | splitting undoes joining when no field holds the separator |
| Text.SplitTwo | visualize_sonar.py:56-57 | when the split yields exactly two parts, the line has a comma at the end of the first part, and the parts are the text before and after it |
| Text.SplitAt | visualize_sonar.py:56-57 | a line with exactly one comma splits into the text before it and the text after it |
| Decimal.ParseInt | visualize_sonar.py:58-59 | `int(field)` succeeds exactly when the field, trimmed of the white space `int()` skips, is an optional sign followed by at least one digit; a negative result comes from a leading `-` |
| Decimal.ParseIntToString | visualize_sonar.py:58-59 | `int(str(n)) == n` for every integer |
| Decimal.ParseIntPadded | visualize_sonar.py:58-59 | `int()` ignores the white space it skips around the number; the separators U+001C to U+001F are not among it |
| Decimal.ParseIntRejectsSeparator | visualize_sonar.py:58-59 | a separator character U+001C or U+001F next to the digits makes `int()` fail, though `strip()` would remove it |
| Decimal.ParseIntLeadingZeros | visualize_sonar.py:58-59 | leading zeros do not change the value: `int("00" + str(n)) == n` for every count of zeros |
| Decimal.ParseIntSignedZeros | visualize_sonar.py:58-59 | with a sign in front of the zeros, `+` gives `n` and `-` gives `-n` |
| Decimal.ParseIntRejects | visualize_sonar.py:58-59 | `"1.5"`, `"abc"` and a bare `"-"` make `int()` fail |
| Decimal.ParseIntSignedPadded | visualize_sonar.py:58-59 | `int(" -12\t")` is -12 |
| LineParser.ParseLine | visualize_sonar.py:52-59 | a line yields a reading only if it is non-blank once stripped and holds exactly one comma |
| LineParser.ParseLineExactly | visualize_sonar.py:52-59 | a line yields `Reading(a, d)` if and only if, once stripped, it holds a single comma with `int()`-readable `a` before it and `d` after it |
| LineParser.ParseFormatLine | visualize_sonar.py:52-59 | the line the firmware prints for a reading, with any white space around it, parses back to that reading |
| LineParser.ParseLineRejectsBlank | visualize_sonar.py:53-57 | the empty line and a line without a comma yield no reading |
| LineParser.ParseLineRejectsThreeFields | visualize_sonar.py:56-57 | `"1,2,3"` yields no reading: the line needs exactly two fields |
| LineParser.ParseLineRejectsFraction | visualize_sonar.py:58-59 | `"1.5,2"` yields no reading: the `ValueError` drops the whole line |
| LineParser.ParseLineRejectsSeparator | visualize_sonar.py:52-59 | `"0,\x1c1000"` yields no reading: `strip()` keeps the inner separator and `int()` then rejects the field |
| Gate.InRange | visualize_sonar.py:61 | a reading passes the gate exactly when `0 <= distance_mm <= 6000` |
| Gate.InRangeBounds | visualize_sonar.py:61 | the range check admits 0 and 6000 and rejects -1 and 6001; the angle plays no part in it |
| Geometry.AngleConvertible | visualize_sonar.py:63 | the angles `math.radians` can turn into a double: magnitude below 2^1024 - 2^970, beyond which the conversion raises `OverflowError` |
| Pipeline.Admit | visualize_sonar.py:56-68 | a point enters the window only for a parsed line whose distance lies in `[0, 6000]`, and it is the converter's image of that angle and distance |
| Pipeline.AdmitFormatted | visualize_sonar.py:56-68 | a printed reading with a convertible angle is admitted if and only if `0 <= distance <= 6000`, and then as `toPoint(angle, distance)` |
| Pipeline.BlankNotAdmitted | visualize_sonar.py:52-53 | a line that is blank once stripped adds no point |
| Pipeline.RejectedLineKeepsWindow | visualize_sonar.py:54-72 | a line that fails to parse or fails the range check leaves the window unchanged; it still sets the new-data flag if it is not blank |
| Buffers.DequeAppend | visualize_sonar.py:24 | appending to a `deque(maxlen)` keeps the last `maxlen` elements of the extended sequence |
| Buffers.DequeAppendFifo | visualize_sonar.py:24 | a full deque drops exactly its oldest element and keeps the rest in arrival order; a deque with room drops nothing |
| MedianWindow.Push | visualize_sonar.py:68 | the raw window never exceeds five points and is the last five of the points so far followed by the new one |
| Buffers.Keep | visualize_sonar.py:89-91 | cutting back to `n` keeps `min(len, n)` elements, and they are the list's suffix |
| Buffers.KeepKeep | visualize_sonar.py:89-91 | cutting back after every append gives the same list as one cut of the whole history |
| Buffers.KeepLatest | visualize_sonar.py:24 | once `n` or more elements have followed, only the last `n` of them are kept |
| OrderStats.Sort | visualize_sonar.py:78-79 | `sorted()` returns an ascending permutation of its input |
| OrderStats.SortedUnique | visualize_sonar.py:78-79 | two ascending permutations of the same values are equal, so the result does not depend on the sorting algorithm |
| OrderStats.Median | visualize_sonar.py:81-82 | the value at index `n // 2` occurs among the values; at most `n // 2` values lie below it and at most `n - n // 2 - 1` lie above it |
| OrderStats.MedianUnique | visualize_sonar.py:81-82 | a value is the median if and only if it meets both rank bounds |
| OrderStats.MedianOfAnySort | visualize_sonar.py:78-82 | whatever sorted arrangement of the values is indexed at `n // 2`, the result is the median |
| OrderStats.MedianOfThree | visualize_sonar.py:81 | the median of 1, 2 and 3, in any order, is 2 |
| OrderStats.MedianOfTwo | visualize_sonar.py:81 | the median of 1 and 2 is 2: the upper middle, not an average |
| MedianWindow.Smoothed | visualize_sonar.py:74-82 | each coordinate of the smoothed point is the same coordinate of some window point, and it obeys the median rank bounds on that axis |
| MedianWindow.SmoothedIsPerAxis | visualize_sonar.py:78-83 | because the axes are sorted separately, the smoothed point of (1,3), (2,1), (3,2) is (2,2), which is none of the window's points |
| Pipeline.AdmitUnconvertible | visualize_sonar.py:63-72 | a parsed reading whose angle overflows the conversion is dropped whatever its distance: the `OverflowError` ends the line before the append, and the handler swallows it |
| Pipeline.Absorb | visualize_sonar.py:51-72 | one pass of the drain loop keeps the window within five points |
| Pipeline.DrainLines | visualize_sonar.py:51-72 | the drain loop over any number of lines leaves the window within five points |
| Pipeline.DrainWindow | visualize_sonar.py:51-72 | after the drain loop, the window is the old window followed by exactly the admitted points, in arrival order, cut to the last five |
| Pipeline.DrainReceived | visualize_sonar.py:49-54 | the new-data flag ends up set if and only if some line was non-blank, including lines later dropped as malformed |
| Pipeline.Frame | visualize_sonar.py:46-91 | after a frame the window holds at most five points and the display at most 500 |
| Pipeline.FrameSpec | visualize_sonar.py:46-91 | a frame leaves the window as the old window fed with the admitted points, and the display as the old display followed by what was emitted, cut to the last 500 |
| Pipeline.WindowHoldsLatest | visualize_sonar.py:24-68 | once a frame admits five or more points, the window is exactly the last five of them, in order |
| Pipeline.AtMostOneEmission | visualize_sonar.py:74-83 | a frame emits at most one point, and it emits one if and only if some line was non-blank and the window is not empty |
| Pipeline.GarbageFrameRepeatsMedian | visualize_sonar.py:54-83 | a frame whose non-blank lines are all rejected keeps the window, yet appends the median of that unchanged window again |
| Pipeline.EmptyFrameIsNoOp | visualize_sonar.py:49-91 | a frame with no lines, or only blank ones, changes neither buffer |
| Pipeline.RunDisplay | visualize_sonar.py:83-91 | over any run of frames, the display is the last 500 of everything emitted, in order, and there is at most one emission per frame |
| Pipeline.RunWindow | visualize_sonar.py:24-68 | over any run of frames, the window is the last five points admitted from all lines, so frame boundaries do not matter to it |
| Pipeline.UpdatePlot | visualize_sonar.py:46-91 | the loop-and-sort procedure computes the same state as `Frame`: the fed window, and the display with its emission cut to 500 |
| Scenarios.AdmitsAhead | visualize_sonar.py:56-68 | for a sensor looking straight ahead, the line `"<a>,<k * 1000>"` for 1 to 6 m is admitted as the point `k` metres ahead; the source's conversion at angle 0 gives these points exactly |
| Scenarios.SmoothedAhead | visualize_sonar.py:74-82 | the smoothed point of the first `n` points ahead, 1 m apart, is the one at index `n // 2` |
| Scenarios.RunAhead | visualize_sonar.py:46-91 | while the window has room, one-line frames ahead each emit the median of all points so far |
| Scenarios.OneLinePerFrame | visualize_sonar.py:46-91 | obstacles at 1, 2, 3 and 4 m, one line per frame, leave the display at 1, 2, 2 and 3 m |
| Scenarios.LinesAheadOneFrame | visualize_sonar.py:46-91 | the same `n` lines arriving in one frame fill the window but emit only one point, the middle one |
| Scenarios.AllLinesOneFrame | visualize_sonar.py:74-83 | up to five lines reporting the points ahead, all in one frame, fill the window with every point and append a single point, the middle one |

## Left out

- Serial I/O is not modelled: opening the port, `in_waiting`, `readline()` and the UTF-8
  decoding with `errors='ignore'` (visualize_sonar.py:51-52). A frame is given the list of
  decoded lines that are available to it.
- Polar-to-Cartesian conversion in floating point (visualize_sonar.py:62-67) is a
  parameter of the model. Only the double overflow of `math.radians` is modelled, as
  `Geometry.AngleConvertible`.
- Drawing is not modelled: `setup_plot`, `scatter.set_offsets`, the periodic PNG save and
  its frame counter (visualize_sonar.py:27-44, 93-100). None of it affects the two buffers.
- The `serial.SerialException` handler closes the window (visualize_sonar.py:102-104), and
  the outer `except Exception` (visualize_sonar.py:105-106) follows it. Both are left out:
  in the model no step after the drain loop can raise.
- `int()` here accepts only ASCII digits after an optional sign. Underscore separators,
  non-ASCII decimal digits and the interpreter's limit on the number of digits are left
  out.
- `strip()` removes the white space of `str.isspace()`, as given in `Text.IsSpace`.
  `int()` skips a narrower set, `Text.IsIntSpace`, which leaves out the separators
  U+001C to U+001F; both sets are written out by code point rather than taken from
  the Unicode database.
- The start-up code and the animation driver (visualize_sonar.py:110-141) are not
  modelled.
- Pipeline.Frame: its own contract states only the bounds. The full behaviour is stated
  by `Pipeline.FrameSpec`.
