/** One serial line `"<angle>,<distance>"` turned into a reading, or rejected. */
module LineParser {
  import opened Wrappers
  import opened Text
  import opened Decimal

  /** One sensor report: an angle in whole degrees and a distance in millimetres. */
  datatype Reading = Reading(angleDeg: int, distanceMm: int)

  /** Strips the line, splits it on `,`, demands exactly two fields and converts both
      with `int()`; `None` stands for a blank line or the swallowed `ValueError`. */
  function ParseLine(line: string): (r: Option<Reading>)
    ensures r.Some? ==> |Strip(line, IsSpace)| > 0 && Occurrences(Strip(line, IsSpace), ',') == 1
  {
    ParseFields(Strip(line, IsSpace))
  }

  /** The split-and-convert step on an already stripped line. */
  function ParseFields(t: string): (r: Option<Reading>)
    ensures r.Some? ==> |t| > 0 && Occurrences(t, ',') == 1
  {
    var parts := Split(t, ',');
    if |parts| == 2 then
      match (ParseInt(parts[0]), ParseInt(parts[1]))
      case (Some(a), Some(d)) => Some(Reading(a, d))
      case _ => None
    else
      None
  }

  /** The stripped line `t` has its only comma at index `i`, and the text before and after
      it reads as the integers `a` and `d`. */
  predicate FieldsAt(t: string, i: int, a: int, d: int) {
    && 0 <= i < |t|
    && t[i] == ','
    && ',' !in t[..i]
    && ',' !in t[i + 1..]
    && ParseInt(t[..i]) == Some(a)
    && ParseInt(t[i + 1..]) == Some(d)
  }

  /** A line yields `Reading(a, d)` exactly when, once stripped, it holds a single comma
      with `a` before it and `d` after it, each acceptable to `int()`. */
  lemma ParseLineExactly(line: string, a: int, d: int)
    ensures ParseLine(line) == Some(Reading(a, d)) <==> exists i :: FieldsAt(Strip(line, IsSpace), i, a, d)
  {
    ParseFieldsExactly(Strip(line, IsSpace), a, d);
  }

  lemma ParseFieldsExactly(t: string, a: int, d: int)
    ensures ParseFields(t) == Some(Reading(a, d)) <==> exists i :: FieldsAt(t, i, a, d)
  {
    var parts := Split(t, ',');
    if ParseFields(t) == Some(Reading(a, d)) {
      SplitTwo(t, ',');
      assert parts[0] in parts && parts[1] in parts;
      assert FieldsAt(t, |parts[0]|, a, d);
    }
    if i :| FieldsAt(t, i, a, d) {
      SplitAt(t, ',', i);
    }
  }

  /** The line the sensor firmware prints for a reading. */
  function FormatLine(r: Reading): string {
    IntToString(r.angleDeg) + "," + IntToString(r.distanceMm)
  }

  /** Parsing a printed reading gives it back, whatever white space (a line ending, say)
      surrounds the line. */
  lemma ParseFormatLine(r: Reading, pre: string, post: string)
    requires AllSpace(pre, IsSpace) && AllSpace(post, IsSpace)
    ensures ParseLine(pre + FormatLine(r) + post) == Some(r)
  {
    var t := FormatLine(r);
    assert Strip(pre + t + post, IsSpace) == t by {
      StripPadded(pre, t, post, IsSpace);
      StripNoPadding(t, IsSpace);
    }
    FormatLineFields(r);
    ParseLineExactly(pre + t + post, r.angleDeg, r.distanceMm);
  }

  lemma FormatLineFields(r: Reading)
    ensures FieldsAt(FormatLine(r), |IntToString(r.angleDeg)|, r.angleDeg, r.distanceMm)
  {
    var a := IntToString(r.angleDeg);
    var d := IntToString(r.distanceMm);
    var t := FormatLine(r);
    assert t[..|a|] == a;
    assert t[|a| + 1..] == d;
    ParseIntToString(r.angleDeg);
    ParseIntToString(r.distanceMm);
    assert forall k :: 0 <= k < |a| ==> a[k] != ',';
    assert forall k :: 0 <= k < |d| ==> d[k] != ',';
  }

  /** Blank lines and lines without a comma are rejected. */
  lemma ParseLineRejectsBlank()
    ensures ParseLine("") == None
    ensures ParseLine("abc") == None
  {
    StripNoPadding("abc", IsSpace);
  }

  /** Three fields are one too many. */
  lemma ParseLineRejectsThreeFields()
    ensures ParseLine("1,2,3") == None
  {
    StripNoPadding("1,2,3", IsSpace);
    SplitLiteral("1,2,3", ["1", "2", "3"]);
  }

  /** A field that is not an integer spoils the whole line. */
  lemma ParseLineRejectsFraction()
    ensures ParseLine("1.5,2") == None
  {
    StripNoPadding("1.5,2", IsSpace);
    SplitLiteral("1.5,2", ["1.5", "2"]);
    ParseIntRejects();
  }

  lemma SplitLiteral(t: string, fields: seq<string>)
    requires |fields| > 0 && t == Join(fields, ',')
    requires forall f :: f in fields ==> ',' !in f
    ensures Split(t, ',') == fields
  {
    SplitJoin(fields, ',');
  }

  /** A field that `strip()` would trim but `int()` does not: the information separator
      U+001C inside the line survives the strip of the whole line, and then spoils the
      distance field. The line is a parameter fixed by the precondition rather than a
      literal in the ensures, so that the verifier does not unfold the parse on the
      literal. */
  lemma ParseLineRejectsSeparator(line: string)
    requires line == "0,\U{1C}1000"
    ensures ParseLine(line) == None
  {
    var distance := line[2..];
    assert ParseInt(distance) == None by {
      assert distance[0] == '\U{1C}';
      StripNoPadding(distance, IsIntSpace);
    }
    assert Strip(line, IsSpace) == line by {
      StripNoPadding(line, IsSpace);
    }
    assert Split(line, ',') == [line[..1], distance] by {
      SplitAt(line, ',', 1);
    }
    RejectsBadField(line, line[..1], distance);
  }

  /** Two fields, one of which `int()` rejects, make no reading. */
  lemma RejectsBadField(t: string, first: string, second: string)
    requires Split(t, ',') == [first, second]
    requires ParseInt(first) == None || ParseInt(second) == None
    ensures ParseFields(t) == None
  {
  }
}
