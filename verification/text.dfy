/** Python's `str.strip()`, the white-space trim inside `int()`, and `str.split(sep)`
    on decoded text lines. */
module Text {

  /** The characters Python's `str.isspace()` treats as white space: the ASCII controls
      TAB..CR, the separators U+001C..U+001F, SPACE, and the Unicode space and
      line/paragraph separators. */
  predicate IsSpace(c: char) {
    || ('\t' <= c <= '\r')
    || ('\U{1C}' <= c <= '\U{1F}')
    || c == ' '
    || c == '\U{85}'
    || c == '\U{A0}'
    || c == '\U{1680}'
    || ('\U{2000}' <= c <= '\U{200A}')
    || c == '\U{2028}'
    || c == '\U{2029}'
    || c == '\U{202F}'
    || c == '\U{205F}'
    || c == '\U{3000}'
  }

  /** The white space `int()` skips around a number. It first maps each non-ASCII
      white-space character to a space and then skips only the ASCII white space
      TAB..CR and SPACE, so the four ASCII separators U+001C..U+001F, which
      `str.isspace()` accepts, stop it. */
  predicate IsIntSpace(c: char) {
    IsSpace(c) && !('\U{1C}' <= c <= '\U{1F}')
  }

  predicate AllSpace(s: string, blank: char -> bool) {
    SpaceBetween(s, 0, |s|, blank)
  }

  /** Every character of `s` at an index in `[lo, hi)` is white space. */
  predicate SpaceBetween(s: string, lo: int, hi: int, blank: char -> bool)
    requires 0 <= lo && hi <= |s|
  {
    forall k :: lo <= k < hi ==> blank(s[k])
  }

  /** The number of white-space characters `s` starts with. */
  function LeadingSpaces(s: string, blank: char -> bool): (n: nat)
    ensures n <= |s| && SpaceBetween(s, 0, n, blank)
    ensures n < |s| ==> !blank(s[n])
    decreases |s|
  {
    if |s| > 0 && blank(s[0]) then 1 + LeadingSpaces(s[1..], blank) else 0
  }

  /** The number of white-space characters `s` ends with. */
  function TrailingSpaces(s: string, blank: char -> bool): (n: nat)
    ensures n <= |s| && SpaceBetween(s, |s| - n, |s|, blank)
    ensures n < |s| ==> !blank(s[|s| - n - 1])
    decreases |s|
  {
    if |s| > 0 && blank(s[|s| - 1]) then 1 + TrailingSpaces(s[..|s| - 1], blank) else 0
  }

  /** What is left of `s` between its leading and its trailing white space, as `blank`
      tells white space apart: `s.strip()` for `IsSpace`, the text `int()` reads for
      `IsIntSpace`. It is empty exactly when `s` is all white space. */
  function Strip(s: string, blank: char -> bool): (r: string)
    ensures LeadingSpaces(s, blank) + |r| <= |s| && r == s[LeadingSpaces(s, blank)..LeadingSpaces(s, blank) + |r|]
    ensures SpaceBetween(s, LeadingSpaces(s, blank) + |r|, |s|, blank)
    ensures |r| > 0 ==> !blank(r[0]) && !blank(r[|r| - 1])
    ensures |r| == 0 <==> AllSpace(s, blank)
  {
    var i := LeadingSpaces(s, blank);
    var n := TrailingSpaces(s[i..], blank);
    assert forall k :: |s| - n <= k < |s| ==> s[k] == s[i..][k - i];
    s[i..|s| - n]
  }

  /** Trimming returns exactly the text between all-space padding, whenever that text
      neither begins nor ends with white space. */
  lemma StripUnique(t: string, i: int, j: int, blank: char -> bool)
    requires 0 <= i <= j <= |t|
    requires SpaceBetween(t, 0, i, blank) && SpaceBetween(t, j, |t|, blank)
    requires i < j ==> !blank(t[i]) && !blank(t[j - 1])
    ensures Strip(t, blank) == t[i..j]
  {
    if i < j {
      LeadingSpacesAt(t, i, blank);
      var u := t[i..];
      assert SpaceBetween(u, j - i, |u|, blank) && !blank(u[j - i - 1]) by {
        assert forall k :: 0 <= k < |u| ==> u[k] == t[k + i];
      }
      TrailingSpacesAt(u, j - i, blank);
    } else {
      assert AllSpace(t, blank);
    }
  }

  /** White space up to index `i` and none at `i`: `s` starts with `i` white-space
      characters. */
  lemma {:induction false} LeadingSpacesAt(s: string, i: int, blank: char -> bool)
    requires 0 <= i < |s| && SpaceBetween(s, 0, i, blank) && !blank(s[i])
    ensures LeadingSpaces(s, blank) == i
    decreases i
  {
    if i > 0 {
      assert forall k :: 0 <= k < i - 1 ==> s[1..][k] == s[k + 1];
      LeadingSpacesAt(s[1..], i - 1, blank);
    }
  }

  /** White space from index `j` on and none just before it: `s` ends with `|s| - j`
      white-space characters. */
  lemma {:induction false} TrailingSpacesAt(s: string, j: int, blank: char -> bool)
    requires 0 < j <= |s| && SpaceBetween(s, j, |s|, blank) && !blank(s[j - 1])
    ensures TrailingSpaces(s, blank) == |s| - j
    decreases |s| - j
  {
    if j < |s| {
      var p := s[..|s| - 1];
      assert forall k :: 0 <= k < |p| ==> p[k] == s[k];
      TrailingSpacesAt(p, j, blank);
    }
  }

  /** Trimming text that already begins and ends with non-space characters changes
      nothing. */
  lemma StripNoPadding(s: string, blank: char -> bool)
    requires |s| > 0 && !blank(s[0]) && !blank(s[|s| - 1])
    ensures Strip(s, blank) == s
  {
    StripUnique(s, 0, |s|, blank);
  }

  /** Surrounding a text with white space does not change what a trim returns. */
  lemma StripPadded(pre: string, s: string, post: string, blank: char -> bool)
    requires AllSpace(pre, blank) && AllSpace(post, blank)
    ensures Strip(pre + s + post, blank) == Strip(s, blank)
  {
    var r := Strip(s, blank);
    var i := LeadingSpaces(s, blank);
    StripBetweenPadding(pre, s, post, i, i + |r|, blank);
  }

  lemma StripBetweenPadding(pre: string, s: string, post: string, i: int, j: int, blank: char -> bool)
    requires 0 <= i <= j <= |s|
    requires AllSpace(pre, blank) && AllSpace(post, blank)
    requires SpaceBetween(s, 0, i, blank) && SpaceBetween(s, j, |s|, blank)
    requires i < j ==> !blank(s[i]) && !blank(s[j - 1])
    ensures Strip(pre + s + post, blank) == s[i..j]
  {
    var t := pre + s + post;
    PaddingAround(pre, s, post, i, j, blank);
    StripUnique(t, |pre| + i, |pre| + j, blank);
  }

  lemma PaddingAround(pre: string, s: string, post: string, i: int, j: int, blank: char -> bool)
    requires 0 <= i <= j <= |s|
    requires AllSpace(pre, blank) && AllSpace(post, blank)
    requires SpaceBetween(s, 0, i, blank) && SpaceBetween(s, j, |s|, blank)
    ensures var t := pre + s + post;
      && SpaceBetween(t, 0, |pre| + i, blank)
      && SpaceBetween(t, |pre| + j, |t|, blank)
      && t[|pre| + i..|pre| + j] == s[i..j]
      && forall k :: i <= k < j ==> t[|pre| + k] == s[k]
  {
    var t := pre + s + post;
    assert forall k :: 0 <= k < |s| ==> t[|pre| + k] == s[k];
    assert forall k :: 0 <= k < |pre| ==> t[k] == pre[k];
    assert forall k :: |pre| + |s| <= k < |t| ==> t[k] == post[k - |pre| - |s|];
  }

  /** `s.split(sep)`: the fields between the occurrences of `sep`, one more field than
      there are separators; no field holds the separator. */
  function Split(s: string, sep: char): (fields: seq<string>)
    ensures |fields| == Occurrences(s, sep) + 1
    ensures forall f :: f in fields ==> sep !in f
    ensures Join(fields, sep) == s
    decreases |s|
  {
    if |s| == 0 then [""]
    else
      var rest := Split(s[1..], sep);
      if s[0] == sep then
        assert s == [sep] + s[1..];
        [""] + rest
      else
        ConsField(s[0], rest, sep);
        assert s == [s[0]] + s[1..];
        [[s[0]] + rest[0]] + rest[1..]
  }

  /** Putting a non-separator character in front of the text puts it in front of the
      first field. */
  lemma ConsField(c: char, rest: seq<string>, sep: char)
    requires c != sep && |rest| > 0
    requires forall f :: f in rest ==> sep !in f
    ensures var fields := [[c] + rest[0]] + rest[1..];
      && |fields| == |rest|
      && (forall f :: f in fields ==> sep !in f)
      && Join(fields, sep) == [c] + Join(rest, sep)
  {
    var fields := [[c] + rest[0]] + rest[1..];
    assert fields[1..] == rest[1..];
    assert rest[0] in rest;
    forall f | f in fields
      ensures sep !in f
    {
      if f != fields[0] {
        assert f in rest[1..];
      }
    }
    if |rest| > 1 {
      assert [c] + rest[0] + [sep] + Join(rest[1..], sep) == [c] + (rest[0] + [sep] + Join(rest[1..], sep));
    }
  }

  /** `sep.join(fields)`. */
  function Join(fields: seq<string>, sep: char): string
    requires |fields| > 0
    decreases |fields|
  {
    if |fields| == 1 then fields[0] else fields[0] + [sep] + Join(fields[1..], sep)
  }

  function Occurrences(s: string, c: char): nat
    decreases |s|
  {
    if |s| == 0 then 0 else (if s[0] == c then 1 else 0) + Occurrences(s[1..], c)
  }

  /** Splitting undoes joining, when no field holds the separator. */
  lemma {:induction false} SplitJoin(fields: seq<string>, sep: char)
    requires |fields| > 0
    requires forall f :: f in fields ==> sep !in f
    ensures Split(Join(fields, sep), sep) == fields
    decreases |fields|
  {
    if |fields| > 1 {
      SplitJoin(fields[1..], sep);
      assert fields[0] + [sep] + Join(fields[1..], sep) == fields[0] + ([sep] + Join(fields[1..], sep));
      SplitField(fields[0], Join(fields[1..], sep), sep);
      assert fields == [fields[0]] + fields[1..];
    }
    else {
      SplitNoSeparator(fields[0], sep);
    }
  }

  lemma {:induction false} SplitNoSeparator(s: string, sep: char)
    requires sep !in s
    ensures Split(s, sep) == [s]
    decreases |s|
  {
    if |s| > 0 {
      SplitNoSeparator(s[1..], sep);
      assert s == [s[0]] + s[1..];
    }
  }

  lemma {:induction false} SplitField(field: string, rest: string, sep: char)
    requires sep !in field
    ensures Split(field + ([sep] + rest), sep) == [field] + Split(rest, sep)
    decreases |field|
  {
    var s := field + ([sep] + rest);
    if |field| == 0 {
      assert s == [sep] + rest;
      assert s[1..] == rest;
    } else {
      assert s[1..] == field[1..] + ([sep] + rest);
      SplitField(field[1..], rest, sep);
      assert field == [field[0]] + field[1..];
    }
  }

  /** A text splits into exactly two fields when it holds the separator exactly once:
      the fields are what lies before and after it. */
  lemma SplitTwo(t: string, sep: char)
    requires |Split(t, sep)| == 2
    ensures var i := |Split(t, sep)[0]|;
      && i < |t| && t[i] == sep && t[..i] == Split(t, sep)[0] && t[i + 1..] == Split(t, sep)[1]
  {
    var parts := Split(t, sep);
    assert Join(parts[1..], sep) == parts[1];
    assert t == parts[0] + [sep] + parts[1];
  }

  lemma SplitAt(t: string, sep: char, i: int)
    requires 0 <= i < |t| && t[i] == sep
    requires sep !in t[..i] && sep !in t[i + 1..]
    ensures Split(t, sep) == [t[..i], t[i + 1..]]
  {
    var fields := [t[..i], t[i + 1..]];
    assert t == t[..i] + [sep] + t[i + 1..];
    assert Join(fields, sep) == t;
    SplitJoin(fields, sep);
  }
}
