/** The header parse of a fiducial (.fcsv) file: the `#` lines become header
    entries with every "# " removed, the other lines are the data, and the
    column names come from the first entry that starts with "columns". */
module Fcsv {
  datatype Result<T> = Success(value: T) | Failure(error: string)

  /** `s.startswith(p)`. */
  predicate StartsWith(s: string, p: string) {
    |p| <= |s| && s[..|p|] == p
  }

  /** `s.replace(pat, "")`: occurrences of `pat` are removed scanning from the
      left, a removed occurrence never overlapping the next one. */
  function RemoveAll(s: string, pat: string): (r: string)
    requires |pat| > 0
    ensures |r| <= |s|
  {
    if |s| < |pat| then s
    else if s[..|pat|] == pat then RemoveAll(s[|pat|..], pat)
    else [s[0]] + RemoveAll(s[1..], pat)
  }

  /** `pat` occurs in `s` at position `i`. */
  predicate OccursAt(s: string, pat: string, i: int) {
    0 <= i && i + |pat| <= |s| && s[i..i + |pat|] == pat
  }

  /** Where `pat` does not occur, removing it changes nothing. */
  lemma {:induction false} RemoveAbsent(s: string, pat: string)
    requires |pat| > 0
    requires forall i :: !OccursAt(s, pat, i)
    ensures RemoveAll(s, pat) == s
  {
    if |s| >= |pat| {
      assert !OccursAt(s, pat, 0);
      forall i
        ensures !OccursAt(s[1..], pat, i)
      {
        if 0 <= i && i + |pat| <= |s[1..]| {
          assert s[1..][i..i + |pat|] == s[i + 1..i + 1 + |pat|];
          assert !OccursAt(s, pat, i + 1);
        }
      }
      RemoveAbsent(s[1..], pat);
      assert s == [s[0]] + s[1..];
    }
  }

  /** A string without the first character of `pat` holds no occurrence of it. */
  lemma RemoveWithoutFirstChar(s: string, pat: string)
    requires |pat| > 0 && pat[0] !in s
    ensures RemoveAll(s, pat) == s
  {
    forall i
      ensures !OccursAt(s, pat, i)
    {
      if 0 <= i && i + |pat| <= |s| {
        assert s[i..i + |pat|][0] == s[i];
      }
    }
    RemoveAbsent(s, pat);
  }

  /** The number of times `c` occurs in `s`. */
  function Count(s: string, c: char): nat {
    if |s| == 0 then 0 else (if s[0] == c then 1 else 0) + Count(s[1..], c)
  }

  /** `s.split(sep)` for a one-character separator: the pieces between separators,
      empty ones included. */
  function Split(s: string, sep: char): (r: seq<string>)
    ensures |r| > 0
  {
    if |s| == 0 then [""]
    else
      var rest := Split(s[1..], sep);
      if s[0] == sep then [""] + rest
      else [[s[0]] + rest[0]] + rest[1..]
  }

  /** `sep.join(pieces)`. */
  function Join(pieces: seq<string>, sep: char): string
    requires |pieces| > 0
  {
    if |pieces| == 1 then pieces[0] else pieces[0] + [sep] + Join(pieces[1..], sep)
  }

  /** Splitting gives one piece more than there are separators, no piece holds a
      separator, and joining the pieces gives back the string. */
  lemma {:induction false} SplitJoin(s: string, sep: char)
    ensures |Split(s, sep)| == Count(s, sep) + 1
    ensures forall k :: 0 <= k < |Split(s, sep)| ==> sep !in Split(s, sep)[k]
    ensures Join(Split(s, sep), sep) == s
  {
    if |s| > 0 {
      SplitJoin(s[1..], sep);
      var rest := Split(s[1..], sep);
      if s[0] == sep {
        assert s == [sep] + s[1..];
      } else {
        var pieces := Split(s, sep);
        assert pieces[1..] == rest[1..];
        if |rest| == 1 {
          assert s == [s[0]] + rest[0];
        } else {
          assert s == [s[0]] + rest[0] + [sep] + Join(rest[1..], sep);
        }
      }
    }
  }

  /** The lines that start with `#` (when `hash`) or that do not (otherwise), in
      file order. */
  function Filter(lines: seq<string>, hash: bool): (r: seq<string>)
    ensures |r| <= |lines|
  {
    if |lines| == 0 then []
    else (if StartsWith(lines[0], "#") == hash then [lines[0]] else []) + Filter(lines[1..], hash)
  }

  /** Each line lands in exactly one of the two groups. */
  lemma {:induction false} FilterPartition(lines: seq<string>)
    ensures |Filter(lines, true)| + |Filter(lines, false)| == |lines|
    ensures forall l :: l in Filter(lines, true) <==> l in lines && StartsWith(l, "#")
    ensures forall l :: l in Filter(lines, false) <==> l in lines && !StartsWith(l, "#")
  {
    if |lines| > 0 {
      FilterPartition(lines[1..]);
      assert lines == [lines[0]] + lines[1..];
    }
  }

  /** Filtering keeps file order: it distributes over concatenation. */
  lemma {:induction false} FilterAppend(a: seq<string>, b: seq<string>, hash: bool)
    ensures Filter(a + b, hash) == Filter(a, hash) + Filter(b, hash)
  {
    if |a| > 0 {
      FilterAppend(a[1..], b, hash);
      var head := if StartsWith(a[0], "#") == hash then [a[0]] else [];
      assert (a + b)[0] == a[0] && (a + b)[1..] == a[1..] + b;
      assert Filter(a + b, hash) == head + Filter(a[1..] + b, hash);
    } else {
      assert a + b == b;
    }
  }

  /** The parsed header: the entries, the data lines and the column names. */
  datatype Parsed = Parsed(entries: seq<string>, content: seq<string>, columns: seq<string>)

  /** The header entries: the `#` lines with every "# " removed. */
  function Entries(lines: seq<string>): (r: seq<string>) {
    var headers := Filter(lines, true);
    seq(|headers|, i requires 0 <= i < |headers| => RemoveAll(headers[i], "# "))
  }

  /** The position of the first entry that starts with "columns", if any. */
  function FirstColumnsEntry(entries: seq<string>): (r: int)
    ensures -1 <= r < |entries|
    ensures r >= 0 ==> StartsWith(entries[r], "columns")
    ensures forall i :: 0 <= i < |entries| && (r < 0 || i < r) ==> !StartsWith(entries[i], "columns")
  {
    if |entries| == 0 then -1
    else if StartsWith(entries[0], "columns") then 0
    else
      var k := FirstColumnsEntry(entries[1..]);
      if k < 0 then -1 else k + 1
  }

  /** parse_fcsv on the file's lines. Without a "columns" entry the lookup of the
      first such entry fails, and so does the parse. */
  function ParseFcsv(lines: seq<string>): Result<Parsed> {
    var entries := Entries(lines);
    var k := FirstColumnsEntry(entries);
    if k < 0 then Failure("no columns entry")
    else Success(Parsed(entries, Filter(lines, false), Split(RemoveAll(entries[k], "columns = "), ',')))
  }

  /** The parse succeeds exactly when some entry starts with "columns"; the
      columns then are the comma-separated fields of the first such entry with
      "columns = " removed, one more than its commas. */
  lemma ParseMeaning(lines: seq<string>)
    ensures ParseFcsv(lines).Success? <==> exists i :: 0 <= i < |Entries(lines)| && StartsWith(Entries(lines)[i], "columns")
    ensures ParseFcsv(lines).Success? ==>
      var p := ParseFcsv(lines).value;
      var line := RemoveAll(Entries(lines)[FirstColumnsEntry(Entries(lines))], "columns = ");
      p.entries == Entries(lines) && p.content == Filter(lines, false)
      && |p.columns| == Count(line, ',') + 1 && Join(p.columns, ',') == line
  {
    var entries := Entries(lines);
    var k := FirstColumnsEntry(entries);
    if k >= 0 {
      SplitJoin(RemoveAll(entries[k], "columns = "), ',');
    }
  }

  /** A `#` line whose second character is not a space keeps its `#` at the
      front, so it is never taken as the "columns" entry. */
  lemma HashWithoutSpaceKept(s: string)
    requires |s| >= 2 && s[0] == '#' && s[1] != ' '
    ensures StartsWith(RemoveAll(s, "# "), "#")
    ensures !StartsWith(RemoveAll(s, "# "), "columns")
  {
    assert s[..2] != "# ";
  }

  /** A "# " anywhere in a line goes, not only a leading one: after a stretch
      without `#`, the marker is removed and the rest is scanned the same way. */
  lemma {:induction false} MarkerAfterPlainPrefixRemoved(a: string, b: string)
    requires '#' !in a
    ensures RemoveAll(a + "# " + b, "# ") == a + RemoveAll(b, "# ")
  {
    if |a| == 0 {
      assert a + "# " + b == "# " + b;
      assert ("# " + b)[..2] == "# " && ("# " + b)[2..] == b;
    } else {
      var s := a + "# " + b;
      assert s[0] == a[0] && a[0] != '#';
      assert s[..2] != "# ";
      assert s[1..] == a[1..] + "# " + b;
      MarkerAfterPlainPrefixRemoved(a[1..], b);
      assert a == [a[0]] + a[1..];
    }
  }

  /** Both markers of a line go. */
  lemma EveryMarkerRemoved()
    ensures RemoveAll("# a # b", "# ") == "a b"
  {
  }

  /** A header line written "# columns = ..." with no other `#` becomes an entry
      that starts with "columns". */
  lemma ColumnsHeaderRecognised(rest: string)
    requires '#' !in rest
    ensures RemoveAll("# columns = " + rest, "# ") == "columns = " + rest
    ensures StartsWith(RemoveAll("# columns = " + rest, "# "), "columns")
  {
    var s := "# columns = " + rest;
    assert s[..2] == "# ";
    assert s[2..] == "columns = " + rest;
    RemoveWithoutFirstChar("columns = " + rest, "# ");
    assert ("columns = " + rest)[..7] == "columns";
  }
}
