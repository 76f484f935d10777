/**
 The text-level part of loading a process file: each line is stripped of
 surrounding whitespace and split at commas, and only lines with exactly three
 fields are kept; the others are skipped without stopping the load. Turning the
 duration and arrival fields into integers is not part of this model.
 */
module Loader {
  import opened Processes

  /** The characters Python's `str.isspace()` accepts, which are the ones
      `str.strip()` removes: the ASCII controls TAB to CR and FS to US, SPACE,
      NEL, NO-BREAK SPACE and the Unicode space and line/paragraph separators. */
  predicate IsSpace(c: char) {
    || ('\t' <= c <= '\r')
    || ('\U{1C}' <= c <= ' ')
    || c == '\U{85}' || c == '\U{A0}' || c == '\U{1680}'
    || ('\U{2000}' <= c <= '\U{200A}')
    || c == '\U{2028}' || c == '\U{2029}' || c == '\U{202F}' || c == '\U{205F}'
    || c == '\U{3000}'
  }

  /** How many whitespace characters `s` starts with. */
  function LeadingSpace(s: string): (i: nat)
    ensures i <= |s|
    ensures forall k :: 0 <= k < i ==> IsSpace(s[k])
    ensures i < |s| ==> !IsSpace(s[i])
  {
    if s != [] && IsSpace(s[0]) then 1 + LeadingSpace(s[1..]) else 0
  }

  /** Where the whitespace that `s` ends with begins, looking no further left
      than `lo`. */
  function TrailingSpace(s: string, lo: nat): (j: nat)
    requires lo <= |s|
    ensures lo <= j <= |s|
    ensures forall k :: j <= k < |s| ==> IsSpace(s[k])
    ensures lo < j ==> !IsSpace(s[j - 1])
    decreases |s|
  {
    if lo < |s| && IsSpace(s[|s| - 1]) then TrailingSpace(s[..|s| - 1], lo) else |s|
  }

  /** `str.strip()`: drops whitespace, and only whitespace, from both ends, so
      that what is left neither starts nor ends with it. */
  function Strip(s: string): (r: string)
    ensures exists i, j :: (0 <= i <= j <= |s| && r == s[i..j]
      && (forall k :: 0 <= k < i ==> IsSpace(s[k]))
      && (forall k :: j <= k < |s| ==> IsSpace(s[k])))
    ensures r != [] ==> !IsSpace(r[0]) && !IsSpace(r[|r| - 1])
  {
    var i := LeadingSpace(s);
    var j := TrailingSpace(s, i);
    s[i..j]
  }

  /** A line padded with an information separator and a no-break space keeps
      only its three fields. */
  lemma StripExample()
    ensures Strip("\U{1C}A,5,0\U{A0}") == "A,5,0"
    ensures ParseLine("\U{1C}A,5,0\U{A0}") == Some(Fields("A", "5", "0"))
  {
    var s := "\U{1C}A,5,0\U{A0}";
    StripPadded();
    SplitExample();
    var parts := Split(Strip(s), ',');
    assert |parts| == 3 && parts[0] == "A" && parts[1] == "5" && parts[2] == "0";
  }

  lemma StripPadded()
    ensures Strip("\U{1C}A,5,0\U{A0}") == "A,5,0"
  {
    var s := "\U{1C}A,5,0\U{A0}";
    assert LeadingSpace(s[1..]) == 0;
    assert LeadingSpace(s) == 1;
    assert s[..|s| - 1] == "\U{1C}A,5,0";
    assert TrailingSpace(s[..|s| - 1], 1) == |s| - 1;
    assert TrailingSpace(s, 1) == |s| - 1;
  }

  lemma SplitExample()
    ensures Split("A,5,0", ',') == ["A", "5", "0"]
  {
    assert Split("", ',') == [""];
    SplitCons('0', "", ',');
    assert ['0'] + "" == "0";
    assert Split("0", ',') == ["0"];
    SplitCons(',', "0", ',');
    assert [','] + "0" == ",0";
    assert Split(",0", ',') == ["", "0"];
    SplitCons('5', ",0", ',');
    assert ['5'] + ",0" == "5,0" && ['5'] + "" == "5";
    assert Split("5,0", ',') == ["5", "0"];
    SplitCons(',', "5,0", ',');
    assert [','] + "5,0" == ",5,0";
    assert Split(",5,0", ',') == ["", "5", "0"];
    SplitCons('A', ",5,0", ',');
    assert ['A'] + ",5,0" == "A,5,0" && ['A'] + "" == "A";
  }

  /** `str.split(sep)`: the pieces of `s` between separators, always at least one. */
  function Split(s: string, sep: char): (fields: seq<string>)
    ensures |fields| >= 1
    ensures forall f :: f in fields ==> sep !in f
  {
    if s == [] then [[]]
    else
      var rest := Split(s[1..], sep);
      if s[0] == sep then [[]] + rest
      else
        assert forall f :: f in rest[1..] ==> f in rest;
        [[s[0]] + rest[0]] + rest[1..]
  }

  /** `sep.join(fields)`. */
  function Join(fields: seq<string>, sep: char): string
    requires |fields| >= 1
  {
    if |fields| == 1 then fields[0] else fields[0] + [sep] + Join(fields[1..], sep)
  }

  /** Splitting and joining back gives the line unchanged. */
  lemma {:induction false} JoinSplit(s: string, sep: char)
    ensures Join(Split(s, sep), sep) == s
  {
    if s != [] {
      var rest := Split(s[1..], sep);
      JoinSplit(s[1..], sep);
      if s[0] != sep {
        var fields := Split(s, sep);
        if |rest| == 1 {
          assert fields == [[s[0]] + rest[0]];
        } else {
          assert fields[1..] == rest[1..];
          assert Join(rest, sep) == rest[0] + [sep] + Join(rest[1..], sep);
        }
        assert s == [s[0]] + s[1..];
      } else {
        assert Split(s, sep)[1..] == rest;
        assert s == [sep] + s[1..];
      }
    }
  }

  /** Splitting a line one character longer than `t`. */
  lemma SplitCons(c: char, t: string, sep: char)
    ensures Split([c] + t, sep)
         == if c == sep then [[]] + Split(t, sep)
            else [[c] + Split(t, sep)[0]] + Split(t, sep)[1..]
  {
    assert ([c] + t)[0] == c;
    assert ([c] + t)[1..] == t;
  }

  /** Joining fields whose first field is non-empty starts with that field's
      first character. */
  lemma JoinCons(fields: seq<string>, sep: char)
    requires |fields| >= 1 && fields[0] != []
    ensures Join(fields, sep) == [fields[0][0]] + Join([fields[0][1..]] + fields[1..], sep)
  {
    var f := fields[0];
    var shorter := [f[1..]] + fields[1..];
    assert f == [f[0]] + f[1..];
    if |fields| > 1 {
      assert shorter[1..] == fields[1..];
    }
  }

  /** Joining separator-free fields and splitting again gives the fields back. */
  lemma {:induction false} SplitJoin(fields: seq<string>, sep: char)
    requires |fields| >= 1
    requires forall f :: f in fields ==> sep !in f
    ensures Split(Join(fields, sep), sep) == fields
    decreases |fields|, |fields[0]|
  {
    var f := fields[0];
    if f == [] {
      if |fields| > 1 {
        assert forall g :: g in fields[1..] ==> g in fields;
        SplitJoin(fields[1..], sep);
        SplitCons(sep, Join(fields[1..], sep), sep);
        assert fields == [f] + fields[1..];
      }
    } else {
      var shorter := [f[1..]] + fields[1..];
      assert sep != f[0] by { assert f[0] in f; }
      assert forall g :: g in shorter ==> sep !in g by {
        forall g | g in shorter ensures sep !in g {
          if g == f[1..] {
            assert forall c :: c in f[1..] ==> c in f;
          } else {
            assert g in fields;
          }
        }
      }
      SplitJoin(shorter, sep);
      JoinCons(fields, sep);
      SplitCons(f[0], Join(shorter, sep), sep);
      assert f == [f[0]] + f[1..];
      assert fields == [f] + fields[1..];
    }
  }

  /** The three text fields of a well-shaped line. */
  datatype Fields = Fields(name: string, duration: string, arrival: string)

  /** One line of the input: stripped and split at commas; a line that does not
      have exactly three fields is rejected. */
  function ParseLine(line: string): (r: Option<Fields>)
    ensures r.Some? <==> |Split(Strip(line), ',')| == 3
    ensures r.Some? ==> Join([r.value.name, r.value.duration, r.value.arrival], ',') == Strip(line)
    ensures r.Some? ==> ',' !in r.value.name && ',' !in r.value.duration && ',' !in r.value.arrival
  {
    var parts := Split(Strip(line), ',');
    if |parts| != 3 then None
    else
      JoinSplit(Strip(line), ',');
      assert parts == [parts[0], parts[1], parts[2]];
      assert parts[0] in parts && parts[1] in parts && parts[2] in parts;
      Some(Fields(parts[0], parts[1], parts[2]))
  }

  /** The well-shaped lines, in file order. */
  function Load(lines: seq<string>): (r: seq<Fields>)
    ensures |r| <= |lines|
  {
    if lines == [] then [] else Kept(lines[0]) + Load(lines[1..])
  }

  /** What one line contributes: its fields, or nothing when it is malformed. */
  function Kept(line: string): (r: seq<Fields>)
    ensures |r| <= 1
  {
    match ParseLine(line)
    case Some(f) => [f]
    case None => []
  }

  lemma HeadTail<T>(a: seq<T>, b: seq<T>)
    requires a != []
    ensures (a + b)[0] == a[0] && (a + b)[1..] == a[1..] + b
  {
  }

  /** Loading a file is loading its two halves one after the other. */
  lemma {:induction false} LoadAppend(a: seq<string>, b: seq<string>)
    ensures Load(a + b) == Load(a) + Load(b)
  {
    if a == [] {
      assert a + b == b;
    } else {
      LoadAppend(a[1..], b);
      HeadTail(a, b);
    }
  }

  lemma LoadOne(line: string)
    ensures Load([line]) == Kept(line)
  {
    assert [line][1..] == [];
  }

  lemma AroundIndex<T>(s: seq<T>, i: int)
    requires 0 <= i < |s|
    ensures s == s[..i] + [s[i]] + s[i + 1..]
  {
  }

  /** A line contributes what it keeps, between what the lines around it load. */
  lemma LoadAround(before: seq<string>, line: string, after: seq<string>)
    ensures Load(before + [line] + after) == Load(before) + Kept(line) + Load(after)
  {
    LoadAppend(before + [line], after);
    LoadAppend(before, [line]);
    LoadOne(line);
  }

  lemma KeptWellShaped(line: string)
    requires ParseLine(line).Some?
    ensures Kept(line) == [ParseLine(line).value]
  {
  }

  /** A well-shaped line is loaded, in its place: after everything loaded from
      the lines before it and before everything loaded from the lines after it. */
  lemma LoadKeepsWellShaped(lines: seq<string>, i: int)
    requires 0 <= i < |lines| && ParseLine(lines[i]).Some?
    ensures Load(lines) == Load(lines[..i]) + [ParseLine(lines[i]).value] + Load(lines[i + 1..])
  {
    var before, line, after := lines[..i], lines[i], lines[i + 1..];
    AroundIndex(lines, i);
    LoadAround(before, line, after);
    KeptWellShaped(line);
    assert Load(lines) == Load(before) + Kept(line) + Load(after);
  }

  /** A malformed line is skipped: it contributes nothing, and the lines after it
      still load. */
  lemma MalformedLineSkipped(before: seq<string>, bad: string, after: seq<string>)
    requires ParseLine(bad).None?
    ensures Load(before + [bad] + after) == Load(before) + Load(after)
  {
    LoadAppend(before + [bad], after);
    LoadAppend(before, [bad]);
    LoadOne(bad);
  }

  /** Every loaded entry comes from a well-shaped line of the file. */
  lemma {:induction false} LoadedFromLines(lines: seq<string>, f: Fields)
    requires f in Load(lines)
    ensures exists i :: 0 <= i < |lines| && ParseLine(lines[i]) == Some(f)
  {
    var i := LineOf(lines, f);
  }

  /** The position of the first line that yields `f`. */
  function LineOf(lines: seq<string>, f: Fields): (i: nat)
    requires f in Load(lines)
    ensures i < |lines| && f in Kept(lines[i])
  {
    if f in Kept(lines[0]) then 0 else 1 + LineOf(lines[1..], f)
  }
}
