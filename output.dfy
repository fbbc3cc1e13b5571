/** `print_records`: one line per record, `'{} {:>5} {:10} {}'` filled with
    the prefix, the type, the name (the priority for MX) and the data. */
module Output {
  import opened Records
  import opened Strings
  import opened Integers

  /** The third column.  A name is a string, which `{:10}` pads on the right;
      an MX priority is an integer, which `{:10}` pads on the left; a missing
      priority is shown as `None`, padded on the right. */
  function Cell(r: Record): string {
    if r.rtype != "MX" then PadRight(r.name, 10)
    else match r.priority
      case Some(p) => PadLeft(Show(p), 10)
      case None => PadRight("None", 10)
  }

  /** The cell is at least ten wide; a name is left-aligned in it, an integer
      priority right-aligned, and a missing priority reads `None`. */
  lemma CellAlignment(r: Record)
    ensures |Cell(r)| >= 10
    ensures r.rtype != "MX" ==> |Cell(r)| >= |r.name| && Cell(r) == r.name + Spaces(|Cell(r)| - |r.name|)
    ensures r.rtype == "MX" && r.priority.Some? ==>
              var shown := Show(r.priority.value);
              |Cell(r)| >= |shown| && Cell(r) == Spaces(|Cell(r)| - |shown|) + shown
    ensures r.rtype == "MX" && r.priority.None? ==> Cell(r) == "None" + Spaces(6)
  {
  }

  /** One printed line: prefix, type right-aligned in five columns, the third
      column, then the data, separated by single spaces. */
  function Line(prefix: string, r: Record): string {
    prefix + " " + PadLeft(r.rtype, 5) + " " + Cell(r) + " " + r.data
  }

  /** A line starts with the prefix and a space and ends with the data; when
      the type fits its five columns and the third column its ten, the data
      starts at the same column on every line of a listing. */
  lemma LineLayout(prefix: string, r: Record)
    ensures var line := Line(prefix, r);
      && |line| >= |prefix| + 18 + |r.data|
      && line[..|prefix| + 1] == prefix + " "
      && line[|line| - |r.data|..] == r.data
      && (|r.rtype| <= 5 && |Cell(r)| == 10 ==> |line| == |prefix| + 18 + |r.data|)
  {
    CellAlignment(r);
    var head := prefix + " " + PadLeft(r.rtype, 5) + " " + Cell(r) + " ";
    assert Line(prefix, r) == head + r.data;
    assert (head + r.data)[..|prefix| + 1] == head[..|prefix| + 1];
  }

  /** The lines `print_records(records, prefix)` prints, one per record, in order. */
  function Lines(prefix: string, rs: seq<Record>): (ls: seq<string>)
    ensures |ls| == |rs|
    ensures forall k :: 0 <= k < |rs| ==> ls[k] == Line(prefix, rs[k])
  {
    seq(|rs|, k requires 0 <= k < |rs| => Line(prefix, rs[k]))
  }

  /** Where the third column of a line starts. */
  function CellStart(prefix: string, r: Record): nat {
    |prefix| + 1 + |PadLeft(r.rtype, 5)| + 1
  }

  /** The third column of a printed line is the record's cell, starting
      after the prefix, the type column and two separating spaces. */
  lemma LineCell(prefix: string, r: Record)
    ensures var start := CellStart(prefix, r);
            start + |Cell(r)| <= |Line(prefix, r)| && Line(prefix, r)[start..start + |Cell(r)|] == Cell(r)
  {
    var cell := Cell(r);
    var before := prefix + " " + PadLeft(r.rtype, 5) + " ";
    SliceMiddle(before, cell, " " + r.data);
    assert Line(prefix, r) == before + cell + (" " + r.data);
  }

  /** Reading the integer back out of an MX line's third column gives the
      priority again. */
  lemma PriorityReadsBack(prefix: string, r: Record)
    requires r.rtype == "MX" && r.priority.Some?
    ensures var start := CellStart(prefix, r);
            start + |Cell(r)| <= |Line(prefix, r)| && ParseInt(Line(prefix, r)[start..start + |Cell(r)|]) == Some(r.priority.value)
  {
    LineCell(prefix, r);
    CellReadsBack(r);
  }

  /** The MX cell alone parses back to the priority. */
  lemma CellReadsBack(r: Record)
    requires r.rtype == "MX" && r.priority.Some?
    ensures ParseInt(Cell(r)) == Some(r.priority.value)
  {
    var p := r.priority.value;
    var cell := Cell(r);
    CellAlignment(r);
    StripLeadingSpaces(|cell| - |Show(p)|, Show(p));
    ParseShow(p);
    assert Strip(cell) == Strip(Show(p));
  }

  lemma SliceMiddle(a: string, b: string, c: string)
    ensures (a + b + c)[|a|..|a| + |b|] == b
  {
  }

  /** Leading spaces before a word are stripped away. */
  lemma {:induction false} StripLeadingSpaces(n: nat, s: string)
    requires s != [] && !IsWhitespace(s[0]) && !IsWhitespace(s[|s| - 1])
    ensures Strip(Spaces(n) + s) == s
  {
    if n > 0 {
      var t := Spaces(n) + s;
      assert t[0] == ' ';
      assert t[1..] == Spaces(n - 1) + s;
      StripLeadingSpaces(n - 1, s);
    }
  }
}
