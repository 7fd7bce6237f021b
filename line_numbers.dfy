/**
 * The line-number search of print_location over a method's LineNumberTable
 * (section 4.7.12 of The Java Virtual Machine Specification, Java SE 8), as
 * returned entry by entry by the host.
 */
module LineNumbers {
  import opened Wrappers

  datatype LineEntry = LineEntry(start: int, line: int)

  /** The first index from `lo` on whose entry starts strictly before `location`. */
  function FirstBefore(table: seq<LineEntry>, location: int, lo: nat): (j: nat)
    requires lo <= |table|
    ensures lo <= j <= |table|
    ensures j < |table| ==> table[j].start < location
    ensures forall k :: lo <= k < j ==> table[k].start >= location
    decreases |table| - lo
  {
    if lo == |table| then lo
    else if table[lo].start < location then lo
    else FirstBefore(table, location, lo + 1)
  }

  /** The first index from `lo` on whose entry starts at or after `location`. */
  function FirstAtOrAfter(table: seq<LineEntry>, location: int, lo: nat): (j: nat)
    requires lo <= |table|
    ensures lo <= j <= |table|
    ensures j < |table| ==> table[j].start >= location
    ensures forall k :: lo <= k < j ==> table[k].start < location
    decreases |table| - lo
  {
    if lo == |table| then lo
    else if table[lo].start >= location then lo
    else FirstAtOrAfter(table, location, lo + 1)
  }

  /**
   * The candidate line: with b the first entry that starts before the
   * location and j the first later entry that does not, entry j - 1's line.
   * None means the line is undetermined.
   */
  function CandidateLine(table: seq<LineEntry>, location: int): Option<int> {
    var b := FirstBefore(table, location, 0);
    if b == |table| then None
    else
      var j := FirstAtOrAfter(table, location, b + 1);
      if j == |table| then None else Some(table[j - 1].line)
  }

  /** The loop of print_location with its `before` and `found` flags. */
  method FindCandidateLine(table: seq<LineEntry>, location: int) returns (r: Option<int>)
    ensures r == CandidateLine(table, location)
  {
    var before, found := false, false;
    r := None;
    ghost var b := FirstBefore(table, location, 0);
    var j := 0;
    while j < |table|
      invariant 0 <= j <= |table| && !found && r.None?
      invariant before <==> b < j
      invariant before ==> forall k :: b < k < j ==> table[k].start < location
    {
      var loc := table[j].start;
      if loc < location {
        before := true;
      } else if loc >= location && before {
        assert FirstAtOrAfter(table, location, b + 1) == j;
        r := Some(table[j - 1].line);
        found := true;
        break;
      }
      j := j + 1;
    }
    assert !found && b < |table| ==> FirstAtOrAfter(table, location, b + 1) == |table|;
  }

  /** A candidate always lies strictly before the location, and the next entry at or after it. */
  lemma {:induction false} CandidateBrackets(table: seq<LineEntry>, location: int)
    requires CandidateLine(table, location).Some?
    ensures exists j ::
      && 0 < j < |table|
      && table[j - 1].start < location <= table[j].start
      && CandidateLine(table, location) == Some(table[j - 1].line)
  {
    var b := FirstBefore(table, location, 0);
    var j := FirstAtOrAfter(table, location, b + 1);
    if j - 1 > b {
      assert table[j - 1].start < location;
    }
    assert table[j - 1].start < location <= table[j].start;
  }

  predicate StrictlySorted(table: seq<LineEntry>) {
    forall i, k :: 0 <= i < k < |table| ==> table[i].start < table[k].start
  }

  /**
   * For a table sorted by start offset, a candidate exists iff the location
   * lies after the first entry's start and at or before the last entry's.
   */
  lemma {:induction false} SortedCandidateExists(table: seq<LineEntry>, location: int)
    requires StrictlySorted(table)
    ensures CandidateLine(table, location).Some?
      <==> |table| >= 2 && table[0].start < location <= table[|table| - 1].start
  {
    var b := FirstBefore(table, location, 0);
    if b < |table| {
      var j := FirstAtOrAfter(table, location, b + 1);
      if |table| >= 2 && table[0].start < location <= table[|table| - 1].start {
        assert b == 0;
        assert table[|table| - 1].start >= location;
      }
    }
  }

  /** Entry i is the last one that starts strictly before the location. */
  predicate IsLastBefore(table: seq<LineEntry>, location: int, i: nat) {
    i < |table| && table[i].start < location
    && forall k :: i < k < |table| ==> table[k].start >= location
  }

  /** For a sorted table, the candidate is the last entry that starts strictly before the location. */
  lemma {:induction false} SortedCandidateIsLastBefore(table: seq<LineEntry>, location: int)
    requires StrictlySorted(table) && CandidateLine(table, location).Some?
    ensures exists i ::
      && 0 <= i < |table| - 1
      && IsLastBefore(table, location, i)
      && CandidateLine(table, location) == Some(table[i].line)
  {
    var b := FirstBefore(table, location, 0);
    var j := FirstAtOrAfter(table, location, b + 1);
    if j - 1 > b {
      assert table[j - 1].start < location;
    }
    forall k | j - 1 < k < |table| ensures table[k].start >= location {
      if k > j { assert table[j].start < table[k].start; }
    }
    assert IsLastBefore(table, location, j - 1);
  }

  const ExampleTable: seq<LineEntry> := [LineEntry(0, 1), LineEntry(5, 2), LineEntry(10, 3)]

  /**
   * Offsets [0, 5, 10] on lines [1, 2, 3]: 7 gives line 2, 5 gives line 1
   * (the comparison is strict), 0 and 12 are undetermined.
   */
  lemma ExampleCandidates()
    ensures CandidateLine(ExampleTable, 7) == Some(2)
    ensures CandidateLine(ExampleTable, 5) == Some(1)
    ensures CandidateLine(ExampleTable, 0) == None
    ensures CandidateLine(ExampleTable, 12) == None
  {
    assert FirstBefore(ExampleTable, 7, 0) == 0;
    assert FirstAtOrAfter(ExampleTable, 7, 1) == 2;
    assert FirstBefore(ExampleTable, 5, 0) == 0;
    assert FirstAtOrAfter(ExampleTable, 5, 1) == 1;
    assert FirstBefore(ExampleTable, 0, 0) == 3;
    assert FirstBefore(ExampleTable, 12, 0) == 0;
    assert FirstAtOrAfter(ExampleTable, 12, 1) == 3;
  }

  /** A one-entry table never yields a candidate. */
  lemma SingleEntryUndetermined(e: LineEntry, location: int)
    ensures CandidateLine([e], location) == None
  {
  }
}
