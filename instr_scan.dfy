/**
 * The javap-output scanner (enum-method-instrs.py): find the header of the
 * method, require "Code:" on the next line, then number every instruction
 * of the given type in that method's body. The disassembly is supplied as
 * its lines; the string operations are those of Python 2's str.
 */
module InstrScan {
  import opened Wrappers
  import opened CText

  // ---------------------------------------------------------------------
  // Python string operations

  /** str.endswith. */
  predicate EndsWith(s: string, suffix: string) {
    |suffix| <= |s| && s[|s| - |suffix|..] == suffix
  }

  predicate OccursAt(s: string, t: string, i: nat) {
    i + |t| <= |s| && s[i..i + |t|] == t
  }

  /** str.find(t, from): the first occurrence at or after `from`, or -1. */
  function Find(s: string, t: string, from: nat): (r: int)
    ensures r == -1 || from <= r
    decreases |s| - from
  {
    if from + |t| > |s| then -1
    else if s[from..from + |t|] == t then from
    else Find(s, t, from + 1)
  }

  /** Find returns the first occurrence, and -1 only when there is none. */
  lemma {:induction false} FindSpec(s: string, t: string, from: nat)
    ensures var r := Find(s, t, from);
      && (r != -1 ==> OccursAt(s, t, r as nat))
      && (r == -1 ==> forall i: nat :: from <= i ==> !OccursAt(s, t, i))
      && (r != -1 ==> forall i: nat :: from <= i < r ==> !OccursAt(s, t, i))
    decreases |s| - from
  {
    if from + |t| <= |s| && s[from..from + |t|] != t {
      FindSpec(s, t, from + 1);
    }
  }

  predicate Contains(s: string, t: string) {
    Find(s, t, 0) != -1
  }

  lemma ContainsIff(s: string, t: string)
    ensures Contains(s, t) <==> exists i: nat :: OccursAt(s, t, i)
  {
    FindSpec(s, t, 0);
    if Contains(s, t) {
      assert OccursAt(s, t, Find(s, t, 0) as nat);
    }
  }

  /** The text of s before its first c (all of s when there is none). */
  function UpTo(s: string, c: char): string {
    if |s| == 0 || s[0] == c then [] else [s[0]] + UpTo(s[1..], c)
  }

  /** The text of s after its first c (empty when there is none). */
  function After(s: string, c: char): string {
    if |s| == 0 then [] else if s[0] == c then s[1..] else After(s[1..], c)
  }

  /** UpTo is the longest c-free prefix, and After what follows its c. */
  lemma {:induction false} UpToSpec(s: string, c: char)
    ensures UpTo(s, c) <= s && c !in UpTo(s, c)
    ensures |UpTo(s, c)| == |s| <==> c !in s
    ensures c in s ==> s[|UpTo(s, c)|] == c && After(s, c) == s[|UpTo(s, c)| + 1..]
  {
    if |s| > 0 && s[0] != c {
      UpToSpec(s[1..], c);
      assert s == [s[0]] + s[1..];
      if c in s {
        assert c in s[1..];
      }
    }
  }

  /** line.split(':')[0]: the text before the first ':'. */
  function FirstField(line: string): string {
    UpTo(line, ':')
  }

  /**
   * line.split(':')[1]: the text between the first and the second ':' (or
   * the end). Python raises IndexError when the line has no ':'; the script
   * only splits lines that contain ": ".
   */
  function SecondField(line: string): string {
    UpTo(After(line, ':'), ':')
  }

  /** The two fields are the text around the first ':', the second one up to the next ':'. */
  lemma FieldsSpec(line: string)
    requires ':' in line
    ensures FirstField(line) <= line && ':' !in FirstField(line) && line[|FirstField(line)|] == ':'
    ensures ':' !in SecondField(line)
    ensures var k := |FirstField(line)|;
      SecondField(line) <= line[k + 1..] && (|SecondField(line)| == |line| - k - 1 || line[k + 1 + |SecondField(line)|] == ':')
  {
    UpToSpec(line, ':');
    UpToSpec(After(line, ':'), ':');
  }

  /** The characters str.strip() removes. */
  predicate IsSpace(c: char) {
    c == ' ' || c == '\t' || c == '\n' || c == '\r' || c as int == 11 || c as int == 12
  }

  function StripLeft(s: string): string {
    if |s| > 0 && IsSpace(s[0]) then StripLeft(s[1..]) else s
  }

  function StripRight(s: string): string {
    if |s| > 0 && IsSpace(s[|s| - 1]) then StripRight(s[..|s| - 1]) else s
  }

  /** Python 2's int(s) on a str: None is the ValueError. */
  function ParseInt(s: string): Option<int> {
    var t := StripRight(StripLeft(s));
    if |t| > 0 && (t[0] == '-' || t[0] == '+') then
      var d := t[1..];
      if |d| > 0 && AllDigits(d) then Some(if t[0] == '-' then -(DecimalValue(d) as int) else DecimalValue(d) as int)
      else None
    else if |t| > 0 && AllDigits(t) then Some(DecimalValue(t) as int)
    else None
  }

  /** javap right-aligns the bytecode index after spaces: int() reads it back. */
  lemma {:induction false} ParseIndentedIndex(indent: string, n: nat)
    requires forall i :: 0 <= i < |indent| ==> indent[i] == ' '
    ensures ParseInt(indent + NatToDecimal(n)) == Some(n)
  {
    DecimalRoundTrip(n);
    var d := NatToDecimal(n);
    var s := indent + d;
    StripLeftOfIndent(indent, d);
    assert StripLeft(s) == d;
    assert StripRight(d) == d by {
      assert !IsSpace(d[|d| - 1]);
    }
  }

  lemma {:induction false} StripLeftOfIndent(indent: string, d: string)
    requires forall i :: 0 <= i < |indent| ==> indent[i] == ' '
    requires |d| > 0 && !IsSpace(d[0])
    ensures StripLeft(indent + d) == d
    decreases |indent|
  {
    if |indent| > 0 {
      assert (indent + d)[1..] == indent[1..] + d;
      StripLeftOfIndent(indent[1..], d);
    } else {
      assert indent + d == d;
    }
  }

  // ---------------------------------------------------------------------
  // The scan

  /** A method header: ends with " m;" or contains " m throws". */
  predicate IsHeader(line: string, m: string) {
    EndsWith(line, " " + m + ";") || Contains(line, " " + m + " throws")
  }

  /** An instruction line of a method body. */
  predicate IsInstruction(line: string) {
    Contains(line, ": ")
  }

  lemma InstructionHasColon(line: string)
    requires IsInstruction(line)
    ensures ':' in line
  {
    FindSpec(line, ": ", 0);
    var k := Find(line, ": ", 0) as nat;
    assert OccursAt(line, ": ", k);
    assert line[k..k + 2][0] == ':';
  }

  /** An instruction line is reported iff its second field mentions the instruction type. */
  predicate IsMatch(line: string, instr: string) {
    IsInstruction(line) && Contains(SecondField(line), instr)
  }

  /** One printed pair: the bytecode index and the occurrence number. */
  datatype Report = Report(bytecodeIndex: int, occurrence: nat)

  /** How the script ends: sys.exit(code) or falling off the end (0), or an uncaught exception. */
  datatype Exit = ExitCode(code: int) | Crash

  datatype BodyResult = BodyResult(exit: Exit, reports: seq<Report>)

  /** The printed lines, the exit, and whether the header was announced. */
  datatype ScanResult = ScanResult(exit: Exit, headerFound: bool, reports: seq<Report>)

  /** The first header line at or after `from`. */
  function FirstHeader(lines: seq<string>, m: string, from: nat): (r: Option<nat>)
    ensures r.Some? ==> from <= r.value < |lines| && IsHeader(lines[r.value], m)
    ensures forall i :: from <= i < |lines| && (r.None? || i < r.value) ==> !IsHeader(lines[i], m)
    decreases |lines| - from
  {
    if from >= |lines| then None
    else if IsHeader(lines[from], m) then Some(from)
    else FirstHeader(lines, m, from + 1)
  }

  /** How the inner loop treats one line. */
  datatype LineKind = EndOfBody | Other | Hit(index: int) | BadIndex

  function KindOf(line: string, instr: string): LineKind {
    if !IsInstruction(line) then EndOfBody
    else if !IsMatch(line, instr) then Other
    else match ParseInt(FirstField(line))
      case None => BadIndex
      case Some(v) => Hit(v)
  }

  /** A line ends the body iff it is no instruction; it is numbered iff it matches. */
  lemma KindOfSpec(line: string, instr: string)
    ensures KindOf(line, instr) == EndOfBody <==> !IsInstruction(line)
    ensures KindOf(line, instr).Hit? || KindOf(line, instr) == BadIndex <==> IsMatch(line, instr)
    ensures KindOf(line, instr).Hit? ==> ':' in line && ParseInt(FirstField(line)) == Some(KindOf(line, instr).index)
    ensures KindOf(line, instr) == BadIndex ==> ':' in line && ParseInt(FirstField(line)).None?
  {
    if IsInstruction(line) {
      InstructionHasColon(line);
    }
  }

  /** KindOf in the terms the script tests: find() on the line, then on its second field, then int(). */
  lemma LineKindCases(line: string, instr: string)
    ensures Find(line, ": ", 0) == -1 ==> KindOf(line, instr) == EndOfBody
    ensures Find(line, ": ", 0) != -1 && Find(SecondField(line), instr, 0) == -1 ==> KindOf(line, instr) == Other
    ensures Find(line, ": ", 0) != -1 && Find(SecondField(line), instr, 0) != -1 ==>
      KindOf(line, instr) == match ParseInt(FirstField(line)) case None => BadIndex case Some(v) => Hit(v)
  {
  }

  /** The inner loop from line i on, with `counter` occurrences already numbered. */
  function BodyScan(lines: seq<string>, instr: string, i: nat, counter: nat): BodyResult
    decreases |lines| - i
  {
    if i >= |lines| then BodyResult(ExitCode(0), [])
    else match KindOf(lines[i], instr)
      case EndOfBody => BodyResult(ExitCode(0), [])
      case Other => BodyScan(lines, instr, i + 1, counter)
      case BadIndex => BodyResult(Crash, [])  // int() raises ValueError
      case Hit(v) =>
        var rest := BodyScan(lines, instr, i + 1, counter + 1);
        BodyResult(rest.exit, [Report(v, counter)] + rest.reports)
  }

  /** What the script does with argv (the script's own name first) and javap's lines. */
  function Scan(argv: seq<string>, lines: seq<string>): ScanResult {
    if |argv| != 4 then ScanResult(ExitCode(-1), false, [])
    else match FirstHeader(lines, argv[2], 0)
      case None => ScanResult(ExitCode(0), false, [])
      case Some(h) =>
        if h + 1 >= |lines| then ScanResult(Crash, true, [])  // lines[i] raises IndexError
        else if !EndsWith(lines[h + 1], "Code:") then ScanResult(ExitCode(-2), true, [])
        else
          var body := BodyScan(lines, argv[3], h + 2, 0);
          ScanResult(body.exit, true, body.reports)
  }

  /** The script's loop over the lines. */
  method EnumMethodInstrs(argv: seq<string>, lines: seq<string>) returns (result: ScanResult)
    ensures result == Scan(argv, lines)
  {
    if |argv| != 4 {
      // usage error
      return ScanResult(ExitCode(-1), false, []);
    }
    var methodToSearch := argv[2];
    var instrType := argv[3];
    var txt1 := " " + methodToSearch + ";";
    var txt2 := " " + methodToSearch + " throws";
    var i := 0;
    while i < |lines|
      invariant 0 <= i <= |lines|
      invariant FirstHeader(lines, methodToSearch, 0) == FirstHeader(lines, methodToSearch, i)
    {
      if EndsWith(lines[i], txt1) || Find(lines[i], txt2, 0) != -1 {
        // header announced
        i := i + 1;
        if i >= |lines| {
          return ScanResult(Crash, true, []);
        }
        if EndsWith(lines[i], "Code:") {
          // once the body ends, so does the outer loop
          var body := ScanBody(lines, instrType, i + 1);
          return ScanResult(body.exit, true, body.reports);
        } else {
          // no code after the header
          return ScanResult(ExitCode(-2), true, []);
        }
      }
      i := i + 1;
    }
    result := ScanResult(ExitCode(0), false, []);
  }

  /** The inner loop has numbered `reports` on lines start..i-1, and the rest of the scan completes it. */
  ghost predicate BodyScanned(lines: seq<string>, instr: string, start: nat, i: nat, counter: nat, reports: seq<Report>) {
    && counter == |reports|
    && BodyScan(lines, instr, start, 0).exit == BodyScan(lines, instr, i, counter).exit
    && BodyScan(lines, instr, start, 0).reports == reports + BodyScan(lines, instr, i, counter).reports
  }

  /** One step of BodyScan, from the kind of line i. */
  lemma BodyStep(lines: seq<string>, instr: string, start: nat, i: nat, counter: nat, reports: seq<Report>)
    requires i < |lines| && BodyScanned(lines, instr, start, i, counter, reports)
    ensures KindOf(lines[i], instr) == EndOfBody ==> BodyScan(lines, instr, start, 0) == BodyResult(ExitCode(0), reports)
    ensures KindOf(lines[i], instr) == BadIndex ==> BodyScan(lines, instr, start, 0) == BodyResult(Crash, reports)
    ensures KindOf(lines[i], instr) == Other ==> BodyScanned(lines, instr, start, i + 1, counter, reports)
    ensures KindOf(lines[i], instr).Hit? ==>
      BodyScanned(lines, instr, start, i + 1, counter + 1, reports + [Report(KindOf(lines[i], instr).index, counter)])
  {
    match KindOf(lines[i], instr)
    case EndOfBody => StopStep(lines, instr, start, i, counter, reports);
    case BadIndex => StopStep(lines, instr, start, i, counter, reports);
    case Other =>
    case Hit(v) => HitStep(lines, instr, start, i, counter, reports, v);
  }

  /** A line that ends the scan: the reports so far are all there is. */
  lemma StopStep(lines: seq<string>, instr: string, start: nat, i: nat, counter: nat, reports: seq<Report>)
    requires i < |lines| && BodyScanned(lines, instr, start, i, counter, reports)
    requires KindOf(lines[i], instr) == EndOfBody || KindOf(lines[i], instr) == BadIndex
    ensures BodyScan(lines, instr, start, 0).reports == reports
  {
    assert BodyScan(lines, instr, i, counter).reports == [];
    assert reports + [] == reports;
  }

  /** A numbered line: its report follows the ones so far. */
  lemma HitStep(lines: seq<string>, instr: string, start: nat, i: nat, counter: nat, reports: seq<Report>, v: int)
    requires i < |lines| && BodyScanned(lines, instr, start, i, counter, reports)
    requires KindOf(lines[i], instr) == Hit(v)
    ensures BodyScanned(lines, instr, start, i + 1, counter + 1, reports + [Report(v, counter)])
  {
    var rest := BodyScan(lines, instr, i + 1, counter + 1);
    assert BodyScan(lines, instr, i, counter).reports == [Report(v, counter)] + rest.reports;
    assert reports + ([Report(v, counter)] + rest.reports) == (reports + [Report(v, counter)]) + rest.reports;
  }

  /** One line of the inner loop, in the terms the script tests. */
  lemma ScanStep(lines: seq<string>, instr: string, start: nat, i: nat, counter: nat, reports: seq<Report>)
    requires i < |lines| && BodyScanned(lines, instr, start, i, counter, reports)
    ensures Find(lines[i], ": ", 0) == -1 ==> BodyScan(lines, instr, start, 0) == BodyResult(ExitCode(0), reports)
    ensures Find(lines[i], ": ", 0) != -1 && Find(SecondField(lines[i]), instr, 0) == -1 ==>
      BodyScanned(lines, instr, start, i + 1, counter, reports)
    ensures Find(lines[i], ": ", 0) != -1 && Find(SecondField(lines[i]), instr, 0) != -1 ==>
      match ParseInt(FirstField(lines[i]))
      case None => BodyScan(lines, instr, start, 0) == BodyResult(Crash, reports)
      case Some(v) => BodyScanned(lines, instr, start, i + 1, counter + 1, reports + [Report(v, counter)])
  {
    BodyStep(lines, instr, start, i, counter, reports);
    LineKindCases(lines[i], instr);
  }

  /** The script's inner loop over the body that starts at line `start`. */
  method ScanBody(lines: seq<string>, instrType: string, start: nat) returns (body: BodyResult)
    requires start <= |lines|
    ensures body == BodyScan(lines, instrType, start, 0)
  {
    var counter := 0;
    var reports: seq<Report> := [];
    var i := start;
    while i < |lines|
      invariant start <= i <= |lines| && BodyScanned(lines, instrType, start, i, counter, reports)
    {
      ScanStep(lines, instrType, start, i, counter, reports);
      if Find(lines[i], ": ", 0) != -1 {
        var fields0 := FirstField(lines[i]);
        var instr := SecondField(lines[i]);
        if Find(instr, instrType, 0) != -1 {
          var bytecodeIdx := ParseInt(fields0);
          if bytecodeIdx.None? {
            // int() raises ValueError
            return BodyResult(Crash, reports);
          }
          // report the index and the occurrence number
          reports := reports + [Report(bytecodeIdx.value, counter)];
          counter := counter + 1;
        }
        i := i + 1;
      } else {
        return BodyResult(ExitCode(0), reports);
      }
    }
    assert reports + [] == reports;
    body := BodyResult(ExitCode(0), reports);
  }

  // ---------------------------------------------------------------------
  // Properties

  /** The body scan ends with 0 or an exception, never with another code. */
  lemma {:induction false} BodyExit(lines: seq<string>, instr: string, i: nat, counter: nat)
    ensures BodyScan(lines, instr, i, counter).exit in {ExitCode(0), Crash}
    decreases |lines| - i
  {
    if i < |lines| {
      match KindOf(lines[i], instr)
      case EndOfBody =>
      case BadIndex =>
      case Other => BodyExit(lines, instr, i + 1, counter);
      case Hit(_) => BodyExit(lines, instr, i + 1, counter + 1);
    }
  }

  /**
   * Exit -1 exactly for a wrong argument count, exit -2 exactly when the
   * header is not followed by "Code:", an exception when the header is the
   * last line, and no report without a header.
   */
  lemma {:induction false} ExitCodes(argv: seq<string>, lines: seq<string>)
    ensures Scan(argv, lines).exit == ExitCode(-1) <==> |argv| != 4
    ensures Scan(argv, lines).exit == ExitCode(-2) <==>
      && |argv| == 4
      && FirstHeader(lines, argv[2], 0).Some?
      && FirstHeader(lines, argv[2], 0).value + 1 < |lines|
      && !EndsWith(lines[FirstHeader(lines, argv[2], 0).value + 1], "Code:")
    ensures |argv| == 4 && FirstHeader(lines, argv[2], 0) == Some(|lines| - 1) ==> Scan(argv, lines).exit == Crash
    ensures |Scan(argv, lines).reports| > 0 ==> Scan(argv, lines).headerFound
  {
    if |argv| == 4 && FirstHeader(lines, argv[2], 0).Some? {
      var h := FirstHeader(lines, argv[2], 0).value;
      if h + 1 < |lines| {
        BodyExit(lines, argv[3], h + 2, 0);
      }
    }
  }

  /** Occurrences are numbered counter, counter + 1, ... in line order. */
  lemma {:induction false} BodyOccurrences(lines: seq<string>, instr: string, i: nat, counter: nat)
    ensures forall k :: 0 <= k < |BodyScan(lines, instr, i, counter).reports| ==>
      BodyScan(lines, instr, i, counter).reports[k].occurrence == counter + k
    decreases |lines| - i
  {
    if i < |lines| {
      match KindOf(lines[i], instr)
      case EndOfBody =>
      case BadIndex =>
      case Other => BodyOccurrences(lines, instr, i + 1, counter);
      case Hit(v) => BodyOccurrences(lines, instr, i + 1, counter + 1);
    }
  }

  /** The printed occurrence numbers are 0, 1, 2, ... */
  lemma OccurrencesConsecutive(argv: seq<string>, lines: seq<string>)
    ensures forall k :: 0 <= k < |Scan(argv, lines).reports| ==> Scan(argv, lines).reports[k].occurrence == k
  {
    if |argv| == 4 && FirstHeader(lines, argv[2], 0).Some? {
      var h := FirstHeader(lines, argv[2], 0).value;
      if h + 1 < |lines| && EndsWith(lines[h + 1], "Code:") {
        BodyOccurrences(lines, argv[3], h + 2, 0);
        assert Scan(argv, lines).reports == BodyScan(lines, argv[3], h + 2, 0).reports;
      }
    }
  }

  /** The lines of the body starting at line i that mention the instruction type, in order. */
  function BodyMatches(lines: seq<string>, i: nat, instr: string): seq<string>
    decreases |lines| - i
  {
    if i >= |lines| || !IsInstruction(lines[i]) then []
    else (if IsMatch(lines[i], instr) then [lines[i]] else []) + BodyMatches(lines, i + 1, instr)
  }

  /** Without an exception, there is one report per matching line of the body. */
  lemma {:induction false} ReportPerMatchingLine(lines: seq<string>, i: nat, instr: string, counter: nat)
    requires BodyScan(lines, instr, i, counter).exit != Crash
    ensures |BodyScan(lines, instr, i, counter).reports| == |BodyMatches(lines, i, instr)|
    decreases |lines| - i
  {
    if i < |lines| {
      KindOfSpec(lines[i], instr);
      match KindOf(lines[i], instr)
      case EndOfBody =>
      case Other => ReportPerMatchingLine(lines, i + 1, instr, counter);
      case Hit(v) => ReportPerMatchingLine(lines, i + 1, instr, counter + 1);
    }
  }

  /**
   * Without an exception, report k comes from the k-th matching line of the
   * body and carries the index int() reads before that line's first ':'.
   */
  lemma {:induction false} ReportsAreMatchingLines(lines: seq<string>, i: nat, instr: string, counter: nat, k: nat)
    requires BodyScan(lines, instr, i, counter).exit != Crash
    requires k < |BodyScan(lines, instr, i, counter).reports|
    ensures k < |BodyMatches(lines, i, instr)|
    ensures ':' in BodyMatches(lines, i, instr)[k]
    ensures ParseInt(FirstField(BodyMatches(lines, i, instr)[k]))
      == Some(BodyScan(lines, instr, i, counter).reports[k].bytecodeIndex)
    decreases |lines| - i
  {
    if i < |lines| {
      KindOfSpec(lines[i], instr);
      match KindOf(lines[i], instr)
      case EndOfBody =>
      case Other =>
        ReportsAreMatchingLines(lines, i + 1, instr, counter, k);
      case Hit(v) =>
        if k > 0 {
          ReportsAreMatchingLines(lines, i + 1, instr, counter + 1, k - 1);
        }
    }
  }

  /** The body scan stops at the first end-of-body line: nothing after it is read. */
  lemma {:induction false} BodyScanStops(lines: seq<string>, more: seq<string>, instr: string, i: nat, counter: nat)
    requires exists j :: i <= j < |lines| && !IsInstruction(lines[j])
    ensures BodyScan(lines + more, instr, i, counter) == BodyScan(lines, instr, i, counter)
    decreases |lines| - i
  {
    var j :| i <= j < |lines| && !IsInstruction(lines[j]);
    assert (lines + more)[i] == lines[i];
    KindOfSpec(lines[i], instr);
    match KindOf(lines[i], instr)
    case EndOfBody =>
    case BadIndex =>
    case Other => BodyScanStops(lines, more, instr, i + 1, counter);
    case Hit(_) => BodyScanStops(lines, more, instr, i + 1, counter + 1);
  }

  /**
   * Only the first matching method is reported: once its body has ended
   * within the lines, whatever follows (another header included) changes nothing.
   */
  lemma {:induction false} OnlyFirstMethod(argv: seq<string>, lines: seq<string>, more: seq<string>)
    requires |argv| == 4 && FirstHeader(lines, argv[2], 0).Some?
    requires var h := FirstHeader(lines, argv[2], 0).value;
      exists j :: h + 2 <= j < |lines| && !IsInstruction(lines[j])
    ensures Scan(argv, lines + more) == Scan(argv, lines)
  {
    var h := FirstHeader(lines, argv[2], 0).value;
    FirstHeaderOfPrefix(lines, more, argv[2], 0);
    assert (lines + more)[h + 1] == lines[h + 1];
    BodyScanStops(lines, more, argv[3], h + 2, 0);
  }

  lemma {:induction false} FirstHeaderOfPrefix(lines: seq<string>, more: seq<string>, m: string, from: nat)
    requires FirstHeader(lines, m, from).Some?
    ensures FirstHeader(lines + more, m, from) == FirstHeader(lines, m, from)
    decreases |lines| - from
  {
    assert (lines + more)[from] == lines[from];
    if !IsHeader(lines[from], m) {
      FirstHeaderOfPrefix(lines, more, m, from + 1);
    }
  }
}
