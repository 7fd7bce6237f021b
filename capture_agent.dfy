/**
 * The C++ agent: the global counters, the 256-entry opcode histogram, the
 * anonymous class counter and the files it writes, updated by sequential
 * calls of ClassFileLoadHook (the whole hook runs under one lock).
 */
module Capture {
  import opened Wrappers
  import opened CText
  import opened Paths
  import opened Opcodes
  import opened ClassStore
  import opened LineNumbers
  import opened ExecContext

  /** The sum of all histogram entries. */
  function HistogramSum(s: seq<nat>): nat {
    if |s| == 0 then 0 else HistogramSum(s[..|s| - 1]) + s[|s| - 1]
  }

  /** The histogram after counting an opcode, if there is one. */
  function Bump(s: seq<nat>, op: Option<byte>): seq<nat>
    requires |s| == 256
  {
    match op
    case None => s
    case Some(b) => s[b as int := s[b] + 1]
  }

  lemma {:induction false} BumpSum(s: seq<nat>, i: nat)
    requires i < |s|
    ensures HistogramSum(s[i := s[i] + 1]) == HistogramSum(s) + 1
    decreases |s|
  {
    var t := s[i := s[i] + 1];
    if i < |s| - 1 {
      assert t[..|t| - 1] == s[..|s| - 1][i := s[i] + 1];
      BumpSum(s[..|s| - 1], i);
    } else {
      assert t[..|t| - 1] == s[..|s| - 1];
    }
  }

  function Plus(a: Counts, b: Counts): Counts {
    Counts(a.defineClass + b.defineClass, a.defineAnonymousClass + b.defineAnonymousClass,
           a.unknown + b.unknown, a.missing + b.missing)
  }

  /** Where ClassFileLoadHook sends an event. */
  datatype Route = Abort | Ignore | Capture(className: string, outDir: string)

  /**
   * The routing and naming of ClassFileLoadHook, given the anonymous class
   * counter before the event.
   */
  function RouteOf(redefining: bool, loaderHash: int32, name: Option<string>, counter: int): Route {
    if redefining then Abort
    else match name
      case None =>
        if AnonNameFits(counter + 1) then Capture(AnonName(counter + 1), BaseDir(loaderHash)) else Abort
      case Some(n) =>
        if IsBuiltIn(n) then Ignore else Capture(n, OutDir(BaseDir(loaderHash), n))
  }

  /** A captured class's file lies in the directory created for it, named after its stem. */
  lemma {:induction false} CapturedFileInOutDir(redefining: bool, loaderHash: int32, name: Option<string>, counter: int)
    requires RouteOf(redefining, loaderHash, name, counter).Capture?
    ensures var r := RouteOf(redefining, loaderHash, name, counter);
      ClassFilePath(BaseDir(loaderHash), r.className) == r.outDir + "/" + FileStem(r.className) + ".class"
  {
    var base := BaseDir(loaderHash);
    BaseDirExact(loaderHash);
    match name
    case None =>
      AnonNameHasNoPackage(base, counter + 1);
      ClassFileInPackageDir(base, AnonName(counter + 1));
    case Some(n) =>
      OutDirNotTruncated(base, n);
      ClassFileInPackageDir(base, n);
  }

  /** Built-in classes are never captured; anonymous ones never filtered; 32-bit counters never abort. */
  lemma RoutingRules(redefining: bool, loaderHash: int32, name: Option<string>, counter: int32)
    requires counter < 0x7FFF_FFFF
    ensures redefining <==> RouteOf(redefining, loaderHash, name, counter as int) == Abort
    ensures RouteOf(redefining, loaderHash, name, counter as int) == Ignore
      <==> !redefining && name.Some? && IsBuiltIn(name.value)
    ensures !redefining && name.None? ==>
      RouteOf(redefining, loaderHash, name, counter as int) == Capture(AnonName(counter as int + 1), BaseDir(loaderHash))
  {
    AnonNameFitsInt32((counter as int + 1) as int32);
  }

  /** What one call of ClassFileLoadHook did. */
  datatype HookOutcome =
    | Aborted   // the process exits
    | Ignored   // a built-in class
    | Recorded(className: string, outDir: string, written: WriteResult, context: Context)

  /**
   * One line of the opcode frequencies of Agent_OnUnload, with the opcode
   * rendered by the corrected Mnemonic; the program itself renders it as
   * MnemonicAsWritten does.
   */
  datatype FrequencyLine = FrequencyLine(ordinal: nat, opcode: byte, mnemonic: string, count: nat)

  /** The figures Agent_OnUnload prints. */
  datatype Summary = Summary(
    defined: nat, ignored: nat, unknown: nat, byDefineClass: nat, byDefineAnonymousClass: nat,
    missing: nat, frequencies: seq<FrequencyLine>, bytecodesSum: nat, uncounted: int)

  /** The frequency lines for the first n histogram entries: the nonzero ones, numbered from 1. */
  function Frequencies(s: seq<nat>, n: nat): seq<FrequencyLine>
    requires n <= |s| <= 256
  {
    if n == 0 then []
    else
      var prev := Frequencies(s, n - 1);
      if s[n - 1] != 0
      then prev + [FrequencyLine(|prev| + 1, (n - 1) as byte, Mnemonic((n - 1) as byte), s[n - 1])]
      else prev
  }

  /** The frequency lines are numbered 1, 2, ... and list only nonzero entries, with their counts. */
  lemma {:induction false} FrequenciesNumbered(s: seq<nat>, n: nat)
    requires n <= |s| <= 256
    ensures forall k :: 0 <= k < |Frequencies(s, n)| ==>
      && Frequencies(s, n)[k].ordinal == k + 1
      && Frequencies(s, n)[k].opcode as int < n
      && Frequencies(s, n)[k].count == s[Frequencies(s, n)[k].opcode] != 0
    decreases n
  {
    if n > 0 {
      FrequenciesNumbered(s, n - 1);
      var prev := Frequencies(s, n - 1);
      if s[n - 1] != 0 {
        var line := FrequencyLine(|prev| + 1, (n - 1) as byte, Mnemonic((n - 1) as byte), s[n - 1]);
        assert Frequencies(s, n) == prev + [line];
        forall k | 0 <= k < |prev|
          ensures Frequencies(s, n)[k] == prev[k]
        {
        }
      }
    }
  }

  /** The frequency lines come in increasing opcode order, so no opcode is listed twice. */
  lemma {:induction false} FrequenciesOrdered(s: seq<nat>, n: nat)
    requires n <= |s| <= 256
    ensures forall a, b :: 0 <= a < b < |Frequencies(s, n)| ==> Frequencies(s, n)[a].opcode < Frequencies(s, n)[b].opcode
    decreases n
  {
    if n > 0 {
      FrequenciesOrdered(s, n - 1);
      var prev := Frequencies(s, n - 1);
      if s[n - 1] != 0 {
        FrequenciesNumbered(s, n - 1);
        var line := FrequencyLine(|prev| + 1, (n - 1) as byte, Mnemonic((n - 1) as byte), s[n - 1]);
        assert Frequencies(s, n) == prev + [line];
        forall a, b | 0 <= a < b < |prev| + 1
          ensures Frequencies(s, n)[a].opcode < Frequencies(s, n)[b].opcode
        {
          assert Frequencies(s, n)[a] == prev[a];
          if b < |prev| {
            assert Frequencies(s, n)[b] == prev[b];
          }
        }
      }
    }
  }

  /** Every nonzero entry below n has a frequency line. */
  lemma {:induction false} FrequenciesComplete(s: seq<nat>, n: nat, op: nat)
    requires n <= |s| <= 256 && op < n && s[op] != 0
    ensures exists k :: 0 <= k < |Frequencies(s, n)| && Frequencies(s, n)[k].opcode as int == op
    decreases n
  {
    var prev := Frequencies(s, n - 1);
    if s[n - 1] != 0 {
      var line := FrequencyLine(|prev| + 1, (n - 1) as byte, Mnemonic((n - 1) as byte), s[n - 1]);
      assert Frequencies(s, n) == prev + [line];
      if op == n - 1 {
        assert Frequencies(s, n)[|prev|].opcode as int == op;
      } else {
        FrequenciesComplete(s, n - 1, op);
        var k :| 0 <= k < |prev| && prev[k].opcode as int == op;
        assert Frequencies(s, n)[k] == prev[k];
      }
    } else {
      assert Frequencies(s, n) == prev;
      FrequenciesComplete(s, n - 1, op);
    }
  }

  /** Whether read_bytecode is still set when frame i (a resolving frame) is printed. */
  ghost predicate FlagBefore(h: Host, i: nat)
    requires i <= |Frames(h)| && |Frames(h)| > 0
  {
    var fs := Frames(h);
    RequestsOpcode(Classify(fs[0])) && (h.format == JvmBci ==> FirstLocated(fs, 0) >= i)
  }

  /** Frame i consumes the flag exactly when it is the frame ReadIndex names. */
  lemma FlagStep(h: Host, i: nat)
    requires h.stack.Stack? && i < |Frames(h)|
    ensures Frames(h)[i].name.Some? ==>
      (FlagBefore(h, i) && ConsumesFlag(Frames(h)[i], h.format) <==> ReadIndex(h) == Some(i))
    ensures Frames(h)[i].name.Some? && FlagBefore(h, i) && !ConsumesFlag(Frames(h)[i], h.format) ==> FlagBefore(h, i + 1)
    ensures FlagBefore(h, i + 1) ==> FlagBefore(h, i)
    ensures Frames(h)[i].name.None? ==> (FlagBefore(h, i) <==> FlagBefore(h, i + 1)) && ReadIndex(h) != Some(i)
  {
    var fs := Frames(h);
    assert Attribute(h) == Classify(fs[0]);
    assert FirstLocated(fs, 0) <= i || !(fs[i].name.Some? && fs[i].location != -1);
  }

  class Agent {
    var files: FileSystem
    /** Directories created by make_dirs (`mkdir -p`), which always succeeds here. */
    var dirs: set<string>
    /** bytecodes[256]: how often each opcode was found at an unknown call site. */
    const histogram: array<nat>
    var definedSum: nat
    var definedByDefineClass: nat
    var definedByDefineAnonymousClass: nat
    var definedByUnknown: nat
    var definedMissing: nat
    var definedButIgnored: nat
    var anonymousClassCounter: int
    /** Set once the hook has called exit(-1). */
    var exited: bool
    /** Events that reached write_exec_context. */
    ghost var contexts: nat
    /** Increments beyond one per such event (each failed GetMethodName after the first). */
    ghost var miscounted: nat

    function Outcomes(): Counts
      reads this
    {
      Counts(definedByDefineClass, definedByDefineAnonymousClass, definedByUnknown, definedMissing)
    }

    /** The statistics invariant: every counted opcode is an event counted as missing. */
    ghost predicate Stats()
      reads this, histogram
    {
      && histogram.Length == 256
      && Outcomes().Total() == contexts + miscounted
      && HistogramSum(histogram[..]) <= definedMissing
    }

    ghost predicate Valid()
      reads this, histogram
    {
      && Stats()
      && anonymousClassCounter >= 0
      && definedSum == definedButIgnored + contexts + (if exited then 1 else 0)
    }

    /** Agent_Initialize: all counters and the histogram start at zero. */
    constructor ()
      ensures Valid() && !exited
      ensures fresh(histogram) && histogram.Length == 256
      ensures forall i :: 0 <= i < 256 ==> histogram[i] == 0
      ensures files == map[] && dirs == {}
      ensures definedSum == 0 && definedButIgnored == 0 && Outcomes() == Counts(0, 0, 0, 0)
      ensures anonymousClassCounter == 0 && contexts == 0 && miscounted == 0
    {
      var zeroes := NewHistogram();
      files := map[];
      dirs := {};
      histogram := zeroes;
      definedSum, definedByDefineClass, definedByDefineAnonymousClass := 0, 0, 0;
      definedByUnknown, definedMissing, definedButIgnored := 0, 0, 0;
      anonymousClassCounter := 0;
      exited := false;
      contexts, miscounted := 0, 0;
    }

    /** bytecodes[256], zeroed by Agent_Initialize. */
    static method NewHistogram() returns (a: array<nat>)
      ensures fresh(a) && a.Length == 256
      ensures forall i :: 0 <= i < 256 ==> a[i] == 0
      ensures HistogramSum(a[..]) == 0
    {
      a := new nat[256](_ => 0);
      ZeroSum(a[..]);
    }

    static lemma {:induction false} ZeroSum(s: seq<nat>)
      requires forall i :: 0 <= i < |s| ==> s[i] == 0
      ensures HistogramSum(s) == 0
      decreases |s|
    {
      if |s| > 0 { ZeroSum(s[..|s| - 1]); }
    }

    /** write_class: creates the file only where none exists and reports what it found. */
    method WriteClass(name: string, base: string, payload: seq<byte>) returns (r: WriteResult)
      modifies this`files
      ensures r == WriteOutcome(old(files), ClassFilePath(base, name), payload)
      ensures files == AfterWrite(old(files), ClassFilePath(base, name), payload)
    {
      var path := ClassFilePath(base, name);
      if path in files {
        var existing := files[path];
        if |existing| != |payload| {
          return SizeConflict(|existing|, |payload|);
        }
        var differentPos := CompareContents(existing, payload);
        if differentPos == -1 {
          r := AlreadySaved;
        } else {
          r := ContentConflict(differentPos);
        }
      } else {
        files := files[path := payload];
        r := Written;
      }
    }

    /** count_bytecode_location: reads the opcode at the frame's location and counts it. */
    method CountBytecodeLocation(f: Frame) returns (read: BytecodeRead)
      requires histogram.Length == 256 && ReadableAt(f)
      modifies histogram
      ensures match f.bytecodes
        case Some(bc) => read == ReadOpcode(bc[f.location])
        case None => read == BytecodeError
      ensures histogram[..] == Bump(old(histogram[..]), if read.ReadOpcode? then Some(read.op) else None)
    {
      match f.bytecodes
      case Some(bc) =>
        // read the opcode byte at the location and count it
        var op := bc[f.location];
        histogram[op] := histogram[op] + 1;
        read := ReadOpcode(op);
      case None =>
        read := BytecodeError;
    }

    /** print_location: the frame's location, its opcode if the flag is set, and its candidate line. */
    method PrintLocation(f: Frame, format: LocationFormat, readBytecode: bool)
      returns (report: LocationReport, readAfter: bool)
      requires histogram.Length == 256
      requires readBytecode && ConsumesFlag(f, format) ==> ReadableAt(f)
      modifies histogram
      ensures report == LocationAt(f, format, readBytecode)
      ensures readAfter == (readBytecode && !ConsumesFlag(f, format))
      ensures histogram[..] == if readBytecode && ConsumesFlag(f, format)
        then Bump(old(histogram[..]), if report.read.Some? && report.read.value.ReadOpcode? then Some(report.read.value.op) else None)
        else old(histogram[..])
    {
      readAfter := readBytecode;
      if f.location == -1 {
        return NativeMethod, readAfter;
      }
      if format == FormatError {
        return LocationError, readAfter;
      } else if format == OtherFormat {
        return UnsupportedLocation, readAfter;
      }
      var read: Option<BytecodeRead> := None;
      if readBytecode {
        var r := CountBytecodeLocation(f);
        read := Some(r);
        readAfter := false;
      }
      var line := LineTableError;
      match f.lineTable {
        case Some(t) =>
          var c := FindCandidateLine(t, f.location);
          line := if c.Some? then Candidate(c.value) else Undetermined;
        case None =>
      }
      report := AtBytecode(f.location, read, line);
    }

    /** write_exec_context: walks the frames, updates the counters and runs the sanity check. */
    method WriteExecContext(h: Host) returns (ctx: Context)
      requires Stats() && OpcodeInBounds(h)
      modifies this`definedByDefineClass, this`definedByDefineAnonymousClass, this`definedByUnknown,
        this`definedMissing, this`contexts, this`miscounted, histogram
      ensures Stats()
      ensures ctx == ContextOf(h)
      ensures Outcomes() == Plus(old(Outcomes()), Delta(h))
      ensures histogram[..] == Bump(old(histogram[..]), CountedOpcode(h))
      ensures contexts == old(contexts) + 1 && miscounted == old(miscounted) + Delta(h).Total() - 1
    {
      var dc, dac, du, dm := definedByDefineClass, definedByDefineAnonymousClass, definedByUnknown, definedMissing;
      ghost var hist0 := histogram[..];
      ghost var before := Outcomes();
      var attribution, records := CountEvent(h);
      // The sanity check of the counters before and after the event.
      var sumBefore := dm + du + dc + dac;
      var sumAfter := definedMissing + definedByUnknown + definedByDefineClass + definedByDefineAnonymousClass;
      ctx := Context(attribution, records, sumBefore + 1 != sumAfter);
      SanityCheckPassesIff(h);
      OpcodeOnlyForUnknownTop(h);
      if CountedOpcode(h).Some? {
        BumpSum(hist0, CountedOpcode(h).value as nat);
      }
      assert Outcomes().Total() == before.Total() + Delta(h).Total();
      contexts := contexts + 1;
      miscounted := miscounted + Delta(h).Total() - 1;
    }

    /** The counting part of write_exec_context: a failed GetStackTrace, or the walk over the frames. */
    method CountEvent(h: Host) returns (attribution: Attribution, records: seq<FrameRecord>)
      requires histogram.Length == 256 && OpcodeInBounds(h)
      modifies this`definedByDefineClass, this`definedByDefineAnonymousClass, this`definedByUnknown,
        this`definedMissing, histogram
      ensures attribution == Attribute(h) && records == Records(h, |Frames(h)|)
      ensures Outcomes() == Plus(old(Outcomes()), Delta(h))
      ensures histogram[..] == Bump(old(histogram[..]), CountedOpcode(h))
    {
      if h.stack.StackError? {
        attribution, records := StackReadError, [];
        definedByUnknown := definedByUnknown + 1;
      } else {
        attribution, records := WalkFrames(h);
      }
    }

    /**
     * The state after write_exec_context's loop has visited the first i frames,
     * from counters c0 and histogram hist0.
     */
    ghost predicate Walked(h: Host, i: nat, c0: Counts, hist0: seq<nat>, attribution: Attribution,
                           readBytecode: bool, records: seq<FrameRecord>)
      requires OpcodeInBounds(h) && |hist0| == 256
      reads this, histogram
    {
      var fs := Frames(h);
      && i <= |fs| && histogram.Length == 256
      && definedByUnknown == c0.unknown + NameFailures(fs[..i])
      && (i == 0 ==> !readBytecode)
      && (i == 0 ==> definedByDefineClass == c0.defineClass && definedByDefineAnonymousClass == c0.defineAnonymousClass
                     && definedMissing == c0.missing)
      && (i > 0 ==> attribution == Classify(fs[0]))
      && (i > 0 ==> definedByDefineClass == c0.defineClass + (if Classify(fs[0]) == DefineClass then 1 else 0))
      && (i > 0 ==> definedByDefineAnonymousClass
                    == c0.defineAnonymousClass + (if Classify(fs[0]) == DefineAnonymousClass then 1 else 0))
      && (i > 0 ==> definedMissing == c0.missing + (if RequestsOpcode(Classify(fs[0])) then 1 else 0))
      && (readBytecode <==> i > 0 && FlagBefore(h, i))
      && histogram[..] == (if ReadIndex(h).Some? && ReadIndex(h).value < i then Bump(hist0, CountedOpcode(h)) else hist0)
      && records == Records(h, i)
    }

    /** The loop of write_exec_context over the frames GetStackTrace returned. */
    method WalkFrames(h: Host) returns (attribution: Attribution, records: seq<FrameRecord>)
      requires h.stack.Stack? && histogram.Length == 256 && OpcodeInBounds(h)
      modifies this`definedByDefineClass, this`definedByDefineAnonymousClass, this`definedByUnknown,
        this`definedMissing, histogram
      ensures attribution == Attribute(h) && records == Records(h, |Frames(h)|)
      ensures Outcomes() == Plus(old(Outcomes()), Delta(h))
      ensures histogram[..] == Bump(old(histogram[..]), CountedOpcode(h))
    {
      ghost var c0 := Outcomes();
      ghost var hist0 := histogram[..];
      var fs := Visible(h.stack.frames, MaxFrameCount);
      assert fs == Frames(h);
      attribution := StackReadError;
      records := [];
      var readBytecode := false;
      var i := 0;
      assert fs[..0] == [];
      while i < |fs|
        invariant Walked(h, i, c0, hist0, attribution, readBytecode, records)
      {
        attribution, readBytecode, records := VisitFrame(h, i, c0, hist0, attribution, readBytecode, records);
        i := i + 1;
      }
      assert fs[..|fs|] == fs;
      if |fs| == 0 {
        attribution := EmptyStack;
        definedByUnknown := definedByUnknown + 1;
      }
    }

    /** One iteration of write_exec_context's loop: frame i. */
    method VisitFrame(h: Host, i: nat, ghost c0: Counts, ghost hist0: seq<nat>, attribution: Attribution,
                      readBytecode: bool, records: seq<FrameRecord>)
      returns (attribution': Attribution, readBytecode': bool, records': seq<FrameRecord>)
      requires OpcodeInBounds(h) && |hist0| == 256 && h.stack.Stack? && i < |Frames(h)|
      requires Walked(h, i, c0, hist0, attribution, readBytecode, records)
      modifies this`definedByDefineClass, this`definedByDefineAnonymousClass, this`definedByUnknown,
        this`definedMissing, histogram
      ensures Walked(h, i + 1, c0, hist0, attribution', readBytecode', records')
    {
      if Frames(h)[i].name.None? {
        attribution', readBytecode', records' := VisitUnnamedFrame(h, i, c0, hist0, attribution, readBytecode, records);
      } else {
        attribution', readBytecode', records' := VisitNamedFrame(h, i, c0, hist0, attribution, readBytecode, records);
      }
    }

    /** Frame i without a method name: GetMethodName failed and counts as unknown. */
    method VisitUnnamedFrame(h: Host, i: nat, ghost c0: Counts, ghost hist0: seq<nat>, attribution: Attribution,
                             readBytecode: bool, records: seq<FrameRecord>)
      returns (attribution': Attribution, readBytecode': bool, records': seq<FrameRecord>)
      requires OpcodeInBounds(h) && |hist0| == 256 && h.stack.Stack? && i < |Frames(h)| && Frames(h)[i].name.None?
      requires Walked(h, i, c0, hist0, attribution, readBytecode, records)
      modifies this`definedByUnknown
      ensures Walked(h, i + 1, c0, hist0, attribution', readBytecode', records')
    {
      var fs := Frames(h);
      var f := fs[i];
      assert fs[..i + 1] == fs[..i] + [f];
      FlagStep(h, i);
      definedByUnknown := definedByUnknown + 1;
      attribution', readBytecode', records' := attribution, readBytecode, records;
      if i == 0 {
        attribution' := Classify(f);
      }
    }

    /** Frame i with a method name: frame 0 is classified, and every such frame's location printed. */
    method VisitNamedFrame(h: Host, i: nat, ghost c0: Counts, ghost hist0: seq<nat>, attribution: Attribution,
                           readBytecode: bool, records: seq<FrameRecord>)
      returns (attribution': Attribution, readBytecode': bool, records': seq<FrameRecord>)
      requires OpcodeInBounds(h) && |hist0| == 256 && h.stack.Stack? && i < |Frames(h)| && Frames(h)[i].name.Some?
      requires Walked(h, i, c0, hist0, attribution, readBytecode, records)
      modifies this`definedByDefineClass, this`definedByDefineAnonymousClass, this`definedMissing, histogram
      ensures Walked(h, i + 1, c0, hist0, attribution', readBytecode', records')
    {
      var fs := Frames(h);
      var f := fs[i];
      assert fs[..i + 1] == fs[..i] + [f];
      FlagStep(h, i);
      attribution', readBytecode', records' := attribution, readBytecode, records;
      if i == 0 {
        attribution', readBytecode' := CountTop(f);
      }
      var report;
      report, readBytecode' := PrintLocation(f, h.format, readBytecode');
      records' := records' + [FrameRecord(i, f.name.value, f.signature, report)];
    }

    /** The classification of frame 0 in write_exec_context, with its counter. */
    method CountTop(f: Frame) returns (attribution: Attribution, readBytecode: bool)
      requires f.name.Some?
      modifies this`definedByDefineClass, this`definedByDefineAnonymousClass, this`definedMissing
      ensures attribution == Classify(f) && readBytecode == RequestsOpcode(attribution)
      ensures definedByDefineClass == old(definedByDefineClass) + (if attribution == DefineClass then 1 else 0)
      ensures definedByDefineAnonymousClass == old(definedByDefineAnonymousClass) + (if attribution == DefineAnonymousClass then 1 else 0)
      ensures definedMissing == old(definedMissing) + (if readBytecode then 1 else 0)
    {
      readBytecode := false;
      if f.signature.None? {
        attribution := UnnamedTopMethod;
        definedMissing := definedMissing + 1;
        readBytecode := true;
      } else if f.name.value == "defineClass1" {
        attribution := DefineClass;
        definedByDefineClass := definedByDefineClass + 1;
      } else if f.name.value == "defineAnonymousClass" {
        attribution := DefineAnonymousClass;
        definedByDefineAnonymousClass := definedByDefineAnonymousClass + 1;
      } else {
        attribution := UnknownTopMethod;
        definedMissing := definedMissing + 1;
        readBytecode := true;
      }
    }

    /** record_class: creates the directory, writes the class file, then the context. */
    method RecordClass(className: string, base: string, outDir: string, payload: seq<byte>, h: Host)
      returns (written: WriteResult, ctx: Context)
      requires Stats() && OpcodeInBounds(h)
      modifies this`files, this`dirs, this`definedByDefineClass, this`definedByDefineAnonymousClass,
        this`definedByUnknown, this`definedMissing, this`contexts, this`miscounted, histogram
      ensures Stats()
      ensures dirs == old(dirs) + {outDir}
      ensures written == WriteOutcome(old(files), ClassFilePath(base, className), payload)
      ensures files == AfterWrite(old(files), ClassFilePath(base, className), payload)
      ensures ctx == ContextOf(h)
      ensures Outcomes() == Plus(old(Outcomes()), Delta(h))
      ensures histogram[..] == Bump(old(histogram[..]), CountedOpcode(h))
      ensures contexts == old(contexts) + 1 && miscounted == old(miscounted) + Delta(h).Total() - 1
    {
      dirs := dirs + {outDir};
      written := WriteClass(className, base, payload);
      ctx := WriteExecContext(h);
    }

    /**
     * What ClassFileLoadHook leaves behind once it sent an event along `route`,
     * given the files, directories, histogram, outcome counters and ignored
     * count before it.
     */
    ghost predicate RoutedAs(route: Route, outcome: HookOutcome, loaderHash: int32, payload: seq<byte>, h: Host,
                             files0: FileSystem, dirs0: set<string>, hist0: seq<nat>, counts0: Counts, ignored0: nat)
      requires OpcodeInBounds(h) && |hist0| == 256
      reads this, histogram
    {
      match route
      case Abort =>
        && outcome == Aborted && exited
        && files == files0 && dirs == dirs0 && histogram[..] == hist0
        && Outcomes() == counts0 && definedButIgnored == ignored0
      case Ignore =>
        && outcome == Ignored && !exited && definedButIgnored == ignored0 + 1
        && files == files0 && dirs == dirs0 && histogram[..] == hist0
        && Outcomes() == counts0
      case Capture(className, outDir) =>
        && !exited && definedButIgnored == ignored0
        && outcome == Recorded(className, outDir,
             WriteOutcome(files0, ClassFilePath(BaseDir(loaderHash), className), payload), ContextOf(h))
        && files == AfterWrite(files0, ClassFilePath(BaseDir(loaderHash), className), payload)
        && dirs == dirs0 + {outDir}
        && Outcomes() == Plus(counts0, Delta(h))
        && histogram[..] == Bump(hist0, CountedOpcode(h))
    }

    /**
     * ClassFileLoadHook: counts the event, aborts on a redefinition, names an
     * anonymous class, drops a built-in one, and records every other.
     */
    method ClassFileLoadHook(redefining: bool, loaderHash: int32, name: Option<string>, payload: seq<byte>, h: Host)
      returns (outcome: HookOutcome)
      requires Valid() && !exited && OpcodeInBounds(h)
      modifies this, histogram
      ensures Valid()
      ensures definedSum == old(definedSum) + 1
      ensures anonymousClassCounter == old(anonymousClassCounter) + (if !redefining && name.None? then 1 else 0)
      ensures RoutedAs(RouteOf(redefining, loaderHash, name, old(anonymousClassCounter)), outcome, loaderHash, payload, h,
        old(files), old(dirs), old(histogram[..]), old(Outcomes()), old(definedButIgnored))
    {
      definedSum := definedSum + 1;
      if redefining {
        // class redefinition is refused
        exited := true;
        return Aborted;
      }
      if name.None? {
        outcome := HookAnonymous(loaderHash, payload, h);
      } else {
        outcome := HookNamed(name.value, loaderHash, payload, h);
      }
    }

    /** Valid() once the event is counted in definedSum, before it is routed. */
    ghost predicate Counted()
      reads this, histogram
    {
      Stats() && anonymousClassCounter >= 0 && !exited && definedSum == definedButIgnored + contexts + 1
    }

    /** The hook for an anonymous class: numbered by the counter, then recorded unless the name overflows. */
    method HookAnonymous(loaderHash: int32, payload: seq<byte>, h: Host) returns (outcome: HookOutcome)
      requires Counted() && OpcodeInBounds(h)
      modifies this`anonymousClassCounter, this`exited, this`files, this`dirs, this`definedByDefineClass,
        this`definedByDefineAnonymousClass, this`definedByUnknown, this`definedMissing, this`contexts,
        this`miscounted, histogram
      ensures Valid()
      ensures anonymousClassCounter == old(anonymousClassCounter) + 1
      ensures RoutedAs(RouteOf(false, loaderHash, None, old(anonymousClassCounter)), outcome, loaderHash, payload, h,
        old(files), old(dirs), old(histogram[..]), old(Outcomes()), old(definedButIgnored))
    {
      ghost var route := RouteOf(false, loaderHash, None, anonymousClassCounter);
      var base := BaseDir(loaderHash);
      anonymousClassCounter := anonymousClassCounter + 1;
      var anonName := AnonPrefix + IntToDecimal(anonymousClassCounter);
      if |anonName| >= AnonNameBufferLen {
        assert route == Abort;
        exited := true;
        return Aborted;
      }
      assert route == Capture(anonName, base);
      var written, ctx := RecordClass(anonName, base, base, payload, h);
      outcome := Recorded(anonName, base, written, ctx);
    }

    /** The hook for a named class: built-in ones are ignored, every other one recorded in its package directory. */
    method HookNamed(n: string, loaderHash: int32, payload: seq<byte>, h: Host) returns (outcome: HookOutcome)
      requires Counted() && OpcodeInBounds(h)
      modifies this`definedButIgnored, this`files, this`dirs, this`definedByDefineClass,
        this`definedByDefineAnonymousClass, this`definedByUnknown, this`definedMissing, this`contexts,
        this`miscounted, histogram
      ensures Valid()
      ensures RoutedAs(RouteOf(false, loaderHash, Some(n), old(anonymousClassCounter)), outcome, loaderHash, payload, h,
        old(files), old(dirs), old(histogram[..]), old(Outcomes()), old(definedButIgnored))
    {
      var base := BaseDir(loaderHash);
      if IsBuiltIn(n) {
        definedButIgnored := definedButIgnored + 1;
        return Ignored;
      }
      var outDir := base;
      var lastSlash := LastIndexOf(n, '/');
      if lastSlash.Some? {
        outDir := Snprintf(base + "/" + n[..lastSlash.value], BaseDirBufferLen + lastSlash.value + 2);
      }
      assert RouteOf(false, loaderHash, Some(n), anonymousClassCounter) == Capture(n, outDir);
      var written, ctx := RecordClass(n, base, outDir, payload, h);
      outcome := Recorded(n, outDir, written, ctx);
    }

    /**
     * The figures of Agent_OnUnload, with the histogram walk and the uncounted
     * residual; the frequency lines carry the corrected Mnemonic.
     */
    method Unload() returns (s: Summary)
      requires Valid()
      ensures s.defined == definedSum && s.ignored == definedButIgnored && s.missing == definedMissing
      ensures s.unknown == definedByUnknown && s.byDefineClass == definedByDefineClass
      ensures s.byDefineAnonymousClass == definedByDefineAnonymousClass
      ensures s.frequencies == Frequencies(histogram[..], 256)
      ensures s.bytecodesSum == HistogramSum(histogram[..]) && s.bytecodesSum <= definedMissing
      ensures s.uncounted == (if exited then 1 else 0) - miscounted
    {
      var bytecodesSum := 0;
      var lines: seq<FrequencyLine> := [];
      var count := 1;
      var i := 0;
      while i < 256
        invariant 0 <= i <= 256
        invariant lines == Frequencies(histogram[..], i) && count == |lines| + 1
        invariant bytecodesSum == HistogramSum(histogram[..i])
      {
        assert histogram[..i + 1][..i] == histogram[..i];
        if histogram[i] != 0 {
          lines := lines + [FrequencyLine(count, i as byte, Mnemonic(i as byte), histogram[i])];
          count := count + 1;
          bytecodesSum := bytecodesSum + histogram[i];
        }
        i := i + 1;
      }
      assert histogram[..256] == histogram[..];
      var uncounted := definedSum as int - (definedButIgnored + definedByUnknown + definedByDefineClass
        + definedByDefineAnonymousClass + definedMissing);
      s := Summary(definedSum, definedButIgnored, definedByUnknown, definedByDefineClass,
        definedByDefineAnonymousClass, definedMissing, lines, bytecodesSum, uncounted);
    }
  }
}
