/**
 * What write_exec_context computes from the host's answers: the attribution
 * of the event to frame 0, the change to the four outcome counters, the one
 * opcode it may read, and the report for each frame. The JVMTI queries
 * (GetStackTrace, GetMethodName, GetJLocationFormat, GetLineNumberTable,
 * GetBytecodes) are supplied as data.
 */
module ExecContext {
  import opened Wrappers
  import opened CText
  import opened LineNumbers

  /** One frame of the stack with the host's answers about its method. */
  datatype Frame = Frame(
    name: Option<string>,               // GetMethodName's name; None when the call fails
    signature: Option<string>,          // the signature it returns; None for NULL
    location: int,                      // the jlocation; -1 marks a native method
    lineTable: Option<seq<LineEntry>>,  // GetLineNumberTable; None when it fails
    bytecodes: Option<seq<byte>>)       // GetBytecodes; None when it fails

  /** GetStackTrace's answer: an error, or the whole stack, innermost frame first. */
  datatype StackTrace = StackError | Stack(frames: seq<Frame>)

  /** GetJLocationFormat's answer, the same for every frame of the VM. */
  datatype LocationFormat = FormatError | JvmBci | OtherFormat

  datatype Host = Host(stack: StackTrace, format: LocationFormat)

  /** The C++ agent asks GetStackTrace for at most this many frames. */
  const MaxFrameCount: nat := 47

  /** The frames GetStackTrace returns when asked for at most `max`. */
  function Visible(frames: seq<Frame>, max: nat): (r: seq<Frame>)
    ensures |r| <= max && r <= frames
    ensures |frames| <= max ==> r == frames
  {
    if |frames| <= max then frames else frames[..max]
  }

  function Frames(h: Host): seq<Frame> {
    match h.stack
    case StackError => []
    case Stack(all) => Visible(all, MaxFrameCount)
  }

  /** How an event is attributed, from frame 0 only. */
  datatype Attribution =
    | StackReadError          // GetStackTrace failed
    | EmptyStack              // no frames
    | TopNameError            // GetMethodName failed on frame 0
    | DefineClass             // frame 0 is defineClass1
    | DefineAnonymousClass    // frame 0 is defineAnonymousClass
    | UnknownTopMethod        // frame 0 is some other named method
    | UnnamedTopMethod        // frame 0 has no signature

  /** The classification of frame 0 (the signature is examined before the name). */
  function Classify(f: Frame): Attribution {
    match f.name
    case None => TopNameError
    case Some(n) =>
      if f.signature.None? then UnnamedTopMethod
      else if n == "defineClass1" then DefineClass
      else if n == "defineAnonymousClass" then DefineAnonymousClass
      else UnknownTopMethod
  }

  function Attribute(h: Host): Attribution {
    match h.stack
    case StackError => StackReadError
    case Stack(_) => if |Frames(h)| == 0 then EmptyStack else Classify(Frames(h)[0])
  }

  /** The attributions that set read_bytecode. */
  predicate RequestsOpcode(a: Attribution) {
    a == UnknownTopMethod || a == UnnamedTopMethod
  }

  /** Increments of defined_by_defineClass, defined_by_defineAnonymousClass, defined_by_unknown, defined_missing. */
  datatype Counts = Counts(defineClass: nat, defineAnonymousClass: nat, unknown: nat, missing: nat) {
    function Total(): nat {
      defineClass + defineAnonymousClass + unknown + missing
    }
  }

  /** The number of frames on which GetMethodName fails. */
  function NameFailures(fs: seq<Frame>): nat {
    if |fs| == 0 then 0
    else NameFailures(fs[..|fs| - 1]) + (if fs[|fs| - 1].name.None? then 1 else 0)
  }

  /** How much one event adds to each outcome counter. */
  function Delta(h: Host): Counts {
    var a := Attribute(h);
    if a == StackReadError || a == EmptyStack then Counts(0, 0, 1, 0)
    else Counts(
      if a == DefineClass then 1 else 0,
      if a == DefineAnonymousClass then 1 else 0,
      NameFailures(Frames(h)),
      if RequestsOpcode(a) then 1 else 0)
  }

  /** The first frame from `lo` on whose name resolves and that is not native. */
  function FirstLocated(fs: seq<Frame>, lo: nat): (k: nat)
    requires lo <= |fs|
    ensures lo <= k <= |fs|
    ensures k < |fs| ==> fs[k].name.Some? && fs[k].location != -1
    ensures forall i :: lo <= i < k ==> fs[i].name.None? || fs[i].location == -1
    decreases |fs| - lo
  {
    if lo == |fs| then lo
    else if fs[lo].name.Some? && fs[lo].location != -1 then lo
    else FirstLocated(fs, lo + 1)
  }

  /**
   * The frame whose opcode is read: the flag set on frame 0 is consumed by
   * the first later frame (frame 0 included) that resolves and is not native,
   * provided the VM reports bytecode-index locations.
   */
  function ReadIndex(h: Host): Option<nat> {
    var fs := Frames(h);
    if RequestsOpcode(Attribute(h)) && h.format == JvmBci && FirstLocated(fs, 0) < |fs|
    then Some(FirstLocated(fs, 0)) else None
  }

  /** The read of the frame's bytecode array at its location is in bounds (the source does not check). */
  predicate ReadableAt(f: Frame) {
    f.bytecodes.Some? ==> 0 <= f.location < |f.bytecodes.value|
  }

  predicate OpcodeInBounds(h: Host) {
    match ReadIndex(h)
    case None => true
    case Some(k) => ReadableAt(Frames(h)[k])
  }

  /** The one opcode added to the histogram, if any. */
  function CountedOpcode(h: Host): Option<byte>
    requires OpcodeInBounds(h)
  {
    match ReadIndex(h)
    case None => None
    case Some(k) =>
      var f := Frames(h)[k];
      match f.bytecodes
      case Some(bc) => Some(bc[f.location])
      case None => None
  }

  datatype BytecodeRead = ReadOpcode(op: byte) | BytecodeError

  datatype LineResult = Candidate(line: int) | Undetermined | LineTableError

  /** What print_location reports for a frame. */
  datatype LocationReport =
    | NativeMethod
    | LocationError
    | UnsupportedLocation
    | AtBytecode(position: int, read: Option<BytecodeRead>, line: LineResult)

  function LineAt(f: Frame): LineResult {
    match f.lineTable
    case None => LineTableError
    case Some(t) =>
      match CandidateLine(t, f.location)
      case Some(l) => Candidate(l)
      case None => Undetermined
  }

  /** True when print_location, called with the flag set, reads this frame's bytecode. */
  predicate ConsumesFlag(f: Frame, format: LocationFormat) {
    f.location != -1 && format == JvmBci
  }

  function LocationAt(f: Frame, format: LocationFormat, reading: bool): LocationReport
    requires reading && ConsumesFlag(f, format) ==> ReadableAt(f)
  {
    if f.location == -1 then NativeMethod
    else if format == FormatError then LocationError
    else if format == OtherFormat then UnsupportedLocation
    else
      var read :=
        if !reading then None
        else match f.bytecodes
          case Some(bc) => Some(ReadOpcode(bc[f.location]))
          case None => Some(BytecodeError);
      AtBytecode(f.location, read, LineAt(f))
  }

  /** The block printed for one frame whose method name resolved. */
  datatype FrameRecord = FrameRecord(index: nat, methodName: string, signature: Option<string>, location: LocationReport)

  function RecordAt(h: Host, k: nat): FrameRecord
    requires OpcodeInBounds(h)
    requires k < |Frames(h)| && Frames(h)[k].name.Some?
  {
    var f := Frames(h)[k];
    FrameRecord(k, f.name.value, f.signature, LocationAt(f, h.format, ReadIndex(h) == Some(k)))
  }

  /** The blocks printed for the first n frames, in frame order. */
  function Records(h: Host, n: nat): seq<FrameRecord>
    requires OpcodeInBounds(h) && n <= |Frames(h)|
  {
    if n == 0 then []
    else Records(h, n - 1) + (if Frames(h)[n - 1].name.Some? then [RecordAt(h, n - 1)] else [])
  }

  /** The context one event produces. */
  datatype Context = Context(attribution: Attribution, frames: seq<FrameRecord>, statsCheckFailed: bool)

  function ContextOf(h: Host): Context
    requires OpcodeInBounds(h)
  {
    Context(Attribute(h), Records(h, |Frames(h)|), Delta(h).Total() != 1)
  }

  // ---------------------------------------------------------------------
  // Properties

  lemma {:induction false} NameFailuresBound(fs: seq<Frame>, n: nat)
    requires n <= |fs|
    ensures NameFailures(fs[..n]) <= NameFailures(fs)
    ensures NameFailures(fs) <= |fs|
    decreases |fs|
  {
    if |fs| > 0 {
      var init := fs[..|fs| - 1];
      if n < |fs| {
        assert fs[..n] == init[..n];
        NameFailuresBound(init, n);
      } else {
        assert fs[..n] == fs;
        NameFailuresBound(init, 0);
      }
    }
  }

  lemma NameFailuresOfOne(f: Frame)
    ensures NameFailures([f]) == if f.name.None? then 1 else 0
  {
    assert [f][..0] == [];
  }

  /**
   * The outcome counters rise by at least one per event, and by exactly one
   * (the sanity check passes) iff the stack is unavailable or empty, or no
   * GetMethodName fails, or the only failure is on frame 0.
   */
  lemma {:induction false} SanityCheckPassesIff(h: Host)
    ensures Delta(h).Total() >= 1
    ensures Delta(h).Total() == 1 <==>
      || h.stack.StackError?
      || |Frames(h)| == 0
      || NameFailures(Frames(h)) == 0
      || (NameFailures(Frames(h)) == 1 && Frames(h)[0].name.None?)
  {
    var fs := Frames(h);
    if h.stack.Stack? && |fs| > 0 {
      NameFailuresBound(fs, 1);
      NameFailuresOfOne(fs[0]);
      assert fs[..1] == [fs[0]];
    }
  }

  /** Exactly one of the four counters moves when frame 0 resolves and no GetMethodName fails. */
  lemma {:induction false} OneBucketPerEvent(h: Host)
    requires h.stack.Stack? && |Frames(h)| > 0 && NameFailures(Frames(h)) == 0
    ensures Attribute(h) in {DefineClass, DefineAnonymousClass, UnknownTopMethod, UnnamedTopMethod}
    ensures Delta(h) == Counts(
      if Attribute(h) == DefineClass then 1 else 0,
      if Attribute(h) == DefineAnonymousClass then 1 else 0,
      0,
      if RequestsOpcode(Attribute(h)) then 1 else 0)
    ensures Delta(h).Total() == 1
  {
    var fs := Frames(h);
    NameFailuresBound(fs, 1);
    NameFailuresOfOne(fs[0]);
    assert fs[..1] == [fs[0]];
  }

  /** An opcode is counted only for an unknown or unnamed frame 0, never for the known generators. */
  lemma OpcodeOnlyForUnknownTop(h: Host)
    requires OpcodeInBounds(h)
    ensures CountedOpcode(h).Some? ==> RequestsOpcode(Attribute(h)) && Delta(h).missing == 1
    ensures Attribute(h) in {DefineClass, DefineAnonymousClass} ==> ReadIndex(h).None?
  {
  }

  /** Each frame whose name resolves gets one block; the failed ones are skipped. */
  lemma {:induction false} RecordsAreFramesThatResolve(h: Host, n: nat)
    requires OpcodeInBounds(h) && n <= |Frames(h)|
    ensures |Records(h, n)| == n - NameFailures(Frames(h)[..n])
    ensures forall r :: r in Records(h, n) ==> r.index < n && Frames(h)[r.index].name == Some(r.methodName)
    decreases n
  {
    if n > 0 {
      RecordsAreFramesThatResolve(h, n - 1);
      var fs := Frames(h);
      assert fs[..n][..n - 1] == fs[..n - 1];
    }
  }

  /** The blocks come in frame order. */
  lemma {:induction false} RecordsInFrameOrder(h: Host, n: nat)
    requires OpcodeInBounds(h) && n <= |Frames(h)|
    ensures forall a, b :: 0 <= a < b < |Records(h, n)| ==> Records(h, n)[a].index < Records(h, n)[b].index
    decreases n
  {
    if n > 0 {
      RecordsInFrameOrder(h, n - 1);
      var prev := Records(h, n - 1);
      if Frames(h)[n - 1].name.Some? {
        RecordsAreFramesThatResolve(h, n - 1);
        assert Records(h, n) == prev + [RecordAt(h, n - 1)];
        forall a, b | 0 <= a < b < |prev| + 1
          ensures Records(h, n)[a].index < Records(h, n)[b].index
        {
          assert Records(h, n)[a] == prev[a] && prev[a] in prev;
          if b < |prev| {
            assert Records(h, n)[b] == prev[b];
          }
        }
      }
    }
  }

  /** Every frame whose name resolves has its block among them. */
  lemma {:induction false} RecordsComplete(h: Host, n: nat)
    requires OpcodeInBounds(h) && n <= |Frames(h)|
    ensures forall k :: 0 <= k < n && Frames(h)[k].name.Some? ==> RecordAt(h, k) in Records(h, n)
    decreases n
  {
    if n > 0 {
      RecordsComplete(h, n - 1);
      var prev := Records(h, n - 1);
      if Frames(h)[n - 1].name.Some? {
        assert Records(h, n) == prev + [RecordAt(h, n - 1)];
      }
    }
  }

  /** The number of blocks that report a bytecode read. */
  function ReadCount(rs: seq<FrameRecord>): nat {
    if |rs| == 0 then 0
    else ReadCount(rs[..|rs| - 1]) + (if ReportsRead(rs[|rs| - 1]) then 1 else 0)
  }

  predicate ReportsRead(r: FrameRecord) {
    r.location.AtBytecode? && r.location.read.Some?
  }

  lemma ReadCountAppend(rs: seq<FrameRecord>, r: FrameRecord)
    ensures ReadCount(rs + [r]) == ReadCount(rs) + if ReportsRead(r) then 1 else 0
  {
    assert (rs + [r])[..|rs|] == rs;
  }

  /** The block of frame k reports a read exactly when ReadIndex names frame k. */
  lemma RecordReadsIff(h: Host, k: nat)
    requires OpcodeInBounds(h) && k < |Frames(h)| && Frames(h)[k].name.Some?
    ensures ReportsRead(RecordAt(h, k)) <==> ReadIndex(h) == Some(k)
  {
    if ReadIndex(h) == Some(k) {
      assert ConsumesFlag(Frames(h)[k], h.format);
    }
  }

  /** At most one frame per event reads a bytecode, and one does iff ReadIndex names it. */
  lemma {:induction false} AtMostOneRead(h: Host, n: nat)
    requires OpcodeInBounds(h) && n <= |Frames(h)|
    ensures ReadCount(Records(h, n)) == if ReadIndex(h).Some? && ReadIndex(h).value < n then 1 else 0
    decreases n
  {
    if n > 0 {
      AtMostOneRead(h, n - 1);
      var rs := Records(h, n - 1);
      var fs := Frames(h);
      if fs[n - 1].name.Some? {
        ReadCountAppend(rs, RecordAt(h, n - 1));
        RecordReadsIff(h, n - 1);
      } else {
        assert Records(h, n) == rs;
        assert ReadIndex(h) != Some(n - 1);
      }
    }
  }

  /** A native frame 0 leaves the flag set: the next resolving, non-native frame's opcode is the one counted. */
  lemma NativeTopDefersRead(top: Frame, caller: Frame)
    requires top.name.Some? && top.signature.Some? && top.location == -1
    requires top.name.value != "defineClass1" && top.name.value != "defineAnonymousClass"
    requires caller.name.Some? && caller.location >= 0
    requires caller.bytecodes.Some? && caller.location < |caller.bytecodes.value|
    ensures var h := Host(Stack([top, caller]), JvmBci);
      OpcodeInBounds(h) && ReadIndex(h) == Some(1) &&
      CountedOpcode(h) == Some(caller.bytecodes.value[caller.location])
  {
    var h := Host(Stack([top, caller]), JvmBci);
    assert Frames(h) == [top, caller];
    assert FirstLocated([top, caller], 0) == 1;
  }

  /** The flag is consumed even when GetBytecodes fails: the event then counts no opcode at all. */
  lemma FailedReadCountsNothing(h: Host)
    requires OpcodeInBounds(h) && ReadIndex(h).Some?
    requires Frames(h)[ReadIndex(h).value].bytecodes.None?
    ensures CountedOpcode(h).None?
    ensures RecordAt(h, ReadIndex(h).value).location.read == Some(BytecodeError)
  {
  }
}
