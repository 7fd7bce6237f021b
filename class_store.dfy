/**
 * write_class of the C++ agent: the outcome of storing a class file in a
 * file system modelled as a map from path to contents. An existing file is
 * compared with the payload and never modified.
 */
module ClassStore {
  import opened Wrappers
  import opened CText

  type FileSystem = map<string, seq<byte>>

  /** The three return codes of write_class; code 2 comes with its diagnostic. */
  datatype WriteResult =
    | Written                                          // 0: the file was created
    | AlreadySaved                                     // 1: same bytes already there
    | SizeConflict(existingSize: nat, payloadSize: nat)  // 2: a different size
    | ContentConflict(position: nat)                   // 2: first differing byte
  {
    function Code(): int {
      match this
      case Written => 0
      case AlreadySaved => 1
      case SizeConflict(_, _) => 2
      case ContentConflict(_) => 2
    }
  }

  /** The first position at which two contents of equal length differ. */
  function FirstDifference(a: seq<byte>, b: seq<byte>): (r: Option<nat>)
    requires |a| == |b|
    ensures r.None? <==> a == b
    ensures r.Some? ==> r.value < |a| && a[r.value] != b[r.value] && a[..r.value] == b[..r.value]
  {
    if |a| == 0 then None
    else if a[0] != b[0] then Some(0)
    else match FirstDifference(a[1..], b[1..])
      case None => assert a == [a[0]] + a[1..] && b == [b[0]] + b[1..]; None
      case Some(k) =>
        assert a[..k + 1] == [a[0]] + a[1..][..k] && b[..k + 1] == [b[0]] + b[1..][..k];
        Some(k + 1)
  }

  /** The value a byte has once read into a `char`, which is signed on x86. */
  function SignedChar(b: byte): int {
    if b < 128 then b as int else b as int - 256
  }

  /**
   * The comparison loop of write_class as written: the existing file is read
   * into `char` and compared with the `unsigned char` payload.
   */
  function FirstDifferenceAsWritten(existing: seq<byte>, payload: seq<byte>): (r: Option<nat>)
    requires |existing| == |payload|
    ensures r.None? <==> forall i :: 0 <= i < |existing| ==> existing[i] == payload[i] && existing[i] < 128
    ensures r.Some? ==> r.value < |existing| && (existing[r.value] != payload[r.value] || existing[r.value] >= 128)
    ensures r.Some? ==> forall i :: 0 <= i < r.value ==> existing[i] == payload[i] && existing[i] < 128
  {
    if |existing| == 0 then None
    else if SignedChar(existing[0]) != payload[0] as int then Some(0)
    else match FirstDifferenceAsWritten(existing[1..], payload[1..])
      case None => None
      case Some(k) =>
        assert forall i :: 1 <= i < k + 1 ==> existing[i] == existing[1..][i - 1] && payload[i] == payload[1..][i - 1];
        Some(k + 1)
  }

  /** The magic number every class file starts with (section 4.1 of the JVM specification, Java SE 8). */
  const ClassMagic: seq<byte> := [0xCA, 0xFE, 0xBA, 0xBE]

  /** As written, a file identical to the payload is reported as differing at position 0. */
  lemma AsWrittenMissesIdenticalClassFile(rest: seq<byte>)
    ensures FirstDifferenceAsWritten(ClassMagic + rest, ClassMagic + rest) == Some(0)
    ensures FirstDifference(ClassMagic + rest, ClassMagic + rest) == None
  {
  }

  /** On files whose every byte is below 0x80 the as-written comparison is the intended one. */
  lemma AsWrittenAgreesOnAscii(existing: seq<byte>, payload: seq<byte>)
    requires |existing| == |payload|
    requires forall i :: 0 <= i < |existing| ==> existing[i] < 128
    ensures FirstDifferenceAsWritten(existing, payload) == FirstDifference(existing, payload)
  {
  }

  /**
   * What write_class reports for a payload, given the files already on disk,
   * with the comparison corrected to compare bytes. The comparison as written
   * is FirstDifferenceAsWritten, which reports every class file that is
   * already there as differing at position 0.
   */
  function WriteOutcome(files: FileSystem, path: string, payload: seq<byte>): WriteResult {
    if path !in files then Written
    else if |files[path]| != |payload| then SizeConflict(|files[path]|, |payload|)
    else match FirstDifference(files[path], payload)
      case None => AlreadySaved
      case Some(k) => ContentConflict(k)
  }

  /** The files after write_class: the payload is stored only where no file existed. */
  function AfterWrite(files: FileSystem, path: string, payload: seq<byte>): (r: FileSystem)
    ensures files.Keys <= r.Keys && r.Keys == files.Keys + {path}
    ensures forall p :: p in files ==> r[p] == files[p]
    ensures path !in files ==> r[path] == payload
  {
    if path in files then files else files[path := payload]
  }

  /** Afterwards the file holds exactly the payload iff the outcome is Written or AlreadySaved. */
  lemma {:induction false} StoredIffNoConflict(files: FileSystem, path: string, payload: seq<byte>)
    ensures AfterWrite(files, path, payload)[path] == payload
      <==> WriteOutcome(files, path, payload) in {Written, AlreadySaved}
    ensures WriteOutcome(files, path, payload).Code() == 2
      <==> path in files && files[path] != payload
  {
  }

  /** The same event twice: the second finds the same bytes and changes nothing. */
  lemma RepeatedEventIsAlreadySaved(files: FileSystem, path: string, payload: seq<byte>)
    requires WriteOutcome(files, path, payload).Code() != 2
    ensures WriteOutcome(AfterWrite(files, path, payload), path, payload) == AlreadySaved
    ensures AfterWrite(AfterWrite(files, path, payload), path, payload) == AfterWrite(files, path, payload)
  {
  }

  /** Two payloads of the same length under one path: the conflict names the first differing byte. */
  lemma SameSizeConflictPosition(files: FileSystem, path: string, payload: seq<byte>)
    requires path in files && |files[path]| == |payload| && files[path] != payload
    ensures WriteOutcome(files, path, payload).ContentConflict?
    ensures var k := WriteOutcome(files, path, payload).position;
      k < |payload| && files[path][k] != payload[k] && files[path][..k] == payload[..k]
  {
  }

  /**
   * The comparison loop of write_class (corrected to compare bytes): -1 when
   * the contents agree, otherwise the first differing position.
   */
  method CompareContents(existing: seq<byte>, payload: seq<byte>) returns (differentPos: int)
    requires |existing| == |payload|
    ensures differentPos == -1 <==> existing == payload
    ensures differentPos != -1 ==>
      && 0 <= differentPos < |payload|
      && existing[differentPos] != payload[differentPos]
      && existing[..differentPos] == payload[..differentPos]
  {
    differentPos := -1;
    var pos := 0;
    while pos < |payload|
      invariant 0 <= pos <= |payload|
      invariant existing[..pos] == payload[..pos]
    {
      if existing[pos] != payload[pos] {
        differentPos := pos;
        break;
      }
      assert existing[..pos + 1] == existing[..pos] + [existing[pos]];
      assert payload[..pos + 1] == payload[..pos] + [payload[pos]];
      pos := pos + 1;
    }
    assert differentPos == -1 ==> existing == existing[..|payload|];
  }
}
