# bccapture in Dafny

bccapture is a JVMTI agent that hooks class loading in a Java VM. It saves the
bytecode of every class the VM defines, except the built-in ones (names
starting with `java/`, `javax/`, `com/sun`, `sun/` or `jdk/`): a named class
under `out/<loader hash>/<package>/`, an anonymous one, named
`AnonGeneratedClass_<n>`, directly under `out/<loader hash>/`.
It records the execution context of each load next to that file: the stack
frames, the frame-0 method that caused the load and, for unknown callers, the
opcode at the call site. It keeps counters that attribute each load to
`defineClass1`, `defineAnonymousClass`, an unknown method or a failed stack
read. An earlier C agent skips the same built-in names and names anonymous classes
the same way, into a fixed `out` directory, appends files blindly and counts nothing. A Python script
scans `javap -c` output and numbers the occurrences of one instruction type in
one method.

The model keeps the decision rules and leaves out the host. Each JVMTI answer
(stack trace, method names, location format, line table, bytecodes) and the
loader's hash code is an input. The file system is a `map<string, seq<byte>>`.
Each process exit is an `Aborted` outcome that sets an `exited` flag.

Modules, in dependency order:

- `Wrappers`: `Option`.
- `CText`: C strings and integers (`starts_with`, `strrchr`, `snprintf` truncation, `%d`).
- `Paths`: the built-in filter, base and package directories, anonymous names.
- `Opcodes`: `print_bc`.
- `ClassStore`: `write_class`'s outcome as a function of the files, plus its comparison loop.
- `LineNumbers`: the candidate-line search of `print_location`.
- `ExecContext`: what `write_exec_context` computes from the host's answers.
- `Capture`: the C++ agent as a class with its counters and its 256-entry histogram array.
- `LegacyCapture`: the C agent.
- `InstrScan`: the Python scanner. Its outer loop and its inner loop over the method body are two methods, each proved against a specification function.

The line search compares strictly, as the code does: the candidate is the
line of the entry before the first entry, after one starting strictly before
the location, that starts at or after it. So a location equal to an entry's
start gets the previous entry's line (`LineNumbers.ExampleCandidates`).

## Model

| member | source | states |
|---|---|---|
| CText.StrNEqual | libBytecodeCapture.cpp:64 | `strncmp(a, b, n) == 0` holds iff the first n characters agree |
| CText.StartsWith | libBytecodeCapture.cpp:62-65 | true iff `pre` is a prefix of `str`; a shorter `str` gives false |
| CText.LastIndexOf | libBytecodeCapture.cpp:505 | `strrchr`: None iff the character is absent, else the index of its last occurrence |
| CText.DecimalRoundTrip | libBytecodeCapture.cpp:457 | `%d` of a non-negative value is a non-empty digit string that reads back as the value |
| CText.SignedDecimalRoundTrip | libBytecodeCapture.cpp:457 | `%d` of any int reads back as that int |
| CText.IntToDecimalInjective | libBytecodeCapture.cpp:457 | distinct ints print differently |
| CText.NatToDecimalInjective | libBytecodeCapture.cpp:480 | distinct non-negative values print differently |
| CText.DecimalWidth | libBytecodeCapture.cpp:455-457 | a value below 10^k prints in at most k digits |
| CText.Int32DecimalWidth | libBytecodeCapture.cpp:455-457 | a 32-bit int prints in at most 11 characters |
| Paths.IsBuiltIn | libBytecodeCapture.cpp:492 | true iff the name starts with one of `java/`, `javax/`, `com/sun`, `sun/`, `jdk/` |
| Paths.BaseDir | libBytecodeCapture.cpp:454-457 | the base directory: `out/` followed by the loader hash in decimal, as `snprintf` leaves it in its 22-byte buffer |
| Paths.PackageDir | libBytecodeCapture.cpp:503-520 | the intended package directory: the base, `/` and the part of the name before its last `/`; the base itself for a name without `/` |
| Paths.OutDir | libBytecodeCapture.cpp:503-520 | `out_dir` as the hook builds it: the package directory written through a buffer of base length + package length + 2, or the base for a name without `/` |
| Paths.FileStem | libBytecodeCapture.cpp:505-515 | the simple class name: the part after the last `/`, or the whole name |
| Paths.ClassFilePath | libBytecodeCapture.cpp:91-93 | the class file path: base, `/`, the full internal name and `.class` |
| Paths.AnonName | libBytecodeCapture.cpp:478-480 | the generated name `AnonGeneratedClass_` followed by the counter in decimal |
| Paths.AnonNameFits | libBytecodeCapture.cpp:478-484 | the 40-byte length check: the generated name is shorter than 40 characters, else the hook exits |
| Paths.BaseDirExact | libBytecodeCapture.cpp:454-457 | for every 32-bit hash the base is exactly `out/<hash>` (at most 15 characters, never truncated by the 22-byte buffer) |
| Paths.BaseDirInjective | libBytecodeCapture.cpp:454-457 | different loader hashes get different base directories |
| Paths.OutDirNotTruncated | libBytecodeCapture.cpp:507-514 | with the base inside its buffer, `out_dir`'s buffer never truncates: it is base + "/" + package |
| Paths.OutDirLayout | libBytecodeCapture.cpp:503-520 | a name with a '/' gets `out/<hash>/` + the part before its last '/', with the stem after it; without one, `out/<hash>` |
| Paths.ClassFileInPackageDir | libBytecodeCapture.cpp:91-93 | the class file `<base>/<name>.class` is the stem's `.class` file inside the package directory |
| Paths.AnonNameHasNoPackage | libBytecodeCapture.cpp:480-488 | `AnonGeneratedClass_<n>` contains no '/', so it is stored directly under the base |
| Paths.AnonNameInjective | libBytecodeCapture.cpp:474-480 | distinct counter values give distinct anonymous names |
| Paths.AnonNameFitsInt32 | libBytecodeCapture.cpp:478-484 | the 40-byte length check never fails for a 32-bit counter |
| Paths.ComSunWithoutSlash | libBytecodeCapture.cpp:492 | `com/sunny/X` is filtered as built-in (no trailing slash after `com/sun`) |
| Paths.LookalikeIsCaptured | libBytecodeCapture.cpp:492 | `javafoo/X` is not built-in |
| Opcodes.TableMnemonic | libBytecodeCapture.cpp:182-198 | the fifteen opcodes `print_bc` names (18 `ldc` … 197 `multianewarray`, with the JVM's mnemonics); none for any other |
| Opcodes.Mnemonic | libBytecodeCapture.cpp:182-201 | the rendering with the default branch corrected: a table name, else `bytecode-` and the opcode in decimal |
| Opcodes.MnemonicAsWritten | libBytecodeCapture.cpp:182-201 | the rendering as written: a table name, else `bytecode-` and the opcode as one raw character |
| Opcodes.MnemonicRoundTrip | libBytecodeCapture.cpp:182-201 | every opcode's (corrected) rendering reads back as that opcode, so renderings are distinct |
| Opcodes.MnemonicAsWrittenIsRawCharacter | libBytecodeCapture.cpp:199 | as written, the default branch appends one raw character: 42 renders as `bytecode-*`, not `bytecode-42` |
| ClassStore.FirstDifference | libBytecodeCapture.cpp:116-121 | None iff the contents are equal, else the first differing position, with equal bytes before it |
| ClassStore.FirstDifferenceAsWritten | libBytecodeCapture.cpp:113-121 | the signed-`char` comparison finds no difference iff the bytes are equal and all below 0x80 |
| ClassStore.AsWrittenMissesIdenticalClassFile | libBytecodeCapture.cpp:113-121 | an existing file identical to the payload and starting with 0xCAFEBABE is reported as differing at position 0 |
| ClassStore.AsWrittenAgreesOnAscii | libBytecodeCapture.cpp:113-121 | on files whose bytes are all below 0x80, the as-written comparison equals the intended one |
| ClassStore.AfterWrite | libBytecodeCapture.cpp:95-146 | an absent path gets the payload; every existing file keeps its contents |
| ClassStore.StoredIffNoConflict | libBytecodeCapture.cpp:86-146 | afterwards the file holds the payload iff the code is 0 or 1; the code is 2 iff a file with other contents existed |
| ClassStore.RepeatedEventIsAlreadySaved | libBytecodeCapture.cpp:95-127 | after a code 0 or 1, the same write returns 1 and changes nothing |
| ClassStore.SameSizeConflictPosition | libBytecodeCapture.cpp:111-132 | equal sizes and different contents give code 2 at the first differing byte |
| ClassStore.CompareContents | libBytecodeCapture.cpp:116-121 | the comparison loop (comparing bytes) returns -1 iff the contents are equal, else the first differing position |
| ClassStore.WriteOutcome | libBytecodeCapture.cpp:86-132 | the code `write_class` returns, with bytes compared: 0 for a new file, 1 for an identical one, 2 with both sizes for a different size, 2 with the position for a different byte |
| LineNumbers.FirstBefore | libBytecodeCapture.cpp:250-253 | the first entry from `lo` that starts before the location, with none before it |
| LineNumbers.FirstAtOrAfter | libBytecodeCapture.cpp:250-254 | the first entry from `lo` that starts at or after the location, with none before it |
| LineNumbers.CandidateLine | libBytecodeCapture.cpp:249-265 | with b the first entry starting before the location and j the first entry after b starting at or after it, entry j-1's line; none when either entry is missing |
| LineNumbers.FindCandidateLine | libBytecodeCapture.cpp:249-265 | the `before`/`found` loop returns `CandidateLine` of the table and location |
| LineNumbers.CandidateBrackets | libBytecodeCapture.cpp:249-262 | a candidate is the line of an entry j-1 starting strictly before the location, where entry j starts at or after it |
| LineNumbers.SortedCandidateExists | libBytecodeCapture.cpp:249-265 | for a sorted table, a candidate exists iff the location is after the first start and at or before the last |
| LineNumbers.SortedCandidateIsLastBefore | libBytecodeCapture.cpp:249-262 | for a sorted table, the candidate is the line of the last entry starting strictly before the location |
| LineNumbers.ExampleCandidates | libBytecodeCapture.cpp:249-265 | offsets [0,5,10] on lines [1,2,3]: 7 gives 2, 5 gives 1, 0 and 12 are undetermined |
| LineNumbers.SingleEntryUndetermined | libBytecodeCapture.cpp:254-259 | a one-entry table never yields a candidate |
| ExecContext.Visible | libBytecodeCapture.cpp:308-322 | GetStackTrace with at most `max` frames returns a prefix of at most `max` frames, the whole stack if it fits |
| ExecContext.FirstLocated | libBytecodeCapture.cpp:225-243 | the first frame from `lo` whose name resolves and that is not native |
| ExecContext.Classify | libBytecodeCapture.cpp:350-366 | frame 0 by signature first: no name is a name error; no signature is an unnamed top method; `defineClass1` and `defineAnonymousClass` are the two class definers; any other name is an unknown top method |
| ExecContext.Attribute | libBytecodeCapture.cpp:316-378 | a failed GetStackTrace, an empty stack, or frame 0 classified as above |
| ExecContext.LineAt | libBytecodeCapture.cpp:245-268 | a frame's source line: an error when the line table cannot be read, else the candidate line, else undetermined |
| ExecContext.ContextOf | libBytecodeCapture.cpp:304-397 | what the context stream receives: the attribution, one block per resolving frame, and whether the statistics check fails |
| ExecContext.NameFailuresBound | libBytecodeCapture.cpp:336-338 | the failed-GetMethodName count of a prefix is at most the whole stack's, which is at most its length |
| ExecContext.NameFailuresOfOne | libBytecodeCapture.cpp:337-338 | one frame adds one failure iff its name does not resolve |
| ExecContext.SanityCheckPassesIff | libBytecodeCapture.cpp:316-388 | the four counters rise by at least 1; exactly 1 (no "stats check failed") iff the stack read fails or is empty, or no GetMethodName fails, or the one failure is on frame 0 |
| ExecContext.OneBucketPerEvent | libBytecodeCapture.cpp:350-366 | with frame 0 resolving and no failure, exactly one counter rises, the one frame 0's name and signature select |
| ExecContext.OpcodeOnlyForUnknownTop | libBytecodeCapture.cpp:350-366 | an opcode is counted only for an unknown or unnamed frame 0, in which case `defined_missing` rose; never for the two known generators |
| ExecContext.RecordsAreFramesThatResolve | libBytecodeCapture.cpp:336-371 | one frame block per frame whose name resolves, in frame order with its index and name |
| ExecContext.RecordsInFrameOrder | libBytecodeCapture.cpp:332-371 | the frame blocks appear in strictly increasing frame order |
| ExecContext.RecordsComplete | libBytecodeCapture.cpp:332-371 | every frame whose name resolves has its block |
| ExecContext.AtMostOneRead | libBytecodeCapture.cpp:240-243 | at most one frame block per event reads a bytecode, exactly the frame `ReadIndex` names |
| ExecContext.NativeTopDefersRead | libBytecodeCapture.cpp:225-243 | a native unknown frame 0 leaves the flag set, so its caller's opcode is counted |
| ExecContext.FailedReadCountsNothing | libBytecodeCapture.cpp:207-243 | the flag is consumed even when GetBytecodes fails; no opcode is then counted |
| Capture.BumpSum | libBytecodeCapture.cpp:213 | one histogram increment raises the histogram's sum by exactly 1 |
| Capture.RouteOf | libBytecodeCapture.cpp:464-524 | the hook's decision: abort on redefinition; an anonymous class is captured as `AnonGeneratedClass_<counter+1>` under the base if the name fits, else abort; a built-in name is ignored; any other name is captured under its package directory |
| Capture.CapturedFileInOutDir | libBytecodeCapture.cpp:471-523 | for every captured class the file is `<out_dir>/<stem>.class`, inside the directory `make_dirs` created |
| Capture.RoutingRules | libBytecodeCapture.cpp:464-501 | aborts iff redefining; ignored iff named and built-in; an anonymous class under a 32-bit counter is captured as the next `AnonGeneratedClass_<n>` under the base |
| Capture.FrequenciesNumbered | libBytecodeCapture.cpp:638-646 | the frequency lines are numbered 1, 2, …; each lists an opcode whose count is nonzero, with that count |
| Capture.FrequenciesOrdered | libBytecodeCapture.cpp:638-646 | the frequency lines list opcodes in strictly increasing order |
| Capture.FrequenciesComplete | libBytecodeCapture.cpp:638-646 | every opcode with a nonzero count has a frequency line |
| Capture.FlagStep | libBytecodeCapture.cpp:240-243 | a resolving frame consumes the read flag exactly when it is the frame `ReadIndex` names; otherwise the flag carries over |
| Capture.Agent.constructor | libBytecodeCapture.cpp:605-612 | all counters, the histogram and the anonymous counter start at zero, with the statistics invariant |
| Capture.Agent.NewHistogram | libBytecodeCapture.cpp:605-612 | a fresh 256-entry histogram, every entry 0, so its sum is 0 |
| Capture.Agent.WriteClass | libBytecodeCapture.cpp:88-146 | returns `WriteOutcome` of the old files and leaves the files as `AfterWrite` |
| Capture.Agent.CountBytecodeLocation | libBytecodeCapture.cpp:203-220 | reads the opcode at the location and increments exactly its histogram entry, or reports the read error |
| Capture.Agent.PrintLocation | libBytecodeCapture.cpp:222-270 | the report is `LocationAt`; the flag is cleared iff the frame is a bytecode location; the histogram changes only then |
| Capture.Agent.WriteExecContext | libBytecodeCapture.cpp:304-397 | the context is `ContextOf(host)`; the counters rise by `Delta(host)`; the histogram gets `CountedOpcode(host)`; keeps sum(histogram) ≤ `defined_missing` |
| Capture.Agent.CountEvent | libBytecodeCapture.cpp:316-378 | a failed GetStackTrace counts one unknown; otherwise the walk over the frames; either way the attribution, the frame blocks, the counter rise `Delta(host)` and the opcode count of the event |
| Capture.Agent.WalkFrames | libBytecodeCapture.cpp:328-378 | the loop over the frames yields the attribution, the frame blocks, the counter rise and the opcode count of the event |
| Capture.Agent.VisitFrame | libBytecodeCapture.cpp:332-371 | one iteration keeps the loop's invariant, from frame i to frame i+1 |
| Capture.Agent.VisitUnnamedFrame | libBytecodeCapture.cpp:336-338 | a frame whose GetMethodName fails raises `defined_by_unknown` and keeps the invariant |
| Capture.Agent.VisitNamedFrame | libBytecodeCapture.cpp:339-371 | a resolving frame is classified if it is frame 0, its location printed and its block added, keeping the invariant |
| Capture.Agent.CountTop | libBytecodeCapture.cpp:350-366 | classifies frame 0, signature first, raising the matching counter and setting the flag for unknown or unnamed methods |
| Capture.Agent.RecordClass | libBytecodeCapture.cpp:427-435 | creates `out_dir`, writes the class and then the context, with all three effects stated |
| Capture.Agent.ClassFileLoadHook | libBytecodeCapture.cpp:439-532 | `defined_sum` rises first; abort, ignore or capture follows `RouteOf`, each with its exact effect on files, directories, counters and histogram; the invariant that every event is in exactly one place is kept |
| Capture.Agent.HookAnonymous | libBytecodeCapture.cpp:471-488 | an anonymous class raises the counter and takes the name `AnonGeneratedClass_<n>`; it aborts iff the name does not fit its buffer, and is otherwise recorded under the base |
| Capture.Agent.HookNamed | libBytecodeCapture.cpp:490-524 | a built-in class is ignored and counted; any other class is recorded in its package directory |
| Capture.Agent.Unload | libBytecodeCapture.cpp:627-650 | the printed figures; the bytecode sum is the histogram's sum and at most `defined_missing`; the uncounted residual equals the exit count minus the extra failure counts |
| LegacyCapture.MkdirCommand | libBytecodeCapture.c:43-53 | the `mkdir -p` buffer always fits, so the error exit is unreachable |
| LegacyCapture.LegacyContextOf | libBytecodeCapture.c:103-145 | the C agent's context: "[No executing method!]" for a failed or empty stack, frame 0's name and signature when its name resolves, and nothing about the method when GetMethodName fails |
| LegacyCapture.LegacyRouteOf | libBytecodeCapture.c:180-247 | the C agent's decision: abort on redefinition; an anonymous class captured under `out` if its name fits, else abort; built-in names ignored; any other name captured under `out/<package>` |
| LegacyCapture.LegacyClassFileName | libBytecodeCapture.c:64-69 | the class file name buffer always fits: `<base>/<name>.class` untruncated |
| LegacyCapture.Appended | libBytecodeCapture.c:76-78 | the file becomes its old contents (or nothing) followed by the payload; other files unchanged |
| LegacyCapture.RepeatedEventDuplicates | libBytecodeCapture.c:76-78 | the same class twice doubles the C agent's file, where the C++ writer keeps one copy |
| LegacyCapture.LegacyContextOnlyFrameZero | libBytecodeCapture.c:103-145 | the context depends on frame 0 only |
| LegacyCapture.LegacyContextAgreesWithAttribution | libBytecodeCapture.c:110-145 | "[No executing method!]" iff the C++ agent sees a stack error or an empty stack; the name failure and the NULL signature agree as well |
| LegacyCapture.LegacyCapturedFileInOutDir | libBytecodeCapture.c:213-242 | the C agent's file `out/<name>.class` is the stem's file inside `out/<package>` |
| LegacyCapture.LegacyAgent.constructor | libBytecodeCapture.c:186 | no files, no directories, counter 0 |
| LegacyCapture.LegacyAgent.MakeDirs | libBytecodeCapture.c:43-53 | the directory is created and the agent never exits here |
| LegacyCapture.LegacyAgent.WriteClass | libBytecodeCapture.c:60-80 | creates `out_dir` and appends the payload to `<base>/<name>.class` |
| LegacyCapture.LegacyAgent.ClassFileLoadHook | libBytecodeCapture.c:180-247 | abort, ignore or append follows `LegacyRouteOf`, with the directory, the file and the frame-0 context |
| InstrScan.Find | enum-method-instrs.py:38 | `str.find` returns -1 or a position at or after the start |
| InstrScan.FindSpec | enum-method-instrs.py:38 | `str.find` returns the first occurrence, and -1 only when there is none |
| InstrScan.ContainsIff | enum-method-instrs.py:38-47 | `find(t) != -1` iff t occurs somewhere |
| InstrScan.UpToSpec | enum-method-instrs.py:45 | the text before the first occurrence of a character is the longest prefix without it; it is all of the string iff the character is absent; the text after it is the rest past that occurrence |
| InstrScan.FieldsSpec | enum-method-instrs.py:45-48 | on a line with a ':', `split(':')[0]` is the text before the first ':'; `split(':')[1]` is the text after it up to the next ':' or the end |
| InstrScan.ParseIndentedIndex | enum-method-instrs.py:48 | `int()` reads a space-indented decimal index back as its value |
| InstrScan.FirstHeader | enum-method-instrs.py:31-38 | the first header line from a position on, with no header before it |
| InstrScan.IsHeader | enum-method-instrs.py:31-38 | a header line ends with `" <method>;"` or contains `" <method> throws"` |
| InstrScan.InstructionHasColon | enum-method-instrs.py:44-45 | a line containing `': '` has a ':', so the split has a second field |
| InstrScan.KindOfSpec | enum-method-instrs.py:44-48 | a line ends the body iff it has no `': '`; it is a hit or a bad index iff its second field contains the type; a hit carries the index int() reads from the first field, a bad index is one int() rejects |
| InstrScan.IsMatch | enum-method-instrs.py:44-47 | an instruction line whose second `:` field contains the instruction type |
| InstrScan.LineKindCases | enum-method-instrs.py:44-48 | the kind of a line in the script's own tests: `find(': ')`, then `find(instrType)` on the second field, then `int()` |
| InstrScan.BodyScan | enum-method-instrs.py:43-53 | the body scan: one report per matching line with the occurrence counter, until a non-instruction line exits 0, a bad index raises, or the lines run out |
| InstrScan.Scan | enum-method-instrs.py:20-57 | the script's result: exit -1 on a wrong argument count; nothing if no header; exit -2 if the header is not followed by `Code:`; else the first header's body scan |
| InstrScan.EnumMethodInstrs | enum-method-instrs.py:20-57 | the script's outer loop produces `Scan(argv, lines)`: the usage exit, the first header, the `Code:` check and the body scan |
| InstrScan.ScanBody | enum-method-instrs.py:42-53 | the script's inner loop over a body produces `BodyScan` from the body's first line with the counter at 0 |
| InstrScan.BodyStep | enum-method-instrs.py:43-53 | one line of the body: an end of body stops with 0, a bad index with an exception, another line continues, a hit appends its report with the next counter |
| InstrScan.BodyExit | enum-method-instrs.py:43-53 | the body scan ends with 0 or an exception |
| InstrScan.ExitCodes | enum-method-instrs.py:20-57 | exit -1 iff the argument count is wrong; exit -2 iff the header is not followed by `Code:`; an exception if the header is the last line; no report without a header |
| InstrScan.BodyOccurrences | enum-method-instrs.py:43-51 | from a counter c, the occurrences are c, c+1, … |
| InstrScan.OccurrencesConsecutive | enum-method-instrs.py:35-50 | the printed occurrence numbers are 0, 1, 2, … |
| InstrScan.ReportPerMatchingLine | enum-method-instrs.py:43-53 | without an exception, one report per body line whose second field contains the type |
| InstrScan.ReportsAreMatchingLines | enum-method-instrs.py:43-53 | without an exception, report k carries the index int() reads from the k-th matching body line |
| InstrScan.BodyScanStops | enum-method-instrs.py:44-53 | lines after the first non-instruction line are never read |
| InstrScan.OnlyFirstMethod | enum-method-instrs.py:36-57 | once the first method's body ends, anything appended (another header too) changes nothing |

## Left out

- JVMTI and JNI calls (GetStackTrace, GetMethodName, GetJLocationFormat, GetLineNumberTable, GetBytecodes, GetMethodDeclaringClass, GetClassSignature, GetLoadedClasses): these are foreign calls, so their answers are inputs (`ExecContext.Host`). GetJLocationFormat is one answer per event because the format is VM-wide.
- `hash_code`, which calls the loader's Java `hashCode()`: it is a foreign call, so the hash is an `int32` input.
- Text output (`cout`/`cerr`/`printf`, the `.info` file `choose_stdout_or_file` opens, `print_classloader_info`, `print_declaring_class`, `printClassLoaderInfo`, `printLoadedClasses`, the `[bc:…]` tag): only the wording is involved. The model returns the outcomes, frame blocks and reports instead.
- `make_dirs` runs `mkdir -p` through `system()`: a shell call, modelled as adding the directory to `dirs`, always successfully. The C version's buffer check is kept in `LegacyCapture.MkdirCommand`.
- pthread mutexes: `SERIALIZE` is 1, so the hook runs as strictly sequential calls and no concurrency is modelled.
- Agent startup and registration (`Agent_OnLoad`, `Agent_OnAttach`, the callback and capability setup of `Agent_Initialize`) and the commented-out `init_options`: host plumbing and dead code. Only the zeroing of the counters is modelled.
- Process exits: an `Aborted` outcome plus the `exited` field. The hook requires `!exited`, because nothing runs after an exit.
- Capture.Agent.WriteClass: uses the corrected byte comparison (`ClassStore.CompareContents`, specified by `ClassStore.FirstDifference`), as do `ClassStore.WriteOutcome` and the lemmas about it. As written, the signed-`char` comparison is `ClassStore.FirstDifferenceAsWritten`, under which an existing class file is always reported as differing at position 0 (see "## Findings").
- Capture.Agent.Unload: the frequency lines use the corrected `Opcodes.Mnemonic` (so `Capture.Frequencies` and the lemmas about it do too); as written they use `Opcodes.MnemonicAsWritten`, under which an opcode outside the fifteen-entry table, such as 42 or getfield's 180, is printed as `bytecode-` followed by one raw character (see "## Findings").
- `bytecodes_ptr[location]` has no bounds check in the source: `ExecContext.OpcodeInBounds` requires the read to be in bounds, on exactly the frame whose opcode is read.
- Capture.Agent.ClassFileLoadHook: the counters, the histogram entries and the anonymous counter are unbounded. The 32-bit `int` overflow after 2^31 events is not modelled (`Capture.RoutingRules` requires the counter to be below 2^31 - 1).
- GetStackTrace's frame limit: the host supplies the whole stack, and the agents keep the first 47 (C++) or 10 (C) frames.
- The `subprocess`/`javap` call of the Python script: its output is the `lines` input. The string operations are Python 2's (the source prints tuples, as Python 2 does).
- InstrScan.ParseInt: models `int()` as surrounding whitespace, an optional sign and decimal digits. Other forms Python 2 accepts (whitespace between the sign and the digits) are not modelled.
- InstrScan.EnumMethodInstrs: `sys.exit(-1)` and `sys.exit(-2)` are recorded as the codes -1 and -2, not as the process statuses 255 and 254. An exception is `Crash` with the reports printed before it.
- `lam/Lam.java` is a demonstration program with no logic; it is not part of this model.

## Findings

| source | as written | input that shows it | evidently intended | confidence | as-written member | corrected member |
|---|---|---|---|---|---|---|
| libBytecodeCapture.cpp:113-118 | the existing file is read into `char` (signed on x86) and compared with the `unsigned char` payload | an existing file identical to the payload and starting with 0xCA (class magic 0xCAFEBABE): the `char` 0xCA is -54, the payload byte is 202 | byte-for-byte equality, so re-loading the same class returns 1 ("already saved") | high (not executed) | ClassStore.AsWrittenMissesIdenticalClassFile | ClassStore.CompareContents |
| libBytecodeCapture.cpp:199 | `"bytecode-" << c` streams the `unsigned char` as a character | opcode 42 prints `bytecode-*`, opcode 0 prints a NUL byte | the opcode's number, `bytecode-42` | medium (not executed) | Opcodes.MnemonicAsWrittenIsRawCharacter | Opcodes.MnemonicRoundTrip |
