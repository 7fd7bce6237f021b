/**
 * The earlier C agent: the same filter and anonymous naming as the C++
 * agent, a fixed base directory "out", a writer that appends blindly, and a
 * context that looks only at frame 0. It keeps no statistics.
 */
module LegacyCapture {
  import opened Wrappers
  import opened CText
  import opened Paths
  import opened ClassStore
  import opened ExecContext

  /** The C agent asks GetStackTrace for at most this many frames. */
  const LegacyMaxFrameCount: nat := 10

  const MkdirPrefix: string := "mkdir -p "

  /**
   * make_dirs's command, formatted into a buffer of |outDir| + 11 bytes;
   * None is the exit taken when the buffer is too small.
   */
  function MkdirCommand(outDir: string): (r: Option<string>)
    ensures r == Some(MkdirPrefix + outDir)
  {
    var full := MkdirPrefix + outDir;
    var size := |outDir| + 11;
    if |full| >= size then None else Some(Snprintf(full, size))
  }

  /**
   * writeClass's file name, formatted into a buffer of
   * |base| + 1 + |name| + 7 bytes; None is the exit taken when the buffer is too small.
   */
  function LegacyClassFileName(base: string, name: string): (r: Option<string>)
    ensures r == Some(ClassFilePath(base, name))
  {
    var full := base + "/" + name + ".class";
    var size := |base| + 1 + |name| + 7;
    if |full| >= size then None else Some(Snprintf(full, size))
  }

  /** fopen(..., "a") and fwrite: the payload goes after whatever the file held. */
  function Appended(files: FileSystem, path: string, payload: seq<byte>): (r: FileSystem)
    ensures r.Keys == files.Keys + {path}
    ensures r[path] == (if path in files then files[path] else []) + payload
    ensures forall p :: p in files && p != path ==> r[p] == files[p]
  {
    files[path := (if path in files then files[path] else []) + payload]
  }

  /**
   * The same class captured twice: the appending writer doubles the file,
   * where the C++ writer leaves the first copy alone.
   */
  lemma {:induction false} RepeatedEventDuplicates(files: FileSystem, path: string, payload: seq<byte>)
    requires path !in files
    ensures Appended(Appended(files, path, payload), path, payload)[path] == payload + payload
    ensures AfterWrite(AfterWrite(files, path, payload), path, payload)[path] == payload
  {
    var once := Appended(files, path, payload);
    assert once[path] == [] + payload;
    assert [] + payload == payload;
  }

  /** What writeExecContext finds about frame 0. */
  datatype LegacyContext =
    | NoExecutingMethod                                    // stack error or no frame
    | TopMethod(methodName: string, signature: Option<string>)
    | TopMethodNameError                                   // GetMethodName failed: nothing printed

  function LegacyContextOf(stack: StackTrace): LegacyContext {
    match stack
    case StackError => NoExecutingMethod
    case Stack(all) =>
      var fs := Visible(all, LegacyMaxFrameCount);
      if |fs| == 0 then NoExecutingMethod
      else match fs[0].name
        case None => TopMethodNameError
        case Some(n) => TopMethod(n, fs[0].signature)
  }

  /** Only frame 0 matters: two stacks with the same top frame give the same context. */
  lemma {:induction false} LegacyContextOnlyFrameZero(a: seq<Frame>, b: seq<Frame>)
    requires |a| > 0 && |b| > 0 && a[0] == b[0]
    ensures LegacyContextOf(Stack(a)) == LegacyContextOf(Stack(b))
  {
    assert Visible(a, LegacyMaxFrameCount)[0] == a[0];
    assert Visible(b, LegacyMaxFrameCount)[0] == b[0];
  }

  /** The C agent's context agrees with the C++ agent's attribution of frame 0. */
  lemma {:induction false} LegacyContextAgreesWithAttribution(h: Host)
    ensures LegacyContextOf(h.stack) == NoExecutingMethod <==> Attribute(h) in {StackReadError, EmptyStack}
    ensures LegacyContextOf(h.stack) == TopMethodNameError <==> Attribute(h) == TopNameError
    ensures LegacyContextOf(h.stack).TopMethod? ==>
      && Frames(h)[0].name == Some(LegacyContextOf(h.stack).methodName)
      && (LegacyContextOf(h.stack).signature.None? <==> Attribute(h) == UnnamedTopMethod)
  {
    match h.stack
    case StackError =>
    case Stack(all) =>
      var fs := Visible(all, LegacyMaxFrameCount);
      assert |fs| == 0 <==> |Frames(h)| == 0;
      if |fs| > 0 {
        assert fs[0] == all[0] == Frames(h)[0];
      }
  }

  /** Where the C agent's ClassFileLoadHook sends an event. */
  datatype LegacyRoute = Abort | Ignore | Capture(className: string, outDir: string)

  function LegacyRouteOf(redefining: bool, name: Option<string>, counter: int): LegacyRoute {
    if redefining then Abort
    else match name
      case None =>
        if AnonNameFits(counter + 1) then Capture(AnonName(counter + 1), LegacyBaseDir) else Abort
      case Some(n) =>
        if IsBuiltIn(n) then Ignore else Capture(n, PackageDir(LegacyBaseDir, n))
  }

  /**
   * The C agent files a captured class under "out/<package>" and names the
   * file "out/<name>.class", which is the stem inside that directory.
   */
  lemma {:induction false} LegacyCapturedFileInOutDir(redefining: bool, name: Option<string>, counter: int)
    requires LegacyRouteOf(redefining, name, counter).Capture?
    ensures var r := LegacyRouteOf(redefining, name, counter);
      ClassFilePath(LegacyBaseDir, r.className) == r.outDir + "/" + FileStem(r.className) + ".class"
  {
    match name
    case None =>
      AnonNameHasNoPackage(LegacyBaseDir, counter + 1);
      ClassFileInPackageDir(LegacyBaseDir, AnonName(counter + 1));
    case Some(n) =>
      ClassFileInPackageDir(LegacyBaseDir, n);
  }

  /** What one call of the C agent's ClassFileLoadHook did. */
  datatype LegacyOutcome = Aborted | Ignored | Saved(className: string, outDir: string, context: LegacyContext)

  class LegacyAgent {
    var files: FileSystem
    var dirs: set<string>
    var anonymousClassCounter: int
    var exited: bool

    constructor ()
      ensures files == map[] && dirs == {} && anonymousClassCounter == 0 && !exited
    {
      files, dirs, anonymousClassCounter, exited := map[], {}, 0, false;
    }

    /** make_dirs: the length check, then `mkdir -p` (which succeeds here). */
    method MakeDirs(outDir: string)
      modifies this`dirs, this`exited
      ensures exited == old(exited) && dirs == old(dirs) + {outDir}
    {
      var cmd := MkdirCommand(outDir);
      if cmd.None? {
        // exit(-1): unreachable, the buffer always fits the command
        assert false;
      } else {
        dirs := dirs + {outDir};
      }
    }

    /** writeClass: creates the directory and appends the payload to `<base>/<name>.class`. */
    method WriteClass(name: string, base: string, outDir: string, payload: seq<byte>)
      modifies this`dirs, this`exited, this`files
      ensures exited == old(exited) && dirs == old(dirs) + {outDir}
      ensures files == Appended(old(files), ClassFilePath(base, name), payload)
    {
      MakeDirs(outDir);
      var path := LegacyClassFileName(base, name);
      if path.None? {
        // exit(-1): unreachable, the buffer always fits the file name
        assert false;
      } else {
        var existing := if path.value in files then files[path.value] else [];
        files := files[path.value := existing + payload];
      }
    }

    /** ClassFileLoadHook of the C agent. */
    method ClassFileLoadHook(redefining: bool, name: Option<string>, payload: seq<byte>, stack: StackTrace)
      returns (outcome: LegacyOutcome)
      requires !exited
      modifies this
      ensures anonymousClassCounter == old(anonymousClassCounter) + (if !redefining && name.None? then 1 else 0)
      ensures match LegacyRouteOf(redefining, name, old(anonymousClassCounter))
        case Abort => outcome == Aborted && exited && files == old(files) && dirs == old(dirs)
        case Ignore => outcome == Ignored && !exited && files == old(files) && dirs == old(dirs)
        case Capture(className, outDir) =>
          && outcome == Saved(className, outDir, LegacyContextOf(stack)) && !exited
          && files == Appended(old(files), ClassFilePath(LegacyBaseDir, className), payload)
          && dirs == old(dirs) + {outDir}
    {
      if redefining {
        exited := true;
        return Aborted;
      }
      if name.None? {
        anonymousClassCounter := anonymousClassCounter + 1;
        var anonName := AnonPrefix + IntToDecimal(anonymousClassCounter);
        if |anonName| >= AnonNameBufferLen {
          exited := true;
          return Aborted;
        }
        WriteClass(anonName, LegacyBaseDir, LegacyBaseDir, payload);
        outcome := Saved(anonName, LegacyBaseDir, LegacyContextOf(stack));
      } else {
        var n := name.value;
        if IsBuiltIn(n) {
          return Ignored;
        }
        var outDir := LegacyBaseDir;
        var lastSlash := LastIndexOf(n, '/');
        if lastSlash.Some? {
          // the buffer is sized for base, package and separator: never truncated
          outDir := LegacyBaseDir + "/" + n[..lastSlash.value];
        }
        WriteClass(n, LegacyBaseDir, outDir, payload);
        outcome := Saved(n, outDir, LegacyContextOf(stack));
      }
    }
  }
}
