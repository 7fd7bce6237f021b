/**
 * Routing and naming shared by both agents: the built-in class filter,
 * the per-loader base directory, the package directory, the class file
 * path and the synthesized names of anonymous classes.
 */
module Paths {
  import opened Wrappers
  import opened CText

  /** The five name prefixes of platform classes that are never captured. */
  const BuiltInPrefixes: seq<string> := ["java/", "javax/", "com/sun", "sun/", "jdk/"]

  /** The `builtIn` test of ClassFileLoadHook: the name starts with one of the prefixes. */
  function IsBuiltIn(name: string): (r: bool)
    ensures r <==> exists i :: 0 <= i < |BuiltInPrefixes| && BuiltInPrefixes[i] <= name
  {
    assert BuiltInPrefixes[0] == "java/" && BuiltInPrefixes[1] == "javax/" && BuiltInPrefixes[2] == "com/sun"
      && BuiltInPrefixes[3] == "sun/" && BuiltInPrefixes[4] == "jdk/";
    StartsWith("java/", name) || StartsWith("javax/", name) || StartsWith("com/sun", name)
    || StartsWith("sun/", name) || StartsWith("jdk/", name)
  }

  /** Size of the buffer the C++ agent formats "out/%d" into. */
  const BaseDirBufferLen: nat := 22

  /** The C++ agent's per-loader base directory, `out/<loaderHash>`. */
  function BaseDir(loaderHash: int32): string {
    Snprintf("out/" + IntToDecimal(loaderHash as int), BaseDirBufferLen)
  }

  /** The earlier C agent writes everything under this fixed base. */
  const LegacyBaseDir: string := "out"

  /** The package directory: the base, then the name up to its last '/', if it has one. */
  function PackageDir(base: string, name: string): string {
    match LastIndexOf(name, '/')
    case Some(k) => base + "/" + name[..k]
    case None => base
  }

  /** The C++ agent's out_dir, formatted into a buffer of |base buffer| + |package| + 2 bytes. */
  function OutDir(base: string, name: string): string {
    match LastIndexOf(name, '/')
    case Some(k) => Snprintf(base + "/" + name[..k], BaseDirBufferLen + k + 2)
    case None => base
  }

  /** The part of the name after its last '/'. */
  function FileStem(name: string): string {
    match LastIndexOf(name, '/')
    case Some(k) => name[k + 1..]
    case None => name
  }

  /** write_class's target: `<base>/<name>.class`, whatever the name's package. */
  function ClassFilePath(base: string, name: string): string {
    base + "/" + name + ".class"
  }

  const AnonPrefix: string := "AnonGeneratedClass_"
  /** Size of the buffer the anonymous name is formatted into. */
  const AnonNameBufferLen: nat := 40

  function AnonName(n: int): string {
    AnonPrefix + IntToDecimal(n)
  }

  /** The anonymous name fits its buffer (otherwise the hook aborts). */
  predicate AnonNameFits(n: int) {
    |AnonName(n)| < AnonNameBufferLen
  }

  /** For every 32-bit loader hash the base is exactly "out/" and the hash, never truncated. */
  lemma BaseDirExact(h: int32)
    ensures BaseDir(h) == "out/" + IntToDecimal(h as int)
    ensures |BaseDir(h)| <= 15
  {
    Int32DecimalWidth(h);
  }

  /** Different loader hashes give different base directories. */
  lemma BaseDirInjective(h1: int32, h2: int32)
    ensures BaseDir(h1) == BaseDir(h2) ==> h1 == h2
  {
    BaseDirExact(h1);
    BaseDirExact(h2);
    if BaseDir(h1) == BaseDir(h2) {
      assert IntToDecimal(h1 as int) == BaseDir(h1)[4..];
      assert IntToDecimal(h2 as int) == BaseDir(h2)[4..];
      IntToDecimalInjective(h1 as int, h2 as int);
    }
  }

  /** out_dir is never truncated while the base fits its own buffer. */
  lemma OutDirNotTruncated(base: string, name: string)
    requires |base| < BaseDirBufferLen
    ensures OutDir(base, name) == PackageDir(base, name)
  {
  }

  /** Under loader hash h: with a '/', out_dir is the base plus the package; otherwise the base itself. */
  lemma {:induction false} OutDirLayout(h: int32, name: string)
    ensures '/' in name ==>
      exists k :: 0 <= k < |name| && name[k] == '/' && '/' !in name[k + 1..] &&
        OutDir(BaseDir(h), name) == "out/" + IntToDecimal(h as int) + "/" + name[..k] &&
        FileStem(name) == name[k + 1..]
    ensures '/' !in name ==> OutDir(BaseDir(h), name) == "out/" + IntToDecimal(h as int) && FileStem(name) == name
  {
    BaseDirExact(h);
    OutDirNotTruncated(BaseDir(h), name);
    match LastIndexOf(name, '/')
    case Some(k) =>
      assert OutDir(BaseDir(h), name) == "out/" + IntToDecimal(h as int) + "/" + name[..k];
    case None =>
  }

  /** The class file lands in the package directory, named after the file stem. */
  lemma {:induction false} ClassFileInPackageDir(base: string, name: string)
    ensures ClassFilePath(base, name) == PackageDir(base, name) + "/" + FileStem(name) + ".class"
  {
    match LastIndexOf(name, '/')
    case Some(k) =>
      assert name == name[..k] + "/" + name[k + 1..] by {
        assert name[k] == '/';
        assert name == name[..k] + [name[k]] + name[k + 1..];
      }
    case None =>
  }

  /** Anonymous names carry no '/', so they land directly under the base. */
  lemma AnonNameHasNoPackage(base: string, n: int)
    ensures '/' !in AnonName(n)
    ensures PackageDir(base, AnonName(n)) == base && FileStem(AnonName(n)) == AnonName(n)
  {
    SignedDecimalRoundTrip(n);
    var d := IntToDecimal(n);
    assert forall i :: 0 <= i < |d| ==> d[i] == '-' || IsDigit(d[i]) by {
      if d[0] == '-' {
        forall i | 1 <= i < |d| ensures IsDigit(d[i]) { assert d[i] == d[1..][i - 1]; }
      }
    }
    assert forall i :: 0 <= i < |AnonName(n)| ==> AnonName(n)[i] != '/' by {
      forall i | 0 <= i < |AnonName(n)| ensures AnonName(n)[i] != '/' {
        if i >= |AnonPrefix| { assert AnonName(n)[i] == d[i - |AnonPrefix|]; }
      }
    }
  }

  /** Distinct counter values give distinct anonymous names, hence distinct class files. */
  lemma AnonNameInjective(m: int, n: int)
    ensures AnonName(m) == AnonName(n) ==> m == n
  {
    if AnonName(m) == AnonName(n) {
      assert IntToDecimal(m) == AnonName(m)[|AnonPrefix|..];
      assert IntToDecimal(n) == AnonName(n)[|AnonPrefix|..];
      IntToDecimalInjective(m, n);
    }
  }

  /** The length check on the anonymous name cannot fail for a 32-bit counter. */
  lemma AnonNameFitsInt32(n: int32)
    ensures AnonNameFits(n as int)
  {
    Int32DecimalWidth(n);
  }

  /** `com/sun` has no trailing slash, so `com/sunny/X` is ignored as well. */
  lemma ComSunWithoutSlash()
    ensures IsBuiltIn("com/sunny/X")
  {
    assert StartsWith("com/sun", "com/sunny/X");
  }

  /** A name that only resembles a prefix is captured. */
  lemma LookalikeIsCaptured()
    ensures !IsBuiltIn("javafoo/X")
  {
    assert !StartsWith("java/", "javafoo/X") by { assert "javafoo/X"[4] != "java/"[4]; }
    assert !StartsWith("javax/", "javafoo/X") by { assert "javafoo/X"[4] != "javax/"[4]; }
    assert !StartsWith("com/sun", "javafoo/X") by { assert "javafoo/X"[0] != "com/sun"[0]; }
    assert !StartsWith("sun/", "javafoo/X") by { assert "javafoo/X"[0] != "sun/"[0]; }
    assert !StartsWith("jdk/", "javafoo/X") by { assert "javafoo/X"[1] != "jdk/"[1]; }
  }
}
