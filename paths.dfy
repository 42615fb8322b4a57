/** The path computations of the generator: the package name of a source file,
    the module's Gradle build file, the dependency check on it, and the location
    of the test file to write (utgen.kts). The filesystem is a value: the
    directories with the names of their entries, and the files with their text. */
module Paths {
  import opened Results
  import opened Text

  /** What the script reads from disk: `listFiles` names per directory, `readText` per file. */
  datatype FileSystem = FileSystem(dirs: map<string, seq<string>>, files: map<string, string>)

  const KotlinRoot := "src/main/kotlin"
  const JavaRoot := "src/main/java"
  const SrcSegment := "/src"
  const BuildGradle := "build.gradle"
  const BuildGradleKts := "build.gradle.kts"
  const TestDependency := "testImplementation"

  /** The last index of `c` in `s`, or -1 (Kotlin `lastIndexOf`). */
  function LastIndexOf(s: string, c: char): (r: int)
    ensures -1 <= r < |s|
    ensures r >= 0 ==> s[r] == c
    ensures forall j :: r < j < |s| ==> s[j] != c
    decreases |s|
  {
    if s == [] then -1
    else if s[|s| - 1] == c then |s| - 1
    else
      LastIndexOf(s[..|s| - 1], c)
  }

  lemma LastIndexOfSuffix(a: string, c: char, b: string)
    requires c !in b
    ensures LastIndexOf(a + [c] + b, c) == |a|
  {
    var s := a + [c] + b;
    assert s[|a|] == c;
    assert s[|a| + 1..] == b;
    assert forall j :: |a| < j < |s| ==> s[j] in b;
  }

  /** `java.io.File(path).name`: the text after the last `/`. */
  function FileName(path: string): (r: string)
    ensures '/' !in r
    ensures |r| <= |path| && path[|path| - |r|..] == r
    ensures |r| < |path| ==> path[|path| - |r| - 1] == '/'
  {
    path[LastIndexOf(path, '/') + 1..]
  }

  lemma FileNameAfterSlash(dir: string, name: string)
    requires '/' !in name
    ensures FileName(dir + "/" + name) == name
  {
    LastIndexOfSuffix(dir, '/', name);
    assert (dir + "/" + name)[|dir| + 1..] == name;
  }

  /** `File.nameWithoutExtension`: the name up to its last `.`, or all of it. */
  function NameWithoutExtension(name: string): (r: string)
    ensures |r| <= |name| && name[..|r|] == r
    ensures |r| < |name| ==> name[|r|] == '.' && '.' !in name[|r| + 1..]
    ensures |r| == |name| ==> '.' !in name
  {
    var k := LastIndexOf(name, '.');
    if k == -1 then name else name[..k]
  }

  lemma NameWithoutExtensionOf(base: string, ext: string)
    requires '.' !in ext
    ensures NameWithoutExtension(base + "." + ext) == base
  {
    LastIndexOfSuffix(base, '.', ext);
  }

  // ---------------------------------------------------------------------------
  // extractPackageName

  /** The package derived from the piece of `classPath` after `root`: the file
      name is deleted, `/` become `.`, and the first `.` is dropped. */
  function PackageAfter(classPath: string, root: string): (r: string)
    requires root != [] && Contains(classPath, root)
  {
    var packagePath := Split(classPath, root)[1];
    var fileName := FileName(classPath);
    var packagePathWithoutFileName := ReplaceAll(packagePath, "/" + fileName, "");
    ReplaceFirst(ReplaceAll(packagePathWithoutFileName, "/", "."), ".", "")
  }

  /** `extractPackageName`: fails exactly when neither source root occurs in the
      path; the Kotlin root is preferred when both do; a package has no `/`. */
  function ExtractPackageName(classPath: string): (r: Result<string>)
    ensures r.Err? <==> !Contains(classPath, KotlinRoot) && !Contains(classPath, JavaRoot)
    ensures r.Err? ==> r.error == NoSourceRoot
    ensures Contains(classPath, KotlinRoot) ==> r == Ok(PackageAfter(classPath, KotlinRoot))
    ensures !Contains(classPath, KotlinRoot) && Contains(classPath, JavaRoot) ==>
      r == Ok(PackageAfter(classPath, JavaRoot))
    ensures r.Ok? ==> '/' !in r.value
  {
    var separator :=
      if Contains(classPath, KotlinRoot) then KotlinRoot
      else if Contains(classPath, JavaRoot) then JavaRoot
      else "";
    if separator == [] then Err(NoSourceRoot)
    else
      PackageHasNoSlash(classPath, separator);
      Ok(PackageAfter(classPath, separator))
  }

  lemma PackageHasNoSlash(classPath: string, root: string)
    requires root != [] && Contains(classPath, root)
    ensures '/' !in PackageAfter(classPath, root)
  {
    var packagePath := Split(classPath, root)[1];
    var packagePathWithoutFileName := ReplaceAll(packagePath, "/" + FileName(classPath), "");
    var dotted := ReplaceAll(packagePathWithoutFileName, "/", ".");
    ReplaceAllRemovesChar(packagePathWithoutFileName, '/', ".");
    ReplaceFirstChars(dotted, ".");
  }

  /** The first occurrence of `/name` in `x/name` is the final one when `x` has none
      and `name` has no `/`. */
  lemma IndexOfSlashName(x: string, name: string)
    requires '/' !in name && !Contains(x, "/" + name)
    ensures IndexOf(x + "/" + name, "/" + name) == |x|
  {
    var s := x + "/" + name;
    var p := "/" + name;
    SlashNameAt(x, name);
    NoSlashNameBefore(x, name);
    IndexOfIs(s, p, |x|);
  }

  lemma SlashNameAt(x: string, name: string)
    ensures OccursAt(x + "/" + name, |x|, "/" + name)
  {
    assert (x + "/" + name)[|x|..|x| + |"/" + name|] == "/" + name;
  }

  lemma NoSlashNameBefore(x: string, name: string)
    requires '/' !in name && !Contains(x, "/" + name)
    ensures forall j :: 0 <= j < |x| ==> !OccursAt(x + "/" + name, j, "/" + name)
  {
    forall j | 0 <= j < |x| ensures !OccursAt(x + "/" + name, j, "/" + name) {
      NoEarlySlashName(x, name, j);
    }
  }

  lemma NoEarlySlashName(x: string, name: string, j: nat)
    requires '/' !in name && !Contains(x, "/" + name) && j < |x|
    ensures !OccursAt(x + "/" + name, j, "/" + name)
  {
    var s := x + "/" + name;
    var p := "/" + name;
    if j + |p| <= |x| {
      assert s[j..j + |p|] == x[j..j + |p|];
      assert !OccursAt(x, j, p);
    } else {
      var t := |x| - j;
      assert s[j + t] == '/';
      assert p[t] == name[t - 1] && name[t - 1] in name;
      Mismatch(s, j, p, t);
    }
  }

  /** The standard layout: for `<pre><root>/<dirs>/<name>`, where `<pre><root>`
      shows the root first at its end, the root does not occur again, and the
      file name is not already a `/`-suffix of a directory, the package is `dirs`
      with `/` turned into `.`. */
  lemma PackageOfLayout(pre: string, root: string, dirs: string, name: string)
    requires root == KotlinRoot || root == JavaRoot
    requires IndexOf(pre + root, root) == |pre|
    requires name != [] && '/' !in name
    requires !Contains("/" + dirs + "/" + name, root)
    requires !Contains("/" + dirs, "/" + name)
    ensures Contains(pre + root + "/" + dirs + "/" + name, root)
    ensures PackageAfter(pre + root + "/" + dirs + "/" + name, root) == ReplaceAll(dirs, "/", ".")
  {
    var rest := "/" + dirs + "/" + name;
    var path := pre + root + "/" + dirs + "/" + name;
    LayoutPieces(pre, root, "/", dirs, "/", name);
    PackagePathOfLayout(pre, root, rest);
    assert Split(path, root)[1] == rest;
    FileNameAfterSlash(pre + root + "/" + dirs, name);
    assert FileName(path) == name;
    DeleteFileName("/" + dirs, name);
    assert ReplaceAll(rest, "/" + name, "") == "/" + dirs;
    DotPackage(dirs);
  }

  /** The two ways the layout path is read: root then the rest, and directory
      then `/` and the file name. */
  lemma LayoutPieces<T>(p: seq<T>, r: seq<T>, s1: seq<T>, d: seq<T>, s2: seq<T>, n: seq<T>)
    ensures p + r + s1 + d + s2 + n == p + r + (s1 + d + s2 + n)
    ensures p + r + s1 + d + s2 + n == (p + r + s1 + d) + s2 + n
  {
  }

  /** The piece after the first source root, when the root does not occur again. */
  lemma PackagePathOfLayout(pre: string, root: string, rest: string)
    requires root != [] && IndexOf(pre + root, root) == |pre| && !Contains(rest, root)
    ensures Contains(pre + root + rest, root) && Split(pre + root + rest, root)[1] == rest
  {
    var path := pre + root + rest;
    IndexOfExtend(pre + root, rest, root);
    SplitAt(path, root, |pre|);
    assert path[|pre| + |root|..] == rest;
  }

  /** Deleting `/name` from `x/name` leaves `x` when `x` has no `/name`. */
  lemma DeleteFileName(x: string, name: string)
    requires '/' !in name && !Contains(x, "/" + name)
    ensures ReplaceAll(x + "/" + name, "/" + name, "") == x
  {
    var s := x + "/" + name;
    IndexOfSlashName(x, name);
    ReplaceAllAt(s, "/" + name, "");
    assert s[..|x|] == x;
    assert s[|x| + |"/" + name|..] == "";
  }

  /** `/a/b` becomes `.a.b` and then, without its first `.`, `a.b`. */
  lemma DotPackage(dirs: string)
    ensures ReplaceFirst(ReplaceAll("/" + dirs, "/", "."), ".", "") == ReplaceAll(dirs, "/", ".")
  {
    ReplaceAllStep("", "/", ".", dirs);
    assert "" + "/" + dirs == "/" + dirs;
    var dotted := ReplaceAll(dirs, "/", ".");
    IndexOfAfter("", ".", dotted);
    assert "" + "." + dotted == "." + dotted;
    assert ("." + dotted)[1..] == dotted;
  }

  /** `extractPackageName` on the standard Kotlin or Java layout (Kotlin first). */
  lemma ExtractPackageNameOfLayout(pre: string, root: string, dirs: string, name: string)
    requires root == KotlinRoot || (root == JavaRoot && !Contains(pre + root + "/" + dirs + "/" + name, KotlinRoot))
    requires IndexOf(pre + root, root) == |pre|
    requires name != [] && '/' !in name
    requires !Contains("/" + dirs + "/" + name, root)
    requires !Contains("/" + dirs, "/" + name)
    ensures ExtractPackageName(pre + root + "/" + dirs + "/" + name) == Ok(ReplaceAll(dirs, "/", "."))
  {
    PackageOfLayout(pre, root, dirs, name);
  }

  lemma DottedAB()
    ensures ReplaceAll("a/b", "/", ".") == "a.b"
  {
    ReplaceAllStep("a", "/", ".", "b");
    assert "a" + "/" + "b" == "a/b";
    AbsentChar("b", "/", 0);
  }

  /** A source root begins with its only `s`, so it cannot occur straddling the
      end of a text that does not contain it: appended, it is first seen at the end. */
  lemma RootFirstAtEnd(pre: string, root: string)
    requires root == KotlinRoot || root == JavaRoot
    requires !Contains(pre, root)
    ensures IndexOf(pre + root, root) == |pre|
  {
    var s := pre + root;
    assert s[|pre|..|pre| + |root|] == root;
    assert 's' !in root[1..];
    forall j | 0 <= j < |pre| ensures !OccursAt(s, j, root) {
      if j + |root| <= |pre| {
        assert s[j..j + |root|] == pre[j..j + |root|];
        assert !OccursAt(pre, j, root);
      } else {
        var t := |pre| - j;
        assert root[t] in root[1..];
        Mismatch(s, j, root, t);
      }
    }
    IndexOfIs(s, root, |pre|);
  }

  /** The Kotlin root cannot occur in `pre + rest` when `pre` lacks it, `rest`
      has no `k` and `rest` begins with `s` (as `src/main/java/...` does). */
  lemma NoKotlinRootAfter(pre: string, rest: string)
    requires !Contains(pre, KotlinRoot) && 'k' !in rest && rest != [] && rest[0] == 's'
    ensures !Contains(pre + rest, KotlinRoot)
  {
    var s := pre + rest;
    var p := KotlinRoot;
    forall j: nat ensures !OccursAt(s, j, p) {
      if j + |p| <= |s| {
        if j + |p| <= |pre| {
          assert s[j..j + |p|] == pre[j..j + |p|];
          assert !OccursAt(pre, j, p);
        } else if j + 9 >= |pre| {
          assert s[j + 9] in rest;
          Mismatch(s, j, p, 9);
        } else {
          var t := |pre| - j;
          assert s[j + t] == 's';
          Mismatch(s, j, p, t);
        }
      }
    }
  }

  /** Any `<pre>src/main/kotlin/a/b/C.kt` whose `pre` has no source root is in package `a.b`. */
  lemma KotlinPackageExample(pre: string)
    requires !Contains(pre, KotlinRoot)
    ensures ExtractPackageName(pre + "src/main/kotlin/a/b/C.kt") == Ok("a.b")
  {
    var dirs, name := "a/b", "C.kt";
    KotlinABFacts();
    LayoutText(pre, KotlinRoot, dirs, name, "src/main/kotlin/a/b/C.kt");
    RootFirstAtEnd(pre, KotlinRoot);
    ExtractPackageNameOfLayout(pre, KotlinRoot, dirs, name);
    DottedAB();
  }

  /** Any `<pre>src/main/java/a/b/C.java` whose `pre` has no source root is in package `a.b`. */
  lemma JavaPackageExample(pre: string)
    requires !Contains(pre, KotlinRoot) && !Contains(pre, JavaRoot)
    ensures ExtractPackageName(pre + "src/main/java/a/b/C.java") == Ok("a.b")
  {
    var dirs, name := "a/b", "C.java";
    JavaABFacts();
    LayoutText(pre, JavaRoot, dirs, name, "src/main/java/a/b/C.java");
    NoKotlinRootInJavaExample(pre);
    RootFirstAtEnd(pre, JavaRoot);
    ExtractPackageNameOfLayout(pre, JavaRoot, dirs, name);
    DottedAB();
  }

  lemma NoKotlinRootInJavaExample(pre: string)
    requires !Contains(pre, KotlinRoot)
    ensures !Contains(pre + JavaRoot + "/" + "a/b" + "/" + "C.java", KotlinRoot)
  {
    var rest := JavaRoot + "/" + "a/b" + "/" + "C.java";
    assert 'k' !in rest && rest[0] == 's';
    NoKotlinRootAfter(pre, rest);
    assert pre + rest == pre + JavaRoot + "/" + "a/b" + "/" + "C.java";
  }

  /** A file directly under the source root is in the default (empty) package. */
  lemma DefaultPackage(pre: string, root: string, name: string)
    requires root == KotlinRoot || (root == JavaRoot && !Contains(pre + root + "/" + name, KotlinRoot))
    requires IndexOf(pre + root, root) == |pre|
    requires '/' !in name
    ensures ExtractPackageName(pre + root + "/" + name) == Ok("")
  {
    var rest := "/" + name;
    var path := pre + root + "/" + name;
    assert path == pre + root + rest;
    RootNotInSlashName(root, name);
    PackagePathOfLayout(pre, root, rest);
    assert Split(path, root)[1] == rest;
    FileNameAfterSlash(pre + root, name);
    assert FileName(path) == name;
    DeleteFileName("", name);
    assert "" + "/" + name == rest;
    assert ReplaceAll(rest, "/" + name, "") == "";
    assert ReplaceAll("", "/", ".") == "";
    assert ReplaceFirst("", ".", "") == "";
  }

  /** A source root has a `/` at index 3, so it cannot occur in `/name` when `name` has none. */
  lemma RootNotInSlashName(root: string, name: string)
    requires root == KotlinRoot || root == JavaRoot
    requires '/' !in name
    ensures !Contains("/" + name, root)
  {
    var s := "/" + name;
    forall j: nat ensures !OccursAt(s, j, root) {
      if j + |root| <= |s| {
        assert root[3] == '/';
        assert s[j..j + |root|][3] == s[j + 3] == name[j + 2];
        assert name[j + 2] in name;
      }
    }
  }

  // ---------------------------------------------------------------------------
  // getBuildGradleFile

  /** `classPath.split("/src")[0]`: the module directory, the text before the first `/src`. */
  function ModuleRoot(classPath: string): (r: string)
  {
    Split(classPath, SrcSegment)[0]
  }

  /** The module directory is the longest prefix without `/src`: it is the whole
      path when `/src` does not occur, and is followed by `/src` when it does. */
  lemma ModuleRootIsBeforeFirstSrc(classPath: string)
    ensures |ModuleRoot(classPath)| <= |classPath|
    ensures classPath[..|ModuleRoot(classPath)|] == ModuleRoot(classPath)
    ensures !Contains(ModuleRoot(classPath), SrcSegment)
    ensures !Contains(classPath, SrcSegment) ==> ModuleRoot(classPath) == classPath
    ensures Contains(classPath, SrcSegment) ==> OccursAt(classPath, |ModuleRoot(classPath)|, SrcSegment)
  {
    SplitHead(classPath, SrcSegment);
  }

  /** `getBuildGradleFile`, with the directory listing of the module directory
      taken from `fs` (absent when it does not exist or is not a directory).
      Empty module directory: an error. Otherwise `build.gradle` is preferred to
      `build.gradle.kts`, and `""` means that neither is listed. */
  function GetBuildGradleFile(classPath: string, fs: FileSystem): (r: Result<string>)
    ensures r.Err? <==> ModuleRoot(classPath) == []
    ensures r.Err? ==> r.error == NoSrcSegment
    ensures r.Ok? && ModuleRoot(classPath) in fs.dirs && BuildGradle in fs.dirs[ModuleRoot(classPath)] ==>
      r.value == ModuleRoot(classPath) + "/" + BuildGradle
    ensures r.Ok? ==> (r.value == ModuleRoot(classPath) + "/" + BuildGradleKts <==>
      ModuleRoot(classPath) in fs.dirs && BuildGradleKts in fs.dirs[ModuleRoot(classPath)]
      && BuildGradle !in fs.dirs[ModuleRoot(classPath)])
    ensures r.Ok? ==> (r.value == "" <==>
      ModuleRoot(classPath) !in fs.dirs
      || (BuildGradle !in fs.dirs[ModuleRoot(classPath)] && BuildGradleKts !in fs.dirs[ModuleRoot(classPath)]))
    ensures r.Ok? && r.value != "" ==>
      exists n :: (n in fs.dirs[ModuleRoot(classPath)]
        && (n == BuildGradle || n == BuildGradleKts) && r.value == ModuleRoot(classPath) + "/" + n)
  {
    var srcParentPath := ModuleRoot(classPath);
    if srcParentPath == [] then Err(NoSrcSegment)
    else if srcParentPath !in fs.dirs then Ok("")
    else
      var fileNames := fs.dirs[srcParentPath];
      var name :=
        if BuildGradle in fileNames then BuildGradle
        else if BuildGradleKts in fileNames then BuildGradleKts
        else "";
      assert (srcParentPath + "/" + BuildGradle)[|srcParentPath| + 1..] == BuildGradle;
      assert (srcParentPath + "/" + BuildGradleKts)[|srcParentPath| + 1..] == BuildGradleKts;
      if name != [] then Ok(srcParentPath + "/" + name) else Ok("")
  }

  // ---------------------------------------------------------------------------
  // checkDependencies

  /** `checkDependencies`: the build file exists and its text contains `testImplementation`. */
  function CheckDependencies(gradleFilePath: string, fs: FileSystem): (r: bool)
    ensures r <==> (gradleFilePath in fs.files
      && exists j :: 0 <= j && OccursAt(fs.files[gradleFilePath], j, TestDependency))
  {
    if gradleFilePath in fs.files then
      ContainsIff(fs.files[gradleFilePath], TestDependency);
      Contains(fs.files[gradleFilePath], TestDependency)
    else false
  }

  // ---------------------------------------------------------------------------
  // createTestFile: where the test goes

  datatype TestLocation = TestLocation(dir: string, fileName: string)

  /** `classPath.split(originalFile.name)[0]`: the text before the first occurrence
      of the file name (empty for an empty name, as Kotlin's `split("")` begins
      with an empty piece). */
  function SourceDir(classPath: string): (r: string)
    ensures FileName(classPath) == [] ==> r == []
    ensures FileName(classPath) != [] ==>
      IndexOf(classPath, FileName(classPath)) >= 0 && r == classPath[..IndexOf(classPath, FileName(classPath))]
    ensures |r| + |FileName(classPath)| <= |classPath|
  {
    var name := FileName(classPath);
    if name == [] then []
    else
      assert OccursAt(classPath, |classPath| - |name|, name);
      SplitHead(classPath, name);
      Split(classPath, name)[0]
  }

  /** `replace("main", "test")` on the source directory: every `main` becomes
      `test`, none is left, and the length is kept. */
  function TestDir(sourceDir: string): (r: string)
    ensures r == Join(Split(sourceDir, "main"), "test")
    ensures !Contains(r, "main") && |r| == |sourceDir|
  {
    ReplaceAllIsSplitJoin(sourceDir, "main", "test");
    ReplaceAllLeavesNone(sourceDir, "main", "test");
    ReplaceAll(sourceDir, "main", "test")
  }

  /** The test file name and directory of `createTestFile`: the name is always
      `<name without extension>Test.kt`; the directory is the source directory
      with every `main` replaced by `test` (so it holds no `main` and has the
      source directory's length), and an empty directory is an error. */
  function TestFilePath(classPath: string): (r: Result<TestLocation>)
    ensures r.Err? <==> SourceDir(classPath) == []
    ensures r.Err? ==> r.error == CannotCreateTestFile
    ensures r.Ok? ==> r.value.fileName == NameWithoutExtension(FileName(classPath)) + "Test.kt"
    ensures r.Ok? ==> r.value.dir == Join(Split(SourceDir(classPath), "main"), "test")
    ensures r.Ok? ==> !Contains(r.value.dir, "main") && |r.value.dir| == |SourceDir(classPath)|
  {
    var testFileName := NameWithoutExtension(FileName(classPath)) + "Test.kt";
    var testDirPath := TestDir(SourceDir(classPath));
    if testDirPath == [] then Err(CannotCreateTestFile)
    else Ok(TestLocation(testDirPath, testFileName))
  }

  /** The test file is named after the source file's base name and always ends
      in `Test.kt`, also for a Java source. */
  lemma TestFileNameOf(dir: string, base: string, ext: string)
    requires '/' !in base + "." + ext && '.' !in ext
    ensures TestFilePath(dir + "/" + base + "." + ext).Ok? ==>
      TestFilePath(dir + "/" + base + "." + ext).value.fileName == base + "Test.kt"
  {
    assert dir + "/" + base + "." + ext == dir + "/" + (base + "." + ext);
    FileNameAfterSlash(dir, base + "." + ext);
    NameWithoutExtensionOf(base, ext);
  }

  lemma DottedComX()
    ensures ReplaceAll("com/x", "/", ".") == "com.x"
  {
    ReplaceAllStep("com", "/", ".", "x");
    assert "com" + "/" + "x" == "com/x";
    AbsentChar("x", "/", 0);
  }

  /** Any `<pre>src/main/kotlin/com/x/Calc.kt` is in package `com.x`, when `pre`
      holds no source root. */
  lemma CalcPackage(pre: string)
    requires !Contains(pre, KotlinRoot)
    ensures ExtractPackageName(pre + "src/main/kotlin/com/x/Calc.kt") == Ok("com.x")
  {
    var dirs, name := "com/x", "Calc.kt";
    CalcFacts();
    LayoutText(pre, KotlinRoot, dirs, name, "src/main/kotlin/com/x/Calc.kt");
    RootFirstAtEnd(pre, KotlinRoot);
    ExtractPackageNameOfLayout(pre, KotlinRoot, dirs, name);
    DottedComX();
  }

  /** `<pre>src/main/kotlin/com/x/Calc.kt` is tested in `<pre>src/test/kotlin/com/x/CalcTest.kt`
      when `pre` holds no `main` and no `Calc.kt`. */
  lemma CalcTestLocation(pre: string)
    requires !Contains(pre, "main") && !Contains(pre, "Calc.kt")
    ensures TestFilePath(pre + "src/main/kotlin/com/x/Calc.kt")
      == Ok(TestLocation(pre + "src/test/kotlin/com/x/", "CalcTest.kt"))
  {
    var path := pre + "src/main/kotlin/com/x/Calc.kt";
    assert TestDir(SourceDir(path)) == pre + "src/test/kotlin/com/x/" by {
      CalcSourceDir(pre);
      CalcTestDir(pre);
    }
    assert NameWithoutExtension(FileName(path)) + "Test.kt" == "CalcTest.kt" by {
      CalcNames(pre);
      CalcTestName();
    }
  }

  lemma CalcNames(pre: string)
    ensures FileName(pre + "src/main/kotlin/com/x/Calc.kt") == "Calc.kt"
    ensures NameWithoutExtension("Calc.kt") == "Calc"
  {
    assert pre + "src/main/kotlin/com/x/Calc.kt" == pre + "src/main/kotlin/com/x" + "/" + "Calc.kt";
    FileNameAfterSlash(pre + "src/main/kotlin/com/x", "Calc.kt");
    assert "Calc.kt" == "Calc" + "." + "kt";
    NameWithoutExtensionOf("Calc", "kt");
  }

  lemma CalcSourceDir(pre: string)
    requires !Contains(pre, "Calc.kt")
    ensures SourceDir(pre + "src/main/kotlin/com/x/Calc.kt") == pre + "src/main/kotlin/com/x/"
  {
    var path := pre + "src/main/kotlin/com/x/Calc.kt";
    var dir := pre + "src/main/kotlin/com/x/";
    CalcNames(pre);
    assert path == pre + "src/main/kotlin/com/x/" + "Calc.kt" + "";
    IndexOfPast(pre, "src/main/kotlin/com/x/", "Calc.kt", "");
    SplitHead(path, "Calc.kt");
    assert path[..|dir|] == dir;
  }

  lemma CalcTestDir(pre: string)
    requires !Contains(pre, "main")
    ensures ReplaceAll(pre + "src/main/kotlin/com/x/", "main", "test") == pre + "src/test/kotlin/com/x/"
  {
    var a, b := "src/", "/kotlin/com/x/";
    CalcReplace(pre, a, b);
    assert pre + "src/main/kotlin/com/x/" == pre + a + "main" + b by {
      CalcDirPieces();
      Regroup(pre, "src/main/kotlin/com/x/", a, "main", b);
    }
    assert pre + "src/test/kotlin/com/x/" == pre + a + "test" + b by {
      CalcDirPieces();
      Regroup(pre, "src/test/kotlin/com/x/", a, "test", b);
    }
  }

  lemma CalcReplace(pre: string, a: string, b: string)
    requires !Contains(pre, "main") && a == "src/" && b == "/kotlin/com/x/"
    ensures ReplaceAll(pre + a + "main" + b, "main", "test") == pre + a + "test" + b
  {
    AbsentChar(b, "main", 1);
    ReplaceMainOnce(pre, a, b);
  }

  /** A single `main`, not straddled by its neighbours, becomes `test`. */
  lemma ReplaceMainOnce(pre: string, a: string, b: string)
    requires !Contains(pre, "main") && !Contains(b, "main")
    requires a != [] && 'm' !in a && a[0] !in "ain"
    ensures ReplaceAll(pre + a + "main" + b, "main", "test") == pre + a + "test" + b
  {
    var s := pre + a + "main" + b;
    assert "main"[1..] == "ain";
    IndexOfPast(pre, a, "main", b);
    ReplaceAllAt(s, "main", "test");
    assert s[..|pre| + |a|] == pre + a;
    assert s[|pre| + |a| + 4..] == b;
  }

  // ---------------------------------------------------------------------------
  // Text facts about the literal paths of the examples above; they model
  // nothing of the script and only feed the example lemmas.

  lemma KotlinABFacts()
    ensures KotlinRoot + "/" + "a/b" + "/" + "C.kt" == "src/main/kotlin/a/b/C.kt"
    ensures !Contains("/" + "a/b" + "/" + "C.kt", KotlinRoot)
    ensures !Contains("/" + "a/b", "/" + "C.kt")
  {
    AbsentChar("/" + "a/b" + "/" + "C.kt", KotlinRoot, 0);
    AbsentChar("/" + "a/b", "/" + "C.kt", 1);
  }

  lemma JavaABFacts()
    ensures JavaRoot + "/" + "a/b" + "/" + "C.java" == "src/main/java/a/b/C.java"
    ensures !Contains("/" + "a/b" + "/" + "C.java", JavaRoot)
    ensures !Contains("/" + "a/b", "/" + "C.java")
  {
    AbsentChar("/" + "a/b" + "/" + "C.java", JavaRoot, 0);
    AbsentChar("/" + "a/b", "/" + "C.java", 1);
  }

  lemma CalcFacts()
    ensures KotlinRoot + "/" + "com/x" + "/" + "Calc.kt" == "src/main/kotlin/com/x/Calc.kt"
    ensures !Contains("/" + "com/x" + "/" + "Calc.kt", KotlinRoot)
    ensures !Contains("/" + "com/x", "/" + "Calc.kt")
  {
    AbsentChar("/" + "com/x" + "/" + "Calc.kt", KotlinRoot, 0);
    AbsentChar("/" + "com/x", "/" + "Calc.kt", 1);
  }

  /** Prefixing `pre` to a path written out in full is prefixing it to its pieces. */
  lemma LayoutText(pre: string, root: string, dirs: string, name: string, path: string)
    requires root + "/" + dirs + "/" + name == path
    ensures pre + root + "/" + dirs + "/" + name == pre + path
  {
  }

  lemma CalcTestName()
    ensures "Calc" + "Test.kt" == "CalcTest.kt"
  {
  }

  lemma CalcDirPieces()
    ensures "src/main/kotlin/com/x/" == "src/" + "main" + "/kotlin/com/x/"
    ensures "src/test/kotlin/com/x/" == "src/" + "test" + "/kotlin/com/x/"
  {
  }

  lemma Regroup(pre: string, x: string, a: string, m: string, b: string)
    requires x == a + m + b
    ensures pre + x == pre + a + m + b
  {
  }
}
