/** The script body: validate the source file and its module, find every
    annotated function, render one test stub per match into a growing list,
    and assemble the test file from the joined stubs.  The file system is the
    `FileSystem` value the run reads; what the script writes is returned as a
    `TestFile` instead. */
module Generator {
  import opened Results
  import opened Text
  import opened Paths
  import opened Render
  import opened Signatures

  /** The generated test file: where it goes and the parts of its text that
      depend on the input (the rest is fixed boilerplate). */
  datatype TestFile = TestFile(
    dir: string,            // the test directory
    fileName: string,       // `<source name without extension>Test.kt`
    packageName: string,    // the `package` line
    className: string,      // the test class name
    testFunctions: string)  // the stubs, joined by blank lines

  /** The stub written for one match of the signature pattern. */
  function StubOf(m: SignatureMatch): string {
    TestStub(m.parts.name, ParamNames(m.parts.params))
  }

  /** `f` applied to every element, in order. */
  function MapSeq<A, B>(f: A -> B, xs: seq<A>): (r: seq<B>)
    ensures |r| == |xs|
    ensures forall i :: 0 <= i < |xs| ==> r[i] == f(xs[i])
  {
    if xs == [] then [] else [f(xs[0])] + MapSeq(f, xs[1..])
  }

  lemma MapStep<A, B>(f: A -> B, xs: seq<A>, acc: seq<B>, j: nat, y: B)
    requires j < |xs| && |acc| == j && y == f(xs[j])
    requires forall k :: 0 <= k < j ==> acc[k] == f(xs[k])
    ensures forall k :: 0 <= k < j + 1 ==> (acc + [y])[k] == f(xs[k])
  {
  }

  /** The stubs of all the matches. */
  function StubsOf(ms: seq<SignatureMatch>): (r: seq<string>)
    ensures |r| == |ms|
  {
    MapSeq(StubOf, ms)
  }

  /** The stub at position `i` is the one of match `i`: nothing is dropped,
      merged or reordered. */
  lemma StubsOfAt(ms: seq<SignatureMatch>, i: nat)
    requires i < |ms|
    ensures StubsOf(ms)[i] == TestStub(ms[i].parts.name, ParamNames(ms[i].parts.params))
  {
  }

  /** The loop over the matches: each one appends its stub to `testFunctions`,
      so the list holds exactly one stub per match, in match order, duplicates
      included. */
  method CollectTestFunctions(ms: seq<SignatureMatch>) returns (testFunctions: seq<string>)
    ensures testFunctions == StubsOf(ms)
  {
    testFunctions := [];
    var j := 0;
    while j < |ms|
      invariant 0 <= j <= |ms|
      invariant |testFunctions| == j
      invariant forall k :: 0 <= k < j ==> testFunctions[k] == StubOf(ms[k])
    {
      var functionName := ms[j].parts.name;
      var paramNames := ParamNames(ms[j].parts.params);
      var stub := CreateTestFunction(functionName, paramNames);
      MapStep(StubOf, ms, testFunctions, j, stub);
      testFunctions := testFunctions + [stub];
      j := j + 1;
    }
  }

  /** `createTestFile` without its writes: the location of the test, and the
      package that the file's `package` line derives again from the source path. */
  function CreateTestFile(classPath: string, testFunctions: string): (r: Result<TestFile>)
    ensures r.Err? <==> TestFilePath(classPath).Err? || ExtractPackageName(classPath).Err?
    ensures TestFilePath(classPath).Err? ==> r == Err(CannotCreateTestFile)
    ensures r.Ok? ==> r.value.testFunctions == testFunctions
    ensures r.Ok? ==> r.value.className == NameWithoutExtension(FileName(classPath)) + "Test"
    ensures r.Ok? ==> r.value.fileName == NameWithoutExtension(FileName(classPath)) + "Test.kt"
    ensures r.Ok? ==> r.value.dir == TestFilePath(classPath).value.dir && !Contains(r.value.dir, "main")
    ensures r.Ok? ==> ExtractPackageName(classPath) == Ok(r.value.packageName)
    ensures r.Ok? ==> '/' !in r.value.packageName
  {
    var testFileName := TestFilePath(classPath);
    if testFileName.Err? then Err(testFileName.error)
    else
      var packageName := ExtractPackageName(classPath);
      if packageName.Err? then Err(packageName.error)
      else
        var className := NameWithoutExtension(FileName(classPath)) + "Test";
        Ok(TestFile(testFileName.value.dir, testFileName.value.fileName,
                    packageName.value, className, testFunctions))
  }

  /** What one run of the script produces: its checks in the script's order,
      the first failing one deciding the error. */
  function Generate(annotationName: string, classPath: string, fs: FileSystem): (r: Result<TestFile>)
    ensures r.Ok? ==> classPath in fs.files
    ensures r.Ok? ==> r.value.testFunctions == Join(StubsOf(FindAll(annotationName, fs.files[classPath])), Separator)
    ensures r.Ok? ==> r.value.fileName == NameWithoutExtension(FileName(classPath)) + "Test.kt"
    ensures r.Ok? ==> r.value.className == NameWithoutExtension(FileName(classPath)) + "Test"
    ensures r.Ok? ==> !Contains(r.value.dir, "main")
    ensures r.Ok? ==> ExtractPackageName(classPath) == Ok(r.value.packageName)
  {
    if classPath !in fs.files then Err(SourceNotFound)
    else match ExtractPackageName(classPath)
      case Err(e) => Err(e)
      case Ok(_) =>
        match GetBuildGradleFile(classPath, fs)
        case Err(e) => Err(e)
        case Ok(gradleFilePath) =>
          if gradleFilePath == "" then Err(NoGradleFile)
          else if !CheckDependencies(gradleFilePath, fs) then Err(MissingDependencies)
          else
            var testFunctions := StubsOf(FindAll(annotationName, fs.files[classPath]));
            if |testFunctions| == 0 then Err(NoFunctionFound)
            else CreateTestFile(classPath, Join(testFunctions, Separator))
  }

  /** The text between two stubs of the test-function section. */
  const Separator := "\n\n"

  /** The script body, step by step, with the stubs gathered in a list. */
  method Run(annotationName: string, classPath: string, fs: FileSystem) returns (r: Result<TestFile>)
    ensures r == Generate(annotationName, classPath, fs)
  {
    if classPath !in fs.files {
      return Err(SourceNotFound);
    }
    var packageName := ExtractPackageName(classPath);
    if packageName.Err? {
      return Err(packageName.error);
    }
    var gradleFilePath := GetBuildGradleFile(classPath, fs);
    if gradleFilePath.Err? {
      return Err(gradleFilePath.error);
    }
    if gradleFilePath.value == "" {
      return Err(NoGradleFile);
    }
    if !CheckDependencies(gradleFilePath.value, fs) {
      return Err(MissingDependencies);
    }
    var fileContent := fs.files[classPath];
    var testFunctions := CollectTestFunctions(FindAll(annotationName, fileContent));
    if |testFunctions| == 0 {
      return Err(NoFunctionFound);
    }
    r := CreateTestFile(classPath, Join(testFunctions, Separator));
  }

  /** The checks that come before the search for annotated functions all pass. */
  predicate ModuleReady(classPath: string, fs: FileSystem) {
    classPath in fs.files
    && ExtractPackageName(classPath).Ok?
    && GetBuildGradleFile(classPath, fs).Ok?
    && GetBuildGradleFile(classPath, fs).value != ""
    && CheckDependencies(GetBuildGradleFile(classPath, fs).value, fs)
  }

  /** Each check of the script fails the run with its own error, in the
      script's order; a source without a single match is an error. */
  lemma FirstFailingCheck(annotationName: string, classPath: string, fs: FileSystem)
    ensures classPath !in fs.files ==> Generate(annotationName, classPath, fs) == Err(SourceNotFound)
    ensures (classPath in fs.files && ExtractPackageName(classPath).Err?) ==>
      Generate(annotationName, classPath, fs) == Err(NoSourceRoot)
    ensures (classPath in fs.files && ExtractPackageName(classPath).Ok?
      && GetBuildGradleFile(classPath, fs).Err?) ==>
      Generate(annotationName, classPath, fs) == Err(NoSrcSegment)
    ensures (classPath in fs.files && ExtractPackageName(classPath).Ok?
      && GetBuildGradleFile(classPath, fs) == Ok("")) ==>
      Generate(annotationName, classPath, fs) == Err(NoGradleFile)
    ensures (classPath in fs.files && ExtractPackageName(classPath).Ok?
      && GetBuildGradleFile(classPath, fs).Ok? && GetBuildGradleFile(classPath, fs).value != ""
      && !CheckDependencies(GetBuildGradleFile(classPath, fs).value, fs)) ==>
      Generate(annotationName, classPath, fs) == Err(MissingDependencies)
    ensures (ModuleReady(classPath, fs)
      && forall i :: 0 <= i <= |fs.files[classPath]| ==> MatchAt(annotationName, fs.files[classPath], i) == None) ==>
      Generate(annotationName, classPath, fs) == Err(NoFunctionFound)
    ensures (ModuleReady(classPath, fs) && FindAll(annotationName, fs.files[classPath]) != []
      && TestFilePath(classPath).Err?) ==>
      Generate(annotationName, classPath, fs) == Err(CannotCreateTestFile)
  {
    if classPath in fs.files {
      FindAllEmpty(annotationName, fs.files[classPath]);
    }
  }

  /** A test file is produced exactly when the module checks pass, the
      pattern matches somewhere in the source and the test location exists. */
  lemma OutputIff(annotationName: string, classPath: string, fs: FileSystem)
    ensures Generate(annotationName, classPath, fs).Ok? <==>
      ModuleReady(classPath, fs)
      && (exists i :: 0 <= i <= |fs.files[classPath]| && MatchAt(annotationName, fs.files[classPath], i).Some?)
      && TestFilePath(classPath).Ok?
  {
    if ModuleReady(classPath, fs) {
      ReadyOutput(annotationName, classPath, fs);
      FindAllEmpty(annotationName, fs.files[classPath]);
    } else {
      UnreadyOutput(annotationName, classPath, fs);
    }
  }

  lemma ReadyOutput(annotationName: string, classPath: string, fs: FileSystem)
    requires ModuleReady(classPath, fs)
    ensures Generate(annotationName, classPath, fs).Ok? <==>
      FindAll(annotationName, fs.files[classPath]) != [] && TestFilePath(classPath).Ok?
  {
  }

  lemma UnreadyOutput(annotationName: string, classPath: string, fs: FileSystem)
    requires !ModuleReady(classPath, fs)
    ensures Generate(annotationName, classPath, fs).Err?
  {
  }

  /** A produced file goes to the directory `createTestFile` derives. */
  lemma GenerateDir(annotationName: string, classPath: string, fs: FileSystem)
    requires Generate(annotationName, classPath, fs).Ok?
    ensures TestFilePath(classPath).Ok?
    ensures Generate(annotationName, classPath, fs).value.dir == TestFilePath(classPath).value.dir
  {
    if !ModuleReady(classPath, fs) {
      UnreadyOutput(annotationName, classPath, fs);
      assert false;
    }
    ReadyOutput(annotationName, classPath, fs);
    ReadyGenerate(annotationName, classPath, fs);
  }

  /** A sample source path end to end: `<pre>src/main/kotlin/com/x/Calc.kt`, holding
      the sample signature, in a module whose checks pass, gives
      `<pre>src/test/kotlin/com/x/CalcTest.kt` in package `com.x` with that one stub. */
  lemma CalcEndToEnd(pre: string, fs: FileSystem)
    requires !Contains(pre, "main") && !Contains(pre, "Calc.kt") && !Contains(pre, KotlinRoot)
    requires ModuleReady(pre + "src/main/kotlin/com/x/Calc.kt", fs)
    requires fs.files[pre + "src/main/kotlin/com/x/Calc.kt"] == AddNumbersSignature
    ensures Generate("Test", pre + "src/main/kotlin/com/x/Calc.kt", fs)
      == Ok(TestFile(pre + "src/test/kotlin/com/x/", "CalcTest.kt", "com.x", "CalcTest",
                     TestStub("addNumbers", "a, b")))
  {
    var path := pre + "src/main/kotlin/com/x/Calc.kt";
    var stub := TestStub("addNumbers", "a, b");
    assert Join(StubsOf(FindAll("Test", fs.files[path])), Separator) == stub by {
      AddNumbersStubs();
    }
    ReadyGenerate("Test", path, fs);
    CalcCreate(pre, stub);
  }

  /** In a module whose checks pass and that has a match, the run is
      `createTestFile` on the joined stubs. */
  lemma ReadyGenerate(annotationName: string, classPath: string, fs: FileSystem)
    requires ModuleReady(classPath, fs) && FindAll(annotationName, fs.files[classPath]) != []
    ensures Generate(annotationName, classPath, fs)
      == CreateTestFile(classPath, Join(StubsOf(FindAll(annotationName, fs.files[classPath])), Separator))
  {
  }

  // ---------------------------------------------------------------------------
  // Helpers about the sample source path; they model nothing of the script
  // and only feed `CalcEndToEnd`.

  lemma AddNumbersStubs()
    ensures Join(StubsOf(FindAll("Test", AddNumbersSignature)), Separator) == TestStub("addNumbers", "a, b")
  {
    var m := SignatureMatch(0, |AddNumbersSignature|,
      Parts(" ", "", "", " ", "addNumbers", "a: Int, b: Int", " ", "Int"));
    AddNumbersFound();
    TwoParams();
    assert StubOf(m) == TestStub("addNumbers", "a, b");
    assert StubsOf([m]) == [StubOf(m)];
  }

  lemma CalcCreate(pre: string, testFunctions: string)
    requires !Contains(pre, "main") && !Contains(pre, "Calc.kt") && !Contains(pre, KotlinRoot)
    ensures CreateTestFile(pre + "src/main/kotlin/com/x/Calc.kt", testFunctions)
      == Ok(TestFile(pre + "src/test/kotlin/com/x/", "CalcTest.kt", "com.x", "CalcTest", testFunctions))
  {
    var path := pre + "src/main/kotlin/com/x/Calc.kt";
    CalcTestLocation(pre);
    CalcPackage(pre);
    assert NameWithoutExtension(FileName(path)) + "Test" == "CalcTest" by {
      CalcNames(pre);
      CalcClassName();
    }
  }

  lemma CalcClassName()
    ensures "Calc" + "Test" == "CalcTest"
  {
  }
}
