# utgen — unit-test stub generator, modelled in Dafny

`utgen.kts` is a Kotlin script. It takes an annotation name and the path of a
Kotlin or Java source file inside a Gradle module (`.../src/main/kotlin/...` or
`.../src/main/java/...`). It then does the following:

- derives the file's package from its path;
- finds the module's `build.gradle` (or `build.gradle.kts`) and checks that it
  declares a `testImplementation` dependency;
- finds every function signature in the source that carries `@<annotation>`,
  using one fixed regular expression;
- renders one six-line JUnit stub per match, in match order;
- writes a test class holding the stubs, joined by blank lines, to the matching
  `src/test/...` directory, with the name `<Name>Test.kt`.

The model keeps the script's structure:

- `Results`: the error kinds.
  - One per `throw` after the argument checks: `SourceNotFound`, `NoSourceRoot`,
    `NoSrcSegment`, `NoGradleFile`, `MissingDependencies`, `NoFunctionFound` and
    `CannotCreateTestFile`. The two argument-check `throw`s (utgen.kts:3-12) are
    left out.
  - `Result`/`Option` stand in for exceptions and nulls.
- `Text`: the Kotlin string operations the script uses, with their library
  semantics.
  - `indexOf`, `contains`, `split` keeps empty pieces, including trailing ones.
  - `joinToString`.
  - `replace` replaces every occurrence. `replaceFirst`.
  - `trim` uses Kotlin's `isWhitespace`.
- `Paths`: the pure path computations.
  - `extractPackageName`.
  - The name choice of `getBuildGradleFile`.
  - `checkDependencies`.
  - The test file name and directory at the top of `createTestFile`.

  The file system is a value, `FileSystem(dirs, files)`: `dirs` holds the entry
  names each directory lists, and `files` holds the text of each readable file.
- `Render`: `String.camelcase`, `createTestFunction` and the line-47 parameter-name
  expression.
  - `createTestFunction` is a method that appends line by line, as `buildString`
    does. It is proved equal to the joined six lines.
- `Signatures`: a hand-written matcher for the line-35 pattern and `findAll`.
  - The pattern is `@<annotation>\s+(?:private|public|protected|internal)?\s*fun\s+(\w+)\(([^)]*)\):\s*(\w+)`.
  - `MatchAt` is tried at one position. It is proved equal to a declarative
    reference, `Matched` ("the parts obey the sub-patterns and spell the text").
  - `FindAll` scans left to right without overlap. It is proved to miss no match.
- `Generator`: the script body.
  - `CollectTestFunctions` is the loop that appends one stub per match to the list
    `testFunctions`.
  - `Run` is the imperative script, with early returns for the `throw`s.
  - `Generate` is the same run as a function.
  - The lemmas prove which check fails first and exactly when a file is produced.

Behaviour of the code worth knowing:

- `createTestFile` calls `replace("main", "test")` (utgen.kts:172), which turns
  every `main` of the directory into `test`, wherever it occurs.
- The test file is always named `<base>Test.kt` (utgen.kts:171), also for Java
  sources.
- `classPath.split(marker)[1]` (utgen.kts:102) is the text between the first and
  the second occurrence of the source root.
- Line 47 deletes every `:` of the first token and cuts each piece at its first
  space `' '`.
- `extractPackageName` deletes every occurrence of `/<file name>`
  (utgen.kts:104).
- The doc comment of `getBuildGradleFile` (utgen.kts:114) says it throws when the
  path does not contain `/src`. The code fails only when the text before the first
  `/src` is empty. A path without any `/src` is not rejected there: the whole path is taken as the
  module directory, and since that is the source file itself, no build file is
  found there.

## Model

| member | source | states |
|---|---|---|
| Text.IndexOf | utgen.kts:90-92 | `indexOf`: -1 exactly when the pattern occurs nowhere; otherwise an occurrence with none before it |
| Text.ContainsIff | utgen.kts:90-92 | `contains` holds exactly when the pattern occurs at some index |
| Text.Join | utgen.kts:59 | `joinToString(sep)` is as long as all pieces together plus one separator between each two neighbours |
| Text.Split | utgen.kts:102 | `split` yields at least one piece; at least two exactly when the delimiter occurs; no piece contains the delimiter; joining the pieces with it gives the text back |
| Text.SplitHead | utgen.kts:117 | piece 0 of a split is the text before the first occurrence, or the whole text when there is none |
| Text.SplitCount | utgen.kts:47 | splitting on one character gives one piece more than the number of times it occurs |
| Text.SplitJoin | utgen.kts:47 | joining pieces that lack the delimiter's first character and splitting again gives the pieces back |
| Text.ReplaceAll | utgen.kts:104 | `replace` leaves a text without the pattern unchanged, and keeps the length when the pattern and replacement have equal length |
| Text.ReplaceAllIsSplitJoin | utgen.kts:104 | `replace(pat, rep)` equals splitting on `pat` and joining with `rep` |
| Text.ReplaceAllLeavesNone | utgen.kts:172 | after `replace`, no occurrence of the pattern remains when the replacement is non-empty and shares no character with it |
| Text.ReplaceAllRemovesChar | utgen.kts:106 | replacing a character with text that lacks it removes every copy of it |
| Text.ReplaceAllChars | utgen.kts:104 | every character of a `replace` result comes from the text or the replacement |
| Text.ReplaceFirst | utgen.kts:106 | `replaceFirst` puts the replacement in place of the first occurrence: the text before it and after it is kept, the replacement stands where the occurrence began, and a text without the pattern is unchanged |
| Text.Trim | utgen.kts:47 | `trim` gives the slice of the text that starts after its leading whitespace and has no whitespace at either end |
| Text.TrimCutsWhitespace | utgen.kts:47 | everything `trim` cuts off, before and after the slice, is whitespace |
| Text.TrimChars | utgen.kts:47 | trimming adds no character |
| Text.JoinLayout | utgen.kts:59 | in `joinToString(sep)`, piece j sits after all earlier pieces and separators, a separator follows every piece except the last, and nothing follows the last |
| Paths.FileName | utgen.kts:103 | `File.name` has no `/`, is a suffix of the path, and is preceded by a `/` unless it is the whole path |
| Paths.FileNameAfterSlash | utgen.kts:103 | the name of `dir/name` is `name` when it has no `/` |
| Paths.NameWithoutExtension | utgen.kts:171 | `nameWithoutExtension` is the prefix before the last `.`, or the whole name when it has no `.` |
| Paths.ExtractPackageName | utgen.kts:89-107 | fails (`NoSourceRoot`) exactly when neither `src/main/kotlin` nor `src/main/java` occurs; uses the Kotlin root whenever it occurs and the Java root otherwise; a package never contains `/` |
| Paths.ExtractPackageNameOfLayout | utgen.kts:102-106 | for `<pre><root>/<dirs>/<name>`, where `root` is the Kotlin root or, in a path without the Kotlin root, the Java root, with the root first at the end of `<pre><root>` and not again, a non-empty `name` without `/`, and `/<name>` not occurring in `/<dirs>`, the package is `dirs` with `/` turned into `.` |
| Paths.KotlinPackageExample | utgen.kts:89-107 | `<pre>src/main/kotlin/a/b/C.kt` is in package `a.b` when `pre` holds no Kotlin root |
| Paths.JavaPackageExample | utgen.kts:89-107 | `<pre>src/main/java/a/b/C.java` is in package `a.b` when `pre` holds neither root |
| Paths.CalcPackage | utgen.kts:89-107 | `<pre>src/main/kotlin/com/x/Calc.kt` is in package `com.x` when `pre` holds no Kotlin root |
| Paths.DefaultPackage | utgen.kts:102-106 | a file directly under the source root is in the empty package |
| Paths.ModuleRootIsBeforeFirstSrc | utgen.kts:117 | the module directory is the prefix before the first `/src` (the whole path when there is none) and holds no `/src` |
| Paths.GetBuildGradleFile | utgen.kts:116-143 | an empty text before the first `/src` is an error (`NoSrcSegment`); `build.gradle` is chosen whenever it is listed, also beside `build.gradle.kts`; `build.gradle.kts` exactly when it is listed and `build.gradle` is not; `""` exactly when the directory is missing or lists neither |
| Paths.CheckDependencies | utgen.kts:151-159 | true exactly when the build file exists and its text contains `testImplementation` |
| Paths.SourceDir | utgen.kts:172 | `split(name)[0]`: the text before the first occurrence of the file name, which occurs at the latest as the path's suffix; empty when the name is empty |
| Paths.TestDir | utgen.kts:172 | `replace("main", "test")` on the source directory: split on `main`, joined with `test`; no `main` is left and the length is kept |
| Paths.TestFilePath | utgen.kts:170-175 | an error (`CannotCreateTestFile`) exactly when the text before the file name is empty; otherwise the name is `nameWithoutExtension + "Test.kt"` and the directory is the source directory with every `main` turned into `test`, so it contains no `main` |
| Paths.TestFileNameOf | utgen.kts:171 | `dir/base.ext` is tested in `baseTest.kt`, whatever the extension (`java` included) |
| Paths.CalcTestLocation | utgen.kts:171-175 | `<pre>src/main/kotlin/com/x/Calc.kt` is tested in directory `<pre>src/test/kotlin/com/x/` under the name `CalcTest.kt`, when `pre` holds neither `main` nor `Calc.kt` |
| Render.Camelcase | utgen.kts:220-222 | only the first character can change: an upper-case first letter becomes the matching lower-case letter; length and the rest are kept; `""` maps to `""`; the result never starts with an upper-case letter |
| Render.CamelcaseIdempotent | utgen.kts:220-222 | `camelcase` applied twice equals applied once |
| Render.CreateTestFunction | utgen.kts:70-80 | appending the six lines, each followed by a line break, gives the stub text |
| Render.StubShape | utgen.kts:70-79 | the stub splits on line breaks into exactly the six lines (`    @Test`, `    fun <camelcase(f)>Test() {`, `        //TODO: val result = f(p)`, the two fixed TODO lines, `    }`) and an empty trailing piece |
| Render.ParamName | utgen.kts:47 | the name taken from one piece holds no `:` and no space, and only characters of that piece |
| Render.ParamNameList | utgen.kts:47 | k commas in the parameter text give k + 1 names; none holds `:`, a space or `,` |
| Render.ParamNames | utgen.kts:47 | the whole line-47 text: splitting it on `", "` gives back exactly the per-piece names |
| Render.ParamNamesSplit | utgen.kts:47 | with k commas in the parameter text, the result holds k + 1 names separated by `", "`, none holding `:`, a space or `,` |
| Render.NoParams | utgen.kts:47 | an empty parameter list gives `""` |
| Render.ParamNameOfDecl | utgen.kts:47 | a piece `<whitespace>name: Type` names the parameter `name` |
| Render.TwoDecls | utgen.kts:47 | `n1: T1, n2: T2` gives `n1, n2` |
| Render.TwoParams | utgen.kts:47 | `"a: Int, b: Int"` gives `"a, b"` |
| Signatures.Skip | utgen.kts:35 | a greedy run of a character class ends at the first character outside it |
| Signatures.SkipIs | utgen.kts:35 | a greedy run ends exactly where the first non-class character (or the end) is |
| Signatures.VisibilityIn | utgen.kts:35 | the optional group gives one of `private`, `public`, `protected`, `internal`, or nothing |
| Signatures.MatchAt | utgen.kts:35 | a match found at `i` starts at `i` and is non-empty within the text |
| Signatures.MatchAtSound | utgen.kts:35 | what the matcher finds at `i` is a well-formed spelling of a signature there, whose return type cannot be extended |
| Signatures.MatchOfParts | utgen.kts:35 | every well-formed spelling at `i` that is not followed by a word character is what the matcher finds there |
| Signatures.MatchAtExactly | utgen.kts:35 | the matcher finds `m` at `i` exactly when `m` starts at `i` and is a match by the reference definition |
| Signatures.AddNumbersExample | utgen.kts:35-46 | `@Test fun addNumbers(a: Int, b: Int): Int` matches at 0 as a whole, with name `addNumbers` and parameters `a: Int, b: Int` |
| Signatures.Scan | utgen.kts:43 | the scan yields recorded matches, from the start position on, in order and without overlap |
| Signatures.ScanCovers | utgen.kts:43 | every position that holds a match lies inside a scanned match |
| Signatures.FindAll | utgen.kts:43 | `findAll` yields matches in text order, each what the pattern gives at its start, none overlapping the next |
| Signatures.FindAllCovers | utgen.kts:43 | no match is missed: every matching position lies inside a found match |
| Signatures.FindAllWhole | utgen.kts:43 | a match spanning the whole text is the only one `findAll` reports |
| Signatures.AddNumbersFound | utgen.kts:35-46 | `findAll` finds exactly one match in `@Test fun addNumbers(a: Int, b: Int): Int` |
| Signatures.FindAllEmpty | utgen.kts:43 | `findAll` finds nothing exactly when the pattern matches at no position |
| Generator.StubsOfAt | utgen.kts:43-50 | stub i of the list is the stub of match i: one per match, in order, duplicates kept |
| Generator.CollectTestFunctions | utgen.kts:39-50 | the loop leaves exactly one stub per match in `testFunctions`, in match order |
| Generator.CreateTestFile | utgen.kts:170-211 | fails exactly when the test location or the package cannot be derived (`CannotCreateTestFile` first); otherwise the file name is `<base>Test.kt`, the class `<base>Test`, the directory has no `main`, the package equals the run's earlier `extractPackageName` result and holds no `/`, and the stubs are placed as given |
| Generator.Generate | utgen.kts:14-59 | a produced file needs an existing source; its section of stubs is the stubs of all matches joined by `"\n\n"`; its file name is `<base>Test.kt`, its class `<base>Test`, its directory holds no `main`, and its package is the one `extractPackageName` gives |
| Generator.GenerateDir | utgen.kts:170-175 | a produced file goes exactly to the directory `createTestFile` derives from the source path |
| Generator.ReadyGenerate | utgen.kts:43-59 | once the module checks pass and something matches, the run is `createTestFile` on the stubs joined by `"\n\n"` |
| Generator.CalcEndToEnd | utgen.kts:14-211 | the source `<pre>src/main/kotlin/com/x/Calc.kt` holding `@Test fun addNumbers(a: Int, b: Int): Int`, in a module whose checks pass, gives directory `<pre>src/test/kotlin/com/x/`, file `CalcTest.kt`, package `com.x`, class `CalcTest` and the one stub for `addNumbers(a, b)`, when `pre` holds neither `main` nor `Calc.kt` |
| Generator.Run | utgen.kts:14-59 | the step-by-step script, with its loop, produces exactly what `Generate` gives |
| Generator.FirstFailingCheck | utgen.kts:17-59 | each check fails the run with its own error, in script order: missing source, no source root, no `/src`, no build file, no `testImplementation`, no match (no output), no test directory |
| Generator.OutputIff | utgen.kts:22-59 | a test file is produced exactly when the module checks pass, the pattern matches somewhere in the source and the test location exists |
| Generator.ReadyOutput | utgen.kts:35-59 | once the module checks pass, a file is produced exactly when `findAll` is non-empty and the test location exists |
| Generator.UnreadyOutput | utgen.kts:17-33 | a run whose module checks fail produces no file |

## Left out

- The argument checks at utgen.kts:3-12 (argument count, empty path) guard process input; the model starts from the two arguments.
- File-system effects: `mkdirs`, `writeText` and the returned path (utgen.kts:177-183, 211). `Generate` returns the `TestFile` record that would be written instead.
- `println` progress messages (utgen.kts:41, 57, 61) are left out.
- `File.exists()` is true for directories too, and `readText` would then throw. The model treats only entries of `files` as existing sources and build files, and only entries of `dirs` as listable directories.
- `File(...)` path normalisation is not modelled. The package line re-derives the package from `originalFile.path` (utgen.kts:185), which the model takes to be `classPath` itself. Relative paths are kept as given.
- The fixed boilerplate of the test file (imports, doc comment, `setup`/`tearDown`) and `trimIndent` (utgen.kts:184-210) are left out. The model keeps the parts that depend on the input: package, class name, file name, directory and the joined stubs.
- Full regular-expression semantics are not modelled. The annotation name is spliced into the pattern unescaped (utgen.kts:35); the model takes it as literal text, which is right for identifier-only annotations.
- Unicode case mapping: `camelcase` lower-cases only ASCII `A`-`Z`. Kotlin's `isUpperCase`/`lowercase` cover all of Unicode, and can produce several characters.
- `java.io.File.name` uses the platform separator. The model uses `/`.
- Render.StubShape: requires that neither the function name nor the parameter names contain a line break. A parameter list spread over several lines, such as `(a:\nInt)`, can give a name with a line break inside, and then the stub has more than six lines. Function names never contain one, since they are `\w+`.
- Signatures.AddNumbersExample: shown for the annotation `Test` and this one signature text only. The general statements are `MatchAtExactly` and `FindAll`.
