/** What the generator writes for one matched function: the test-function
    name (`String.camelcase`), the six-line stub (`createTestFunction`) and
    the parameter-name list passed to it (the expression at line 47). */
module Render {
  import opened Text

  /** ASCII upper-case letter: the only kind of character `camelcase` rewrites here. */
  predicate IsUpper(c: char) {
    'A' <= c <= 'Z'
  }

  function Lowercase(c: char): char
    requires IsUpper(c)
  {
    (c as int + 32) as char
  }

  /** `String.camelcase()`: `replaceFirstChar` lower-cases an upper-case first
      letter and leaves every other string alone. */
  function Camelcase(s: string): (r: string)
    ensures |r| == |s|
    ensures s != [] ==> r[1..] == s[1..]
    ensures s != [] && IsUpper(s[0]) ==>
      'a' <= r[0] <= 'z' && r[0] as int - 'a' as int == s[0] as int - 'A' as int
    ensures s == [] || !IsUpper(s[0]) ==> r == s
    ensures r == [] || !IsUpper(r[0])
  {
    if s != [] && IsUpper(s[0]) then [Lowercase(s[0])] + s[1..] else s
  }

  /** Lower-casing the first letter twice is the same as doing it once. */
  lemma CamelcaseIdempotent(s: string)
    ensures Camelcase(Camelcase(s)) == Camelcase(s)
  {
  }

  /** `camelcase` introduces no line break. */
  lemma CamelcaseKeepsNewlines(s: string)
    ensures '\n' in Camelcase(s) <==> '\n' in s
  {
    if s != [] {
      assert s == [s[0]] + s[1..];
      assert Camelcase(s) == [Camelcase(s)[0]] + s[1..];
    }
  }

  /** One indent level, `"    ".repeat(1)`. */
  const Indent := "    "

  /** The six lines `createTestFunction` appends, without their line breaks. */
  function StubLines(functionName: string, paramNames: string): seq<string> {
    [ Indent + "@Test",
      Indent + "fun " + Camelcase(functionName) + "Test() {",
      Indent + "    //TODO: val result = " + functionName + "(" + paramNames + ")",
      Indent + "    //TODO: Add logic for your test",
      Indent + "    //TODO: Assert the result is expected",
      Indent + "}" ]
  }

  /** The text a `buildString` receives from `appendLine` of each line in turn. */
  function Unlines(lines: seq<string>): string
    decreases |lines|
  {
    if lines == [] then "" else lines[0] + "\n" + Unlines(lines[1..])
  }

  function TestStub(functionName: string, paramNames: string): string {
    Unlines(StubLines(functionName, paramNames))
  }

  /** `createTestFunction`: `buildString` with one `appendLine` per line. */
  method CreateTestFunction(functionName: string, paramNames: string) returns (r: string)
    ensures r == TestStub(functionName, paramNames)
  {
    var indent := Indent;
    var sb := "";
    sb := sb + (indent + "@Test" + "\n");
    sb := sb + (indent + "fun " + Camelcase(functionName) + "Test() {" + "\n");
    sb := sb + (indent + "    //TODO: val result = " + functionName + "(" + paramNames + ")" + "\n");
    sb := sb + (indent + "    //TODO: Add logic for your test" + "\n");
    sb := sb + (indent + "    //TODO: Assert the result is expected" + "\n");
    sb := sb + (indent + "}" + "\n");
    r := sb;
    var ls := StubLines(functionName, paramNames);
    UnlinesOfSix(ls[0], ls[1], ls[2], ls[3], ls[4], ls[5]);
    assert ls == [ls[0], ls[1], ls[2], ls[3], ls[4], ls[5]];
  }

  /** Appending one more line appends it and its break to the text. */
  lemma {:induction false} UnlinesSnoc(lines: seq<string>, line: string)
    ensures Unlines(lines + [line]) == Unlines(lines) + (line + "\n")
    decreases |lines|
  {
    if lines == [] {
      assert [] + [line] == [line];
      assert [line][1..] == [];
    } else {
      var rest := lines[1..];
      UnlinesSnoc(rest, line);
      assert (lines + [line])[0] == lines[0];
      assert (lines + [line])[1..] == rest + [line];
      var u := Unlines(rest);
      assert lines[0] + "\n" + (u + (line + "\n")) == (lines[0] + "\n" + u) + (line + "\n");
    }
  }

  lemma UnlinesOfSix(a: string, b: string, c: string, d: string, e: string, f: string)
    ensures Unlines([a, b, c, d, e, f])
      == "" + (a + "\n") + (b + "\n") + (c + "\n") + (d + "\n") + (e + "\n") + (f + "\n")
  {
    UnlinesSnoc([], a);
    UnlinesSnoc([a], b);
    UnlinesSnoc([a, b], c);
    UnlinesSnoc([a, b, c], d);
    UnlinesSnoc([a, b, c, d], e);
    UnlinesSnoc([a, b, c, d, e], f);
    assert [] + [a] == [a];
    assert [a] + [b] == [a, b];
    assert [a, b] + [c] == [a, b, c];
    assert [a, b, c] + [d] == [a, b, c, d];
    assert [a, b, c, d] + [e] == [a, b, c, d, e];
    assert [a, b, c, d, e] + [f] == [a, b, c, d, e, f];
  }

  /** Lines without breaks, each terminated by one, split back into those
      lines and one empty trailing piece. */
  lemma {:induction false} SplitUnlines(lines: seq<string>)
    requires forall i :: 0 <= i < |lines| ==> '\n' !in lines[i]
    ensures Split(Unlines(lines), "\n") == lines + [""]
    decreases |lines|
  {
    if lines == [] {
      assert Split("", "\n") == [""];
    } else {
      var rest := lines[1..];
      forall i | 0 <= i < |rest| ensures '\n' !in rest[i] {
        assert rest[i] == lines[i + 1];
      }
      SplitUnlines(rest);
      SplitUnlinesStep(lines, Unlines(rest), rest + [""]);
    }
  }

  lemma SplitUnlinesStep(lines: seq<string>, u: string, tail: seq<string>)
    requires lines != [] && '\n' !in lines[0]
    requires u == Unlines(lines[1..]) && Split(u, "\n") == tail && tail == lines[1..] + [""]
    ensures Split(Unlines(lines), "\n") == lines + [""]
  {
    SplitStep(lines[0], "\n", u);
    assert lines + [""] == [lines[0]] + tail;
  }

  /** The stub is exactly the six lines of `StubLines`, each terminated by
      `\n` (so splitting on `\n` leaves one empty piece after them), provided
      neither input holds a line break. */
  lemma StubShape(functionName: string, paramNames: string)
    requires '\n' !in functionName && '\n' !in paramNames
    ensures Split(TestStub(functionName, paramNames), "\n") == StubLines(functionName, paramNames) + [""]
    ensures |Split(TestStub(functionName, paramNames), "\n")| == 7
  {
    StubLinesUnbroken(functionName, paramNames);
    SplitUnlines(StubLines(functionName, paramNames));
  }

  lemma StubLinesUnbroken(functionName: string, paramNames: string)
    requires '\n' !in functionName && '\n' !in paramNames
    ensures forall i :: 0 <= i < |StubLines(functionName, paramNames)| ==>
      '\n' !in StubLines(functionName, paramNames)[i]
  {
    var ls := StubLines(functionName, paramNames);
    CamelcaseKeepsNewlines(functionName);
    NoNewlineIn3(Indent + "fun ", Camelcase(functionName), "Test() {");
    NoNewlineIn3(Indent + "    //TODO: val result = ", functionName, "(");
    NoNewlineIn3(Indent + "    //TODO: val result = " + functionName + "(", paramNames, ")");
    FixedLinesUnbroken();
  }

  /** The four lines of the stub that do not depend on the function. */
  lemma FixedLinesUnbroken()
    ensures '\n' !in Indent + "@Test" && '\n' !in Indent + "}"
    ensures '\n' !in Indent + "    //TODO: Add logic for your test"
    ensures '\n' !in Indent + "    //TODO: Assert the result is expected"
  {
  }

  lemma NoNewlineIn3(a: string, b: string, c: string)
    requires '\n' !in a && '\n' !in b && '\n' !in c
    ensures '\n' !in a + b + c
  {
  }

  /** The name of one parameter: the piece trimmed, cut at the first space, with
      every `:` deleted. `getOrNull(0)` never yields null, since `split` returns
      at least one piece. */
  function ParamName(piece: string): (r: string)
    ensures ':' !in r && ' ' !in r
    ensures forall c :: c in r ==> c in piece
  {
    TrimChars(piece);
    DropColons(FirstToken(Trim(piece)))
  }

  /** `split(" ").getOrNull(0)`: the text up to the first space. */
  function FirstToken(s: string): (r: string)
    ensures ' ' !in r
    ensures forall c :: c in r ==> c in s
  {
    var r := Split(s, " ")[0];
    SplitHead(s, " ");
    CharBeforeFirst(s, ' ');
    assert forall c :: c in r ==> c in s by {
      if Contains(s, " ") {
        assert forall c :: c in s[..IndexOf(s, " ")] ==> c in s;
      }
    }
    r
  }

  /** `replace(":", "")`: the text with every colon deleted. */
  function DropColons(s: string): (r: string)
    ensures ':' !in r
    ensures forall c :: c in r ==> c in s
  {
    ReplaceAllRemovesChar(s, ':', "");
    ReplaceAllChars(s, ":", "");
    ReplaceAll(s, ":", "")
  }

  /** One name per comma-separated piece of the captured parameter text. */
  function ParamNameList(params: string): (r: seq<string>)
    ensures |r| == multiset(params)[','] + 1
    ensures forall i :: 0 <= i < |r| ==> ':' !in r[i] && ' ' !in r[i] && ',' !in r[i]
  {
    var pieces := Split(params, ",");
    SplitCount(params, ',');
    forall i | 0 <= i < |pieces| ensures ',' !in pieces[i] {
      CharBeforeFirst(pieces[i], ',');
    }
    seq(|pieces|, i requires 0 <= i < |pieces| => ParamName(pieces[i]))
  }

  /** The `paramNames` text of line 47: the names joined with `", "`. */
  function ParamNames(params: string): (r: string)
    ensures Split(r, ", ") == ParamNameList(params)
  {
    SplitJoin(ParamNameList(params), ", ");
    Join(ParamNameList(params), ", ")
  }

  /** With k commas in the parameter text, the result holds exactly k + 1
      names separated by `", "`, none holding a comma, colon or space. */
  lemma ParamNamesSplit(params: string)
    ensures |Split(ParamNames(params), ", ")| == multiset(params)[','] + 1
    ensures forall i :: 0 <= i < |Split(ParamNames(params), ", ")| ==>
      var n := Split(ParamNames(params), ", ")[i]; ':' !in n && ' ' !in n && ',' !in n
  {
  }

  /** An empty parameter list gives an empty name list. */
  lemma NoParams()
    ensures ParamNames("") == ""
  {
    assert Split("", ",") == [""];
    assert Trim("") == "";
    assert Split("", " ") == [""];
    assert ReplaceAll("", ":", "") == "";
  }

  /** Leading whitespace is all `trimStart` removes. */
  lemma {:induction false} TrimStartOf(lead: string, x: string)
    requires forall i :: 0 <= i < |lead| ==> IsWhitespace(lead[i])
    requires x == [] || !IsWhitespace(x[0])
    ensures TrimStart(lead + x) == x
    decreases |lead|
  {
    if lead != [] {
      assert (lead + x)[1..] == lead[1..] + x;
      TrimStartOf(lead[1..], x);
    } else {
      assert lead + x == x;
    }
  }

  /** The piece of a declaration `name: Type`, after any leading whitespace,
      names the parameter `name`. */
  lemma ParamNameOfDecl(lead: string, name: string, typ: string, piece: string)
    requires forall i :: 0 <= i < |lead| ==> IsWhitespace(lead[i])
    requires name != [] && !IsWhitespace(name[0]) && ' ' !in name && ':' !in name
    requires typ != [] && !IsWhitespace(typ[|typ| - 1])
    requires piece == lead + (name + ": " + typ)
    ensures ParamName(piece) == name
  {
    TrimDecl(lead, name, typ);
    TokenOfDecl(name, typ);
    DropColon(name);
    assert FirstToken(Trim(piece)) == name + ":";
  }

  lemma DropColon(name: string)
    requires ':' !in name
    ensures ReplaceAll(name + ":", ":", "") == name
  {
    assert name + ":" == name + ":" + "";
    ReplaceAllStep(name, ":", "", "");
  }

  lemma TrimDecl(lead: string, name: string, typ: string)
    requires forall i :: 0 <= i < |lead| ==> IsWhitespace(lead[i])
    requires name != [] && !IsWhitespace(name[0])
    requires typ != [] && !IsWhitespace(typ[|typ| - 1])
    ensures Trim(lead + (name + ": " + typ)) == name + ": " + typ
  {
    var x := name + ": " + typ;
    assert x[0] == name[0];
    assert x[|x| - 1] == typ[|typ| - 1];
    TrimStartOf(lead, x);
    assert TrimEnd(x) == x;
  }

  lemma TokenOfDecl(name: string, typ: string)
    requires ' ' !in name
    ensures Split(name + ": " + typ, " ")[0] == name + ":"
  {
    assert name + ": " + typ == (name + ":") + " " + typ;
    SplitStep(name + ":", " ", typ);
  }

  /** Two declarations separated by `", "` give their two names, joined by `", "`. */
  lemma TwoDecls(n1: string, t1: string, n2: string, t2: string)
    requires n1 != [] && !IsWhitespace(n1[0]) && ' ' !in n1 && ':' !in n1 && ',' !in n1
    requires t1 != [] && !IsWhitespace(t1[|t1| - 1]) && ',' !in t1
    requires n2 != [] && !IsWhitespace(n2[0]) && ' ' !in n2 && ':' !in n2 && ',' !in n2
    requires t2 != [] && !IsWhitespace(t2[|t2| - 1]) && ',' !in t2
    ensures ParamNames(n1 + ": " + t1 + ", " + n2 + ": " + t2) == n1 + ", " + n2
  {
    var params := n1 + ": " + t1 + ", " + n2 + ": " + t2;
    SplitDecls(n1, t1, n2, t2);
    FirstDeclName(n1, t1);
    LaterDeclName(n2, t2);
    JoinTwo(params, n1 + ": " + t1, " " + n2 + ": " + t2, n1, n2);
  }

  lemma FirstDeclName(name: string, typ: string)
    requires name != [] && !IsWhitespace(name[0]) && ' ' !in name && ':' !in name
    requires typ != [] && !IsWhitespace(typ[|typ| - 1])
    ensures ParamName(name + ": " + typ) == name
  {
    var piece := name + ": " + typ;
    assert piece == [] + (name + ": " + typ);
    ParamNameOfDecl([], name, typ, piece);
  }

  lemma LaterDeclName(name: string, typ: string)
    requires name != [] && !IsWhitespace(name[0]) && ' ' !in name && ':' !in name
    requires typ != [] && !IsWhitespace(typ[|typ| - 1])
    ensures ParamName(" " + name + ": " + typ) == name
  {
    var piece := " " + name + ": " + typ;
    assert piece == " " + (name + ": " + typ);
    assert forall i :: 0 <= i < |" "| ==> IsWhitespace(" "[i]);
    ParamNameOfDecl(" ", name, typ, piece);
  }

  lemma SplitDecls(n1: string, t1: string, n2: string, t2: string)
    requires ',' !in n1 && ',' !in t1 && ',' !in n2 && ',' !in t2
    ensures Split(n1 + ": " + t1 + ", " + n2 + ": " + t2, ",") == [n1 + ": " + t1, " " + n2 + ": " + t2]
  {
    var d1, d2 := n1 + ": " + t1, " " + n2 + ": " + t2;
    DeclsText(n1, t1, n2, t2);
    NoCommaInDecl(n1, t1);
    NoCommaInDecl(n2, t2);
    SplitTwo(d1, d2);
  }

  lemma DeclsText(n1: string, t1: string, n2: string, t2: string)
    ensures n1 + ": " + t1 + ", " + n2 + ": " + t2 == (n1 + ": " + t1) + "," + (" " + n2 + ": " + t2)
  {
  }

  lemma NoCommaInDecl(name: string, typ: string)
    requires ',' !in name && ',' !in typ
    ensures ',' !in name + ": " + typ && ',' !in " " + name + ": " + typ
  {
  }

  lemma SplitTwo(d1: string, d2: string)
    requires ',' !in d1 && ',' !in d2
    ensures Split(d1 + "," + d2, ",") == [d1, d2]
  {
    SplitStep(d1, ",", d2);
    AbsentChar(d2, ",", 0);
  }

  lemma JoinTwo(params: string, d1: string, d2: string, n1: string, n2: string)
    requires Split(params, ",") == [d1, d2]
    requires ParamName(d1) == n1 && ParamName(d2) == n2
    ensures ParamNames(params) == n1 + ", " + n2
  {
    var l := ParamNameList(params);
    assert |l| == 2 && l[0] == n1 && l[1] == n2;
    assert Join(l[1..], ", ") == n2 by {
      assert |l[1..]| == 1 && l[1..][0] == n2;
    }
  }

  /** `"a: Int, b: Int"` gives `"a, b"`. */
  lemma TwoParams()
    ensures ParamNames("a: Int, b: Int") == "a, b"
  {
    TwoParamsText("a", "b", "Int");
    TwoDecls("a", "Int", "b", "Int");
  }

  // ---------------------------------------------------------------------------
  // Text facts about the sample parameter list; they model nothing of the
  // script and only feed `TwoParams`.

  lemma TwoParamsText(a: string, b: string, typ: string)
    requires a == "a" && b == "b" && typ == "Int"
    ensures a + ": " + typ + ", " + b + ": " + typ == "a: Int, b: Int" && a + ", " + b == "a, b"
  {
  }
}
