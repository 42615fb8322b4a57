/** The function signatures the generator looks for: a hand-written matcher
    for the fixed regular expression of line 35,
      `@<annotation>\s+(?:private|public|protected|internal)?\s*fun\s+(\w+)\(([^)]*)\):\s*(\w+)`,
    and `findAll`, which collects its matches left to right without overlap.
    The annotation is taken as literal text. */
module Signatures {
  import opened Results
  import opened Text

  /** The character classes the pattern uses: `\s`, `\w` and `[^)]`. */
  datatype CharClass = Space | Word | NotClose

  /** Java's `\s` is `[ \t\n\x0B\f\r]` and `\w` is `[a-zA-Z_0-9]`. */
  predicate InClass(k: CharClass, c: char) {
    match k
    case Space => c == ' ' || c == '\t' || c == '\n' || c == '\U{0B}' || c == '\U{0C}' || c == '\r'
    case Word => ('a' <= c <= 'z') || ('A' <= c <= 'Z') || ('0' <= c <= '9') || c == '_'
    case NotClose => c != ')'
  }

  predicate AllIn(k: CharClass, s: string) {
    forall i :: 0 <= i < |s| ==> InClass(k, s[i])
  }

  /** The greedy run `k*` starting at `i`: where it ends (`i` itself when `i`
      is past the end of the text). `SkipRun` states that the run is all in
      the class. */
  function Skip(k: CharClass, s: string, i: nat): (j: nat)
    ensures i <= j && (i <= |s| ==> j <= |s|) && (i > |s| ==> j == i)
    ensures j < |s| ==> !InClass(k, s[j])
    decreases |s| - i
  {
    if i < |s| && InClass(k, s[i]) then Skip(k, s, i + 1) else i
  }

  lemma {:induction false} SkipRun(k: CharClass, s: string, i: nat)
    ensures Skip(k, s, i) <= |s| ==> AllIn(k, s[i..Skip(k, s, i)])
    decreases |s| - i
  {
    if i < |s| && InClass(k, s[i]) {
      SkipRun(k, s, i + 1);
      var j := Skip(k, s, i + 1);
      assert forall t :: 0 < t < j - i ==> s[i..j][t] == s[i + 1..j][t - 1];
    }
  }

  /** A greedy run cannot be extended. */
  lemma SkipAgain(k: CharClass, s: string, i: nat)
    ensures Skip(k, s, Skip(k, s, i)) == Skip(k, s, i)
  {
  }

  /** A greedy run ends at the first position outside the class. */
  lemma SkipIs(k: CharClass, s: string, i: nat, j: nat)
    requires i <= j <= |s|
    requires AllIn(k, s[i..j])
    requires j == |s| || !InClass(k, s[j])
    ensures Skip(k, s, i) == j
  {
    var e := Skip(k, s, i);
    SkipRun(k, s, i);
    AllInAt(k, s, i, j, e);
    AllInAt(k, s, i, e, j);
  }

  /** A greedy run reaches at least past any run of the class. */
  lemma SkipPast(k: CharClass, s: string, i: nat, j: nat)
    requires i <= j <= |s|
    requires AllIn(k, s[i..j])
    ensures Skip(k, s, i) >= j
  {
    AllInAt(k, s, i, j, Skip(k, s, i));
  }

  /** A position inside a slice that is all in a class holds a character of it. */
  lemma AllInAt(k: CharClass, s: string, a: nat, b: nat, t: nat)
    requires a <= b <= |s| && AllIn(k, s[a..b])
    ensures a <= t < b ==> InClass(k, s[t])
  {
    if a <= t < b {
      assert s[a..b][t - a] == s[t];
    }
  }

  const Visibilities: seq<string> := ["private", "public", "protected", "internal"]

  /** The optional group `(?:private|public|protected|internal)?` at `k`: the
      keyword found there, or `""`. */
  function VisibilityAt(s: string, k: nat): (r: string)
    ensures r != "" ==> OccursAt(s, k, r)
  {
    KeywordAt(s, k, Visibilities)
  }

  /** The first alternative of `vs` that occurs at `k`, or `""`. */
  function KeywordAt(s: string, k: nat, vs: seq<string>): (r: string)
    ensures r != "" ==> OccursAt(s, k, r)
    decreases |vs|
  {
    if vs == [] then ""
    else if OccursAt(s, k, vs[0]) then vs[0]
    else KeywordAt(s, k, vs[1..])
  }

  /** The group yields one of its alternatives or nothing. */
  lemma VisibilityIn(s: string, k: nat)
    ensures VisibilityAt(s, k) == "" || VisibilityAt(s, k) in Visibilities
  {
    KeywordAtIn(s, k, Visibilities);
  }

  lemma {:induction false} KeywordAtIn(s: string, k: nat, vs: seq<string>)
    ensures KeywordAt(s, k, vs) == "" || KeywordAt(s, k, vs) in vs
    decreases |vs|
  {
    if vs != [] && !OccursAt(s, k, vs[0]) {
      KeywordAtIn(s, k, vs[1..]);
      assert forall v :: v in vs[1..] ==> v in vs;
    }
  }

  /** No alternative occurs: the group matches the empty text. */
  lemma {:induction false} KeywordAtNone(s: string, k: nat, vs: seq<string>)
    requires forall v :: v in vs ==> !OccursAt(s, k, v)
    ensures KeywordAt(s, k, vs) == ""
    decreases |vs|
  {
    if vs != [] {
      assert vs[0] in vs;
      assert forall v :: v in vs[1..] ==> v in vs;
      KeywordAtNone(s, k, vs[1..]);
    }
  }

  /** Exactly one alternative occurs: the group matches it. */
  lemma {:induction false} KeywordAtOnly(s: string, k: nat, vs: seq<string>, v: string)
    requires v in vs && OccursAt(s, k, v)
    requires forall u :: u in vs && u != v ==> !OccursAt(s, k, u)
    ensures KeywordAt(s, k, vs) == v
    decreases |vs|
  {
    if vs[0] != v {
      assert vs[0] in vs;
      assert v in vs[1..];
      assert forall u :: u in vs[1..] ==> u in vs;
      KeywordAtOnly(s, k, vs[1..], v);
    }
  }

  /** Where no keyword occurs, the group matches the empty text. */
  lemma NoVisibility(s: string, k: nat)
    requires forall v :: v in Visibilities ==> !OccursAt(s, k, v)
    ensures VisibilityAt(s, k) == ""
  {
    KeywordAtNone(s, k, Visibilities);
  }

  /** The pieces of a signature the pattern accepts, in text order. */
  datatype Parts = Parts(
    gap1: string, visibility: string, gap2: string, gap3: string,
    name: string, params: string, gap4: string, returnType: string)

  /** Reference description of the pattern: the text a choice of parts spells,
      the marker and keywords up to the function name, then the rest. */
  function Spelled(annotation: string, p: Parts): string {
    Head(annotation, p.gap1, p.visibility, p.gap2, p.gap3) + Tail(p.name, p.params, p.gap4, p.returnType)
  }

  function Head(annotation: string, gap1: string, visibility: string, gap2: string, gap3: string): string {
    "@" + annotation + gap1 + visibility + gap2 + "fun" + gap3
  }

  function Tail(name: string, params: string, gap4: string, returnType: string): string {
    name + "(" + params + "):" + gap4 + returnType
  }

  /** The constraints of each sub-pattern on its part. Without a keyword, the
      greedy `\s+` takes every blank before `fun` and `\s*` takes none. */
  predicate WellFormed(p: Parts) {
    p.gap1 != [] && AllIn(Space, p.gap1)
    && (p.visibility == "" || p.visibility in Visibilities)
    && AllIn(Space, p.gap2) && (p.visibility == "" ==> p.gap2 == [])
    && p.gap3 != [] && AllIn(Space, p.gap3)
    && p.name != [] && AllIn(Word, p.name)
    && AllIn(NotClose, p.params)
    && AllIn(Space, p.gap4)
    && p.returnType != [] && AllIn(Word, p.returnType)
  }

  /** One match: where it starts and ends in the source text and its parts
      (group 1 is `parts.name`, group 2 is `parts.params`). */
  datatype SignatureMatch = SignatureMatch(start: nat, end: nat, parts: Parts)

  /** The regex tried at position `i`: the end of each sub-pattern in turn,
      then whether every required piece is there. Every quantifier is greedy,
      and giving characters back never helps, since each is followed by a
      character its class excludes; the optional keyword is skipped only when
      none is present, because `fun` cannot start where a keyword does. */
  function MatchAt(annotation: string, s: string, i: nat): (r: Option<SignatureMatch>)
    ensures r.Some? ==> r.value.start == i && i < r.value.end <= |s|
  {
    var g1 := After(i, "@" + annotation);       // after `@<annotation>`
    var k := Skip(Space, s, g1);                 // after `\s+`
    var vis := VisibilityAt(s, k);               // the optional keyword
    var f := Skip(Space, s, After(k, vis));      // after `\s*`, at `fun`
    var h := Skip(Space, s, After(f, "fun"));    // after `\s+`, at the name
    var n := Skip(Word, s, h);                   // after `(\w+)`, at `(`
    var q := Skip(NotClose, s, After(n, "("));   // after `([^)]*)`, at `)`
    var w := Skip(Space, s, After(q, "):"));     // after `:\s*`
    var e := Skip(Word, s, w);                   // after `(\w+)`
    if OccursAt(s, i, "@" + annotation) && k != g1 && OccursAt(s, f, "fun") && h != After(f, "fun")
       && n != h && OccursAt(s, n, "(") && OccursAt(s, q, "):") && e != w
    then
      Some(SignatureMatch(i, e, Parts(s[g1..k], vis, s[After(k, vis)..f], s[After(f, "fun")..h], s[h..n],
                                      s[After(n, "(")..q], s[After(q, "):")..w], s[w..e])))
    else None
  }

  /** The position just past `t` when `t` starts at `i`. */
  function After(i: nat, t: string): (j: nat)
    ensures j == i + |t|
  {
    i + |t|
  }

  /** What a match promises: its parts obey the sub-patterns, they spell the
      text from `start` to `end`, and the return type cannot be extended. */
  predicate Matched(annotation: string, s: string, m: SignatureMatch) {
    WellFormed(m.parts)
    && m.end == m.start + |Spelled(annotation, m.parts)|
    && OccursAt(s, m.start, Spelled(annotation, m.parts))
    && (m.end == |s| || !InClass(Word, s[m.end]))
  }

  /** The matcher is sound: what it finds at `i` is a well-formed spelling
      of a signature there. */
  lemma MatchAtSound(annotation: string, s: string, i: nat)
    ensures MatchAt(annotation, s, i).Some? ==> Matched(annotation, s, MatchAt(annotation, s, i).value)
  {
    var g1 := After(i, "@" + annotation);
    var k := Skip(Space, s, g1);
    var vis := VisibilityAt(s, k);
    var f := Skip(Space, s, After(k, vis));
    var h := Skip(Space, s, After(f, "fun"));
    var n := Skip(Word, s, h);
    var q := Skip(NotClose, s, After(n, "("));
    var w := Skip(Space, s, After(q, "):"));
    var e := Skip(Word, s, w);
    if OccursAt(s, i, "@" + annotation) && k != g1 && OccursAt(s, f, "fun") && h != After(f, "fun")
       && n != h && OccursAt(s, n, "(") && OccursAt(s, q, "):") && e != w
    {
      MatchedAt(annotation, s, i, vis, g1, k, f, h, n, q, w, e);
    }
  }

  /** The positions `MatchAt` computes delimit a match. */
  lemma MatchedAt(annotation: string, s: string, i: nat, vis: string,
                  g1: nat, k: nat, f: nat, h: nat, n: nat, q: nat, w: nat, e: nat)
    requires g1 == After(i, "@" + annotation) && OccursAt(s, i, "@" + annotation)
    requires k == Skip(Space, s, g1) && k != g1
    requires vis == VisibilityAt(s, k)
    requires f == Skip(Space, s, After(k, vis)) && OccursAt(s, f, "fun")
    requires h == Skip(Space, s, After(f, "fun")) && h != After(f, "fun")
    requires n == Skip(Word, s, h) && n != h && OccursAt(s, n, "(")
    requires q == Skip(NotClose, s, After(n, "(")) && OccursAt(s, q, "):")
    requires w == Skip(Space, s, After(q, "):")) && e == Skip(Word, s, w) && e != w
    ensures k + |vis| <= f <= |s|
    ensures Matched(annotation, s, SignatureMatch(i, e,
      Parts(s[g1..k], vis, s[After(k, vis)..f], s[After(f, "fun")..h], s[h..n],
            s[After(n, "(")..q], s[After(q, "):")..w], s[w..e])))
  {
    MatchedParts(annotation, s, i, vis, g1, k, f, h, n, q, w, e);
    var p := Parts(s[g1..k], vis, s[After(k, vis)..f], s[After(f, "fun")..h], s[h..n],
            s[After(n, "(")..q], s[After(q, "):")..w], s[w..e]);
    SpelledFrom(annotation, s, i, p, g1, k, f, h, n, q, w, e);
  }

  /** The slices between the positions of a match spell it. */
  lemma SpelledFrom(annotation: string, s: string, i: nat, p: Parts,
                    g1: nat, k: nat, f: nat, h: nat, n: nat, q: nat, w: nat, e: nat)
    requires g1 == After(i, "@" + annotation) && OccursAt(s, i, "@" + annotation)
    requires g1 <= k && k + |p.visibility| <= f && f + 3 <= h <= n && n + 1 <= q && q + 2 <= w <= e <= |s|
    requires p.visibility == "" || OccursAt(s, k, p.visibility)
    requires OccursAt(s, f, "fun") && OccursAt(s, n, "(") && OccursAt(s, q, "):")
    requires p == Parts(s[g1..k], p.visibility, s[After(k, p.visibility)..f], s[After(f, "fun")..h], s[h..n],
            s[After(n, "(")..q], s[After(q, "):")..w], s[w..e])
    ensures |Spelled(annotation, p)| == e - i && OccursAt(s, i, Spelled(annotation, p))
  {
    CharAt(s, n, "(", 0);
    CharAt(s, q, "):", 0);
    CharAt(s, q, "):", 1);
    SpelledAt(annotation, s, i, p, g1, k, f, h, n, q, w, e);
  }

  /** The slices `MatchAt` cuts obey their sub-patterns. */
  lemma MatchedParts(annotation: string, s: string, i: nat, vis: string,
                  g1: nat, k: nat, f: nat, h: nat, n: nat, q: nat, w: nat, e: nat)
    requires g1 == After(i, "@" + annotation) && OccursAt(s, i, "@" + annotation)
    requires k == Skip(Space, s, g1) && k != g1
    requires vis == VisibilityAt(s, k)
    requires f == Skip(Space, s, After(k, vis)) && OccursAt(s, f, "fun")
    requires h == Skip(Space, s, After(f, "fun")) && h != After(f, "fun")
    requires n == Skip(Word, s, h) && n != h && OccursAt(s, n, "(")
    requires q == Skip(NotClose, s, After(n, "(")) && OccursAt(s, q, "):")
    requires w == Skip(Space, s, After(q, "):")) && e == Skip(Word, s, w) && e != w
    ensures k + |vis| <= f <= |s| && f + 3 <= h <= n && n + 1 <= q && q + 2 <= w <= e <= |s|
    ensures WellFormed(Parts(s[g1..k], vis, s[After(k, vis)..f], s[After(f, "fun")..h], s[h..n],
            s[After(n, "(")..q], s[After(q, "):")..w], s[w..e]))
  {
    VisibilityIn(s, k);
    if vis == "" {
      SkipAgain(Space, s, g1);
      assert After(k, vis) == k;
    }
    SkipRun(Space, s, g1);
    SkipRun(Space, s, After(k, vis));
    SkipRun(Space, s, After(f, "fun"));
    SkipRun(Word, s, h);
    SkipRun(NotClose, s, After(n, "("));
    SkipRun(Space, s, After(q, "):"));
    SkipRun(Word, s, w);
  }

  /** Two texts occurring back to back occur as their concatenation. */
  lemma OccursConcat(s: string, i: nat, x: string, y: string)
    requires OccursAt(s, i, x) && OccursAt(s, i + |x|, y)
    ensures OccursAt(s, i, x + y)
  {
    assert s[i..i + |x| + |y|] == s[i..i + |x|] + s[i + |x|..i + |x| + |y|];
  }

  /** The slices `MatchAt` cuts spell the match. */
  lemma SpelledAt(annotation: string, s: string, i: nat, p: Parts,
                  g1: nat, k: nat, f: nat, h: nat, n: nat, q: nat, w: nat, e: nat)
    requires g1 == i + 1 + |annotation| && OccursAt(s, i, "@" + annotation)
    requires g1 <= k && k + |p.visibility| <= f && f + 3 <= h <= n && n + 1 <= q && q + 2 <= w <= e <= |s|
    requires p.visibility == "" || OccursAt(s, k, p.visibility)
    requires OccursAt(s, f, "fun") && s[n] == '(' && s[q] == ')' && s[q + 1] == ':'
    requires p == Parts(s[g1..k], p.visibility, s[k + |p.visibility|..f], s[f + 3..h],
                        s[h..n], s[n + 1..q], s[q + 2..w], s[w..e])
    ensures |Spelled(annotation, p)| == e - i
    ensures OccursAt(s, i, Spelled(annotation, p))
  {
    HeadAt(annotation, s, i, p.visibility, g1, k, f, h);
    TailAt(s, h, n, q, w, e);
    OccursConcat(s, i, Head(annotation, p.gap1, p.visibility, p.gap2, p.gap3), Tail(p.name, p.params, p.gap4, p.returnType));
  }

  lemma HeadAt(annotation: string, s: string, i: nat, v: string, g1: nat, k: nat, f: nat, h: nat)
    requires g1 == i + 1 + |annotation| && OccursAt(s, i, "@" + annotation)
    requires g1 <= k && k + |v| <= f && f + 3 <= h <= |s|
    requires v == "" || OccursAt(s, k, v)
    requires OccursAt(s, f, "fun")
    ensures |Head(annotation, s[g1..k], v, s[k + |v|..f], s[f + 3..h])| == h - i
    ensures OccursAt(s, i, Head(annotation, s[g1..k], v, s[k + |v|..f], s[f + 3..h]))
  {
    var t0 := "@" + annotation;
    var t1 := t0 + s[g1..k];
    OccursConcat(s, i, t0, s[g1..k]);
    assert i + |t1| == k;
    var t2 := t1 + v;
    if v != "" { OccursConcat(s, i, t1, v); } else { assert t2 == t1; }
    assert i + |t2| == k + |v|;
    var t3 := t2 + s[k + |v|..f];
    OccursConcat(s, i, t2, s[k + |v|..f]);
    assert i + |t3| == f;
    var t4 := t3 + "fun";
    OccursConcat(s, i, t3, "fun");
    assert i + |t4| == f + 3;
    OccursConcat(s, i, t4, s[f + 3..h]);
  }

  lemma TailAt(s: string, h: nat, n: nat, q: nat, w: nat, e: nat)
    requires h <= n && n + 1 <= q && q + 2 <= w <= e <= |s|
    requires s[n] == '(' && s[q] == ')' && s[q + 1] == ':'
    ensures |Tail(s[h..n], s[n + 1..q], s[q + 2..w], s[w..e])| == e - h
    ensures OccursAt(s, h, Tail(s[h..n], s[n + 1..q], s[q + 2..w], s[w..e]))
  {
    var t6 := s[h..n];
    var t7 := t6 + "(";
    assert s[n..n + 1] == "(";
    OccursConcat(s, h, t6, "(");
    assert h + |t7| == n + 1;
    var t8 := t7 + s[n + 1..q];
    OccursConcat(s, h, t7, s[n + 1..q]);
    assert h + |t8| == q;
    var t9 := t8 + "):";
    assert s[q..q + 2] == "):";
    OccursConcat(s, h, t8, "):");
    assert h + |t9| == q + 2;
    var t10 := t9 + s[q + 2..w];
    OccursConcat(s, h, t9, s[q + 2..w]);
    assert h + |t10| == w;
    OccursConcat(s, h, t10, s[w..e]);
  }

  /** A text occurring as a concatenation occurs piece by piece. */
  lemma OccursSplit(s: string, i: nat, x: string, y: string)
    requires OccursAt(s, i, x + y)
    ensures OccursAt(s, i, x) && OccursAt(s, After(i, x), y)
  {
    assert s[i..i + |x|] == (x + y)[..|x|];
    assert s[i + |x|..i + |x| + |y|] == (x + y)[|x|..];
  }

  /** The character at offset `j` of an occurrence. */
  lemma CharAt(s: string, i: nat, x: string, j: nat)
    requires OccursAt(s, i, x) && j < |x|
    ensures s[i + j] == x[j]
  {
    assert s[i..i + |x|][j] == s[i + j];
  }

  /** The match at a position, exactly: `MatchAt` finds `m` at `i` if and
      only if `m` is a well-formed spelling of a signature starting at `i`
      whose return type is not followed by a word character. */
  lemma MatchAtExactly(annotation: string, s: string, i: nat, m: SignatureMatch)
    ensures MatchAt(annotation, s, i) == Some(m) <==> m.start == i && Matched(annotation, s, m)
  {
    if MatchAt(annotation, s, i) == Some(m) {
      MatchAtSound(annotation, s, i);
    }
    if m.start == i && Matched(annotation, s, m) {
      assert After(i, Spelled(annotation, m.parts)) == m.end;
      MatchOfParts(annotation, s, i, m.parts);
      assert m == SignatureMatch(i, After(i, Spelled(annotation, m.parts)), m.parts);
    }
  }

  /** A sample annotated signature. */
  const AddNumbersSignature := "@Test fun addNumbers(a: Int, b: Int): Int"

  /** The sample signature is found as a whole, with its name and its
      parameter list as the two groups. */
  lemma AddNumbersExample()
    ensures MatchAt("Test", AddNumbersSignature, 0) == Some(SignatureMatch(0, |AddNumbersSignature|,
      Parts(" ", "", "", " ", "addNumbers", "a: Int, b: Int", " ", "Int")))
  {
    var annotation, s := "Test", AddNumbersSignature;
    var p := Parts(" ", "", "", " ", "addNumbers", "a: Int, b: Int", " ", "Int");
    var hd, tl := "@Test fun ", "addNumbers(a: Int, b: Int): Int";
    ExampleHead(annotation, p, hd);
    ExampleTail(p, tl);
    ExampleText(hd, tl, s);
    ExampleWellFormed(p);
    MatchOfParts(annotation, s, 0, p);
  }

  /** Where each piece of a spelled choice of parts starts and ends. */
  datatype Ends = Ends(g1: nat, k: nat, kv: nat, f: nat, f3: nat, h: nat,
                       n: nat, n1: nat, q: nat, q2: nat, w: nat, e: nat)

  /** The ends of the pieces of `Spelled(annotation, p)` spelled from `i`. */
  predicate EndsOf(annotation: string, i: nat, p: Parts, x: Ends) {
    x.g1 == After(i, "@" + annotation) && x.k == After(x.g1, p.gap1)
    && x.kv == After(x.k, p.visibility) && x.f == After(x.kv, p.gap2)
    && x.f3 == After(x.f, "fun") && x.h == After(x.f3, p.gap3)
    && x.n == After(x.h, p.name) && x.n1 == After(x.n, "(")
    && x.q == After(x.n1, p.params) && x.q2 == After(x.q, "):")
    && x.w == After(x.q2, p.gap4) && x.e == After(x.w, p.returnType)
  }

  function EndsFrom(annotation: string, i: nat, p: Parts): (x: Ends)
    ensures EndsOf(annotation, i, p, x)
  {
    var g1 := After(i, "@" + annotation);
    var k := After(g1, p.gap1);
    var kv := After(k, p.visibility);
    var f := After(kv, p.gap2);
    var f3 := After(f, "fun");
    var h := After(f3, p.gap3);
    var n := After(h, p.name);
    var n1 := After(n, "(");
    var q := After(n1, p.params);
    var q2 := After(q, "):");
    var w := After(q2, p.gap4);
    Ends(g1, k, kv, f, f3, h, n, n1, q, q2, w, After(w, p.returnType))
  }

  /** Each piece occurs at its place. */
  predicate PiecesAt(annotation: string, s: string, i: nat, p: Parts, x: Ends) {
    OccursAt(s, i, "@" + annotation) && OccursAt(s, x.g1, p.gap1)
    && OccursAt(s, x.k, p.visibility) && OccursAt(s, x.kv, p.gap2)
    && OccursAt(s, x.f, "fun") && OccursAt(s, x.f3, p.gap3)
    && OccursAt(s, x.h, p.name) && OccursAt(s, x.n, "(")
    && OccursAt(s, x.n1, p.params) && OccursAt(s, x.q, "):")
    && OccursAt(s, x.q2, p.gap4) && OccursAt(s, x.w, p.returnType)
  }

  /** The pieces of an occurrence of the part before the name. */
  lemma HeadOf(annotation: string, s: string, i: nat, p: Parts, x: Ends)
    requires EndsOf(annotation, i, p, x)
    requires OccursAt(s, i, Head(annotation, p.gap1, p.visibility, p.gap2, p.gap3))
    ensures x.h == After(i, Head(annotation, p.gap1, p.visibility, p.gap2, p.gap3))
    ensures OccursAt(s, i, "@" + annotation) && OccursAt(s, x.g1, p.gap1)
    ensures OccursAt(s, x.k, p.visibility) && OccursAt(s, x.kv, p.gap2)
    ensures OccursAt(s, x.f, "fun") && OccursAt(s, x.f3, p.gap3)
  {
    var t0 := "@" + annotation;
    var t1 := t0 + p.gap1;
    var t2 := t1 + p.visibility;
    var t3 := t2 + p.gap2;
    var t4 := t3 + "fun";
    OccursSplit(s, i, t4, p.gap3);
    OccursSplit(s, i, t3, "fun");
    OccursSplit(s, i, t2, p.gap2);
    OccursSplit(s, i, t1, p.visibility);
    OccursSplit(s, i, t0, p.gap1);
  }

  /** The pieces of an occurrence of the part from the name on. */
  lemma TailOf(s: string, p: Parts, x: Ends)
    requires x.n == After(x.h, p.name) && x.n1 == After(x.n, "(")
    requires x.q == After(x.n1, p.params) && x.q2 == After(x.q, "):")
    requires x.w == After(x.q2, p.gap4) && x.e == After(x.w, p.returnType)
    requires OccursAt(s, x.h, Tail(p.name, p.params, p.gap4, p.returnType))
    ensures OccursAt(s, x.h, p.name) && OccursAt(s, x.n, "(")
    ensures OccursAt(s, x.n1, p.params) && OccursAt(s, x.q, "):")
    ensures OccursAt(s, x.q2, p.gap4) && OccursAt(s, x.w, p.returnType)
  {
    var t7 := p.name + "(";
    var t8 := t7 + p.params;
    var t9 := t8 + "):";
    var t10 := t9 + p.gap4;
    OccursSplit(s, x.h, t10, p.returnType);
    OccursSplit(s, x.h, t9, p.gap4);
    OccursSplit(s, x.h, t8, "):");
    OccursSplit(s, x.h, t7, p.params);
    OccursSplit(s, x.h, p.name, "(");
  }

  /** Where a keyword occurs, `VisibilityAt` finds that keyword: no keyword
      is a prefix of another, so no other one occurs there. */
  lemma VisibilityOf(s: string, k: nat, v: string)
    requires v in Visibilities && OccursAt(s, k, v)
    ensures VisibilityAt(s, k) == v
  {
    CharAt(s, k, v, 0);
    CharAt(s, k, v, 1);
    CharAt(s, k, v, 2);
    if v == "private" {
      Mismatch(s, k, "public", 1);
      Mismatch(s, k, "protected", 2);
      Mismatch(s, k, "internal", 0);
    } else if v == "public" {
      Mismatch(s, k, "private", 1);
      Mismatch(s, k, "protected", 1);
      Mismatch(s, k, "internal", 0);
    } else if v == "protected" {
      Mismatch(s, k, "private", 2);
      Mismatch(s, k, "public", 1);
      Mismatch(s, k, "internal", 0);
    } else {
      Mismatch(s, k, "private", 0);
      Mismatch(s, k, "public", 0);
      Mismatch(s, k, "protected", 0);
    }
    KeywordAtOnly(s, k, Visibilities, v);
  }

  /** Where `fun` occurs, no keyword does. */
  lemma NoVisibilityAtFun(s: string, k: nat)
    requires OccursAt(s, k, "fun")
    ensures VisibilityAt(s, k) == ""
  {
    CharAt(s, k, "fun", 0);
    Mismatch(s, k, "private", 0);
    Mismatch(s, k, "public", 0);
    Mismatch(s, k, "protected", 0);
    Mismatch(s, k, "internal", 0);
    NoVisibility(s, k);
  }

  /** The matcher is complete: wherever the text spells a well-formed choice
      of parts whose return type is not followed by a word character, the
      pattern matches at that position with exactly those parts. Together
      with `MatchAtSound`, the match at a position is the unique well-formed
      spelling that starts there. */
  lemma MatchOfParts(annotation: string, s: string, i: nat, p: Parts)
    requires WellFormed(p) && OccursAt(s, i, Spelled(annotation, p))
    requires var e := After(i, Spelled(annotation, p)); e == |s| || !InClass(Word, s[e])
    ensures MatchAt(annotation, s, i) == Some(SignatureMatch(i, After(i, Spelled(annotation, p)), p))
  {
    var x := EndsFrom(annotation, i, p);
    EndsLength(annotation, i, p, x);
    PiecesOf(annotation, s, i, p, x);
    PositionsOf(annotation, s, i, p, x);
  }

  /** Where the pieces end, measured from `i`. */
  lemma EndsLength(annotation: string, i: nat, p: Parts, x: Ends)
    requires EndsOf(annotation, i, p, x)
    ensures x.h == After(i, Head(annotation, p.gap1, p.visibility, p.gap2, p.gap3))
    ensures x.e == After(i, Spelled(annotation, p))
  {
  }

  /** The pieces of an occurrence of a spelled choice of parts. */
  lemma PiecesOf(annotation: string, s: string, i: nat, p: Parts, x: Ends)
    requires EndsOf(annotation, i, p, x) && OccursAt(s, i, Spelled(annotation, p))
    requires x.h == After(i, Head(annotation, p.gap1, p.visibility, p.gap2, p.gap3))
    ensures PiecesAt(annotation, s, i, p, x)
  {
    var hd := Head(annotation, p.gap1, p.visibility, p.gap2, p.gap3);
    OccursSplit(s, i, hd, Tail(p.name, p.params, p.gap4, p.returnType));
    HeadOf(annotation, s, i, p, x);
    TailOf(s, p, x);
  }

  /** A spelled choice of parts is what `MatchAt` finds. */
  lemma PositionsOf(annotation: string, s: string, i: nat, p: Parts, x: Ends)
    requires WellFormed(p) && EndsOf(annotation, i, p, x) && PiecesAt(annotation, s, i, p, x)
    requires x.e == |s| || !InClass(Word, s[x.e])
    ensures MatchAt(annotation, s, i) == Some(SignatureMatch(i, x.e, p))
  {
    HeadRuns(s, p, x);
    TailRuns(s, p, x);
    MatchAtIs(annotation, s, i, p.visibility, x.g1, x.k, x.f, x.h, x.n, x.q, x.w, x.e);
    SlicesOf(annotation, s, i, p, x);
  }

  /** The slices `MatchAt` cuts are the parts. */
  lemma SlicesOf(annotation: string, s: string, i: nat, p: Parts, x: Ends)
    requires EndsOf(annotation, i, p, x) && PiecesAt(annotation, s, i, p, x)
    ensures x.e <= |s|
    ensures p == Parts(s[x.g1..x.k], p.visibility, s[After(x.k, p.visibility)..x.f], s[After(x.f, "fun")..x.h], s[x.h..x.n],
                       s[After(x.n, "(")..x.q], s[After(x.q, "):")..x.w], s[x.w..x.e])
  {
  }

  /** The greedy runs up to the function name end where their parts do. */
  lemma HeadRuns(s: string, p: Parts, x: Ends)
    requires WellFormed(p)
    requires x.k == After(x.g1, p.gap1) && x.kv == After(x.k, p.visibility) && x.f == After(x.kv, p.gap2)
    requires x.f3 == After(x.f, "fun") && x.h == After(x.f3, p.gap3)
    requires OccursAt(s, x.g1, p.gap1) && OccursAt(s, x.k, p.visibility) && OccursAt(s, x.kv, p.gap2)
    requires OccursAt(s, x.f, "fun") && OccursAt(s, x.f3, p.gap3) && OccursAt(s, x.h, p.name)
    ensures x.k == Skip(Space, s, x.g1) && VisibilityAt(s, x.k) == p.visibility
    ensures x.f == Skip(Space, s, After(x.k, p.visibility)) && x.h == Skip(Space, s, After(x.f, "fun"))
  {
    CharAt(s, x.f, "fun", 0);
    CharAt(s, x.h, p.name, 0);
    if p.visibility == "" {
      NoVisibilityAtFun(s, x.k);
    } else {
      CharAt(s, x.k, p.visibility, 0);
      VisibilityOf(s, x.k, p.visibility);
    }
    RunOf(Space, s, x.g1, p.gap1, x.k);
    RunOf(Space, s, x.kv, p.gap2, x.f);
    RunOf(Space, s, x.f3, p.gap3, x.h);
  }

  /** The greedy runs from the function name on end where their parts do. */
  lemma TailRuns(s: string, p: Parts, x: Ends)
    requires WellFormed(p)
    requires x.n == After(x.h, p.name) && x.n1 == After(x.n, "(") && x.q == After(x.n1, p.params)
    requires x.q2 == After(x.q, "):") && x.w == After(x.q2, p.gap4) && x.e == After(x.w, p.returnType)
    requires OccursAt(s, x.h, p.name) && OccursAt(s, x.n, "(") && OccursAt(s, x.n1, p.params)
    requires OccursAt(s, x.q, "):") && OccursAt(s, x.q2, p.gap4) && OccursAt(s, x.w, p.returnType)
    requires x.e == |s| || !InClass(Word, s[x.e])
    ensures x.n == Skip(Word, s, x.h) && x.q == Skip(NotClose, s, After(x.n, "("))
    ensures x.w == Skip(Space, s, After(x.q, "):")) && x.e == Skip(Word, s, x.w)
  {
    CharAt(s, x.n, "(", 0);
    CharAt(s, x.q, "):", 0);
    CharAt(s, x.w, p.returnType, 0);
    RunOf(Word, s, x.h, p.name, x.n);
    RunOf(NotClose, s, x.n1, p.params, x.q);
    RunOf(Space, s, x.q2, p.gap4, x.w);
    RunOf(Word, s, x.w, p.returnType, x.e);
  }

  /** A run of a class that the next character breaks is what `Skip` finds. */
  lemma RunOf(k: CharClass, s: string, a: nat, t: string, b: nat)
    requires b == After(a, t) && OccursAt(s, a, t) && AllIn(k, t)
    requires b == |s| || !InClass(k, s[b])
    ensures Skip(k, s, a) == b
  {
    SkipIs(k, s, a, b);
  }

  /** `MatchAt` once its run ends are known. */
  lemma MatchAtIs(annotation: string, s: string, i: nat, vis: string,
                  g1: nat, k: nat, f: nat, h: nat, n: nat, q: nat, w: nat, e: nat)
    requires g1 == After(i, "@" + annotation) && OccursAt(s, i, "@" + annotation)
    requires k == Skip(Space, s, g1) && k != g1
    requires vis == VisibilityAt(s, k)
    requires f == Skip(Space, s, After(k, vis)) && OccursAt(s, f, "fun")
    requires h == Skip(Space, s, After(f, "fun")) && h != After(f, "fun")
    requires n == Skip(Word, s, h) && n != h && OccursAt(s, n, "(")
    requires q == Skip(NotClose, s, After(n, "(")) && OccursAt(s, q, "):")
    requires w == Skip(Space, s, After(q, "):")) && e == Skip(Word, s, w) && e != w
    ensures k + |vis| <= f <= |s| && f + 3 <= h <= n && n + 1 <= q && q + 2 <= w <= e <= |s|
    ensures MatchAt(annotation, s, i) == Some(SignatureMatch(i, e,
      Parts(s[g1..k], vis, s[After(k, vis)..f], s[After(f, "fun")..h], s[h..n],
            s[After(n, "(")..q], s[After(q, "):")..w], s[w..e])))
  {
  }

  /** Whether, and how, the pattern matches at each start position `0 ..|s|`. */
  function Table(annotation: string, s: string): (t: seq<Option<SignatureMatch>>)
    ensures |t| == |s| + 1
    ensures forall i :: 0 <= i <= |s| ==> t[i] == MatchAt(annotation, s, i)
  {
    seq(|s| + 1, i requires 0 <= i <= |s| => MatchAt(annotation, s, i))
  }

  /** A table of matches: each starts at its own position, is not empty and
      ends within the text. */
  predicate TableOk(t: seq<Option<SignatureMatch>>) {
    forall i :: 0 <= i < |t| && t[i].Some? ==> t[i].value.start == i && i < t[i].value.end < |t|
  }

  lemma TableOfMatches(annotation: string, s: string)
    ensures TableOk(Table(annotation, s))
  {
  }

  /** The scan `findAll` performs from position `from`: the leftmost match,
      then the scan resumes where that match ended. */
  function Scan(t: seq<Option<SignatureMatch>>, from: nat): (r: seq<SignatureMatch>)
    requires TableOk(t) && from < |t|
    ensures forall m :: 0 <= m < |r| ==> from <= r[m].start < |t| && t[r[m].start] == Some(r[m])
    ensures forall m :: 0 <= m < |r| - 1 ==> r[m].end <= r[m + 1].start
    decreases |t| - from
  {
    match t[from]
    case Some(m) =>
      var rest := Scan(t, m.end);
      ConsShift(m, rest);
      [m] + rest
    case None =>
      if from + 1 == |t| then [] else Scan(t, from + 1)
  }

  lemma ConsShift<T>(x: T, xs: seq<T>)
    ensures ([x] + xs)[0] == x
    ensures forall j :: 0 <= j < |xs| ==> ([x] + xs)[j + 1] == xs[j]
  {
  }

  /** No match is missed: every position of the table that holds a match lies
      inside one of the matches scanned (it is one of them, or overlaps an
      earlier one). */
  lemma {:induction false} ScanCovers(t: seq<Option<SignatureMatch>>, from: nat, i: nat)
    requires TableOk(t) && from <= i < |t| && t[i].Some?
    ensures exists m :: (0 <= m < |Scan(t, from)| && Scan(t, from)[m].start <= i < Scan(t, from)[m].end)
    decreases |t| - from
  {
    var r := Scan(t, from);
    match t[from]
    case Some(m) =>
      if i >= m.end {
        ScanCovers(t, m.end, i);
        var rest := Scan(t, m.end);
        var j :| 0 <= j < |rest| && rest[j].start <= i < rest[j].end;
        assert r[j + 1] == rest[j];
      } else {
        assert r[0] == m;
      }
    case None =>
      ScanCovers(t, from + 1, i);
  }

  /** The scan finds nothing exactly when no position from `from` on holds a match. */
  lemma {:induction false} ScanEmpty(t: seq<Option<SignatureMatch>>, from: nat)
    requires TableOk(t) && from < |t|
    ensures Scan(t, from) == [] <==> forall i :: from <= i < |t| ==> t[i] == None
    decreases |t| - from
  {
    match t[from]
    case Some(m) =>
    case None =>
      if from + 1 < |t| {
        ScanEmpty(t, from + 1);
      }
  }

  /** `annotationRegex.findAll(fileContent)`: the matches in text order, each
      what the pattern gives at its start, none overlapping the next. */
  function FindAll(annotation: string, s: string): (r: seq<SignatureMatch>)
    ensures forall m :: 0 <= m < |r| ==> MatchAt(annotation, s, r[m].start) == Some(r[m])
    ensures forall m :: 0 <= m < |r| - 1 ==> r[m].end <= r[m + 1].start
  {
    TableOfMatches(annotation, s);
    Scan(Table(annotation, s), 0)
  }

  /** Every position where the pattern matches lies inside a found match. */
  lemma FindAllCovers(annotation: string, s: string, i: nat)
    requires i <= |s| && MatchAt(annotation, s, i).Some?
    ensures exists m :: (0 <= m < |FindAll(annotation, s)|
      && FindAll(annotation, s)[m].start <= i < FindAll(annotation, s)[m].end)
  {
    var t := Table(annotation, s);
    TableOfMatches(annotation, s);
    assert t[i].Some?;
    ScanCovers(t, 0, i);
    assert FindAll(annotation, s) == Scan(t, 0);
  }

  /** `findAll` finds nothing exactly when the pattern matches nowhere. */
  lemma FindAllEmpty(annotation: string, s: string)
    ensures FindAll(annotation, s) == [] <==> forall i :: 0 <= i <= |s| ==> MatchAt(annotation, s, i) == None
  {
    TableOfMatches(annotation, s);
    ScanEmpty(Table(annotation, s), 0);
  }

  /** A match that spans the whole text is the only one `findAll` reports. */
  lemma FindAllWhole(annotation: string, s: string, m: SignatureMatch)
    requires MatchAt(annotation, s, 0) == Some(m) && m.end == |s|
    ensures FindAll(annotation, s) == [m]
  {
    var t := Table(annotation, s);
    TableOfMatches(annotation, s);
    assert t[0] == Some(m);
    assert t[|s|] == None;
    assert Scan(t, |s|) == [];
    assert FindAll(annotation, s) == Scan(t, 0);
  }

  /** The sample signature holds exactly one annotated function. */
  lemma AddNumbersFound()
    ensures FindAll("Test", AddNumbersSignature) == [SignatureMatch(0, |AddNumbersSignature|,
      Parts(" ", "", "", " ", "addNumbers", "a: Int, b: Int", " ", "Int"))]
  {
    AddNumbersExample();
    FindAllWhole("Test", AddNumbersSignature, SignatureMatch(0, |AddNumbersSignature|,
      Parts(" ", "", "", " ", "addNumbers", "a: Int, b: Int", " ", "Int")));
  }

  // ---------------------------------------------------------------------------
  // Text facts about the sample signature; they model nothing of the script
  // and only feed `AddNumbersExample`.

  lemma ExampleHead(annotation: string, p: Parts, hd: string)
    requires annotation == "Test" && hd == "@Test fun "
    requires p.gap1 == " " && p.visibility == "" && p.gap2 == "" && p.gap3 == " "
    ensures Head(annotation, p.gap1, p.visibility, p.gap2, p.gap3) == hd
  {
  }

  lemma ExampleTail(p: Parts, tl: string)
    requires tl == "addNumbers(a: Int, b: Int): Int"
    requires p.name == "addNumbers" && p.params == "a: Int, b: Int" && p.gap4 == " " && p.returnType == "Int"
    ensures Tail(p.name, p.params, p.gap4, p.returnType) == tl
  {
    var t1 := p.name + "(";
    assert t1 == "addNumbers(";
    var t2 := t1 + p.params;
    assert t2 == "addNumbers(a: Int, b: Int";
  }

  lemma ExampleText(hd: string, tl: string, s: string)
    requires hd == "@Test fun " && tl == "addNumbers(a: Int, b: Int): Int"
    requires s == "@Test fun addNumbers(a: Int, b: Int): Int"
    ensures hd + tl == s
  {
  }

  lemma ExampleWellFormed(p: Parts)
    requires p == Parts(" ", "", "", " ", "addNumbers", "a: Int, b: Int", " ", "Int")
    ensures WellFormed(p)
  {
  }
}
