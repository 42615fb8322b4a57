/** The Kotlin string operations the generator is built from: `indexOf`,
    `contains`, `split`, `joinToString`, `replace`, `replaceFirst` and `trim`,
    each over `string` (= `seq<char>`) with the library's exact semantics for
    the non-empty delimiters the script passes. */
module Text {

  /** `p` occurs in `s` starting at index `i`. */
  predicate OccursAt(s: string, i: nat, p: string) {
    i + |p| <= |s| && s[i..i + |p|] == p
  }

  /** Kotlin `s.indexOf(p)`: the first index at which `p` occurs, or -1. */
  function IndexOf(s: string, p: string): (r: int)
    ensures -1 <= r <= |s|
    ensures r >= 0 ==> OccursAt(s, r, p)
    ensures r >= 0 ==> forall j :: 0 <= j < r ==> !OccursAt(s, j, p)
    ensures r == -1 ==> forall j :: 0 <= j ==> !OccursAt(s, j, p)
    decreases |s|
  {
    if |p| > |s| then -1
    else if s[..|p|] == p then 0
    else
      var k := IndexOf(s[1..], p);
      ShiftOccurrence(s, p);
      assert !OccursAt(s, 0, p) by { assert s[0..|p|] == s[..|p|]; }
      if k == -1 then -1 else k + 1
  }

  /** An occurrence in the tail `s[1..]` is one in `s`, one place further on. */
  lemma ShiftOccurrence(s: string, p: string)
    requires |s| > 0
    ensures forall j :: 1 <= j ==> (OccursAt(s, j, p) <==> OccursAt(s[1..], j - 1, p))
  {
    forall j | 1 <= j
      ensures OccursAt(s, j, p) <==> OccursAt(s[1..], j - 1, p)
    {
      if j + |p| <= |s| {
        assert s[1..][j - 1..j - 1 + |p|] == s[j..j + |p|];
      }
    }
  }

  /** Kotlin `s.contains(p)`, defined as the library does: `indexOf(p) >= 0`. */
  predicate Contains(s: string, p: string) {
    IndexOf(s, p) >= 0
  }

  /** Contains means there is an occurrence somewhere. */
  lemma ContainsIff(s: string, p: string)
    ensures Contains(s, p) <==> exists j :: 0 <= j && OccursAt(s, j, p)
  {
  }

  /** The summed length of the pieces. */
  function TotalLength(xs: seq<string>): nat {
    if xs == [] then 0 else |xs[0]| + TotalLength(xs[1..])
  }

  /** Kotlin `xs.joinToString(sep)`: all the pieces and one separator between
      each two neighbours, and nothing else. */
  function Join(xs: seq<string>, sep: string): (r: string)
    ensures |r| == if xs == [] then 0 else TotalLength(xs) + (|xs| - 1) * |sep|
    decreases |xs|
  {
    if |xs| == 0 then ""
    else if |xs| == 1 then xs[0]
    else
      var n := |xs| - 1;
      assert n * |sep| == (n - 1) * |sep| + |sep|;
      xs[0] + sep + Join(xs[1..], sep)
  }

  lemma JoinCons(x: string, xs: seq<string>, sep: string)
    requires xs != []
    ensures Join([x] + xs, sep) == x + sep + Join(xs, sep)
  {
    assert ([x] + xs)[1..] == xs;
  }

  /** The text before the first occurrence of `p` contains no occurrence of it. */
  lemma NoOccurrenceBeforeFirst(s: string, p: string)
    requires p != [] && IndexOf(s, p) >= 0
    ensures !Contains(s[..IndexOf(s, p)], p)
  {
    var k := IndexOf(s, p);
    var m := IndexOf(s[..k], p);
    if m >= 0 {
      assert s[..k][m..m + |p|] == s[m..m + |p|];
      assert OccursAt(s, m, p);
      assert false;
    }
  }

  /** Kotlin `s.split(d)` for a non-empty delimiter: the pieces between the
      non-overlapping occurrences of `d`, found left to right; empty pieces
      (also trailing ones) are kept. */
  function Split(s: string, d: string): (r: seq<string>)
    requires d != []
    ensures |r| >= 1
    ensures |r| >= 2 <==> Contains(s, d)
    ensures forall i :: 0 <= i < |r| ==> !Contains(r[i], d)
    ensures Join(r, d) == s
    decreases |s|
  {
    var k := IndexOf(s, d);
    if k == -1 then [s]
    else
      var rest := Split(s[k + |d|..], d);
      NoOccurrenceBeforeFirst(s, d);
      JoinCons(s[..k], rest, d);
      assert s == s[..k] + d + s[k + |d|..];
      [s[..k]] + rest
  }

  /** `s.split(d)[0]` is the text before the first occurrence of `d`, or all of `s`. */
  lemma SplitHead(s: string, d: string)
    requires d != []
    ensures Split(s, d)[0] == if Contains(s, d) then s[..IndexOf(s, d)] else s
  {
  }

  /** Kotlin `s.replace(pat, rep)` for a non-empty `pat`: every non-overlapping
      occurrence, found left to right, is replaced. */
  function ReplaceAll(s: string, pat: string, rep: string): (r: string)
    requires pat != []
    ensures !Contains(s, pat) ==> r == s
    ensures |pat| == |rep| ==> |r| == |s|
    decreases |s|
  {
    var k := IndexOf(s, pat);
    if k == -1 then s
    else s[..k] + rep + ReplaceAll(s[k + |pat|..], pat, rep)
  }

  /** Reference definition: replacing is splitting on `pat` and joining with `rep`. */
  lemma {:induction false} ReplaceAllIsSplitJoin(s: string, pat: string, rep: string)
    requires pat != []
    ensures ReplaceAll(s, pat, rep) == Join(Split(s, pat), rep)
    decreases |s|
  {
    var k := IndexOf(s, pat);
    if k >= 0 {
      var rest := s[k + |pat|..];
      ReplaceAllIsSplitJoin(rest, pat, rep);
      JoinCons(s[..k], Split(rest, pat), rep);
    }
  }

  /** Replacing `d` by itself (joining the pieces of a split) gives back the text. */
  lemma ReplaceByItself(s: string, d: string)
    requires d != []
    ensures ReplaceAll(s, d, d) == s
  {
    ReplaceAllIsSplitJoin(s, d, d);
  }

  /** Every character of a replacement result comes from `s` or from `rep`. */
  lemma {:induction false} ReplaceAllChars(s: string, pat: string, rep: string)
    requires pat != []
    ensures forall c :: c in ReplaceAll(s, pat, rep) ==> c in s || c in rep
    decreases |s|
  {
    var k := IndexOf(s, pat);
    if k >= 0 {
      var rest := s[k + |pat|..];
      ReplaceAllChars(rest, pat, rep);
      forall c | c in ReplaceAll(s, pat, rep) ensures c in s || c in rep {
        if c in s[..k] {
          assert c in s;
        } else if c in ReplaceAll(rest, pat, rep) && c !in rep {
          assert c in rest;
        }
      }
    }
  }

  /** A character before the first occurrence of `[c]` is not `c`. */
  lemma CharBeforeFirst(s: string, c: char)
    ensures IndexOf(s, [c]) >= 0 ==> c !in s[..IndexOf(s, [c])]
    ensures IndexOf(s, [c]) == -1 ==> c !in s
  {
    var k := IndexOf(s, [c]);
    var bound := if k >= 0 then k else |s|;
    forall j | 0 <= j < bound ensures s[j] != c {
      if s[j] == c {
        assert s[j..j + 1] == [c];
        assert OccursAt(s, j, [c]);
      }
    }
  }

  /** Replacing one character by text without it removes that character entirely. */
  lemma {:induction false} ReplaceAllRemovesChar(s: string, c: char, rep: string)
    requires c !in rep
    ensures c !in ReplaceAll(s, [c], rep)
    decreases |s|
  {
    CharBeforeFirst(s, c);
    var k := IndexOf(s, [c]);
    if k >= 0 {
      ReplaceAllRemovesChar(s[k + 1..], c, rep);
    }
  }

  /** No window of `a + n + b` spells `p` when neither `a` nor `b` contains `p`
      and no character of the non-empty `n` appears in `p`. */
  lemma NoWindowAcross(a: string, n: string, b: string, p: string, j: nat)
    requires p != [] && n != [] && !Contains(a, p) && !Contains(b, p)
    requires forall c :: c in n ==> c !in p
    ensures !OccursAt(a + n + b, j, p)
  {
    var s := a + n + b;
    if j + |p| <= |s| {
      if j + |p| <= |a| {
        assert s[j..j + |p|] == a[j..j + |p|];
        assert !OccursAt(a, j, p);
      } else if j >= |a| + |n| {
        var jb := j - |a| - |n|;
        assert s[|a| + |n|..] == b;
        assert s[j..j + |p|] == b[jb..jb + |p|];
        assert !OccursAt(b, jb, p);
      } else {
        var t := if j >= |a| then j else |a|;
        assert s[t] == n[t - |a|];
        assert n[t - |a|] in n;
        assert s[j..j + |p|][t - j] == s[t];
      }
    }
  }

  lemma NoOccurrenceAcross(a: string, n: string, b: string, p: string)
    requires p != [] && n != [] && !Contains(a, p) && !Contains(b, p)
    requires forall c :: c in n ==> c !in p
    ensures !Contains(a + n + b, p)
  {
    forall j: nat ensures !OccursAt(a + n + b, j, p) {
      NoWindowAcross(a, n, b, p, j);
    }
  }

  /** `replace(pat, rep)` leaves no `pat` behind when `rep` shares no character
      with `pat` (so a rep occurrence cannot form across a replacement). */
  lemma {:induction false} ReplaceAllLeavesNone(s: string, pat: string, rep: string)
    requires pat != [] && rep != []
    requires forall c :: c in rep ==> c !in pat
    ensures !Contains(ReplaceAll(s, pat, rep), pat)
    decreases |s|
  {
    var k := IndexOf(s, pat);
    if k >= 0 {
      var rest := s[k + |pat|..];
      var tail := ReplaceAll(rest, pat, rep);
      assert ReplaceAll(s, pat, rep) == s[..k] + rep + tail;
      ReplaceAllLeavesNone(rest, pat, rep);
      NoOccurrenceBeforeFirst(s, pat);
      NoOccurrenceAcross(s[..k], rep, tail, pat);
    } else {
      assert ReplaceAll(s, pat, rep) == s;
    }
  }

  /** Kotlin `s.replaceFirst(pat, rep)` (the literal-text overload). */
  function ReplaceFirst(s: string, pat: string, rep: string): (r: string)
    ensures !Contains(s, pat) ==> r == s
    ensures Contains(s, pat) ==>
      var k := IndexOf(s, pat);
      |r| == |s| - |pat| + |rep| && r[..k] == s[..k] && r[k + |rep|..] == s[k + |pat|..]
    ensures Contains(s, pat) ==> r[IndexOf(s, pat)..IndexOf(s, pat) + |rep|] == rep
  {
    var k := IndexOf(s, pat);
    if k == -1 then s else s[..k] + rep + s[k + |pat|..]
  }

  /** Removing the first occurrence of something adds no character. */
  lemma ReplaceFirstChars(s: string, pat: string)
    ensures forall c :: c in ReplaceFirst(s, pat, "") ==> c in s
  {
    var k := IndexOf(s, pat);
    if k >= 0 {
      forall c | c in ReplaceFirst(s, pat, "") ensures c in s {
        if c in s[..k] { assert c in s; } else { assert c in s[k + |pat|..]; }
      }
    }
  }

  /** Kotlin `Char.isWhitespace()` on the JVM: `Character.isWhitespace` or
      `Character.isSpaceChar`. */
  predicate IsWhitespace(c: char) {
    ('\t' <= c <= '\r') || ('\U{1C}' <= c <= ' ') || c == '\U{A0}' || c == '\U{1680}'
    || ('\U{2000}' <= c <= '\U{200A}') || c == '\U{2028}' || c == '\U{2029}' || c == '\U{202F}'
    || c == '\U{205F}' || c == '\U{3000}'
  }

  /** Kotlin `trimStart()`: drops the leading whitespace. */
  function TrimStart(s: string): (r: string)
    ensures |r| <= |s| && r == s[|s| - |r|..]
    ensures r == [] || !IsWhitespace(r[0])
    ensures forall i :: 0 <= i < |s| - |r| ==> IsWhitespace(s[i])
    decreases |s|
  {
    if s != [] && IsWhitespace(s[0]) then TrimStart(s[1..]) else s
  }

  /** Kotlin `trimEnd()`: drops the trailing whitespace. */
  function TrimEnd(s: string): (r: string)
    ensures |r| <= |s| && r == s[..|r|]
    ensures r == [] || !IsWhitespace(r[|r| - 1])
    ensures forall i :: |r| <= i < |s| ==> IsWhitespace(s[i])
    decreases |s|
  {
    if s != [] && IsWhitespace(s[|s| - 1]) then TrimEnd(s[..|s| - 1]) else s
  }

  /** How much leading whitespace `trim` cuts off. */
  function TrimCut(s: string): nat {
    |s| - |TrimStart(s)|
  }

  /** Kotlin `trim()`: a slice of `s`, starting after its leading whitespace,
      with no whitespace at either end. */
  function Trim(s: string): (r: string)
    ensures TrimCut(s) + |r| <= |s| && r == s[TrimCut(s)..TrimCut(s) + |r|]
    ensures r == [] || (!IsWhitespace(r[0]) && !IsWhitespace(r[|r| - 1]))
  {
    TrimEnd(TrimStart(s))
  }

  /** Everything `trim` cuts off, at either end, is whitespace. */
  lemma TrimCutsWhitespace(s: string)
    ensures forall t :: 0 <= t < TrimCut(s) ==> IsWhitespace(s[t])
    ensures forall t :: TrimCut(s) + |Trim(s)| <= t < |s| ==> IsWhitespace(s[t])
  {
    var a := TrimStart(s);
    var i := TrimCut(s);
    forall t | i + |Trim(s)| <= t < |s| ensures IsWhitespace(s[t]) {
      assert s[t] == a[t - i];
    }
  }

  /** Trimming adds no character. */
  lemma TrimChars(s: string)
    ensures forall c :: c in Trim(s) ==> c in s
  {
    var i := TrimCut(s);
    assert forall c :: c in s[i..i + |Trim(s)|] ==> c in s;
  }

  /** The first occurrence is found at `|a|` when `a` never shows the pattern's first character. */
  lemma IndexOfAfter(a: string, p: string, b: string)
    requires p != [] && p[0] !in a
    ensures IndexOf(a + p + b, p) == |a|
  {
    var s := a + p + b;
    assert s[|a|..|a| + |p|] == p;
    assert OccursAt(s, |a|, p);
    forall j | 0 <= j < |a| ensures !OccursAt(s, j, p) {
      assert s[j] == a[j];
      if j + |p| <= |s| {
        assert s[j..j + |p|][0] == s[j];
      }
    }
  }

  /** A text lacking any one character of the pattern does not contain it. */
  lemma AbsentChar(s: string, p: string, i: nat)
    requires i < |p| && p[i] !in s
    ensures !Contains(s, p)
  {
    forall j: nat ensures !OccursAt(s, j, p) {
      if j + |p| <= |s| {
        assert s[j..j + |p|][i] == s[j + i];
      }
    }
  }

  /** Appending text cannot move the first occurrence already present. */
  lemma IndexOfExtend(s: string, t: string, p: string)
    requires IndexOf(s, p) >= 0
    ensures IndexOf(s + t, p) == IndexOf(s, p)
  {
    var k := IndexOf(s, p);
    var u := s + t;
    assert u[k..k + |p|] == s[k..k + |p|];
    assert OccursAt(u, k, p);
    forall j | 0 <= j < k ensures !OccursAt(u, j, p) {
      assert !OccursAt(s, j, p);
      assert u[j..j + |p|] == s[j..j + |p|];
    }
  }

  /** One step of `split`: the first piece is `a`, the rest splits `b`. */
  lemma SplitStep(a: string, d: string, b: string)
    requires d != [] && d[0] !in a
    ensures Split(a + d + b, d) == [a] + Split(b, d)
  {
    IndexOfAfter(a, d, b);
    var s := a + d + b;
    assert s[..|a|] == a && s[|a| + |d|..] == b;
  }

  /** One step of `replace`: `a` is kept, the occurrence replaced, `b` processed. */
  lemma ReplaceAllStep(a: string, pat: string, rep: string, b: string)
    requires pat != [] && pat[0] !in a
    ensures ReplaceAll(a + pat + b, pat, rep) == a + rep + ReplaceAll(b, pat, rep)
  {
    IndexOfAfter(a, pat, b);
    var s := a + pat + b;
    assert s[..|a|] == a && s[|a| + |pat|..] == b;
  }

  /** A window with one mismatching character is not an occurrence. */
  lemma Mismatch(s: string, j: nat, p: string, t: nat)
    requires t < |p| && j + t < |s| && s[j + t] != p[t]
    ensures !OccursAt(s, j, p)
  {
    if j + |p| <= |s| {
      assert s[j..j + |p|][t] == s[j + t];
    }
  }

  /** `split` unfolded at a known first occurrence. */
  lemma SplitAt(s: string, d: string, k: nat)
    requires d != [] && IndexOf(s, d) == k
    ensures Split(s, d) == [s[..k]] + Split(s[k + |d|..], d)
  {
  }

  /** `replace` unfolded at the first occurrence. */
  lemma ReplaceAllAt(s: string, pat: string, rep: string)
    requires pat != [] && IndexOf(s, pat) >= 0
    ensures ReplaceAll(s, pat, rep)
      == s[..IndexOf(s, pat)] + rep + ReplaceAll(s[IndexOf(s, pat) + |pat|..], pat, rep)
  {
  }

  /** The first occurrence is at `k` when there is one at `k` and none before. */
  lemma IndexOfIs(s: string, p: string, k: nat)
    requires OccursAt(s, k, p)
    requires forall j :: 0 <= j < k ==> !OccursAt(s, j, p)
    ensures IndexOf(s, p) == k
  {
  }

  /** The first occurrence of `p` in `pre + mid + p + b` is the visible one when
      `pre` lacks `p`, `mid` lacks `p`'s first character, and `mid` begins with a
      character absent from the rest of `p` (so no occurrence straddles). */
  lemma IndexOfPast(pre: string, mid: string, p: string, b: string)
    requires p != [] && mid != [] && !Contains(pre, p)
    requires p[0] !in mid && mid[0] !in p[1..]
    ensures IndexOf(pre + mid + p + b, p) == |pre| + |mid|
  {
    var s := pre + mid + p + b;
    var k := |pre| + |mid|;
    assert s[k..k + |p|] == p;
    forall j | 0 <= j < k ensures !OccursAt(s, j, p) {
      if j + |p| <= |pre| {
        assert s[j..j + |p|] == pre[j..j + |p|];
        assert !OccursAt(pre, j, p);
      } else if j < |pre| {
        var t := |pre| - j;
        assert s[j + t] == mid[0];
        assert p[t] in p[1..];
        Mismatch(s, j, p, t);
      } else {
        assert s[j] == mid[j - |pre|];
        Mismatch(s, j, p, 0);
      }
    }
    IndexOfIs(s, p, k);
  }

  /** Splitting on a one-character delimiter gives one piece more than there
      are occurrences of that character. */
  lemma {:induction false} SplitCount(s: string, c: char)
    ensures |Split(s, [c])| == multiset(s)[c] + 1
    decreases |s|
  {
    CharBeforeFirst(s, c);
    var k := IndexOf(s, [c]);
    if k == -1 {
      assert multiset(s)[c] == 0;
    } else {
      var rest := s[k + 1..];
      SplitCount(rest, c);
      SplitAt(s, [c], k);
      assert |Split(s, [c])| == 1 + |Split(rest, [c])|;
      CountAround(s, k);
    }
  }

  lemma CountAround(s: string, k: nat)
    requires k < |s| && s[k] !in s[..k]
    ensures multiset(s)[s[k]] == 1 + multiset(s[k + 1..])[s[k]]
  {
    assert s == s[..k] + [s[k]] + s[k + 1..];
    assert multiset(s) == multiset(s[..k]) + multiset([s[k]]) + multiset(s[k + 1..]);
  }

  /** Joining pieces that lack the delimiter's first character and splitting
      again gives the pieces back. */
  lemma {:induction false} SplitJoin(xs: seq<string>, d: string)
    requires d != [] && xs != []
    requires forall i :: 0 <= i < |xs| ==> d[0] !in xs[i]
    ensures Split(Join(xs, d), d) == xs
    decreases |xs|
  {
    if |xs| == 1 {
      AbsentChar(xs[0], d, 0);
    } else {
      var rest := xs[1..];
      assert forall i :: 0 <= i < |rest| ==> d[0] !in rest[i] by {
        forall i | 0 <= i < |rest| ensures d[0] !in rest[i] {
          assert rest[i] == xs[i + 1];
        }
      }
      SplitJoin(rest, d);
      JoinUnfold(xs, d);
      SplitStep(xs[0], d, Join(rest, d));
      assert [xs[0]] + rest == xs;
    }
  }

  /** Where piece `j` starts in `Join(xs, sep)`: after every earlier piece and
      its separator. */
  function JoinOffset(xs: seq<string>, sep: string, j: nat): nat
    requires j < |xs|
    decreases j
  {
    if j == 0 then 0 else |xs[0]| + |sep| + JoinOffset(xs[1..], sep, j - 1)
  }

  lemma OccursShift(a: string, b: string, o: nat, p: string)
    requires OccursAt(b, o, p)
    ensures OccursAt(a + b, |a| + o, p)
  {
    assert (a + b)[|a| + o..|a| + o + |p|] == b[o..o + |p|];
  }

  /** Consecutive pieces are one piece and one separator apart. */
  lemma {:induction false} JoinOffsetStep(xs: seq<string>, sep: string, j: nat)
    requires j + 1 < |xs|
    ensures JoinOffset(xs, sep, j + 1) == JoinOffset(xs, sep, j) + |xs[j]| + |sep|
    decreases j
  {
    if j > 0 {
      JoinOffsetStep(xs[1..], sep, j - 1);
      assert xs[1..][j - 1] == xs[j];
    }
  }

  /** A join of at least two pieces is the first piece, the separator and the
      join of the rest. */
  lemma JoinUnfold(xs: seq<string>, sep: string)
    requires |xs| >= 2
    ensures Join(xs, sep) == xs[0] + sep + Join(xs[1..], sep)
  {
  }

  lemma OccursPrefix(a: string, b: string)
    ensures OccursAt(a + b, 0, a)
  {
    assert (a + b)[0..|a|] == a;
  }

  lemma OccursExtend(a: string, b: string, o: nat, p: string)
    requires OccursAt(a, o, p)
    ensures OccursAt(a + b, o, p)
  {
    assert (a + b)[o..o + |p|] == a[o..o + |p|];
  }

  /** `Join(xs, sep)` is the pieces in order with `sep` between neighbours and
      nothing else: piece `j` sits at `JoinOffset(xs, sep, j)`, the separator
      follows it unless it is the last piece, and the last piece ends the text. */
  lemma JoinLayout(xs: seq<string>, sep: string, j: nat)
    requires j < |xs|
    ensures OccursAt(Join(xs, sep), JoinOffset(xs, sep, j), xs[j])
    ensures j + 1 < |xs| ==> OccursAt(Join(xs, sep), JoinOffset(xs, sep, j) + |xs[j]|, sep)
    ensures j + 1 == |xs| ==> |Join(xs, sep)| == JoinOffset(xs, sep, j) + |xs[j]|
  {
    JoinPieceAt(xs, sep, j);
    if j + 1 < |xs| {
      JoinSepAt(xs, sep, j);
    } else {
      JoinLength(xs, sep);
    }
  }

  lemma {:induction false} JoinPieceAt(xs: seq<string>, sep: string, j: nat)
    requires j < |xs|
    ensures OccursAt(Join(xs, sep), JoinOffset(xs, sep, j), xs[j])
    decreases j
  {
    if |xs| == 1 {
      OccursPrefix(xs[0], []);
      assert xs[0] + [] == xs[0];
    } else {
      JoinUnfold(xs, sep);
      if j == 0 {
        OccursPrefix(xs[0], sep);
        OccursExtend(xs[0] + sep, Join(xs[1..], sep), 0, xs[0]);
      } else {
        JoinPieceAt(xs[1..], sep, j - 1);
        assert xs[1..][j - 1] == xs[j];
        OccursShift(xs[0] + sep, Join(xs[1..], sep), JoinOffset(xs[1..], sep, j - 1), xs[j]);
      }
    }
  }

  lemma {:induction false} JoinSepAt(xs: seq<string>, sep: string, j: nat)
    requires j + 1 < |xs|
    ensures OccursAt(Join(xs, sep), JoinOffset(xs, sep, j) + |xs[j]|, sep)
    decreases j
  {
    JoinUnfold(xs, sep);
    if j == 0 {
      OccursPrefix(sep, []);
      assert sep + [] == sep;
      OccursShift(xs[0], sep, 0, sep);
      OccursExtend(xs[0] + sep, Join(xs[1..], sep), |xs[0]|, sep);
    } else {
      JoinSepAt(xs[1..], sep, j - 1);
      assert xs[1..][j - 1] == xs[j];
      OccursShift(xs[0] + sep, Join(xs[1..], sep), JoinOffset(xs[1..], sep, j - 1) + |xs[j]|, sep);
    }
  }

  lemma {:induction false} JoinLength(xs: seq<string>, sep: string)
    requires xs != []
    ensures |Join(xs, sep)| == JoinOffset(xs, sep, |xs| - 1) + |xs[|xs| - 1]|
    decreases |xs|
  {
    if |xs| > 1 {
      JoinUnfold(xs, sep);
      JoinLength(xs[1..], sep);
      assert xs[1..][|xs| - 2] == xs[|xs| - 1];
    }
  }
}
