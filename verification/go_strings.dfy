/**
 * The part of Go's `strings` package that the search and detail services
 * call: TrimSpace, Split, Contains and HasPrefix, with Go's semantics (Split
 * matches non-overlapping occurrences from left to right and always yields at
 * least one part). Index and Join are not called by the services: Index is the
 * search that Contains and Split are built on, and Join is here to state
 * Split's contract as its inverse.
 */
module GoStrings {

  /** unicode.IsSpace: the Latin-1 space characters and Unicode's White_Space characters above U+00FF. */
  predicate IsSpace(c: char) {
    c == '\t' || c == '\n' || c == '\U{000B}' || c == '\U{000C}' || c == '\r' || c == ' '
    || c == '\U{0085}' || c == '\U{00A0}' || c == '\U{1680}'
    || ('\U{2000}' <= c <= '\U{200A}')
    || c == '\U{2028}' || c == '\U{2029}' || c == '\U{202F}' || c == '\U{205F}' || c == '\U{3000}'
  }

  /** All characters of s are white space. */
  predicate AllSpace(s: string) {
    forall i :: 0 <= i < |s| ==> IsSpace(s[i])
  }

  /** s with its leading white space removed. */
  function TrimLeft(s: string): string
    decreases |s|
  {
    if s != [] && IsSpace(s[0]) then TrimLeft(s[1..]) else s
  }

  /** s with its trailing white space removed. */
  function TrimRight(s: string): string
    decreases |s|
  {
    if s != [] && IsSpace(s[|s| - 1]) then TrimRight(s[..|s| - 1]) else s
  }

  /** strings.TrimSpace: s without its leading and trailing white space. */
  function TrimSpace(s: string): string {
    TrimRight(TrimLeft(s))
  }

  /** TrimLeft removes a prefix made of white space, and no more. */
  lemma {:induction false} TrimLeftSpec(s: string)
    ensures var r := TrimLeft(s);
      && |r| <= |s| && r == s[|s| - |r|..]
      && AllSpace(s[..|s| - |r|])
      && (r == [] || !IsSpace(r[0]))
    decreases |s|
  {
    if s != [] && IsSpace(s[0]) {
      TrimLeftSpec(s[1..]);
      var r := TrimLeft(s);
      assert s[..|s| - |r|] == [s[0]] + s[1..][..|s| - 1 - |r|];
    }
  }

  /** TrimRight removes a suffix made of white space, and no more. */
  lemma {:induction false} TrimRightSpec(s: string)
    ensures var r := TrimRight(s);
      && |r| <= |s| && r == s[..|r|]
      && AllSpace(s[|r|..])
      && (r == [] || !IsSpace(r[|r| - 1]))
    decreases |s|
  {
    if s != [] && IsSpace(s[|s| - 1]) {
      TrimRightSpec(s[..|s| - 1]);
      var r := TrimRight(s);
      assert s[|r|..] == s[..|s| - 1][|r|..] + [s[|s| - 1]];
    }
  }

  lemma AllSpaceConcat(a: string, b: string)
    ensures AllSpace(a + b) <==> AllSpace(a) && AllSpace(b)
  {
    if AllSpace(a + b) {
      forall i | 0 <= i < |a| ensures IsSpace(a[i]) {
        assert a[i] == (a + b)[i];
      }
      forall i | 0 <= i < |b| ensures IsSpace(b[i]) {
        assert b[i] == (a + b)[|a| + i];
      }
    } else if AllSpace(a) && AllSpace(b) {
      forall i | 0 <= i < |a + b| ensures IsSpace((a + b)[i]) {
        if i < |a| {
          assert (a + b)[i] == a[i];
        } else {
          assert (a + b)[i] == b[i - |a|];
        }
      }
    }
  }

  /** TrimSpace cuts a white-space prefix and a white-space suffix off its input. */
  lemma TrimSpaceIsSlice(s: string)
    ensures exists a, b :: 0 <= a <= b <= |s| && TrimSpace(s) == s[a..b] && AllSpace(s[..a]) && AllSpace(s[b..])
  {
    var l := TrimLeft(s);
    TrimLeftSpec(s);
    TrimRightSpec(l);
    var r := TrimRight(l);
    var a := |s| - |l|;
    var b := a + |r|;
    assert r == s[a..b];
    assert s[b..] == l[|r|..];
  }

  /**
   * TrimSpace's result is the input with a white-space prefix and a
   * white-space suffix cut off; it is empty exactly for all-white-space
   * input, and otherwise starts and ends with a character that is not white
   * space.
   */
  lemma TrimSpaceSpec(s: string)
    ensures var r := TrimSpace(s);
      && |r| <= |s|
      && (exists a, b :: 0 <= a <= b <= |s| && r == s[a..b] && AllSpace(s[..a]) && AllSpace(s[b..]))
      && (r == [] <==> AllSpace(s))
      && (r != [] ==> !IsSpace(r[0]) && !IsSpace(r[|r| - 1]))
  {
    var l := TrimLeft(s);
    TrimLeftSpec(s);
    TrimRightSpec(l);
    var r := TrimRight(l);
    assert s == s[..|s| - |l|] + l;
    assert l == r + l[|r|..];
    AllSpaceConcat(s[..|s| - |l|], l);
    AllSpaceConcat(r, l[|r|..]);
    TrimSpaceIsSlice(s);
  }

  lemma {:induction false} TrimLeftOfSpaces(pre: string, s: string)
    requires AllSpace(pre)
    ensures TrimLeft(pre + s) == TrimLeft(s)
    decreases |pre|
  {
    if pre != [] {
      assert (pre + s)[1..] == pre[1..] + s;
      TrimLeftOfSpaces(pre[1..], s);
    } else {
      assert pre + s == s;
    }
  }

  lemma {:induction false} TrimRightOfSpaces(s: string, post: string)
    requires AllSpace(post)
    ensures TrimRight(s + post) == TrimRight(s)
    decreases |post|
  {
    if post != [] {
      assert (s + post)[..|s + post| - 1] == s + post[..|post| - 1];
      TrimRightOfSpaces(s, post[..|post| - 1]);
    } else {
      assert s + post == s;
    }
  }

  /** Text appended after a string with some non-space character survives TrimLeft untouched. */
  lemma TrimLeftAppend(s: string, post: string)
    requires TrimLeft(s) != []
    ensures TrimLeft(s + post) == TrimLeft(s) + post
  {
    var l := TrimLeft(s);
    TrimLeftSpec(s);
    var n := |s| - |l|;
    assert s == s[..n] + l;
    assert s + post == s[..n] + (l + post);
    TrimLeftOfSpaces(s[..n], l + post);
    assert (l + post)[0] == l[0];
  }

  /** Padding a title with white space on either side does not change its trimmed form. */
  lemma TrimSpaceIgnoresPadding(pre: string, s: string, post: string)
    requires AllSpace(pre) && AllSpace(post)
    ensures TrimSpace(pre + s + post) == TrimSpace(s)
  {
    assert pre + s + post == pre + (s + post);
    TrimLeftOfSpaces(pre, s + post);
    TrimLeftSpec(s);
    if TrimLeft(s) == [] {
      assert s[..|s|] == s;
      AllSpaceConcat(s, post);
      TrimLeftSpec(s + post);
    } else {
      TrimLeftAppend(s, post);
      TrimRightOfSpaces(TrimLeft(s), post);
    }
  }

  /** A string that neither starts nor ends with white space is its own trimmed form. */
  lemma TrimSpaceOfTrimmed(s: string)
    requires s != [] ==> !IsSpace(s[0]) && !IsSpace(s[|s| - 1])
    ensures TrimSpace(s) == s
  {
  }

  /** sub occurs in s starting at position j. */
  predicate OccursAt(s: string, sub: string, j: int) {
    0 <= j && j + |sub| <= |s| && s[j..j + |sub|] == sub
  }

  lemma OccursInTail(s: string, sub: string, j: int)
    requires 1 <= j && s != []
    ensures OccursAt(s, sub, j) <==> OccursAt(s[1..], sub, j - 1)
  {
    if j + |sub| <= |s| {
      var a, b := s[j..j + |sub|], s[1..][j - 1..j - 1 + |sub|];
      forall t | 0 <= t < |a| ensures a[t] == b[t] {
        assert a[t] == s[j + t] == b[t];
      }
      assert a == b;
    }
  }

  /** strings.Index: the position of the first occurrence of sep in s, or -1 if there is none. */
  function Index(s: string, sep: string): (i: int)
    requires |sep| > 0
    ensures i >= 0 ==> OccursAt(s, sep, i) && forall j :: 0 <= j < i ==> !OccursAt(s, sep, j)
    ensures i < 0 ==> i == -1 && forall j :: !OccursAt(s, sep, j)
    decreases |s|
  {
    if |s| < |sep| then -1
    else if s[..|sep|] == sep then 0
    else
      var k := Index(s[1..], sep);
      assert forall j {:trigger OccursAt(s, sep, j)} :: 1 <= j ==> (OccursAt(s, sep, j) <==> OccursAt(s[1..], sep, j - 1)) by {
        forall j | 1 <= j ensures OccursAt(s, sep, j) <==> OccursAt(s[1..], sep, j - 1) {
          OccursInTail(s, sep, j);
        }
      }
      assert !OccursAt(s, sep, 0);
      if k < 0 then -1 else k + 1
  }

  /** strings.Contains, for a non-empty sub. */
  function Contains(s: string, sub: string): (b: bool)
    requires |sub| > 0
    ensures b <==> exists j :: OccursAt(s, sub, j)
  {
    Index(s, sub) >= 0
  }

  /** strings.HasPrefix. */
  predicate HasPrefix(s: string, prefix: string) {
    |prefix| <= |s| && s[..|prefix|] == prefix
  }

  /** strings.Join. */
  function Join(parts: seq<string>, sep: string): string {
    if |parts| == 0 then ""
    else if |parts| == 1 then parts[0]
    else parts[0] + sep + Join(parts[1..], sep)
  }

  /**
   * strings.Split for a non-empty separator: the pieces of s between the
   * non-overlapping occurrences of sep, found from left to right. Joining the
   * parts with sep gives s back, no part contains sep, and there is at least
   * one part (the empty string splits into [""]).
   */
  function Split(s: string, sep: string): (parts: seq<string>)
    requires |sep| > 0
    ensures |parts| >= 1
    ensures Join(parts, sep) == s
    ensures forall p :: p in parts ==> Index(p, sep) == -1
    decreases |s|
  {
    var i := Index(s, sep);
    if i < 0 then [s]
    else
      var head, rest := s[..i], Split(s[i + |sep|..], sep);
      assert s == head + sep + s[i + |sep|..];
      assert Index(head, sep) == -1 by {
        if Index(head, sep) >= 0 {
          var k := Index(head, sep);
          assert s[k..k + |sep|] == head[k..k + |sep|];
          assert OccursAt(s, sep, k);
        }
      }
      [head] + rest
  }

  /** A first occurrence is what Index finds. */
  lemma IndexIs(s: string, sep: string, i: int)
    requires |sep| > 0 && OccursAt(s, sep, i)
    requires forall j :: 0 <= j < i ==> !OccursAt(s, sep, j)
    ensures Index(s, sep) == i
  {
  }

  /** With no occurrence anywhere, Index reports -1. */
  lemma IndexNone(s: string, sep: string)
    requires |sep| > 0
    requires forall j :: !OccursAt(s, sep, j)
    ensures Index(s, sep) == -1
  {
  }

  /** If sep's first character is absent from a, the first occurrence in a + b is the first one in b, shifted. */
  lemma IndexAfter(a: string, b: string, sep: string)
    requires |sep| > 0 && sep[0] !in a
    ensures Index(a + b, sep) == if Index(b, sep) < 0 then -1 else |a| + Index(b, sep)
  {
    var s := a + b;
    forall j | 0 <= j < |a| ensures !OccursAt(s, sep, j) {
      if j + |sep| <= |s| {
        assert s[j..j + |sep|][0] == s[j] == a[j];
        assert a[j] in a;
      }
    }
    forall j | 0 <= j ensures OccursAt(s, sep, |a| + j) <==> OccursAt(b, sep, j) {
      if |a| + j + |sep| <= |s| {
        assert s[|a| + j..|a| + j + |sep|] == b[j..j + |sep|];
      }
    }
    var k := Index(b, sep);
    if k >= 0 {
      assert OccursAt(s, sep, |a| + k);
      forall j | 0 <= j < |a| + k ensures !OccursAt(s, sep, j) {
        if j >= |a| {
          assert !OccursAt(b, sep, j - |a|);
        }
      }
      IndexIs(s, sep, |a| + k);
    } else {
      forall j ensures !OccursAt(s, sep, j) {
        if j >= |a| {
          assert !OccursAt(b, sep, j - |a|);
        }
      }
      IndexNone(s, sep);
    }
  }

  /** A single-character separator absent from a cuts a + [c] + b right after a. */
  lemma SplitAtFirst(a: string, c: char, b: string)
    requires c !in a
    ensures Split(a + [c] + b, [c]) == [a] + Split(b, [c])
  {
    IndexAfter(a, [c] + b, [c]);
    assert Index([c] + b, [c]) == 0 by { assert OccursAt([c] + b, [c], 0); }
    assert a + [c] + b == a + ([c] + b);
    var s := a + [c] + b;
    assert s[..|a|] == a;
    assert s[|a| + 1..] == b;
  }

  /** A string free of the separator character splits into itself. */
  lemma SplitWithout(a: string, c: char)
    requires c !in a
    ensures Split(a, [c]) == [a]
  {
    IndexAfter(a, [], [c]);
    assert a + [] == a;
  }

  /** For a one-character separator, Split inverts Join on parts free of that character. */
  lemma {:induction false} SplitJoin(parts: seq<string>, c: char)
    requires |parts| >= 1
    requires forall p :: p in parts ==> c !in p
    ensures Split(Join(parts, [c]), [c]) == parts
    decreases |parts|
  {
    if |parts| == 1 {
      SplitWithout(parts[0], c);
    } else {
      SplitJoin(parts[1..], c);
      SplitAtFirst(parts[0], c, Join(parts[1..], [c]));
    }
  }

  /** sub occurs in p + sub + q right after p. */
  lemma OccursBetween(p: string, sub: string, q: string)
    ensures OccursAt(p + sub + q, sub, |p|)
  {
    assert (p + sub + q)[|p|..|p| + |sub|] == sub;
  }

  /** If sep does not start anywhere inside a, splitting a + sep + b cuts right after a. */
  lemma SplitAt(a: string, sep: string, b: string)
    requires |sep| > 0
    requires forall j :: 0 <= j < |a| ==> !OccursAt(a + sep + b, sep, j)
    ensures Split(a + sep + b, sep) == [a] + Split(b, sep)
  {
    var s := a + sep + b;
    OccursBetween(a, sep, b);
    assert Index(s, sep) == |a|;
    assert s[..|a|] == a;
    assert s[|a| + |sep|..] == b;
  }

  /** No two adjacent characters of s are both c. */
  predicate Isolated(s: string, c: char) {
    forall j :: 0 <= j < |s| - 1 ==> s[j] != c || s[j + 1] != c
  }

  /** Joining with c a c-free string to an isolated one that does not start with c keeps c isolated. */
  lemma IsolatedJoin(p: string, c: char, q: string)
    requires c !in p && Isolated(q, c) && q != [] && q[0] != c
    ensures Isolated(p + [c] + q, c)
  {
    var s := p + [c] + q;
    forall j | 0 <= j < |s| - 1 ensures s[j] != c || s[j + 1] != c {
      if j < |p| {
        assert s[j] == p[j];
      } else if j == |p| {
        assert s[j + 1] == q[0];
      } else {
        assert s[j] == q[j - |p| - 1] && s[j + 1] == q[j - |p|];
      }
    }
  }

  /** Three c's in a row never start inside a string where c is isolated and which does not end with c. */
  lemma NoRunBefore(a: string, c: char, b: string)
    requires Isolated(a, c) && (a == [] || a[|a| - 1] != c)
    ensures forall j :: 0 <= j < |a| ==> !OccursAt(a + [c, c, c] + b, [c, c, c], j)
  {
    var s := a + [c, c, c] + b;
    forall j | 0 <= j < |a| ensures !OccursAt(s, [c, c, c], j) {
      assert s[j..j + 3][0] == s[j] && s[j..j + 3][1] == s[j + 1];
      if j + 1 < |a| {
        assert s[j] == a[j] && s[j + 1] == a[j + 1];
      } else {
        assert s[j] == a[|a| - 1];
      }
    }
  }

  /** Where c is isolated, three c's in a row occur nowhere. */
  lemma NoRun(s: string, c: char)
    requires Isolated(s, c)
    ensures Index(s, [c, c, c]) == -1
  {
    forall j | 0 <= j && j + 3 <= |s| ensures !OccursAt(s, [c, c, c], j) {
      assert s[j..j + 3][0] == s[j] && s[j..j + 3][1] == s[j + 1];
    }
  }

  /** A string lacking one of sub's characters does not contain sub. */
  lemma MissingChar(s: string, sub: string, c: char)
    requires |sub| > 0 && c in sub && c !in s
    ensures !Contains(s, sub)
  {
    var k :| 0 <= k < |sub| && sub[k] == c;
    forall j | 0 <= j && j + |sub| <= |s| ensures !OccursAt(s, sub, j) {
      assert s[j..j + |sub|][k] == s[j + k];
      assert s[j + k] in s;
    }
  }

  /** A string containing sub still contains it with text added on both sides. */
  lemma ContainsWithin(p: string, s: string, q: string, sub: string)
    requires |sub| > 0 && Contains(s, sub)
    ensures Contains(p + s + q, sub)
  {
    var j :| OccursAt(s, sub, j);
    assert (p + s + q)[|p| + j..|p| + j + |sub|] == s[j..j + |sub|];
    assert OccursAt(p + s + q, sub, |p| + j);
  }
}
