/** The handful of Python `str` operations the journal tools rely on:
    repetition of a space, `lower`, `strip`, `find`, `startswith`,
    `endswith`, `split`, `join` and the `<`/`<=` ordering of strings.
    Character classes are those of ASCII (see README). */
module Text {

  /** `' ' * n`: n spaces, and none when n is zero or negative. */
  function Spaces(n: int): (r: string)
    ensures |r| == if n <= 0 then 0 else n
    ensures forall i :: 0 <= i < |r| ==> r[i] == ' '
    decreases if n <= 0 then 0 else n
  {
    if n <= 0 then "" else Spaces(n - 1) + " "
  }

  /** `c.isspace()` for an ASCII character. */
  predicate IsSpace(c: char) {
    var n := c as int;
    n == 32 || 9 <= n <= 13 || 28 <= n <= 31
  }

  function LowerChar(c: char): char {
    if 'A' <= c <= 'Z' then (c as int + 32) as char else c
  }

  /** `s.lower()` on ASCII letters. */
  function Lower(s: string): (r: string)
    ensures |r| == |s|
    ensures forall i :: 0 <= i < |s| ==> r[i] == LowerChar(s[i])
  {
    seq(|s|, i requires 0 <= i < |s| => LowerChar(s[i]))
  }

  lemma LowerAppend(a: string, b: string)
    ensures Lower(a + b) == Lower(a) + Lower(b)
  {
  }

  lemma LowerIdempotent(s: string)
    ensures Lower(Lower(s)) == Lower(s)
  {
  }

  /** `s.lstrip()`. */
  function LStrip(s: string): (r: string)
    ensures |r| <= |s| && r == s[|s| - |r|..]
    ensures forall i :: 0 <= i < |s| - |r| ==> IsSpace(s[i])
    ensures |r| > 0 ==> !IsSpace(r[0])
  {
    if |s| > 0 && IsSpace(s[0]) then LStrip(s[1..]) else s
  }

  /** `s.rstrip()`. */
  function RStrip(s: string): (r: string)
    ensures |r| <= |s| && r == s[..|r|]
    ensures forall i :: |r| <= i < |s| ==> IsSpace(s[i])
    ensures |r| > 0 ==> !IsSpace(r[|r| - 1])
  {
    if |s| > 0 && IsSpace(s[|s| - 1]) then RStrip(s[..|s| - 1]) else s
  }

  /** `rstrip` of a concatenation: the whitespace it removes comes from
      the end of `b`, and reaches into `a` only when `b` is all
      whitespace. */
  lemma {:induction false} RStripAppend(a: string, b: string)
    ensures |RStrip(b)| > 0 ==> RStrip(a + b) == a + RStrip(b)
    ensures |RStrip(b)| == 0 ==> RStrip(a + b) == RStrip(a)
    decreases |b|
  {
    if |b| == 0 {
      assert a + b == a;
    } else if IsSpace(b[|b| - 1]) {
      assert (a + b)[..|a + b| - 1] == a + b[..|b| - 1];
      RStripAppend(a, b[..|b| - 1]);
    }
  }

  /** `s.strip()`: the longest infix of `s` that neither starts nor ends
      with whitespace, obtained by dropping whitespace at both ends. */
  function Strip(s: string): (r: string)
    ensures |r| > 0 ==> !IsSpace(r[0]) && !IsSpace(r[|r| - 1])
  {
    RStrip(LStrip(s))
  }

  /** What `strip` keeps is a piece of the text. */
  lemma StripInfix(s: string)
    ensures Occurs(s, Strip(s))
  {
    var l := LStrip(s);
    var r := RStrip(l);
    assert r == s[|s| - |l|..|s| - |l| + |r|];
    assert OccursAt(s, r, |s| - |l|);
  }

  /** Padding made only of whitespace does not change what `strip` keeps. */
  lemma {:induction false} StripPadded(s: string, left: string, right: string)
    requires forall i :: 0 <= i < |left| ==> IsSpace(left[i])
    requires forall i :: 0 <= i < |right| ==> IsSpace(right[i])
    ensures Strip(left + s + right) == Strip(s)
  {
    var l := LStrip(s);
    calc {
      LStrip(left + s + right);
      { assert left + s + right == left + (s + right); LStripPadded(s + right, left); }
      LStrip(s + right);
      { LStripAppend(s, right); }
      if |l| > 0 then l + right else LStrip(right);
    }
    RStripPadded(l, right);
  }

  lemma {:induction false} LStripPadded(s: string, left: string)
    requires forall i :: 0 <= i < |left| ==> IsSpace(left[i])
    ensures LStrip(left + s) == LStrip(s)
    decreases |left|
  {
    if |left| > 0 {
      assert (left + s)[1..] == left[1..] + s;
      LStripPadded(s, left[1..]);
    } else {
      assert left + s == s;
    }
  }

  lemma {:induction false} LStripAppend(s: string, right: string)
    requires forall i :: 0 <= i < |right| ==> IsSpace(right[i])
    ensures LStrip(s + right) == if |LStrip(s)| > 0 then LStrip(s) + right else LStrip(right)
    decreases |s|
  {
    if |s| == 0 {
      assert s + right == right;
    } else if IsSpace(s[0]) {
      assert (s + right)[1..] == s[1..] + right;
      LStripAppend(s[1..], right);
    } else {
      assert (s + right)[0] == s[0];
    }
  }

  lemma {:induction false} RStripPadded(s: string, right: string)
    requires forall i :: 0 <= i < |right| ==> IsSpace(right[i])
    ensures RStrip(if |s| > 0 then s + right else LStrip(right)) == RStrip(s)
    decreases |right|
  {
    if |s| == 0 {
    } else if |right| > 0 {
      var t := right[..|right| - 1];
      assert (s + right)[..|s + right| - 1] == s + t;
      RStripPadded(s, t);
    } else {
      assert s + right == s;
    }
  }

  predicate StartsWith(s: string, prefix: string) {
    |prefix| <= |s| && s[..|prefix|] == prefix
  }

  predicate EndsWith(s: string, suffix: string) {
    |suffix| <= |s| && s[|s| - |suffix|..] == suffix
  }

  /** `sub` occurs in `s` starting at index `k`. */
  predicate OccursAt(s: string, sub: string, k: int) {
    0 <= k && k + |sub| <= |s| && s[k..k + |sub|] == sub
  }

  /** `sub` is a substring of `s`. */
  ghost predicate Occurs(s: string, sub: string) {
    exists k :: OccursAt(s, sub, k)
  }

  /** An occurrence stays one when text is added on either side. */
  lemma OccursAtExtend(s: string, sub: string, k: int, left: string, right: string)
    requires OccursAt(s, sub, k)
    ensures OccursAt(left + s + right, sub, |left| + k)
  {
    assert (left + s + right)[|left| + k..|left| + k + |sub|] == s[k..k + |sub|];
  }

  lemma OccursAtShift(s: string, sub: string, k: int)
    requires |s| > 0 && k >= 0
    ensures OccursAt(s, sub, k + 1) <==> OccursAt(s[1..], sub, k)
  {
    if k + 1 + |sub| <= |s| {
      assert s[k + 1..k + 1 + |sub|] == s[1..][k..k + |sub|];
    }
  }

  /** `s.find(sub)`: an index at which `sub` occurs, or -1; FindSpec
      shows it is the lowest one and that -1 means there is none. */
  function Find(s: string, sub: string): (r: int)
    ensures -1 <= r <= |s|
    ensures r >= 0 ==> OccursAt(s, sub, r)
  {
    if StartsWith(s, sub) then 0
    else if |s| == 0 then -1
    else
      var r := Find(s[1..], sub);
      if r < 0 then -1
      else
        OccursAtShift(s, sub, r);
        r + 1
  }

  /** `find` returns the first occurrence, and -1 only when there is none. */
  lemma {:induction false} FindSpec(s: string, sub: string)
    ensures Find(s, sub) >= 0 ==> forall k :: 0 <= k < Find(s, sub) ==> !OccursAt(s, sub, k)
    ensures Find(s, sub) < 0 ==> forall k :: !OccursAt(s, sub, k)
    decreases |s|
  {
    if !StartsWith(s, sub) && |s| > 0 {
      FindSpec(s[1..], sub);
      assert !OccursAt(s, sub, 0);
      forall k | k >= 0
        ensures OccursAt(s, sub, k + 1) <==> OccursAt(s[1..], sub, k)
      {
        OccursAtShift(s, sub, k);
      }
      assert forall k :: OccursAt(s, sub, k) ==> k == 0 || OccursAt(s[1..], sub, k - 1);
    }
  }

  lemma FindOccurs(s: string, sub: string)
    ensures Find(s, sub) >= 0 <==> Occurs(s, sub)
  {
    FindSpec(s, sub);
  }

  /** A piece before the first occurrence of `sep` does not contain it. */
  lemma {:induction false} FindPrefixAbsent(s: string, sep: string, i: int)
    requires |sep| > 0 && 0 <= i <= |s|
    requires forall k :: 0 <= k < i ==> !OccursAt(s, sep, k)
    ensures Find(s[..i], sep) < 0
  {
    forall k ensures !OccursAt(s[..i], sep, k) {
      if OccursAt(s[..i], sep, k) {
        assert s[..i][k..k + |sep|] == s[k..k + |sep|];
        assert OccursAt(s, sep, k);
      }
    }
  }

  /** `s.split(sep)` for a non-empty separator: the pieces between the
      successive leftmost non-overlapping occurrences of `sep`. */
  function Split(s: string, sep: string): (r: seq<string>)
    requires |sep| > 0
    ensures |r| >= 1
    decreases |s|
  {
    var i := Find(s, sep);
    if i < 0 then [s] else [s[..i]] + Split(s[i + |sep|..], sep)
  }

  /** No piece of a split contains the separator. */
  lemma {:induction false} SplitPieces(s: string, sep: string)
    requires |sep| > 0
    ensures forall i :: 0 <= i < |Split(s, sep)| ==> Find(Split(s, sep)[i], sep) < 0
    decreases |s|
  {
    var i := Find(s, sep);
    if i >= 0 {
      FindSpec(s, sep);
      FindPrefixAbsent(s, sep, i);
      SplitPieces(s[i + |sep|..], sep);
    }
  }

  /** `sep.join(xs)`. */
  function Join(xs: seq<string>, sep: string): string {
    if |xs| == 0 then ""
    else if |xs| == 1 then xs[0]
    else xs[0] + sep + Join(xs[1..], sep)
  }

  /** Joining the pieces of a split gives back the text. */
  lemma {:induction false} JoinSplit(s: string, sep: string)
    requires |sep| > 0
    ensures Join(Split(s, sep), sep) == s
    decreases |s|
  {
    var i := Find(s, sep);
    if i >= 0 {
      var head, rest := s[..i], s[i + |sep|..];
      var tail := Split(rest, sep);
      assert Split(s, sep) == [head] + tail;
      JoinSplit(rest, sep);
      JoinCons(head, tail, sep);
      assert s[i..i + |sep|] == sep;
      assert s == head + s[i..i + |sep|] + rest;
    }
  }

  lemma {:induction false} JoinAppend(xs: seq<string>, ys: seq<string>, sep: string)
    requires |xs| > 0 && |ys| > 0
    ensures Join(xs + ys, sep) == Join(xs, sep) + sep + Join(ys, sep)
    decreases |xs|
  {
    if |xs| == 1 {
      assert (xs + ys)[1..] == ys;
    } else {
      assert (xs + ys)[1..] == xs[1..] + ys;
      JoinAppend(xs[1..], ys, sep);
    }
  }

  lemma {:induction false} JoinCons(x: string, ys: seq<string>, sep: string)
    requires |ys| > 0
    ensures Join([x] + ys, sep) == x + sep + Join(ys, sep)
  {
    assert ([x] + ys)[1..] == ys;
  }

  lemma FindSingleCharAt(a: string, sep: string, b: string)
    requires |sep| == 1 && sep[0] !in a
    ensures Find(a + sep + b, sep) == |a|
  {
    var s := a + sep + b;
    assert OccursAt(s, sep, |a|) by {
      assert s[|a|..|a| + 1] == sep;
    }
    FindSpec(s, sep);
  }

  /** Splitting at a first one-character separator peels off the text
      before it. */
  lemma SplitFirst(a: string, sep: string, b: string)
    requires |sep| == 1 && sep[0] !in a
    ensures Split(a + sep + b, sep) == [a] + Split(b, sep)
  {
    var s := a + sep + b;
    FindSingleCharAt(a, sep, b);
    assert s[..|a|] == a;
    assert s[|a| + 1..] == b;
  }

  /** Two pieces without the separator at the front split off as the
      first two. */
  lemma SplitFirstTwo(a: string, b: string, c: string, sep: string)
    requires |sep| == 1 && sep[0] !in a && sep[0] !in b
    ensures Split(a + sep + b + sep + c, sep) == [a, b] + Split(c, sep)
  {
    var rest := b + sep + c;
    calc {
      Split(a + sep + b + sep + c, sep);
      { assert a + sep + b + sep + c == a + sep + rest; }
      Split(a + sep + rest, sep);
      { SplitFirst(a, sep, rest); }
      [a] + Split(rest, sep);
      { SplitFirst(b, sep, c); }
      [a] + ([b] + Split(c, sep));
      [a, b] + Split(c, sep);
    }
  }

  /** A join of two or more pieces starts with the first two. */
  lemma JoinFirstTwo(xs: seq<string>, sep: string)
    requires |xs| >= 2
    ensures Join(xs, sep) == xs[0] + sep + xs[1] + (if |xs| > 2 then sep + Join(xs[2..], sep) else "")
  {
    assert xs[1..][1..] == xs[2..];
    if |xs| == 2 {
      assert Join(xs[1..], sep) == xs[1];
    } else {
      assert Join(xs[1..], sep) == xs[1] + sep + Join(xs[2..], sep);
    }
  }

  lemma FindSingleCharAbsent(a: string, sep: string)
    requires |sep| == 1 && sep[0] !in a
    ensures Find(a, sep) < 0
  {
  }

  /** Splitting a join on a one-character separator that no part contains
      gives back the parts. */
  lemma {:induction false} SplitJoin(xs: seq<string>, sep: string)
    requires |sep| == 1 && |xs| > 0
    requires forall i :: 0 <= i < |xs| ==> sep[0] !in xs[i]
    ensures Split(Join(xs, sep), sep) == xs
    decreases |xs|
  {
    if |xs| == 1 {
      FindSingleCharAbsent(xs[0], sep);
    } else {
      var rest := Join(xs[1..], sep);
      var s := xs[0] + sep + rest;
      FindSingleCharAt(xs[0], sep, rest);
      assert s[..|xs[0]|] == xs[0];
      assert s[|xs[0]| + 1..] == rest;
      SplitJoin(xs[1..], sep);
      assert xs == [xs[0]] + xs[1..];
    }
  }

  /** Python's `a <= b` on strings: lexicographic order on code points, a
      proper prefix coming first. */
  predicate LexLe(a: string, b: string)
    decreases |a|
  {
    |a| == 0 || (|b| > 0 && (a[0] < b[0] || (a[0] == b[0] && LexLe(a[1..], b[1..]))))
  }

  /** Python's `a < b` on strings. */
  predicate LexLt(a: string, b: string) {
    !LexLe(b, a)
  }

  lemma {:induction false} LexLeReflexive(a: string)
    ensures LexLe(a, a)
    decreases |a|
  {
    if |a| > 0 {
      LexLeReflexive(a[1..]);
    }
  }

  lemma {:induction false} LexLeTotal(a: string, b: string)
    ensures LexLe(a, b) || LexLe(b, a)
    decreases |a|
  {
    if |a| > 0 && |b| > 0 && a[0] == b[0] {
      LexLeTotal(a[1..], b[1..]);
    }
  }

  lemma {:induction false} LexLeAntisymmetric(a: string, b: string)
    requires LexLe(a, b) && LexLe(b, a)
    ensures a == b
    decreases |a|
  {
    if |a| > 0 {
      LexLeAntisymmetric(a[1..], b[1..]);
      assert a == [a[0]] + a[1..] && b == [b[0]] + b[1..];
    }
  }

  lemma {:induction false} LexLeTransitive(a: string, b: string, c: string)
    requires LexLe(a, b) && LexLe(b, c)
    ensures LexLe(a, c)
    decreases |a|
  {
    if |a| > 0 && a[0] == b[0] && b[0] == c[0] {
      LexLeTransitive(a[1..], b[1..], c[1..]);
    }
  }

  /** `<` is `<=` without equality. */
  lemma LexLtIsStrict(a: string, b: string)
    ensures LexLt(a, b) <==> LexLe(a, b) && a != b
  {
    LexLeTotal(a, b);
    if LexLe(a, b) && LexLe(b, a) {
      LexLeAntisymmetric(a, b);
    }
    if a == b {
      LexLeReflexive(a);
    }
  }
}
