// Python's string operations as the scripts use them, on strings as sequences of
// Unicode code points (Python's len counts code points, and so does |s| here).

module Text {

  datatype Option<T> = None | Some(value: T)

  predicate IsDigit(c: char) { '0' <= c <= '9' }

  /** pat occurs in t starting at index i. */
  predicate OccursAt(t: string, pat: string, i: nat)
  {
    i + |pat| <= |t| && t[i..i + |pat|] == pat
  }

  /** Python's `pat in t`. */
  predicate Contains(t: string, pat: string)
  {
    exists i | 0 <= i <= |t| :: OccursAt(t, pat, i)
  }

  // ------------------------------------------------------------------ strip

  /** Index of the first character of s at or after i that is not c (|s| if none). */
  function ScanLeading(s: string, c: char, i: nat): (n: nat)
    requires i <= |s|
    ensures i <= n <= |s| && (n == |s| || s[n] != c)
    ensures forall k | i <= k < n :: s[k] == c
    decreases |s| - i
  {
    if i < |s| && s[i] == c then ScanLeading(s, c, i + 1) else i
  }

  /** One past the last character of s[..j] that is not c (0 if none). */
  function ScanEnd(s: string, c: char, j: nat): (n: nat)
    requires j <= |s|
    ensures n <= j && (n == 0 || s[n - 1] != c)
    ensures forall k | n <= k < j :: s[k] == c
  {
    if j > 0 && s[j - 1] == c then ScanEnd(s, c, j - 1) else j
  }

  /** r is s[i..i + |r|] and everything of s around it is c. */
  predicate Surrounded(s: string, r: string, c: char, i: nat)
  {
    i + |r| <= |s| && r == s[i..i + |r|]
    && (forall k | 0 <= k < i :: s[k] == c)
    && (forall k | i + |r| <= k < |s| :: s[k] == c)
  }

  /** s.strip(c): what is left of s once every leading and every trailing c is dropped. */
  function Strip(s: string, c: char): (r: string)
    ensures r == [] || (r[0] != c && r[|r| - 1] != c)
    ensures Surrounded(s, r, c, ScanLeading(s, c, 0))
  {
    var i := ScanLeading(s, c, 0);
    if i == |s| then "" else s[i..ScanEnd(s, c, |s|)]
  }

  /** Stripping twice strips nothing more. */
  lemma {:induction false} StripIdempotent(s: string, c: char)
    ensures Strip(Strip(s, c), c) == Strip(s, c)
  {
    var r := Strip(s, c);
    if r != [] {
      assert ScanLeading(r, c, 0) == 0;
      assert ScanEnd(r, c, |r|) == |r|;
      assert r[0..|r|] == r;
    }
  }

  // ---------------------------------------------------------------- replace

  /** s.replace(pat, rep): every occurrence of pat found scanning left to right,
      without overlaps, is replaced by rep. */
  function Replace(s: string, pat: string, rep: string): string
    requires |pat| > 0
    decreases |s|
  {
    if |s| < |pat| then s
    else if s[..|pat|] == pat then rep + Replace(s[|pat|..], pat, rep)
    else [s[0]] + Replace(s[1..], pat, rep)
  }

  /** Without an occurrence of pat, replace changes nothing. */
  lemma {:induction false} ReplaceAbsent(s: string, pat: string, rep: string)
    requires |pat| > 0 && !Contains(s, pat)
    ensures Replace(s, pat, rep) == s
  {
    if |s| >= |pat| {
      assert !OccursAt(s, pat, 0);
      forall i | 0 <= i <= |s[1..]| ensures !OccursAt(s[1..], pat, i) {
        assert !OccursAt(s, pat, i + 1);
      }
      ReplaceAbsent(s[1..], pat, rep);
    }
  }

  /** A string lacking one character of pat contains no occurrence of pat. */
  lemma {:induction false} LacksChar(s: string, pat: string, k: nat)
    requires k < |pat| && pat[k] !in s
    ensures !Contains(s, pat)
  {
    forall i | 0 <= i <= |s| ensures !OccursAt(s, pat, i) {
      if i + |pat| <= |s| {
        assert s[i..i + |pat|][k] == s[i + k];
      }
    }
  }

  /** An occurrence at the front is replaced. */
  lemma {:induction false} ReplaceHead(pat: string, y: string, rep: string)
    requires |pat| > 0
    ensures Replace(pat + y, pat, rep) == rep + Replace(y, pat, rep)
  {
    assert (pat + y)[..|pat|] == pat;
    assert (pat + y)[|pat|..] == y;
  }

  /** No occurrence of pat starts in x and ends in y. */
  predicate NoStraddle(x: string, y: string, pat: string)
  {
    forall i | 0 <= i < |x| && |x| < i + |pat| :: !OccursAt(x + y, pat, i)
  }

  lemma {:induction false} NoStraddleTail(x: string, y: string, pat: string, d: nat)
    requires d <= |x| && NoStraddle(x, y, pat)
    ensures (x + y)[d..] == x[d..] + y && NoStraddle(x[d..], y, pat)
  {
    var z := x[d..] + y;
    assert (x + y)[d..] == z;
    forall i | 0 <= i < |x[d..]| && |x[d..]| < i + |pat| ensures !OccursAt(z, pat, i) {
      assert !OccursAt(x + y, pat, i + d);
      if i + |pat| <= |z| {
        assert z[i..i + |pat|] == (x + y)[i + d..i + d + |pat|];
      }
    }
  }

  /** Replacing in a concatenation replaces in each part when no occurrence crosses the seam. */
  lemma {:induction false} ReplaceConcat(x: string, y: string, pat: string, rep: string)
    requires |pat| > 0 && NoStraddle(x, y, pat)
    ensures Replace(x + y, pat, rep) == Replace(x, pat, rep) + Replace(y, pat, rep)
    decreases |x|
  {
    if x == [] {
      assert x + y == y;
    } else if |x| >= |pat| && x[..|pat|] == pat {
      ReplaceConcatHead(x, y, pat, rep);
      NoStraddleTail(x, y, pat, |pat|);
      ReplaceConcat(x[|pat|..], y, pat, rep);
    } else {
      ReplaceConcatChar(x, y, pat, rep);
      NoStraddleTail(x, y, pat, 1);
      ReplaceConcat(x[1..], y, pat, rep);
    }
  }

  /** One step of ReplaceConcat: x starts with pat, so both sides replace it first. */
  lemma ReplaceConcatHead(x: string, y: string, pat: string, rep: string)
    requires |pat| > 0 && |x| >= |pat| && x[..|pat|] == pat
    ensures Replace(x + y, pat, rep) == rep + Replace(x[|pat|..] + y, pat, rep)
    ensures Replace(x, pat, rep) == rep + Replace(x[|pat|..], pat, rep)
  {
    assert (x + y)[..|pat|] == x[..|pat|];
    assert (x + y)[|pat|..] == x[|pat|..] + y;
  }

  /** One step of ReplaceConcat: no occurrence starts at x's first character, so both
      sides keep it. */
  lemma ReplaceConcatChar(x: string, y: string, pat: string, rep: string)
    requires |pat| > 0 && |x| > 0 && NoStraddle(x, y, pat)
    requires !(|x| >= |pat| && x[..|pat|] == pat)
    ensures Replace(x + y, pat, rep) == [x[0]] + Replace(x[1..] + y, pat, rep)
    ensures Replace(x, pat, rep) == [x[0]] + Replace(x[1..], pat, rep)
  {
    assert (x + y)[1..] == x[1..] + y;
    assert [x[0]] + x[1..] == x;
    if |x + y| >= |pat| {
      if |x| >= |pat| {
        assert (x + y)[..|pat|] == x[..|pat|];
      } else {
        assert !OccursAt(x + y, pat, 0);
      }
    } else {
      assert [x[0]] + (x[1..] + y) == x + y;
    }
  }

  /** The seam is safe when the last character of x does not occur in pat. */
  lemma {:induction false} NoStraddleByLast(x: string, y: string, pat: string)
    requires |x| > 0 && x[|x| - 1] !in pat
    ensures NoStraddle(x, y, pat)
  {
    forall i | 0 <= i < |x| && |x| < i + |pat| ensures !OccursAt(x + y, pat, i) {
      if i + |pat| <= |x + y| {
        assert (x + y)[i..i + |pat|][|x| - 1 - i] == x[|x| - 1];
      }
    }
  }

  /** The seam is safe when the first |pat| - 1 characters of y avoid pat's last character. */
  lemma {:induction false} NoStraddleByFirst(x: string, y: string, pat: string)
    requires |pat| > 0
    requires forall k | 0 <= k < |y| && k < |pat| - 1 :: y[k] != pat[|pat| - 1]
    ensures NoStraddle(x, y, pat)
  {
    forall i | 0 <= i < |x| && |x| < i + |pat| ensures !OccursAt(x + y, pat, i) {
      if i + |pat| <= |x + y| {
        assert (x + y)[i..i + |pat|][|pat| - 1] == y[i + |pat| - 1 - |x|];
      }
    }
  }

  /** A concatenation of two strings without pat has none either, when no occurrence
      could cross the seam. */
  lemma AbsentConcat(x: string, y: string, pat: string)
    requires !Contains(x, pat) && !Contains(y, pat) && NoStraddle(x, y, pat)
    ensures !Contains(x + y, pat)
  {
    forall i | 0 <= i <= |x + y| ensures !OccursAt(x + y, pat, i) {
      if OccursAt(x + y, pat, i) {
        if i + |pat| <= |x| {
          assert (x + y)[i..i + |pat|] == x[i..i + |pat|];
          assert OccursAt(x, pat, i);
        } else if i >= |x| {
          assert (x + y)[i..i + |pat|] == y[i - |x|..i - |x| + |pat|];
          assert OccursAt(y, pat, i - |x|);
        }
      }
    }
  }

  /** Replacing the only occurrence of pat, between two strings that lack it. */
  lemma ReplaceSplice(x: string, pat: string, y: string, rep: string)
    requires |pat| > 0 && !Contains(x, pat) && !Contains(y, pat)
    requires x == [] || x[|x| - 1] !in pat
    ensures Replace(x + pat + y, pat, rep) == x + rep + y
  {
    if x != [] {
      NoStraddleByLast(x, pat + y, pat);
    }
    assert x + pat + y == x + (pat + y);
    ReplaceConcat(x, pat + y, pat, rep);
    ReplaceAbsent(x, pat, rep);
    ReplaceHead(pat, y, rep);
    ReplaceAbsent(y, pat, rep);
  }

  /** If the first k characters that replace produces avoid rep's first character,
      no replacement happened there: they are copied from the input. */
  lemma {:induction false} ReplaceCopiesPrefix(u: string, k: nat, pat: string, rep: string)
    requires |pat| > 0 && |rep| > 0
    requires k <= |Replace(u, pat, rep)|
    requires forall i | 0 <= i < k :: Replace(u, pat, rep)[i] != rep[0]
    ensures k <= |u| && u[..k] == Replace(u, pat, rep)[..k]
    decreases |u|
  {
    if k > 0 && |u| >= |pat| {
      assert Replace(u, pat, rep)[0] != rep[0];
      assert u[..|pat|] != pat;
      var r := Replace(u[1..], pat, rep);
      assert Replace(u, pat, rep) == [u[0]] + r;
      forall i | 0 <= i < k - 1 ensures r[i] != rep[0] {
        assert r[i] == Replace(u, pat, rep)[i + 1];
      }
      ReplaceCopiesPrefix(u[1..], k - 1, pat, rep);
      assert u[..k] == [u[0]] + u[1..][..k - 1];
    }
  }

  // ------------------------------------------------------------ join, split

  /** sep.join(parts). */
  function Join(sep: string, parts: seq<string>): string
  {
    if |parts| == 0 then ""
    else if |parts| == 1 then parts[0]
    else parts[0] + sep + Join(sep, parts[1..])
  }

  /** Total length of the parts. */
  function TotalLength(parts: seq<string>): nat
  {
    if |parts| == 0 then 0 else |parts[0]| + TotalLength(parts[1..])
  }

  lemma {:induction false} JoinLength(sep: string, parts: seq<string>)
    requires |parts| > 0
    ensures |Join(sep, parts)| == TotalLength(parts) + |sep| * (|parts| - 1)
  {
    if |parts| > 1 {
      JoinLength(sep, parts[1..]);
    }
  }

  /** s.split(c). */
  function Split(s: string, c: char): (r: seq<string>)
    ensures |r| > 0
  {
    if s == [] then [""]
    else if s[0] == c then [""] + Split(s[1..], c)
    else var t := Split(s[1..], c); [[s[0]] + t[0]] + t[1..]
  }

  lemma {:induction false} SplitWord(w: string, c: char, rest: string)
    requires c !in w
    ensures Split(w + rest, c) == [w + Split(rest, c)[0]] + Split(rest, c)[1..]
  {
    var t := Split(rest, c);
    if w == [] {
      assert w + rest == rest;
      assert t == [t[0]] + t[1..] && w + t[0] == t[0];
    } else {
      assert (w + rest)[1..] == w[1..] + rest;
      SplitWord(w[1..], c, rest);
      assert [w[0]] + (w[1..] + Split(rest, c)[0]) == w + Split(rest, c)[0];
    }
  }

  /** Splitting a join on its separator gives the parts back, when no part holds it. */
  lemma {:induction false} SplitJoin(parts: seq<string>, c: char)
    requires |parts| > 0 && forall k | 0 <= k < |parts| :: c !in parts[k]
    ensures Split(Join([c], parts), c) == parts
  {
    if |parts| == 1 {
      SplitWord(parts[0], c, "");
      assert parts[0] + "" == parts[0];
    } else {
      var rest := [c] + Join([c], parts[1..]);
      assert Join([c], parts) == parts[0] + rest;
      SplitWord(parts[0], c, rest);
      SplitJoin(parts[1..], c);
      assert rest[1..] == Join([c], parts[1..]);
      assert Split(rest, c) == [""] + parts[1..];
      assert parts[0] + Split(rest, c)[0] == parts[0];
      assert parts == [parts[0]] + parts[1..];
    }
  }

  // ------------------------------------------------------- padding, slicing

  /** s.ljust(w): s padded on the right with spaces to width w. */
  function LJust(s: string, w: nat): (r: string)
    ensures |r| == if |s| < w then w else |s|
    ensures r[..|s|] == s && forall i | |s| <= i < |r| :: r[i] == ' '
  {
    if |s| < w then s + seq(w - |s|, _ => ' ') else s
  }

  /** s[:n] for n >= 0. */
  function Take(s: string, n: nat): (r: string)
    ensures |r| == if n < |s| then n else |s|
    ensures r == s[..|r|]
  {
    if n < |s| then s[..n] else s
  }

  /** s[n:] for n >= 0. */
  function Drop(s: string, n: nat): (r: string)
    ensures |r| == if n < |s| then |s| - n else 0
    ensures r == s[|s| - |r|..]
  {
    if n < |s| then s[n..] else ""
  }

  lemma {:induction false} TakeDrop(s: string, n: nat)
    ensures Take(s, n) + Drop(s, n) == s
  {
  }
}
