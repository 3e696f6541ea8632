/**
 * The heap buffers the string helpers of pretty_index work on, as arrays of
 * `char`. The C library calls they use (`strlen`, `strstr`, `memmove`,
 * `strncpy`, `malloc`/`realloc`) become small methods, and on top of them
 * `str_dup`, `str_shrink_to_fit`, `str_cut` and `str_rep` are proved against
 * the functions of CStrings: a buffer holding the text `s` ends up holding
 * `CutAll(s, p)` or `ReplaceAll(s, o, u)`, in a block of exactly the right size.
 */
module Buffers {
  import opened Wrappers
  import opened CStrings

  /** The cells `buf` hold the C string `s`: its characters, then the terminator. */
  ghost predicate HoldsSeq(buf: seq<char>, s: seq<char>)
  {
    IsCString(s) && |s| < |buf| && buf[|s|] == '\0' &&
    forall k | 0 <= k < |s| :: buf[k] == s[k]
  }

  /** The array `a` holds the C string `s`. */
  ghost predicate Holds(a: array<char>, s: seq<char>)
    reads a
  {
    HoldsSeq(a[..], s)
  }

  /** The cells after `memmove(dst, src, n)`: the `n` cells at `src` copied to `dst`. */
  function Moved(b: seq<char>, dst: nat, src: nat, n: nat): (r: seq<char>)
    requires dst + n <= |b| && src + n <= |b|
    ensures |r| == |b|
  {
    seq(|b|, k requires 0 <= k < |b| => if dst <= k < dst + n then b[k - dst + src] else b[k])
  }

  /** The cells after `strncpy(at, u, |u|)`: the characters of `u`, no terminator. */
  function Copied(b: seq<char>, at: nat, u: seq<char>): (r: seq<char>)
    requires at + |u| <= |b|
    ensures |r| == |b|
  {
    seq(|b|, k requires 0 <= k < |b| => if at <= k < at + |u| then u[k - at] else b[k])
  }

  // ---------------------------------------------------------------------------
  // The C library

  /** `strlen(a + from)`. */
  method StrLen(a: array<char>, from: nat, ghost s: seq<char>) returns (n: nat)
    requires Holds(a, s) && from <= |s|
    ensures n == |s| - from
  {
    n := 0;
    while a[from + n] != '\0'
      invariant from + n <= |s|
      decreases |s| - from - n
    {
      n := n + 1;
    }
  }

  /** `strstr(a + from, p)`, as an index into `a`. */
  method StrStr(a: array<char>, from: nat, p: seq<char>, ghost s: seq<char>) returns (r: Option<nat>)
    requires Holds(a, s) && from <= |s| && |p| > 0 && IsCString(p)
    ensures r == FindFrom(s, from, p)
  {
    var j := from;
    while a[j] != '\0'
      invariant from <= j <= |s|
      invariant FindFrom(s, j, p) == FindFrom(s, from, p)
      decreases |s| - j
    {
      var k := 0;
      while k < |p| && a[j + k] == p[k]
        invariant k <= |p| && j + k <= |s|
        invariant forall m | 0 <= m < k :: s[j + m] == p[m]
        decreases |p| - k
      {
        k := k + 1;
      }
      if k == |p| {
        MatchFound(s, j, p);
        return Some(j);
      }
      Mismatch(s, j, p, k);
      j := j + 1;
    }
    return None;
  }

  /** `memmove(a + dst, a + src, n)`: correct whichever way the two ranges overlap. */
  method MemMove(a: array<char>, dst: nat, src: nat, n: nat)
    requires dst + n <= a.Length && src + n <= a.Length
    modifies a
    ensures a[..] == Moved(old(a[..]), dst, src, n)
  {
    ghost var b := a[..];
    if dst <= src {
      var k := 0;
      while k < n
        invariant k <= n && |b| == a.Length
        invariant forall m | dst <= m < dst + k :: a[m] == b[m - dst + src]
        invariant forall m | 0 <= m < a.Length && !(dst <= m < dst + k) :: a[m] == b[m]
      {
        a[dst + k] := a[src + k];
        k := k + 1;
      }
    } else {
      var k := n;
      while k > 0
        invariant 0 <= k <= n && |b| == a.Length
        invariant forall m | dst + k <= m < dst + n :: a[m] == b[m - dst + src]
        invariant forall m | 0 <= m < a.Length && !(dst + k <= m < dst + n) :: a[m] == b[m]
      {
        k := k - 1;
        a[dst + k] := a[src + k];
      }
    }
    forall m | 0 <= m < a.Length ensures a[..][m] == Moved(b, dst, src, n)[m] {
    }
  }

  /** `strncpy(a + at, u, strlen(u))`: the characters of `u` and no terminator. */
  method StrNCpy(a: array<char>, at: nat, u: seq<char>)
    requires at + |u| <= a.Length
    modifies a
    ensures a[..] == Copied(old(a[..]), at, u)
  {
    ghost var b := a[..];
    var k := 0;
    while k < |u|
      invariant k <= |u| && |b| == a.Length
      invariant forall m | at <= m < at + k :: a[m] == u[m - at]
      invariant forall m | 0 <= m < a.Length && !(at <= m < at + k) :: a[m] == b[m]
    {
      a[at + k] := u[k];
      k := k + 1;
    }
    forall m | 0 <= m < a.Length ensures a[..][m] == Copied(b, at, u)[m] {
    }
  }

  /**
   * `realloc(a, size)`: a block of `size` cells starting with as much of `a`
   * as fits. The model always hands back a new block.
   */
  method Realloc(a: array<char>, size: nat) returns (b: array<char>)
    ensures fresh(b) && b.Length == size
    ensures forall k | 0 <= k < size && k < a.Length :: b[k] == a[k]
  {
    b := new char[size];
    var k := 0;
    while k < size && k < a.Length
      invariant k <= size
      invariant forall m | 0 <= m < k && m < a.Length :: b[m] == a[m]
    {
      b[k] := a[k];
      k := k + 1;
    }
  }

  // ---------------------------------------------------------------------------
  // The helpers of pretty_index

  /** `str_dup`: a new block of exactly `strlen(str) + 1` cells holding `str`. */
  method StrDup(str: seq<char>) returns (p: array<char>)
    requires IsCString(str)
    ensures fresh(p) && p.Length == |str| + 1 && Holds(p, str)
  {
    p := new char[|str| + 1];
    var k := 0;
    while k < |str|
      invariant k <= |str|
      invariant forall m | 0 <= m < k :: p[m] == str[m]
    {
      p[k] := str[k];
      k := k + 1;
    }
    p[|str|] := '\0';
  }

  /** `str_shrink_to_fit`: the same text in a block of exactly `strlen + 1` cells. */
  method StrShrinkToFit(str: array<char>, ghost s: seq<char>) returns (r: array<char>)
    requires Holds(str, s)
    ensures fresh(r) && r.Length == |s| + 1 && Holds(r, s)
  {
    var n := StrLen(str, 0, s);
    r := Realloc(str, n + 1);
  }

  /**
   * `str_cut`: delete the leftmost match of `p` and search again from the
   * start, until `p` no longer occurs; then shrink the block to fit.
   */
  method StrCut(str: array<char>, p: seq<char>, ghost s: seq<char>) returns (res: array<char>)
    requires Holds(str, s) && |p| > 0 && IsCString(p)
    modifies str
    ensures fresh(res) && res.Length == |CutAll(s, p)| + 1 && Holds(res, CutAll(s, p))
  {
    ghost var cur := s;
    var it := StrStr(str, 0, p, cur);
    while it.Some?
      invariant Holds(str, cur) && CutAll(cur, p) == CutAll(s, p)
      invariant it == FindFrom(cur, 0, p)
      decreases |cur|
    {
      var i := it.value;
      MoveTailBack(str, i, i + |p|, cur);
      CutAllUnfold(cur, p, i);
      cur := cur[..i] + cur[i + |p|..];
      it := StrStr(str, 0, p, cur);
    }
    var len := StrLen(str, 0, cur);
    res := Realloc(str, len + 1);
  }

  /**
   * `memmove(a + dst, a + src, strlen(a + src) + 1)` with `dst <= src`: the
   * text from `src` on, terminator included, moves back to `dst`.
   */
  method MoveTailBack(a: array<char>, dst: nat, src: nat, ghost s: seq<char>)
    requires Holds(a, s) && dst <= src <= |s|
    modifies a
    ensures Holds(a, s[..dst] + s[src..])
  {
    var n := StrLen(a, src, s);
    ghost var before := a[..];
    MemMove(a, dst, src, n + 1);
    CloseGap(before, s, dst, src, n);
  }

  /**
   * The size `str_rep` allocates, counting matches the way the replacement
   * loop finds them: each search resumes after the match it found.
   */
  method MemNeeded(str: array<char>, o: seq<char>, u: seq<char>, ghost s: seq<char>) returns (mem: int)
    requires Holds(str, s) && |o| > 0 && IsCString(o)
    ensures mem == |ReplaceAll(s, o, u)| + 1
  {
    var len := StrLen(str, 0, s);
    mem := len + 1;
    var diff := |u| - |o|;
    var j: nat := 0;
    ghost var k: nat := 0;
    var it := StrStr(str, 0, o, s);
    while it.Some?
      invariant j <= |s| && it == FindFrom(s, j, o)
      invariant k + CountFrom(s, j, o) == CountFrom(s, 0, o)
      invariant mem == |s| + 1 + diff * k
      decreases |s| - j
    {
      CountFromUnfold(s, j, o, it.value);
      Distribute(diff, k);
      mem := mem + diff;
      k := k + 1;
      j := it.value + |o|;
      it := StrStr(str, j, o, s);
    }
    ReplaceFromLength(s, 0, o, u);
  }

  /**
   * The size `str_rep` allocates as written: after each match the search
   * resumes one character further on, so overlapping matches are counted.
   */
  method MemNeededAsWritten(str: array<char>, o: seq<char>, u: seq<char>, ghost s: seq<char>) returns (mem: int)
    requires Holds(str, s) && |o| > 0 && IsCString(o)
    ensures mem == |s| + 1 + (|u| - |o|) * MatchesFrom(s, 0, o)
  {
    var len := StrLen(str, 0, s);
    mem := len + 1;
    var diff := |u| - |o|;
    var j: nat := 0;
    ghost var k: nat := 0;
    var it := StrStr(str, 0, o, s);
    while it.Some?
      invariant j <= |s| && it == FindFrom(s, j, o)
      invariant k + MatchesFrom(s, j, o) == MatchesFrom(s, 0, o)
      invariant mem == |s| + 1 + diff * k
      decreases |s| - j
    {
      MatchesFromUnfold(s, j, o, it.value);
      Distribute(diff, k);
      mem := mem + diff;
      k := k + 1;
      j := it.value + 1;
      it := StrStr(str, j, o, s);
    }
  }

  /**
   * The rewriting loop of `str_rep`, shared by its two branches: find `o`
   * from the current position, open or close the gap with `memmove`, copy
   * `u` in, and resume right after the inserted text.
   */
  method ReplaceInPlace(a: array<char>, o: seq<char>, u: seq<char>, ghost s: seq<char>)
    requires Holds(a, s) && |o| > 0 && IsCString(o) && IsCString(u)
    requires |ReplaceAll(s, o, u)| < a.Length
    modifies a
    ensures Holds(a, ReplaceAll(s, o, u))
  {
    ghost var final := ReplaceAll(s, o, u);
    ghost var cur := s;
    var c: nat := 0;
    var it := StrStr(a, 0, o, cur);
    while it.Some?
      invariant Holds(a, cur) && c <= |cur|
      invariant it == FindFrom(cur, c, o)
      invariant Rewritten(cur, c, o, u) == final
      invariant |u| < |o| ==> |cur| <= |s|
      invariant |u| >= |o| ==> |cur| <= |final|
      decreases |cur| - c
    {
      var i := it.value;
      var resume := i + |u|;
      RepProgress(cur, c, o, u, i, resume);
      ghost var next := Spliced(cur, i, o, u);
      ReplaceAt(a, i, o, u, cur);
      cur := next;
      c := resume;
      it := StrStr(a, c, o, cur);
    }
    RepDone(cur, c, o, u);
  }

  /**
   * One round of the loop of `str_rep`: `memmove` opens or closes the gap
   * between the match and the rest of the text, `strncpy` fills in `u`.
   */
  method ReplaceAt(a: array<char>, i: nat, o: seq<char>, u: seq<char>, ghost cur: seq<char>)
    requires Holds(a, cur) && i + |o| <= |cur| && IsCString(u)
    requires |cur| - |o| + |u| < a.Length
    modifies a
    ensures Holds(a, Spliced(cur, i, o, u))
  {
    var n := StrLen(a, i + |o|, cur);
    ghost var after := Copied(Moved(a[..], i + |u|, i + |o|, n + 1), i, u);
    RepStep(a[..], cur, i, o, u, n);
    MemMove(a, i + |u|, i + |o|, n + 1);
    StrNCpy(a, i, u);
    assert a[..] == after;
  }

  /**
   * `str_rep`: replace every match of `o` by `u`, leftmost first, resuming
   * after the inserted text. When the text grows the block is resized
   * before rewriting, to the size counted as written, which is enough and
   * exact unless `o` overlaps itself. When it shrinks the block is resized
   * after rewriting, to exactly `strlen + 1`: here the size counted as
   * written can be too small, and the model uses the corrected count.
   */
  method StrRep(str: array<char>, o: seq<char>, u: seq<char>, ghost s: seq<char>) returns (res: array<char>)
    requires Holds(str, s) && |o| > 0 && IsCString(o) && IsCString(u)
    modifies str
    ensures fresh(res) && Holds(res, ReplaceAll(s, o, u))
    ensures |u| >= |o| ==> res.Length == |s| + 1 + (|u| - |o|) * MatchesFrom(s, 0, o)
    ensures |u| < |o| ==> res.Length == |ReplaceAll(s, o, u)| + 1
  {
    ReplaceFromCString(s, 0, o, u);
    if |u| - |o| >= 0 {
      var mem := MemNeededAsWritten(str, o, u, s);
      assert |ReplaceAll(s, o, u)| < mem by {
        AsWrittenBlockLargeEnough(s, o, u);
      }
      res := Realloc(str, mem);
      HoldsKept(str[..], res[..], s);
      ReplaceInPlace(res, o, u, s);
    } else {
      var mem := MemNeeded(str, o, u, s);
      ReplaceInPlace(str, o, u, s);
      res := Realloc(str, mem);
      HoldsKept(str[..], res[..], ReplaceAll(s, o, u));
    }
  }

  // ---------------------------------------------------------------------------
  // Lemmas about the cells

  /** A search that compared all of `p` found it at `j`. */
  lemma {:induction false} MatchFound(s: seq<char>, j: nat, p: seq<char>)
    requires |p| > 0 && j + |p| <= |s|
    requires forall m | 0 <= m < |p| :: s[j + m] == p[m]
    ensures FindFrom(s, j, p) == Some(j)
  {
    PrefixAtMatch(s, j, p, 0);
    assert s[j..j + |p|] == p;
  }

  /** A search that hit a differing character or the terminator moves on. */
  lemma {:induction false} Mismatch(s: seq<char>, j: nat, p: seq<char>, k: nat)
    requires |p| > 0 && j < |s| && k < |p| && j + k <= |s|
    requires forall m | 0 <= m < k :: s[j + m] == p[m]
    requires j + k == |s| || s[j + k] != p[k]
    ensures FindFrom(s, j, p) == FindFrom(s, j + 1, p)
  {
    if j + |p| <= |s| {
      PrefixAtMatch(s, j, p, 0);
      assert s[j..j + |p|][k] != p[k];
    }
  }

  /**
   * `memmove(a, b, n + 1)` with `n = strlen(b)` closes the gap between the
   * cells `a` and `b` of the text, terminator included.
   */
  lemma {:induction false} CloseGap(buf: seq<char>, s: seq<char>, a: nat, b: nat, n: nat)
    requires HoldsSeq(buf, s) && a <= b && b + n == |s|
    ensures HoldsSeq(Moved(buf, a, b, n + 1), s[..a] + s[b..])
  {
    var t := s[..a] + s[b..];
    var r := Moved(buf, a, b, n + 1);
    CStringSlice(s, 0, a);
    CStringDrop(s, b);
    CStringConcat(s[..a], s[b..]);
    forall k | 0 <= k < |t| ensures r[k] == t[k] {
      if k >= a {
        assert t[k] == s[k - a + b];
      }
    }
  }

  /** The text a partly rewritten buffer will hold once the loop of `str_rep` is done. */
  function Rewritten(cur: seq<char>, c: nat, o: seq<char>, u: seq<char>): seq<char>
    requires |o| > 0 && c <= |cur|
  {
    cur[..c] + ReplaceFrom(cur, c, o, u)
  }

  /** With no match of `o` left after `c`, the text is already rewritten. */
  lemma {:induction false} RepDone(cur: seq<char>, c: nat, o: seq<char>, u: seq<char>)
    requires |o| > 0 && c <= |cur| && FindFrom(cur, c, o).None?
    ensures Rewritten(cur, c, o, u) == cur
  {
    ReplaceFromNone(cur, c, o, u);
    assert cur[..c] + cur[c..] == cur;
  }

  /** The text with its match of `o` at `i` replaced by `u`. */
  function Spliced(s: seq<char>, i: nat, o: seq<char>, u: seq<char>): (r: seq<char>)
    requires i + |o| <= |s|
    ensures |r| == |s| - |o| + |u|
  {
    s[..i] + u + s[i + |o|..]
  }

  /** One round of `str_rep`: the `memmove` makes room and `strncpy` fills it. */
  lemma {:induction false} RepStep(buf: seq<char>, s: seq<char>, i: nat, o: seq<char>, u: seq<char>, n: nat)
    requires HoldsSeq(buf, s) && i + |o| + n == |s| && IsCString(u)
    requires |s| - |o| + |u| < |buf|
    ensures HoldsSeq(Copied(Moved(buf, i + |u|, i + |o|, n + 1), i, u), Spliced(s, i, o, u))
  {
    var t := Spliced(s, i, o, u);
    var r := Copied(Moved(buf, i + |u|, i + |o|, n + 1), i, u);
    CStringSlice(s, 0, i);
    CStringDrop(s, i + |o|);
    CStringConcat(s[..i], u);
    CStringConcat(s[..i] + u, s[i + |o|..]);
    forall k | 0 <= k < |t| ensures r[k] == t[k] {
      if k < i {
        assert t[k] == s[k];
      } else if k < i + |u| {
        assert t[k] == u[k - i];
      } else {
        assert t[k] == s[k - |u| + |o|];
      }
    }
  }

  /**
   * After one replacement, the text before the new position followed by the
   * rest rewritten is still the final text.
   */
  lemma {:induction false} RepProgress(cur: seq<char>, c: nat, o: seq<char>, u: seq<char>, i: nat, c': nat)
    requires |o| > 0 && c <= |cur| && FindFrom(cur, c, o) == Some(i) && c' == i + |u|
    ensures i + |o| <= |cur| && c' <= |Spliced(cur, i, o, u)|
    ensures Rewritten(Spliced(cur, i, o, u), c', o, u) == Rewritten(cur, c, o, u)
  {
    var next := Spliced(cur, i, o, u);
    var rest := ReplaceFrom(cur, i + |o|, o, u);
    assert ReplaceFrom(next, c', o, u) == rest by {
      assert next[c'..] == cur[i + |o|..];
      ReplaceFromShift(cur, i + |o|, next, c', o, u);
    }
    assert ReplaceFrom(cur, c, o, u) == cur[c..i] + u + rest by {
      ReplaceFromUnfold(cur, c, o, u, i);
    }
    assert next[..c'] == cur[..c] + cur[c..i] + u;
    Regroup(cur[..c], cur[c..i], u, rest);
  }

  /** Moving a text into a block that keeps its first cells keeps the text. */
  lemma {:induction false} HoldsKept(buf: seq<char>, buf': seq<char>, s: seq<char>)
    requires HoldsSeq(buf, s) && |s| < |buf'|
    requires forall k | 0 <= k < |buf'| && k < |buf| :: buf'[k] == buf[k]
    ensures HoldsSeq(buf', s)
  {
  }

  // ---------------------------------------------------------------------------
  // The size of the block `str_rep` returns

  /** When `o` cannot overlap itself, the two ways of counting agree. */
  lemma {:induction false} MemNeededAgrees(s: seq<char>, o: seq<char>, u: seq<char>)
    requires |o| > 0 && !SelfOverlapping(o)
    ensures |s| + 1 + (|u| - |o|) * MatchesFrom(s, 0, o) == |ReplaceAll(s, o, u)| + 1
  {
    MatchesEqualCount(s, 0, o);
    ReplaceFromLength(s, 0, o, u);
  }

  /**
   * When the text grows, the size counted as written is enough: every
   * replacement is at a match position, and overlapping positions only add
   * spare cells ("aaa" with "aa" replaced by "aaa" gets six cells for the
   * five "aaaa" needs).
   */
  lemma {:induction false} AsWrittenBlockLargeEnough(s: seq<char>, o: seq<char>, u: seq<char>)
    requires |o| > 0 && |u| >= |o|
    ensures |s| + 1 + (|u| - |o|) * MatchesFrom(s, 0, o) >= |ReplaceAll(s, o, u)| + 1
  {
    MatchesAtLeastCount(s, 0, o);
    ScaleMonotone(|u| - |o|, CountFrom(s, 0, o), MatchesFrom(s, 0, o));
    ReplaceFromLength(s, 0, o, u);
  }

  lemma {:induction false} ScaleMonotone(d: nat, c: nat, m: nat)
    requires c <= m
    ensures d * c <= d * m
    decreases m - c
  {
    if c < m {
      ScaleMonotone(d, c + 1, m);
      Distribute(d, c);
    }
  }

  /**
   * With a self-overlapping `o` and a shorter `u`, the size counted as
   * written is smaller than the text it must hold: "aaa" with "aa" replaced
   * by "a" becomes "aa", three bytes with its terminator, in a block of two.
   */
  lemma {:induction false} AsWrittenBlockTooSmall()
    ensures |"aaa"| + 1 + (|"a"| - |"aa"|) * MatchesFrom("aaa", 0, "aa") == 2
    ensures |ReplaceAll("aaa", "aa", "a")| + 1 == 3
  {
    OverlappingMatchesExceedCount();
    ReplaceFromLength("aaa", 0, "aa", "a");
  }
}
