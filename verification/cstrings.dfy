/**
 * Pure specification of the C string primitives that the rewrite utilities
 * of pretty_index are built from: `strstr` (FindFrom), deleting every match
 * with a restart from the start of the string (CutAll, the meaning of
 * `str_cut`) and leftmost non-overlapping replacement (ReplaceAll, the
 * meaning of `str_rep`).  A C string is its characters before the
 * terminating NUL; here it is a `seq<char>` whose characters are non-NUL bytes.
 */
module CStrings {
  import opened Wrappers

  /** The characters of a C string: bytes other than NUL. */
  predicate IsCString(s: seq<char>)
  {
    forall i | 0 <= i < |s| :: 0 < s[i] as int < 256
  }

  /** `p` occurs in `s` starting at index `i`. */
  predicate MatchAt(s: seq<char>, i: int, p: seq<char>)
  {
    0 <= i && i + |p| <= |s| && s[i..i + |p|] == p
  }

  predicate Occurs(s: seq<char>, p: seq<char>)
  {
    exists i | 0 <= i <= |s| :: MatchAt(s, i, p)
  }

  /** The characters p[k..] appear in `s` at i + k, compared one at a time. */
  predicate PrefixAt(s: seq<char>, i: nat, p: seq<char>, k: nat)
    requires i + |p| <= |s|
    decreases |p| - k
  {
    k >= |p| || (s[i + k] == p[k] && PrefixAt(s, i, p, k + 1))
  }

  lemma {:induction false} PrefixAtMatch(s: seq<char>, i: nat, p: seq<char>, k: nat)
    requires i + |p| <= |s| && k <= |p|
    ensures PrefixAt(s, i, p, k) <==> s[i + k..i + |p|] == p[k..]
    decreases |p| - k
  {
    if k < |p| {
      PrefixAtMatch(s, i, p, k + 1);
      assert s[i + k..i + |p|] == [s[i + k]] + s[i + k + 1..i + |p|];
      assert p[k..] == [p[k]] + p[k + 1..];
    }
  }

  /**
   * `strstr(s + from, p)`: the leftmost match of `p` at or after `from`,
   * as an index into `s` (FindFromSpec states this).
   */
  function FindFrom(s: seq<char>, from: nat, p: seq<char>): (r: Option<nat>)
    requires |p| > 0
    ensures r.Some? ==> from <= r.value && r.value + |p| <= |s|
    decreases |s| - from
  {
    if from + |p| > |s| then None
    else if PrefixAt(s, from, p, 0) then Some(from)
    else FindFrom(s, from + 1, p)
  }

  /** FindFrom finds the leftmost match at or after `from`, and finds none only when there is none. */
  lemma {:induction false} FindFromSpec(s: seq<char>, from: nat, p: seq<char>)
    requires |p| > 0
    ensures FindFrom(s, from, p).Some? ==> MatchAt(s, FindFrom(s, from, p).value, p)
    ensures FindFrom(s, from, p).Some? ==>
              forall j :: from <= j < FindFrom(s, from, p).value ==> !MatchAt(s, j, p)
    ensures FindFrom(s, from, p).None? ==> forall j :: from <= j ==> !MatchAt(s, j, p)
    decreases |s| - from
  {
    if from + |p| <= |s| {
      PrefixAtMatch(s, from, p, 0);
      if !PrefixAt(s, from, p, 0) {
        FindFromSpec(s, from + 1, p);
      }
    }
  }

  /**
   * The meaning of `str_cut`: while `p` occurs, delete its leftmost match
   * and search again from the start, so a match formed across a cut is
   * deleted too (CutAllRemovesAll).
   */
  function CutAll(s: seq<char>, p: seq<char>): (r: seq<char>)
    requires |p| > 0
    ensures |r| <= |s|
    decreases |s|
  {
    match FindFrom(s, 0, p)
    case None => s
    case Some(i) => CutAll(s[..i] + s[i + |p|..], p)
  }

  /** How many deletions CutAll performs. */
  function CutCount(s: seq<char>, p: seq<char>): (r: nat)
    requires |p| > 0
    ensures |p| * r <= |s|
    decreases |s|
  {
    match FindFrom(s, 0, p)
    case None => 0
    case Some(i) =>
      Distribute(|p|, CutCount(s[..i] + s[i + |p|..], p));
      1 + CutCount(s[..i] + s[i + |p|..], p)
  }

  /**
   * Leftmost non-overlapping replacement of `o` by `u` in `s[from..]`:
   * after each replacement the search resumes after the match, so the
   * inserted text is never searched again.
   */
  function ReplaceFrom(s: seq<char>, from: nat, o: seq<char>, u: seq<char>): (r: seq<char>)
    requires |o| > 0
    requires from <= |s|
    ensures |o| <= |u| ==> |s| - from <= |r|
    ensures |u| <= |o| ==> |r| <= |s| - from
    decreases |s| - from
  {
    match FindFrom(s, from, o)
    case None => s[from..]
    case Some(i) => s[from..i] + u + ReplaceFrom(s, i + |o|, o, u)
  }

  /** The meaning of `str_rep(s, o, u)`. */
  function ReplaceAll(s: seq<char>, o: seq<char>, u: seq<char>): (r: seq<char>)
    requires |o| > 0
    ensures |o| <= |u| ==> |s| <= |r|
    ensures |u| <= |o| ==> |r| <= |s|
  {
    ReplaceFrom(s, 0, o, u)
  }

  /** Number of replacements ReplaceFrom makes: non-overlapping leftmost matches. */
  function CountFrom(s: seq<char>, from: nat, o: seq<char>): (r: nat)
    requires |o| > 0
    requires from <= |s|
    ensures |o| * r <= |s| - from
    decreases |s| - from
  {
    match FindFrom(s, from, o)
    case None => 0
    case Some(i) =>
      Distribute(|o|, CountFrom(s, i + |o|, o));
      1 + CountFrom(s, i + |o|, o)
  }

  /**
   * Number of positions at or after `from` where `o` matches, overlapping
   * matches included: what a search that restarts one character after each
   * match finds.
   */
  function MatchesFrom(s: seq<char>, from: nat, o: seq<char>): (r: nat)
    requires |o| > 0
    requires from <= |s|
    ensures r > 0 ==> r + |o| <= |s| - from + 1
    decreases |s| - from
  {
    match FindFrom(s, from, o)
    case None => 0
    case Some(i) => 1 + MatchesFrom(s, i + 1, o)
  }

  /** A proper suffix of `o` of length |o| - k is also its prefix. */
  predicate BorderAt(o: seq<char>, k: int)
  {
    0 < k < |o| && o[k..] == o[..|o| - k]
  }

  /** Two matches of `o` can overlap each other. */
  predicate SelfOverlapping(o: seq<char>)
  {
    exists k | 0 < k < |o| :: BorderAt(o, k)
  }

  // ---------------------------------------------------------------------------
  // Searching

  /** FindFrom is determined by its contract. */
  lemma {:induction false} FindFromUnique(s: seq<char>, from: nat, p: seq<char>, r: Option<nat>)
    requires |p| > 0
    requires r.Some? ==> from <= r.value && MatchAt(s, r.value, p)
    requires r.Some? ==> forall j :: from <= j < r.value ==> !MatchAt(s, j, p)
    requires r.None? ==> forall j :: from <= j ==> !MatchAt(s, j, p)
    ensures FindFrom(s, from, p) == r
  {
    FindFromSpec(s, from, p);
  }

  /** Slicing a suffix of a string is slicing the string. */
  lemma {:induction false} SuffixSlices(s: seq<char>, c: nat, t: seq<char>, d: nat, a: nat)
    requires c <= |s| && d <= |t| && s[c..] == t[d..]
    requires c <= a <= |s|
    ensures s[c..a] == t[d..a - c + d]
    ensures s[a..] == t[a - c + d..]
  {
    assert s[c..a] == s[c..][..a - c];
    assert t[d..a - c + d] == t[d..][..a - c];
    assert s[a..] == s[c..][a - c..];
    assert t[a - c + d..] == t[d..][a - c..];
  }

  /** A search only depends on the text after its start. */
  lemma {:induction false} FindFromShift(s: seq<char>, c: nat, t: seq<char>, d: nat, p: seq<char>)
    requires |p| > 0
    requires c <= |s| && d <= |t| && s[c..] == t[d..]
    ensures FindFrom(s, c, p).None? ==> FindFrom(t, d, p).None?
    ensures FindFrom(s, c, p).Some? ==> FindFrom(t, d, p) == Some(FindFrom(s, c, p).value - c + d)
    decreases |s| - c
  {
    if c + |p| <= |s| {
      SuffixSlices(s, c, t, d, c + |p|);
      PrefixAtMatch(s, c, p, 0);
      PrefixAtMatch(t, d, p, 0);
      if !PrefixAt(s, c, p, 0) {
        SuffixSlices(s, c, t, d, c + 1);
        FindFromShift(s, c + 1, t, d + 1, p);
      }
    }
  }

  /** Skipping positions where nothing matches does not change a search. */
  lemma {:induction false} FindFromSkip(s: seq<char>, a: nat, b: nat, p: seq<char>)
    requires |p| > 0 && a <= b
    requires forall j :: a <= j < b ==> !MatchAt(s, j, p)
    ensures FindFrom(s, a, p) == FindFrom(s, b, p)
  {
    FindFromSpec(s, b, p);
    FindFromUnique(s, a, p, FindFrom(s, b, p));
  }

  // ---------------------------------------------------------------------------
  // Deleting

  /** After CutAll the pattern occurs nowhere, not even across a former cut. */
  lemma {:induction false} CutAllRemovesAll(s: seq<char>, p: seq<char>)
    requires |p| > 0
    ensures !Occurs(CutAll(s, p), p)
    decreases |s|
  {
    FindFromSpec(s, 0, p);
    match FindFrom(s, 0, p)
    case None =>
    case Some(i) =>
      CutAllRemovesAll(s[..i] + s[i + |p|..], p);
      CutAllUnfold(s, p, i);
  }

  /** CutAll leaves a string without the pattern unchanged. */
  lemma {:induction false} CutAllAbsent(s: seq<char>, p: seq<char>)
    requires |p| > 0
    requires !Occurs(s, p)
    ensures CutAll(s, p) == s
  {
    FindFromSpec(s, 0, p);
  }

  /** Deleting text from a C string leaves a C string. */
  lemma {:induction false} CutAllCString(s: seq<char>, p: seq<char>)
    requires |p| > 0
    ensures IsCString(s) ==> IsCString(CutAll(s, p))
    decreases |s|
  {
    match FindFrom(s, 0, p)
    case None =>
    case Some(i) =>
      var s' := s[..i] + s[i + |p|..];
      CutAllCString(s', p);
      CutAllUnfold(s, p, i);
      if IsCString(s) {
        CStringSlice(s, 0, i);
        CStringDrop(s, i + |p|);
        CStringConcat(s[..i], s[i + |p|..]);
      }
  }

  /** Each deletion of CutAll shortens the string by exactly |p|. */
  lemma {:induction false} CutAllLength(s: seq<char>, p: seq<char>)
    requires |p| > 0
    ensures |CutAll(s, p)| == |s| - |p| * CutCount(s, p)
    decreases |s|
  {
    match FindFrom(s, 0, p)
    case None =>
    case Some(i) =>
      var s' := s[..i] + s[i + |p|..];
      CutAllLength(s', p);
      CutAllUnfold(s, p, i);
      CutCountUnfold(s, p, i);
      Distribute(|p|, CutCount(s', p));
  }

  lemma {:induction false} CutAllUnfold(s: seq<char>, p: seq<char>, i: nat)
    requires |p| > 0
    requires FindFrom(s, 0, p) == Some(i)
    ensures CutAll(s, p) == CutAll(s[..i] + s[i + |p|..], p)
  {
  }

  lemma {:induction false} CutCountUnfold(s: seq<char>, p: seq<char>, i: nat)
    requires |p| > 0
    requires FindFrom(s, 0, p) == Some(i)
    ensures CutCount(s, p) == 1 + CutCount(s[..i] + s[i + |p|..], p)
  {
  }

  /** Cutting twice cuts nothing more. */
  lemma {:induction false} CutAllIdempotent(s: seq<char>, p: seq<char>)
    requires |p| > 0
    ensures CutAll(CutAll(s, p), p) == CutAll(s, p)
  {
    CutAllRemovesAll(s, p);
    CutAllAbsent(CutAll(s, p), p);
  }

  // ---------------------------------------------------------------------------
  // Replacing

  lemma {:induction false} ReplaceFromUnfold(s: seq<char>, from: nat, o: seq<char>, u: seq<char>, i: nat)
    requires |o| > 0 && from <= |s|
    requires FindFrom(s, from, o) == Some(i)
    ensures ReplaceFrom(s, from, o, u) == s[from..i] + u + ReplaceFrom(s, i + |o|, o, u)
  {
  }

  lemma {:induction false} ReplaceFromNone(s: seq<char>, from: nat, o: seq<char>, u: seq<char>)
    requires |o| > 0 && from <= |s|
    requires FindFrom(s, from, o).None?
    ensures ReplaceFrom(s, from, o, u) == s[from..]
  {
  }

  lemma {:induction false} CountFromUnfold(s: seq<char>, from: nat, o: seq<char>, i: nat)
    requires |o| > 0 && from <= |s|
    requires FindFrom(s, from, o) == Some(i)
    ensures CountFrom(s, from, o) == 1 + CountFrom(s, i + |o|, o)
  {
  }

  lemma {:induction false} MatchesFromUnfold(s: seq<char>, from: nat, o: seq<char>, i: nat)
    requires |o| > 0 && from <= |s|
    requires FindFrom(s, from, o) == Some(i)
    ensures MatchesFrom(s, from, o) == 1 + MatchesFrom(s, i + 1, o)
  {
  }

  /** A replacement only depends on the text after its start. */
  lemma {:induction false} ReplaceFromShift(s: seq<char>, c: nat, t: seq<char>, d: nat, o: seq<char>, u: seq<char>)
    requires |o| > 0
    requires c <= |s| && d <= |t| && s[c..] == t[d..]
    ensures ReplaceFrom(t, d, o, u) == ReplaceFrom(s, c, o, u)
    decreases |s| - c
  {
    FindFromShift(s, c, t, d, o);
    var f := FindFrom(s, c, o);
    if f.Some? {
      var i := f.value;
      var k := i - c + d;
      SuffixSlices(s, c, t, d, i);
      SuffixSlices(s, c, t, d, i + |o|);
      ReplaceFromShift(s, i + |o|, t, k + |o|, o, u);
      ReplaceFromUnfold(t, d, o, u, k);
      ReplaceFromUnfold(s, c, o, u, i);
      var head, rest := s[c..i] + u, ReplaceFrom(s, i + |o|, o, u);
      assert ReplaceFrom(t, d, o, u) == head + rest;
      assert ReplaceFrom(s, c, o, u) == head + rest;
    } else {
      ReplaceFromNone(s, c, o, u);
      ReplaceFromNone(t, d, o, u);
    }
  }

  /** The number of replacements only depends on the text after the start. */
  lemma {:induction false} CountFromShift(s: seq<char>, c: nat, t: seq<char>, d: nat, o: seq<char>)
    requires |o| > 0
    requires c <= |s| && d <= |t| && s[c..] == t[d..]
    ensures CountFrom(t, d, o) == CountFrom(s, c, o)
    decreases |s| - c
  {
    FindFromShift(s, c, t, d, o);
    var f := FindFrom(s, c, o);
    if f.Some? {
      var i := f.value;
      var k := i - c + d;
      assert FindFrom(t, d, o) == Some(k);
      SuffixSlices(s, c, t, d, i + |o|);
      CountFromShift(s, i + |o|, t, k + |o|, o);
      CountFromUnfold(s, c, o, i);
      CountFromUnfold(t, d, o, k);
    }
  }

  /** Replacing with C-string text keeps a C string. */
  lemma {:induction false} ReplaceFromCString(s: seq<char>, from: nat, o: seq<char>, u: seq<char>)
    requires |o| > 0 && from <= |s|
    ensures IsCString(s) && IsCString(u) ==> IsCString(ReplaceFrom(s, from, o, u))
    decreases |s| - from
  {
    match FindFrom(s, from, o)
    case None =>
      ReplaceFromNone(s, from, o, u);
      if IsCString(s) {
        CStringDrop(s, from);
      }
    case Some(i) =>
      ReplaceFromCString(s, i + |o|, o, u);
      ReplaceFromUnfold(s, from, o, u, i);
      if IsCString(s) && IsCString(u) {
        var head := s[from..i];
        CStringSlice(s, from, i);
        CStringConcat(head, u);
        CStringConcat(head + u, ReplaceFrom(s, i + |o|, o, u));
      }
  }

  lemma {:induction false} CStringSlice(s: seq<char>, a: nat, b: nat)
    requires a <= b <= |s| && IsCString(s)
    ensures IsCString(s[a..b])
  {
    forall k | 0 <= k < b - a ensures 0 < s[a..b][k] as int < 256 {
      assert s[a..b][k] == s[a + k];
    }
  }

  lemma {:induction false} CStringDrop(s: seq<char>, a: nat)
    requires a <= |s| && IsCString(s)
    ensures IsCString(s[a..])
  {
    forall k | 0 <= k < |s| - a ensures 0 < s[a..][k] as int < 256 {
      assert s[a..][k] == s[a + k];
    }
  }

  lemma {:induction false} CStringConcat(a: seq<char>, b: seq<char>)
    requires IsCString(a) && IsCString(b)
    ensures IsCString(a + b)
  {
    forall k | 0 <= k < |a + b| ensures 0 < (a + b)[k] as int < 256 {
      if k >= |a| {
        assert (a + b)[k] == b[k - |a|];
      }
    }
  }

  /** Each replacement changes the length by |u| - |o|. */
  lemma {:induction false} ReplaceFromLength(s: seq<char>, from: nat, o: seq<char>, u: seq<char>)
    requires |o| > 0 && from <= |s|
    ensures |ReplaceFrom(s, from, o, u)| == |s| - from + (|u| - |o|) * CountFrom(s, from, o)
    decreases |s| - from
  {
    match FindFrom(s, from, o)
    case None =>
      ReplaceFromNone(s, from, o, u);
    case Some(i) =>
      ReplaceFromLength(s, i + |o|, o, u);
      ReplaceFromUnfold(s, from, o, u, i);
      CountFromUnfold(s, from, o, i);
      Distribute(|u| - |o|, CountFrom(s, i + |o|, o));
  }

  lemma {:induction false} Distribute(a: int, n: int)
    ensures a * (1 + n) == a + a * n
  {
  }

  /** ReplaceAll leaves a string without the pattern unchanged. */
  lemma {:induction false} ReplaceAllAbsent(s: seq<char>, o: seq<char>, u: seq<char>)
    requires |o| > 0
    ensures !Occurs(s, o) ==> ReplaceAll(s, o, u) == s
  {
    FindFromSpec(s, 0, o);
  }

  /** Replacing a pattern by itself changes nothing. */
  lemma {:induction false} ReplaceFromSelf(s: seq<char>, from: nat, o: seq<char>)
    requires |o| > 0 && from <= |s|
    ensures ReplaceFrom(s, from, o, o) == s[from..]
    decreases |s| - from
  {
    FindFromSpec(s, from, o);
    match FindFrom(s, from, o)
    case None =>
      ReplaceFromNone(s, from, o, o);
    case Some(i) =>
      ReplaceFromSelf(s, i + |o|, o);
      ReplaceFromUnfold(s, from, o, o, i);
      assert s[from..] == s[from..i] + s[i..i + |o|] + s[i + |o|..];
  }

  /** Every comma of the text is followed by a space. */
  predicate CommasSpaced(r: seq<char>)
  {
    forall k | 0 <= k < |r| && r[k] == ',' :: k + 1 < |r| && r[k + 1] == ' '
  }

  /** Replacing "," by ", " leaves every comma followed by a space. */
  lemma {:induction false} ReplaceCommaSpaces(s: seq<char>, from: nat)
    requires from <= |s|
    ensures CommasSpaced(ReplaceFrom(s, from, ",", ", "))
    decreases |s| - from
  {
    FindFromSpec(s, from, ",");
    match FindFrom(s, from, ",")
    case None =>
      forall k | 0 <= k < |s| - from
        ensures s[from..][k] != ','
      {
        assert !MatchAt(s, from + k, ",");
        assert s[from + k..from + k + 1] == [s[from + k]];
      }
    case Some(i) =>
      ReplaceCommaSpaces(s, i + 1);
      var head, rest := s[from..i], ReplaceFrom(s, i + 1, ",", ", ");
      forall k | 0 <= k < |head|
        ensures head[k] != ','
      {
        assert !MatchAt(s, from + k, ",");
        assert s[from + k..from + k + 1] == [s[from + k]];
      }
      var r := head + ", " + rest;
      forall k | 0 <= k < |r| && r[k] == ','
        ensures k + 1 < |r| && r[k + 1] == ' '
      {
        if k >= |head| + 2 {
          assert r[k] == rest[k - |head| - 2];
          assert r[k + 1] == rest[k + 1 - |head| - 2];
        }
      }
  }

  // ---------------------------------------------------------------------------
  // Counting matches

  /** A match of a pattern that cannot overlap itself excludes matches at the next |o| - 1 positions. */
  lemma {:induction false} NoMatchInsideMatch(s: seq<char>, i: nat, j: nat, o: seq<char>)
    requires !SelfOverlapping(o)
    requires MatchAt(s, i, o) && i < j < i + |o|
    ensures !MatchAt(s, j, o)
  {
    if MatchAt(s, j, o) {
      var k := j - i;
      var a, b := o[k..], o[..|o| - k];
      forall m | 0 <= m < |a|
        ensures a[m] == b[m]
      {
        assert a[m] == s[i..i + |o|][k + m] == s[j + m];
        assert b[m] == s[j..j + |o|][m] == s[j + m];
      }
      assert BorderAt(o, k);
    }
  }

  /**
   * For a pattern that cannot overlap itself, counting every match position
   * and counting non-overlapping matches agree.
   */
  lemma {:induction false} MatchesEqualCount(s: seq<char>, from: nat, o: seq<char>)
    requires |o| > 0 && from <= |s|
    requires !SelfOverlapping(o)
    ensures MatchesFrom(s, from, o) == CountFrom(s, from, o)
    decreases |s| - from
  {
    FindFromSpec(s, from, o);
    match FindFrom(s, from, o)
    case None =>
    case Some(i) =>
      forall j | i + 1 <= j < i + |o|
        ensures !MatchAt(s, j, o)
      {
        NoMatchInsideMatch(s, i, j, o);
      }
      FindFromSkip(s, i + 1, i + |o|, o);
      MatchesFromSkip(s, i + 1, i + |o|, o);
      MatchesEqualCount(s, i + |o|, o);
      CountFromUnfold(s, from, o, i);
      MatchesFromUnfold(s, from, o, i);
  }

  lemma {:induction false} MatchesFromSkip(s: seq<char>, a: nat, b: nat, o: seq<char>)
    requires |o| > 0 && a <= b <= |s|
    requires FindFrom(s, a, o) == FindFrom(s, b, o)
    ensures MatchesFrom(s, a, o) == MatchesFrom(s, b, o)
  {
  }

  /** Starting the count one position later loses at most the match there. */
  lemma {:induction false} MatchesFromStep(s: seq<char>, a: nat, o: seq<char>)
    requires |o| > 0 && a < |s|
    ensures MatchesFrom(s, a, o) >= MatchesFrom(s, a + 1, o)
    ensures MatchesFrom(s, a, o) <= MatchesFrom(s, a + 1, o) + 1
  {
    FindFromSpec(s, a, o);
    if FindFrom(s, a, o) == Some(a) {
      MatchesFromUnfold(s, a, o, a);
    } else {
      FindFromSkip(s, a, a + 1, o);
      MatchesFromSkip(s, a, a + 1, o);
    }
  }

  /** Counting match positions from an earlier start never finds fewer. */
  lemma {:induction false} MatchesFromMonotone(s: seq<char>, a: nat, b: nat, o: seq<char>)
    requires |o| > 0 && a <= b <= |s|
    ensures MatchesFrom(s, a, o) >= MatchesFrom(s, b, o)
    decreases b - a
  {
    if a < b {
      MatchesFromStep(s, a, o);
      MatchesFromMonotone(s, a + 1, b, o);
    }
  }

  /** Every replacement ReplaceFrom makes is at a match position, so there are at least as many positions. */
  lemma {:induction false} MatchesAtLeastCount(s: seq<char>, from: nat, o: seq<char>)
    requires |o| > 0 && from <= |s|
    ensures MatchesFrom(s, from, o) >= CountFrom(s, from, o)
    decreases |s| - from
  {
    match FindFrom(s, from, o)
    case None =>
    case Some(i) =>
      MatchesFromUnfold(s, from, o, i);
      CountFromUnfold(s, from, o, i);
      MatchesFromMonotone(s, i + 1, i + |o|, o);
      MatchesAtLeastCount(s, i + |o|, o);
  }

  /** With a self-overlapping pattern, counting every match position counts more. */
  lemma {:induction false} OverlappingMatchesExceedCount()
    ensures MatchesFrom("aaa", 0, "aa") == 2
    ensures CountFrom("aaa", 0, "aa") == 1
  {
    assert MatchAt("aaa", 0, "aa") && MatchAt("aaa", 1, "aa");
    assert FindFrom("aaa", 0, "aa") == Some(0);
    assert FindFrom("aaa", 1, "aa") == Some(1);
    assert FindFrom("aaa", 2, "aa") == None;
    CountFromUnfold("aaa", 0, "aa", 0);
    MatchesFromUnfold("aaa", 0, "aa", 0);
    MatchesFromUnfold("aaa", 1, "aa", 1);
  }

  // ---------------------------------------------------------------------------
  // Locating matches in text assembled from pieces

  /** A pattern with a character the text lacks does not occur in it. */
  lemma {:induction false} MissingCharNoMatch(s: seq<char>, p: seq<char>, m: nat)
    requires m < |p| && p[m] !in s
    ensures FindFrom(s, 0, p) == None && !Occurs(s, p)
  {
    forall j | 0 <= j ensures !MatchAt(s, j, p) {
      if j + |p| <= |s| {
        assert s[j..j + |p|][m] == s[j + m];
      }
    }
    FindFromUnique(s, 0, p, None);
  }

  /**
   * In `a + p + t` the leftmost match of `p` is the one after `a` when some
   * character `p[m]` occurs neither in `a` nor earlier in `p`.
   */
  lemma {:induction false} FirstMatch(a: seq<char>, p: seq<char>, t: seq<char>, m: nat)
    requires m < |p| && p[m] !in a && p[m] !in p[..m]
    ensures FindFrom(a + p + t, 0, p) == Some(|a|)
  {
    var s := a + p + t;
    assert s[|a|..|a| + |p|] == p;
    forall j | 0 <= j < |a| ensures !MatchAt(s, j, p) {
      assert s[j..j + |p|][m] == s[j + m];
      if j + m < |a| {
        assert s[j + m] == a[j + m];
      } else {
        assert s[j + m] == p[j + m - |a|] == p[..m][j + m - |a|];
      }
    }
    FindFromUnique(s, 0, p, Some(|a|));
  }

  /** Cutting the leftmost match of `p` out of `a + p + t` leaves `a + t` to cut. */
  lemma {:induction false} CutFirst(a: seq<char>, p: seq<char>, t: seq<char>)
    requires |p| > 0 && FindFrom(a + p + t, 0, p) == Some(|a|)
    ensures CutAll(a + p + t, p) == CutAll(a + t, p)
  {
    var s := a + p + t;
    assert CutAll(s, p) == CutAll(s[..|a|] + s[|a| + |p|..], p) by {
      CutAllUnfold(s, p, |a|);
    }
    assert s[..|a|] + s[|a| + |p|..] == a + t;
  }

  /** A text that starts with the pattern loses that match first. */
  lemma {:induction false} CutLeading(p: seq<char>, t: seq<char>)
    requires |p| > 0
    ensures CutAll(p + t, p) == CutAll(t, p)
  {
    FirstMatch([], p, t, 0);
    assert [] + p + t == p + t;
    CutFirst([], p, t);
    assert [] + t == t;
  }

  /** Replacing the leftmost match of `o` in `a + o + t` and going on with `t`. */
  lemma {:induction false} ReplaceFirst(a: seq<char>, o: seq<char>, t: seq<char>, u: seq<char>)
    requires |o| > 0 && FindFrom(a + o + t, 0, o) == Some(|a|)
    ensures ReplaceAll(a + o + t, o, u) == a + u + ReplaceAll(t, o, u)
  {
    var s := a + o + t;
    assert ReplaceFrom(s, 0, o, u) == s[0..|a|] + u + ReplaceFrom(s, |a| + |o|, o, u) by {
      ReplaceFromUnfold(s, 0, o, u, |a|);
    }
    assert ReplaceFrom(s, |a| + |o|, o, u) == ReplaceFrom(t, 0, o, u) by {
      assert s[|a| + |o|..] == t[0..];
      ReplaceFromShift(s, |a| + |o|, t, 0, o, u);
    }
    assert s[0..|a|] == a;
  }

  /**
   * `p` does not occur in `a + b + c` when `p[m]` is missing from `a`,
   * `p[n]` is missing from `c`, and `b` is too short to hold both.
   */
  lemma {:induction false} NoMatchAround(a: seq<char>, b: seq<char>, c: seq<char>, p: seq<char>, m: nat, n: nat)
    requires m + |b| <= n < |p|
    requires p[m] !in a && p[n] !in c
    ensures FindFrom(a + b + c, 0, p) == None && !Occurs(a + b + c, p)
  {
    var s := a + b + c;
    forall j | 0 <= j ensures !MatchAt(s, j, p) {
      if j + |p| <= |s| {
        assert s[j..j + |p|][m] == s[j + m];
        assert s[j..j + |p|][n] == s[j + n];
        if j + m < |a| {
          assert s[j + m] == a[j + m];
        } else {
          assert s[j + n] == c[j + n - |a| - |b|];
        }
      }
    }
    FindFromUnique(s, 0, p, None);
  }

  /** No match of `o` in `x + y` starts in `x` and ends in `y`. */
  predicate Seam(x: seq<char>, y: seq<char>, o: seq<char>)
  {
    forall j | 0 <= j < |x| < j + |o| :: !MatchAt(x + y, j, o)
  }

  /** A match spanning the join would hold the last character of `x`. */
  lemma {:induction false} SeamByLast(x: seq<char>, y: seq<char>, o: seq<char>)
    requires |x| > 0 && x[|x| - 1] !in o
    ensures Seam(x, y, o)
  {
    var s := x + y;
    forall j | 0 <= j < |x| < j + |o| ensures !MatchAt(s, j, o) {
      if j + |o| <= |s| {
        assert s[j..j + |o|][|x| - 1 - j] == x[|x| - 1];
      }
    }
  }

  /** A match spanning the join would hold the first character of `y` after its own first. */
  lemma {:induction false} SeamByFirst(x: seq<char>, y: seq<char>, o: seq<char>)
    requires |y| > 0 && |o| > 0 && y[0] !in o[1..]
    ensures Seam(x, y, o)
  {
    var s := x + y;
    forall j | 0 <= j < |x| < j + |o| ensures !MatchAt(s, j, o) {
      if j + |o| <= |s| {
        assert s[j..j + |o|][|x| - j] == y[0];
        assert o[1..][|x| - j - 1] == o[|x| - j];
      }
    }
  }

  /** A pattern in neither part occurs in the whole only across the join. */
  lemma {:induction false} NoMatchJoin(x: seq<char>, y: seq<char>, p: seq<char>)
    requires |p| > 0 && Seam(x, y, p)
    requires !Occurs(x, p) && !Occurs(y, p)
    ensures FindFrom(x + y, 0, p) == None && !Occurs(x + y, p)
  {
    var s := x + y;
    forall j | 0 <= j ensures !MatchAt(s, j, p) {
      if MatchAt(s, j, p) {
        if j + |p| <= |x| {
          assert x[j..j + |p|] == s[j..j + |p|];
          assert MatchAt(x, j, p);
        } else if j >= |x| {
          assert y[j - |x|..j - |x| + |p|] == s[j..j + |p|];
          assert MatchAt(y, j - |x|, p);
        }
      }
    }
    FindFromUnique(s, 0, p, None);
  }

  /** The leftmost match of `p` in `a + p + t` is the one after `a` when none ends earlier. */
  lemma {:induction false} FirstMatchAfter(a: seq<char>, p: seq<char>, t: seq<char>)
    requires |p| > 0 && !Occurs(a + p[..|p| - 1], p)
    ensures FindFrom(a + p + t, 0, p) == Some(|a|)
  {
    var s := a + p + t;
    var e := a + p[..|p| - 1];
    assert s[|a|..|a| + |p|] == p;
    assert s[..|e|] == e;
    forall j | 0 <= j < |a| ensures !MatchAt(s, j, p) {
      assert s[j..j + |p|] == s[..|e|][j..j + |p|];
      assert !MatchAt(e, j, p);
    }
    FindFromUnique(s, 0, p, Some(|a|));
  }

  /**
   * Replacing in `x + y` is replacing in each part when no match can span
   * the join.
   */
  lemma {:induction false} ReplaceAllJoin(x: seq<char>, y: seq<char>, o: seq<char>, u: seq<char>)
    requires |o| > 0 && Seam(x, y, o)
    ensures ReplaceAll(x + y, o, u) == ReplaceAll(x, o, u) + ReplaceAll(y, o, u)
  {
    ReplaceFromJoin(x, y, 0, o, u);
  }

  /** How a search of `x + y` that starts inside `x` relates to a search of `x`. */
  lemma {:induction false} FindFromJoin(x: seq<char>, y: seq<char>, c: nat, o: seq<char>)
    requires |o| > 0 && Seam(x, y, o) && c <= |x|
    ensures FindFrom(x + y, c, o).Some? && FindFrom(x + y, c, o).value < |x| ==>
              FindFrom(x, c, o) == FindFrom(x + y, c, o) && FindFrom(x + y, c, o).value + |o| <= |x|
    ensures FindFrom(x + y, c, o).None? || FindFrom(x + y, c, o).value >= |x| ==>
              FindFrom(x, c, o).None? && FindFrom(x + y, c, o) == FindFrom(x + y, |x|, o)
  {
    var s := x + y;
    FindFromSpec(s, c, o);
    forall j | c <= j && MatchAt(x, j, o) ensures MatchAt(s, j, o) {
      assert s[j..j + |o|] == x[j..j + |o|];
    }
    match FindFrom(s, c, o)
    case None =>
      FindFromUnique(x, c, o, None);
      FindFromSkip(s, c, |x|, o);
    case Some(i) =>
      if i < |x| {
        assert x[i..i + |o|] == s[i..i + |o|];
        FindFromUnique(x, c, o, Some(i));
      } else {
        FindFromUnique(x, c, o, None);
        FindFromSkip(s, c, |x|, o);
      }
  }

  lemma {:induction false} ReplaceFromJoin(x: seq<char>, y: seq<char>, c: nat, o: seq<char>, u: seq<char>)
    requires |o| > 0 && Seam(x, y, o) && c <= |x|
    ensures ReplaceFrom(x + y, c, o, u) == ReplaceFrom(x, c, o, u) + ReplaceAll(y, o, u)
    decreases |x| - c
  {
    var s := x + y;
    FindFromJoin(x, y, c, o);
    var r := FindFrom(s, c, o);
    if r.Some? && r.value < |x| {
      var i := r.value;
      var rest := ReplaceFrom(x, i + |o|, o, u);
      assert ReplaceFrom(x, c, o, u) == x[c..i] + u + rest by {
        ReplaceFromUnfold(x, c, o, u, i);
      }
      assert ReplaceFrom(s, c, o, u) == s[c..i] + u + (rest + ReplaceAll(y, o, u)) by {
        ReplaceFromUnfold(s, c, o, u, i);
        ReplaceFromJoin(x, y, i + |o|, o, u);
      }
      assert s[c..i] == x[c..i];
      Regroup(x[c..i], u, rest, ReplaceAll(y, o, u));
    } else {
      ReplaceFromNone(x, c, o, u);
      JoinTail(x, y, c, o, u);
    }
  }

  /** A search from `c` that finds nothing before the end of `x` replaces in `y` alone. */
  lemma {:induction false} JoinTail(x: seq<char>, y: seq<char>, c: nat, o: seq<char>, u: seq<char>)
    requires |o| > 0 && c <= |x|
    requires FindFrom(x + y, c, o) == FindFrom(x + y, |x|, o)
    ensures ReplaceFrom(x + y, c, o, u) == x[c..] + ReplaceAll(y, o, u)
  {
    var s := x + y;
    assert s[|x|..] == y[0..];
    ReplaceFromShift(s, |x|, y, 0, o, u);
    SkipUnchanged(s, c, |x|, o, u);
    assert s[c..|x|] == x[c..];
  }

  /** Text before the first match a search would find is copied unchanged. */
  lemma {:induction false} SkipUnchanged(s: seq<char>, c: nat, d: nat, o: seq<char>, u: seq<char>)
    requires |o| > 0 && c <= d <= |s|
    requires FindFrom(s, c, o) == FindFrom(s, d, o)
    ensures ReplaceFrom(s, c, o, u) == s[c..d] + ReplaceFrom(s, d, o, u)
  {
    if FindFrom(s, c, o).None? {
      ReplaceFromNone(s, c, o, u);
      ReplaceFromNone(s, d, o, u);
      assert s[c..] == s[c..d] + s[d..];
    } else {
      var i := FindFrom(s, c, o).value;
      var rest := ReplaceFrom(s, i + |o|, o, u);
      assert ReplaceFrom(s, d, o, u) == s[d..i] + u + rest by {
        ReplaceFromUnfold(s, d, o, u, i);
      }
      assert ReplaceFrom(s, c, o, u) == s[c..i] + u + rest by {
        ReplaceFromUnfold(s, c, o, u, i);
      }
      assert s[c..i] == s[c..d] + s[d..i];
      Regroup(s[c..d], s[d..i], u, rest);
    }
  }

  lemma Regroup(a: seq<char>, b: seq<char>, c: seq<char>, d: seq<char>)
    ensures a + b + c + d == a + (b + c + d)
  {
  }
}
