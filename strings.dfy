/**
 * The pieces of Python's `str` API and of `sorted` that the SBOM generator
 * relies on, over `string` (a sequence of Unicode scalar values).
 */
module Strings {
  import opened Wrappers

  /* ------------------------------------------------------------------ */
  /* Prefixes and substrings                                             */
  /* ------------------------------------------------------------------ */

  /** `s.startswith(prefix)` */
  predicate StartsWith(s: string, prefix: string) {
    |prefix| <= |s| && s[..|prefix|] == prefix
  }

  /** `sub` occurs in `s` starting at index `i`, compared character by character. */
  predicate OccursAt(s: string, sub: string, i: nat)
    decreases |sub|
  {
    i + |sub| <= |s| && (sub == [] || (s[i] == sub[0] && OccursAt(s, sub[1..], i + 1)))
  }

  /** The character-by-character match is the slice comparison. */
  lemma {:induction false} OccursAtSlice(s: string, sub: string, i: nat)
    ensures OccursAt(s, sub, i) <==> i + |sub| <= |s| && s[i..i + |sub|] == sub
    decreases |sub|
  {
    if sub != [] && i + |sub| <= |s| {
      OccursAtSlice(s, sub[1..], i + 1);
      assert s[i..i + |sub|] == [s[i]] + s[i + 1..i + |sub|];
      assert sub == [sub[0]] + sub[1..];
    }
  }

  /** `sub in s`: plain containment, with no notion of path segments. */
  ghost predicate Occurs(sub: string, s: string) {
    exists i: nat :: OccursAt(s, sub, i)
  }

  /** Left-to-right search for the first occurrence of `sub` at or after `from`. */
  function FindFrom(s: string, sub: string, from: nat): (r: Option<nat>)
    requires from <= |s|
    ensures r.Some? ==> from <= r.value <= |s| && OccursAt(s, sub, r.value)
    ensures r.Some? ==> forall j :: from <= j < r.value ==> !OccursAt(s, sub, j)
    ensures r.None? ==> forall j: nat :: from <= j ==> !OccursAt(s, sub, j)
    decreases |s| - from
  {
    if OccursAt(s, sub, from) then Some(from)
    else if from == |s| then None
    else FindFrom(s, sub, from + 1)
  }

  /** `sub in s`, computed. */
  function Contains(s: string, sub: string): (r: bool)
    ensures r <==> Occurs(sub, s)
  {
    FindFrom(s, sub, 0).Some?
  }

  /** `i` is where `sub` first occurs in `s`. */
  ghost predicate FirstAt(s: string, sub: string, i: nat) {
    OccursAt(s, sub, i) && forall j :: 0 <= j < i ==> !OccursAt(s, sub, j)
  }

  /** `s.partition(sep)[2]`: the text after the first occurrence of `sep`, or "" if there is none. */
  function AfterFirst(s: string, sep: string): (r: string)
    ensures !Occurs(sep, s) ==> r == ""
    ensures Occurs(sep, s) ==> exists i: nat :: FirstAt(s, sep, i) && r == s[i + |sep|..]
  {
    match FindFrom(s, sep, 0)
    case None => ""
    case Some(i) => assert FirstAt(s, sep, i); s[i + |sep|..]
  }

  /** Something follows the separator exactly when its first occurrence does not end `s`. */
  lemma AfterFirstNonEmpty(s: string, sep: string)
    ensures AfterFirst(s, sep) != "" <==> exists i: nat :: FirstAt(s, sep, i) && i + |sep| < |s|
  {
    match FindFrom(s, sep, 0)
    case None =>
    case Some(m) =>
      assert FirstAt(s, sep, m);
      forall i: nat | FirstAt(s, sep, i)
        ensures i == m
      {
      }
  }

  /* ------------------------------------------------------------------ */
  /* Stripping                                                           */
  /* ------------------------------------------------------------------ */

  /**
   * The characters for which `c.isspace()` holds in Python 3, as inclusive
   * ranges: the ASCII controls 9-13 and 28-31, space, and the Unicode
   * White_Space separators.
   */
  const SpaceRanges: seq<(char, char)> := [
    ('\t', '\r'), ('\U{1C}', ' '), ('\U{85}', '\U{85}'), ('\U{A0}', '\U{A0}'),
    ('\U{1680}', '\U{1680}'), ('\U{2000}', '\U{200A}'), ('\U{2028}', '\U{2029}'),
    ('\U{202F}', '\U{202F}'), ('\U{205F}', '\U{205F}'), ('\U{3000}', '\U{3000}')
  ]

  /** `c` lies in one of `ranges`. */
  predicate InRanges(c: char, ranges: seq<(char, char)>) {
    ranges != [] && ((ranges[0].0 <= c <= ranges[0].1) || InRanges(c, ranges[1..]))
  }

  /** `c.isspace()` */
  predicate IsSpace(c: char) {
    InRanges(c, SpaceRanges)
  }

  /** `s.lstrip()`: drops leading whitespace. */
  function LStrip(s: string): (r: string)
    ensures |r| <= |s| && r == s[|s| - |r|..]
    ensures r == [] || !IsSpace(r[0])
  {
    if s != [] && IsSpace(s[0]) then LStrip(s[1..]) else s
  }

  /** `s.rstrip()`: drops trailing whitespace. */
  function RStrip(s: string): (r: string)
    ensures |r| <= |s| && r == s[..|r|]
    ensures r == [] || !IsSpace(r[|r| - 1])
  {
    if s != [] && IsSpace(s[|s| - 1]) then RStrip(s[..|s| - 1]) else s
  }

  /** `s.rstrip(chars)`: drops the trailing characters that occur in `chars`, and only those. */
  function RStripChars(s: string, chars: string): (r: string)
    ensures |r| <= |s| && r == s[..|r|]
    ensures r == [] || r[|r| - 1] !in chars
    ensures forall k :: |r| <= k < |s| ==> s[k] in chars
  {
    if s != [] && s[|s| - 1] in chars then
      var init := s[..|s| - 1];
      assert forall k :: 0 <= k < |init| ==> init[k] == s[k];
      RStripChars(init, chars)
    else s
  }

  /** What `LStrip` drops is whitespace. */
  lemma {:induction false} LStripDropsSpace(s: string)
    ensures forall k :: 0 <= k < |s| - |LStrip(s)| ==> IsSpace(s[k])
  {
    if s != [] && IsSpace(s[0]) {
      var tail := s[1..];
      LStripDropsSpace(tail);
      assert LStrip(s) == LStrip(tail);
      SpacePrefixCons(s, |tail| - |LStrip(tail)|);
    }
  }

  lemma SpacePrefixCons(s: string, n: nat)
    requires n < |s| && IsSpace(s[0])
    requires forall k :: 0 <= k < n ==> IsSpace(s[1..][k])
    ensures forall k :: 0 <= k < n + 1 ==> IsSpace(s[k])
  {
    forall k | 0 < k < n + 1
      ensures IsSpace(s[k])
    {
      assert s[k] == s[1..][k - 1];
    }
  }

  /** What `RStrip` drops is whitespace. */
  lemma {:induction false} RStripDropsSpace(s: string)
    ensures forall k :: |RStrip(s)| <= k < |s| ==> IsSpace(s[k])
  {
    if s != [] && IsSpace(s[|s| - 1]) {
      var init := s[..|s| - 1];
      RStripDropsSpace(init);
      assert RStrip(s) == RStrip(init);
      forall k | |RStrip(s)| <= k < |s| - 1
        ensures IsSpace(s[k])
      {
        assert s[k] == init[k];
      }
    }
  }

  /** `s.strip()`: no leading or trailing whitespace. */
  function Strip(s: string): (r: string)
    ensures r == [] || (!IsSpace(r[0]) && !IsSpace(r[|r| - 1]))
  {
    RStrip(LStrip(s))
  }

  /** What `Strip` removes is whitespace only, from the two ends. */
  lemma StripRemovesOnlySpace(s: string)
    ensures exists i, j :: 0 <= i <= j <= |s| && Strip(s) == s[i..j] &&
                           (forall k :: 0 <= k < i ==> IsSpace(s[k])) && (forall k :: j <= k < |s| ==> IsSpace(s[k]))
  {
    var left := LStrip(s);
    var i := |s| - |left|;
    LStripDropsSpace(s);
    RStripDropsSpace(left);
    var j := StripRegroup(s, i, left, RStrip(left));
    assert Strip(s) == RStrip(left);
  }

  /** Trailing whitespace of a suffix of `s` is trailing whitespace of `s`. */
  lemma StripRegroup(s: string, i: nat, left: string, r: string) returns (j: nat)
    requires i <= |s| && left == s[i..] && |r| <= |left| && r == left[..|r|]
    requires forall k :: |r| <= k < |left| ==> IsSpace(left[k])
    ensures j == i + |r| <= |s| && r == s[i..j]
    ensures forall k :: j <= k < |s| ==> IsSpace(s[k])
  {
    j := i + |r|;
    forall k | j <= k < |s|
      ensures IsSpace(s[k])
    {
      assert s[k] == left[k - i];
    }
  }

  /** `idx` lists positions below `n` in strictly increasing order. */
  ghost predicate Ascending(idx: seq<nat>, n: nat) {
    (forall j :: 0 <= j < |idx| ==> idx[j] < n) &&
    (forall i, j :: 0 <= i < j < |idx| ==> idx[i] < idx[j])
  }

  /** Extending an ascending list by a position beyond all of it keeps it ascending. */
  lemma AscendingSnoc(idx: seq<nat>, n: nat)
    requires Ascending(idx, n)
    ensures Ascending(idx + [n], n + 1)
  {
  }

  /**
   * `r` holds `f` of the elements of `s` at the increasing positions `idx`,
   * and those are exactly the positions whose element `keep` accepts: `r` is
   * the filtered and mapped `s`, each kept element once, in order.
   */
  ghost predicate Selects<S, T>(r: seq<T>, s: seq<S>, keep: S -> bool, f: S -> T, idx: seq<nat>) {
    Ascending(idx, |s|) && |idx| == |r| &&
    (forall j :: 0 <= j < |idx| ==> keep(s[idx[j]]) && r[j] == f(s[idx[j]])) &&
    (forall k :: 0 <= k < |s| && keep(s[k]) ==> k in idx)
  }

  /** Passing over an element that is not kept keeps the same positions. */
  lemma SelectsDrop<S, T>(r: seq<T>, init: seq<S>, last: S, keep: S -> bool, f: S -> T, idx: seq<nat>)
    requires Selects(r, init, keep, f, idx) && !keep(last)
    ensures Selects(r, init + [last], keep, f, idx)
  {
    var s := init + [last];
    assert forall j :: 0 <= j < |idx| ==> s[idx[j]] == init[idx[j]];
    forall k | 0 <= k < |s| && keep(s[k])
      ensures k in idx
    {
      assert k < |init| && init[k] == s[k];
    }
  }

  /** Keeping one more element adds its position. */
  lemma SelectsKeep<S, T>(r: seq<T>, init: seq<S>, last: S, keep: S -> bool, f: S -> T, idx: seq<nat>)
    requires Selects(r, init, keep, f, idx) && keep(last)
    ensures Selects(r + [f(last)], init + [last], keep, f, idx + [|init|])
  {
    var r' := r + [f(last)];
    var s := init + [last];
    var idx' := idx + [|init|];
    AscendingSnoc(idx, |init|);
    forall j | 0 <= j < |idx'|
      ensures keep(s[idx'[j]]) && r'[j] == f(s[idx'[j]])
    {
      if j < |idx| {
        assert r'[j] == r[j] && idx'[j] == idx[j] && s[idx[j]] == init[idx[j]];
      }
    }
    forall k | 0 <= k < |s| && keep(s[k])
      ensures k in idx'
    {
      if k < |init| {
        assert init[k] == s[k];
        assert k in idx;
      }
    }
  }

  /** Keeps the characters that do not occur in `chars`, in order. */
  function RemoveChars(s: string, chars: string): (r: string)
    ensures |r| <= |s|
    ensures forall c :: c in r ==> c in s && c !in chars
    ensures (forall c :: c in s ==> c !in chars) ==> r == s
  {
    if s == [] then ""
    else
      var init := s[..|s| - 1];
      var last := s[|s| - 1];
      assert s == init + [last];
      assert forall c :: c in init ==> c in s;
      RemoveChars(init, chars) + (if last in chars then "" else [last])
  }

  /**
   * `RemoveChars` keeps every character outside `chars`, each once and in
   * its original order: the result reads the input at the increasing
   * positions `idx`, which are exactly the positions of such characters.
   */
  lemma {:induction false} RemoveCharsKeepsOrder(s: string, chars: string) returns (idx: seq<nat>)
    ensures Selects(RemoveChars(s, chars), s, c => c !in chars, c => c, idx)
  {
    if s == [] {
      idx := [];
    } else {
      var init := s[..|s| - 1];
      var last := s[|s| - 1];
      assert s == init + [last];
      var idx0 := RemoveCharsKeepsOrder(init, chars);
      if last in chars {
        SelectsDrop(RemoveChars(init, chars), init, last, c => c !in chars, c => c, idx0);
        idx := idx0;
      } else {
        SelectsKeep(RemoveChars(init, chars), init, last, c => c !in chars, c => c, idx0);
        idx := idx0 + [|init|];
      }
    }
  }

  /* ------------------------------------------------------------------ */
  /* Splitting and joining                                               */
  /* ------------------------------------------------------------------ */

  /** `s.split(sep)` for a one-character separator: every separator splits, empty fields are kept. */
  function SplitOn(s: string, sep: char): (r: seq<string>)
    ensures |r| >= 1
    ensures forall k :: 0 <= k < |r| ==> sep !in r[k]
    ensures forall k, c :: 0 <= k < |r| && c in r[k] ==> c in s
  {
    if s == [] then [""]
    else
      var rest := SplitOn(s[1..], sep);
      assert forall c :: c in s[1..] ==> c in s;
      if s[0] == sep then
        assert forall k :: 1 <= k <= |rest| ==> ([""] + rest)[k] == rest[k - 1];
        [""] + rest
      else
        assert forall k :: 1 <= k < |rest| ==> ([[s[0]] + rest[0]] + rest[1..])[k] == rest[k];
        [[s[0]] + rest[0]] + rest[1..]
  }

  /** `sep.join(parts)` */
  function JoinWith(parts: seq<string>, sep: string): string {
    if |parts| == 0 then ""
    else if |parts| == 1 then parts[0]
    else parts[0] + sep + JoinWith(parts[1..], sep)
  }

  /** Splitting on a character and joining with that character gives back the input. */
  lemma {:induction false} SplitThenJoin(s: string, sep: char)
    ensures JoinWith(SplitOn(s, sep), [sep]) == s
  {
    if s != [] {
      var rest := SplitOn(s[1..], sep);
      SplitThenJoin(s[1..], sep);
      if s[0] == sep {
        assert SplitOn(s, sep) == [""] + rest;
        assert ([""] + rest)[1..] == rest;
      } else {
        var r := SplitOn(s, sep);
        assert r == [[s[0]] + rest[0]] + rest[1..];
        if |rest| == 1 {
          assert JoinWith(rest, [sep]) == rest[0];
        } else {
          assert r[1..] == rest[1..];
          assert JoinWith(rest, [sep]) == rest[0] + [sep] + JoinWith(rest[1..], [sep]);
        }
      }
    }
  }

  /* ------------------------------------------------------------------ */
  /* posixpath.join(".", p)                                              */
  /* ------------------------------------------------------------------ */

  /** `os.path.join(".", p)` on POSIX: an absolute `p` replaces the ".", otherwise "./" is put in front. */
  function JoinDot(p: string): (r: string)
    ensures StartsWith(p, "/") ==> r == p
    ensures !StartsWith(p, "/") ==> StartsWith(r, "./") && r[2..] == p
  {
    if StartsWith(p, "/") then p else "./" + p
  }

  /* ------------------------------------------------------------------ */
  /* Python's ordering of str: code point by code point                  */
  /* ------------------------------------------------------------------ */

  /** `a < b` on Python strings. */
  predicate Less(a: string, b: string) {
    if |a| == 0 then |b| != 0
    else |b| != 0 && (a[0] < b[0] || (a[0] == b[0] && Less(a[1..], b[1..])))
  }

  predicate LessEq(a: string, b: string) {
    a == b || Less(a, b)
  }

  lemma {:induction false} LessIrreflexive(a: string)
    ensures !Less(a, a)
  {
    if |a| != 0 {
      LessIrreflexive(a[1..]);
    }
  }

  lemma {:induction false} LessAsymmetric(a: string, b: string)
    requires Less(a, b)
    ensures !Less(b, a)
  {
    if |a| != 0 && a[0] == b[0] {
      LessAsymmetric(a[1..], b[1..]);
    }
  }

  lemma {:induction false} LessTransitive(a: string, b: string, c: string)
    requires Less(a, b) && Less(b, c)
    ensures Less(a, c)
  {
    if |a| != 0 && a[0] == b[0] && b[0] == c[0] {
      LessTransitive(a[1..], b[1..], c[1..]);
    }
  }

  lemma {:induction false} LessTotal(a: string, b: string)
    ensures a == b || Less(a, b) || Less(b, a)
  {
    if |a| != 0 && |b| != 0 && a[0] == b[0] {
      LessTotal(a[1..], b[1..]);
      if a[1..] == b[1..] {
        assert a == [a[0]] + a[1..] && b == [b[0]] + b[1..];
      }
    }
  }

  lemma LessEqTransitive(a: string, b: string, c: string)
    requires LessEq(a, b) && LessEq(b, c)
    ensures LessEq(a, c)
  {
    if a != b && b != c {
      LessTransitive(a, b, c);
    }
  }

  /* ------------------------------------------------------------------ */
  /* sorted(...)                                                          */
  /* ------------------------------------------------------------------ */

  ghost predicate Sorted(s: seq<string>) {
    forall i, j :: 0 <= i < j < |s| ==> LessEq(s[i], s[j])
  }

  ghost predicate StrictlySorted(s: seq<string>) {
    forall i, j :: 0 <= i < j < |s| ==> Less(s[i], s[j])
  }

  /** No element of `t` is below `y`. */
  ghost predicate AtMost(y: string, t: seq<string>) {
    forall j :: 0 <= j < |t| ==> LessEq(y, t[j])
  }

  lemma SortedCons(y: string, t: seq<string>)
    requires Sorted(t) && AtMost(y, t)
    ensures Sorted([y] + t)
  {
    var u := [y] + t;
    forall i, j | 0 <= i < j < |u|
      ensures LessEq(u[i], u[j])
    {
      assert u[j] == t[j - 1];
      if i > 0 { assert u[i] == t[i - 1]; }
    }
  }

  function Insert(x: string, s: seq<string>): (r: seq<string>)
    requires Sorted(s)
    ensures Sorted(r)
    ensures multiset(r) == multiset(s) + multiset{x}
  {
    if s == [] then [x]
    else if LessEq(x, s[0]) then
      InsertFront(x, s);
      [x] + s
    else
      var tail := Insert(x, s[1..]);
      InsertBehind(x, s, tail);
      [s[0]] + tail
  }

  lemma InsertFront(x: string, s: seq<string>)
    requires Sorted(s) && s != [] && LessEq(x, s[0])
    ensures Sorted([x] + s)
  {
    forall j | 0 <= j < |s|
      ensures LessEq(x, s[j])
    {
      if j > 0 {
        LessEqTransitive(x, s[0], s[j]);
      }
    }
    SortedCons(x, s);
  }

  lemma InsertBehind(x: string, s: seq<string>, tail: seq<string>)
    requires Sorted(s) && s != [] && !LessEq(x, s[0])
    requires Sorted(tail) && multiset(tail) == multiset(s[1..]) + multiset{x}
    ensures Sorted([s[0]] + tail)
    ensures multiset([s[0]] + tail) == multiset(s) + multiset{x}
  {
    forall j | 0 <= j < |tail|
      ensures LessEq(s[0], tail[j])
    {
      HeadBelowInserted(x, s, tail[j]);
    }
    SortedCons(s[0], tail);
    assert s == [s[0]] + s[1..];
  }

  lemma HeadBelowInserted(x: string, s: seq<string>, y: string)
    requires Sorted(s) && s != [] && !LessEq(x, s[0])
    requires y in multiset(s[1..]) + multiset{x}
    ensures LessEq(s[0], y)
  {
    if y == x {
      LessTotal(x, s[0]);
    } else {
      assert y in multiset(s[1..]);
      var k :| 0 <= k < |s[1..]| && s[1..][k] == y;
      assert s[k + 1] == y;
    }
  }

  /** `sorted(s)` for a list of strings (insertion order of equal strings is immaterial). */
  function Sort(s: seq<string>): (r: seq<string>)
    ensures Sorted(r)
    ensures multiset(r) == multiset(s)
    ensures |r| == |s|
  {
    if s == [] then []
    else
      assert s == [s[0]] + s[1..];
      var r := Insert(s[0], Sort(s[1..]));
      assert |r| == |multiset(r)|;
      r
  }

  /** Sorting neither adds nor loses elements. */
  lemma SortKeepsElements(s: seq<string>)
    ensures forall k :: 0 <= k < |Sort(s)| ==> Sort(s)[k] in s
  {
    var r := Sort(s);
    forall k | 0 <= k < |r|
      ensures r[k] in s
    {
      assert r[k] in multiset(r);
    }
  }

  lemma LessEqAntisymmetric(a: string, b: string)
    requires LessEq(a, b) && LessEq(b, a)
    ensures a == b
  {
    if a != b {
      LessAsymmetric(a, b);
    }
  }

  /** The head of a sorted list is its least element. */
  lemma SortedHeadLeast(a: seq<string>, x: string)
    requires Sorted(a) && x in a
    ensures LessEq(a[0], x)
  {
    var k :| 0 <= k < |a| && a[k] == x;
    if k > 0 {
      assert LessEq(a[0], a[k]);
    }
  }

  lemma SortedTail(a: seq<string>)
    requires Sorted(a) && a != []
    ensures Sorted(a[1..])
  {
    forall i, j | 0 <= i < j < |a| - 1
      ensures LessEq(a[1..][i], a[1..][j])
    {
      assert LessEq(a[i + 1], a[j + 1]);
    }
  }

  /** A sorted permutation is unique: `sorted` depends only on the multiset of its input. */
  lemma {:induction false} SortedPermutationUnique(a: seq<string>, b: seq<string>)
    requires Sorted(a) && Sorted(b) && multiset(a) == multiset(b)
    ensures a == b
  {
    assert |a| == |multiset(a)| == |multiset(b)| == |b|;
    if a != [] {
      SortedSameHead(a, b);
      SortedTail(a);
      SortedTail(b);
      SortedPermutationUnique(a[1..], b[1..]);
      assert a == [a[0]] + a[1..] && b == [b[0]] + b[1..];
    }
  }

  /** Two sorted permutations start alike and continue with the same elements. */
  lemma SortedSameHead(a: seq<string>, b: seq<string>)
    requires Sorted(a) && Sorted(b) && multiset(a) == multiset(b) && a != [] && b != []
    ensures a[0] == b[0] && multiset(a[1..]) == multiset(b[1..])
  {
    assert a[0] in multiset(b) && b[0] in multiset(a);
    SortedHeadLeast(b, a[0]);
    SortedHeadLeast(a, b[0]);
    LessEqAntisymmetric(a[0], b[0]);
    MultisetTail(a);
    MultisetTail(b);
  }

  lemma MultisetTail(a: seq<string>)
    requires a != []
    ensures multiset(a[1..]) == multiset(a) - multiset{a[0]}
  {
    assert a == [a[0]] + a[1..];
  }

  /** Two strings are sorted by one comparison. */
  lemma SortPair(a: string, b: string)
    ensures Sort([a, b]) == if LessEq(a, b) then [a, b] else [b, a]
  {
    var sorted := if LessEq(a, b) then [a, b] else [b, a];
    LessTotal(a, b);
    assert Sorted(sorted);
    assert multiset(sorted) == multiset([a, b]);
    SortedPermutationUnique(Sort([a, b]), sorted);
  }

  /** `set.add(x)` on a set kept as its sorted, duplicate-free list of elements. */
  function AddToSet(s: seq<string>, x: string): (r: seq<string>)
    requires StrictlySorted(s)
    ensures StrictlySorted(r)
    ensures forall y :: y in r <==> y in s || y == x
  {
    if s == [] then [x]
    else if x == s[0] then s
    else if Less(x, s[0]) then
      assert forall j :: 0 <= j < |s| ==> Less(x, s[j]) by {
        forall j | 0 <= j < |s| ensures Less(x, s[j]) {
          if j > 0 { LessTransitive(x, s[0], s[j]); }
        }
      }
      [x] + s
    else
      LessTotal(x, s[0]);
      var tail := AddToSet(s[1..], x);
      assert forall y :: y in tail ==> Less(s[0], y);
      [s[0]] + tail
  }

  /** A set has exactly one sorted, duplicate-free listing: `sorted(list(set))` depends only on the set. */
  lemma {:induction false} StrictlySortedUnique(a: seq<string>, b: seq<string>)
    requires StrictlySorted(a) && StrictlySorted(b)
    requires forall y :: y in a <==> y in b
    ensures a == b
  {
    if a != [] { assert a[0] in b; }
    if b != [] { assert b[0] in a; }
    if a != [] && b != [] {
      assert a[0] in b && b[0] in a;
      var k :| 0 <= k < |b| && b[k] == a[0];
      var m :| 0 <= m < |a| && a[m] == b[0];
      if a[0] != b[0] {
        assert k > 0 && m > 0;
        assert Less(b[0], a[0]) && Less(a[0], b[0]);
        LessAsymmetric(a[0], b[0]);
      }
      assert a == [a[0]] + a[1..] && b == [b[0]] + b[1..];
      forall y | y in a[1..] ensures y in b[1..] {
        var i :| 1 <= i < |a| && a[i] == y;
        assert Less(a[0], y);
        LessIrreflexive(y);
        assert y in b && y != b[0];
      }
      forall y | y in b[1..] ensures y in a[1..] {
        var i :| 1 <= i < |b| && b[i] == y;
        assert Less(b[0], y);
        LessIrreflexive(y);
        assert y in a && y != a[0];
      }
      StrictlySortedUnique(a[1..], b[1..]);
      assert a == [a[0]] + a[1..] && b == [b[0]] + b[1..];
    }
  }

  /* ------------------------------------------------------------------ */
  /* Decimal rendering of a natural number, as in f"{n}"                 */
  /* ------------------------------------------------------------------ */

  predicate IsDigit(c: char) {
    '0' <= c <= '9'
  }

  function DigitChar(d: nat): (c: char)
    requires d < 10
    ensures IsDigit(c) && c as int - '0' as int == d
  {
    ('0' as int + d) as char
  }

  /** f"{n}": the shortest decimal numeral of `n`. */
  function NatToString(n: nat): (r: string)
    ensures |r| >= 1
    ensures forall k :: 0 <= k < |r| ==> IsDigit(r[k])
    ensures r[0] == '0' <==> n == 0
    ensures n == 0 ==> r == "0"
  {
    if n < 10 then [DigitChar(n)] else NatToString(n / 10) + [DigitChar(n % 10)]
  }

  /** The value of a decimal numeral: the inverse of `NatToString`. */
  function DecimalValue(s: string): nat
    requires forall k :: 0 <= k < |s| ==> IsDigit(s[k])
  {
    if s == [] then 0
    else
      assert IsDigit(s[|s| - 1]);
      DecimalValue(s[..|s| - 1]) * 10 + (s[|s| - 1] as int - '0' as int)
  }

  lemma {:induction false} DecimalRoundTrip(n: nat)
    ensures DecimalValue(NatToString(n)) == n
  {
    if n >= 10 {
      var s := NatToString(n);
      assert s[..|s| - 1] == NatToString(n / 10);
      DecimalRoundTrip(n / 10);
    }
  }

  /** Distinct numbers are rendered as distinct numerals. */
  lemma NatToStringInjective(m: nat, n: nat)
    requires NatToString(m) == NatToString(n)
    ensures m == n
  {
    DecimalRoundTrip(m);
    DecimalRoundTrip(n);
  }
}
