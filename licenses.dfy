/**
 * License data of spdx/builder.py: detection of the short-form
 * `SPDX-License-Identifier:` tag (SPDX 2.2 Appendix V) in the first lines of
 * a file, the lossy flattening of a license expression (SPDX 2.2 Appendix IV)
 * into its identifiers, and the AND-combination of a package's expressions.
 */
module Licenses {
  import opened Wrappers
  import opened Strings

  /** The short-form license tag of SPDX 2.2, Appendix V. */
  const Marker: string := "SPDX-License-Identifier:"

  /* ------------------------------------------------------------------ */
  /* parseLineForExpression                                              */
  /* ------------------------------------------------------------------ */

  /** The characters stripped from the end of a tagged line: slash and star, the ends of C-style comments. */
  const CommentMarks: string := "/*"

  /**
   * The expression tagged on one line: the text after the first marker,
   * whitespace-stripped, with trailing comment marks removed, stripped again.
   * None exactly when nothing follows the first marker (or there is no marker).
   */
  function ParseLineForExpression(line: string): (r: Option<string>)
  {
    var rest := AfterFirst(line, Marker);
    if rest == "" then None
    else Some(Strip(RStripChars(Strip(rest), CommentMarks)))
  }

  /**
   * A line without the marker, or with nothing after its first marker, has no
   * expression; a line with text after its first marker has one, possibly
   * empty when that text is only whitespace and comment marks.
   */
  lemma ParseLineForExpressionTagged(line: string)
    ensures ParseLineForExpression(line).Some? <==>
              exists i: nat :: FirstAt(line, Marker, i) && i + |Marker| < |line|
    ensures !Occurs(Marker, line) ==> ParseLineForExpression(line).None?
    ensures var r := ParseLineForExpression(line);
            r.Some? ==> r.value == [] || (!IsSpace(r.value[0]) && !IsSpace(r.value[|r.value| - 1]))
  {
    AfterFirstNonEmpty(line, Marker);
  }

  lemma StripUnchanged(s: string)
    requires s == [] || (!IsSpace(s[0]) && !IsSpace(s[|s| - 1]))
    ensures Strip(s) == s
  {
    assert LStrip(s) == s;
    assert RStrip(s) == s;
  }

  /** When the tagged text does not end in a comment mark, the expression is just that text, stripped. */
  lemma ParseWithoutCommentMarks(line: string)
    requires AfterFirst(line, Marker) != ""
    requires var s := Strip(AfterFirst(line, Marker)); s == [] || s[|s| - 1] !in CommentMarks
    ensures ParseLineForExpression(line) == Some(Strip(AfterFirst(line, Marker)))
  {
    var s := Strip(AfterFirst(line, Marker));
    assert RStripChars(s, CommentMarks) == s;
    StripUnchanged(s);
  }

  /* ------------------------------------------------------------------ */
  /* getExpressionData                                                   */
  /* ------------------------------------------------------------------ */

  /**
   * A file opened as text: the lines Python yields (each with its line
   * terminator) and whether decoding then fails.
   */
  datatype TextFile = TextFile(lines: seq<string>, decodeFailed: bool)

  /** How many leading lines are examined: `numLines` of them when positive, else all. */
  function ScanLimit(count: nat, numLines: int): (k: nat)
    ensures k <= count
  {
    if numLines > 0 && numLines < count then numLines else count
  }

  /** The expression each line carries, line by line. */
  function ParseAll(lines: seq<string>): (r: seq<Option<string>>)
    ensures |r| == |lines|
  {
    if lines == [] then []
    else ParseAll(lines[..|lines| - 1]) + [ParseLineForExpression(lines[|lines| - 1])]
  }

  lemma {:induction false} ParseAllAt(lines: seq<string>, k: nat, line: string)
    requires k < |lines| && lines[k] == line
    ensures ParseAll(lines)[k] == ParseLineForExpression(line)
  {
    if k < |lines| - 1 {
      ParseAllAt(lines[..|lines| - 1], k, line);
    }
  }

  /** The first present value, if any. */
  function FirstSome(opts: seq<Option<string>>): (r: Option<string>)
    ensures r.Some? ==> exists k :: 0 <= k < |opts| && opts[k] == r &&
                                    forall j :: 0 <= j < k ==> opts[j].None?
    ensures r.None? <==> forall k :: 0 <= k < |opts| ==> opts[k].None?
  {
    if opts == [] then None
    else if opts[0].Some? then opts[0]
    else
      var r := FirstSome(opts[1..]);
      assert forall k :: 1 <= k < |opts| ==> opts[k] == opts[1..][k - 1];
      r
  }

  /** The first present value decides, whatever comes after it. */
  lemma FirstSomeAt(opts: seq<Option<string>>, k: nat)
    requires k < |opts| && opts[k].Some?
    requires forall j :: 0 <= j < k ==> opts[j].None?
    ensures FirstSome(opts) == opts[k]
  {
    var r := FirstSome(opts);
    var m :| 0 <= m < |opts| && opts[m] == r && forall j :: 0 <= j < m ==> opts[j].None?;
    assert m == k;
  }

  /** What `getExpressionData` finds in a file: the expression of the first tagged line within the scan limit. */
  function ExpressionOf(file: TextFile, numLines: int): Option<string> {
    FirstSome(ParseAll(file.lines[..ScanLimit(|file.lines|, numLines)]))
  }

  lemma ParsedLine(lines: seq<string>, limit: nat, k: nat)
    requires k < limit <= |lines|
    ensures ParseAll(lines[..limit])[k] == ParseLineForExpression(lines[k])
  {
    assert lines[..limit][k] == lines[k];
    ParseAllAt(lines[..limit], k, lines[k]);
  }

  /** A tagged line within the limit, after untagged ones, decides the file's expression. */
  lemma ExpressionFound(file: TextFile, numLines: int, k: nat)
    requires k < ScanLimit(|file.lines|, numLines)
    requires ParseLineForExpression(file.lines[k]).Some?
    requires forall j :: 0 <= j < k ==> ParseLineForExpression(file.lines[j]).None?
    ensures ExpressionOf(file, numLines) == ParseLineForExpression(file.lines[k])
  {
    var limit := ScanLimit(|file.lines|, numLines);
    var parsed := ParseAll(file.lines[..limit]);
    forall j | 0 <= j < k
      ensures parsed[j].None?
    {
      ParsedLine(file.lines, limit, j);
    }
    ParsedLine(file.lines, limit, k);
    FirstSomeAt(parsed, k);
  }

  /** Without a tagged line within the limit, the file has no expression. */
  lemma ExpressionAbsent(file: TextFile, numLines: int)
    requires forall j :: 0 <= j < ScanLimit(|file.lines|, numLines) ==> ParseLineForExpression(file.lines[j]).None?
    ensures ExpressionOf(file, numLines).None?
  {
    var limit := ScanLimit(|file.lines|, numLines);
    var parsed := ParseAll(file.lines[..limit]);
    forall j | 0 <= j < limit
      ensures parsed[j].None?
    {
      ParsedLine(file.lines, limit, j);
    }
  }

  /** Reads the file's lines, the expression of the first tagged line within the limit; None when reading fails first. */
  method GetExpressionData(file: TextFile, numLines: int) returns (r: Option<string>)
    ensures r == ExpressionOf(file, numLines)
  {
    ghost var k;
    r, k := ScanLines(file.lines, numLines, ParseLineForExpression);
    if r.Some? {
      ExpressionFound(file, numLines, k);
      return r;
    }
    ExpressionAbsent(file, numLines);
    // when file.decodeFailed, reading on raises UnicodeDecodeError, which is caught: None either way
    return None;
  }

  /**
   * The loop of `getExpressionData`, for any line parser `parse`: scans line
   * by line, giving up after `numLines` lines (never, when `numLines` is 0);
   * `k` is the index of the line the result came from, or the number of
   * lines scanned.
   */
  method ScanLines(lines: seq<string>, numLines: int, parse: string -> Option<string>) returns (r: Option<string>, ghost k: nat)
    ensures k <= ScanLimit(|lines|, numLines)
    ensures forall j :: 0 <= j < k ==> parse(lines[j]).None?
    ensures r.Some? ==> k < ScanLimit(|lines|, numLines) && r == parse(lines[k])
    ensures r.None? ==> k == ScanLimit(|lines|, numLines)
  {
    ghost var limit := ScanLimit(|lines|, numLines);
    var lineno := 0;
    while lineno < |lines|
      invariant lineno <= limit
      invariant forall j :: 0 <= j < lineno ==> parse(lines[j]).None?
    {
      var line := lines[lineno];
      lineno := lineno + 1;
      if numLines > 0 && lineno > numLines {
        return None, lineno - 1;
      }
      var expression := parse(line);
      if expression.Some? {
        return expression, lineno - 1;
      }
    }
    return None, lineno;
  }

  /* ------------------------------------------------------------------ */
  /* splitExpression                                                     */
  /* ------------------------------------------------------------------ */

  /**
   * Whether `c` matches the pattern letter `u` under `re.IGNORECASE` on a str
   * pattern: both ASCII cases, and for `I` also U+0130 (whose lower case is `i`)
   * and U+0131 (which the regex engine treats as a case variant of `i`).
   */
  predicate MatchesIgnoringCase(c: char, u: char) {
    c == u ||
    ('A' <= u <= 'Z' && c as int == u as int + 32) ||
    (u == 'I' && (c == '\U{130}' || c == '\U{131}'))
  }

  /** The pattern letters `word` match `s` from index `i` on, ignoring case. */
  predicate WordAt(s: string, word: string, i: nat)
    decreases |word|
  {
    i + |word| <= |s| &&
    (word == [] || (MatchesIgnoringCase(s[i], word[0]) && WordAt(s, word[1..], i + 1)))
  }

  /** Every pattern letter matches itself. */
  lemma {:induction false} WordAtItself(s: string, word: string, i: nat)
    requires i + |word| <= |s| && s[i..i + |word|] == word
    ensures WordAt(s, word, i)
    decreases |word|
  {
    if word != [] {
      assert s[i] == s[i..i + |word|][0];
      assert s[i + 1..i + |word|] == word[1..];
      WordAtItself(s, word[1..], i + 1);
    }
  }

  /** `WordAt` compares letter by letter: every letter of `word` matches the character at its offset. */
  lemma {:induction false} WordAtLetters(s: string, word: string, i: nat)
    ensures WordAt(s, word, i) <==>
              i + |word| <= |s| && forall j :: 0 <= j < |word| ==> MatchesIgnoringCase(s[i + j], word[j])
    decreases |word|
  {
    if word != [] && i + |word| <= |s| {
      WordAtLetters(s, word[1..], i + 1);
      assert forall j :: 1 <= j < |word| ==> word[1..][j - 1] == word[j] && s[i + 1 + (j - 1)] == s[i + j];
    }
  }

  /**
   * A case variant `op` of a pattern word, found in a text, matches the
   * pattern word there: `re.IGNORECASE` matches every case spelling, not
   * only the pattern's own.
   */
  lemma WordAtShift(op: string, word: string, t: string, i: nat)
    requires |op| == |word| && WordAt(op, word, 0)
    requires i + |op| <= |t| && t[i..i + |op|] == op
    ensures WordAt(t, word, i)
  {
    WordAtLetters(op, word, 0);
    WordAtLetters(t, word, i);
    assert forall j :: 0 <= j < |op| ==> t[i + j] == op[j];
  }

  /** The pattern `" " + word + " "` matches at the start of `s`. */
  predicate OperatorAt(s: string, word: string) {
    |word| + 2 <= |s| && s[0] == ' ' && s[|word| + 1] == ' ' && WordAt(s, word, 1)
  }

  /** Length of the match of `' AND | OR | WITH '` at the start of `s` (alternatives tried in order), 0 if none. */
  function OperatorLength(s: string): (n: nat)
    ensures n == 0 || (2 <= n <= |s| && s[0] == ' ')
  {
    if OperatorAt(s, "AND") then 5
    else if OperatorAt(s, "OR") then 4
    else if OperatorAt(s, "WITH") then 6
    else 0
  }

  /** `re.sub(r' AND | OR | WITH ', " ", s, flags=re.IGNORECASE)`: left to right, non-overlapping. */
  function ReplaceOperators(s: string): (r: string)
    ensures |r| <= |s|
    ensures forall c :: c in r ==> c in s
    decreases |s|
  {
    if s == [] then ""
    else
      var n := OperatorLength(s);
      if n > 0 then " " + ReplaceOperators(s[n..])
      else [s[0]] + ReplaceOperators(s[1..])
  }

  /** The characters the first substitution removes: parentheses and the `+` "or later" suffix. */
  const GroupingMarks: string := "()+"

  /** A token of a flattened expression: no space and no grouping mark. */
  predicate Bare(t: string) {
    ' ' !in t && forall c :: c in t ==> c !in GroupingMarks
  }

  /** The unsorted fields of a flattened expression. */
  function Tokens(expression: string): seq<string> {
    SplitOn(ReplaceOperators(RemoveChars(expression, GroupingMarks)), ' ')
  }

  lemma TokensBare(expression: string)
    ensures forall t :: t in Tokens(expression) ==> Bare(t)
  {
    var e2 := RemoveChars(expression, GroupingMarks);
    var e3 := ReplaceOperators(e2);
    var parts := SplitOn(e3, ' ');
    forall t | t in parts
      ensures Bare(t)
    {
      var m :| 0 <= m < |parts| && parts[m] == t;
      forall c | c in t
        ensures c !in GroupingMarks
      {
        assert c in e3;
      }
    }
  }

  /**
   * The identifiers of an expression: grouping marks removed, operators turned
   * into a space, split on single spaces, sorted. Not deduplicated.
   */
  function SplitExpression(expression: string): (r: seq<string>)
    ensures Sorted(r) && |r| >= 1
    ensures forall k :: 0 <= k < |r| ==> Bare(r[k])
  {
    var r := Sort(Tokens(expression));
    TokensBare(expression);
    SortKeepsElements(Tokens(expression));
    r
  }

  /** Text without spaces passes through the operator substitution untouched. */
  lemma {:induction false} ReplaceOperatorsWord(a: string, t: string)
    requires ' ' !in a
    ensures ReplaceOperators(a + t) == a + ReplaceOperators(t)
  {
    if a != [] {
      var s := a + t;
      assert s[0] == a[0] && a[0] != ' ';
      assert OperatorLength(s) == 0;
      assert s[1..] == a[1..] + t;
      assert ReplaceOperators(s) == [a[0]] + ReplaceOperators(s[1..]);
      ReplaceOperatorsWord(a[1..], t);
      assert a == [a[0]] + a[1..];
    } else {
      assert a + t == t;
    }
  }

  lemma {:induction false} SplitOnWord(a: string, t: string, sep: char)
    requires sep !in a
    ensures SplitOn(a + [sep] + t, sep) == [a] + SplitOn(t, sep)
  {
    if a == [] {
      assert a + [sep] + t == [sep] + t;
    } else {
      assert (a + [sep] + t)[1..] == a[1..] + [sep] + t;
      SplitOnWord(a[1..], t, sep);
      assert a == [a[0]] + a[1..];
    }
  }

  lemma {:induction false} SplitOnNoSeparator(a: string, sep: char)
    requires sep !in a
    ensures SplitOn(a, sep) == [a]
  {
    if a != [] {
      SplitOnNoSeparator(a[1..], sep);
      assert a == [a[0]] + a[1..];
    }
  }

  /**
   * The operator words of a license expression in any case spelling the
   * pattern matches under `re.IGNORECASE`: "AND", "and", "Or", "wItH", ...
   */
  predicate IsOperatorWord(op: string) {
    (|op| == 3 && WordAt(op, "AND", 0)) ||
    (|op| == 2 && WordAt(op, "OR", 0)) ||
    (|op| == 4 && WordAt(op, "WITH", 0))
  }

  /** A case variant of an operator word holds letters only: no space, parenthesis or plus. */
  lemma OperatorWordLetters(op: string)
    requires IsOperatorWord(op)
    ensures forall c :: c in op ==> c != ' ' && c !in GroupingMarks
  {
    var word := if |op| == 3 then "AND" else if |op| == 2 then "OR" else "WITH";
    WordAtLetters(op, word, 0);
    forall c | c in op
      ensures c != ' ' && c !in GroupingMarks
    {
      var j :| 0 <= j < |op| && op[j] == c;
      assert MatchesIgnoringCase(op[j], word[j]);
    }
  }

  /** Each operator word, in any case spelling, between single spaces, is matched whole. */
  lemma OperatorLengthOf(op: string, b: string)
    requires IsOperatorWord(op)
    ensures OperatorLength(" " + op + " " + b) == |op| + 2
  {
    var t := " " + op + " " + b;
    assert t[1..1 + |op|] == op;
    assert t[|op| + 1] == ' ';
    if |op| == 3 {
      WordAtShift(op, "AND", t, 1);
    } else {
      var word := if |op| == 2 then "OR" else "WITH";
      WordAtShift(op, word, t, 1);
      WordAtLetters(t, word, 1);
      WordAtLetters(t, "AND", 1);
      assert !WordAt(t, "AND", 1) by {
        assert MatchesIgnoringCase(t[1], word[0]);
      }
      if |op| == 4 {
        WordAtLetters(t, "OR", 1);
        assert !WordAt(t, "OR", 1) by {
          assert MatchesIgnoringCase(t[1], 'W');
        }
      }
    }
  }

  /** The operator between two plain identifiers becomes a single space. */
  lemma ReplaceBinary(a: string, op: string, b: string)
    requires OperatorLength(" " + op + " " + b) == |op| + 2
    requires ' ' !in a && ' ' !in b
    ensures ReplaceOperators(a + " " + op + " " + b) == a + " " + b
  {
    var t := " " + op + " " + b;
    BinaryRegroup(a, op, b);
    ReplaceOperatorsWord(a, t);
    ReplaceOperatorAt(op, b);
    ReplaceOperatorsWhole(b);
  }

  /** Regroups `a OP b` as `a` followed by the operator and `b`. */
  lemma BinaryRegroup(a: string, op: string, b: string)
    ensures a + " " + op + " " + b == a + (" " + op + " " + b)
  {
  }

  /** A word without spaces holds no operator. */
  lemma ReplaceOperatorsWhole(b: string)
    requires ' ' !in b
    ensures ReplaceOperators(b) == b
  {
    ReplaceOperatorsWord(b, "");
    assert b + "" == b;
  }

  /** An operator at the front of `s` becomes one space. */
  lemma ReplaceOperatorAt(op: string, b: string)
    requires OperatorLength(" " + op + " " + b) == |op| + 2
    ensures ReplaceOperators(" " + op + " " + b) == " " + ReplaceOperators(b)
  {
    var t := " " + op + " " + b;
    assert t[|op| + 2..] == b;
  }

  /** The fields of `a OP b` are the two identifiers, whatever the case of the operator. */
  lemma TokensBinary(a: string, op: string, b: string)
    requires IsOperatorWord(op)
    requires Bare(a) && Bare(b)
    ensures Tokens(a + " " + op + " " + b) == [a, b]
  {
    var e := a + " " + op + " " + b;
    OperatorWordLetters(op);
    assert RemoveChars(e, GroupingMarks) == e by {
      forall c | c in e
        ensures c !in GroupingMarks
      {
        assert c in a || c in b || c == ' ' || c in op;
      }
    }
    OperatorLengthOf(op, b);
    ReplaceBinary(a, op, b);
    SplitOnWord(a, b, ' ');
    SplitOnNoSeparator(b, ' ');
  }

  /**
   * A binary expression `a OP b` of two plain identifiers flattens to the
   * two identifiers in sorted order, duplicates kept: "MIT OR Apache-2.0"
   * gives ["Apache-2.0", "MIT"] and "MIT AND MIT" gives ["MIT", "MIT"];
   * the operator may be spelled in any case.
   */
  lemma SplitBinaryExpression(a: string, op: string, b: string)
    requires IsOperatorWord(op)
    requires Bare(a) && Bare(b)
    ensures SplitExpression(a + " " + op + " " + b) == if LessEq(a, b) then [a, b] else [b, a]
  {
    TokensBinary(a, op, b);
    SortPair(a, b);
  }

  /** The flat expression `ids[0] ops[0] ids[1] ... ops[n-1] ids[n]`, single spaces around each operator. */
  function Chain(ids: seq<string>, ops: seq<string>): string
    requires |ids| == |ops| + 1
    decreases |ops|
  {
    if |ops| == 0 then ids[0]
    else ids[0] + " " + ops[0] + " " + Chain(ids[1..], ops[1..])
  }

  /** The text of a chain of bare identifiers and operator words holds no grouping mark. */
  lemma {:induction false} ChainBare(ids: seq<string>, ops: seq<string>)
    requires |ids| == |ops| + 1
    requires forall k :: 0 <= k < |ids| ==> Bare(ids[k])
    requires forall k :: 0 <= k < |ops| ==> IsOperatorWord(ops[k])
    ensures forall c :: c in Chain(ids, ops) ==> c !in GroupingMarks
    decreases |ops|
  {
    if |ops| > 0 {
      ChainBare(ids[1..], ops[1..]);
      var rest := Chain(ids[1..], ops[1..]);
      assert Chain(ids, ops) == ids[0] + " " + ops[0] + " " + rest;
      assert Bare(ids[0]);
      OperatorWordLetters(ops[0]);
      forall c | c in Chain(ids, ops)
        ensures c !in GroupingMarks
      {
        assert c in ids[0] || c == ' ' || c in ops[0] || c in rest;
      }
    }
  }

  /** An identifier followed by an operator: the identifier is kept and the operator becomes one space. */
  lemma ReplaceOperatorAfter(a: string, op: string, rest: string)
    requires ' ' !in a && IsOperatorWord(op)
    ensures ReplaceOperators(a + " " + op + " " + rest) == a + " " + ReplaceOperators(rest)
  {
    BinaryRegroup(a, op, rest);
    ReplaceOperatorsWord(a, " " + op + " " + rest);
    OperatorLengthOf(op, rest);
    ReplaceOperatorAt(op, rest);
  }

  /** Each operator between identifiers becomes one space: the substitution joins the identifiers with single spaces. */
  lemma {:induction false} ReplaceOperatorsChain(ids: seq<string>, ops: seq<string>)
    requires |ids| == |ops| + 1
    requires forall k :: 0 <= k < |ids| ==> ' ' !in ids[k]
    requires forall k :: 0 <= k < |ops| ==> IsOperatorWord(ops[k])
    ensures ReplaceOperators(Chain(ids, ops)) == JoinWith(ids, " ")
    decreases |ops|
  {
    if |ops| == 0 {
      ReplaceOperatorsWhole(ids[0]);
    } else {
      var rest := Chain(ids[1..], ops[1..]);
      assert Chain(ids, ops) == ids[0] + " " + ops[0] + " " + rest;
      ReplaceOperatorAfter(ids[0], ops[0], rest);
      ReplaceOperatorsChain(ids[1..], ops[1..]);
    }
  }

  /** Splitting identifiers joined by single spaces gives the identifiers back. */
  lemma {:induction false} SplitJoined(ids: seq<string>)
    requires |ids| >= 1
    requires forall k :: 0 <= k < |ids| ==> ' ' !in ids[k]
    ensures SplitOn(JoinWith(ids, " "), ' ') == ids
  {
    if |ids| == 1 {
      SplitOnNoSeparator(ids[0], ' ');
    } else {
      SplitJoined(ids[1..]);
      assert JoinWith(ids, " ") == ids[0] + [' '] + JoinWith(ids[1..], " ");
      SplitOnWord(ids[0], JoinWith(ids[1..], " "), ' ');
      assert ids == [ids[0]] + ids[1..];
    }
  }

  /**
   * An expression that is a chain of identifiers and operators once its
   * parentheses and `+` are removed has exactly those identifiers as its
   * fields, in order, repeats kept. Any nesting of AND, OR and WITH whose
   * parentheses hug their contents, as SPDX writes them, becomes such a
   * chain.
   */
  lemma TokensChain(expression: string, ids: seq<string>, ops: seq<string>)
    requires |ids| == |ops| + 1
    requires forall k :: 0 <= k < |ids| ==> Bare(ids[k])
    requires forall k :: 0 <= k < |ops| ==> IsOperatorWord(ops[k])
    requires RemoveChars(expression, GroupingMarks) == Chain(ids, ops)
    ensures Tokens(expression) == ids
  {
    ReplaceOperatorsChain(ids, ops);
    SplitJoined(ids);
  }

  /** A plain chain of identifiers and operators passes the removal of grouping marks untouched. */
  lemma ChainUngrouped(ids: seq<string>, ops: seq<string>)
    requires |ids| == |ops| + 1
    requires forall k :: 0 <= k < |ids| ==> Bare(ids[k])
    requires forall k :: 0 <= k < |ops| ==> IsOperatorWord(ops[k])
    ensures RemoveChars(Chain(ids, ops), GroupingMarks) == Chain(ids, ops)
  {
    ChainBare(ids, ops);
  }

  /**
   * The identifiers `splitExpression` returns for such an expression: those
   * of the chain, sorted, duplicates kept; "(MIT OR Apache-2.0) AND MIT"
   * gives ["Apache-2.0", "MIT", "MIT"].
   */
  lemma SplitChainExpression(expression: string, ids: seq<string>, ops: seq<string>)
    requires |ids| == |ops| + 1
    requires forall k :: 0 <= k < |ids| ==> Bare(ids[k])
    requires forall k :: 0 <= k < |ops| ==> IsOperatorWord(ops[k])
    requires RemoveChars(expression, GroupingMarks) == Chain(ids, ops)
    ensures SplitExpression(expression) == Sort(ids)
  {
    TokensChain(expression, ids, ops);
  }
  /** The operators are found whatever their case: "mit or Apache-2.0" gives ["Apache-2.0", "mit"]. */
  lemma SplitLowercaseOperator()
    ensures SplitExpression("mit or Apache-2.0") == ["Apache-2.0", "mit"]
  {
    assert WordAt("or", "OR", 0);
    assert "mit or Apache-2.0" == "mit" + " " + "or" + " " + "Apache-2.0";
    assert Bare("mit") && Bare("Apache-2.0");
    assert Less("Apache-2.0", "mit");
    LessAsymmetric("Apache-2.0", "mit");
    SplitBinaryExpression("mit", "or", "Apache-2.0");
  }


  /* ------------------------------------------------------------------ */
  /* normalizeExpression                                                 */
  /* ------------------------------------------------------------------ */

  /** The two values SPDX uses for "no license" and "not determined". */
  predicate IsPlaceholder(lic: string) {
    lic == "NONE" || lic == "NOASSERTION"
  }

  /** An expression with a space in it is parenthesised before being AND-ed. */
  function Parenthesized(lic: string): string {
    if ' ' in lic then "(" + lic + ")" else lic
  }

  /** The terms that are AND-ed together: placeholders dropped, compound expressions parenthesised, order kept. */
  function Conjuncts(lics: seq<string>): (r: seq<string>)
    ensures |r| <= |lics|
    ensures forall t :: t in r <==> exists k :: 0 <= k < |lics| && !IsPlaceholder(lics[k]) && t == Parenthesized(lics[k])
    ensures r == [] <==> forall k :: 0 <= k < |lics| ==> IsPlaceholder(lics[k])
  {
    if lics == [] then []
    else
      var init := lics[..|lics| - 1];
      var last := lics[|lics| - 1];
      assert forall k :: 0 <= k < |init| ==> lics[k] == init[k];
      Conjuncts(init) + (if IsPlaceholder(last) then [] else [Parenthesized(last)])
  }

  /**
   * Every non-placeholder expression becomes one term, once and in its
   * place: the terms are `Parenthesized` of the expressions at the
   * increasing positions `idx`, which are exactly the positions of the
   * expressions that are neither NONE nor NOASSERTION.
   */
  lemma {:induction false} ConjunctsInOrder(lics: seq<string>) returns (idx: seq<nat>)
    ensures Selects(Conjuncts(lics), lics, lic => !IsPlaceholder(lic), Parenthesized, idx)
  {
    if lics == [] {
      idx := [];
    } else {
      var init := lics[..|lics| - 1];
      var last := lics[|lics| - 1];
      assert lics == init + [last];
      var idx0 := ConjunctsInOrder(init);
      if IsPlaceholder(last) {
        SelectsDrop(Conjuncts(init), init, last, lic => !IsPlaceholder(lic), Parenthesized, idx0);
        idx := idx0;
      } else {
        SelectsKeep(Conjuncts(init), init, last, lic => !IsPlaceholder(lic), Parenthesized, idx0);
        idx := idx0 + [|init|];
      }
    }
  }

  /**
   * The package's concluded license from its files' distinct concluded
   * expressions: NOASSERTION for none, the one expression unchanged (even NONE)
   * for one, else the AND of the non-placeholder terms, which is the empty
   * string when every entry is a placeholder.
   */
  function Normalized(lics: seq<string>): (r: string)
    ensures |lics| == 0 ==> r == "NOASSERTION"
    ensures |lics| == 1 ==> r == lics[0]
    ensures |lics| >= 2 && (forall k :: 0 <= k < |lics| ==> IsPlaceholder(lics[k])) ==> r == ""
  {
    if |lics| == 0 then "NOASSERTION"
    else if |lics| == 1 then lics[0]
    else JoinWith(Conjuncts(lics), " AND ")
  }

  /** Two real expressions are joined by AND, a compound one inside parentheses. */
  lemma NormalizedPair(a: string, b: string)
    requires !IsPlaceholder(a) && !IsPlaceholder(b)
    ensures Normalized([a, b]) == Parenthesized(a) + " AND " + Parenthesized(b)
  {
    assert [a, b][..1] == [a];
    assert [a][..0] == [];
    assert Conjuncts([a]) == [Parenthesized(a)];
    var c := Conjuncts([a, b]);
    assert c == [Parenthesized(a), Parenthesized(b)];
    assert c[1..] == [Parenthesized(b)];
    assert JoinWith(c, " AND ") == c[0] + " AND " + JoinWith(c[1..], " AND ");
  }

  method NormalizeExpression(licsConcluded: seq<string>) returns (r: string)
    ensures r == Normalized(licsConcluded)
  {
    if |licsConcluded| == 0 {
      return "NOASSERTION";
    }
    if |licsConcluded| == 1 {
      return licsConcluded[0];
    }
    var revised: seq<string> := [];
    for i := 0 to |licsConcluded|
      invariant revised == Conjuncts(licsConcluded[..i])
    {
      assert licsConcluded[..i + 1][..i] == licsConcluded[..i];
      var lic := licsConcluded[i];
      if lic == "NONE" || lic == "NOASSERTION" {
        continue;
      }
      if ' ' in lic {
        revised := revised + ["(" + lic + ")"];
      } else {
        revised := revised + [lic];
      }
    }
    assert licsConcluded[..|licsConcluded|] == licsConcluded;
    return JoinWith(revised, " AND ");
  }
}
