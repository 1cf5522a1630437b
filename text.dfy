/** The JavaScript string operations the action relies on: `split("\n")`,
    `join("\n")`, `endsWith`, `includes` and `trim`. A JavaScript string is
    a sequence of UTF-16 code units; a Dafny `string` is a sequence of
    Unicode scalar values. On well-formed text the operations give the same
    results either way: `split`, `join` and `trim` look only for the line
    feed and whitespace characters, which are single code units, and
    `endsWith` and `includes` cannot match part of a surrogate pair, because
    a high surrogate never equals a low one. */
module Text {

  const NL: char := '\n'

  /** `s.split("\n")`: the pieces of `s` between line feeds, in order. */
  function Split(s: string): (r: seq<string>)
    ensures |r| >= 1
    ensures forall i :: 0 <= i < |r| ==> NL !in r[i]
    decreases |s|
  {
    if |s| == 0 then [""]
    else
      var rest := Split(s[1..]);
      if s[0] == NL then [""] + rest
      else [[s[0]] + rest[0]] + rest[1..]
  }

  /** `lines.join("\n")`; the empty array joins to the empty string. */
  function Join(lines: seq<string>): string
  {
    if |lines| == 0 then ""
    else if |lines| == 1 then lines[0]
    else lines[0] + [NL] + Join(lines[1..])
  }

  /** True when no line of `lines` holds a line feed. */
  predicate NoNewlines(lines: seq<string>)
  {
    forall i :: 0 <= i < |lines| ==> NL !in lines[i]
  }

  /** `s.endsWith(suffix)`. */
  predicate EndsWith(s: string, suffix: string)
  {
    |suffix| <= |s| && s[|s| - |suffix|..] == suffix
  }

  /** `sub` is found in `s` starting at index `p`. */
  predicate OccursAt(s: string, sub: string, p: nat)
  {
    p + |sub| <= |s| && s[p..p + |sub|] == sub
  }

  /** `s.includes(sub)`. */
  predicate Includes(s: string, sub: string)
  {
    exists p: nat | p <= |s| :: OccursAt(s, sub, p)
  }

  /** The characters `String.prototype.trim` strips: ECMAScript's
      WhiteSpace (tab, vertical tab, form feed, space, no-break space, the
      byte order mark and the other space separators) and LineTerminator
      (line feed, carriage return, line and paragraph separators). */
  const JsWhitespace: set<char> := {
    '\t', '\U{000B}', '\U{000C}', ' ', '\U{00A0}', '\U{FEFF}', '\U{1680}',
    '\U{2000}', '\U{2001}', '\U{2002}', '\U{2003}', '\U{2004}', '\U{2005}',
    '\U{2006}', '\U{2007}', '\U{2008}', '\U{2009}', '\U{200A}',
    '\U{202F}', '\U{205F}', '\U{3000}',
    '\n', '\r', '\U{2028}', '\U{2029}'}

  predicate IsJsWhitespace(c: char)
  {
    c in JsWhitespace
  }

  /** How many whitespace characters `s` starts with. */
  function LeadingWhitespace(s: string): (n: nat)
    ensures n <= |s|
    ensures forall i :: 0 <= i < n ==> IsJsWhitespace(s[i])
    ensures n == |s| || !IsJsWhitespace(s[n])
    decreases |s|
  {
    if |s| > 0 && IsJsWhitespace(s[0]) then 1 + LeadingWhitespace(s[1..]) else 0
  }

  /** How many whitespace characters `s` ends with. */
  function TrailingWhitespace(s: string): (n: nat)
    ensures n <= |s|
    ensures forall i :: |s| - n <= i < |s| ==> IsJsWhitespace(s[i])
    ensures n == |s| || !IsJsWhitespace(s[|s| - n - 1])
    decreases |s|
  {
    if |s| > 0 && IsJsWhitespace(s[|s| - 1]) then 1 + TrailingWhitespace(s[..|s| - 1]) else 0
  }

  /** `s.trim()`: `s` without leading and trailing whitespace. */
  function Trim(s: string): string
  {
    var t := s[LeadingWhitespace(s)..];
    t[..|t| - TrailingWhitespace(t)]
  }

  /** The trimmed string is the slice `s[lo..hi]`, and everything cut off
      on either side is whitespace. */
  lemma TrimSlice(s: string) returns (lo: nat, hi: nat)
    ensures lo <= hi <= |s| && Trim(s) == s[lo..hi]
    ensures forall i :: 0 <= i < lo ==> IsJsWhitespace(s[i])
    ensures forall i :: hi <= i < |s| ==> IsJsWhitespace(s[i])
  {
    lo := LeadingWhitespace(s);
    var t := s[lo..];
    hi := |s| - TrailingWhitespace(t);
    assert s[lo..hi] == t[..|t| - TrailingWhitespace(t)];
    forall i | hi <= i < |s| ensures IsJsWhitespace(s[i]) {
      assert s[i] == t[i - lo];
    }
  }

  /** The trimmed string neither starts nor ends with whitespace. */
  lemma TrimEnds(s: string)
    ensures |Trim(s)| == 0 || (!IsJsWhitespace(Trim(s)[0]) && !IsJsWhitespace(Trim(s)[|Trim(s)| - 1]))
  {
  }

  /** Trimming gives the empty string exactly when `s` is all whitespace. */
  lemma TrimEmpty(s: string)
    ensures Trim(s) == "" <==> forall i :: 0 <= i < |s| ==> IsJsWhitespace(s[i])
  {
  }

  /** Joining the pieces of a split gives the string back. */
  lemma {:induction false} JoinSplit(s: string)
    ensures Join(Split(s)) == s
    decreases |s|
  {
    if |s| > 0 {
      var rest := Split(s[1..]);
      JoinSplit(s[1..]);
      if s[0] == NL {
        assert s == [NL] + s[1..];
      } else if |rest| == 1 {
        assert s == [s[0]] + s[1..];
      } else {
        var first := [s[0]] + rest[0];
        assert ([first] + rest[1..])[1..] == rest[1..];
        assert Join(rest) == rest[0] + [NL] + Join(rest[1..]);
        assert s == [s[0]] + s[1..];
      }
    }
  }

  /** Splitting `a + t`, where `a` holds no line feed, glues `a` onto the
      first piece of `t`. */
  lemma {:induction false} SplitPrefix(a: string, t: string)
    requires NL !in a
    ensures Split(a + t) == [a + Split(t)[0]] + Split(t)[1..]
    decreases |a|
  {
    if |a| == 0 {
      assert a + t == t;
      assert a + Split(t)[0] == Split(t)[0];
      assert Split(t) == [Split(t)[0]] + Split(t)[1..];
    } else {
      var rest := Split(t);
      var s := a + t;
      SplitPrefix(a[1..], t);
      assert s[1..] == a[1..] + t;
      assert s[0] == a[0] && a[0] != NL;
      var inner := Split(s[1..]);
      assert inner == [a[1..] + rest[0]] + rest[1..];
      assert Split(s) == [[a[0]] + inner[0]] + inner[1..];
      assert [a[0]] + (a[1..] + rest[0]) == a + rest[0];
    }
  }

  /** Joining newline-free lines and splitting again gives the lines back. */
  lemma {:induction false} SplitJoin(lines: seq<string>)
    requires |lines| >= 1 && NoNewlines(lines)
    ensures Split(Join(lines)) == lines
    decreases |lines|
  {
    if |lines| == 1 {
      SplitPrefix(lines[0], "");
      assert lines[0] + "" == lines[0];
    } else {
      var tail := Join(lines[1..]);
      SplitJoin(lines[1..]);
      SplitPrefix(lines[0], [NL] + tail);
      assert Join(lines) == lines[0] + ([NL] + tail);
      assert ([NL] + tail)[1..] == tail;
      assert Split([NL] + tail) == [""] + Split(tail);
      assert lines[0] + "" == lines[0];
      assert lines == [lines[0]] + lines[1..];
    }
  }

  /** A split never loses or adds a line feed: the newline-free line list
      whose join is `s` is exactly `Split(s)`. */
  lemma SplitUnique(s: string, lines: seq<string>)
    requires |lines| >= 1 && NoNewlines(lines)
    ensures Join(lines) == s <==> lines == Split(s)
  {
    SplitJoin(lines);
    JoinSplit(s);
  }

  /** Joining two non-empty line lists puts one line feed between their joins. */
  lemma {:induction false} JoinAppend(a: seq<string>, b: seq<string>)
    requires |a| >= 1 && |b| >= 1
    ensures Join(a + b) == Join(a) + [NL] + Join(b)
    decreases |a|
  {
    if |a| == 1 {
      assert (a + b)[1..] == b;
    } else {
      JoinAppend(a[1..], b);
      assert (a + b)[1..] == a[1..] + b;
    }
  }

  /** A line feed sits right after the join of the first `k` pieces of a split. */
  lemma {:induction false} JoinCut(lines: seq<string>, k: nat)
    requires 1 <= k < |lines|
    ensures Join(lines) == Join(lines[..k]) + [NL] + Join(lines[k..])
  {
    JoinAppend(lines[..k], lines[k..]);
    assert lines[..k] + lines[k..] == lines;
  }

  /** A suffix of a suffix is a suffix. */
  lemma EndsWithAppend(a: string, b: string, suffix: string)
    requires EndsWith(b, suffix)
    ensures EndsWith(a + b, suffix)
  {
  }

  /** A newline-free suffix of `a + b` whose `b` starts with a line feed lies
      wholly inside `b`. */
  lemma EndsWithAcrossNewline(a: string, b: string, suffix: string)
    requires |b| >= 1 && b[0] == NL && NL !in suffix
    requires EndsWith(a + b, suffix)
    ensures EndsWith(b, suffix)
  {
    var s := a + b;
    var start := |s| - |suffix|;
    assert s[|a|] == NL;
    forall k | start <= k < |s| ensures s[k] != NL {
      assert s[k] == suffix[k - start];
    }
    if |suffix| > |b| - 1 {
      assert false;
    }
    assert s[|s| - |suffix|..] == b[|b| - |suffix|..];
  }

  /** Text found in `a + c` around a line feed at `c[0]` is still found once
      anything is put between `a` and `c`, provided it holds no line feed. */
  lemma IncludesInsert(a: string, x: string, c: string, sub: string)
    requires |c| >= 1 && c[0] == NL && NL !in sub
    requires Includes(a + c, sub)
    ensures Includes(a + x + c, sub)
  {
    var s := a + c;
    var t := a + x + c;
    var p: nat :| p <= |s| && OccursAt(s, sub, p);
    assert s[|a|] == NL;
    forall k | p <= k < p + |sub| ensures s[k] != NL {
      assert s[k] == sub[k - p];
    }
    if p + |sub| <= |a| {
      assert t[p..p + |sub|] == s[p..p + |sub|];
      assert OccursAt(t, sub, p);
    } else if p >= |a| {
      assert t[p + |x|..p + |x| + |sub|] == s[p..p + |sub|];
      assert OccursAt(t, sub, p + |x|);
    } else {
      assert false;
    }
  }

  /** Text found in `b` is found in `a + b`. */
  lemma IncludesAppend(a: string, b: string, sub: string)
    requires Includes(b, sub)
    ensures Includes(a + b, sub)
  {
    var p: nat :| p <= |b| && OccursAt(b, sub, p);
    assert (a + b)[|a| + p..|a| + p + |sub|] == b[p..p + |sub|];
    assert OccursAt(a + b, sub, |a| + p);
  }
}
