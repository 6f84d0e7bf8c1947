/** The Python `str` operations the parsers rely on: `isspace`, `splitlines`,
    `strip`, `split()` (no separator), `lower`, `startswith` and `in`.
    Characters are Unicode scalar values, as in Python 3. */
module PyText {

  /** `c.isspace()` in Python 3: the characters `str.split()` and `str.strip()` treat as blanks. */
  predicate IsSpace(c: char) {
    c == ' ' || c == '\t' || c == '\n' || c == '\r' || c == '\U{000B}' || c == '\U{000C}'
    || ('\U{001C}' <= c <= '\U{001F}') || c == '\U{0085}' || c == '\U{00A0}' || c == '\U{1680}'
    || ('\U{2000}' <= c <= '\U{200A}') || c == '\U{2028}' || c == '\U{2029}' || c == '\U{202F}'
    || c == '\U{205F}' || c == '\U{3000}'
  }

  /** The line boundaries of `str.splitlines()` (`\r\n` counts as one boundary). */
  predicate IsLineBreak(c: char) {
    c == '\n' || c == '\r' || c == '\U{000B}' || c == '\U{000C}' || c == '\U{001C}' || c == '\U{001D}'
    || c == '\U{001E}' || c == '\U{0085}' || c == '\U{2028}' || c == '\U{2029}'
  }

  predicate AllSpace(s: string) {
    forall i :: 0 <= i < |s| ==> IsSpace(s[i])
  }

  predicate NoSpace(s: string) {
    forall i :: 0 <= i < |s| ==> !IsSpace(s[i])
  }

  predicate NoLineBreak(s: string) {
    forall i :: 0 <= i < |s| ==> !IsLineBreak(s[i])
  }

  /** Length of the longest prefix of `s` without a character satisfying `stop`. */
  function Span(s: string, stop: char -> bool): (n: nat)
    ensures n <= |s|
    ensures forall i :: 0 <= i < n ==> !stop(s[i])
    ensures n < |s| ==> stop(s[n])
  {
    if s == [] || stop(s[0]) then 0 else 1 + Span(s[1..], stop)
  }

  // ---------------------------------------------------------------- splitlines

  /** `s.splitlines()`: the lines of `s` without their terminators; a final
      terminator does not start an empty last line. */
  function SplitLines(s: string): (lines: seq<string>)
    ensures forall k :: 0 <= k < |lines| ==> NoLineBreak(lines[k])
    decreases |s|
  {
    if s == [] then []
    else
      var e := Span(s, IsLineBreak);
      var next := if e == |s| then e
                  else if s[e] == '\r' && e + 1 < |s| && s[e + 1] == '\n' then e + 2
                  else e + 1;
      [s[..e]] + SplitLines(s[next..])
  }

  /** The text whose lines are `lines`, each terminated by `\n`. */
  function Terminated(lines: seq<string>): string {
    if lines == [] then [] else lines[0] + "\n" + Terminated(lines[1..])
  }

  /** `splitlines` undoes writing the lines out one per `\n`-terminated line. */
  lemma {:induction false} SplitLinesTerminated(lines: seq<string>)
    requires forall k :: 0 <= k < |lines| ==> NoLineBreak(lines[k])
    ensures SplitLines(Terminated(lines)) == lines
  {
    if lines != [] {
      var l, rest := lines[0], Terminated(lines[1..]);
      var s := l + ("\n" + rest);
      assert Terminated(lines) == s;
      SpanStopsAt(l, "\n" + rest, IsLineBreak);
      assert s[|l|] == '\n';
      assert s[..|l|] == l;
      assert s[|l| + 1..] == rest;
      SplitLinesTerminated(lines[1..]);
    }
  }

  lemma {:induction false} SpanStopsAt(a: string, b: string, stop: char -> bool)
    requires forall i :: 0 <= i < |a| ==> !stop(a[i])
    requires b != [] && stop(b[0])
    ensures Span(a + b, stop) == |a|
  {
    if a != [] {
      assert (a + b)[1..] == a[1..] + b;
      SpanStopsAt(a[1..], b, stop);
    } else {
      assert a + b == b;
    }
  }

  lemma {:induction false} SpanWhole(a: string, stop: char -> bool)
    requires forall i :: 0 <= i < |a| ==> !stop(a[i])
    ensures Span(a, stop) == |a|
  {
    if a != [] { SpanWhole(a[1..], stop); }
  }

  // ---------------------------------------------------------------- strip

  /** `s.lstrip()`: drops the leading blanks. */
  function LStrip(s: string): (r: string)
    ensures |r| <= |s| && r == s[|s| - |r|..]
    ensures AllSpace(s[..|s| - |r|])
    ensures r == [] || !IsSpace(r[0])
  {
    if s != [] && IsSpace(s[0]) then LStrip(s[1..]) else s
  }

  /** `s.rstrip()`: drops the trailing blanks. */
  function RStrip(s: string): (r: string)
    ensures |r| <= |s| && r == s[..|r|]
    ensures AllSpace(s[|r|..])
    ensures r == [] || !IsSpace(r[|r| - 1])
  {
    if s != [] && IsSpace(s[|s| - 1]) then RStrip(s[..|s| - 1]) else s
  }

  /** `s.strip()`. */
  function Strip(s: string): string {
    RStrip(LStrip(s))
  }

  /** `s.strip() == ""` exactly when every character of `s` is blank. */
  lemma StripEmpty(s: string)
    ensures Strip(s) == [] <==> AllSpace(s)
  {
    if AllSpace(s) {
      LStripAllSpace(s);
    } else if LStrip(s) != [] {
      assert RStrip(LStrip(s)) != [];
    }
  }

  lemma {:induction false} LStripAllSpace(s: string)
    requires AllSpace(s)
    ensures LStrip(s) == []
  {
    if s != [] { LStripAllSpace(s[1..]); }
  }

  lemma {:induction false} LStripAppend(q: string, post: string)
    ensures LStrip(q + post) == if AllSpace(q) then LStrip(post) else LStrip(q) + post
  {
    if q == [] {
      assert q + post == post;
    } else {
      var s := q + post;
      assert s[0] == q[0];
      if IsSpace(q[0]) {
        assert s[1..] == q[1..] + post;
        assert AllSpace(q) == AllSpace(q[1..]) by {
          assert forall i :: 0 <= i < |q[1..]| ==> q[1..][i] == q[i + 1];
        }
        assert LStrip(s) == LStrip(q[1..] + post);
        assert LStrip(q) == LStrip(q[1..]);
        LStripAppend(q[1..], post);
      } else {
        assert !AllSpace(q);
        assert LStrip(s) == s && LStrip(q) == q;
      }
    }
  }

  lemma {:induction false} RStripAllSpaceSuffix(x: string, post: string)
    requires AllSpace(post)
    ensures RStrip(x + post) == RStrip(x)
  {
    if post == [] {
      assert x + post == x;
    } else {
      assert (x + post)[..|x + post| - 1] == x + post[..|post| - 1];
      RStripAllSpaceSuffix(x, post[..|post| - 1]);
    }
  }

  /** Blanks around a string do not change what `strip` returns. */
  lemma StripSurrounding(pre: string, q: string, post: string)
    requires AllSpace(pre) && AllSpace(post)
    ensures Strip(pre + q + post) == Strip(q)
  {
    assert pre + q + post == pre + (q + post);
    LStripAppend(pre, q + post);
    LStripAppend(q, post);
    if AllSpace(q) {
      LStripAllSpace(post);
      LStripAllSpace(q);
    } else {
      RStripAllSpaceSuffix(LStrip(q), post);
    }
  }

  // ---------------------------------------------------------------- split

  /** `s.split()`: the maximal runs of non-blank characters, in order. */
  function Split(s: string): (fields: seq<string>)
    ensures Words(fields)
    decreases |s|
  {
    var t := LStrip(s);
    if t == [] then []
    else
      var w := Span(t, IsSpace);
      assert w > 0 && NoSpace(t[..w]) by {
        assert forall i :: 0 <= i < w ==> t[..w][i] == t[i];
      }
      var rest := Split(t[w..]);
      WordsCons(t[..w], rest);
      [t[..w]] + rest
  }

  lemma WordsCons(f: string, rest: seq<string>)
    requires f != [] && NoSpace(f) && Words(rest)
    ensures Words([f] + rest)
  {
    forall k | 1 <= k < |rest| + 1
      ensures ([f] + rest)[k] == rest[k - 1]
    {
    }
  }

  /** The fields joined with single spaces. */
  function Join(fields: seq<string>): string {
    if fields == [] then []
    else if |fields| == 1 then fields[0]
    else fields[0] + " " + Join(fields[1..])
  }

  lemma SplitWord(f: string)
    requires f != [] && NoSpace(f)
    ensures Split(f) == [f]
  {
    assert LStrip(f) == f;
    SpanWhole(f, IsSpace);
    assert f[..|f|] == f;
    assert f[|f|..] == [];
    assert Split([]) == [];
  }

  lemma SplitWordThen(f: string, rest: string)
    requires f != [] && NoSpace(f)
    ensures Split(f + " " + rest) == [f] + Split(rest)
  {
    var s := f + (" " + rest);
    assert f + " " + rest == s;
    LStripAppend(f, " " + rest);
    assert LStrip(f) == f;
    assert LStrip(s) == s;
    SpanStopsAt(f, " " + rest, IsSpace);
    assert s[..|f|] == f;
    assert s[|f|..] == " " + rest;
    assert Split(s) == [f] + Split(" " + rest);
    SplitBlankThen(rest);
  }

  lemma SplitBlankThen(rest: string)
    ensures Split(" " + rest) == Split(rest)
  {
    assert (" " + rest)[1..] == rest;
    assert LStrip(" " + rest) == LStrip(rest);
  }

  /** Each field is a non-empty run of non-blank characters. */
  predicate Words(fields: seq<string>) {
    forall k :: 0 <= k < |fields| ==> fields[k] != [] && NoSpace(fields[k])
  }
  /** `split()` recovers fields that were joined with single spaces. */
  lemma {:induction false} SplitJoin(fields: seq<string>)
    requires Words(fields)
    ensures Split(Join(fields)) == fields
  {
    if |fields| == 0 {
      assert Split([]) == [];
    } else if |fields| == 1 {
      SplitWord(fields[0]);
    } else {
      var f, tail := fields[0], fields[1..];
      assert fields == [f] + tail;
      assert f != [] && NoSpace(f);
      assert Words(tail) by {
        forall k | 0 <= k < |tail|
          ensures tail[k] == fields[k + 1]
        {
        }
      }
      calc {
        Split(Join(fields));
      == { JoinCons(f, tail); }
        [f] + Split(Join(tail));
      == { SplitJoin(tail); }
        [f] + tail;
      }
    }
  }

  lemma JoinCons(f: string, tail: seq<string>)
    requires f != [] && NoSpace(f) && tail != []
    ensures Split(Join([f] + tail)) == [f] + Split(Join(tail))
  {
    assert ([f] + tail)[1..] == tail;
    SplitWordThen(f, Join(tail));
  }

  // ---------------------------------------------------------------- case, prefixes, substrings

  /** `c.lower()` for the characters whose lower case is ASCII: `A`-`Z` and
      the Kelvin sign U+212A (which Python lowers to `k`). */
  function LowerChar(c: char): (r: char)
    ensures IsSpace(r) == IsSpace(c)
    ensures 'A' <= c <= 'Z' ==> r as int == c as int + 32
  {
    if 'A' <= c <= 'Z' then (c as int + 32) as char
    else if c == '\U{212A}' then 'k'
    else c
  }

  function Lower(s: string): (r: string)
    ensures |r| == |s|
  {
    seq(|s|, i requires 0 <= i < |s| => LowerChar(s[i]))
  }

  lemma {:induction false} LowerLStrip(s: string)
    ensures Lower(LStrip(s)) == LStrip(Lower(s))
  {
    if s != [] {
      assert Lower(s)[1..] == Lower(s[1..]);
      if IsSpace(s[0]) { LowerLStrip(s[1..]); }
    }
  }

  lemma {:induction false} LowerRStrip(s: string)
    ensures Lower(RStrip(s)) == RStrip(Lower(s))
  {
    if s != [] {
      assert Lower(s)[..|s| - 1] == Lower(s[..|s| - 1]);
      if IsSpace(s[|s| - 1]) { LowerRStrip(s[..|s| - 1]); }
    }
  }

  /** Lowering and stripping commute, since no blank has a case. */
  lemma LowerStrip(s: string)
    ensures Lower(Strip(s)) == Strip(Lower(s))
  {
    LowerRStrip(LStrip(s));
    LowerLStrip(s);
  }

  /** `s.startswith(prefix)`. */
  predicate StartsWith(s: string, prefix: string) {
    |prefix| <= |s| && s[..|prefix|] == prefix
  }

  /** `sub in s`. */
  predicate Contains(s: string, sub: string)
    decreases |s|
  {
    StartsWith(s, sub) || (s != [] && Contains(s[1..], sub))
  }

  /** An occurrence of `sub` at any position of `s` makes `Contains` true. */
  lemma {:induction false} ContainsAt(s: string, sub: string, i: nat)
    requires i + |sub| <= |s|
    ensures s[i..i + |sub|] == sub ==> Contains(s, sub)
  {
    if i > 0 {
      assert s[1..][i - 1..i - 1 + |sub|] == s[i..i + |sub|];
      ContainsAt(s[1..], sub, i - 1);
    }
  }

  /** `sub` occurs in `s` starting at position `i`. */
  predicate OccursAt(s: string, sub: string, i: int) {
    0 <= i && i + |sub| <= |s| && s[i..i + |sub|] == sub
  }

  /** Conversely, when `Contains` holds, `sub` occurs at some position of `s`. */
  lemma {:induction false} ContainsOccurs(s: string, sub: string)
    requires Contains(s, sub)
    ensures exists i :: OccursAt(s, sub, i)
    decreases |s|
  {
    if !StartsWith(s, sub) {
      ContainsOccurs(s[1..], sub);
      var i :| OccursAt(s[1..], sub, i);
      assert s[i + 1..i + 1 + |sub|] == s[1..][i..i + |sub|];
      assert OccursAt(s, sub, i + 1);
    } else {
      assert OccursAt(s, sub, 0);
    }
  }
}
