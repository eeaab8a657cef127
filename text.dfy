/** The Python string built-ins the generator relies on: `str.split()` with no
    argument, `str.lower()` as far as the boolean test needs it, `str.join`, and
    the identifier regular expression `^[A-Za-z_][A-Za-z0-9_]*$`. */
module Text {

  /** Python's `str.isspace()` on one character: the characters `str.split()` with
      no argument splits on. */
  predicate IsSpace(c: char) {
    var n := c as int;
    || (0x09 <= n <= 0x0D) || (0x1C <= n <= 0x20)
    || n == 0x85 || n == 0xA0 || n == 0x1680
    || (0x2000 <= n <= 0x200A) || n == 0x2028 || n == 0x2029
    || n == 0x202F || n == 0x205F || n == 0x3000
  }

  predicate NoSpace(s: string) {
    forall i :: 0 <= i < |s| ==> !IsSpace(s[i])
  }

  /** One element of what `str.split()` returns: never empty, never whitespace. */
  predicate IsToken(t: string) {
    |t| > 0 && NoSpace(t)
  }

  /** The characters of `s` that are not whitespace, in order. */
  function NonSpace(s: string): (r: string)
    ensures NoSpace(r) && |r| <= |s|
  {
    if s == [] then []
    else if IsSpace(s[0]) then NonSpace(s[1..])
    else [s[0]] + NonSpace(s[1..])
  }

  function Concat(ts: seq<string>): string {
    if ts == [] then [] else ts[0] + Concat(ts[1..])
  }

  /** Where part `k` of `Concat(ts)` starts: the total length of the parts before it. */
  function Start(ts: seq<string>, k: nat): nat
    requires k <= |ts|
  {
    if k == 0 then 0 else |ts[0]| + Start(ts[1..], k - 1)
  }

  /** Part `k` of a concatenation stands at its start. */
  lemma {:induction false} ConcatAt(ts: seq<string>, k: nat, x: nat, y: nat)
    requires k < |ts| && x <= y <= |ts[k]|
    ensures Start(ts, k) + y <= |Concat(ts)|
    ensures Concat(ts)[Start(ts, k) + x..Start(ts, k) + y] == ts[k][x..y]
  {
    ConcatLength(ts[1..]);
    if k == 0 {
      assert Concat(ts)[x..y] == (ts[0] + Concat(ts[1..]))[x..y];
    } else {
      ConcatAt(ts[1..], k - 1, x, y);
      var rest := Concat(ts[1..]);
      var a := Start(ts[1..], k - 1);
      assert Concat(ts)[|ts[0]| + a + x..|ts[0]| + a + y] == rest[a + x..a + y];
    }
  }

  lemma {:induction false} ConcatLength(ts: seq<string>)
    ensures |Concat(ts)| == Start(ts, |ts|)
  {
    if ts != [] {
      ConcatLength(ts[1..]);
    }
  }

  /** `s.split()`: the maximal runs of non-whitespace characters of `s`, in order. */
  function Split(s: string): (tokens: seq<string>)
    ensures forall i :: 0 <= i < |tokens| ==> IsToken(tokens[i])
  {
    SplitFrom(s, [])
  }

  /** Scans `s` with `cur` the token read so far. */
  function SplitFrom(s: string, cur: string): (tokens: seq<string>)
    requires NoSpace(cur)
    ensures forall i :: 0 <= i < |tokens| ==> IsToken(tokens[i])
    decreases |s|
  {
    if s == [] then
      (if cur == [] then [] else [cur])
    else if IsSpace(s[0]) then
      (if cur == [] then SplitFrom(s[1..], []) else [cur] + SplitFrom(s[1..], []))
    else
      SplitFrom(s[1..], cur + [s[0]])
  }

  /** Splitting loses exactly the whitespace: the tokens put back together are
      the non-whitespace characters of the input. */
  lemma {:induction false} SplitFromKeepsText(s: string, cur: string)
    requires NoSpace(cur)
    ensures Concat(SplitFrom(s, cur)) == cur + NonSpace(s)
    decreases |s|
  {
    if s == [] {
      if cur != [] {
        assert Concat([cur]) == cur + Concat([]);
      }
    } else if IsSpace(s[0]) {
      SplitFromKeepsText(s[1..], []);
      if cur != [] {
        assert Concat([cur] + SplitFrom(s[1..], [])) == cur + Concat(SplitFrom(s[1..], []));
      }
    } else {
      SplitFromKeepsText(s[1..], cur + [s[0]]);
      assert cur + NonSpace(s) == (cur + [s[0]]) + NonSpace(s[1..]);
    }
  }

  lemma SplitKeepsText(s: string)
    ensures Concat(Split(s)) == NonSpace(s)
  {
    SplitFromKeepsText(s, []);
  }

  lemma {:induction false} SplitFromToken(s: string, cur: string)
    requires NoSpace(cur) && NoSpace(s) && |cur + s| > 0
    ensures SplitFrom(s, cur) == [cur + s]
    decreases |s|
  {
    if s == [] {
      assert cur + s == cur;
    } else {
      assert !IsSpace(s[0]);
      SplitFromToken(s[1..], cur + [s[0]]);
      assert (cur + [s[0]]) + s[1..] == cur + s;
    }
  }

  /** A key without whitespace is split into itself alone. */
  lemma SplitToken(s: string)
    requires IsToken(s)
    ensures Split(s) == [s]
  {
    SplitFromToken(s, []);
    assert [] + s == s;
  }

  predicate AllSpace(s: string) {
    forall i :: 0 <= i < |s| ==> IsSpace(s[i])
  }

  lemma {:induction false} SplitFromWord(a: string, rest: string, cur: string)
    requires NoSpace(a) && NoSpace(cur)
    ensures SplitFrom(a + rest, cur) == SplitFrom(rest, cur + a)
    decreases |a|
  {
    if a == [] {
      assert a + rest == rest && cur + a == cur;
    } else {
      assert (a + rest)[0] == a[0] && (a + rest)[1..] == a[1..] + rest;
      SplitFromWord(a[1..], rest, cur + [a[0]]);
      assert (cur + [a[0]]) + a[1..] == cur + a;
    }
  }

  lemma {:induction false} SplitFromSpaces(sp: string, rest: string)
    requires AllSpace(sp)
    ensures SplitFrom(sp + rest, []) == SplitFrom(rest, [])
    decreases |sp|
  {
    if sp != [] {
      assert (sp + rest)[0] == sp[0] && (sp + rest)[1..] == sp[1..] + rest;
      SplitFromSpaces(sp[1..], rest);
    } else {
      assert sp + rest == rest;
    }
  }

  /** Two tokens with whitespace between them split into exactly those two. */
  lemma SplitTwo(a: string, sep: string, b: string)
    requires IsToken(a) && IsToken(b) && |sep| > 0 && AllSpace(sep)
    ensures Split(a + sep + b) == [a, b]
  {
    SplitFromWord(a, sep + b, []);
    assert a + sep + b == a + (sep + b);
    assert [] + a == a;
    assert (sep + b)[0] == sep[0] && (sep + b)[1..] == sep[1..] + b;
    SplitFromSpaces(sep[1..], b);
    SplitFromToken(b, []);
    assert [] + b == b;
  }

  /** `str.lower()` on ASCII letters. */
  function LowerChar(c: char): (r: char)
    ensures 'A' <= c <= 'Z' ==> r as int == c as int + 32
    ensures !('A' <= c <= 'Z') ==> r == c
  {
    if 'A' <= c <= 'Z' then (c as int + 32) as char else c
  }

  function Lower(s: string): (r: string)
    ensures |r| == |s|
    ensures forall i :: 0 <= i < |s| ==> r[i] == LowerChar(s[i])
  {
    seq(|s|, i requires 0 <= i < |s| => LowerChar(s[i]))
  }

  predicate IsIdentStart(c: char) {
    ('A' <= c <= 'Z') || ('a' <= c <= 'z') || c == '_'
  }

  predicate IsIdentPart(c: char) {
    IsIdentStart(c) || ('0' <= c <= '9')
  }

  /** A match of `^[A-Za-z_][A-Za-z0-9_]*$` against the whole string. */
  predicate IsIdentifier(s: string) {
    |s| > 0 && IsIdentStart(s[0]) && forall i :: 1 <= i < |s| ==> IsIdentPart(s[i])
  }

  /** An identifier never holds whitespace, so `split()` keeps it whole. */
  lemma IdentifierIsToken(s: string)
    requires IsIdentifier(s)
    ensures IsToken(s) && Split(s) == [s]
  {
    assert forall i :: 0 <= i < |s| ==> !IsSpace(s[i]) by {
      forall i | 0 <= i < |s| ensures !IsSpace(s[i]) {
        if i > 0 { assert IsIdentPart(s[i]); }
      }
    }
    SplitToken(s);
  }

  /** `sep.join(xs)`. */
  function Join(sep: string, xs: seq<string>): string {
    if |xs| == 0 then []
    else if |xs| == 1 then xs[0]
    else xs[0] + sep + Join(sep, xs[1..])
  }

  /** Where the `i`-th piece starts inside `Join(sep, xs)`. */
  function Offset(sep: string, xs: seq<string>, i: nat): nat
    requires i <= |xs|
  {
    if i == 0 then 0 else |xs[0]| + |sep| + Offset(sep, xs[1..], i - 1)
  }

  /** Every piece of a join appears whole, at its offset, in order, and
      consecutive pieces are separated by exactly one `sep`. */
  lemma {:induction false} JoinAt(sep: string, xs: seq<string>, i: nat)
    requires i < |xs|
    ensures Offset(sep, xs, i) + |xs[i]| <= |Join(sep, xs)|
    ensures Join(sep, xs)[Offset(sep, xs, i)..Offset(sep, xs, i) + |xs[i]|] == xs[i]
    ensures i + 1 < |xs| ==>
      Offset(sep, xs, i) + |xs[i]| <= Offset(sep, xs, i + 1) <= |Join(sep, xs)| &&
      Join(sep, xs)[Offset(sep, xs, i) + |xs[i]|..Offset(sep, xs, i + 1)] == sep
  {
    if i == 0 {
      if |xs| > 1 {
        assert Offset(sep, xs[1..], 0) == 0;
      }
    } else {
      JoinAt(sep, xs[1..], i - 1);
      assert Offset(sep, xs, i) == |xs[0]| + |sep| + Offset(sep, xs[1..], i - 1);
      assert xs[1..][i - 1] == xs[i];
    }
  }

  /** Nothing but the pieces and the separators: the length of a join. */
  lemma {:induction false} JoinLength(sep: string, xs: seq<string>)
    requires |xs| > 0
    ensures |Join(sep, xs)| + |sep| == Offset(sep, xs, |xs|)
  {
    if |xs| > 1 {
      JoinLength(sep, xs[1..]);
    } else {
      assert Offset(sep, xs[1..], 0) == 0;
    }
  }
}
