/** The Python 2 string and list primitives the converter is built from:
    `isspace`, `isdigit`, `strip`, `rstrip`, `split()`, `split(c)`,
    `rsplit(c, 1)`, `join`, `replace(a, b, 1)`, `startswith`, `in`, slicing
    with negative indices and `[::-1]`. Python 2 `str` is a byte string, so
    whitespace is the six ASCII blanks. */
module Text {
  import opened Wrappers

  /** `c.isspace()` */
  predicate IsSpace(c: char) {
    c == ' ' || c == '\t' || c == '\n' || c == '\r' || c == '\U{000B}' || c == '\U{000C}'
  }

  /** `c.isdigit()` */
  predicate IsDigit(c: char) {
    '0' <= c <= '9'
  }

  predicate NoSpace(s: string) {
    forall i :: 0 <= i < |s| ==> !IsSpace(s[i])
  }

  predicate AllSpace(s: string) {
    forall i :: 0 <= i < |s| ==> IsSpace(s[i])
  }

  /** A token of `str.split()`: a non-empty run of non-blank characters. */
  predicate IsToken(t: string) {
    |t| > 0 && NoSpace(t)
  }

  /** `s.startswith(p)` */
  predicate StartsWith(s: string, p: string) {
    |p| <= |s| && s[..|p|] == p
  }

  /** `x` occurs in `s` starting at position `i`. */
  predicate OccursAt(x: string, s: string, i: int) {
    0 <= i <= |s| - |x| && s[i..i + |x|] == x
  }

  /** `x in s` on strings. */
  predicate IsSubstring(x: string, s: string) {
    exists i | 0 <= i <= |s| - |x| :: OccursAt(x, s, i)
  }

  /** The first position of `x` in `s`, or `|s|` when there is none. */
  function IndexOf<T(==)>(s: seq<T>, x: T): (i: nat)
    ensures i <= |s|
    ensures forall k :: 0 <= k < i ==> s[k] != x
    ensures i < |s| ==> s[i] == x
  {
    if |s| == 0 then 0 else if s[0] == x then 0 else 1 + IndexOf(s[1..], x)
  }

  /** Looking for `y` in a list grown by one element. */
  lemma {:induction false} IndexOfSnoc<T>(s: seq<T>, x: T, y: T)
    ensures IndexOf(s + [x], y) == if IndexOf(s, y) < |s| then IndexOf(s, y) else if x == y then |s| else |s| + 1
    decreases |s|
  {
    if |s| == 0 {
      assert s + [x] == [x];
      assert [x][1..] == [];
    } else if s[0] != y {
      assert (s + [x])[1..] == s[1..] + [x];
      IndexOfSnoc(s[1..], x, y);
    }
  }

  /** `s[::-1]` */
  function Reverse<T>(s: seq<T>): (r: seq<T>)
    ensures |r| == |s|
  {
    seq(|s|, k requires 0 <= k < |s| => s[|s| - 1 - k])
  }

  /** How Python clamps a slice bound `i` on a sequence of length `n`. */
  function PyIndex(i: int, n: nat): (r: nat)
    ensures r <= n
    ensures 0 <= i <= n ==> r == i
    ensures i > n ==> r == n
    ensures i < 0 && n + i >= 0 ==> r == n + i
    ensures n + i < 0 ==> r == 0
  {
    if i < 0 then (if i + n < 0 then 0 else i + n) else if i > n then n else i
  }

  /** `s[start:stop]` with Python's treatment of negative and out-of-range bounds. */
  function PySlice<T>(s: seq<T>, start: int, stop: int): seq<T> {
    var a, b := PyIndex(start, |s|), PyIndex(stop, |s|);
    if a < b then s[a..b] else []
  }

  /** `s.rstrip()` */
  function RStrip(s: string): (r: string)
    ensures |r| <= |s| && r == s[..|r|]
    ensures r == [] || !IsSpace(r[|r| - 1])
    ensures forall k :: |r| <= k < |s| ==> IsSpace(s[k])
    decreases |s|
  {
    if |s| > 0 && IsSpace(s[|s| - 1]) then RStrip(s[..|s| - 1]) else s
  }

  /** `s.lstrip()` */
  function LStrip(s: string): (r: string)
    ensures |r| <= |s| && r == s[|s| - |r|..]
    ensures r == [] || !IsSpace(r[0])
    ensures AllSpace(s[..|s| - |r|])
    decreases |s|
  {
    if |s| > 0 && IsSpace(s[0]) then LStrip(s[1..]) else s
  }

  /** `s.strip()`: what is left has no blank at either end, and only blanks
      were removed around it. */
  function Strip(s: string): (r: string)
    ensures r == [] || (!IsSpace(r[0]) && !IsSpace(r[|r| - 1]))
    ensures exists k :: 0 <= k <= |s| - |r| && s[k..k + |r|] == r && AllSpace(s[..k]) && AllSpace(s[k + |r|..])
  {
    var t := RStrip(s);
    var r := LStrip(t);
    var k := |t| - |r|;
    assert s[k..k + |r|] == r;
    assert s[..k] == t[..k];
    assert s[k + |r|..] == s[|t|..];
    r
  }

  /** `sep.join(parts)` */
  function Join(sep: string, parts: seq<string>): string {
    if |parts| == 0 then ""
    else if |parts| == 1 then parts[0]
    else parts[0] + sep + Join(sep, parts[1..])
  }

  lemma {:induction false} JoinSnoc(sep: string, parts: seq<string>, x: string)
    ensures Join(sep, parts + [x]) == if parts == [] then x else Join(sep, parts) + sep + x
    decreases |parts|
  {
    if |parts| > 1 {
      assert (parts + [x])[1..] == parts[1..] + [x];
      JoinSnoc(sep, parts[1..], x);
    } else if |parts| == 1 {
      assert (parts + [x])[1..] == [x];
    }
  }

  /** Joining two non-empty lists is joining each and putting `sep` between. */
  lemma {:induction false} JoinAppend(sep: string, xs: seq<string>, ys: seq<string>)
    requires |xs| > 0 && |ys| > 0
    ensures Join(sep, xs + ys) == Join(sep, xs) + sep + Join(sep, ys)
    decreases |xs|
  {
    if |xs| == 1 {
      assert (xs + ys)[1..] == ys;
    } else {
      assert (xs + ys)[1..] == xs[1..] + ys;
      JoinAppend(sep, xs[1..], ys);
    }
  }

  /** A join of non-empty parts starts with the first part's first character
      and ends with the last part's last character. */
  lemma {:induction false} JoinEnds(sep: string, parts: seq<string>)
    requires |parts| > 0
    requires forall k :: 0 <= k < |parts| ==> |parts[k]| > 0
    ensures |Join(sep, parts)| > 0 && Join(sep, parts)[0] == parts[0][0]
    ensures Join(sep, parts)[|Join(sep, parts)| - 1] == parts[|parts| - 1][|parts[|parts| - 1]| - 1]
    decreases |parts|
  {
    if |parts| > 1 {
      JoinEnds(sep, parts[1..]);
    }
  }

  /** The end of the run of non-blank characters that starts at `i`. */
  function TokenEnd(s: string, i: nat): (n: nat)
    requires i <= |s|
    ensures i <= n <= |s|
    ensures forall k :: i <= k < n ==> !IsSpace(s[k])
    ensures n < |s| ==> IsSpace(s[n])
    decreases |s| - i
  {
    if i == |s| || IsSpace(s[i]) then i else TokenEnd(s, i + 1)
  }

  /** `s.split()`: the maximal runs of non-blank characters, in order. */
  function Split(s: string): (r: seq<string>)
    ensures forall k :: 0 <= k < |r| ==> IsToken(r[k])
    decreases |s|
  {
    if |s| == 0 then []
    else if IsSpace(s[0]) then Split(s[1..])
    else
      var n := TokenEnd(s, 0);
      [s[..n]] + Split(s[n..])
  }

  /** A text laid out as blank runs around tokens: `gaps[0] + ts[0] +
      gaps[1] + ... + ts[n - 1] + gaps[n]`. */
  function Weave(gaps: seq<string>, ts: seq<string>): string
    requires |gaps| == |ts| + 1
    decreases |ts|
  {
    if |ts| == 0 then gaps[0] else gaps[0] + ts[0] + Weave(gaps[1..], ts[1..])
  }

  /** `gaps` can sit around `n` tokens: all blanks, and every gap between two
      tokens is non-empty, so that each token is a maximal non-blank run. */
  predicate Separates(gaps: seq<string>, n: nat) {
    && |gaps| == n + 1
    && (forall k :: 0 <= k <= n ==> AllSpace(gaps[k]))
    && (forall k :: 0 < k < n ==> |gaps[k]| > 0)
  }

  /** Leading blanks are skipped by `split()`. */
  lemma {:induction false} SplitSkipsBlanks(b: string, x: string)
    requires AllSpace(b)
    ensures Split(b + x) == Split(x)
    decreases |b|
  {
    if |b| > 0 {
      assert (b + x)[0] == b[0];
      assert (b + x)[1..] == b[1..] + x;
      SplitSkipsBlanks(b[1..], x);
    } else {
      assert b + x == x;
    }
  }

  /** `split()` returns exactly the tokens of any such layout: the tokens
      are the maximal non-blank runs, in order. */
  lemma {:induction false} SplitWeave(gaps: seq<string>, ts: seq<string>)
    requires Separates(gaps, |ts|)
    requires forall k :: 0 <= k < |ts| ==> IsToken(ts[k])
    ensures Split(Weave(gaps, ts)) == ts
    decreases |ts|
  {
    if |ts| == 0 {
      SplitSkipsBlanks(gaps[0], "");
      assert gaps[0] + "" == gaps[0];
    } else {
      var rest := Weave(gaps[1..], ts[1..]);
      assert Separates(gaps[1..], |ts| - 1);
      SplitWeave(gaps[1..], ts[1..]);
      assert rest == [] || IsSpace(rest[0]) by {
        if |ts| > 1 {
          assert gaps[1..][0] == gaps[1];
          assert rest == gaps[1] + ts[1] + Weave(gaps[2..], ts[2..]) by {
            assert gaps[1..][1..] == gaps[2..] && ts[1..][1..] == ts[2..];
          }
          assert rest[0] == gaps[1][0];
        }
      }
      SplitTokenThen(ts[0], rest);
      SplitSkipsBlanks(gaps[0], ts[0] + rest);
      assert Weave(gaps, ts) == gaps[0] + (ts[0] + rest);
      assert ts == [ts[0]] + ts[1..];
    }
  }

  /** Every text is laid out as blank runs around the tokens `split()`
      returns, so the tokens and the blanks between them give the text
      back. */
  lemma {:induction false} SplitDecomposes(s: string) returns (gaps: seq<string>)
    ensures Separates(gaps, |Split(s)|)
    ensures Weave(gaps, Split(s)) == s
    decreases |s|
  {
    if |s| == 0 {
      gaps := [""];
    } else if IsSpace(s[0]) {
      var g := SplitDecomposes(s[1..]);
      gaps := GapsBlank(s[0], s[1..], g);
      assert s == [s[0]] + s[1..];
    } else {
      var n := TokenEnd(s, 0);
      var g := SplitDecomposes(s[n..]);
      gaps := GapsToken(s[..n], s[n..], g);
      assert s == s[..n] + s[n..];
    }
  }

  /** A blank in front widens the first gap. */
  lemma GapsBlank(c: char, x: string, g: seq<string>) returns (gaps: seq<string>)
    requires IsSpace(c)
    requires Separates(g, |Split(x)|) && Weave(g, Split(x)) == x
    ensures Split([c] + x) == Split(x)
    ensures Separates(gaps, |Split(x)|) && Weave(gaps, Split(x)) == [c] + x
  {
    gaps := [[c] + g[0]] + g[1..];
    assert ([c] + x)[1..] == x;
    assert gaps[1..] == g[1..];
    assert AllSpace(gaps[0]) by {
      assert forall i :: 0 < i < |gaps[0]| ==> gaps[0][i] == g[0][i - 1];
    }
  }

  /** A token in front adds an empty first gap. */
  lemma GapsToken(t: string, x: string, g: seq<string>) returns (gaps: seq<string>)
    requires IsToken(t) && (x == [] || IsSpace(x[0]))
    requires Separates(g, |Split(x)|) && Weave(g, Split(x)) == x
    ensures Split(t + x) == [t] + Split(x)
    ensures Separates(gaps, |Split(t + x)|) && Weave(gaps, Split(t + x)) == t + x
  {
    var ts := Split(x);
    SplitTokenThen(t, x);
    gaps := [""] + g;
    assert gaps[1..] == g;
    assert ([t] + ts)[1..] == ts;
    if |ts| > 0 {
      WeaveStart(g, ts);
    }
  }

  /** A layout whose first gap is empty starts with its first token. */
  lemma WeaveStart(gaps: seq<string>, ts: seq<string>)
    requires |gaps| == |ts| + 1 && |ts| > 0 && IsToken(ts[0])
    ensures |Weave(gaps, ts)| > 0
    ensures Weave(gaps, ts)[0] == if |gaps[0]| > 0 then gaps[0][0] else ts[0][0]
  {
    assert Weave(gaps, ts) == gaps[0] + ts[0] + Weave(gaps[1..], ts[1..]);
  }

  /** Splitting a token followed by a blank (or by nothing) takes the token first. */
  lemma SplitTokenThen(t: string, rest: string)
    requires IsToken(t)
    requires rest == [] || IsSpace(rest[0])
    ensures Split(t + rest) == [t] + Split(rest)
  {
    var s := t + rest;
    var n := TokenEnd(s, 0);
    assert forall k :: 0 <= k < |t| ==> s[k] == t[k];
    assert |t| < |s| ==> s[|t|] == rest[0];
    assert s[..n] == t;
    assert s[n..] == rest;
  }

  /** `" ".join` followed by `split()` gives the tokens back. */
  lemma {:induction false} SplitJoin(ts: seq<string>)
    requires forall k :: 0 <= k < |ts| ==> IsToken(ts[k])
    ensures Split(Join(" ", ts)) == ts
    decreases |ts|
  {
    if |ts| == 1 {
      SplitTokenThen(ts[0], "");
      assert ts[0] + "" == ts[0];
    } else if |ts| > 1 {
      var j := Join(" ", ts[1..]);
      SplitTokenThen(ts[0], " " + j);
      assert Join(" ", ts) == ts[0] + (" " + j);
      assert (" " + j)[1..] == j;
      SplitJoin(ts[1..]);
      assert ts == [ts[0]] + ts[1..];
    }
  }

  /** `s.split(c)`: the pieces between occurrences of `c`; always one more
      piece than there are occurrences. */
  function SplitOn(s: string, c: char): (r: seq<string>)
    ensures |r| > 0
    ensures forall k :: 0 <= k < |r| ==> c !in r[k]
    ensures Join([c], r) == s
    decreases |s|
  {
    var i := IndexOf(s, c);
    if i == |s| then
      assert c !in s;
      [s]
    else
      assert c !in s[..i];
      var rest := SplitOn(s[i + 1..], c);
      assert ([s[..i]] + rest)[1..] == rest;
      assert s == s[..i] + [c] + s[i + 1..];
      [s[..i]] + rest
  }

  /** Splitting on `c` inverts joining with `c`. */
  lemma {:induction false} SplitOnJoin(parts: seq<string>, c: char)
    requires |parts| > 0
    requires forall k :: 0 <= k < |parts| ==> c !in parts[k]
    ensures SplitOn(Join([c], parts), c) == parts
    decreases |parts|
  {
    var s := Join([c], parts);
    var i := IndexOf(s, c);
    if |parts| == 1 {
      assert c !in s;
    } else {
      var p := parts[0];
      var rest := Join([c], parts[1..]);
      assert s == p + [c] + rest;
      assert forall k :: 0 <= k < |p| ==> s[k] == p[k];
      assert s[|p|] == c;
      assert i == |p|;
      assert s[..i] == p;
      assert s[i + 1..] == rest;
      SplitOnJoin(parts[1..], c);
      assert parts == [p] + parts[1..];
    }
  }

  /** `s.rsplit(c, 1)` when it yields two pieces: the text before and after
      the last `c`; `None` when `c` does not occur. */
  function RSplitOnce(s: string, c: char): (r: Option<(string, string)>)
    ensures r.None? <==> c !in s
    ensures r.Some? ==> s == r.value.0 + [c] + r.value.1 && c !in r.value.1
    decreases |s|
  {
    if |s| == 0 then None
    else if s[|s| - 1] == c then Some((s[..|s| - 1], ""))
    else
      match RSplitOnce(s[..|s| - 1], c)
      case None =>
        assert s == s[..|s| - 1] + [s[|s| - 1]];
        None
      case Some(p) =>
        assert s == s[..|s| - 1] + [s[|s| - 1]];
        Some((p.0, p.1 + [s[|s| - 1]]))
  }

  /** `s.replace(a, b, 1)` for one-character `a` and `b`. */
  function ReplaceFirst(s: string, a: char, b: char): (r: string)
    ensures |r| == |s|
  {
    if |s| == 0 then s
    else if s[0] == a then [b] + s[1..]
    else [s[0]] + ReplaceFirst(s[1..], a, b)
  }

  /** Only the first `a` is replaced; without an `a` nothing changes. */
  lemma {:induction false} ReplaceFirstAt(x: string, a: char, b: char, y: string)
    requires a !in x
    ensures ReplaceFirst(x + [a] + y, a, b) == x + [b] + y
    ensures ReplaceFirst(x, a, b) == x
  {
    if |x| > 0 {
      assert x[0] != a;
      ReplaceFirstAt(x[1..], a, b, y);
      assert (x + [a] + y)[1..] == x[1..] + [a] + y;
      assert [x[0]] + (x[1..] + [b] + y) == x + [b] + y;
      assert [x[0]] + x[1..] == x;
    } else {
      assert x + [a] + y == [a] + y;
    }
  }

  /** The text after the last `c` is determined by any split at a `c` whose
      tail holds no `c`. */
  lemma RSplitOnceOf(x: string, c: char, y: string)
    requires c !in y
    ensures RSplitOnce(x + [c] + y, c) == Some((x, y))
  {
    var p := RSplitOnce(x + [c] + y, c).value;
    LastSplitUnique(x, y, p.0, p.1, c);
  }

  lemma LastSplitUnique(x1: string, y1: string, x2: string, y2: string, c: char)
    requires x1 + [c] + y1 == x2 + [c] + y2
    requires c !in y1 && c !in y2
    ensures x1 == x2 && y1 == y2
  {
    var s := x1 + [c] + y1;
    var at1, at2 := s[|x1|], s[|x2|];
    assert at1 == at2 == c;
    assert s[..|x1|] == x1 && s[|x1| + 1..] == y1;
  }
}
