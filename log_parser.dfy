/** The `cvc log` text parser shared by the three scripts: telling header
    lines from message lines, cutting the log into one block per commit,
    splitting a header into revision, author blob and date, and tidying the
    message lines. The scripts differ only in the header rule and in how the
    date is rendered, so both are parameters or variants here. */
module LogParser {
  import opened Wrappers
  import opened Text

  /** The syntactic rule that marks a commit header. */
  datatype HeaderRule =
    | NonBlankStart  // cvc2git.py: the first character is not whitespace
    | DigitStart     // utils.py and clone.py: the first character is a digit

  /** `_is_commit_header` / `start_with_version` */
  predicate IsHeader(rule: HeaderRule, line: string) {
    |line| > 0 &&
    match rule
    case NonBlankStart => !IsSpace(line[0])
    case DigitStart => IsDigit(line[0])
  }

  /** Every line the digit rule accepts, the non-blank rule accepts too;
      the converse fails on a revision such as `tip-1`. */
  lemma DigitRuleIsStricter(line: string)
    ensures IsHeader(DigitStart, line) ==> IsHeader(NonBlankStart, line)
    ensures IsHeader(NonBlankStart, "tip-1") && !IsHeader(DigitStart, "tip-1")
  {
  }

  /** The first header at or after `b`, or `|h|` when none follows. */
  function NextHeader(rule: HeaderRule, h: seq<string>, b: nat): (r: nat)
    requires b <= |h|
    ensures b <= r <= |h|
    ensures forall k :: b <= k < r ==> !IsHeader(rule, h[k])
    ensures r < |h| ==> IsHeader(rule, h[r])
    decreases |h| - b
  {
    if b == |h| || IsHeader(rule, h[b]) then b else NextHeader(rule, h, b + 1)
  }

  /** `_locate_next_commit` / `find_next_commit`: scan forward from `begin`
      to the next header line. */
  method LocateNextCommit(rule: HeaderRule, history: seq<string>, begin: nat) returns (next: nat)
    ensures begin >= |history| ==> next == begin
    ensures begin <= |history| ==> next == NextHeader(rule, history, begin)
    ensures begin <= |history| ==> begin <= next <= |history|
    ensures forall k :: begin <= k < next ==> k < |history| && !IsHeader(rule, history[k])
    ensures next < |history| ==> IsHeader(rule, history[next])
  {
    next := begin;
    while next < |history|
      invariant begin <= next
      invariant begin >= |history| ==> next == begin
      invariant begin <= |history| ==> next <= |history|
      invariant begin <= |history| ==> NextHeader(rule, history, begin) == NextHeader(rule, history, next)
      invariant forall k :: begin <= k < next ==> k < |history| && !IsHeader(rule, history[k])
    {
      if IsHeader(rule, history[next]) {
        break;
      }
      next := next + 1;
    }
  }

  /** The lines of one commit: its header and the lines up to the next header. */
  datatype Block = Block(header: string, body: seq<string>)

  predicate WellFormed(rule: HeaderRule, b: Block) {
    IsHeader(rule, b.header) && forall k :: 0 <= k < |b.body| ==> !IsHeader(rule, b.body[k])
  }

  /** The blocks of `h` starting at line `i`. */
  function BlocksFrom(rule: HeaderRule, h: seq<string>, i: nat): (bs: seq<Block>)
    requires i <= |h|
    requires i == |h| || IsHeader(rule, h[i])
    ensures forall k :: 0 <= k < |bs| ==> WellFormed(rule, bs[k])
    decreases |h| - i
  {
    if i == |h| then []
    else
      var n := NextHeader(rule, h, i + 1);
      [Block(h[i], h[i + 1..n])] + BlocksFrom(rule, h, n)
  }

  /** The commit blocks of a log, in log order; lines before the first header
      belong to no block. */
  function Blocks(rule: HeaderRule, h: seq<string>): seq<Block> {
    BlocksFrom(rule, h, NextHeader(rule, h, 0))
  }

  /** The block that starts at header `i` runs to the next header. */
  lemma BlocksStep(rule: HeaderRule, h: seq<string>, done: seq<Block>, i: nat)
    requires i < |h| && IsHeader(rule, h[i])
    requires Blocks(rule, h) == done + BlocksFrom(rule, h, i)
    ensures var n := NextHeader(rule, h, i + 1);
      Blocks(rule, h) == (done + [Block(h[i], h[i + 1..n])]) + BlocksFrom(rule, h, n)
  {
  }

  /** One more block for a loop that maps `f` over the blocks of `h`: the
      block at header `i` is appended, and a failure on it is the failure
      of the whole log. */
  lemma MapBlocksStep<U, E>(f: Block -> Result<U, E>, rule: HeaderRule, h: seq<string>, done: seq<Block>, i: nat)
    requires i < |h| && IsHeader(rule, h[i])
    requires Blocks(rule, h) == done + BlocksFrom(rule, h, i)
    requires MapResult(f, done).Success?
    ensures var n := NextHeader(rule, h, i + 1); var b := Block(h[i], h[i + 1..n]);
      && Blocks(rule, h) == (done + [b]) + BlocksFrom(rule, h, n)
      && (f(b).Failure? ==> MapResult(f, Blocks(rule, h)) == Failure(f(b).error))
      && (f(b).Success? ==> MapResult(f, done + [b]) == Success(MapResult(f, done).value + [f(b).value]))
  {
    var n := NextHeader(rule, h, i + 1);
    var b := Block(h[i], h[i + 1..n]);
    BlocksStep(rule, h, done, i);
    MapResultSnoc(f, done, b);
    if f(b).Failure? {
      MapResultFailurePersists(f, done + [b], BlocksFrom(rule, h, n));
    }
  }

  /** The lines a sequence of blocks was cut from. */
  function Lines(bs: seq<Block>): seq<string> {
    if |bs| == 0 then [] else [bs[0].header] + bs[0].body + Lines(bs[1..])
  }

  /** How many lines of `h` are headers. */
  function CountHeaders(rule: HeaderRule, h: seq<string>): nat {
    if |h| == 0 then 0 else (if IsHeader(rule, h[0]) then 1 else 0) + CountHeaders(rule, h[1..])
  }

  lemma {:induction false} CountSkip(rule: HeaderRule, h: seq<string>, a: nat, b: nat)
    requires a <= b <= |h|
    requires forall k :: a <= k < b ==> !IsHeader(rule, h[k])
    ensures CountHeaders(rule, h[a..]) == CountHeaders(rule, h[b..])
    decreases b - a
  {
    if a < b {
      assert h[a..][1..] == h[a + 1..];
      CountSkip(rule, h, a + 1, b);
    }
  }

  lemma {:induction false} BlocksFromCover(rule: HeaderRule, h: seq<string>, i: nat)
    requires i <= |h|
    requires i == |h| || IsHeader(rule, h[i])
    ensures Lines(BlocksFrom(rule, h, i)) == h[i..]
    ensures |BlocksFrom(rule, h, i)| == CountHeaders(rule, h[i..])
  {
    BlocksFromLines(rule, h, i);
    BlocksFromCount(rule, h, i);
  }

  lemma LinesCons(b: Block, rest: seq<Block>)
    ensures Lines([b] + rest) == [b.header] + b.body + Lines(rest)
  {
    assert ([b] + rest)[1..] == rest;
  }

  lemma SliceAround<T>(s: seq<T>, i: nat, n: nat)
    requires i < n <= |s|
    ensures s[i..] == [s[i]] + s[i + 1..n] + s[n..]
  {
  }

  lemma {:induction false} BlocksFromLines(rule: HeaderRule, h: seq<string>, i: nat)
    requires i <= |h|
    requires i == |h| || IsHeader(rule, h[i])
    ensures Lines(BlocksFrom(rule, h, i)) == h[i..]
    decreases |h| - i
  {
    if i < |h| {
      var n := NextHeader(rule, h, i + 1);
      BlocksFromLines(rule, h, n);
      LinesCons(Block(h[i], h[i + 1..n]), BlocksFrom(rule, h, n));
      SliceAround(h, i, n);
    }
  }

  lemma {:induction false} BlocksFromCount(rule: HeaderRule, h: seq<string>, i: nat)
    requires i <= |h|
    requires i == |h| || IsHeader(rule, h[i])
    ensures |BlocksFrom(rule, h, i)| == CountHeaders(rule, h[i..])
    decreases |h| - i
  {
    if i < |h| {
      var n := NextHeader(rule, h, i + 1);
      BlocksFromCount(rule, h, n);
      assert h[i..][1..] == h[i + 1..];
      CountSkip(rule, h, i + 1, n);
    }
  }

  /** The blocks partition the log: read back to back they give exactly the
      lines from the first header on, no line before the first header is a
      header, and there is exactly one block per header line. Each block
      starts with a header and holds no other. */
  lemma BlocksPartitionLog(rule: HeaderRule, h: seq<string>)
    ensures Lines(Blocks(rule, h)) == h[NextHeader(rule, h, 0)..]
    ensures forall k :: 0 <= k < NextHeader(rule, h, 0) ==> !IsHeader(rule, h[k])
    ensures |Blocks(rule, h)| == CountHeaders(rule, h)
    ensures forall k :: 0 <= k < |Blocks(rule, h)| ==> WellFormed(rule, Blocks(rule, h)[k])
  {
    var first := NextHeader(rule, h, 0);
    BlocksFromCover(rule, h, first);
    CountSkip(rule, h, 0, first);
    assert h[0..] == h;
  }

  /** Every header line of the log opens one of its blocks. */
  lemma HeaderOwnsBlock(rule: HeaderRule, h: seq<string>, line: string) returns (k: nat)
    requires line in h && IsHeader(rule, line)
    ensures k < |Blocks(rule, h)| && Blocks(rule, h)[k].header == line
  {
    var bs := Blocks(rule, h);
    var first := NextHeader(rule, h, 0);
    BlocksPartitionLog(rule, h);
    var j :| 0 <= j < |h| && h[j] == line;
    assert h[first..][j - first] == line;
    LinesHeaders(rule, bs, line);
    k :| 0 <= k < |bs| && bs[k].header == line;
  }

  /** Among the lines of well-formed blocks, the header lines are exactly
      the blocks' headers. */
  lemma {:induction false} LinesHeaders(rule: HeaderRule, bs: seq<Block>, x: string)
    requires forall k :: 0 <= k < |bs| ==> WellFormed(rule, bs[k])
    ensures (x in Lines(bs) && IsHeader(rule, x)) <==> exists k :: 0 <= k < |bs| && bs[k].header == x
    decreases |bs|
  {
    if |bs| > 0 {
      var rest := bs[1..];
      LinesHeaders(rule, rest, x);
      assert Lines(bs) == [bs[0].header] + bs[0].body + Lines(rest);
      if x in Lines(bs) && IsHeader(rule, x) && x != bs[0].header {
        assert x !in bs[0].body;
        var j :| 0 <= j < |rest| && rest[j].header == x;
        assert bs[j + 1].header == x;
      }
      if exists k :: 0 <= k < |bs| && bs[k].header == x {
        var k :| 0 <= k < |bs| && bs[k].header == x;
        if k > 0 {
          assert rest[k - 1].header == x;
        }
      }
    }
  }

  // ----- message bodies -----

  /** Every line stripped, as in `[x.strip() for x in lines]`. */
  function StripAll(lines: seq<string>): (r: seq<string>)
    ensures |r| == |lines|
    ensures forall k :: 0 <= k < |r| ==> r[k] == Strip(lines[k])
  {
    seq(|lines|, k requires 0 <= k < |lines| => Strip(lines[k]))
  }

  /** `ls` without its trailing empty lines. */
  function DropTrailingEmpty(ls: seq<string>): (r: seq<string>)
    ensures |r| <= |ls| && r == ls[..|r|]
    ensures r == [] || r[|r| - 1] != ""
    ensures forall k :: |r| <= k < |ls| ==> ls[k] == ""
    decreases |ls|
  {
    if |ls| > 0 && ls[|ls| - 1] == "" then DropTrailingEmpty(ls[..|ls| - 1]) else ls
  }

  /** A line ending in a non-blank, or empty. */
  predicate EndsSolid(s: string) {
    s == [] || !IsSpace(s[|s| - 1])
  }

  lemma {:induction false} RStripJoin(ss: seq<string>)
    requires forall k :: 0 <= k < |ss| ==> EndsSolid(ss[k])
    ensures RStrip(Join("\n", ss)) == Join("\n", DropTrailingEmpty(ss))
    decreases |ss|
  {
    if |ss| > 0 {
      var init, last := ss[..|ss| - 1], ss[|ss| - 1];
      assert ss == init + [last];
      JoinSnoc("\n", init, last);
      var j := Join("\n", init);
      if last == "" {
        assert DropTrailingEmpty(ss) == DropTrailingEmpty(init);
        if init != [] {
          assert Join("\n", ss) == j + "\n";
          RStripNewline(j);
          RStripJoin(init);
        }
      } else {
        assert DropTrailingEmpty(ss) == ss;
        RStripSolid(if init == [] then [] else j + "\n", last);
      }
    }
  }

  /** A final line break is stripped like any other trailing blank. */
  lemma RStripNewline(j: string)
    ensures RStrip(j + "\n") == RStrip(j)
  {
    var s := j + "\n";
    assert s[..|s| - 1] == j;
  }

  /** Text that ends in a non-blank has nothing to strip. */
  lemma RStripSolid(front: string, last: string)
    requires last != [] && EndsSolid(last)
    ensures RStrip(front + last) == front + last
  {
    var s := front + last;
    assert s[|s| - 1] == last[|last| - 1];
  }

  /** Every stripped line ends in a non-blank or is empty. */
  lemma StripAllSolid(lines: seq<string>)
    ensures forall k :: 0 <= k < |lines| ==> EndsSolid(StripAll(lines)[k])
  {
  }

  lemma RStripStripped(lines: seq<string>)
    ensures RStrip(Join("\n", StripAll(lines))) == Join("\n", DropTrailingEmpty(StripAll(lines)))
  {
    StripAllSolid(lines);
    RStripJoin(StripAll(lines));
  }

  /** `_reformat_msg_body` / `format_commit_msg`: the lines stripped, joined
      with newlines, then right-stripped. Equivalently the stripped lines up
      to the last non-empty one, so blank lines inside the message survive
      and trailing ones do not. */
  function ReformatMsgBody(lines: seq<string>): (r: string)
    ensures r == Join("\n", DropTrailingEmpty(StripAll(lines)))
    ensures r == [] || !IsSpace(r[|r| - 1])
  {
    RStripStripped(lines);
    RStrip(Join("\n", StripAll(lines)))
  }

  // ----- header lines -----

  /** Revision, author blob and date text of a header line. */
  datatype Header = Header(revision: string, who: string, date: string)

  /** `_parse_commit_header` of cvc2git.py: token 0 is the revision, the last
      five tokens joined by blanks are the date, the tokens in between are
      the author blob. Fails only on a line with no token (`s[0]` raises). */
  function ParseHeader(line: string): (r: Result<Header, Error>)
    ensures r.Failure? <==> Split(line) == []
    ensures r.Success? ==> r.value == HeaderOfTokens(Split(line))
    ensures r.Success? ==> var s, n := Split(line), |Split(line)|;
      && r.value.revision == s[0]
      && r.value.who == (if n >= 7 then Join(" ", s[1..n - 5]) else "")
      && r.value.date == Join(" ", if n >= 5 then s[n - 5..] else s)
  {
    var s := Split(line);
    if |s| == 0 then Failure(MalformedHeader)
    else
      HeaderClamps(s);
      Success(HeaderOfTokens(s))
  }

  /** Python's clamping of `s[1:-5]` and `s[-5:]`: with six tokens or fewer
      there is no author, and with five or fewer the date takes every
      token, the revision included. */
  lemma HeaderClamps(s: seq<string>)
    requires |s| > 0
    ensures var h, n := HeaderOfTokens(s), |s|;
      && h.who == (if n >= 7 then Join(" ", s[1..n - 5]) else "")
      && h.date == Join(" ", if n >= 5 then s[n - 5..] else s)
  {
    var n := |s|;
    assert PySlice(s, 1, -5) == if n >= 7 then s[1..n - 5] else [] by {
      assert PyIndex(1, n) == 1;
    }
    assert PySlice(s, -5, n) == if n >= 5 then s[n - 5..] else s by {
      assert PyIndex(n, n) == n;
      assert PyIndex(-5, n) == if n >= 5 then n - 5 else 0;
      assert s[0..n] == s;
    }
  }

  function HeaderOfTokens(s: seq<string>): Header
    requires |s| > 0
  {
    Header(s[0], Join(" ", PySlice(s, 1, -5)), Join(" ", PySlice(s, -5, |s|)))
  }

  /** With at least one author token, the header's tokens are exactly the
      revision, the author blob's tokens and five date tokens. */
  lemma HeaderTokens(s: seq<string>)
    requires |s| >= 7
    requires forall k :: 0 <= k < |s| ==> IsToken(s[k])
    ensures var h := HeaderOfTokens(s);
      && h.revision == s[0]
      && h.who == Join(" ", s[1..|s| - 5])
      && h.date == Join(" ", s[|s| - 5..])
      && Split(h.who) == s[1..|s| - 5]
      && Split(h.date) == s[|s| - 5..]
      && s == [h.revision] + Split(h.who) + Split(h.date)
  {
    assert PySlice(s, 1, -5) == s[1..|s| - 5];
    assert PySlice(s, -5, |s|) == s[|s| - 5..];
    SplitJoin(s[1..|s| - 5]);
    SplitJoin(s[|s| - 5..]);
    assert s == [s[0]] + s[1..|s| - 5] + s[|s| - 5..];
  }

  /** `_parse_commit_header` of utils.py and `parse_commit` of clone.py: the
      date tokens `Wdy Mon DD HH:MM:SS YYYY` are reordered into
      `Wdy, DD Mon YYYY HH:MM:SS +0000`, the date-time layout of section 3.3
      of RFC 5322. Fails when the line has fewer than five tokens. */
  function ParseHeaderRfc(line: string): (r: Result<Header, Error>)
    ensures r.Failure? <==> |Split(line)| < 5
    ensures r.Success? ==> r.value == RfcHeaderOfTokens(Split(line))
    ensures r.Success? ==> var s, n := Split(line), |Split(line)|;
      && r.value.revision == s[0]
      && r.value.who == (if n >= 6 then Join(" ", s[1..n - 5]) else "")
      && Split(r.value.date) == [s[n - 5] + ",", s[n - 3], s[n - 4], s[n - 1], s[n - 2], "+0000"]
  {
    var s := Split(line);
    if |s| < 5 then Failure(MalformedHeader)
    else
      RfcDateLayout(s);
      Success(RfcHeaderOfTokens(s))
  }

  function RfcHeaderOfTokens(s: seq<string>): Header
    requires |s| >= 5
  {
    var n := |s|;
    Header(s[0], Join(" ", PySlice(s, 1, -5)),
      s[n - 5] + ", " + s[n - 3] + " " + s[n - 4] + " " + s[n - 1] + " " + s[n - 2] + " +0000")
  }

  /** The rendered date has six tokens: the weekday with a comma, the day,
      the month, the year, the time and the zone `+0000`; the author blob is
      the tokens between the revision and the date. */
  lemma RfcDateLayout(s: seq<string>)
    requires |s| >= 5
    requires forall k :: 0 <= k < |s| ==> IsToken(s[k])
    ensures var h, n := RfcHeaderOfTokens(s), |s|;
      && h.revision == s[0]
      && Split(h.date) == [s[n - 5] + ",", s[n - 3], s[n - 4], s[n - 1], s[n - 2], "+0000"]
      && (n >= 6 ==> h.who == Join(" ", s[1..n - 5]) && Split(h.who) == s[1..n - 5])
      && (n == 5 ==> h.who == "")
  {
    var n := |s|;
    var h := RfcHeaderOfTokens(s);
    var ts := [s[n - 5] + ",", s[n - 3], s[n - 4], s[n - 1], s[n - 2], "+0000"];
    assert h.date == Join(" ", ts) by {
      JoinSix(s[n - 5] + ",", s[n - 3], s[n - 4], s[n - 1], s[n - 2], "+0000");
      var x := s[n - 5] + ", " + s[n - 3] + " " + s[n - 4] + " " + s[n - 1] + " " + s[n - 2];
      assert s[n - 5] + ", " == s[n - 5] + "," + " ";
      assert x + " +0000" == x + " " + "+0000";
    }
    assert forall k :: 0 <= k < |ts| ==> IsToken(ts[k]) by {
      assert IsToken(s[n - 5] + ",");
      assert IsToken("+0000");
    }
    SplitJoin(ts);
    if n >= 6 {
      assert PySlice(s, 1, -5) == s[1..n - 5];
      SplitJoin(s[1..n - 5]);
    } else {
      assert PySlice(s, 1, -5) == [];
    }
  }

  /** Six parts joined by blanks. */
  lemma JoinSix(a: string, b: string, c: string, d: string, e: string, f: string)
    ensures Join(" ", [a, b, c, d, e, f]) == a + " " + b + " " + c + " " + d + " " + e + " " + f
  {
    assert [e, f][1..] == [f];
    assert Join(" ", [e, f]) == e + " " + f;
    assert [d, e, f][1..] == [e, f];
    assert Join(" ", [d, e, f]) == d + " " + (e + " " + f);
    assert [c, d, e, f][1..] == [d, e, f];
    assert Join(" ", [c, d, e, f]) == c + " " + (d + " " + (e + " " + f));
    assert [b, c, d, e, f][1..] == [c, d, e, f];
    assert Join(" ", [b, c, d, e, f]) == b + " " + (c + " " + (d + " " + (e + " " + f)));
    assert [a, b, c, d, e, f][1..] == [b, c, d, e, f];
  }
}
