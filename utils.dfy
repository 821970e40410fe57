/** The single-package converter of utils.py: the working copy's `cvc log`
    becomes a list of revision tuples, newest first, which are then replayed
    into git oldest first, each commit's message ending in a line naming the
    cvc revision it came from. The `cvc` and `git` processes are replaced by
    the facts the code reads back from them: the log lines, the `ls` lines,
    the CONARY text and the exit status of each `git commit`. */
module Utils {
  import opened Wrappers
  import opened Text
  import opened LogParser

  /** One tuple of `parse_history`: `(revision, committer, date, message)`;
      the date is already in the layout of section 3.3 of RFC 5322. */
  datatype Revision = Revision(revision: string, committer: string, date: string, message: string)

  /** The tuple one commit block yields: the header read by `parseHeader`
      and the body lines formatted by `reformat`. */
  function Entry(parseHeader: string -> Result<Header, Error>, reformat: seq<string> -> string, b: Block): Result<Revision, Error> {
    match parseHeader(b.header)
    case Failure(e) => Failure(e)
    case Success(h) => Success(Revision(h.revision, h.who, h.date, reformat(b.body)))
  }

  function EntryReader(parseHeader: string -> Result<Header, Error>, reformat: seq<string> -> string): Block -> Result<Revision, Error> {
    b => Entry(parseHeader, reformat, b)
  }

  /** The tuple one block yields in utils.py and clone.py: the header read
      by the RFC date rule and the body reformatted. */
  function RevisionOf(b: Block): Result<Revision, Error> {
    Entry(ParseHeaderRfc, ReformatMsgBody, b)
  }

  /** What `parse_history` returns for the log lines `h`: one tuple per
      commit block in log order, or the failure of the first block whose
      header has fewer than five tokens. */
  function History(h: seq<string>): Result<seq<Revision>, Error> {
    MapResult(EntryReader(ParseHeaderRfc, ReformatMsgBody), Blocks(DigitStart, h))
  }

  /** One pass of the `parse_history` loop at header `i`: read the header,
      find the next header and format the lines in between. On a header
      that does not parse nothing else is read. */
  method ReadEntry(parseHeader: string -> Result<Header, Error>, reformat: seq<string> -> string, history: seq<string>, i: nat)
    returns (r: Result<Revision, Error>, t: nat)
    requires i < |history|
    ensures t == NextHeader(DigitStart, history, i + 1)
    ensures r == Entry(parseHeader, reformat, Block(history[i], history[i + 1..t]))
  {
    t := NextHeader(DigitStart, history, i + 1);
    var header := parseHeader(history[i]);
    if header.Failure? {
      return Failure(header.error), t;
    }
    t := LocateNextCommit(DigitStart, history, i + 1);
    var message := reformat(history[i + 1..t]);
    r := Success(Revision(header.value.revision, header.value.who, header.value.date, message));
  }

  /** The loop of `parse_history` over the given lines, with the header
      parser and the message formatter as parameters: skip to the first
      header, then read one commit at a time, stopping at the first header
      that does not parse. */
  method ReadHistory(parseHeader: string -> Result<Header, Error>, reformat: seq<string> -> string, history: seq<string>)
    returns (r: Result<seq<Revision>, Error>)
    ensures r == MapResult(EntryReader(parseHeader, reformat), Blocks(DigitStart, history))
  {
    var revisions: seq<Revision> := [];
    var i := LocateNextCommit(DigitStart, history, 0);
    ghost var done: seq<Block> := [];
    ghost var read := EntryReader(parseHeader, reformat);
    while i < |history|
      invariant i <= |history| && (i == |history| || IsHeader(DigitStart, history[i]))
      invariant Blocks(DigitStart, history) == done + BlocksFrom(DigitStart, history, i)
      invariant MapResult(read, done) == Success(revisions)
      decreases |history| - i
    {
      var entry, t := ReadEntry(parseHeader, reformat, history, i);
      MapBlocksStep(read, DigitStart, history, done, i);
      if entry.Failure? {
        return Failure(entry.error);
      }
      revisions := revisions + [entry.value];
      done := done + [Block(history[i], history[i + 1..t])];
      i := t;
    }
    assert done == Blocks(DigitStart, history);
    return Success(revisions);
  }

  /** `parse_history` of utils.py and clone.py. */
  method ParseHistory(history: seq<string>) returns (r: Result<seq<Revision>, Error>)
    ensures r == History(history)
  {
    r := ReadHistory(ParseHeaderRfc, ReformatMsgBody, history);
  }

  /** A parsed history has one tuple per header line, in log order: tuple
      `k` carries the header fields and the reformatted message lines of
      block `k`, and the blocks read back to back are the log from its
      first header on. */
  lemma HistoryEntries(h: seq<string>)
    requires History(h).Success?
    ensures var bs, rs := Blocks(DigitStart, h), History(h).value;
      && |rs| == |bs| == CountHeaders(DigitStart, h)
      && Lines(bs) == h[NextHeader(DigitStart, h, 0)..]
      && forall k :: 0 <= k < |rs| ==>
        && ParseHeaderRfc(bs[k].header) == Success(Header(rs[k].revision, rs[k].committer, rs[k].date))
        && rs[k].message == ReformatMsgBody(bs[k].body)
  {
    var bs, rs := Blocks(DigitStart, h), History(h).value;
    BlocksPartitionLog(DigitStart, h);
    MapResultMeaning(EntryReader(ParseHeaderRfc, ReformatMsgBody), bs);
    forall k | 0 <= k < |rs|
      ensures ParseHeaderRfc(bs[k].header) == Success(Header(rs[k].revision, rs[k].committer, rs[k].date))
      ensures rs[k].message == ReformatMsgBody(bs[k].body)
    {
      assert EntryReader(ParseHeaderRfc, ReformatMsgBody)(bs[k]) == RevisionOf(bs[k]) == Success(rs[k]);
    }
  }

  /** `parse_history` fails exactly when some header line of the log has
      fewer than five tokens. */
  lemma HistoryFails(h: seq<string>)
    ensures History(h).Failure? <==> exists line :: line in h && IsHeader(DigitStart, line) && |Split(line)| < 5
  {
    if History(h).Failure? {
      FailureHasShortHeader(h);
    }
    if exists line :: line in h && IsHeader(DigitStart, line) && |Split(line)| < 5 {
      var line :| line in h && IsHeader(DigitStart, line) && |Split(line)| < 5;
      ShortHeaderFails(h, line);
    }
  }

  lemma FailureHasShortHeader(h: seq<string>)
    requires History(h).Failure?
    ensures exists line :: line in h && IsHeader(DigitStart, line) && |Split(line)| < 5
  {
    var bs := Blocks(DigitStart, h);
    BlocksPartitionLog(DigitStart, h);
    MapResultMeaning(EntryReader(ParseHeaderRfc, ReformatMsgBody), bs);
    var k :| 0 <= k < |bs| && EntryReader(ParseHeaderRfc, ReformatMsgBody)(bs[k]).Failure?;
    assert RevisionOf(bs[k]).Failure?;
    LinesHeaders(DigitStart, bs, bs[k].header);
    assert bs[k].header in h[NextHeader(DigitStart, h, 0)..];
  }

  lemma ShortHeaderFails(h: seq<string>, line: string)
    requires line in h && IsHeader(DigitStart, line) && |Split(line)| < 5
    ensures History(h).Failure?
  {
    var bs := Blocks(DigitStart, h);
    var k := HeaderOwnsBlock(DigitStart, h, line);
    assert EntryReader(ParseHeaderRfc, ReformatMsgBody)(bs[k]) == RevisionOf(bs[k]);
    MapResultMeaning(EntryReader(ParseHeaderRfc, ReformatMsgBody), bs);
  }

  /** The revision ids of a tuple list, in order. */
  function Ids(revisions: seq<Revision>): (ids: seq<string>)
    ensures |ids| == |revisions|
    ensures forall k :: 0 <= k < |ids| ==> ids[k] == revisions[k].revision
  {
    seq(|revisions|, k requires 0 <= k < |revisions| => revisions[k].revision)
  }

  /** `locate_rev_in_log`: the position of the first tuple whose revision is
      `rev`, or `None` when no tuple has it. */
  method LocateRevInLog(revisions: seq<Revision>, rev: string) returns (ix: Option<nat>)
    ensures ix.Some? ==> ix.value < |revisions| && revisions[ix.value].revision == rev
    ensures ix.Some? ==> forall j :: 0 <= j < ix.value ==> revisions[j].revision != rev
    ensures ix.None? <==> forall j :: 0 <= j < |revisions| ==> revisions[j].revision != rev
  {
    for i := 0 to |revisions|
      invariant forall j :: 0 <= j < i ==> revisions[j].revision != rev
    {
      if revisions[i].revision == rev {
        return Some(i);
      }
    }
    return None;
  }

  /** The position `locate_rev_in_log` reports is the first position of
      `rev` in the list of revision ids, `None` standing for "past the end". */
  lemma LocateAgreesWithIndex(revisions: seq<Revision>, rev: string, ix: Option<nat>)
    requires ix.Some? ==> ix.value < |revisions| && revisions[ix.value].revision == rev
    requires ix.Some? ==> forall j :: 0 <= j < ix.value ==> revisions[j].revision != rev
    requires ix.None? <==> forall j :: 0 <= j < |revisions| ==> revisions[j].revision != rev
    ensures IndexOf(Ids(revisions), rev) == match ix case None => |revisions| case Some(i) => i
  {
    var ids := Ids(revisions);
    if ix.Some? {
      assert ids[ix.value] == rev;
    }
  }

  // ----- replay into git -----

  /** The git commit that replays one revision: the revision given to
      `cvc update`, and the author, date and message given to `git commit`. */
  datatype GitCommit = GitCommit(revision: string, author: string, date: string, message: string)

  /** The author passed to git: the first `(` becomes `<` and the first `)`
      becomes `>`. */
  function GitAuthor(committer: string): string {
    ReplaceFirst(ReplaceFirst(committer, '(', '<'), ')', '>')
  }

  /** A cvc committer `name (email)` becomes the git author `name <email>`. */
  lemma GitAuthorOfCommitter(name: string, email: string)
    requires '(' !in name && ')' !in name && ')' !in email
    ensures GitAuthor(name + " (" + email + ")") == name + " <" + email + ">"
  {
    var front := name + " ";
    var angled := front + ['<'] + email;
    assert ReplaceFirst(name + " (" + email + ")", '(', '<') == angled + [')'] by {
      assert name + " (" + email + ")" == front + ['('] + (email + ")");
      ReplaceFirstAt(front, '(', '<', email + ")");
    }
    assert ReplaceFirst(angled + [')'], ')', '>') == name + " <" + email + ">" by {
      assert angled + [')'] == angled + [')'] + [];
      ReplaceFirstAt(angled, ')', '>', []);
    }
  }

  /** A committer without parentheses is passed through unchanged. */
  lemma GitAuthorPlain(committer: string)
    requires '(' !in committer && ')' !in committer
    ensures GitAuthor(committer) == committer
  {
    ReplaceFirstAt(committer, '(', '<', []);
    ReplaceFirstAt(committer, ')', '>', []);
  }

  /** The git message: the cvc message, a blank line, then a line naming
      the cvc revision. */
  function CommitMessage(message: string, revision: string): string {
    message + "\n\ncvc revision: " + revision
  }

  /** The revision named by the last word of a replayed message. */
  function MessageRevision(msg: string): string {
    match RSplitOnce(msg, ' ')
    case None => msg
    case Some(parts) => parts.1
  }

  /** The provenance line identifies the revision: its last word is the
      revision, whatever the message, as long as the revision is a single
      word (as the first token of a header always is). */
  lemma MessageNamesRevision(message: string, revision: string)
    requires ' ' !in revision
    ensures MessageRevision(CommitMessage(message, revision)) == revision
    ensures StartsWith(CommitMessage(message, revision), message)
  {
    var front := message + "\n\ncvc revision:";
    assert CommitMessage(message, revision) == front + [' '] + revision;
    RSplitOnceOf(front, ' ', revision);
    var m := CommitMessage(message, revision);
    assert m[..|message|] == message;
  }

  /** The commit one tuple is replayed as. */
  function CommitOf(r: Revision): GitCommit {
    GitCommit(r.revision, GitAuthor(r.committer), r.date, CommitMessage(r.message, r.revision))
  }

  /** The commits a replay of `revisions` makes, in the order it makes them:
      `revisions[::-1]`, so the oldest revision first. */
  function ReplayPlan(revisions: seq<Revision>): (plan: seq<GitCommit>)
    ensures |plan| == |revisions|
  {
    seq(|revisions|, k requires 0 <= k < |revisions| => CommitOf(revisions[|revisions| - 1 - k]))
  }

  /** Older revisions are committed before newer ones: replaying a list
      that lists `newer` above `older` commits all of `older` first. */
  lemma ReplayOlderFirst(newer: seq<Revision>, older: seq<Revision>)
    ensures ReplayPlan(newer + older) == ReplayPlan(older) + ReplayPlan(newer)
  {
    var all := newer + older;
    var lhs, rhs := ReplayPlan(all), ReplayPlan(older) + ReplayPlan(newer);
    forall k | 0 <= k < |lhs|
      ensures lhs[k] == rhs[k]
    {
      if k < |older| {
        assert all[|all| - 1 - k] == older[|older| - 1 - k];
      } else {
        assert all[|all| - 1 - k] == newer[|newer| - 1 - (k - |older|)];
      }
    }
  }

  /** The replay one step further on. */
  lemma ReplayPlanGrows(revisions: seq<Revision>, i: nat)
    requires i < |revisions|
    ensures ReplayPlan(revisions)[..i + 1] == ReplayPlan(revisions)[..i] + [CommitOf(revisions[|revisions| - 1 - i])]
  {
    var plan := ReplayPlan(revisions);
    assert plan[..i + 1] == plan[..i] + [plan[i]];
  }

  /** `commit_to_git` of utils.py: replay the revisions oldest first,
      composing author and message for each; `commitOk[i]` is whether the
      `i`-th `git commit` succeeded, and `made` holds the commits git
      accepted. The first failed commit ends the program (`sys.exit`), so
      the commits before it are all that exist; failures of `cvc update` and
      `git add` are only reported and do not stop the replay. */
  method CommitToGit(revisions: seq<Revision>, commitOk: seq<bool>) returns (made: seq<GitCommit>, exited: bool)
    requires |commitOk| == |revisions|
    ensures exited <==> false in commitOk
    ensures exited ==> made == ReplayPlan(revisions)[..IndexOf(commitOk, false)]
    ensures !exited ==> made == ReplayPlan(revisions)
  {
    made := [];
    var reversed := Reverse(revisions);
    for i := 0 to |reversed|
      invariant false !in commitOk[..i]
      invariant made == ReplayPlan(revisions)[..i]
    {
      var r := reversed[i];
      var author := GitAuthor(r.committer);
      var msg := CommitMessage(r.message, r.revision);
      if !commitOk[i] {
        assert commitOk[..i + 1] == commitOk[..i] + [false];
        return made, true;
      }
      ReplayPlanGrows(revisions, i);
      made := made + [GitCommit(r.revision, author, r.date, msg)];
      assert commitOk[..i + 1] == commitOk[..i] + [true];
    }
    assert commitOk[..|reversed|] == commitOk;
    return made, false;
  }

  // ----- working-copy files -----

  /** `[x for x in ls if x in conary]`: the listed names that occur in the
      CONARY text. */
  function FileList(ls: seq<string>, conary: string): (r: seq<string>)
    ensures IsSubsequence(r, ls)
    ensures forall x :: x in r <==> x in ls && IsSubstring(x, conary)
    ensures forall x :: multiset(r)[x] == if IsSubstring(x, conary) then multiset(ls)[x] else 0
  {
    if |ls| == 0 then []
    else
      var rest := FileList(ls[1..], conary);
      assert forall x :: x in ls <==> x == ls[0] || x in ls[1..];
      assert ls == [ls[0]] + ls[1..];
      assert multiset(ls) == multiset([ls[0]]) + multiset(ls[1..]);
      if IsSubstring(ls[0], conary) then [ls[0]] + rest else rest
  }

  /** `xs` is `ys` with some elements dropped, order kept. */
  predicate IsSubsequence<T(==)>(xs: seq<T>, ys: seq<T>) {
    if |xs| == 0 then true
    else if |ys| == 0 then false
    else (xs[0] == ys[0] && IsSubsequence(xs[1..], ys[1..])) || IsSubsequence(xs, ys[1..])
  }

  // ----- CONARY -----

  /** `read_local_version`: the text after the last `:` of line 2 of
      CONARY, stripped. Fails when the file has fewer than three lines or
      that line has no `:` (an IndexError either way). */
  function ReadLocalVersion(config: seq<string>): (r: Result<string, Error>)
    ensures r.Failure? <==> |config| < 3 || ':' !in Strip(config[2])
    ensures r.Failure? ==> r.error == MalformedConfig
    ensures r.Success? ==> ':' !in r.value && IsLastField(Strip(config[2]), r.value)
  {
    if |config| < 3 then Failure(MalformedConfig)
    else
      var line := Strip(config[2]);
      match RSplitOnce(line, ':')
      case None => Failure(MalformedConfig)
      case Some(parts) =>
        assert line[|parts.0| + 1..] == parts.1;
        Success(parts.1)
  }

  /** `v` is what follows the last `:` of `line`. */
  predicate IsLastField(line: string, v: string) {
    |v| < |line| && line[|line| - |v| - 1] == ':' && line[|line| - |v|..] == v
  }
}
