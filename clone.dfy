/** The clone and pull commands of clone.py. Its log parser, header rule,
    date layout, `locate_rev_in_log` and `read_local_version` are the same
    code as in utils.py and are the members of `Utils`; what differs is
    here: the working directory a checkout lands in, a replay that runs
    each `git commit` as a single-quoted shell command and never stops on a
    failure, a file list cut at any blank, and the choice of which
    revisions a pull replays. */
module Clone {
  import opened Wrappers
  import opened Text
  import opened Utils

  /** The directory `checkout` returns: `None` when `cvc checkout` failed,
      otherwise `dest` when one was given (a non-empty string), else the
      part of the trove spec before its first `=`. */
  function WorkDir(trove: string, dest: Option<string>, checkedOut: bool): (r: Option<string>)
    ensures r.None? <==> !checkedOut
    ensures r.Some? && dest.Some? && dest.value != "" ==> r.value == dest.value
    ensures r.Some? && (dest.None? || dest.value == "") ==>
      && '=' !in r.value
      && StartsWith(trove, r.value)
      && (|r.value| < |trove| ==> trove[|r.value|] == '=')
  {
    if !checkedOut then None
    else if dest.Some? && dest.value != "" then Some(dest.value)
    else
      var parts := SplitOn(trove, '=');
      assert |parts| > 1 ==> trove == parts[0] + ['='] + Join(['='], parts[1..]);
      Some(parts[0])
  }

  /** `get_file_list` of clone.py: the `ls` output is cut at every blank,
      not only at line ends, so each name kept is a single word. */
  function CloneFileList(lsOutput: string, conary: string): (r: seq<string>)
    ensures forall k :: 0 <= k < |r| ==> IsToken(r[k])
    ensures IsSubsequence(r, Split(lsOutput))
    ensures forall x :: x in r <==> x in Split(lsOutput) && IsSubstring(x, conary)
    ensures forall x :: multiset(r)[x] == if IsSubstring(x, conary) then multiset(Split(lsOutput))[x] else 0
  {
    var r := FileList(Split(lsOutput), conary);
    assert forall k :: 0 <= k < |r| ==> r[k] in Split(lsOutput);
    r
  }

  /** The words around the quoted arguments of the commit command. */
  const AuthorOption := "git commit --all --author="
  const DateOption := " --date="
  const MessageOption := " --message="

  /** The shell command clone.py runs for one commit: the author, the date
      and the message each between single quotes. */
  function CommitCommand(c: GitCommit): string {
    AuthorOption + "'" + c.author + "'" + DateOption + "'" + c.date + "'" + MessageOption + "'" + c.message + "'"
  }

  /** The pieces of the command between its single quotes. */
  function QuotedPieces(c: GitCommit): seq<string> {
    [AuthorOption, c.author, DateOption, c.date, MessageOption, c.message, ""]
  }

  /** The quotes of the command enclose exactly the author, the date and the
      message when none of the three holds a `'`; a `'` in any of them
      shifts the quoting, so the shell does not hand git these arguments. */
  lemma CommandQuoting(c: GitCommit)
    ensures SplitOn(CommitCommand(c), '\'') == QuotedPieces(c)
        <==> '\'' !in c.author && '\'' !in c.date && '\'' !in c.message
  {
    var ps := QuotedPieces(c);
    var sp := SplitOn(CommitCommand(c), '\'');
    assert sp == ps ==> '\'' !in ps[1] && '\'' !in ps[3] && '\'' !in ps[5];
    if '\'' !in c.author && '\'' !in c.date && '\'' !in c.message {
      CommandIsJoin(c);
      OptionsUnquoted();
      SplitOnJoin(ps, '\'');
    }
  }

  lemma OptionsUnquoted()
    ensures '\'' !in AuthorOption && '\'' !in DateOption && '\'' !in MessageOption && '\'' !in ""
  {
  }

  /** The command is its pieces joined by single quotes. */
  lemma CommandIsJoin(c: GitCommit)
    ensures CommitCommand(c) == Join("'", QuotedPieces(c))
  {
    JoinSeven("'", AuthorOption, c.author, DateOption, c.date, MessageOption, c.message, "");
  }

  /** Seven parts joined by `q`. */
  lemma JoinSeven(q: string, x0: string, x1: string, x2: string, x3: string, x4: string, x5: string, x6: string)
    ensures Join(q, [x0, x1, x2, x3, x4, x5, x6]) == x0 + q + x1 + q + x2 + q + x3 + q + x4 + q + x5 + q + x6
  {
    JoinCons(q, x5, [x6]);
    JoinCons(q, x4, [x5, x6]);
    JoinCons(q, x3, [x4, x5, x6]);
    JoinCons(q, x2, [x3, x4, x5, x6]);
    JoinCons(q, x1, [x2, x3, x4, x5, x6]);
    JoinCons(q, x0, [x1, x2, x3, x4, x5, x6]);
  }

  /** Joining a list of two or more parts puts `sep` after the first. */
  lemma JoinCons(sep: string, a: string, rest: seq<string>)
    requires |rest| > 0
    ensures Join(sep, [a] + rest) == a + sep + Join(sep, rest)
  {
    assert ([a] + rest)[1..] == rest;
  }

  /** The commits git accepted, in the order they were made: the `k`-th
      commit of `plan` is made when `accepted[k]` holds. */
  function Accepted(plan: seq<GitCommit>, accepted: seq<bool>): (made: seq<GitCommit>)
    requires |accepted| == |plan|
    ensures IsSubsequence(made, plan)
    ensures false !in accepted ==> made == plan
    ensures true !in accepted ==> made == []
    decreases |plan|
  {
    if |plan| == 0 then []
    else
      var rest := Accepted(plan[1..], accepted[1..]);
      assert accepted == [accepted[0]] + accepted[1..];
      if accepted[0] then
        assert ([plan[0]] + rest)[1..] == rest;
        [plan[0]] + rest
      else
        assert IsSubsequence(rest, plan[1..]);
        SubsequenceOfTail(rest, plan);
        rest
  }

  /** Dropping the first element keeps a subsequence a subsequence. */
  lemma SubsequenceOfTail(xs: seq<GitCommit>, ys: seq<GitCommit>)
    requires |ys| > 0 && IsSubsequence(xs, ys[1..])
    ensures IsSubsequence(xs, ys)
  {
  }

  /** The commits made after one more step of the replay. */
  lemma AcceptedSnoc(plan: seq<GitCommit>, accepted: seq<bool>, i: nat)
    requires |accepted| == |plan| && i < |plan|
    ensures Accepted(plan[..i + 1], accepted[..i + 1])
         == Accepted(plan[..i], accepted[..i]) + (if accepted[i] then [plan[i]] else [])
  {
    AcceptedAppend(plan[..i], accepted[..i], [plan[i]], [accepted[i]]);
    assert plan[..i + 1] == plan[..i] + [plan[i]];
    assert accepted[..i + 1] == accepted[..i] + [accepted[i]];
  }

  lemma {:induction false} AcceptedAppend(p: seq<GitCommit>, a: seq<bool>, q: seq<GitCommit>, b: seq<bool>)
    requires |a| == |p| && |b| == |q|
    ensures Accepted(p + q, a + b) == Accepted(p, a) + Accepted(q, b)
    decreases |p|
  {
    if |p| > 0 {
      assert (p + q)[1..] == p[1..] + q;
      assert (a + b)[1..] == a[1..] + b;
      AcceptedAppend(p[1..], a[1..], q, b);
    } else {
      assert p + q == q && a + b == b;
    }
  }

  /** `commit_to_git` of clone.py: the same commits as in utils.py, oldest
      first, but run as a shell command (`CommitCommand`), after a
      `git init`, and never stopping: a failed `cvc update`, `git add` or
      `git commit` is only reported. `accepted[k]` is whether the `k`-th
      `git commit` succeeded; a revision whose commit failed is not made,
      and its changes go into the next commit that is. */
  method CommitToGit(revisions: seq<Revision>, accepted: seq<bool>) returns (made: seq<GitCommit>)
    requires |accepted| == |revisions|
    ensures made == Accepted(ReplayPlan(revisions), accepted)
  {
    made := [];
    var reversed := Reverse(revisions);
    ghost var plan := ReplayPlan(revisions);
    for i := 0 to |reversed|
      invariant made == Accepted(plan[..i], accepted[..i])
    {
      var r := reversed[i];
      var author := GitAuthor(r.committer);
      var msg := CommitMessage(r.message, r.revision);
      ReplayPlanGrows(revisions, i);
      AcceptedSnoc(plan, accepted, i);
      if accepted[i] {
        made := made + [GitCommit(r.revision, author, r.date, msg)];
      }
    }
    assert plan[..|reversed|] == plan && accepted[..|reversed|] == accepted;
  }

  /** The tuples newer than revision `current`: those above its first entry
      in the log, or the whole log when `current` is not in it
      (`revisions[:None]`). */
  function Pending(revisions: seq<Revision>, current: string): seq<Revision> {
    revisions[..IndexOf(Ids(revisions), current)]
  }

  /** What a pull replays is a prefix of the log that stops right above the
      local revision and contains no entry for it; only when the local
      revision is missing from the log is the whole log replayed. */
  lemma PendingNewer(revisions: seq<Revision>, current: string)
    ensures var p := Pending(revisions, current);
      && p == revisions[..|p|]
      && (forall k :: 0 <= k < |p| ==> p[k].revision != current)
      && (|p| < |revisions| ==> revisions[|p|].revision == current)
      && (p == revisions <==> forall k :: 0 <= k < |revisions| ==> revisions[k].revision != current)
  {
    var ids := Ids(revisions);
    var p := Pending(revisions, current);
    assert forall k :: 0 <= k < |p| ==> p[k].revision == ids[k];
  }

  /** The outcome of a pull that did not stop on an error: nothing to do, or
      the revisions handed to `commit_to_git`. */
  datatype Pull = NoChanges | Replay(revisions: seq<Revision>)

  /** `do_pull`: read the local revision from CONARY, run `cvc update`
      (stopping when it fails), read the revision again; if it did not
      change there is nothing to do, otherwise every revision newer than
      the old local one goes to `commit_to_git` (`CommitToGit`).
      `localConfig` and `remoteConfig` are the CONARY lines before and after
      the update, `history` the lines of `cvc log`. */
  method DoPull(localConfig: seq<string>, updateOk: bool, remoteConfig: seq<string>, history: seq<string>)
    returns (r: Result<Pull, Error>)
    ensures var current, remote := ReadLocalVersion(localConfig), ReadLocalVersion(remoteConfig);
      if current.Failure? then r == Failure(MalformedConfig)
      else if !updateOk then r == Failure(UpdateFailed)
      else if remote.Failure? then r == Failure(MalformedConfig)
      else if remote.value == current.value then r == Success(NoChanges)
      else if History(history).Failure? then r == Failure(History(history).error)
      else r == Success(Replay(Pending(History(history).value, current.value)))
  {
    var current := ReadLocalVersion(localConfig);
    if current.Failure? {
      return Failure(current.error);
    }
    if !updateOk {
      return Failure(UpdateFailed);
    }
    var remote := ReadLocalVersion(remoteConfig);
    if remote.Failure? {
      return Failure(remote.error);
    }
    if current.value == remote.value {
      return Success(NoChanges);
    }
    var newer := NewerRevisions(history, current.value);
    if newer.Failure? {
      return Failure(newer.error);
    }
    return Success(Replay(newer.value));
  }

  /** The end of `do_pull`: `parse_history`, then `revisions[:ix]` with the
      `ix` of `locate_rev_in_log`. */
  method NewerRevisions(history: seq<string>, current: string) returns (r: Result<seq<Revision>, Error>)
    ensures History(history).Failure? ==> r == Failure(History(history).error)
    ensures History(history).Success? ==> r == Success(Pending(History(history).value, current))
  {
    var parsed := ParseHistory(history);
    if parsed.Failure? {
      return Failure(parsed.error);
    }
    var revisions := parsed.value;
    var ix := LocateRevInLog(revisions, current);
    LocateAgreesWithIndex(revisions, current, ix);
    var newer := match ix case None => revisions case Some(i) => revisions[..i];
    assert newer == Pending(revisions, current);
    return Success(newer);
  }
}
