/** `get_commits` of cvc2git.py: read one package's `cvc log`, turn every
    commit block into a commit, keep only the commits newer than the
    revision converted last time, and record the newest one in the
    in/out `resume_info` dictionary. */
module Resume {
  import opened Wrappers
  import opened Text
  import opened LogParser
  import opened Commits

  /** The revision of each commit, in order. */
  function Revisions(cs: seq<Commit>): (rs: seq<string>)
    ensures |rs| == |cs|
    ensures forall k :: 0 <= k < |cs| ==> rs[k] == cs[k].revision
    decreases |cs|
  {
    if |cs| == 0 then [] else Revisions(cs[..|cs| - 1]) + [cs[|cs| - 1].revision]
  }

  /** `d.get(key, None)` */
  function Lookup(d: map<string, string>, key: string): (r: Option<string>)
    ensures r.Some? <==> key in d
    ensures r.Some? ==> r.value == d[key]
  {
    if key in d then Some(d[key]) else None
  }

  /** The resume point occurs among the revisions of `cs`. */
  predicate Reached(cs: seq<Commit>, resumePoint: Option<string>) {
    resumePoint.Some? && resumePoint.value in Revisions(cs)
  }

  /** The commits `get_commits` keeps from a newest-first list: those before
      the first commit whose revision is the resume point. With no resume
      point, or one that never occurs, every commit is kept. */
  function FilterNew(cs: seq<Commit>, resumePoint: Option<string>): seq<Commit> {
    match resumePoint
    case None => cs
    case Some(rev) => cs[..IndexOf(Revisions(cs), rev)]
  }

  /** The kept commits are a prefix of the log without the resume point;
      the commit right after them is the resume point; and everything is
      kept exactly when the resume point is absent or never met. */
  lemma FilterNewKeeps(cs: seq<Commit>, resumePoint: Option<string>)
    ensures var r := FilterNew(cs, resumePoint);
      && |r| <= |cs| && r == cs[..|r|]
      && (resumePoint.Some? ==> forall k :: 0 <= k < |r| ==> r[k].revision != resumePoint.value)
      && (|r| < |cs| ==> resumePoint.Some? && cs[|r|].revision == resumePoint.value)
      && (!Reached(cs, resumePoint) <==> r == cs)
  {
  }

  /** Adding an older commit to the list adds it to the kept commits exactly
      when the resume point has not been met yet and it is not the resume
      point itself. */
  lemma FilterNewSnoc(cs: seq<Commit>, c: Commit, resumePoint: Option<string>)
    ensures Reached(cs + [c], resumePoint) <==> Reached(cs, resumePoint) || (resumePoint.Some? && c.revision == resumePoint.value)
    ensures FilterNew(cs + [c], resumePoint)
         == if Reached(cs, resumePoint) || (resumePoint.Some? && c.revision == resumePoint.value)
            then FilterNew(cs, resumePoint) else cs + [c]
  {
    var rs := Revisions(cs + [c]);
    assert rs == Revisions(cs) + [c.revision];
    if resumePoint.Some? {
      var rev := resumePoint.value;
      var i := IndexOf(Revisions(cs), rev);
      IndexOfSnoc(Revisions(cs), c.revision, rev);
    }
  }

  /** How `get_commits` turns a block into a commit, given the package
      and the branch: `CvcCommit(pkg, branch, log)`, which is `CommitParser`.
      The reading functions below take it as a parameter so that what they
      promise does not depend on the details of commit parsing. */
  type CommitReader = (string, string) -> Block -> Result<Commit, Error>

  /** `CvcCommit(pkg, branch, log)` as a function of the block. */
  function CommitParser(pkg: string, branch: string): Block -> Result<Commit, Error> {
    b => ParseCommit(pkg, branch, b)
  }

  /** The package name of `Name  : epdb:source`: the last token, cut at its
      first `:`. */
  function PackageName(line: string): (pkg: string)
    requires |line| > 0 && !IsSpace(line[0])
    ensures var last := LastToken(line);
      && ':' !in pkg && StartsWith(last, pkg) && (|pkg| < |last| ==> last[|pkg|] == ':')
  {
    var last := LastToken(line);
    var pkg := SplitOn(last, ':')[0];
    assert pkg == last[..IndexOf(last, ':')];
    pkg
  }

  /** `line.split()[-1]` for a line that starts with a non-blank. */
  function LastToken(line: string): (t: string)
    requires |line| > 0 && !IsSpace(line[0])
    ensures |Split(line)| > 0 && t == Split(line)[|Split(line)| - 1]
    ensures IsToken(t)
  {
    var s := Split(line);
    assert s == [line[..TokenEnd(line, 0)]] + Split(line[TokenEnd(line, 0)..]);
    s[|s| - 1]
  }

  /** The metadata and commits of one package's log. */
  datatype PackageLog = PackageLog(pkg: string, branch: string, commits: seq<Commit>)

  /** Both metadata lines are present: `Name…` then `Branch…`. */
  predicate HasMetadata(history: seq<string>) {
    |history| >= 2 && StartsWith(history[0], "Name") && StartsWith(history[1], "Branch")
  }

  /** Everything `get_commits` reads from a log before the resume filter:
      the package and branch from the metadata lines and one commit per
      header line of the remaining lines, newest first, each parsed from
      its own block. */
  function ReadLog(read: CommitReader, history: seq<string>): Result<PackageLog, Error> {
    if !HasMetadata(history) then Failure(MalformedMetadata)
    else
      assert history[0][..4] == "Name" && history[1][..6] == "Branch";
      var pkg := PackageName(history[0]);
      var branch := LastToken(history[1]);
      var parsed := MapResult(read(pkg, branch), Blocks(NonBlankStart, history[2..]));
      if parsed.Failure? then Failure(parsed.error)
      else Success(PackageLog(pkg, branch, parsed.value))
  }

  /** A log without both metadata lines is rejected; one that reads yields
      a package name without `:` and one commit per header line. */
  lemma ReadLogShape(read: CommitReader, history: seq<string>)
    ensures !HasMetadata(history) ==> ReadLog(read, history) == Failure(MalformedMetadata)
    ensures ReadLog(read, history).Success? ==> var log := ReadLog(read, history).value;
      && HasMetadata(history) && ':' !in log.pkg
      && |log.commits| == |Blocks(NonBlankStart, history[2..])| == CountHeaders(NonBlankStart, history[2..])
  {
    if HasMetadata(history) {
      BlocksPartitionLog(NonBlankStart, history[2..]);
      assert history[0][..4] == "Name" && history[1][..6] == "Branch";
      MapResultMeaning(read(PackageName(history[0]), LastToken(history[1])), Blocks(NonBlankStart, history[2..]));
    }
  }

  /** The commits of a log that reads are its blocks, each parsed by
      `CvcCommit`, in the order of the log. */
  lemma ReadLogCommits(history: seq<string>)
    requires ReadLog(CommitParser, history).Success?
    ensures var log := ReadLog(CommitParser, history).value; var blocks := Blocks(NonBlankStart, history[2..]);
      |log.commits| == |blocks| &&
      forall k :: 0 <= k < |log.commits| ==> ParseCommit(log.pkg, log.branch, blocks[k]) == Success(log.commits[k])
  {
    var log := ReadLog(CommitParser, history).value;
    var blocks := Blocks(NonBlankStart, history[2..]);
    var read := CommitParser(log.pkg, log.branch);
    assert log.commits == MapResult(read, blocks).value by {
      assert history[0][..4] == "Name" && history[1][..6] == "Branch";
    }
    MapResultMeaning(read, blocks);
    forall k | 0 <= k < |log.commits|
      ensures ParseCommit(log.pkg, log.branch, blocks[k]) == Success(log.commits[k])
    {
      assert read(blocks[k]) == ParseCommit(log.pkg, log.branch, blocks[k]);
    }
  }

  /** The `resume_info` dictionary: package name to the newest revision
      already converted. `get_commits` reads it and writes it back. */
  class ResumeInfo {
    var entries: map<string, string>

    constructor(entries: map<string, string>)
      ensures this.entries == entries
    {
      this.entries := entries;
    }

    /** `resume_info.get(pkg, None)` */
    function Get(pkg: string): (r: Option<string>)
      reads this
      ensures r == Lookup(entries, pkg)
    {
      Lookup(entries, pkg)
    }
  }

  /** What one `get_commits` call yields for a log, given the resume
      dictionary before the call: the commits newer than the package's
      resume point, newest first, and the dictionary after the call. Only
      the package's own entry can change, and only when something new was
      found; it then names the newest commit. */
  function NewCommits(read: CommitReader, history: seq<string>, entries: map<string, string>): Result<(seq<Commit>, map<string, string>), Error> {
    match ReadLog(read, history)
    case Failure(e) => Failure(e)
    case Success(log) =>
      var cs := FilterNew(log.commits, Lookup(entries, log.pkg));
      Success((cs, if |cs| > 0 then entries[log.pkg := cs[0].revision] else entries))
  }

  /** `get_commits` fails exactly when the log does not read, with its
      error. Otherwise it yields the commits before the resume point, and of
      the dictionary only the package's own entry can change: it then names
      the newest new commit, and with nothing new it is left alone. */
  lemma NewCommitsSpec(read: CommitReader, history: seq<string>, entries: map<string, string>)
    ensures ReadLog(read, history).Failure? ==> NewCommits(read, history, entries) == Failure(ReadLog(read, history).error)
    ensures ReadLog(read, history).Success? ==>
      var log := ReadLog(read, history).value;
      var cs, m := NewCommits(read, history, entries).value.0, NewCommits(read, history, entries).value.1;
      && NewCommits(read, history, entries).Success?
      && cs == FilterNew(log.commits, Lookup(entries, log.pkg))
      && (forall key :: key != log.pkg ==> Lookup(m, key) == Lookup(entries, key))
      && (|cs| > 0 ==> Lookup(m, log.pkg) == Some(cs[0].revision))
      && (|cs| == 0 ==> m == entries)
  {
  }

  /** The state the loop of `get_commits` has reached after the blocks
      `bs`: the commits kept so far and whether the resume point has been
      seen; the first block that fails to parse is the error. */
  function Scan(parse: Block -> Result<Commit, Error>, bs: seq<Block>, resumePoint: Option<string>): Result<(seq<Commit>, bool), Error>
    decreases |bs|
  {
    if |bs| == 0 then Success(([], false))
    else
      match Scan(parse, bs[..|bs| - 1], resumePoint)
      case Failure(e) => Failure(e)
      case Success(st) =>
        match parse(bs[|bs| - 1])
        case Failure(e) => Failure(e)
        case Success(c) => Success(Keep(st, c, resumePoint))
  }

  /** The two tests of the `get_commits` loop for one parsed commit, on the
      state (commits kept, resume point seen): the resume point is marked as
      seen when the commit is that revision, and the commit is kept only
      while the resume point has not been seen. */
  function Keep(st: (seq<Commit>, bool), c: Commit, resumePoint: Option<string>): (seq<Commit>, bool) {
    var got := st.1 || (resumePoint.Some? && c.revision == resumePoint.value);
    (if got then st.0 else st.0 + [c], got)
  }

  /** The loop keeps exactly the commits before the resume point, and it
      fails exactly when parsing some block fails, with the first error. */
  lemma {:induction false} ScanIsFilter(parse: Block -> Result<Commit, Error>, bs: seq<Block>, resumePoint: Option<string>)
    ensures MapResult(parse, bs).Failure? ==> Scan(parse, bs, resumePoint) == Failure(MapResult(parse, bs).error)
    ensures MapResult(parse, bs).Success? ==> var cs := MapResult(parse, bs).value;
      Scan(parse, bs, resumePoint) == Success((FilterNew(cs, resumePoint), Reached(cs, resumePoint)))
    decreases |bs|
  {
    if |bs| > 0 {
      var init := bs[..|bs| - 1];
      ScanIsFilter(parse, init, resumePoint);
      if MapResult(parse, init).Success? && parse(bs[|bs| - 1]).Success? {
        var cs := MapResult(parse, init).value;
        assert MapResult(parse, bs).value == cs + [parse(bs[|bs| - 1]).value];
        FilterNewSnoc(cs, parse(bs[|bs| - 1]).value, resumePoint);
        FilterNewKeeps(cs, resumePoint);
      }
    } else {
      assert Revisions([]) == [];
    }
  }

  /** A block that parses extends the scan by its commit. */
  lemma ScanSnoc(parse: Block -> Result<Commit, Error>, done: seq<Block>, b: Block, resumePoint: Option<string>)
    requires Scan(parse, done, resumePoint).Success? && parse(b).Success?
    ensures Scan(parse, done + [b], resumePoint) ==
      Success(Keep(Scan(parse, done, resumePoint).value, parse(b).value, resumePoint))
  {
    assert (done + [b])[..|done|] == done;
  }

  /** A block at header `i` that fails to parse is the failure of the whole
      log. */
  lemma ScanStopsAt(parse: Block -> Result<Commit, Error>, h: seq<string>, done: seq<Block>, i: nat, resumePoint: Option<string>)
    requires i < |h| && IsHeader(NonBlankStart, h[i])
    requires Blocks(NonBlankStart, h) == done + BlocksFrom(NonBlankStart, h, i)
    requires Scan(parse, done, resumePoint).Success?
    requires parse(Block(h[i], h[i + 1..NextHeader(NonBlankStart, h, i + 1)])).Failure?
    ensures Scan(parse, Blocks(NonBlankStart, h), resumePoint) ==
      Failure(parse(Block(h[i], h[i + 1..NextHeader(NonBlankStart, h, i + 1)])).error)
  {
    var n := NextHeader(NonBlankStart, h, i + 1);
    var b := Block(h[i], h[i + 1..n]);
    BlocksStep(NonBlankStart, h, done, i);
    ScanIsFilter(parse, done, resumePoint);
    MapResultSnoc(parse, done, b);
    MapResultFailurePersists(parse, done + [b], BlocksFrom(NonBlankStart, h, n));
    ScanIsFilter(parse, Blocks(NonBlankStart, h), resumePoint);
  }

  /** The two `if`s of the `get_commits` loop body, as written. */
  method KeepCommit(commits: seq<Commit>, gotResumePoint: bool, commit: Commit, resumePoint: Option<string>)
    returns (commits': seq<Commit>, gotResumePoint': bool)
    ensures (commits', gotResumePoint') == Keep((commits, gotResumePoint), commit, resumePoint)
  {
    commits', gotResumePoint' := commits, gotResumePoint;
    if !gotResumePoint' && resumePoint.Some? && commit.revision == resumePoint.value {
      gotResumePoint' := true;
    }
    if !gotResumePoint' {
      commits' := commits' + [commit];
    }
  }

  /** One pass of the `get_commits` loop at header `i`: the block up to the
      next header is parsed, and on success the two tests decide what is
      kept. `done` (proof only) holds the blocks already passed. */
  method ScanBlock(parse: Block -> Result<Commit, Error>, h: seq<string>, i: nat, resumePoint: Option<string>,
                   commits: seq<Commit>, gotResumePoint: bool, ghost done: seq<Block>)
    returns (r: Result<(seq<Commit>, bool), Error>, n: nat, ghost done': seq<Block>)
    requires i < |h| && IsHeader(NonBlankStart, h[i])
    requires Blocks(NonBlankStart, h) == done + BlocksFrom(NonBlankStart, h, i)
    requires Scan(parse, done, resumePoint) == Success((commits, gotResumePoint))
    ensures r.Failure? ==> Scan(parse, Blocks(NonBlankStart, h), resumePoint) == Failure(r.error)
    ensures r.Success? ==> (
      && i < n <= |h| && (n == |h| || IsHeader(NonBlankStart, h[n]))
      && Blocks(NonBlankStart, h) == done' + BlocksFrom(NonBlankStart, h, n)
      && Scan(parse, done', resumePoint) == r)
  {
    n := LocateNextCommit(NonBlankStart, h, i + 1);
    var parsedCommit := parse(Block(h[i], h[i + 1..n]));
    if parsedCommit.Failure? {
      ScanStopsAt(parse, h, done, i, resumePoint);
      return Failure(parsedCommit.error), n, done;
    }
    BlocksStep(NonBlankStart, h, done, i);
    ScanSnoc(parse, done, Block(h[i], h[i + 1..n]), resumePoint);
    var kept, got := KeepCommit(commits, gotResumePoint, parsedCommit.value, resumePoint);
    r := Success((kept, got));
    done' := done + [Block(h[i], h[i + 1..n])];
  }

  /** The loop of `get_commits`: each block of the log body parsed in
      turn by `parse` (`CvcCommit` with the package and branch fixed), the
      commits before the first one at the resume point kept. The first
      block that fails to parse aborts the loop with its error. */
  method CollectNew(parse: Block -> Result<Commit, Error>, h: seq<string>, resumePoint: Option<string>) returns (r: Result<seq<Commit>, Error>)
    ensures Scan(parse, Blocks(NonBlankStart, h), resumePoint).Failure? ==>
      r == Failure(Scan(parse, Blocks(NonBlankStart, h), resumePoint).error)
    ensures Scan(parse, Blocks(NonBlankStart, h), resumePoint).Success? ==>
      r == Success(Scan(parse, Blocks(NonBlankStart, h), resumePoint).value.0)
  {
    var i := LocateNextCommit(NonBlankStart, h, 0);
    var gotResumePoint := false;
    var commits: seq<Commit> := [];
    ghost var done: seq<Block> := [];
    assert Blocks(NonBlankStart, h) == done + BlocksFrom(NonBlankStart, h, i);
    while i < |h|
      invariant i <= |h| && (i == |h| || IsHeader(NonBlankStart, h[i]))
      invariant Blocks(NonBlankStart, h) == done + BlocksFrom(NonBlankStart, h, i)
      invariant Scan(parse, done, resumePoint) == Success((commits, gotResumePoint))
      decreases |h| - i
    {
      var step, n, done' := ScanBlock(parse, h, i, resumePoint, commits, gotResumePoint, done);
      if step.Failure? {
        return Failure(step.error);
      }
      commits, gotResumePoint := step.value.0, step.value.1;
      done := done';
      i := n;
    }
    assert done == Blocks(NonBlankStart, h);
    return Success(commits);
  }

  /** `get_commits`: the commits of the log newer than the package's resume
      point, newest first; the newest of them becomes the package's resume
      point. A malformed log or commit aborts before the dictionary is
      touched. */
  method GetCommits(read: CommitReader, history: seq<string>, resume: ResumeInfo) returns (r: Result<seq<Commit>, Error>)
    modifies resume
    ensures NewCommits(read, history, old(resume.entries)).Failure? ==>
      r == Failure(NewCommits(read, history, old(resume.entries)).error) && resume.entries == old(resume.entries)
    ensures NewCommits(read, history, old(resume.entries)).Success? ==>
      r == Success(NewCommits(read, history, old(resume.entries)).value.0) && resume.entries == NewCommits(read, history, old(resume.entries)).value.1
  {
    if !HasMetadata(history) {
      return Failure(MalformedMetadata);
    }
    assert history[0][..4] == "Name" && history[1][..6] == "Branch";
    var pkg := PackageName(history[0]);
    var branch := LastToken(history[1]);
    var resumePoint := resume.Get(pkg);
    var got := CollectNew(read(pkg, branch), history[2..], resumePoint);
    ScanIsFilter(read(pkg, branch), Blocks(NonBlankStart, history[2..]), resumePoint);
    if got.Failure? {
      return Failure(got.error);
    }
    var commits := got.value;
    if |commits| > 0 {
      resume.entries := resume.entries[pkg := commits[0].revision];
    }
    return Success(commits);
  }
}
