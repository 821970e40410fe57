/** `parse_logs` and `sort_commits` of cvc2git.py: the commits of every
    package are gathered into one list, which is then sorted in place by
    commit date. Python's `list.sort` is stable, so commits with the same
    date keep the order in which they were gathered. */
module Merge {
  import opened Wrappers
  import opened Timestamps
  import opened Commits
  import opened Resume

  /** The sort key `lambda c: c.date`, as an integer that orders like it. */
  function Key(c: Commit): int {
    Ordinal(c.date)
  }

  /** Ascending by date. */
  predicate SortedByDate(s: seq<Commit>) {
    forall i, j :: 0 <= i < j < |s| ==> Key(s[i]) <= Key(s[j])
  }

  /** The commits dated `d`, in their order in `s`. A sort is stable when it
      keeps this list for every date. */
  function SameDate(s: seq<Commit>, d: Timestamp): (r: seq<Commit>)
    ensures |r| <= |s|
    ensures forall k :: 0 <= k < |r| ==> r[k].date == d
  {
    if |s| == 0 then [] else (if s[0].date == d then [s[0]] else []) + SameDate(s[1..], d)
  }

  lemma {:induction false} SameDateAppend(s: seq<Commit>, t: seq<Commit>, d: Timestamp)
    ensures SameDate(s + t, d) == SameDate(s, d) + SameDate(t, d)
    decreases |s|
  {
    if |s| == 0 {
      assert s + t == t;
    } else {
      assert (s + t)[1..] == s[1..] + t;
      SameDateAppend(s[1..], t, d);
    }
  }

  /** `s` with the neighbours at `k` and `k + 1` exchanged. */
  function Swapped(s: seq<Commit>, k: nat): (r: seq<Commit>)
    requires k + 1 < |s|
    ensures |r| == |s| && r[k] == s[k + 1] && r[k + 1] == s[k]
    ensures forall i :: 0 <= i < |s| && i != k && i != k + 1 ==> r[i] == s[i]
  {
    s[k := s[k + 1]][k + 1 := s[k]]
  }

  lemma SameDatePair(x: Commit, y: Commit, d: Timestamp)
    requires x.date != y.date
    ensures SameDate([x, y], d) == SameDate([y, x], d)
  {
    assert [x, y][1..] == [y];
    assert [y, x][1..] == [x];
  }

  /** Exchanging two neighbours with different dates keeps the commits and
      the order among the commits of each date. */
  lemma SwapKeepsDates(s: seq<Commit>, k: nat)
    requires k + 1 < |s| && s[k].date != s[k + 1].date
    ensures forall d :: SameDate(Swapped(s, k), d) == SameDate(s, d)
  {
    var front, x, y, back := s[..k], s[k], s[k + 1], s[k + 2..];
    var t := Swapped(s, k);
    assert s == (front + [x, y]) + back;
    assert t == (front + [y, x]) + back;
    forall d
      ensures SameDate(t, d) == SameDate(s, d)
    {
      SameDateAppend(front + [x, y], back, d);
      SameDateAppend(front, [x, y], d);
      SameDateAppend(front + [y, x], back, d);
      SameDateAppend(front, [y, x], d);
      SameDatePair(x, y, d);
    }
  }

  lemma SwapPermutes(s: seq<Commit>, k: nat)
    requires k + 1 < |s|
    ensures multiset(Swapped(s, k)) == multiset(s)
  {
    var front, x, y, back := s[..k], s[k], s[k + 1], s[k + 2..];
    assert s == front + [x, y] + back;
    assert Swapped(s, k) == front + [y, x] + back;
    assert multiset([x, y]) == multiset([y, x]);
  }

  /** Exchanges `a[j - 1]` and `a[j]`, two commits with different dates. */
  method SwapNeighbours(a: array<Commit>, j: nat)
    requires 0 < j < a.Length && a[j - 1].date != a[j].date
    modifies a
    ensures a[..] == Swapped(old(a[..]), j - 1)
    ensures multiset(a[..]) == multiset(old(a[..]))
    ensures forall d :: SameDate(a[..], d) == SameDate(old(a[..]), d)
  {
    SwapKeepsDates(a[..], j - 1);
    SwapPermutes(a[..], j - 1);
    a[j - 1], a[j] := a[j], a[j - 1];
  }

  /** `sort_commits`: sorts the list in place by date, stably. Written as an
      insertion sort that moves a commit left past strictly later ones
      only, which is what makes it stable. */
  method SortCommits(a: array<Commit>)
    modifies a
    ensures SortedByDate(a[..])
    ensures multiset(a[..]) == multiset(old(a[..]))
    ensures forall d :: SameDate(a[..], d) == SameDate(old(a[..]), d)
  {
    for i := 0 to a.Length
      invariant SortedByDate(a[..i])
      invariant multiset(a[..]) == multiset(old(a[..]))
      invariant forall d :: SameDate(a[..], d) == SameDate(old(a[..]), d)
    {
      InsertLast(a, i);
    }
    assert a[..] == a[..a.Length];
  }

  /** Midway through moving `s[i]` left: it now sits at `j`, everything
      up to `i` but it is in order, and everything after it up to `i` is
      dated strictly later. */
  predicate Inserting(s: seq<Commit>, j: nat, i: nat)
    requires j <= i < |s|
  {
    && (forall p, q :: 0 <= p < q <= i && p != j && q != j ==> Key(s[p]) <= Key(s[q]))
    && (forall q :: j < q <= i ==> Key(s[j]) < Key(s[q]))
  }

  lemma InsertingStep(s: seq<Commit>, j: nat, i: nat)
    requires 0 < j <= i < |s| && Inserting(s, j, i) && Key(s[j - 1]) > Key(s[j])
    ensures Inserting(Swapped(s, j - 1), j - 1, i)
  {
  }

  lemma InsertingDone(s: seq<Commit>, j: nat, i: nat)
    requires j <= i < |s| && Inserting(s, j, i) && (j == 0 || Key(s[j - 1]) <= Key(s[j]))
    ensures SortedByDate(s[..i + 1])
  {
  }

  /** Moves `a[i]` left into the sorted prefix `a[..i]`, past the commits
      dated strictly later than it. */
  method InsertLast(a: array<Commit>, i: nat)
    requires i < a.Length && SortedByDate(a[..i])
    modifies a
    ensures SortedByDate(a[..i + 1])
    ensures multiset(a[..]) == multiset(old(a[..]))
    ensures forall d :: SameDate(a[..], d) == SameDate(old(a[..]), d)
  {
    var j := i;
    assert Inserting(a[..], j, i);
    while j > 0 && Key(a[j - 1]) > Key(a[j])
      invariant 0 <= j <= i
      invariant Inserting(a[..], j, i)
      invariant multiset(a[..]) == multiset(old(a[..]))
      invariant forall d :: SameDate(a[..], d) == SameDate(old(a[..]), d)
    {
      InsertingStep(a[..], j, i);
      SwapNeighbours(a, j);
      j := j - 1;
    }
    InsertingDone(a[..], j, i);
  }

  /** The commits and the resume dictionary after `get_commits` has run on
      each log in turn, before sorting; the first malformed log stops
      everything. */
  function Gather(read: CommitReader, histories: seq<seq<string>>, entries: map<string, string>): (r: Result<(seq<Commit>, map<string, string>), Error>)
    decreases |histories|
  {
    if |histories| == 0 then Success(([], entries))
    else
      match Gather(read, histories[..|histories| - 1], entries)
      case Failure(e) => Failure(e)
      case Success(acc) =>
        match NewCommits(read, histories[|histories| - 1], acc.1)
        case Failure(e) => Failure(e)
        case Success(got) => Success((acc.0 + got.0, got.1))
  }

  /** One more log gathered. */
  lemma GatherSnoc(read: CommitReader, histories: seq<seq<string>>, k: nat, entries: map<string, string>)
    requires k < |histories| && Gather(read, histories[..k], entries).Success?
    ensures var acc := Gather(read, histories[..k], entries).value;
      var got := NewCommits(read, histories[k], acc.1);
      Gather(read, histories[..k + 1], entries)
        == if got.Failure? then Failure(got.error) else Success((acc.0 + got.value.0, got.value.1))
  {
    assert histories[..k + 1][..k] == histories[..k];
  }

  /** A log that fails to parse is the failure of the whole gathering. */
  lemma GatherStopsAt(read: CommitReader, histories: seq<seq<string>>, k: nat, entries: map<string, string>)
    requires k < |histories| && Gather(read, histories[..k], entries).Success?
    requires NewCommits(read, histories[k], Gather(read, histories[..k], entries).value.1).Failure?
    ensures Gather(read, histories, entries) ==
      Failure(NewCommits(read, histories[k], Gather(read, histories[..k], entries).value.1).error)
  {
    GatherSnoc(read, histories, k, entries);
    GatherFailurePersists(read, histories[..k + 1], histories[k + 1..], entries);
    assert histories[..k + 1] + histories[k + 1..] == histories;
  }

  lemma {:induction false} GatherFailurePersists(read: CommitReader, histories: seq<seq<string>>, more: seq<seq<string>>, entries: map<string, string>)
    requires Gather(read, histories, entries).Failure?
    ensures Gather(read, histories + more, entries) == Gather(read, histories, entries)
    decreases |more|
  {
    if |more| == 0 {
      assert histories + more == histories;
    } else {
      var init := more[..|more| - 1];
      GatherFailurePersists(read, histories, init, entries);
      var all := histories + more;
      assert all[..|all| - 1] == histories + init;
    }
  }

  /** The loop of `parse_logs`: `get_commits` on each log in turn, the
      results appended to one list. A failing log leaves the dictionary as
      the logs before it updated it. */
  method GatherLogs(read: CommitReader, histories: seq<seq<string>>, resume: ResumeInfo) returns (r: Result<seq<Commit>, Error>)
    modifies resume
    ensures Gather(read, histories, old(resume.entries)).Failure? ==> r == Failure(Gather(read, histories, old(resume.entries)).error)
    ensures Gather(read, histories, old(resume.entries)).Success? ==>
      r == Success(Gather(read, histories, old(resume.entries)).value.0) && resume.entries == Gather(read, histories, old(resume.entries)).value.1
    ensures r.Failure? ==> exists k ::
      && 0 <= k < |histories|
      && Gather(read, histories[..k], old(resume.entries)).Success?
      && resume.entries == Gather(read, histories[..k], old(resume.entries)).value.1
      && NewCommits(read, histories[k], resume.entries).Failure?
  {
    var commits: seq<Commit> := [];
    for k := 0 to |histories|
      invariant Gather(read, histories[..k], old(resume.entries)) == Success((commits, resume.entries))
    {
      var got := GetCommits(read, histories[k], resume);
      if got.Failure? {
        GatherStopsAt(read, histories, k, old(resume.entries));
        assert Gather(read, histories[..k], old(resume.entries)).value.1 == resume.entries;
        return Failure(got.error);
      }
      assert Gather(read, histories[..k + 1], old(resume.entries)) == Success((commits + got.value, resume.entries)) by {
        GatherSnoc(read, histories, k, old(resume.entries));
      }
      commits := commits + got.value;
    }
    assert histories[..|histories|] == histories;
    return Success(commits);
  }

  /** `parse_logs` over the logs already read: every package's new commits,
      sorted by date, stably; the resume dictionary is updated package by
      package. Reading the log files is not modelled. */
  method ParseLogs(histories: seq<seq<string>>, resume: ResumeInfo) returns (r: Result<seq<Commit>, Error>)
    modifies resume
    ensures Gather(CommitParser, histories, old(resume.entries)).Failure? ==> r == Failure(Gather(CommitParser, histories, old(resume.entries)).error)
    ensures Gather(CommitParser, histories, old(resume.entries)).Success? ==>
      var gathered := Gather(CommitParser, histories, old(resume.entries)).value;
      && r.Success?
      && SortedByDate(r.value)
      && multiset(r.value) == multiset(gathered.0)
      && (forall d :: SameDate(r.value, d) == SameDate(gathered.0, d))
      && resume.entries == gathered.1
    ensures r.Failure? ==> exists k ::
      && 0 <= k < |histories|
      && Gather(CommitParser, histories[..k], old(resume.entries)).Success?
      && resume.entries == Gather(CommitParser, histories[..k], old(resume.entries)).value.1
      && NewCommits(CommitParser, histories[k], resume.entries).Failure?
  {
    var gathered := GatherLogs(CommitParser, histories, resume);
    if gathered.Failure? {
      return Failure(gathered.error);
    }
    var commits := gathered.value;
    var a := new Commit[|commits|](i requires 0 <= i < |commits| => commits[i]);
    assert a[..] == commits;
    SortCommits(a);
    return Success(a[..]);
  }
}
