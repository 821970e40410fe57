/** `CvcCommit` of cvc2git.py: one commit block turned into fields. The
    fields are assigned once, in `__init__`, and never changed afterwards, so
    a commit is a value here. */
module Commits {
  import opened Wrappers
  import opened Text
  import opened LogParser
  import opened Timestamps

  datatype Commit = Commit(
    pkg: string,
    branch: string,
    revision: string,
    authorName: string,
    authorEmail: string,
    date: Timestamp,
    msg: string)

  /** ` (` starts at `p` and leaves room for the closing `)` after it. */
  predicate OpenAt(s: string, p: int) {
    0 <= p && p + 3 <= |s| && s[p] == ' ' && s[p + 1] == '('
  }

  /** The last `p <= from` where `OpenAt(s, p)`, or -1. */
  function LastOpen(s: string, from: int): (q: int)
    requires -1 <= from < |s|
    ensures -1 <= q <= from
    ensures q >= 0 ==> OpenAt(s, q)
    ensures forall k :: q < k <= from ==> !OpenAt(s, k)
    decreases from + 1
  {
    if from < 0 then -1 else if OpenAt(s, from) then from else LastOpen(s, from - 1)
  }

  /** `re.match("^(.*) \((.*)\)$", blob).groups()`. `.` does not match a line
      break and `$` also matches before a final line break; the greedy first
      group ends at the last ` (` that still leaves a closing `)`. */
  function SplitAuthor(blob: string): (r: Option<(string, string)>)
    ensures r.Some? ==> var b := r.value.0 + " (" + r.value.1 + ")"; blob == b || blob == b + "\n"
    ensures r.Some? ==> '\n' !in r.value.0 + r.value.1 && !IsSubstring(" (", r.value.1)
  {
    var b := if |blob| > 0 && blob[|blob| - 1] == '\n' then blob[..|blob| - 1] else blob;
    if '\n' in b || |b| == 0 || b[|b| - 1] != ')' then None
    else
      var p := LastOpen(b, |b| - 1);
      if p < 0 then None
      else
        var name, email := b[..p], b[p + 2..|b| - 1];
        assert b == name + " (" + email + ")";
        forall i | 0 <= i <= |email| - 2
          ensures !OccursAt(" (", email, i)
        {
          assert !OpenAt(b, p + 2 + i);
          assert email[i] == b[p + 2 + i] && email[i + 1] == b[p + 3 + i];
          assert email[i..i + 2][0] == email[i] && email[i..i + 2][1] == email[i + 1];
        }
        assert forall i :: 0 <= i < |name + email| ==> (name + email)[i] in b;
        Some((name, email))
  }

  /** A blob written as `name (email)`, with no ` (` in the email and no line
      break anywhere, splits back into that name and email. */
  lemma AuthorRoundTrip(name: string, email: string)
    requires '\n' !in name + email
    requires !IsSubstring(" (", email)
    ensures SplitAuthor(name + " (" + email + ")") == Some((name, email))
  {
    var b := name + " (" + email + ")";
    assert LastOpen(b, |b| - 1) == |name| by {
      LastOpenOfAuthor(name, email);
    }
    assert '\n' !in b by {
      assert forall i :: 0 <= i < |b| ==> b[i] == ' ' || b[i] == '(' || b[i] == ')' || b[i] in name + email;
    }
    assert b[..|name|] == name && b[|name| + 2..|b| - 1] == email;
  }

  /** In `name (email)` with no ` (` in the email, the last ` (` is the one
      after the name. */
  lemma LastOpenOfAuthor(name: string, email: string)
    requires !IsSubstring(" (", email)
    ensures var b := name + " (" + email + ")"; LastOpen(b, |b| - 1) == |name|
  {
    var b := name + " (" + email + ")";
    var p := |name|;
    assert OpenAt(b, p);
    forall k | p < k <= |b| - 1
      ensures !OpenAt(b, k)
    {
      if k == p + 1 {
        assert b[k] == '(';
      } else if k + 3 <= |b| {
        assert b[k] == email[k - p - 2] && b[k + 1] == email[k - p - 1];
        assert !OccursAt(" (", email, k - p - 2);
        assert email[k - p - 2..k - p] == [email[k - p - 2], email[k - p - 1]];
      }
    }
  }

  /** `CvcCommit._parse`: header split, message reformatted, author matched
      against `name (email)`, date read by `strptime`; each failure is the
      exception the Python code would raise. */
  function ParseCommit(pkg: string, branch: string, b: Block): (r: Result<Commit, Error>)
  {
    match ParseHeader(b.header)
    case Failure(e) => Failure(e)
    case Success(h) =>
      match SplitAuthor(h.who)
      case None => Failure(MalformedAuthor)
      case Some(author) =>
        match ParseDate(h.date)
        case None => Failure(MalformedDate)
        case Some(t) => Success(Commit(pkg, branch, h.revision, author.0, author.1, t, ReformatMsgBody(b.body)))
  }

  /** A commit that parses carries the package and branch it was given,
      the first token of its header as revision, the name and email the
      author blob matches as, the date that `strptime` reads from the
      header's last five tokens, and the tidied message. */
  lemma ParseCommitFields(pkg: string, branch: string, b: Block)
    requires ParseCommit(pkg, branch, b).Success?
    ensures var c := ParseCommit(pkg, branch, b).value;
      && c.pkg == pkg && c.branch == branch && c.msg == ReformatMsgBody(b.body)
      && Split(b.header) != [] && c.revision == Split(b.header)[0]
      && SplitAuthor(HeaderOfTokens(Split(b.header)).who) == Some((c.authorName, c.authorEmail))
      && ParseDate(HeaderOfTokens(Split(b.header)).date) == Some(c.date)
  {
  }

  /** `CvcCommit` raises on a header with no token, on an author blob that
      does not match `name (email)`, and on a date `strptime` refuses, in
      that order; nothing else makes it fail. */
  lemma ParseCommitErrors(pkg: string, branch: string, b: Block)
    ensures var r, s := ParseCommit(pkg, branch, b), Split(b.header);
      && (s == [] ==> r == Failure(MalformedHeader))
      && (s != [] && SplitAuthor(HeaderOfTokens(s).who).None? ==> r == Failure(MalformedAuthor))
      && (s != [] && SplitAuthor(HeaderOfTokens(s).who).Some? && ParseDate(HeaderOfTokens(s).date).None?
          ==> r == Failure(MalformedDate))
      && (r.Failure? <==> s == [] || SplitAuthor(HeaderOfTokens(s).who).None? || ParseDate(HeaderOfTokens(s).date).None?)
  {
  }

  /** The tokens of a header line as `cvc log` writes it: the revision, the
      author name tokens, `(email)`, then the five date fields with the day in
      `dayWidth` digits. */
  function LogHeaderTokens(rev: string, nameTokens: seq<string>, email: string,
                           weekday: nat, t: Timestamp, dayWidth: nat): seq<string>
    requires weekday < 7
  {
    [rev] + nameTokens + ["(" + email + ")"] + LogDateFields(weekday, t, dayWidth)
  }

  /** A header line made of a revision, author tokens and five date tokens
      splits back into those three parts. */
  lemma HeaderFromTokens(rev: string, who: seq<string>, fs: seq<string>)
    requires IsToken(rev) && |who| > 0 && |fs| == 5
    requires forall k :: 0 <= k < |who| ==> IsToken(who[k])
    requires forall k :: 0 <= k < |fs| ==> IsToken(fs[k])
    ensures ParseHeader(Join(" ", [rev] + who + fs)) == Success(Header(rev, Join(" ", who), Join(" ", fs)))
  {
    var s := [rev] + who + fs;
    assert forall k :: 0 <= k < |s| ==> IsToken(s[k]);
    SplitJoin(s);
    HeaderTokens(s);
    assert s[1..|s| - 5] == who;
    assert s[|s| - 5..] == fs;
  }

  /** A header line laid out as blank runs around a revision, author tokens,
      `(email)` and five date tokens splits back into the revision, the blob
      `name (email)` and the date fields joined by single blanks, whatever the
      runs are. */
  lemma HeaderLineFields(gaps: seq<string>, rev: string, nameTokens: seq<string>, email: string, fs: seq<string>)
    requires Separates(gaps, |nameTokens| + 7)
    requires IsToken(rev) && |nameTokens| > 0
    requires forall k :: 0 <= k < |nameTokens| ==> IsToken(nameTokens[k])
    requires NoSpace(email)
    requires |fs| == 5 && forall k :: 0 <= k < 5 ==> IsToken(fs[k])
    ensures ParseHeader(Weave(gaps, [rev] + nameTokens + ["(" + email + ")"] + fs))
         == Success(Header(rev, Join(" ", nameTokens) + " (" + email + ")", Join(" ", fs)))
  {
    var emailTok := "(" + email + ")";
    var ts := [rev] + nameTokens + [emailTok] + fs;
    var n := |ts|;
    assert IsToken(emailTok);
    assert forall k :: 0 <= k < n ==> IsToken(ts[k]);
    SplitWeave(gaps, ts);
    assert ts[1..n - 5] == nameTokens + [emailTok];
    assert ts[n - 5..] == fs;
    var name := Join(" ", nameTokens);
    assert Join(" ", nameTokens + [emailTok]) == name + " (" + email + ")" by {
      JoinSnoc(" ", nameTokens, emailTok);
      assert name + " " + emailTok == name + " (" + email + ")";
    }
  }

  /** An email without blanks cannot contain ` (`. */
  lemma NoSpaceNoOpen(email: string)
    requires NoSpace(email)
    ensures !IsSubstring(" (", email)
  {
    forall i | 0 <= i <= |email| - 2
      ensures !OccursAt(" (", email, i)
    {
      assert email[i..i + 2][0] == email[i];
    }
  }

  /** Parsing a block whose header is laid out as `cvc log` writes it
      (`Mon Jan  5` has a one-digit day after two blanks, and any blank runs
      are allowed between the tokens) recovers the revision, the author name
      and email, the timestamp, and the tidied message. */
  lemma ParseHeaderLine(pkg: string, branch: string, gaps: seq<string>, rev: string, nameTokens: seq<string>,
                        email: string, weekday: nat, t: Timestamp, dayWidth: nat, body: seq<string>)
    requires weekday < 7
    requires 1 <= dayWidth <= 2 && t.day < Pow10(dayWidth)
    requires IsToken(rev) && |nameTokens| > 0
    requires forall k :: 0 <= k < |nameTokens| ==> IsToken(nameTokens[k])
    requires NoSpace(email)
    requires Separates(gaps, |nameTokens| + 7)
    ensures ParseCommit(pkg, branch, Block(Weave(gaps, LogHeaderTokens(rev, nameTokens, email, weekday, t, dayWidth)), body))
         == Success(Commit(pkg, branch, rev, Join(" ", nameTokens), email, t, ReformatMsgBody(body)))
  {
    var fs := LogDateFields(weekday, t, dayWidth);
    var date := Join(" ", fs);
    var name := Join(" ", nameTokens);
    var who := name + " (" + email + ")";
    var line := Weave(gaps, LogHeaderTokens(rev, nameTokens, email, weekday, t, dayWidth));
    assert ParseDate(date) == Some(t) && forall k :: 0 <= k < 5 ==> IsToken(fs[k]) by {
      ParseJoinedLogDate(weekday, t, dayWidth);
    }
    assert ParseHeader(line) == Success(Header(rev, who, date)) by {
      HeaderLineFields(gaps, rev, nameTokens, email, fs);
    }
    assert SplitAuthor(who) == Some((name, email)) by {
      JoinTokensNoNewline(nameTokens);
      assert forall i :: 0 <= i < |email| ==> email[i] != '\n';
      NoSpaceNoOpen(email);
      AuthorRoundTrip(name, email);
    }
    ParseCommitOfParts(pkg, branch, Block(line, body), Header(rev, who, date), name, email, t);
  }

  /** A block whose header, author blob and date all parse is the commit
      made of those parts. */
  lemma ParseCommitOfParts(pkg: string, branch: string, b: Block, h: Header, name: string, email: string, t: Timestamp)
    requires ParseHeader(b.header) == Success(h)
    requires SplitAuthor(h.who) == Some((name, email))
    requires ParseDate(h.date) == Some(t)
    ensures ParseCommit(pkg, branch, b) == Success(Commit(pkg, branch, h.revision, name, email, t, ReformatMsgBody(b.body)))
  {
  }

  lemma {:induction false} JoinTokensNoNewline(ts: seq<string>)
    requires forall k :: 0 <= k < |ts| ==> IsToken(ts[k])
    ensures '\n' !in Join(" ", ts)
    decreases |ts|
  {
    if |ts| > 1 {
      JoinTokensNoNewline(ts[1..]);
    }
  }
}
