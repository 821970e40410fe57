/** The progress note of cvc2git.py: `store_progress` writes the resume
    dictionary into a git note as blank-separated `pkg=revision` pairs and
    `get_resume_info` reads it back with `dict([x.split("=") for x in
    output.split()])`. Only the text is modelled; running `git notes` is
    not. */
module Progress {
  import opened Wrappers
  import opened Text

  /** `"%s=%s" % (k, v)` */
  function PairText(item: (string, string)): string {
    item.0 + "=" + item.1
  }

  /** The note `store_progress` writes for the dictionary's items, listed in
      the order the dictionary yields them. */
  function EncodeProgress(items: seq<(string, string)>): (note: string) {
    Join(" ", seq(|items|, k requires 0 <= k < |items| => PairText(items[k])))
  }

  /** `x.split("=")` as one entry of `dict(...)`: it must have exactly two
      pieces, the text around the only `=`. */
  function ParsePair(tok: string): (r: Result<(string, string), Error>)
    ensures r.Success? <==> |SplitOn(tok, '=')| == 2
    ensures r.Success? ==> tok == PairText(r.value) && '=' !in r.value.0 && '=' !in r.value.1
    ensures r.Failure? ==> r.error == MalformedProgress
  {
    var parts := SplitOn(tok, '=');
    if |parts| != 2 then Failure(MalformedProgress)
    else
      assert parts[1..] == [parts[1]];
      Success((parts[0], parts[1]))
  }

  /** `dict(pairs)`: later pairs overwrite earlier ones with the same key. */
  function ToMap(items: seq<(string, string)>): (m: map<string, string>)
    ensures forall i :: 0 <= i < |items| ==> items[i].0 in m
    ensures forall key :: key in m ==> exists i :: 0 <= i < |items| && items[i].0 == key
    ensures forall i :: 0 <= i < |items| && (forall j :: i < j < |items| ==> items[j].0 != items[i].0) ==> m[items[i].0] == items[i].1
    decreases |items|
  {
    if |items| == 0 then map[]
    else
      var init := items[..|items| - 1];
      var last := items[|items| - 1];
      var m := ToMap(init)[last.0 := last.1];
      assert forall i :: 0 <= i < |init| ==> init[i] == items[i];
      m
  }

  /** `get_resume_info` on a note: every blank-separated token must split
      into a key and a value, else the whole read fails. */
  function DecodeProgress(note: string): (r: Result<map<string, string>, Error>)
    ensures r.Failure? <==> exists k :: 0 <= k < |Split(note)| && |SplitOn(Split(note)[k], '=')| != 2
    ensures r.Success? ==> MapResult(ParsePair, Split(note)).Success? && r.value == ToMap(MapResult(ParsePair, Split(note)).value)
  {
    MapResultMeaning(ParsePair, Split(note));
    match MapResult(ParsePair, Split(note))
    case Failure(e) => Failure(e)
    case Success(items) => Success(ToMap(items))
  }

  /** `get_resume_info`: an empty dictionary for a repository without
      commits, otherwise the decoded note of HEAD. Whether the repository
      is new and the note's text come from `git` and are parameters. */
  function GetResumeInfo(initialRepo: bool, note: string): (r: Result<map<string, string>, Error>)
    ensures initialRepo ==> r == Success(map[])
    ensures !initialRepo ==> r == DecodeProgress(note)
  {
    if initialRepo then Success(map[]) else DecodeProgress(note)
  }

  /** Keys and values as `store_progress` can write them unambiguously: no
      blank and no `=`. */
  predicate Writable(items: seq<(string, string)>) {
    forall k :: 0 <= k < |items| ==>
      NoSpace(items[k].0) && NoSpace(items[k].1) && '=' !in items[k].0 && '=' !in items[k].1
  }

  /** `items` lists every entry of `m` exactly once. */
  predicate Enumerates(items: seq<(string, string)>, m: map<string, string>) {
    && (forall i :: 0 <= i < |items| ==> items[i].0 in m && m[items[i].0] == items[i].1)
    && (forall key :: key in m ==> exists i :: 0 <= i < |items| && items[i].0 == key)
    && (forall i, j :: 0 <= i < j < |items| ==> items[i].0 != items[j].0)
  }

  lemma PairRoundTrip(item: (string, string))
    requires NoSpace(item.0) && NoSpace(item.1) && '=' !in item.0 && '=' !in item.1
    ensures IsToken(PairText(item))
    ensures ParsePair(PairText(item)) == Success(item)
  {
    var t := PairText(item);
    assert [item.0, item.1][1..] == [item.1];
    assert Join("=", [item.0, item.1]) == t;
    SplitOnJoin([item.0, item.1], '=');
    assert t[|item.0|] == '=';
  }

  /** Decoding an encoded note gives back the dictionary the items build. */
  lemma ProgressRoundTrip(items: seq<(string, string)>)
    requires Writable(items)
    ensures DecodeProgress(EncodeProgress(items)) == Success(ToMap(items))
  {
    var ts := seq(|items|, k requires 0 <= k < |items| => PairText(items[k]));
    forall k | 0 <= k < |items|
      ensures IsToken(ts[k]) && ParsePair(ts[k]) == Success(items[k])
    {
      PairRoundTrip(items[k]);
    }
    SplitJoin(ts);
    var r := MapResult(ParsePair, ts);
    MapResultMeaning(ParsePair, ts);
    assert r.Success?;
    assert r.value == items;
  }

  /** A dictionary listed once per key is what `dict` rebuilds. */
  lemma ToMapEnumerates(items: seq<(string, string)>, m: map<string, string>)
    requires Enumerates(items, m)
    ensures ToMap(items) == m
  {
    var r := ToMap(items);
    forall key | key in m
      ensures key in r && r[key] == m[key]
    {
      var i :| 0 <= i < |items| && items[i].0 == key;
      assert forall j :: i < j < |items| ==> items[j].0 != items[i].0;
    }
  }

  /** `get_resume_info` on a repository with commits reads back what
      `store_progress` stored, whatever order the dictionary's items came
      in. */
  lemma StoreThenGet(items: seq<(string, string)>, m: map<string, string>)
    requires Writable(items) && Enumerates(items, m)
    ensures GetResumeInfo(false, EncodeProgress(items)) == Success(m)
  {
    ProgressRoundTrip(items);
    ToMapEnumerates(items, m);
  }
}
