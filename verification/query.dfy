/** The JQL query `pull_issues` sends to the tracker. */
module Query {
  import opened Wrappers
  import opened PyStrings

  const Head := "project = "
  const Middle := " AND" + " resolution is not EMPTY" + " AND resolutiondate >= "
  const Tail := " AND status != Dropped"

  /** The query for the issues of `project` resolved on or after `since`
      and not dropped. */
  function Jql(project: string, since: string): (r: string)
    ensures |r| == |Head| + |project| + |Middle| + |since| + |Tail|
    ensures Head <= r && r[|Head|..|Head| + |project|] == project
    ensures r[|Head| + |project|..|Head| + |project| + |Middle|] == Middle
    ensures r[|r| - |Tail| - |since|..|r| - |Tail|] == since && r[|r| - |Tail|..] == Tail
  {
    Head + project + Middle + since + Tail
  }

  /** Different arguments can give the same query: the text between the
      project and the date may itself be part of the project. */
  lemma JqlAmbiguous(a: string, b: string, c: string)
    ensures Jql(a + Middle + b, c) == Jql(a, b + Middle + c)
  {
    Shift(Head, a, Middle, b, c, Tail);
  }

  lemma Shift(h: string, a: string, m: string, b: string, c: string, t: string)
    ensures h + (a + m + b) + m + c + t == h + a + m + (b + m + c) + t
  {
  }

  /** Reads the project and date back out of a query: the project runs up
      to the first space after the head, the date up to the tail. */
  function ParseJql(q: string): Option<(string, string)> {
    if !(Head <= q) then None
    else
      var rest := q[|Head|..];
      match FindFrom(rest, " ", 0)
      case None => None
      case Some(p) =>
        var after := rest[p..];
        if Middle <= after && |Middle| + |Tail| <= |after| && after[|after| - |Tail|..] == Tail
        then Some((rest[..p], after[|Middle|..|after| - |Tail|]))
        else None
  }

  /** A project key without spaces, as the tracker's keys are, and the date
      can be read back from the query. */
  lemma JqlRoundTrip(project: string, since: string)
    requires forall i :: 0 <= i < |project| ==> project[i] != ' '
    ensures ParseJql(Jql(project, since)) == Some((project, since))
  {
    assert Middle[0] == ' ';
    Disassemble(Head, project, Middle, since, Tail);
  }

  /** The pieces `ParseJql` cuts out of a query it is given. */
  lemma Disassemble(head: string, word: string, middle: string, since: string, tail: string)
    requires forall i :: 0 <= i < |word| ==> word[i] != ' '
    requires middle != [] && middle[0] == ' '
    ensures var q := head + word + middle + since + tail;
            var rest := q[|head|..];
            && head <= q
            && FindFrom(rest, " ", 0) == Some(|word|)
            && rest[..|word|] == word
            && var after := rest[|word|..];
               && middle <= after && |middle| + |tail| <= |after|
               && after[|after| - |tail|..] == tail
               && after[|middle|..|after| - |tail|] == since
  {
    var q := head + word + middle + since + tail;
    var after := middle + since + tail;
    assert q == head + (word + after);
    var rest := q[|head|..];
    assert rest == word + after;
    FirstSpace(word, after);
    assert rest[|word|..] == after;
    assert after[|after| - |tail|..] == tail;
    assert after[|middle|..|after| - |tail|] == since;
  }

  /** The first space of a word without spaces followed by a string that
      starts with one is right after the word. */
  lemma FirstSpace(word: string, after: string)
    requires forall i :: 0 <= i < |word| ==> word[i] != ' '
    requires after != [] && after[0] == ' '
    ensures FindFrom(word + after, " ", 0) == Some(|word|)
  {
    var s := word + after;
    assert s[|word|..|word| + 1] == [' '];
    assert OccursAt(s, " ", |word|);
    forall j: nat | j < |word|
      ensures !OccursAt(s, " ", j)
    {
      assert s[j..j + 1] == [word[j]];
    }
    var r := FindFrom(s, " ", 0);
    assert r.Some?;
    assert r.value == |word|;
  }

  /** Whatever query the parser accepts is the query of what it read. */
  lemma ParseJqlSound(q: string)
    requires ParseJql(q).Some?
    ensures Jql(ParseJql(q).value.0, ParseJql(q).value.1) == q
  {
    var rest := q[|Head|..];
    var p := FindFrom(rest, " ", 0).value;
    Reassemble(q, Head, rest, p, Middle, rest[p..], Tail);
  }

  /** A string cut into a head, a project, a middle, a date and a tail is
      their concatenation. */
  lemma Reassemble(q: string, head: string, rest: string, p: nat, middle: string, after: string, tail: string)
    requires head <= q && rest == q[|head|..]
    requires p <= |rest| && after == rest[p..]
    requires middle <= after && |middle| + |tail| <= |after|
    requires after[|after| - |tail|..] == tail
    ensures head + rest[..p] + middle + after[|middle|..|after| - |tail|] + tail == q
  {
    var since := after[|middle|..|after| - |tail|];
    Frame(after, middle, tail);
    assert rest == rest[..p] + after;
    assert q == head + rest;
    Regroup(head, rest[..p], middle, since, tail);
  }

  /** A string that starts with `middle` and ends with `tail` is the two
      around what lies between them. */
  lemma Frame(s: string, middle: string, tail: string)
    requires middle <= s && |middle| + |tail| <= |s|
    requires s[|s| - |tail|..] == tail
    ensures s == middle + s[|middle|..|s| - |tail|] + tail
  {
    assert s[..|middle|] == middle;
    assert s == s[..|middle|] + s[|middle|..|s| - |tail|] + s[|s| - |tail|..];
  }

  lemma Regroup(a: string, b: string, c: string, d: string, e: string)
    ensures a + b + c + d + e == a + (b + (c + d + e))
  {
  }
}
