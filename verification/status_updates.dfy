/** Finding an epic's status update: the first comment, in the order the
    tracker returns them, that starts with a sentinel
    (`extract_status_update` in finishline.py). */
module StatusUpdates {
  import opened Wrappers
  import opened PyStrings

  /** A comment on an epic, as the tracker returns it. */
  datatype Comment = Comment(body: string)

  /** The comment chosen as the status update, with the cleaned text the
      source attaches to it (`comment.cleaned`). */
  datatype StatusUpdate = StatusUpdate(comment: Comment, cleaned: string)

  /** The recognised prefixes, tried in this order for every comment. */
  const Sentinels: seq<string> := [
    "h1. Status Update:",
    "Status Update:",
    "h1. Status Update",
    "Status Update"
  ]

  /** Where the kept text of an update ends. */
  const ParagraphBreak := "\n\n"

  /** The first sentinel, from index `from` on, that `body` starts with. */
  function SentinelFrom(body: string, from: nat): (r: Option<nat>)
    requires from <= |Sentinels|
    ensures r.Some? ==> from <= r.value < |Sentinels| && Sentinels[r.value] <= body
    ensures forall t :: from <= t < |Sentinels| && (r.None? || t < r.value) ==> !(Sentinels[t] <= body)
    decreases |Sentinels| - from
  {
    if from == |Sentinels| then None
    else if Sentinels[from] <= body then Some(from)
    else SentinelFrom(body, from + 1)
  }

  /** The index of the first sentinel `body` starts with, if any. */
  function MatchingSentinel(body: string): Option<nat>
  {
    SentinelFrom(body, 0)
  }

  /** The text kept of a body that starts with `sentinel`: drop the prefix,
      left-strip, keep what precedes the first `"\n\n"`, strip. It is a
      piece of the body after the prefix, has no whitespace at either end
      and contains no `"\n\n"`. */
  function Clean(body: string, sentinel: string): (r: string)
    requires sentinel <= body
    ensures r == [] || (!IsSpace(r[0]) && !IsSpace(r[|r| - 1]))
    ensures !Contains(r, ParagraphBreak)
    ensures exists i: nat :: |sentinel| <= i && OccursAt(body, r, i)
  {
    var rest := LStrip(body[|sentinel|..]);
    var head := SplitHead(rest, ParagraphBreak);
    var r := Strip(head);
    NoOccurrenceInSlice(head, r, |head| - |LStrip(head)|, ParagraphBreak);
    CleanIsSliceOfBody(body, body[|sentinel|..], rest, head, r, |head| - |LStrip(head)|);
    r
  }

  /** The pieces `Clean` cuts out are slices of the body. */
  lemma CleanIsSliceOfBody(body: string, after: string, rest: string, head: string, r: string, b: nat)
    requires |after| <= |body| && after == body[|body| - |after|..]
    requires |rest| <= |after| && rest == after[|after| - |rest|..]
    requires head <= rest
    requires OccursAt(head, r, b)
    ensures OccursAt(body, r, |body| - |rest| + b)
  {
    var a := |body| - |rest|;
    assert OccursAt(body, rest, a) by {
      SuffixOccurs(after, rest);
      SuffixOccurs(body, after);
      OccursInSlice(body, after, |body| - |after|, rest, |after| - |rest|);
    }
    PrefixOccurs(rest, head);
    OccursInChain(body, rest, head, r, a, b);
  }

  /** The status update of an epic: the first comment, in the order given,
      whose body starts with a sentinel, cleaned after the first sentinel
      it matches; `None` when no comment matches. */
  function FirstStatusUpdate(comments: seq<Comment>): Option<StatusUpdate>
  {
    if comments == [] then None
    else match MatchingSentinel(comments[0].body)
      case Some(t) => Some(StatusUpdate(comments[0], Clean(comments[0].body, Sentinels[t])))
      case None => FirstStatusUpdate(comments[1..])
  }

  /** `extract_status_update`: tries every sentinel on every comment and
      returns at the first match. */
  method ExtractStatusUpdate(comments: seq<Comment>) returns (r: Option<StatusUpdate>)
    ensures r == FirstStatusUpdate(comments)
  {
    var i := 0;
    while i < |comments|
      invariant 0 <= i <= |comments|
      invariant FirstStatusUpdate(comments[i..]) == FirstStatusUpdate(comments)
    {
      var body := comments[i].body;
      var j := 0;
      while j < |Sentinels|
        invariant 0 <= j <= |Sentinels|
        invariant SentinelFrom(body, j) == MatchingSentinel(body)
      {
        if Sentinels[j] <= body {
          assert MatchingSentinel(body) == Some(j);
          return Some(StatusUpdate(comments[i], Clean(body, Sentinels[j])));
        }
        j := j + 1;
      }
      assert comments[i..][1..] == comments[i + 1..];
      i := i + 1;
    }
    return None;
  }

  /** No status update exactly when no comment starts with a sentinel. */
  lemma {:induction false} NoStatusUpdateIff(comments: seq<Comment>)
    ensures FirstStatusUpdate(comments).None? <==>
            forall i :: 0 <= i < |comments| ==> MatchingSentinel(comments[i].body).None?
  {
    if comments != [] {
      NoStatusUpdateIff(comments[1..]);
      assert forall i :: 1 <= i < |comments| ==> comments[i] == comments[1..][i - 1];
    }
  }

  /** The update is taken from the first matching comment, after the first
      sentinel that comment matches. */
  lemma {:induction false} StatusUpdateIsFirstMatch(comments: seq<Comment>, i: nat)
    requires i < |comments|
    requires MatchingSentinel(comments[i].body).Some?
    requires forall j :: 0 <= j < i ==> MatchingSentinel(comments[j].body).None?
    ensures FirstStatusUpdate(comments) ==
            Some(StatusUpdate(comments[i],
                 Clean(comments[i].body, Sentinels[MatchingSentinel(comments[i].body).value])))
  {
    if i > 0 {
      assert MatchingSentinel(comments[0].body).None?;
      forall j | 0 <= j < i - 1
        ensures MatchingSentinel(comments[1..][j].body).None?
      {
        assert comments[1..][j] == comments[j + 1];
      }
      assert comments[1..][i - 1] == comments[i];
      StatusUpdateIsFirstMatch(comments[1..], i - 1);
    }
  }

  /** Every status update found has clean text: no surrounding whitespace,
      no `"\n\n"`, and it is one of the given comments. */
  lemma {:induction false} StatusUpdateIsClean(comments: seq<Comment>)
    requires FirstStatusUpdate(comments).Some?
    ensures var u := FirstStatusUpdate(comments).value;
            && u.comment in comments
            && (u.cleaned == [] || (!IsSpace(u.cleaned[0]) && !IsSpace(u.cleaned[|u.cleaned| - 1])))
            && !Contains(u.cleaned, ParagraphBreak)
  {
    if MatchingSentinel(comments[0].body).None? {
      StatusUpdateIsClean(comments[1..]);
    }
  }

  /** A body starting "h1. Status Update:" matches the first sentinel, not
      the shorter "h1. Status Update", so the colon is cut with the prefix:
      the kept text lies after the colon. */
  lemma ColonIsCut(c: Comment)
    requires Sentinels[0] <= c.body
    ensures MatchingSentinel(c.body) == Some(0)
    ensures FirstStatusUpdate([c]) == Some(StatusUpdate(c, Clean(c.body, "h1. Status Update:")))
    ensures exists i: nat :: |"h1. Status Update:"| <= i && OccursAt(c.body, Clean(c.body, "h1. Status Update:"), i)
  {
  }

  /** The same on one body: the colon and the spaces after it go, and the
      text stops at the first "\n\n". */
  lemma ColonIsCutExample()
    ensures FirstStatusUpdate([Comment("h1. Status Update:  All good\n\nDetails")]) ==
            Some(StatusUpdate(Comment("h1. Status Update:  All good\n\nDetails"), "All good"))
  {
    var body := "h1. Status Update:  All good\n\nDetails";
    assert MatchingSentinel(body) == Some(0) by {
      assert Sentinels[0] <= body;
    }
    ExampleCleaned(body);
  }

  lemma ExampleCleaned(body: string)
    requires body == "h1. Status Update:  All good\n\nDetails"
    ensures Sentinels[0] <= body && Clean(body, Sentinels[0]) == "All good"
  {
    assert Sentinels[0] <= body;
    var rest := body[|Sentinels[0]|..];
    assert rest == "  All good\n\nDetails";
    ExampleLStrip(rest);
    ExampleSplit("All good\n\nDetails");
    assert Strip("All good") == "All good";
  }

  lemma ExampleLStrip(rest: string)
    requires rest == "  All good\n\nDetails"
    ensures LStrip(rest) == "All good\n\nDetails"
  {
    var l := "All good\n\nDetails";
    assert IsSpace(rest[0]) && IsSpace(rest[1..][0]) && !IsSpace(l[0]);
    assert rest[1..][1..] == l;
    assert LStrip(rest) == LStrip(rest[1..]) == LStrip(l) == l;
  }

  lemma ExampleSplit(l: string)
    requires l == "All good\n\nDetails"
    ensures SplitHead(l, ParagraphBreak) == "All good"
  {
    assert OccursAt(l, ParagraphBreak, 8);
    forall k: nat | k < 8
      ensures !OccursAt(l, ParagraphBreak, k)
    {
      assert l[k] != '\n';
      assert l[k..k + 2][0] == l[k];
    }
    SplitHeadAt(l, ParagraphBreak, 8);
    assert l[..8] == "All good";
  }
}
