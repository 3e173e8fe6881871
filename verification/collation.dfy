/** Grouping the finished issues by epic, fetching each epic's details once
    (`get_epic_details` and `collate_issues` in finishline.py). */
module Collation {
  import opened Wrappers
  import opened StatusUpdates
  import opened Tracker

  /** The value of an issue's epic-link field: `None`, or a key that may be
      the empty string. */
  type EpicKey = Option<string>

  /** A finished issue: its own key and its epic-link value. */
  datatype Issue = Issue(key: string, epic: EpicKey)

  /** An epic record enriched with its status update. */
  datatype Epic = Epic(record: EpicRecord, statusUpdate: Option<StatusUpdate>)

  /** What `collate_issues` returns: the enriched epics (`None` for a falsy
      key) and the issues grouped under each epic-link value. */
  datatype Collated = Collated(epics: map<EpicKey, Option<Epic>>, byEpic: map<EpicKey, set<Issue>>)

  /** Python truthiness of an epic-link value: neither `None` nor empty. */
  predicate Truthy(k: EpicKey) {
    k.Some? && k.value != ""
  }

  /** The details of a fetched epic record. */
  function Enrich(record: EpicRecord): Epic {
    Epic(record, FirstStatusUpdate(record.comments))
  }

  /** What `epics` holds for a key whose lookup did not fail. */
  function Details(records: map<string, EpicRecord>, k: EpicKey): Option<Epic> {
    if Truthy(k) && k.value in records then Some(Enrich(records[k.value])) else None
  }

  // ---------------------------------------------------------------------
  // The reference definitions: what the result should be.

  /** The epic-link values of the issues. */
  function EpicKeys(issues: seq<Issue>): set<EpicKey> {
    set i | i in issues :: i.epic
  }

  /** The issues whose epic-link value is `k`, duplicates collapsed. */
  function Group(issues: seq<Issue>, k: EpicKey): set<Issue> {
    set i | i in issues && i.epic == k
  }

  /** The tracker holds every key of `order`. */
  predicate AllKnown(order: seq<string>, records: map<string, EpicRecord>) {
    forall i :: 0 <= i < |order| ==> order[i] in records
  }

  // ---------------------------------------------------------------------
  // The state of `collate_issues` after its first `n` issues.

  /** The keys of `epics` after the first `n` issues. */
  function SeenKeys(issues: seq<Issue>, n: nat): set<EpicKey>
    requires n <= |issues|
  {
    if n == 0 then {} else SeenKeys(issues, n - 1) + {issues[n - 1].epic}
  }

  /** `by_epic` after the first `n` issues: each issue added, in order, to
      the set under its epic-link value (a `defaultdict(set)`). */
  function GroupsAfter(issues: seq<Issue>, n: nat): map<EpicKey, set<Issue>>
    requires n <= |issues|
  {
    if n == 0 then map[]
    else
      var groups := GroupsAfter(issues, n - 1);
      var k := issues[n - 1].epic;
      groups[k := (if k in groups then groups[k] else {}) + {issues[n - 1]}]
  }

  /** The key the tracker is asked for on meeting `k` after the values
      `seen`: a truthy value, the first time it is seen. */
  function Fetch(seen: set<EpicKey>, k: EpicKey): seq<string> {
    if k !in seen && Truthy(k) then [k.value] else []
  }

  /** The keys the tracker is asked for during the first `n` issues. */
  function FetchesAfter(issues: seq<Issue>, n: nat): seq<string>
    requires n <= |issues|
  {
    if n == 0 then []
    else
      FetchesAfter(issues, n - 1) + Fetch(SeenKeys(issues, n - 1), issues[n - 1].epic)
  }

  /** The keys the tracker is asked for while collating all the issues. */
  function FetchOrder(issues: seq<Issue>): seq<string> {
    FetchesAfter(issues, |issues|)
  }

  /** The position of the first key in `order` the tracker lacks, or
      `|order|` when it holds them all. */
  function FirstMissing(order: seq<string>, records: map<string, EpicRecord>): (n: nat)
    ensures n <= |order|
    ensures forall i :: 0 <= i < n ==> order[i] in records
    ensures n < |order| ==> order[n] !in records
  {
    if order == [] || order[0] !in records then 0
    else 1 + FirstMissing(order[1..], records)
  }

  /** The outcome of `collate_issues`: the first failed lookup aborts it;
      otherwise every epic-link value maps to its details and its group. */
  function CollateOutcome(records: map<string, EpicRecord>, issues: seq<Issue>): Result<Collated, TrackerError> {
    var order := FetchOrder(issues);
    var n := FirstMissing(order, records);
    if n < |order| then Err(NotFound(order[n]))
    else Ok(Collated(map k | k in EpicKeys(issues) :: Details(records, k),
                     map k | k in EpicKeys(issues) :: Group(issues, k)))
  }

  // ---------------------------------------------------------------------
  // The operations.

  /** `get_epic_details`: a falsy key gives `None` without asking the
      tracker; any other key is fetched once and its status update found. */
  method GetEpicDetails(client: Client, key: EpicKey) returns (r: Result<Option<Epic>, TrackerError>)
    modifies client
    ensures client.log == old(client.log) + if Truthy(key) then [key.value] else []
    ensures r.Err? <==> Truthy(key) && key.value !in client.records
    ensures r.Err? ==> r.error == NotFound(key.value)
    ensures r.Ok? ==> r.value == Details(client.records, key)
  {
    if !Truthy(key) {
      return Ok(None);
    }
    var fetched := client.GetIssue(key.value);
    if fetched.Err? {
      return Err(fetched.error);
    }
    var update := ExtractStatusUpdate(fetched.value.comments);
    return Ok(Some(Epic(fetched.value, update)));
  }

  /** `collate_issues`: one pass over the issues, looking an epic up the
      first time its key is seen and adding each issue to its key's group.
      A failed lookup aborts the pass. */
  method CollateIssues(client: Client, issues: seq<Issue>) returns (r: Result<Collated, TrackerError>)
    modifies client
    ensures r == CollateOutcome(client.records, issues)
    ensures var order := FetchOrder(issues);
            var n := FirstMissing(order, client.records);
            client.log == old(client.log) + if n < |order| then order[..n + 1] else order
  {
    var epics: map<EpicKey, Option<Epic>> := map[];
    var byEpic: map<EpicKey, set<Issue>> := map[];
    var n := 0;
    while n < |issues|
      invariant CollatedSoFar(client.records, issues, n, old(client.log), epics, byEpic, client.log)
    {
      var issue := issues[n];
      var epic := issue.epic;
      ghost var epics0, byEpic0, log0 := epics, byEpic, client.log;
      if epic !in epics {
        var details := GetEpicDetails(client, epic);
        if details.Err? {
          StoppedAt(client.records, issues, n, old(client.log));
          return Err(details.error);
        }
        epics := epics[epic := details.value];
      }
      byEpic := byEpic[epic := (if epic in byEpic then byEpic[epic] else {}) + {issue}];
      Advance(client.records, issues, n, old(client.log), epics0, byEpic0, log0, epics, byEpic, client.log);
      n := n + 1;
    }
    Completed(client.records, issues, epics, byEpic);
    r := Ok(Collated(epics, byEpic));
  }

  // ---------------------------------------------------------------------
  // Properties.

  /** `epics` and `by_epic` have the same keys: the values seen so far. */
  lemma {:induction false} GroupsAfterKeys(issues: seq<Issue>, n: nat)
    requires n <= |issues|
    ensures GroupsAfter(issues, n).Keys == SeenKeys(issues, n)
    ensures forall k :: k in SeenKeys(issues, n) <==> exists j :: 0 <= j < n && issues[j].epic == k
  {
    if n > 0 {
      GroupsAfterKeys(issues, n - 1);
    }
  }

  /** Each set in `by_epic` holds exactly the issues with that value. */
  lemma {:induction false} GroupsAfterMembers(issues: seq<Issue>, n: nat, k: EpicKey, i: Issue)
    requires n <= |issues| && k in GroupsAfter(issues, n)
    ensures i in GroupsAfter(issues, n)[k] <==> exists j :: 0 <= j < n && issues[j] == i && i.epic == k
  {
    if n > 0 {
      var before := GroupsAfter(issues, n - 1);
      if k in before {
        GroupsAfterMembers(issues, n - 1, k, i);
      } else {
        GroupsAfterKeys(issues, n - 1);
      }
    }
  }

  /** Every truthy key seen is fetched exactly once, and no falsy key is
      fetched at all. */
  lemma {:induction false} FetchesAfterOnce(issues: seq<Issue>, n: nat, key: string)
    requires n <= |issues|
    ensures multiset(FetchesAfter(issues, n))[key] ==
            if Some(key) in SeenKeys(issues, n) && key != "" then 1 else 0
  {
    if n > 0 {
      FetchesAfterOnce(issues, n - 1, key);
      var k := issues[n - 1].epic;
      assert FetchesAfter(issues, n) == FetchesAfter(issues, n - 1) + Fetch(SeenKeys(issues, n - 1), k);
      assert SeenKeys(issues, n) == SeenKeys(issues, n - 1) + {k};
      CountStep(FetchesAfter(issues, n - 1), SeenKeys(issues, n - 1), k, key);
    }
  }

  /** One issue's step of the count in `FetchesAfterOnce`. */
  lemma CountStep(before: seq<string>, seen: set<EpicKey>, k: EpicKey, key: string)
    requires multiset(before)[key] == if Some(key) in seen && key != "" then 1 else 0
    ensures multiset(before + Fetch(seen, k))[key] == if Some(key) in seen + {k} && key != "" then 1 else 0
  {
    CountAppend(before, Fetch(seen, k), key);
  }

  lemma CountAppend(a: seq<string>, b: seq<string>, x: string)
    ensures multiset(a + b)[x] == multiset(a)[x] + multiset(b)[x]
  {
  }

  /** The seen keys after all the issues are their epic-link values. */
  lemma SeenKeysAll(issues: seq<Issue>)
    ensures SeenKeys(issues, |issues|) == EpicKeys(issues)
  {
    GroupsAfterKeys(issues, |issues|);
    forall k | k in EpicKeys(issues)
      ensures k in SeenKeys(issues, |issues|)
    {
      var i :| i in issues && i.epic == k;
      var j :| 0 <= j < |issues| && issues[j] == i;
    }
  }

  /** `collate_issues` asks the tracker for each distinct truthy epic-link
      value exactly once, however often it repeats, and never for `None`
      or the empty string. */
  lemma FetchedOncePerKey(issues: seq<Issue>, key: string)
    ensures multiset(FetchOrder(issues))[key] ==
            if Some(key) in EpicKeys(issues) && key != "" then 1 else 0
  {
    FetchesAfterOnce(issues, |issues|, key);
    SeenKeysAll(issues);
  }

  /** A successful collation: `epics` and `by_epic` have the same keys, the
      epic-link values; every issue sits in its own value's set and in no
      other; a falsy value maps to `None`; any other to its fetched details. */
  lemma CollatedProperties(records: map<string, EpicRecord>, issues: seq<Issue>)
    requires CollateOutcome(records, issues).Ok?
    ensures var c := CollateOutcome(records, issues).value;
            && c.epics.Keys == c.byEpic.Keys == EpicKeys(issues)
            && (forall i :: i in issues ==> i.epic in c.byEpic && i in c.byEpic[i.epic])
            && (forall k, i :: k in c.byEpic && i in c.byEpic[k] ==> i in issues && i.epic == k)
            && (forall k :: k in c.epics && !Truthy(k) ==> c.epics[k] == None)
            && (forall k :: k in c.epics && Truthy(k) ==>
                  k.value in records && c.epics[k] == Some(Enrich(records[k.value])))
  {
    var order := FetchOrder(issues);
    forall k | k in EpicKeys(issues) && Truthy(k)
      ensures k.value in records
    {
      FetchedOncePerKey(issues, k.value);
      assert k.value in order;
    }
  }

  /** A failed collation names a truthy epic-link value of the input that
      the tracker does not hold. */
  lemma CollateFailure(records: map<string, EpicRecord>, issues: seq<Issue>)
    requires CollateOutcome(records, issues).Err?
    ensures var key := CollateOutcome(records, issues).error.key;
            Some(key) in EpicKeys(issues) && key != "" && key !in records
  {
    var order := FetchOrder(issues);
    var key := order[FirstMissing(order, records)];
    FetchedOncePerKey(issues, key);
    assert key in multiset(order);
  }

  // ---------------------------------------------------------------------
  // Steps of the proof of `CollateIssues`.

  /** The outcome when the lookup for issue `n`'s epic fails. */
  lemma StoppedAt(records: map<string, EpicRecord>, issues: seq<Issue>, n: nat, log: seq<string>)
    requires n < |issues|
    requires issues[n].epic !in SeenKeys(issues, n) && Truthy(issues[n].epic)
    requires issues[n].epic.value !in records
    requires AllKnown(FetchesAfter(issues, n), records)
    ensures var order := FetchOrder(issues);
            var m := FirstMissing(order, records);
            && m < |order|
            && log + order[..m + 1] == log + FetchesAfter(issues, n) + [issues[n].epic.value]
            && CollateOutcome(records, issues) == Err(NotFound(issues[n].epic.value))
  {
    var prefix := FetchesAfter(issues, n);
    var v := issues[n].epic.value;
    var order := FetchOrder(issues);
    assert FetchesAfter(issues, n + 1) == prefix + [v];
    FetchesAfterPrefix(issues, n + 1, |issues|);
    assert order[..|prefix| + 1] == prefix + [v];
    forall i | 0 <= i < |prefix|
      ensures order[i] in records
    {
      assert order[i] == prefix[i];
    }
    FirstMissingAt(order, records, |prefix|);
    AppendAssoc(log, prefix, [v]);
  }

  lemma AppendAssoc(a: seq<string>, b: seq<string>, c: seq<string>)
    ensures a + (b + c) == a + b + c
  {
  }

  /** The loop invariant of `CollateIssues`: the state after the first `n`
      issues, starting from the log `start`. */
  predicate CollatedSoFar(records: map<string, EpicRecord>, issues: seq<Issue>, n: nat, start: seq<string>,
                          epics: map<EpicKey, Option<Epic>>, byEpic: map<EpicKey, set<Issue>>, log: seq<string>) {
    && n <= |issues|
    && epics.Keys == SeenKeys(issues, n)
    && (forall k :: k in epics ==> epics[k] == Details(records, k))
    && byEpic == GroupsAfter(issues, n)
    && log == start + FetchesAfter(issues, n)
    && AllKnown(FetchesAfter(issues, n), records)
  }

  /** One step of the loop of `CollateIssues` that did not fail. */
  lemma Advance(records: map<string, EpicRecord>, issues: seq<Issue>, n: nat, start: seq<string>,
                epics0: map<EpicKey, Option<Epic>>, byEpic0: map<EpicKey, set<Issue>>, log0: seq<string>,
                epics: map<EpicKey, Option<Epic>>, byEpic: map<EpicKey, set<Issue>>, log: seq<string>)
    requires n < |issues|
    requires CollatedSoFar(records, issues, n, start, epics0, byEpic0, log0)
    requires var k := issues[n].epic;
             epics == if k in epics0 then epics0 else epics0[k := Details(records, k)]
    requires var k := issues[n].epic;
             byEpic == byEpic0[k := (if k in byEpic0 then byEpic0[k] else {}) + {issues[n]}]
    requires log == log0 + Fetch(SeenKeys(issues, n), issues[n].epic)
    requires AllKnown(Fetch(SeenKeys(issues, n), issues[n].epic), records)
    ensures CollatedSoFar(records, issues, n + 1, start, epics, byEpic, log)
  {
    AppendAssoc(start, FetchesAfter(issues, n), Fetch(SeenKeys(issues, n), issues[n].epic));
  }

  /** The outcome when every lookup succeeded. */
  lemma Completed(records: map<string, EpicRecord>, issues: seq<Issue>,
                  epics: map<EpicKey, Option<Epic>>, byEpic: map<EpicKey, set<Issue>>)
    requires epics.Keys == SeenKeys(issues, |issues|)
    requires forall k :: k in epics ==> epics[k] == Details(records, k)
    requires byEpic == GroupsAfter(issues, |issues|)
    requires AllKnown(FetchOrder(issues), records)
    ensures FirstMissing(FetchOrder(issues), records) == |FetchOrder(issues)|
    ensures CollateOutcome(records, issues) == Ok(Collated(epics, byEpic))
  {
    FirstMissingAll(FetchOrder(issues), records);
    SeenKeysAll(issues);
    GroupsAfterAll(issues);
    assert epics == map k | k in EpicKeys(issues) :: Details(records, k);
  }

  /** `by_epic` after all the issues maps each epic-link value to its group. */
  lemma GroupsAfterAll(issues: seq<Issue>)
    ensures GroupsAfter(issues, |issues|) == map k | k in EpicKeys(issues) :: Group(issues, k)
  {
    var byEpic := GroupsAfter(issues, |issues|);
    SeenKeysAll(issues);
    GroupsAfterKeys(issues, |issues|);
    forall k | k in byEpic
      ensures byEpic[k] == Group(issues, k)
    {
      forall i
        ensures i in byEpic[k] <==> i in issues && i.epic == k
      {
        GroupsAfterMembers(issues, |issues|, k, i);
        if i in issues {
          var j :| 0 <= j < |issues| && issues[j] == i;
        }
      }
    }
  }

  /** The keys fetched during a first part of the issues come first among
      the keys fetched for all of them. */
  lemma {:induction false} FetchesAfterPrefix(issues: seq<Issue>, m: nat, n: nat)
    requires m <= n <= |issues|
    ensures FetchesAfter(issues, m) <= FetchesAfter(issues, n)
    decreases n
  {
    if m < n {
      FetchesAfterPrefix(issues, m, n - 1);
    }
  }

  lemma FirstMissingAt(order: seq<string>, records: map<string, EpicRecord>, j: nat)
    requires j < |order| && order[j] !in records
    requires forall i :: 0 <= i < j ==> order[i] in records
    ensures FirstMissing(order, records) == j
  {
  }

  lemma FirstMissingAll(order: seq<string>, records: map<string, EpicRecord>)
    requires AllKnown(order, records)
    ensures FirstMissing(order, records) == |order|
  {
  }
}
