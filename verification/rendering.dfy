/** The context `render` hands to the template engine. */
module Rendering {

  /** The key under which the run date is added. */
  const TodayKey := "today"

  /** `m.update(pairs)`: the pairs are stored in order, a later pair
      overwriting an earlier one with the same key. */
  function Update<V>(m: map<string, V>, pairs: seq<(string, V)>): (r: map<string, V>)
    ensures forall k :: k in m ==> k in r
    ensures forall i :: 0 <= i < |pairs| ==> pairs[i].0 in r
    ensures pairs != [] ==> r[pairs[|pairs| - 1].0] == pairs[|pairs| - 1].1
    decreases |pairs|
  {
    if pairs == [] then m
    else
      var last := pairs[|pairs| - 1];
      Update(m, pairs[..|pairs| - 1])[last.0 := last.1]
  }

  /** The keys of the pairs. */
  function PairKeys<V>(pairs: seq<(string, V)>): set<string> {
    set i | 0 <= i < |pairs| :: pairs[i].0
  }

  /** The value of the last pair with key `k`. */
  function LastValue<V>(pairs: seq<(string, V)>, k: string): V
    requires k in PairKeys(pairs)
    decreases |pairs|
  {
    var last := pairs[|pairs| - 1];
    if last.0 == k then last.1
    else
      assert k in PairKeys(pairs[..|pairs| - 1]) by {
        var j :| 0 <= j < |pairs| && pairs[j].0 == k;
        assert pairs[..|pairs| - 1][j] == pairs[j];
      }
      LastValue(pairs[..|pairs| - 1], k)
  }

  /** What `update` makes of a map: its keys and the pairs' keys; a pair's
      key holds the last value given for it, any other key keeps its own. */
  lemma {:induction false} UpdateSemantics<V>(m: map<string, V>, pairs: seq<(string, V)>)
    ensures Update(m, pairs).Keys == m.Keys + PairKeys(pairs)
    ensures forall k :: k in PairKeys(pairs) ==> Update(m, pairs)[k] == LastValue(pairs, k)
    ensures forall k :: k in m && k !in PairKeys(pairs) ==> Update(m, pairs)[k] == m[k]
    decreases |pairs|
  {
    if pairs != [] {
      var before := pairs[..|pairs| - 1];
      UpdateSemantics(m, before);
      assert PairKeys(pairs) == PairKeys(before) + {pairs[|pairs| - 1].0} by {
        forall k | k in PairKeys(pairs)
          ensures k in PairKeys(before) + {pairs[|pairs| - 1].0}
        {
          var j :| 0 <= j < |pairs| && pairs[j].0 == k;
          if j < |pairs| - 1 { assert before[j] == pairs[j]; }
        }
        forall k | k in PairKeys(before)
          ensures k in PairKeys(pairs)
        {
          var j :| 0 <= j < |before| && before[j].0 == k;
          assert pairs[j] == before[j];
        }
      }
    }
  }

  /** The context of `render`: a copy of `data`, the run date under
      `today`, then the command-line arguments on top. */
  method RenderContext<V>(data: map<string, V>, today: V, args: seq<(string, V)>) returns (context: map<string, V>)
    ensures context.Keys == data.Keys + {TodayKey} + PairKeys(args)
    ensures forall k :: k in PairKeys(args) ==> context[k] == LastValue(args, k)
    ensures TodayKey !in PairKeys(args) ==> context[TodayKey] == today
    ensures forall k :: k in data && k != TodayKey && k !in PairKeys(args) ==> context[k] == data[k]
  {
    context := data;
    context := context[TodayKey := today];
    context := Update(context, args);
    UpdateSemantics(data[TodayKey := today], args);
  }

  /** The attribute names of the parsed command line, in the order
      `_get_kwargs` lists them. */
  const ArgNames: seq<string> := [
    "epic_field", "insecure", "mvp_status_field", "project", "server",
    "since", "subtitle", "template", "title"
  ]

  /** With the command-line arguments as the pairs, the run date and every
      data key that is not an argument name, such as the collation's
      `epics` and `by_epic`, reach the template unchanged. */
  lemma ReportKeysKept<V>(data: map<string, V>, today: V, args: seq<(string, V)>)
    requires forall i :: 0 <= i < |args| ==> args[i].0 in ArgNames
    ensures var context := Update(data[TodayKey := today], args);
            && TodayKey in context && context[TodayKey] == today
            && forall k :: k in data && k != TodayKey && k !in ArgNames ==> k in context && context[k] == data[k]
  {
    UpdateSemantics(data[TodayKey := today], args);
    forall k | k in PairKeys(args)
      ensures k in ArgNames
    {
      var i :| 0 <= i < |args| && args[i].0 == k;
    }
  }
}
