/** The sink a run hands its results to (in_memory_result_commit_sink.cpp). */
module CommitSinks {
  import opened Basics
  import opened ResultVerification
  import opened TaskGraphs

  datatype SinkError = CommittedBefore

  /** One result per task: a second one is refused and changes nothing. */
  class InMemorySink {
    var results: map<string, CommittedResult>

    constructor ()
      ensures results == map[]
    {
      results := map[];
    }

    method Commit(taskId: string, committed: CommittedResult) returns (r: Result<(), SinkError>)
      modifies this
      ensures r.Ok? <==> taskId !in old(results)
      ensures results == if r.Ok? then old(results)[taskId := committed] else old(results)
    {
      if taskId in results {
        return Err(CommittedBefore);
      }
      results := results[taskId := committed];
      return Ok(());
    }
  }

  /** What a sink holds, by task instead of by task id. */
  ghost function SinkView(g: TaskGraph, results: map<string, CommittedResult>): map<nat, CommittedResult> {
    map t: nat | t < |g.nodes| && g.nodes[t].taskId in results :: results[g.nodes[t].taskId]
  }

  lemma EmptySinkView(g: TaskGraph)
    ensures SinkView(g, map[]) == map[]
  {
  }

  lemma InSinkView(g: TaskGraph, results: map<string, CommittedResult>, t: nat)
    requires t < g.Size()
    ensures t in SinkView(g, results) <==> g.nodes[t].taskId in results
    ensures t in SinkView(g, results) ==> SinkView(g, results)[t] == results[g.nodes[t].taskId]
  {
  }

  lemma OnlyTasks(g: TaskGraph, results: map<string, CommittedResult>, u: nat)
    ensures u in SinkView(g, results) ==> u < g.Size()
  {
  }

  lemma SinkViewAfter(g: TaskGraph, results: map<string, CommittedResult>, t: nat, c: CommittedResult)
    requires g.DistinctNames() && t < g.Size()
    ensures SinkView(g, results[g.nodes[t].taskId := c]) == SinkView(g, results)[t := c]
  {
    hide SinkView;
    var name := g.nodes[t].taskId;
    var a, b := SinkView(g, results[name := c]), SinkView(g, results)[t := c];
    forall u: nat ensures u in a <==> u in b
      ensures u in a && u in b ==> a[u] == b[u]
    {
      OnlyTasks(g, results, u);
      OnlyTasks(g, results[name := c], u);
      if u < g.Size() {
        InSinkView(g, results, u);
        InSinkView(g, results[name := c], u);
        assert u != t ==> g.nodes[u].taskId != name;
      }
    }
    assert a.Keys == b.Keys;
  }
}
