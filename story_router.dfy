/** The `/stories` router: the session cookie, story creation as a job
    that a background worker completes, and the read model served by
    `GET /stories/{story_id}/complete`. */
module StoryRouter {
  import opened Models
  import opened Database
  import opened StoryGenerator
  import opened SeqFacts

  /* ---- Session cookie ---- */

  /** `get_session_id`: a present, non-empty cookie is the session; a
      missing or empty one (both are falsy) is replaced by a freshly drawn
      token, passed in as `freshToken`. */
  function SessionId(cookie: Option<string>, freshToken: string): (r: string)
    ensures r == freshToken || cookie == Some(r)
    ensures freshToken != [] ==> r != []
  {
    if cookie.Some? && cookie.value != [] then cookie.value else freshToken
  }

  /** The session id is written back as the `session_id` cookie, so the
      next request from the same client resolves to the same session,
      whatever token that request would have drawn. */
  lemma SessionSticky(cookie: Option<string>, freshToken: string, nextToken: string)
    requires freshToken != []
    ensures SessionId(Some(SessionId(cookie, freshToken)), nextToken) == SessionId(cookie, freshToken)
  {
  }

  /* ---- Job lifecycle ---- */

  /** The message of the exception raised when the generated story has no
      id after commit and refresh. */
  const NoIdMessage := "Story was generated but has no id. Commit/refresh failed."

  /** `create_story`: file a job for `theme` under the session, in status
      "processing", before any generation is scheduled, so that polling the
      job id never misses it. `jobId` and `now` stand for the drawn uuid
      (fresh, hence not yet a key) and the clock. */
  method CreateStory(db: Db, theme: string, sessionId: string, jobId: string, now: Timestamp)
    returns (job: StoryJob)
    requires db.Valid()
    requires jobId !in db.jobs
    modifies db
    ensures db.Valid()
    ensures job == StoryJob(jobId, sessionId, theme, Processing, None, None, Some(now), None)
    ensures JobWellFormed(job)
    ensures db.jobs == old(db.jobs)[jobId := job]
    ensures db.stories == old(db.stories) && db.nodes == old(db.nodes)
  {
    job := StoryJob(jobId, sessionId, theme, Processing, None, None, Some(now), None);
    db.PutJob(job);
  }

  /** The worker's final update of a job, given what generation produced:
      the id the story carried after refresh (`Success`), or the message of
      the exception raised (`Failure`). An id that is 0 is falsy and counts
      as missing. The job always leaves "processing" and gets a completion
      time; it is "completed" exactly when a story with an id came back. */
  function Finish(job: StoryJob, outcome: Result<int, string>, now: Timestamp): (r: StoryJob)
    ensures r.jobId == job.jobId && r.sessionId == job.sessionId
    ensures r.theme == job.theme && r.createdAt == job.createdAt
    ensures r.status != Processing && r.completedAt == Some(now)
    ensures r.status == Completed <==> outcome.Success? && outcome.value != 0
    ensures r.status == Completed ==> r.storyId == Some(outcome.value) && r.error == None
    ensures r.status == Failed ==> r.storyId == job.storyId
    ensures r.status == Failed ==>
              r.error == Some(if outcome.Failure? then outcome.error else NoIdMessage)
  {
    if outcome.Success? && outcome.value != 0 then
      job.(status := Completed, storyId := Some(outcome.value), completedAt := Some(now), error := None)
    else
      job.(status := Failed, completedAt := Some(now),
           error := Some(if outcome.Failure? then outcome.error else NoIdMessage))
  }

  /** A job created by `CreateStory` and finished by the worker is well
      formed: a story id exactly when completed, an error exactly when
      failed, a completion time exactly when no longer processing. */
  lemma FinishWellFormed(job: StoryJob, outcome: Result<int, string>, now: Timestamp)
    requires JobWellFormed(job) && job.status == Processing
    ensures JobWellFormed(Finish(job, outcome, now))
  {
  }

  /** The worker sets "processing" unconditionally before generating, so
      the final job does not depend on the status it found. */
  lemma FinishIgnoresStatus(job: StoryJob, status: JobStatus, outcome: Result<int, string>, now: Timestamp)
    ensures Finish(job.(status := status), outcome, now) == Finish(job, outcome, now)
  {
  }

  /** `generate_story_task`: an unknown job id is left alone. Otherwise
      the job is re-marked "processing" and committed, the story is
      generated in the worker's own store session (`llm` stands for the
      model call and its parse), and the job is finished with the new
      story's id or with the error message. */
  method GenerateStoryTask(db: Db, jobId: string, sessionId: string, llm: LlmOutcome, now: Timestamp)
    requires db.Valid()
    modifies db
    ensures db.Valid()
    ensures jobId !in old(db.jobs) ==>
              db.jobs == old(db.jobs) && db.stories == old(db.stories) && db.nodes == old(db.nodes)
    ensures jobId in old(db.jobs) && llm.LlmError? ==>
              && db.jobs == old(db.jobs)[jobId := Finish(old(db.jobs)[jobId], Failure(llm.message), now)]
              && db.stories == old(db.stories) && db.nodes == old(db.nodes)
    ensures jobId in old(db.jobs) && llm.Parsed? ==>
              && db.jobs == old(db.jobs)[jobId := Finish(old(db.jobs)[jobId], Success(|old(db.stories)| + 1), now)]
              && db.stories == old(db.stories) + [Story(|old(db.stories)| + 1, llm.structure.title, sessionId)]
              && db.nodes == old(db.nodes) + Rows(|old(db.stories)| + 1, llm.structure.rootNode, true, |old(db.nodes)| + 1)
    ensures jobId in old(db.jobs) ==>
              && db.jobs[jobId].status != Processing
              && (db.jobs[jobId].status == Completed <==> llm.Parsed?)
  {
    if jobId !in db.jobs {
      return;
    }
    var found := db.jobs[jobId];
    var job := found.(status := Processing);
    db.PutJob(job);
    var story := GenerateStory(db, sessionId, llm);
    var outcome: Result<int, string> := if story.Success? then Success(story.value.id) else Failure(story.error);
    FinishIgnoresStatus(found, Processing, outcome, now);
    db.PutJob(Finish(job, outcome, now));
  }

  /* ---- Read model ---- */

  /** `CompleteStoryNodeResponse`. */
  datatype NodeView = NodeView(id: int, content: string, isEnding: bool, isWinningEnding: bool,
                               options: seq<OptionRef>)

  /** `CompleteStoryResponse`; the story's creation time is not modelled. */
  datatype CompleteStory = CompleteStory(id: int, title: string, sessionId: string,
                                         rootNode: NodeView, allNodes: map<int, NodeView>)

  /** An `HTTPException`: status code and detail. */
  datatype HttpError = HttpError(status: int, detail: string)

  /** The response entry of one node; a missing option list reads as empty. */
  function View(n: StoryNode): NodeView
  {
    NodeView(n.id, n.content, n.isEnding, n.isWinningEnding, OptionsOrEmpty(n.options))
  }

  /** The nodes whose `story_id` is `storyId`, in store order. */
  function NodesOfStory(nodes: seq<StoryNode>, storyId: int): (r: seq<StoryNode>)
    ensures |r| <= |nodes|
    ensures forall k :: 0 <= k < |r| ==> r[k].storyId == storyId && r[k] in nodes
    ensures forall n :: n in nodes && n.storyId == storyId ==> n in r
  {
    if nodes == [] then []
    else
      var prefix := nodes[..|nodes| - 1];
      var last := nodes[|nodes| - 1];
      assert forall n :: n in nodes ==> n in prefix || n == last;
      NodesOfStory(prefix, storyId) + (if last.storyId == storyId then [last] else [])
  }

  /** `node_dict`, filled in list order, a later node overwriting an
      earlier one with the same id: every node's id is a key, and every
      entry is the view of some node with that id. */
  function NodeDict(nodes: seq<StoryNode>): (m: map<int, NodeView>)
    ensures forall k :: 0 <= k < |nodes| ==> nodes[k].id in m
    ensures forall id :: id in m ==> exists k :: 0 <= k < |nodes| && nodes[k].id == id && m[id] == View(nodes[k])
  {
    if nodes == [] then map[]
    else
      var prefix := nodes[..|nodes| - 1];
      var last := nodes[|nodes| - 1];
      assert forall k :: 0 <= k < |prefix| ==> prefix[k] == nodes[k];
      NodeDict(prefix)[last.id := View(last)]
  }

  /** The first node flagged as root, as `next(...)` over the list finds it. */
  function FirstRoot(nodes: seq<StoryNode>): (r: Option<StoryNode>)
    ensures r.None? <==> forall k :: 0 <= k < |nodes| ==> !nodes[k].isRoot
    ensures r.Some? ==> r.value in nodes && r.value.isRoot
  {
    if nodes == [] then None
    else if nodes[0].isRoot then Some(nodes[0])
    else FirstRoot(nodes[1..])
  }

  /** The first story with id `id`, as `.first()` of the filtered query. */
  function FindStory(stories: seq<Story>, id: int): (r: Option<Story>)
    ensures r.Some? ==> r.value in stories && r.value.id == id
    ensures r.None? <==> forall k :: 0 <= k < |stories| ==> stories[k].id != id
  {
    if stories == [] then None
    else if stories[0].id == id then Some(stories[0])
    else FindStory(stories[1..], id)
  }

  /** What `build_complete_story_response` answers for `story` and its
      nodes: 500 when no node is a root, otherwise the story's fields, the
      dictionary of all its nodes, and the first root's entry. */
  function CompleteStoryOf(story: Story, nodes: seq<StoryNode>): (r: Result<CompleteStory, HttpError>)
    ensures r.Failure? <==> forall k :: 0 <= k < |nodes| ==> !nodes[k].isRoot
    ensures r.Failure? ==> r.error == HttpError(500, "Story root node not found")
    ensures r.Success? ==>
              && r.value.id == story.id && r.value.title == story.title && r.value.sessionId == story.sessionId
              && (forall k :: 0 <= k < |nodes| ==> nodes[k].id in r.value.allNodes)
              && r.value.rootNode.id == FirstRoot(nodes).value.id
  {
    var dict := NodeDict(nodes);
    match FirstRoot(nodes)
    case None => Failure(HttpError(500, "Story root node not found"))
    case Some(root) => Success(CompleteStory(story.id, story.title, story.sessionId, dict[root.id], dict))
  }

  /** `build_complete_story_response`: query the story's nodes, fill the
      dictionary in one pass, then search for the first root. */
  method BuildCompleteStoryResponse(db: Db, story: Story) returns (r: Result<CompleteStory, HttpError>)
    ensures r == CompleteStoryOf(story, NodesOfStory(db.nodes, story.id))
  {
    var nodes := NodesOfStory(db.nodes, story.id);
    var nodeDict: map<int, NodeView> := map[];
    var i := 0;
    while i < |nodes|
      invariant 0 <= i <= |nodes|
      invariant nodeDict == NodeDict(nodes[..i])
    {
      var node := nodes[i];
      NodeDictStep(nodes, i);
      nodeDict := nodeDict[node.id := View(node)];
      i := i + 1;
    }
    assert nodes[..i] == nodes;
    var j := 0;
    while j < |nodes| && !nodes[j].isRoot
      invariant 0 <= j <= |nodes|
      invariant FirstRoot(nodes[j..]) == FirstRoot(nodes)
    {
      FirstRootFrom(nodes, j);
      j := j + 1;
    }
    if j < |nodes| {
      FirstRootFrom(nodes, j);
    }
    if j == |nodes| {
      r := Failure(HttpError(500, "Story root node not found"));
    } else {
      r := Success(CompleteStory(story.id, story.title, story.sessionId, nodeDict[nodes[j].id], nodeDict));
    }
  }

  /** One more node in the list is one more write to the dictionary. */
  lemma NodeDictStep(nodes: seq<StoryNode>, i: nat)
    requires i < |nodes|
    ensures NodeDict(nodes[..i + 1]) == NodeDict(nodes[..i])[nodes[i].id := View(nodes[i])]
  {
    assert nodes[..i + 1][..i] == nodes[..i];
  }

  /** The first root from position `j` on is node `j` when that is a root,
      and the first root after it otherwise. */
  lemma FirstRootFrom(nodes: seq<StoryNode>, j: nat)
    requires j < |nodes|
    ensures FirstRoot(nodes[j..]) == if nodes[j].isRoot then Some(nodes[j]) else FirstRoot(nodes[j + 1..])
  {
    assert nodes[j..][1..] == nodes[j + 1..];
  }

  /** `get_complete_story`: 404 when no story has the id, otherwise the
      complete response for it. */
  method GetCompleteStory(db: Db, storyId: int) returns (r: Result<CompleteStory, HttpError>)
    ensures FindStory(db.stories, storyId).None? ==> r == Failure(HttpError(404, "Story not found"))
    ensures FindStory(db.stories, storyId).Some? ==>
              r == CompleteStoryOf(FindStory(db.stories, storyId).value, NodesOfStory(db.nodes, storyId))
  {
    var found := FindStory(db.stories, storyId);
    if found.None? {
      r := Failure(HttpError(404, "Story not found"));
    } else {
      r := BuildCompleteStoryResponse(db, found.value);
    }
  }

  /* ---- Properties of the read model ---- */

  /** No two nodes share an id. */
  ghost predicate DistinctIds(nodes: seq<StoryNode>)
  {
    forall i, j :: 0 <= i < j < |nodes| ==> nodes[i].id != nodes[j].id
  }

  /** Node ids are the store's primary key. */
  lemma StoreIdsDistinct(db: Db)
    requires db.Valid()
    ensures DistinctIds(db.nodes)
  {
  }

  /** A query by story keeps ids distinct. */
  lemma {:induction false} NodesOfStoryDistinct(nodes: seq<StoryNode>, storyId: int)
    requires DistinctIds(nodes)
    ensures DistinctIds(NodesOfStory(nodes, storyId))
  {
    if nodes != [] {
      DistinctPrefix(nodes);
      NodesOfStoryDistinct(nodes[..|nodes| - 1], storyId);
    }
  }

  /** The query keeps nodes of other stories out and takes a concatenation
      apart. */
  lemma {:induction false} NodesOfStoryAppend(a: seq<StoryNode>, b: seq<StoryNode>, storyId: int)
    decreases |b|
    ensures NodesOfStory(a + b, storyId) == NodesOfStory(a, storyId) + NodesOfStory(b, storyId)
  {
    if b == [] {
      assert a + b == a;
    } else {
      var prefix := b[..|b| - 1];
      NodesOfStoryAppend(a, prefix, storyId);
      PrefixOfConcat(a, b);
      ConcatAssoc(NodesOfStory(a, storyId), NodesOfStory(prefix, storyId),
                  if b[|b| - 1].storyId == storyId then [b[|b| - 1]] else []);
    }
  }

  /** A list with no node of the story has an empty query result. */
  lemma {:induction false} NodesOfStoryNone(nodes: seq<StoryNode>, storyId: int)
    requires forall k :: 0 <= k < |nodes| ==> nodes[k].storyId != storyId
    ensures NodesOfStory(nodes, storyId) == []
  {
    if nodes != [] {
      NodesOfStoryNone(nodes[..|nodes| - 1], storyId);
    }
  }

  /** A list whose nodes all belong to the story is its own query result. */
  lemma {:induction false} NodesOfStoryAll(nodes: seq<StoryNode>, storyId: int)
    requires forall k :: 0 <= k < |nodes| ==> nodes[k].storyId == storyId
    ensures NodesOfStory(nodes, storyId) == nodes
  {
    if nodes != [] {
      var prefix := nodes[..|nodes| - 1];
      var last := nodes[|nodes| - 1];
      NodesOfStoryAll(prefix, storyId);
      assert NodesOfStory(nodes, storyId) == NodesOfStory(prefix, storyId) + [last];
      PrefixLast(nodes);
    }
  }

  /** Dropping the last node keeps ids distinct. */
  lemma DistinctPrefix(nodes: seq<StoryNode>)
    requires nodes != [] && DistinctIds(nodes)
    ensures DistinctIds(nodes[..|nodes| - 1])
  {
    var prefix := nodes[..|nodes| - 1];
    forall i, j | 0 <= i < j < |prefix| ensures prefix[i].id != prefix[j].id {
      assert prefix[i] == nodes[i] && prefix[j] == nodes[j];
    }
  }

  /** With distinct ids, the dictionary holds exactly one entry per node
      and that entry mirrors the node's fields, a missing option list
      becoming the empty one. */
  lemma {:induction false} NodeDictEntries(nodes: seq<StoryNode>)
    requires DistinctIds(nodes)
    ensures |NodeDict(nodes)| == |nodes|
    ensures forall k :: 0 <= k < |nodes| ==> NodeDict(nodes)[nodes[k].id] == View(nodes[k])
  {
    if nodes != [] {
      var prefix := nodes[..|nodes| - 1];
      var last := nodes[|nodes| - 1];
      DistinctPrefix(nodes);
      NodeDictEntries(prefix);
      var m := NodeDict(prefix);
      assert last.id !in m;
      assert NodeDict(nodes) == m[last.id := View(last)];
      assert |NodeDict(nodes)| == |m| + 1;
      forall k | 0 <= k < |nodes| ensures NodeDict(nodes)[nodes[k].id] == View(nodes[k]) {
        if k < |prefix| {
          assert nodes[k] == prefix[k];
          assert nodes[k].id != last.id;
        } else {
          assert nodes[k] == last;
        }
      }
    }
  }

  /** A successful response over nodes with distinct ids: `all_nodes` has
      one entry per node mirroring it, and `root_node` is the entry of the
      first root. */
  lemma CompleteStoryEntries(story: Story, nodes: seq<StoryNode>)
    requires DistinctIds(nodes)
    ensures var r := CompleteStoryOf(story, nodes);
            r.Success? ==>
              && |r.value.allNodes| == |nodes|
              && (forall k :: 0 <= k < |nodes| ==> r.value.allNodes[nodes[k].id] == View(nodes[k]))
              && r.value.rootNode == View(FirstRoot(nodes).value)
  {
    NodeDictEntries(nodes);
    var root := FirstRoot(nodes);
    if root.Some? {
      var k :| 0 <= k < |nodes| && nodes[k] == root.value;
    }
  }

  /** In a valid store, a story id is found exactly when it is the id of
      a stored story, and the found story is that one. */
  lemma FindStoryInStore(db: Db, storyId: int)
    requires db.Valid()
    ensures FindStory(db.stories, storyId).Some? <==> 1 <= storyId <= |db.stories|
    ensures FindStory(db.stories, storyId).Some? ==> FindStory(db.stories, storyId).value == db.stories[storyId - 1]
  {
    if 1 <= storyId <= |db.stories| {
      assert db.stories[storyId - 1].id == storyId;
    }
  }

  /** Every option of every entry points to an entry of the same map. */
  ghost predicate OptionsClosed(m: map<int, NodeView>)
  {
    forall id, j :: id in m && 0 <= j < |m[id].options| ==> m[id].options[j].nodeId in m
  }

  /** Rows numbered consecutively whose options all point inside them give
      a dictionary closed under options. */
  lemma DictClosed(rs: seq<StoryNode>, storyId: int, base: int)
    requires IdsFrom(rs, storyId, base) && EdgesForward(rs, base) && DistinctIds(rs)
    ensures OptionsClosed(NodeDict(rs))
  {
    var m := NodeDict(rs);
    NodeDictEntries(rs);
    forall id, j | id in m && 0 <= j < |m[id].options|
      ensures m[id].options[j].nodeId in m
    {
      var k :| 0 <= k < |rs| && rs[k].id == id;
      assert m[id] == View(rs[k]);
      var t := m[id].options[j].nodeId - base;
      assert 0 <= t < |rs|;
      assert rs[t].id == m[id].options[j].nodeId;
    }
  }

  /** Consecutive ids are distinct. */
  lemma IdsFromDistinct(rs: seq<StoryNode>, storyId: int, base: int)
    requires IdsFrom(rs, storyId, base)
    ensures DistinctIds(rs)
  {
  }

  /** The query by the new story's id returns exactly the generated rows
      when no earlier node belongs to that story. */
  lemma NodesOfGeneratedStory(pre: seq<StoryNode>, storyId: int, d: NodeDesc, base: int)
    requires forall k :: 0 <= k < |pre| ==> pre[k].storyId != storyId
    ensures NodesOfStory(pre + Rows(storyId, d, true, base), storyId) == Rows(storyId, d, true, base)
  {
    var rs := Rows(storyId, d, true, base);
    RowsIds(storyId, d, true, base);
    NodesOfStoryAppend(pre, rs, storyId);
    NodesOfStoryNone(pre, storyId);
    NodesOfStoryAll(rs, storyId);
  }

  /** The response over rows numbered consecutively from `base`, the
      first of them a root, whose options point inside them: a success
      whose root entry is the first row, with one entry per row mirroring
      it, closed under options. */
  lemma ResponseOfTree(story: Story, rs: seq<StoryNode>, base: int)
    requires |rs| > 0 && rs[0].isRoot
    requires IdsFrom(rs, story.id, base) && EdgesForward(rs, base)
    ensures var r := CompleteStoryOf(story, rs);
            && r.Success?
            && r.value.rootNode == View(rs[0])
            && |r.value.allNodes| == |rs|
            && (forall k :: 0 <= k < |rs| ==>
                  rs[k].id in r.value.allNodes && r.value.allNodes[rs[k].id] == View(rs[k]))
            && OptionsClosed(r.value.allNodes)
  {
    IdsFromDistinct(rs, story.id, base);
    FirstRootFrom(rs, 0);
    assert rs[0..] == rs;
    CompleteStoryEntries(story, rs);
    DictClosed(rs, story.id, base);
  }

  /** Reading back a freshly generated story: when no earlier node belongs
      to it, the response holds exactly the rows the generator
      materialized. The root entry is the root row, there is one entry per
      materialized node, each mirroring its row, and every option of every
      entry points to an entry of the same response. */
  lemma ReadBack(pre: seq<StoryNode>, story: Story, d: NodeDesc)
    requires forall k :: 0 <= k < |pre| ==> pre[k].storyId != story.id
    ensures var rs := Rows(story.id, d, true, |pre| + 1);
            var r := CompleteStoryOf(story, NodesOfStory(pre + rs, story.id));
            && r.Success?
            && |rs| > 0 && r.value.rootNode == View(rs[0])
            && |r.value.allNodes| == Size(d)
            && (forall k :: 0 <= k < |rs| ==>
                  rs[k].id in r.value.allNodes && r.value.allNodes[rs[k].id] == View(rs[k]))
            && OptionsClosed(r.value.allNodes)
  {
    var base := |pre| + 1;
    NodesOfGeneratedStory(pre, story.id, d, base);
    RowsLength(story.id, d, true, base);
    RowsIds(story.id, d, true, base);
    RowsRoot(story.id, d, true, base);
    RowsEdgesForward(story.id, d, true, base);
    ResponseOfTree(story, Rows(story.id, d, true, base), base);
  }
}
