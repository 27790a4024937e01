/** The persistence store: the three tables and the id counters that
    `add` + `flush` use to hand out primary keys. Ids start at 1, as the
    store's auto-increment keys do; a table's next id is its length + 1. */
module Database {
  import opened Models

  class Db {
    var stories: seq<Story>
    var nodes: seq<StoryNode>
    var jobs: map<string, StoryJob>

    /** Ids are the auto-increment keys, every node belongs to an existing
        story, and every job is filed under its own job id. */
    ghost predicate Valid()
      reads this
    {
      && (forall i :: 0 <= i < |stories| ==> stories[i].id == i + 1)
      && (forall i :: 0 <= i < |nodes| ==> nodes[i].id == i + 1)
      && (forall i :: 0 <= i < |nodes| ==> 1 <= nodes[i].storyId <= |stories|)
      && (forall k :: k in jobs ==> jobs[k].jobId == k)
    }

    constructor ()
      ensures Valid()
      ensures stories == [] && nodes == [] && jobs == map[]
    {
      stories, nodes, jobs := [], [], map[];
    }

    /** `db.add(Story(...)); db.flush()`: the new story gets the next id. */
    method AddStory(title: string, sessionId: string) returns (story: Story)
      requires Valid()
      modifies this
      ensures Valid()
      ensures story == Story(|old(stories)| + 1, title, sessionId)
      ensures stories == old(stories) + [story]
      ensures nodes == old(nodes) && jobs == old(jobs)
    {
      story := Story(|stories| + 1, title, sessionId);
      stories := stories + [story];
    }

    /** `db.add(StoryNode(..., options=[])); db.flush()`: the new node gets
        the next id and an empty option list. */
    method AddNode(storyId: int, content: string, isRoot: bool, isEnding: bool, isWinningEnding: bool)
      returns (node: StoryNode)
      requires Valid()
      requires 1 <= storyId <= |stories|
      modifies this
      ensures Valid()
      ensures node == StoryNode(|old(nodes)| + 1, storyId, content, isRoot, isEnding, isWinningEnding, Some([]))
      ensures nodes == old(nodes) + [node]
      ensures stories == old(stories) && jobs == old(jobs)
    {
      node := StoryNode(|nodes| + 1, storyId, content, isRoot, isEnding, isWinningEnding, Some([]));
      nodes := nodes + [node];
    }

    /** `node.options = options_list; db.flush()` on the node with id `id`. */
    method SetOptions(id: int, options: seq<OptionRef>) returns (node: StoryNode)
      requires Valid()
      requires 1 <= id <= |nodes|
      modifies this
      ensures Valid()
      ensures node == old(nodes)[id - 1].(options := Some(options))
      ensures nodes == old(nodes)[id - 1 := node]
      ensures stories == old(stories) && jobs == old(jobs)
    {
      node := nodes[id - 1].(options := Some(options));
      nodes := nodes[id - 1 := node];
    }

    /** `db.add(job)` / assigning a loaded job's columns, then `db.commit()`:
        the job row filed under its id is (re)written. */
    method PutJob(job: StoryJob)
      requires Valid()
      modifies this
      ensures Valid()
      ensures jobs == old(jobs)[job.jobId := job]
      ensures stories == old(stories) && nodes == old(nodes)
    {
      jobs := jobs[job.jobId := job];
    }
  }
}
