/** Rows of the three tables the story service persists (stories, story
    nodes and story jobs), and the small Option/Result wrappers the rest of
    the model uses for nullable columns and error returns. */
module Models {

  datatype Option<+T> = None | Some(value: T)

  datatype Result<+R, +E> = Success(value: R) | Failure(error: E)

  /** One `{text, node_id}` entry of a node's `options` list: a labelled
      edge to the node with id `nodeId`. */
  datatype OptionRef = OptionRef(text: string, nodeId: int)

  /** A row of the stories table. `id` is assigned by the store on flush. */
  datatype Story = Story(id: int, title: string, sessionId: string)

  /** A row of the story_nodes table. `options` is a nullable JSON column,
      hence the `Option`. */
  datatype StoryNode = StoryNode(
    id: int,
    storyId: int,
    content: string,
    isRoot: bool,
    isEnding: bool,
    isWinningEnding: bool,
    options: Option<seq<OptionRef>>)

  /** `node.options or []`: a missing option list reads as an empty one. */
  function OptionsOrEmpty(options: Option<seq<OptionRef>>): seq<OptionRef>
  {
    match options
    case None => []
    case Some(list) => list
  }

  datatype JobStatus = Processing | Completed | Failed

  /** Timestamps are opaque values handed in by the caller. */
  type Timestamp = int

  /** A row of the story_jobs table. */
  datatype StoryJob = StoryJob(
    jobId: string,
    sessionId: string,
    theme: string,
    status: JobStatus,
    storyId: Option<int>,
    error: Option<string>,
    createdAt: Option<Timestamp>,
    completedAt: Option<Timestamp>)

  /** The job invariant: a story id exactly when completed, an error
      exactly when failed, a completion time exactly when terminal. */
  predicate JobWellFormed(j: StoryJob)
  {
    && (j.storyId.Some? <==> j.status == Completed)
    && (j.error.Some? <==> j.status == Failed)
    && (j.completedAt.Some? <==> j.status != Processing)
  }
}
