# Adventure story generation and retrieval — a Dafny model

The backend of the adventure story game turns a theme into a branching
story. `POST /stories/create` files a *job* for the theme under the
caller's session and returns at once. A background worker then asks a
language model for a story tree, materializes the tree as rows in the
database, and marks the job completed or failed. `GET
/stories/{story_id}/complete` reads a story back as a dictionary of all
its nodes plus its root node.

This project models that core and proves properties about it:

- `models.dfy` (`Models`): the rows — `Story`, `StoryNode` with its JSON
  option list of `{text, node_id}` entries, `StoryJob` with its status.
- `database.dfy` (`Database`): the store as a class `Db`. It has the
  story and node tables, whose auto-increment ids are handed out on
  flush, and the job table keyed by job id.
- `story_generator.dfy` (`StoryGenerator`): `_process_story_node` as a
  recursive method with a loop over the options. It is proved against the
  pure function `Rows`, which lists the rows one materialization adds.
  `generate_story` flushes the story before any node is created.
- `story_router.dfy` (`StoryRouter`): the session cookie, job creation,
  the background worker, and the read model.
- `seq_facts.dfy` (`SeqFacts`): three small sequence lemmas the proofs cite.

The model call is a parameter. `LlmOutcome` is either the parsed story
tree (`StoryDesc` / `NodeDesc` / `OptionDesc`) or the message of the
error raised. Fresh uuids and the clock are parameters too.

## Model

| member | source | states |
|---|---|---|
| `Database.Db.AddStory` | backend/core/story_generator.py:35-37 | the new story gets the next id, is appended, and nothing else changes |
| `Database.Db.AddNode` | backend/core/story_generator.py:57-66 | the new node gets the next id and an empty option list, is appended, and nothing else changes |
| `Database.Db.SetOptions` | backend/core/story_generator.py:86-87 | only that node's option list is replaced |
| `Database.Db.PutJob` | backend/routers/story.py:51-53 | the job row filed under its own id is written; stories and nodes are untouched |
| `StoryGenerator.ProcessStoryNode` | backend/core/story_generator.py:50-88 | appends exactly `Rows` of the description, with ids from the next free id; returns the node's own row (the first appended); stories and jobs untouched |
| `StoryGenerator.GenerateStory` | backend/core/story_generator.py:17-47 | a model error changes nothing and is reported; otherwise one story is appended first and its root description is materialized under the new story id; no earlier node has that story id |
| `StoryGenerator.RowsLength` | backend/core/story_generator.py:68-84 | one row per description node reachable without passing through an ending (`Size`) |
| `StoryGenerator.RowsIds` | backend/core/story_generator.py:57-66 | the rows have consecutive ids from the first free id, and all carry the story id |
| `StoryGenerator.RowsRoot` | backend/core/story_generator.py:57-60 | the first row has the given root flag and no later row is a root |
| `StoryGenerator.RowsEndingsHaveNoOptions` | backend/core/story_generator.py:63-68 | every row has an option list, and an ending's list is empty |
| `StoryGenerator.ChildrenEdge` | backend/core/story_generator.py:71-84 | the j-th collected entry has the j-th option's text and the id of the first row of that option's subtree, whose content and ending flag are the option's `nextNode`'s |
| `StoryGenerator.RowsOptions` | backend/core/story_generator.py:68-87 | the node's list is empty for an ending or an option-less description; otherwise it has one entry per option, in order, with the option's text and the id of a row of this call whose content is the option's `nextNode.content` |
| `StoryGenerator.RowsEdgesForward` | backend/core/story_generator.py:50-88 | every option of every new row points to a row created later by the same call, so no option leaves the new tree |
| `StoryRouter.SessionId` | backend/routers/story.py:23-24 | the session is the cookie or the fresh token, and it is never empty when the token is not |
| `StoryRouter.SessionSticky` | backend/routers/story.py:23-24 | once the resolved id is sent back as the cookie, the next request resolves to the same session |
| `StoryRouter.CreateStory` | backend/routers/story.py:41-57 | files a job for the theme and session in status processing, with a creation time and no story, error or completion time; the job is well formed |
| `StoryRouter.Finish` | backend/routers/story.py:84-97 | the job leaves processing and gets a completion time; it is completed exactly when a story id that is not falsy came back, with that id and no error; otherwise it is failed with the raised message or the no-id message, and its story id is unchanged |
| `StoryRouter.FinishWellFormed` | backend/routers/story.py:84-97 | a well-formed processing job stays well formed when finished |
| `StoryRouter.FinishIgnoresStatus` | backend/routers/story.py:73-75 | the final job does not depend on the status the worker found |
| `StoryRouter.GenerateStoryTask` | backend/routers/story.py:60-100 | an unknown job id changes nothing; otherwise the store gains exactly the generated story and its rows, and the job is finished with the new story's id or the error; it never stays processing, and it is completed exactly when generation succeeded |
| `StoryRouter.NodesOfStory` | backend/routers/story.py:113 | the result holds every node of the story and only nodes of the story |
| `StoryRouter.NodesOfStoryDistinct` | backend/routers/story.py:113 | querying by story keeps node ids distinct |
| `StoryRouter.NodeDict` | backend/routers/story.py:115-123 | every node's id is a key, and every entry is the view of a node with that id |
| `StoryRouter.NodeDictEntries` | backend/routers/story.py:115-123 | with distinct ids there is one entry per node, each mirroring the node's fields, with a missing option list read as empty |
| `StoryRouter.FirstRoot` | backend/routers/story.py:125 | none exactly when no node is a root; otherwise a root node of the list |
| `StoryRouter.FirstRootFrom` | backend/routers/story.py:125 | the search from a position returns that node if it is a root, and otherwise continues after it |
| `StoryRouter.FindStory` | backend/routers/story.py:105 | found stories have the id; none exactly when no story has it |
| `StoryRouter.FindStoryInStore` | backend/routers/story.py:105-107 | in a valid store a story is found exactly for ids 1 to the number of stories, and it is the story with that id |
| `StoryRouter.CompleteStoryOf` | backend/routers/story.py:112-136 | 500 "Story root node not found" exactly when no node is a root; otherwise the story's fields, every node's id among the keys, and the root entry of the first root |
| `StoryRouter.CompleteStoryEntries` | backend/routers/story.py:115-135 | with distinct ids, `all_nodes` has one entry per node mirroring it and `root_node` is the first root's view |
| `StoryRouter.BuildCompleteStoryResponse` | backend/routers/story.py:112-136 | the dictionary loop and the root search compute `CompleteStoryOf` of the story's nodes |
| `StoryRouter.GetCompleteStory` | backend/routers/story.py:103-109 | 404 "Story not found" when no story has the id, otherwise the complete response for that story |
| `StoryRouter.NodesOfGeneratedStory` | backend/routers/story.py:113 | querying by a freshly generated story's id returns exactly the rows generation added |
| `StoryRouter.DictClosed` | backend/routers/story.py:115-123 | for rows numbered consecutively whose options point inside them, every option in the dictionary names a key of the dictionary |
| `StoryRouter.ResponseOfTree` | backend/routers/story.py:125-136 | for such rows with a root first, the response succeeds with the first row as root, one mirroring entry per row, and options closed over `all_nodes` |
| `StoryRouter.ReadBack` | backend/routers/story.py:103-136 | reading back a freshly generated story succeeds; its root is the root row, it has one entry per materialized node, and every option names a node of the response |

## Left out

- The model call, prompt and parse (backend/core/story_generator.py:13-33) are not modelled. Their result is the `LlmOutcome` parameter: the parsed tree, or the message of the error raised.
- The `isinstance(..., dict)` / `model_validate` conversions are not modelled. The tree arrives already typed.
- Database sessions are not modelled: transactions, commit, refresh, close and rollback. A flush is an immediate append with the next dense id, starting at 1.
- Errors raised by the database itself are not modelled. The only failure of generation is the model call failing before anything is written. A failure partway through materialization, and the partial rows a later commit would keep, are not captured.
- FastAPI routing, dependency injection, response serialization and `set_cookie` are not modelled. The cookie round trip appears only as `StoryRouter.SessionSticky`.
- Background scheduling and concurrency are not modelled. The worker is called explicitly, once, on the store.
- `uuid.uuid4()` and `datetime.now()` are parameters. `StoryRouter.CreateStory` requires its job id to be fresh, as a drawn uuid is.
- The `hasattr(StoryJob, "created_at")` guard is taken as true. The story's own `created_at` and the response's `created_at` are not modelled.
- The theme only feeds the model call, so the worker takes `LlmOutcome` in its place.
- Node query order is not modelled: the query returns nodes in store (id) order, and the root search and dictionary depend on that order.
- The "story has no id" branch is modelled in `StoryRouter.Finish`. Generation in this store always hands out ids of at least 1, so `StoryRouter.GenerateStoryTask` never takes that branch.
- The job status endpoint and the frontend are not part of this model.
- StoryGenerator.RowsEdgesForward: states that every option points forward inside the same materialization. It does not state that the rows form a tree, i.e. that each non-root row is named by exactly one option.
