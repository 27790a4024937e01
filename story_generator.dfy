/** The tree materializer and the story-creation steps around it: a nested
    story description, as the language model's parsed answer gives it, is
    turned into Story and StoryNode rows of the store. */
module StoryGenerator {
  import opened Models
  import opened Database
  import opened SeqFacts

  /** A parsed node description: `{content, isEnding, isWinningEnding,
      options: [{text, nextNode}]}`. */
  datatype NodeDesc = NodeDesc(
    content: string,
    isEnding: bool,
    isWinningEnding: bool,
    options: seq<OptionDesc>)

  datatype OptionDesc = OptionDesc(text: string, nextNode: NodeDesc)

  /** The parsed answer as a whole: `{title, rootNode}`. */
  datatype StoryDesc = StoryDesc(title: string, rootNode: NodeDesc)

  /** What the model call and the output parser yield: a typed description,
      or the message of the exception they raised. */
  datatype LlmOutcome = Parsed(structure: StoryDesc) | LlmError(message: string)

  /** Number of rows materializing `d` creates: the description pruned at
      ending nodes, whose options are never visited. */
  function Size(d: NodeDesc): nat
    decreases d, 0
  {
    if d.isEnding then 1 else 1 + OptionsSize(d.options, |d.options|)
  }

  /** Number of rows the subtrees of the first `n` options create. */
  function OptionsSize(opts: seq<OptionDesc>, n: nat): nat
    requires n <= |opts|
    decreases opts, n
  {
    if n == 0 then 0 else OptionsSize(opts, n - 1) + Size(opts[n - 1].nextNode)
  }

  /** What materializing some options' subtrees yields: the rows created,
      in creation order, and the `{text, node_id}` list collected. */
  datatype Subtrees = Subtrees(rows: seq<StoryNode>, edges: seq<OptionRef>)

  /** The rows materializing `d` adds, in creation (flush) order, when the
      next free node id is `base`: the node itself first, then the subtrees
      of its options, depth first and in description order. */
  function Rows(storyId: int, d: NodeDesc, isRoot: bool, base: int): seq<StoryNode>
    decreases d, 0
  {
    if d.isEnding then
      [StoryNode(base, storyId, d.content, isRoot, d.isEnding, d.isWinningEnding, Some([]))]
    else
      var sub := Children(storyId, d.options, |d.options|, base + 1);
      [StoryNode(base, storyId, d.content, isRoot, d.isEnding, d.isWinningEnding, Some(sub.edges))] + sub.rows
  }

  /** Materializing the subtrees of the first `n` options, one after the
      other, from node id `base`: each option's entry carries the id of the
      first row of its subtree. */
  function Children(storyId: int, opts: seq<OptionDesc>, n: nat, base: int): Subtrees
    requires n <= |opts|
    decreases opts, n
  {
    if n == 0 then Subtrees([], [])
    else
      var prev := Children(storyId, opts, n - 1, base);
      var childId := base + |prev.rows|;
      Subtrees(prev.rows + Rows(storyId, opts[n - 1].nextNode, false, childId),
               prev.edges + [OptionRef(opts[n - 1].text, childId)])
  }

  /** One turn of the options loop: once the i-th subtree is materialized
      behind the first i, the table holds the first i + 1 subtrees. */
  lemma ChildrenStep(storyId: int, opts: seq<OptionDesc>, i: nat, base: int,
                     pre: seq<StoryNode>, mid: seq<StoryNode>, after: seq<StoryNode>)
    requires i < |opts|
    requires |pre| + 1 == base
    requires mid == pre + Children(storyId, opts, i, base).rows
    requires after == mid + Rows(storyId, opts[i].nextNode, false, |mid| + 1)
    ensures after == pre + Children(storyId, opts, i + 1, base).rows
    ensures Children(storyId, opts, i + 1, base).edges
            == Children(storyId, opts, i, base).edges + [OptionRef(opts[i].text, |mid| + 1)]
  {
    var prev := Children(storyId, opts, i, base).rows;
    ConcatAssoc(pre, prev, Rows(storyId, opts[i].nextNode, false, base + |prev|));
  }

  /** The node's own row followed by its subtrees' rows is `Rows`. */
  lemma RowsAssembled(storyId: int, d: NodeDesc, isRoot: bool, base: int,
                      pre: seq<StoryNode>, node: StoryNode, after: seq<StoryNode>)
    requires node == StoryNode(base, storyId, d.content, isRoot, d.isEnding, d.isWinningEnding,
                               Some(if d.isEnding then [] else Children(storyId, d.options, |d.options|, base + 1).edges))
    requires after == pre + [node] + (if d.isEnding then [] else Children(storyId, d.options, |d.options|, base + 1).rows)
    ensures after == pre + Rows(storyId, d, isRoot, base)
  {
    var tail := if d.isEnding then [] else Children(storyId, d.options, |d.options|, base + 1).rows;
    assert Rows(storyId, d, isRoot, base) == [node] + tail;
    ConcatAssoc(pre, [node], tail);
  }

  /** `_process_story_node`: flush a row for `nodeData` (which gets the next
      id); unless it is an ending or has no options, materialize each
      option's subtree in description order, collecting `{text, node_id}`
      entries, and only then assign the collected list to the row's
      `options`. */
  method ProcessStoryNode(db: Db, storyId: int, nodeData: NodeDesc, isRoot: bool) returns (node: StoryNode)
    requires db.Valid()
    requires 1 <= storyId <= |db.stories|
    modifies db
    decreases nodeData
    ensures db.Valid()
    ensures db.stories == old(db.stories) && db.jobs == old(db.jobs)
    ensures db.nodes == old(db.nodes) + Rows(storyId, nodeData, isRoot, |old(db.nodes)| + 1)
    ensures node == db.nodes[|old(db.nodes)|] && node.id == |old(db.nodes)| + 1
  {
    ghost var pre := db.nodes;
    var base := |db.nodes| + 1;
    node := db.AddNode(storyId, nodeData.content, isRoot, nodeData.isEnding, nodeData.isWinningEnding);
    if !node.isEnding && |nodeData.options| > 0 {
      var opts := nodeData.options;
      var optionsList: seq<OptionRef> := [];
      var i := 0;
      while i < |opts|
        invariant 0 <= i <= |opts|
        invariant db.Valid()
        invariant db.stories == old(db.stories) && db.jobs == old(db.jobs)
        invariant db.nodes == pre + [node] + Children(storyId, opts, i, base + 1).rows
        invariant optionsList == Children(storyId, opts, i, base + 1).edges
      {
        var optionData := opts[i];
        ghost var mid := db.nodes;
        var childNode := ProcessStoryNode(db, storyId, optionData.nextNode, false);
        ChildrenStep(storyId, opts, i, base + 1, pre + [node], mid, db.nodes);
        optionsList := optionsList + [OptionRef(optionData.text, childNode.id)];
        i := i + 1;
      }
      node := db.SetOptions(node.id, optionsList);
    }
    RowsAssembled(storyId, nodeData, isRoot, base, pre, node, db.nodes);
  }

  /** `generate_story` after the model call: a failed call or parse leaves
      the store untouched and reports the error; otherwise the story row is
      flushed first (so it has an id), then the root description is
      materialized as the story's root node and every new node belongs to
      the new story. */
  method GenerateStory(db: Db, sessionId: string, llm: LlmOutcome) returns (r: Result<Story, string>)
    requires db.Valid()
    modifies db
    ensures db.Valid()
    ensures db.jobs == old(db.jobs)
    ensures llm.LlmError? ==>
              r == Failure(llm.message) && db.stories == old(db.stories) && db.nodes == old(db.nodes)
    ensures llm.Parsed? ==>
              && r.Success?
              && r.value == Story(|old(db.stories)| + 1, llm.structure.title, sessionId)
              && db.stories == old(db.stories) + [r.value]
              && db.nodes == old(db.nodes) + Rows(r.value.id, llm.structure.rootNode, true, |old(db.nodes)| + 1)
    ensures llm.Parsed? ==>
              forall k :: 0 <= k < |old(db.nodes)| ==> db.nodes[k].storyId != r.value.id
  {
    match llm
    case LlmError(message) =>
      r := Failure(message);
    case Parsed(structure) =>
      var story := db.AddStory(structure.title, sessionId);
      var root := ProcessStoryNode(db, story.id, structure.rootNode, true);
      r := Success(story);
  }

  /* ---- Properties of the materialized rows ---- */

  /** Materializing `d` adds one row per node of `d` reachable through
      non-ending nodes. */
  lemma {:induction false} RowsLength(storyId: int, d: NodeDesc, isRoot: bool, base: int)
    decreases d, 0
    ensures |Rows(storyId, d, isRoot, base)| == Size(d)
  {
    if !d.isEnding {
      ChildrenLength(storyId, d.options, |d.options|, base + 1);
    }
  }

  /** The first `n` subtrees add `OptionsSize(opts, n)` rows and one entry
      per option. */
  lemma {:induction false} ChildrenLength(storyId: int, opts: seq<OptionDesc>, n: nat, base: int)
    requires n <= |opts|
    decreases opts, n
    ensures |Children(storyId, opts, n, base).rows| == OptionsSize(opts, n)
    ensures |Children(storyId, opts, n, base).edges| == n
  {
    if n > 0 {
      ChildrenLength(storyId, opts, n - 1, base);
      var prev := Children(storyId, opts, n - 1, base);
      RowsLength(storyId, opts[n - 1].nextNode, false, base + |prev.rows|);
    }
  }

  /** The rows carry consecutive ids from `base` and all belong to `storyId`. */
  ghost predicate IdsFrom(rs: seq<StoryNode>, storyId: int, base: int)
  {
    forall k :: 0 <= k < |rs| ==> rs[k].id == base + k && rs[k].storyId == storyId
  }

  /** No row is a root. */
  ghost predicate NoRoot(rs: seq<StoryNode>)
  {
    forall k :: 0 <= k < |rs| ==> !rs[k].isRoot
  }

  /** Every row has an option list, and an ending row an empty one. */
  ghost predicate EndingsHaveNoOptions(rs: seq<StoryNode>)
  {
    forall k :: 0 <= k < |rs| ==> rs[k].options.Some? && (rs[k].isEnding ==> rs[k].options == Some([]))
  }

  /** Rows get consecutive ids from `base` (so they are distinct, and fresh
      when `base` is the next free id) and all belong to `storyId`. */
  lemma {:induction false} RowsIds(storyId: int, d: NodeDesc, isRoot: bool, base: int)
    decreases d, 0
    ensures IdsFrom(Rows(storyId, d, isRoot, base), storyId, base)
  {
    if !d.isEnding {
      var rs := Rows(storyId, d, isRoot, base);
      var kids := Children(storyId, d.options, |d.options|, base + 1).rows;
      ChildrenIds(storyId, d.options, |d.options|, base + 1);
      forall k | 1 <= k < |rs| ensures rs[k].id == base + k && rs[k].storyId == storyId {
        assert rs[k] == kids[k - 1];
      }
    }
  }

  lemma {:induction false} ChildrenIds(storyId: int, opts: seq<OptionDesc>, n: nat, base: int)
    requires n <= |opts|
    decreases opts, n
    ensures IdsFrom(Children(storyId, opts, n, base).rows, storyId, base)
  {
    if n > 0 {
      var rs := Children(storyId, opts, n, base).rows;
      var prev := Children(storyId, opts, n - 1, base).rows;
      var last := Rows(storyId, opts[n - 1].nextNode, false, base + |prev|);
      ChildrenIds(storyId, opts, n - 1, base);
      RowsIds(storyId, opts[n - 1].nextNode, false, base + |prev|);
      forall k | 0 <= k < |rs| ensures rs[k].id == base + k && rs[k].storyId == storyId {
        if k < |prev| {
          assert rs[k] == prev[k];
        } else {
          assert rs[k] == last[k - |prev|];
        }
      }
    }
  }

  /** Exactly one row is a root when `isRoot` holds, none otherwise, and
      the root is the row of the top-level description. */
  lemma {:induction false} RowsRoot(storyId: int, d: NodeDesc, isRoot: bool, base: int)
    decreases d, 0
    ensures var rs := Rows(storyId, d, isRoot, base);
            |rs| > 0 && rs[0].isRoot == isRoot && NoRoot(rs[1..])
  {
    if !d.isEnding {
      var rs := Rows(storyId, d, isRoot, base);
      ChildrenNoRoot(storyId, d.options, |d.options|, base + 1);
      assert rs[1..] == Children(storyId, d.options, |d.options|, base + 1).rows;
    }
  }

  /** Rows of subtrees are never roots: every recursive call passes
      `is_root=False`. */
  lemma {:induction false} ChildrenNoRoot(storyId: int, opts: seq<OptionDesc>, n: nat, base: int)
    requires n <= |opts|
    decreases opts, n
    ensures NoRoot(Children(storyId, opts, n, base).rows)
  {
    if n > 0 {
      var rs := Children(storyId, opts, n, base).rows;
      var prev := Children(storyId, opts, n - 1, base).rows;
      var last := Rows(storyId, opts[n - 1].nextNode, false, base + |prev|);
      ChildrenNoRoot(storyId, opts, n - 1, base);
      RowsRoot(storyId, opts[n - 1].nextNode, false, base + |prev|);
      forall k | 0 <= k < |rs| ensures !rs[k].isRoot {
        if k < |prev| {
          assert rs[k] == prev[k];
        } else if k > |prev| {
          assert rs[k] == last[1..][k - |prev| - 1];
        }
      }
    }
  }

  /** Every ending row has an empty option list, whatever options its
      description held; no row is left without a list. */
  lemma {:induction false} RowsEndingsHaveNoOptions(storyId: int, d: NodeDesc, isRoot: bool, base: int)
    decreases d, 0
    ensures EndingsHaveNoOptions(Rows(storyId, d, isRoot, base))
  {
    if !d.isEnding {
      var rs := Rows(storyId, d, isRoot, base);
      var kids := Children(storyId, d.options, |d.options|, base + 1).rows;
      ChildrenEndingsHaveNoOptions(storyId, d.options, |d.options|, base + 1);
      forall k | 1 <= k < |rs| ensures rs[k].options.Some? && (rs[k].isEnding ==> rs[k].options == Some([])) {
        assert rs[k] == kids[k - 1];
      }
    }
  }

  lemma {:induction false} ChildrenEndingsHaveNoOptions(storyId: int, opts: seq<OptionDesc>, n: nat, base: int)
    requires n <= |opts|
    decreases opts, n
    ensures EndingsHaveNoOptions(Children(storyId, opts, n, base).rows)
  {
    if n > 0 {
      var rs := Children(storyId, opts, n, base).rows;
      var prev := Children(storyId, opts, n - 1, base).rows;
      var last := Rows(storyId, opts[n - 1].nextNode, false, base + |prev|);
      ChildrenEndingsHaveNoOptions(storyId, opts, n - 1, base);
      RowsEndingsHaveNoOptions(storyId, opts[n - 1].nextNode, false, base + |prev|);
      forall k | 0 <= k < |rs| ensures rs[k].options.Some? && (rs[k].isEnding ==> rs[k].options == Some([])) {
        if k < |prev| {
          assert rs[k] == prev[k];
        } else {
          assert rs[k] == last[k - |prev|];
        }
      }
    }
  }

  /** The j-th collected entry carries the j-th option's text and the id of
      the first row of that option's subtree, a row already flushed when
      the list is assigned; that row copies the option's `nextNode`. */
  lemma {:induction false} ChildrenEdge(storyId: int, opts: seq<OptionDesc>, n: nat, base: int, j: nat)
    requires j < n <= |opts|
    decreases n
    ensures var c := Children(storyId, opts, n, base);
            && |c.edges| == n
            && c.edges[j].text == opts[j].text
            && base <= c.edges[j].nodeId < base + |c.rows|
            && c.rows[c.edges[j].nodeId - base].id == c.edges[j].nodeId
            && c.rows[c.edges[j].nodeId - base].content == opts[j].nextNode.content
            && c.rows[c.edges[j].nodeId - base].isEnding == opts[j].nextNode.isEnding
  {
    var c := Children(storyId, opts, n, base);
    var prev := Children(storyId, opts, n - 1, base);
    ChildrenLength(storyId, opts, n - 1, base);
    if j < n - 1 {
      ChildrenEdge(storyId, opts, n - 1, base, j);
      assert c.edges[j] == prev.edges[j];
      assert c.rows[prev.edges[j].nodeId - base] == prev.rows[prev.edges[j].nodeId - base];
    } else {
      var last := Rows(storyId, opts[n - 1].nextNode, false, base + |prev.rows|);
      assert c.rows[|prev.rows|] == last[0];
    }
  }

  /** The options of the materialized node itself: none for an ending or
      for a description without options; otherwise one entry per option,
      in description order, with the option's text and the id of a row of
      this call whose content is the option's `nextNode.content`. */
  lemma {:induction false} RowsOptions(storyId: int, d: NodeDesc, isRoot: bool, base: int)
    ensures var rs := Rows(storyId, d, isRoot, base);
            var list := OptionsOrEmpty(rs[0].options);
            && (d.isEnding || d.options == [] ==> list == [])
            && (!d.isEnding ==> |list| == |d.options|)
            && (!d.isEnding ==>
                  forall j :: 0 <= j < |list| ==>
                    && list[j].text == d.options[j].text
                    && base < list[j].nodeId < base + |rs|
                    && rs[list[j].nodeId - base].id == list[j].nodeId
                    && rs[list[j].nodeId - base].content == d.options[j].nextNode.content)
  {
    if !d.isEnding {
      var rs := Rows(storyId, d, isRoot, base);
      var c := Children(storyId, d.options, |d.options|, base + 1);
      ChildrenLength(storyId, d.options, |d.options|, base + 1);
      forall j | 0 <= j < |d.options|
        ensures && c.edges[j].text == d.options[j].text
                && base < c.edges[j].nodeId < base + |rs|
                && rs[c.edges[j].nodeId - base].id == c.edges[j].nodeId
                && rs[c.edges[j].nodeId - base].content == d.options[j].nextNode.content
      {
        ChildrenEdge(storyId, d.options, |d.options|, base + 1, j);
        assert rs[c.edges[j].nodeId - base] == c.rows[c.edges[j].nodeId - base - 1];
      }
    }
  }

  /** Every option of every row points to a row created later in the same
      materialization: children get their ids before the parent's list is
      assigned, and no option leaves the materialized tree. */
  ghost predicate EdgesForward(rs: seq<StoryNode>, base: int)
  {
    forall k, j :: 0 <= k < |rs| && 0 <= j < |OptionsOrEmpty(rs[k].options)| ==>
      k < OptionsOrEmpty(rs[k].options)[j].nodeId - base < |rs|
  }

  lemma {:induction false} RowsEdgesForward(storyId: int, d: NodeDesc, isRoot: bool, base: int)
    decreases d, 0
    ensures EdgesForward(Rows(storyId, d, isRoot, base), base)
  {
    var rs := Rows(storyId, d, isRoot, base);
    if !d.isEnding {
      var c := Children(storyId, d.options, |d.options|, base + 1);
      ChildrenLength(storyId, d.options, |d.options|, base + 1);
      ChildrenEdgesForward(storyId, d.options, |d.options|, base + 1);
      forall k, j | 0 <= k < |rs| && 0 <= j < |OptionsOrEmpty(rs[k].options)|
        ensures k < OptionsOrEmpty(rs[k].options)[j].nodeId - base < |rs|
      {
        if k == 0 {
          ChildrenEdge(storyId, d.options, |d.options|, base + 1, j);
        } else {
          assert rs[k] == c.rows[k - 1];
        }
      }
    }
  }

  lemma {:induction false} ChildrenEdgesForward(storyId: int, opts: seq<OptionDesc>, n: nat, base: int)
    requires n <= |opts|
    decreases opts, n
    ensures EdgesForward(Children(storyId, opts, n, base).rows, base)
  {
    if n > 0 {
      var rs := Children(storyId, opts, n, base).rows;
      var prev := Children(storyId, opts, n - 1, base).rows;
      var last := Rows(storyId, opts[n - 1].nextNode, false, base + |prev|);
      ChildrenEdgesForward(storyId, opts, n - 1, base);
      RowsEdgesForward(storyId, opts[n - 1].nextNode, false, base + |prev|);
      forall k, j | 0 <= k < |rs| && 0 <= j < |OptionsOrEmpty(rs[k].options)|
        ensures k < OptionsOrEmpty(rs[k].options)[j].nodeId - base < |rs|
      {
        if k < |prev| {
          assert rs[k] == prev[k];
        } else {
          assert rs[k] == last[k - |prev|];
        }
      }
    }
  }
}
