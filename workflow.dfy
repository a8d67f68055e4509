/**
 * The workflow builder: a wrapper over a graph in which, instead of adding
 * edges, each node declares the field mappings it takes its input from; at
 * compile time the mappings become graph edges, and the graph is always
 * compiled in all-predecessor trigger mode.
 */
module Workflows {
  import opened Values
  import opened FieldMappings
  import opened WorkflowPlan

  /**
   * The underlying graph, reduced to the calls made into it and its verdict
   * on each call; its own construction and compilation are not part of this
   * model.
   */
  class Graph {
    var log: seq<GraphCall>
    const rejects: Rejects

    constructor (rejects: Rejects)
      ensures log == [] && this.rejects == rejects
    {
      log := [];
      this.rejects := rejects;
    }

    /** Makes one call; the graph answers with an error when it rejects it. */
    method Invoke(c: GraphCall) returns (err: Option<Error>)
      modifies this
      ensures log == old(log) + [c]
      ensures err == if rejects(old(log), c) then Some(GraphRejected) else None
    {
      err := if rejects(log, c) then Some(GraphRejected) else None;
      log := log + [c];
    }
  }

  /** A mapping from one node's output (or one of its fields) to the current node's input (or one of its fields). */
  class Mapping {
    var fromNodeKey: string
    var from: string
    var to: string

    /** A mapping of the entire output of `fromNodeKey` to the entire input. */
    constructor (fromNodeKey: string)
      ensures Desc() == FieldMapping(fromNodeKey, "", "") && Desc().Empty()
    {
      this.fromNodeKey := fromNodeKey;
      from := "";
      to := "";
    }

    /** The mapping as a descriptor value. */
    function Desc(): FieldMapping
      reads this
    {
      FieldMapping(fromNodeKey, from, to)
    }

    /** Chooses the source field, returning the same mapping for chaining. */
    method From(name: string) returns (m: Mapping)
      modifies this
      ensures m == this
      ensures Desc() == old(Desc()).(from := name)
    {
      from := name;
      m := this;
    }

    /** Chooses the destination field, returning the same mapping for chaining. */
    method To(name: string) returns (m: Mapping)
      modifies this
      ensures m == this
      ensures Desc() == old(Desc()).(to := name)
    {
      to := name;
      m := this;
    }

    /** The description of the mapping, naming the source node in quotes. */
    method String() returns (s: string)
      ensures s == "from " + (if from != "" then from + "(field) of " else "")
                 + "node '" + fromNodeKey + "'"
                 + (if to != "" then " to " + to + "(field)" else "") + "; "
    {
      s := "from ";
      if from != "" {
        s := s + from;
        s := s + "(field) of ";
      }
      s := s + "node '";
      s := s + fromNodeKey;
      s := s + "'";
      if to != "" {
        s := s + " to ";
        s := s + to;
        s := s + "(field)";
      }
      s := s + "; ";
    }
  }

  /** The descriptors of a list of mappings, as they stand now. */
  function Descs(ms: seq<Mapping>): (ds: seq<FieldMapping>)
    reads set i | 0 <= i < |ms| :: ms[i]
    ensures |ds| == |ms| && forall i :: 0 <= i < |ms| ==> ds[i] == ms[i].Desc()
  {
    seq(|ms|, i requires 0 <= i < |ms| reads set j | 0 <= j < |ms| :: ms[j] => ms[i].Desc())
  }

  /** Descriptors read from mapping objects that did not change are unchanged. */
  twostate lemma DescsUnchanged(ms: seq<Mapping>)
    requires forall j :: 0 <= j < |ms| ==> unchanged(ms[j])
    ensures Descs(ms) == old(Descs(ms))
  {
  }

  /**
   * The first pass over the mappings into `dst`: refuses an entire-input
   * mapping among several and a repeated destination field, and groups the
   * mappings by source node in declaration order.
   */
  method ScanInputs(dst: string, ms: seq<FieldMapping>)
    returns (err: Option<Error>, fromNode2Mappings: map<string, seq<FieldMapping>>)
    ensures err == InputError(dst, ms, 0, {})
    ensures err.None? ==> fromNode2Mappings.Keys == SourceSet(ms)
    ensures err.None? ==> forall s :: s in fromNode2Mappings ==> fromNode2Mappings[s] == Group(ms, s)
  {
    var toSet: set<string> := {};
    fromNode2Mappings := map[];
    for i := 0 to |ms|
      invariant InputError(dst, ms, 0, {}) == InputError(dst, ms, i, toSet)
      invariant fromNode2Mappings.Keys == SourceSet(ms[..i])
      invariant forall s :: s in fromNode2Mappings ==> fromNode2Mappings[s] == Group(ms[..i], s)
    {
      var input := ms[i];
      if |input.to| == 0 && |ms| > 1 {
        return Some(EntireInputAmongMany(dst)), fromNode2Mappings;
      }
      if input.to in toSet {
        return Some(DuplicateTo(dst, input.to)), fromNode2Mappings;
      }
      toSet := toSet + {input.to};
      var fromNodeKey := input.fromNodeKey;
      SourceSetSnoc(ms[..i], input);
      GroupOfSource(ms[..i], fromNodeKey);
      assert ms[..i + 1] == ms[..i] + [input];
      var sofar := if fromNodeKey in fromNode2Mappings then fromNode2Mappings[fromNodeKey] else [];
      fromNode2Mappings := fromNode2Mappings[fromNodeKey := sofar + [input]];
    }
    assert ms[..|ms|] == ms;
    err := None;
  }

  /** A node of the workflow with the mappings it takes its input from. */
  class WorkflowNode {
    const key: string
    var inputs: seq<Mapping>

    constructor (key: string)
      ensures this.key == key && inputs == []
    {
      this.key := key;
      inputs := [];
    }

    /** Appends input mappings, returning the same node for chaining. */
    method AddInput(ins: seq<Mapping>) returns (n: WorkflowNode)
      modifies this
      ensures n == this
      ensures inputs == old(inputs) + ins
    {
      inputs := inputs + ins;
      n := this;
    }
  }

  /** The options a graph is compiled with, reduced to the node trigger mode. */
  class CompileOptions {
    var nodeTriggerMode: TriggerMode

    constructor (mode: TriggerMode)
      ensures nodeTriggerMode == mode
    {
      nodeTriggerMode := mode;
    }
  }

  /** The outcome of compiling: an error before the graph call, or the graph's own verdict. */
  function CompileOutcome(rejects: Rejects, edges: (Option<Error>, seq<GraphCall>)): (Option<Error>, seq<GraphCall>)
  {
    if edges.0.Some? then edges
    else Emit(rejects, edges.1, [CompileCall(AllPredecessor)])
  }

  /**
   * Compiling succeeds exactly when every node's and END's mappings are legal
   * and the graph accepts every planned edge call and then the compile call,
   * which is in all-predecessor mode; on success the log grows by exactly those.
   */
  lemma CompileOutcomeSpec(rejects: Rejects, log: seq<GraphCall>, order: seq<string>,
                           decl: map<string, seq<FieldMapping>>, groups: map<string, seq<string>>,
                           end: seq<FieldMapping>, endGroups: seq<string>)
    requires forall k :: k in order ==> k in decl && k in groups
    ensures CompileOutcome(rejects, AddEdges(rejects, log, order, decl, groups, end, endGroups)).0.None? <==>
      && AllLegal(order, decl) && Legal(end)
      && Accepts(rejects, log, Plan(order, decl, groups, end, endGroups) + [CompileCall(AllPredecessor)])
    ensures CompileOutcome(rejects, AddEdges(rejects, log, order, decl, groups, end, endGroups)).0.None? ==>
      CompileOutcome(rejects, AddEdges(rejects, log, order, decl, groups, end, endGroups)).1
        == log + Plan(order, decl, groups, end, endGroups) + [CompileCall(AllPredecessor)]
  {
    var plan := Plan(order, decl, groups, end, endGroups);
    AddEdgesSpec(rejects, log, order, decl, groups, end, endGroups);
    AcceptsAppend(rejects, log, plan, [CompileCall(AllPredecessor)]);
    var edges := AddEdges(rejects, log, order, decl, groups, end, endGroups);
    if edges.0.None? {
      EmitSpec(rejects, edges.1, [CompileCall(AllPredecessor)]);
    }
  }

  class Workflow {
    const gg: Graph
    var nodes: map<string, WorkflowNode>
    var end: seq<Mapping>
    /** The first error met while adding nodes; later additions are then ignored. */
    var err: Option<Error>

    /** Every node is registered under its own key. */
    ghost predicate Valid()
      reads this
    {
      forall k :: k in nodes ==> nodes[k].key == k
    }

    /** The mapping objects declared into the nodes. */
    ghost function InputObjects(): set<Mapping>
      reads this, nodes.Values
    {
      set k, i | k in nodes && 0 <= i < |nodes[k].inputs| :: nodes[k].inputs[i]
    }

    /** The mappings each node declares, as they stand now. */
    ghost function Declared(): map<string, seq<FieldMapping>>
      reads this, nodes.Values, InputObjects()
    {
      map k | k in nodes :: Descs(nodes[k].inputs)
    }

    /** An empty workflow over a fresh graph. */
    constructor (rejects: Rejects)
      ensures fresh(gg) && gg.log == [] && gg.rejects == rejects
      ensures nodes == map[] && end == [] && err == None
      ensures Valid()
    {
      gg := new Graph(rejects);
      nodes := map[];
      end := [];
      err := None;
    }

    /**
     * Adds a node under `key`. Once an error is stored, nothing happens but
     * the creation of the node. Otherwise the node is registered before the
     * graph is asked to add it, and the graph's error, if any, is stored.
     */
    method AddNode(key: string) returns (node: WorkflowNode)
      requires Valid()
      modifies this, gg
      ensures Valid()
      ensures fresh(node) && node.key == key && node.inputs == []
      ensures end == old(end)
      ensures old(err).Some? ==> nodes == old(nodes) && err == old(err) && gg.log == old(gg.log)
      ensures old(err).None? ==>
        && nodes == old(nodes)[key := node]
        && gg.log == old(gg.log) + [AddNodeCall(key)]
        && err == if gg.rejects(old(gg.log), AddNodeCall(key)) then Some(GraphRejected) else None
    {
      node := new WorkflowNode(key);
      if err.Some? {
        return;
      }
      nodes := nodes[key := node];
      var e := gg.Invoke(AddNodeCall(key));
      if e.Some? {
        err := e;
      }
    }

    /** Declares the mappings into END, replacing any declared before. */
    method AddEnd(ins: seq<Mapping>)
      modifies this
      ensures end == ins
      ensures nodes == old(nodes) && err == old(err)
    {
      end := ins;
    }

    /**
     * Turns the declared mappings into graph edges: one node at a time in
     * `order` (the order of a Go `range` over the nodes), and END last; within
     * one node, one call per source node in the order `groups` gives (again a
     * map range).
     */
    method AddEdgesWithMapping(order: seq<string>, groups: map<string, seq<string>>, endGroups: seq<string>)
      returns (result: Option<Error>)
      requires Valid()
      requires Enumerates(order, nodes.Keys)
      requires forall k :: k in nodes ==> k in groups && Enumerates(groups[k], SourceSet(Declared()[k]))
      requires Enumerates(endGroups, SourceSet(Descs(end)))
      modifies gg
      ensures (result, gg.log) == AddEdges(gg.rejects, old(gg.log), order, old(Declared()), groups, old(Descs(end)), endGroups)
    {
      ghost var decl := Declared();
      for i := 0 to |order|
        invariant forall k :: k in nodes ==> Descs(nodes[k].inputs) == decl[k]
        invariant Descs(end) == old(Descs(end))
        invariant RunNodes(gg.rejects, old(gg.log), order, decl, groups) == RunNodes(gg.rejects, gg.log, order[i..], decl, groups)
      {
        var node := nodes[order[i]];
        var toNode := node.key;
        assert order[i..][1..] == order[i + 1..];
        if |node.inputs| == 0 {
          return Some(NodeHasNoInput(toNode));
        }
        label before:
        var e := AddEdgesInto(toNode, Descs(node.inputs), groups[toNode]);
        if e.Some? {
          return e;
        }
        forall k | k in nodes ensures Descs(nodes[k].inputs) == decl[k] {
          DescsUnchanged@before(nodes[k].inputs);
        }
        DescsUnchanged@before(end);
      }
      if |end| == 0 {
        return Some(EndHasNoInput);
      }
      result := AddEdgesInto(END, Descs(end), endGroups);
    }

    /** The edges into `dst`: the legality scan over its mappings, then one call per source group. */
    method AddEdgesInto(dst: string, ms: seq<FieldMapping>, srcs: seq<string>) returns (result: Option<Error>)
      requires Enumerates(srcs, SourceSet(ms))
      modifies gg
      ensures (result, gg.log) == NodeEdges(gg.rejects, old(gg.log), dst, ms, srcs)
    {
      var err, fromNode2Mappings := ScanInputs(dst, ms);
      if err.Some? {
        return err;
      }
      ghost var calls := NodeCalls(dst, ms, srcs);
      for j := 0 to |srcs|
        invariant NodeEdges(gg.rejects, old(gg.log), dst, ms, srcs) == Emit(gg.rejects, gg.log, calls[j..])
      {
        var fromNode := srcs[j];
        var mappings := fromNode2Mappings[fromNode];
        GroupOfSource(ms, fromNode);
        assert calls[j..][1..] == calls[j + 1..];
        var e;
        if mappings[0].Empty() {
          e := gg.Invoke(AddEdgeCall(fromNode, dst));
        } else {
          e := gg.Invoke(AddEdgeWithMappingsCall(fromNode, dst, mappings));
        }
        if e.Some? {
          return e;
        }
      }
      return None;
    }

    /**
     * Compiles the workflow: a stored error is returned first; the
     * any-predecessor trigger mode is refused; then the edges are added and
     * the graph is compiled in all-predecessor mode.
     */
    method Compile(requested: TriggerMode, order: seq<string>, groups: map<string, seq<string>>, endGroups: seq<string>)
      returns (result: Option<Error>)
      requires Valid()
      requires Enumerates(order, nodes.Keys)
      requires forall k :: k in nodes ==> k in groups && Enumerates(groups[k], SourceSet(Declared()[k]))
      requires Enumerates(endGroups, SourceSet(Descs(end)))
      modifies gg
      ensures old(err).Some? ==> result == old(err) && gg.log == old(gg.log)
      ensures old(err).None? && requested == AnyPredecessor ==>
        result == Some(AnyPredecessorUnsupported) && gg.log == old(gg.log)
      ensures old(err).None? && requested != AnyPredecessor ==>
        (result, gg.log) == CompileOutcome(gg.rejects,
          AddEdges(gg.rejects, old(gg.log), order, old(Declared()), groups, old(Descs(end)), endGroups))
    {
      if err.Some? {
        return err;
      }
      if requested == AnyPredecessor {
        return Some(AnyPredecessorUnsupported);
      }
      ghost var log0 := gg.log;
      result := AddEdgesWithMapping(order, groups, endGroups);
      if result.Some? {
        return;
      }
      ghost var log1 := gg.log;
      result := gg.Invoke(CompileCall(AllPredecessor));
      assert [CompileCall(AllPredecessor)][1..] == [];
    }

    /**
     * Compiles the workflow as a node nested in another graph: unlike Compile
     * it does not look at the stored error; it refuses the any-predecessor
     * mode, otherwise forces all-predecessor mode into the options before
     * adding the edges and compiling the graph with those options.
     */
    method CompileNested(options: CompileOptions, order: seq<string>, groups: map<string, seq<string>>, endGroups: seq<string>)
      returns (result: Option<Error>)
      requires Valid()
      requires Enumerates(order, nodes.Keys)
      requires forall k :: k in nodes ==> k in groups && Enumerates(groups[k], SourceSet(Declared()[k]))
      requires Enumerates(endGroups, SourceSet(Descs(end)))
      modifies gg, options
      ensures old(options.nodeTriggerMode) == AnyPredecessor ==>
        result == Some(AnyPredecessorUnsupported) && gg.log == old(gg.log) && options.nodeTriggerMode == AnyPredecessor
      ensures old(options.nodeTriggerMode) != AnyPredecessor ==>
        && options.nodeTriggerMode == AllPredecessor
        && (result, gg.log) == CompileOutcome(gg.rejects,
             AddEdges(gg.rejects, old(gg.log), order, old(Declared()), groups, old(Descs(end)), endGroups))
    {
      if options.nodeTriggerMode == AnyPredecessor {
        return Some(AnyPredecessorUnsupported);
      }
      options.nodeTriggerMode := AllPredecessor;
      assert Declared() == old(Declared()) && Descs(end) == old(Descs(end));
      result := AddEdgesWithMapping(order, groups, endGroups);
      if result.Some? {
        return;
      }
      result := gg.Invoke(CompileCall(options.nodeTriggerMode));
      assert [CompileCall(AllPredecessor)][1..] == [];
    }
  }
}
