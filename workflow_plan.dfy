/**
 * The edge plan of the workflow builder: which graph edge calls the builder
 * makes for the mappings declared into one destination node, and the
 * structural legality rules those mappings must satisfy.
 */
module WorkflowPlan {
  import opened Values
  import opened FieldMappings

  /** The key of the virtual terminal node. */
  const END: string := "end"

  datatype TriggerMode = Unset | AnyPredecessor | AllPredecessor

  /** One call into the underlying graph. */
  datatype GraphCall =
    | AddNodeCall(key: string)
    | AddEdgeCall(from: string, to: string)
    | AddEdgeWithMappingsCall(from: string, to: string, mappings: seq<FieldMapping>)
    | CompileCall(mode: TriggerMode)

  /**
   * The legality rules for the mappings into one node: at least one mapping,
   * a mapping to the entire input stands alone, and no two mappings share a
   * destination field.
   */
  predicate Legal(ms: seq<FieldMapping>)
  {
    |ms| > 0 && LegalUpTo(ms, |ms|)
  }

  /** The legality rules, for the first `n` mappings. */
  predicate LegalUpTo(ms: seq<FieldMapping>, n: nat)
    requires n <= |ms|
  {
    && (forall i :: 0 <= i < n && ms[i].to == "" ==> |ms| == 1)
    && (forall i, j :: 0 <= i < j < n ==> ms[i].to != ms[j].to)
  }

  /** The destination fields of the first `n` mappings. */
  function Tos(ms: seq<FieldMapping>, n: nat): set<string>
    requires n <= |ms|
  {
    set i | 0 <= i < n :: ms[i].to
  }

  /** The source nodes some mapping of `ms` comes from. */
  function SourceSet(ms: seq<FieldMapping>): set<string>
  {
    set i | 0 <= i < |ms| :: ms[i].fromNodeKey
  }

  /**
   * `order` lists each element of `s` exactly once: the order in which a Go
   * `range` over a map with key set `s` happens to visit the keys.
   */
  predicate Enumerates(order: seq<string>, s: set<string>)
  {
    && (forall k :: k in order ==> k in s)
    && (forall k :: k in s ==> k in order)
    && (forall i, j :: 0 <= i < j < |order| ==> order[i] != order[j])
  }

  /** The mappings of `ms` from source node `src`, in declaration order. */
  function Group(ms: seq<FieldMapping>, src: string): seq<FieldMapping>
    decreases |ms|
  {
    if ms == [] then []
    else
      var last := ms[|ms| - 1];
      Group(ms[..|ms| - 1], src) + (if last.fromNodeKey == src then [last] else [])
  }

  /** The call for one source group: a plain edge when its first mapping is empty. */
  function EdgeFor(src: string, dst: string, group: seq<FieldMapping>): GraphCall
  {
    if |group| > 0 && group[0].Empty() then AddEdgeCall(src, dst)
    else AddEdgeWithMappingsCall(src, dst, group)
  }

  /** The calls made for the mappings into `dst`, one per source group, visiting the groups in `srcs` order. */
  function NodeCalls(dst: string, ms: seq<FieldMapping>, srcs: seq<string>): seq<GraphCall>
  {
    seq(|srcs|, j requires 0 <= j < |srcs| => EdgeFor(srcs[j], dst, Group(ms, srcs[j])))
  }

  /** Every node of `order` has legal mappings. */
  predicate AllLegal(order: seq<string>, decl: map<string, seq<FieldMapping>>)
    requires forall k :: k in order ==> k in decl
  {
    forall k :: k in order ==> Legal(decl[k])
  }

  /** The calls for the nodes of `order`, visited in that order. */
  function PlanNodes(order: seq<string>, decl: map<string, seq<FieldMapping>>, groups: map<string, seq<string>>): seq<GraphCall>
    requires forall k :: k in order ==> k in decl && k in groups
    decreases |order|
  {
    if order == [] then []
    else NodeCalls(order[0], decl[order[0]], groups[order[0]]) + PlanNodes(order[1..], decl, groups)
  }

  /**
   * Every call of the plan: the nodes' edges in `order`, each node's groups
   * in the order `groups` gives, then END's edges.
   */
  function Plan(order: seq<string>, decl: map<string, seq<FieldMapping>>, groups: map<string, seq<string>>,
                end: seq<FieldMapping>, endGroups: seq<string>): seq<GraphCall>
    requires forall k :: k in order ==> k in decl && k in groups
  {
    PlanNodes(order, decl, groups) + NodeCalls(END, end, endGroups)
  }

  /**
   * The underlying graph's verdict on a call, given the calls made before it:
   * true when the graph reports an error for it.
   */
  type Rejects = (seq<GraphCall>, GraphCall) -> bool

  /** The graph accepts each of `calls`, made one after another after `log`. */
  predicate Accepts(rejects: Rejects, log: seq<GraphCall>, calls: seq<GraphCall>)
  {
    forall n :: 0 <= n < |calls| ==> !rejects(log + calls[..n], calls[n])
  }

  /** `after` is `before` followed by a prefix of `calls`. */
  predicate ExtendsBy(before: seq<GraphCall>, after: seq<GraphCall>, calls: seq<GraphCall>)
  {
    && |before| <= |after| <= |before| + |calls|
    && after == before + calls[..|after| - |before|]
  }

  /**
   * Makes `calls` one after another, stopping at the first the graph rejects.
   * Returns the error and the log of calls made.
   */
  function Emit(rejects: Rejects, log: seq<GraphCall>, calls: seq<GraphCall>): (Option<Error>, seq<GraphCall>)
    decreases |calls|
  {
    if calls == [] then (None, log)
    else if rejects(log, calls[0]) then (Some(GraphRejected), log + [calls[0]])
    else Emit(rejects, log + [calls[0]], calls[1..])
  }

  /**
   * The legality scan over the mappings into `dst` from position `i`, with
   * `toSet` the destination fields seen so far: the first mapping to the entire
   * input among several, or the first repeated destination field, fails.
   */
  function InputError(dst: string, ms: seq<FieldMapping>, i: nat, toSet: set<string>): Option<Error>
    requires i <= |ms|
    decreases |ms| - i
  {
    if i == |ms| then None
    else if ms[i].to == "" && |ms| > 1 then Some(EntireInputAmongMany(dst))
    else if ms[i].to in toSet then Some(DuplicateTo(dst, ms[i].to))
    else InputError(dst, ms, i + 1, toSet + {ms[i].to})
  }

  /** The edges into one node: the legality scan, then one call per source group. */
  function NodeEdges(rejects: Rejects, log: seq<GraphCall>, dst: string, ms: seq<FieldMapping>, srcs: seq<string>)
    : (Option<Error>, seq<GraphCall>)
  {
    match InputError(dst, ms, 0, {})
    case Some(e) => (Some(e), log)
    case None => Emit(rejects, log, NodeCalls(dst, ms, srcs))
  }

  /** The edges into each node of `order`, stopping at the first failure. */
  function RunNodes(rejects: Rejects, log: seq<GraphCall>, order: seq<string>,
                    decl: map<string, seq<FieldMapping>>, groups: map<string, seq<string>>): (Option<Error>, seq<GraphCall>)
    requires forall k :: k in order ==> k in decl && k in groups
    decreases |order|
  {
    if order == [] then (None, log)
    else
      var k := order[0];
      if decl[k] == [] then (Some(NodeHasNoInput(k)), log)
      else
        var (e, log') := NodeEdges(rejects, log, k, decl[k], groups[k]);
        if e.Some? then (e, log') else RunNodes(rejects, log', order[1..], decl, groups)
  }

  /** The whole edge-building pass: every node of `order`, then END. */
  function AddEdges(rejects: Rejects, log: seq<GraphCall>, order: seq<string>,
                    decl: map<string, seq<FieldMapping>>, groups: map<string, seq<string>>,
                    end: seq<FieldMapping>, endGroups: seq<string>): (Option<Error>, seq<GraphCall>)
    requires forall k :: k in order ==> k in decl && k in groups
  {
    var (e, log') := RunNodes(rejects, log, order, decl, groups);
    if e.Some? then (e, log')
    else if end == [] then (Some(EndHasNoInput), log')
    else NodeEdges(rejects, log', END, end, endGroups)
  }

  lemma AcceptsAppend(rejects: Rejects, log: seq<GraphCall>, a: seq<GraphCall>, b: seq<GraphCall>)
    ensures Accepts(rejects, log, a + b) <==> Accepts(rejects, log, a) && Accepts(rejects, log + a, b)
  {
    var ab := a + b;
    forall n | 0 <= n < |b|
      ensures log + ab[..|a| + n] == (log + a) + b[..n] && ab[|a| + n] == b[n]
    {
      assert ab[..|a| + n] == a + b[..n];
    }
    forall n | 0 <= n < |a|
      ensures ab[..n] == a[..n] && ab[n] == a[n]
    {
    }
    if Accepts(rejects, log, a) && Accepts(rejects, log + a, b) {
      forall n | 0 <= n < |ab| ensures !rejects(log + ab[..n], ab[n]) {
        if n >= |a| {
          assert !rejects((log + a) + b[..n - |a|], b[n - |a|]);
        }
      }
    }
    if Accepts(rejects, log, ab) {
      forall n | 0 <= n < |b| ensures !rejects((log + a) + b[..n], b[n]) {
        assert !rejects(log + ab[..|a| + n], ab[|a| + n]);
      }
    }
  }

  lemma ExtendsByAppend(before: seq<GraphCall>, after: seq<GraphCall>, a: seq<GraphCall>, b: seq<GraphCall>)
    requires ExtendsBy(before, after, a)
    ensures ExtendsBy(before, after, a + b)
  {
    assert (a + b)[..|after| - |before|] == a[..|after| - |before|];
  }

  lemma ExtendsByChain(before: seq<GraphCall>, a: seq<GraphCall>, after: seq<GraphCall>, b: seq<GraphCall>)
    requires ExtendsBy(before + a, after, b)
    ensures ExtendsBy(before, after, a + b)
  {
    var n := |after| - |before + a|;
    assert (a + b)[..|a| + n] == a + b[..n];
  }

  /**
   * Emitting succeeds exactly when the graph accepts every call; the log
   * grows by a prefix of the calls, by all of them on success, and a failure
   * is the graph's.
   */
  lemma {:induction false} EmitSpec(rejects: Rejects, log: seq<GraphCall>, calls: seq<GraphCall>)
    ensures Emit(rejects, log, calls).0.None? <==> Accepts(rejects, log, calls)
    ensures ExtendsBy(log, Emit(rejects, log, calls).1, calls)
    ensures Emit(rejects, log, calls).0.None? ==> Emit(rejects, log, calls).1 == log + calls
    ensures Emit(rejects, log, calls).0.Some? ==> Emit(rejects, log, calls).0 == Some(GraphRejected)
    decreases |calls|
  {
    if calls != [] {
      var c := calls[0];
      assert calls == [c] + calls[1..];
      AcceptsAppend(rejects, log, [c], calls[1..]);
      assert log + [c][..0] == log;
      assert Accepts(rejects, log, [c]) <==> !rejects(log, c);
      if !rejects(log, c) {
        EmitSpec(rejects, log + [c], calls[1..]);
        ExtendsByChain(log, [c], Emit(rejects, log, calls).1, calls[1..]);
      }
    }
  }

  /**
   * The legality scan from position `i` fails exactly when the rules break
   * somewhere, given that they hold before `i`, and then it names a rule that
   * breaks.
   */
  lemma {:induction false} InputErrorSpec(dst: string, ms: seq<FieldMapping>, i: nat, toSet: set<string>)
    requires i <= |ms|
    requires toSet == Tos(ms, i) && LegalUpTo(ms, i)
    ensures InputError(dst, ms, i, toSet).None? <==> LegalUpTo(ms, |ms|)
    ensures InputError(dst, ms, i, toSet) == Some(EntireInputAmongMany(dst)) ==>
      |ms| > 1 && exists j :: 0 <= j < |ms| && ms[j].to == ""
    ensures InputError(dst, ms, i, toSet).Some? ==>
      || InputError(dst, ms, i, toSet) == Some(EntireInputAmongMany(dst))
      || (InputError(dst, ms, i, toSet).value.DuplicateTo? && InputError(dst, ms, i, toSet).value.node == dst
          && exists j, l :: 0 <= j < l < |ms| && ms[j].to == ms[l].to == InputError(dst, ms, i, toSet).value.field)
    decreases |ms| - i
  {
    if i < |ms| {
      if ms[i].to == "" && |ms| > 1 {
      } else if ms[i].to in toSet {
        var j :| 0 <= j < i && ms[j].to == ms[i].to;
      } else {
        assert Tos(ms, i + 1) == toSet + {ms[i].to} by {
          assert forall x :: x in Tos(ms, i + 1) <==> x in Tos(ms, i) || x == ms[i].to;
        }
        forall j | 0 <= j < i ensures ms[j].to != ms[i].to {
          assert ms[j].to in Tos(ms, i);
        }
        InputErrorSpec(dst, ms, i + 1, toSet + {ms[i].to});
      }
    }
  }

  /**
   * The edges into one node with declared mappings: success exactly when the
   * mappings are legal and the graph accepts every planned call; nothing is
   * called for illegal mappings; the log grows by a prefix of the planned calls.
   */
  lemma NodeEdgesSpec(rejects: Rejects, log: seq<GraphCall>, dst: string, ms: seq<FieldMapping>, srcs: seq<string>)
    requires |ms| > 0
    ensures NodeEdges(rejects, log, dst, ms, srcs).0.None? <==> Legal(ms) && Accepts(rejects, log, NodeCalls(dst, ms, srcs))
    ensures ExtendsBy(log, NodeEdges(rejects, log, dst, ms, srcs).1, NodeCalls(dst, ms, srcs))
    ensures NodeEdges(rejects, log, dst, ms, srcs).0.None? ==>
      NodeEdges(rejects, log, dst, ms, srcs).1 == log + NodeCalls(dst, ms, srcs)
    ensures !Legal(ms) ==> NodeEdges(rejects, log, dst, ms, srcs).1 == log
  {
    InputErrorSpec(dst, ms, 0, {});
    EmitSpec(rejects, log, NodeCalls(dst, ms, srcs));
  }

  /**
   * The pass over the nodes succeeds exactly when every node's mappings are
   * legal and the graph accepts the whole node plan; the log grows by a
   * prefix of that plan, by the whole of it on success.
   */
  lemma {:induction false} RunNodesSpec(rejects: Rejects, log: seq<GraphCall>, order: seq<string>,
                                        decl: map<string, seq<FieldMapping>>, groups: map<string, seq<string>>)
    requires forall k :: k in order ==> k in decl && k in groups
    ensures RunNodes(rejects, log, order, decl, groups).0.None? <==>
      AllLegal(order, decl) && Accepts(rejects, log, PlanNodes(order, decl, groups))
    ensures ExtendsBy(log, RunNodes(rejects, log, order, decl, groups).1, PlanNodes(order, decl, groups))
    ensures RunNodes(rejects, log, order, decl, groups).0.None? ==>
      RunNodes(rejects, log, order, decl, groups).1 == log + PlanNodes(order, decl, groups)
    decreases |order|
  {
    if order != [] {
      var k := order[0];
      var rest := order[1..];
      var calls := NodeCalls(k, decl[k], groups[k]);
      var plan := PlanNodes(order, decl, groups);
      assert plan == calls + PlanNodes(rest, decl, groups);
      assert AllLegal(order, decl) <==> Legal(decl[k]) && AllLegal(rest, decl) by {
        assert forall x :: x in order <==> x == k || x in rest;
      }
      AcceptsAppend(rejects, log, calls, PlanNodes(rest, decl, groups));
      if decl[k] != [] {
        NodeEdgesSpec(rejects, log, k, decl[k], groups[k]);
        var (e, log') := NodeEdges(rejects, log, k, decl[k], groups[k]);
        if e.Some? {
          ExtendsByAppend(log, log', calls, PlanNodes(rest, decl, groups));
        } else {
          RunNodesSpec(rejects, log', rest, decl, groups);
          ExtendsByChain(log, calls, RunNodes(rejects, log', rest, decl, groups).1, PlanNodes(rest, decl, groups));
        }
      }
    }
  }

  /**
   * The whole pass succeeds exactly when every node's and END's mappings are
   * legal and the graph accepts every planned call; the log grows by a prefix
   * of the plan, by the whole plan on success.
   */
  lemma AddEdgesSpec(rejects: Rejects, log: seq<GraphCall>, order: seq<string>,
                     decl: map<string, seq<FieldMapping>>, groups: map<string, seq<string>>,
                     end: seq<FieldMapping>, endGroups: seq<string>)
    requires forall k :: k in order ==> k in decl && k in groups
    ensures AddEdges(rejects, log, order, decl, groups, end, endGroups).0.None? <==>
      && AllLegal(order, decl) && Legal(end)
      && Accepts(rejects, log, Plan(order, decl, groups, end, endGroups))
    ensures ExtendsBy(log, AddEdges(rejects, log, order, decl, groups, end, endGroups).1, Plan(order, decl, groups, end, endGroups))
    ensures AddEdges(rejects, log, order, decl, groups, end, endGroups).0.None? ==>
      AddEdges(rejects, log, order, decl, groups, end, endGroups).1 == log + Plan(order, decl, groups, end, endGroups)
  {
    var nodesPlan := PlanNodes(order, decl, groups);
    var endCalls := NodeCalls(END, end, endGroups);
    RunNodesSpec(rejects, log, order, decl, groups);
    AcceptsAppend(rejects, log, nodesPlan, endCalls);
    var (e, log') := RunNodes(rejects, log, order, decl, groups);
    if e.Some? {
      ExtendsByAppend(log, log', nodesPlan, endCalls);
    } else if end == [] {
      ExtendsByAppend(log, log', nodesPlan, endCalls);
    } else {
      NodeEdgesSpec(rejects, log', END, end, endGroups);
      ExtendsByChain(log, nodesPlan, NodeEdges(rejects, log', END, end, endGroups).1, endCalls);
    }
  }

  /**
   * When the graph accepts every call, the pass fails exactly when some
   * node's or END's mappings break the legality rules, whatever order the
   * nodes and the source groups are visited in.
   */
  lemma LegalityDecides(rejects: Rejects, log: seq<GraphCall>, order: seq<string>,
                        decl: map<string, seq<FieldMapping>>, groups: map<string, seq<string>>,
                        end: seq<FieldMapping>, endGroups: seq<string>)
    requires forall k :: k in order ==> k in decl && k in groups
    requires forall l, c :: !rejects(l, c)
    ensures AddEdges(rejects, log, order, decl, groups, end, endGroups).0.None? <==> AllLegal(order, decl) && Legal(end)
  {
    AddEdgesSpec(rejects, log, order, decl, groups, end, endGroups);
  }

  lemma SourceSetSnoc(ms: seq<FieldMapping>, m: FieldMapping)
    ensures SourceSet(ms + [m]) == SourceSet(ms) + {m.fromNodeKey}
    ensures forall src :: Group(ms + [m], src) == Group(ms, src) + (if m.fromNodeKey == src then [m] else [])
  {
    var ms' := ms + [m];
    assert ms'[..|ms|] == ms;
    assert forall i :: 0 <= i < |ms| ==> ms'[i] == ms[i];
    assert ms'[|ms|] == m;
  }

  /** A group holds exactly the mappings of `ms` from its source, in declaration order. */
  lemma {:induction false} GroupContents(ms: seq<FieldMapping>, src: string)
    ensures forall m :: m in Group(ms, src) <==> m in ms && m.fromNodeKey == src
    ensures |Group(ms, src)| <= |ms|
    decreases |ms|
  {
    if ms != [] {
      var init := ms[..|ms| - 1];
      GroupContents(init, src);
      assert ms == init + [ms[|ms| - 1]];
    }
  }

  /** A group is non-empty exactly for a source node, so its first mapping exists. */
  lemma GroupOfSource(ms: seq<FieldMapping>, src: string)
    ensures |Group(ms, src)| > 0 <==> src in SourceSet(ms)
  {
    GroupContents(ms, src);
    if src in SourceSet(ms) {
      var i :| 0 <= i < |ms| && ms[i].fromNodeKey == src;
      assert ms[i] in Group(ms, src);
    }
  }

  /**
   * Exactly one edge call per source node, into `dst`, with the mappings of
   * that source in declaration order; no two calls share a source.
   */
  lemma OneCallPerSource(dst: string, ms: seq<FieldMapping>, srcs: seq<string>)
    requires Enumerates(srcs, SourceSet(ms))
    ensures |NodeCalls(dst, ms, srcs)| == |SourceSet(ms)|
    ensures forall s :: s in SourceSet(ms) <==> exists j :: 0 <= j < |srcs| && NodeCalls(dst, ms, srcs)[j].from == s
    ensures forall i, j :: 0 <= i < j < |srcs| ==> NodeCalls(dst, ms, srcs)[i].from != NodeCalls(dst, ms, srcs)[j].from
    ensures forall j :: 0 <= j < |srcs| ==> NodeCalls(dst, ms, srcs)[j].to == dst
    ensures forall j :: 0 <= j < |srcs| && NodeCalls(dst, ms, srcs)[j].AddEdgeWithMappingsCall? ==>
      NodeCalls(dst, ms, srcs)[j].mappings == Group(ms, srcs[j]) && |Group(ms, srcs[j])| > 0
  {
    DistinctCard(srcs, SourceSet(ms));
    var calls := NodeCalls(dst, ms, srcs);
    assert forall j :: 0 <= j < |srcs| ==> calls[j] == EdgeFor(srcs[j], dst, Group(ms, srcs[j]));
    forall j | 0 <= j < |srcs| ensures |Group(ms, srcs[j])| > 0 {
      GroupOfSource(ms, srcs[j]);
    }
    forall s | s in SourceSet(ms) ensures exists j :: 0 <= j < |srcs| && calls[j].from == s {
      var j :| 0 <= j < |srcs| && srcs[j] == s;
      assert calls[j].from == s;
    }
  }

  /** A duplicate-free enumeration of a set is as long as the set is large. */
  lemma {:induction false} DistinctCard(order: seq<string>, s: set<string>)
    requires Enumerates(order, s)
    ensures |order| == |s|
    decreases |order|
  {
    if order != [] {
      var k := order[|order| - 1];
      var init := order[..|order| - 1];
      assert forall x :: x in init <==> x in s - {k} by {
        assert order == init + [k];
        forall x | x in init ensures x != k {
          var i :| 0 <= i < |init| && init[i] == x;
          assert order[i] == x && order[|order| - 1] == k;
        }
      }
      DistinctCard(init, s - {k});
    }
  }

  /**
   * For legal mappings, a plain edge is emitted exactly when the node has a
   * single, empty (whole-to-whole) mapping.
   */
  lemma PlainEdgeIffSingleEmpty(dst: string, ms: seq<FieldMapping>, srcs: seq<string>)
    requires Legal(ms)
    requires Enumerates(srcs, SourceSet(ms))
    ensures (exists j :: 0 <= j < |srcs| && NodeCalls(dst, ms, srcs)[j].AddEdgeCall?)
        <==> |ms| == 1 && ms[0].Empty()
  {
    if j :| 0 <= j < |srcs| && NodeCalls(dst, ms, srcs)[j].AddEdgeCall? {
      PlainEdgeOnlyWhole(dst, ms, srcs, j);
    }
    if |ms| == 1 && ms[0].Empty() {
      WholeGivesPlainEdge(dst, ms, srcs);
    }
  }

  lemma PlainEdgeOnlyWhole(dst: string, ms: seq<FieldMapping>, srcs: seq<string>, j: nat)
    requires Legal(ms)
    requires j < |srcs| && NodeCalls(dst, ms, srcs)[j].AddEdgeCall?
    ensures |ms| == 1 && ms[0].Empty()
  {
    var g := Group(ms, srcs[j]);
    assert NodeCalls(dst, ms, srcs)[j] == EdgeFor(srcs[j], dst, g);
    assert |g| > 0 && g[0].Empty();
    GroupContents(ms, srcs[j]);
    assert g[0] in g;
    var i :| 0 <= i < |ms| && ms[i] == g[0];
    assert ms[i].to == "";
  }

  lemma WholeGivesPlainEdge(dst: string, ms: seq<FieldMapping>, srcs: seq<string>)
    requires |ms| == 1 && ms[0].Empty()
    requires Enumerates(srcs, SourceSet(ms))
    ensures exists j :: 0 <= j < |srcs| && NodeCalls(dst, ms, srcs)[j].AddEdgeCall?
  {
    var k := ms[0].fromNodeKey;
    assert ms[..0] == [];
    assert Group(ms, k) == [ms[0]];
    assert k in SourceSet(ms);
    var j :| 0 <= j < |srcs| && srcs[j] == k;
    assert NodeCalls(dst, ms, srcs)[j] == EdgeFor(k, dst, [ms[0]]);
  }


  /**
   * Whatever order the source groups are visited in, the same calls are made,
   * each once (by OneCallPerSource).
   */
  lemma NodeCallsOrderIndependent(dst: string, ms: seq<FieldMapping>, s1: seq<string>, s2: seq<string>)
    requires Enumerates(s1, SourceSet(ms)) && Enumerates(s2, SourceSet(ms))
    ensures |NodeCalls(dst, ms, s1)| == |NodeCalls(dst, ms, s2)|
    ensures forall c :: c in NodeCalls(dst, ms, s1) <==> c in NodeCalls(dst, ms, s2)
  {
    DistinctCard(s1, SourceSet(ms));
    DistinctCard(s2, SourceSet(ms));
    var c1 := NodeCalls(dst, ms, s1);
    var c2 := NodeCalls(dst, ms, s2);
    forall c | c in c1 ensures c in c2 {
      var j :| 0 <= j < |s1| && c1[j] == c;
      assert s1[j] in s1 && s1[j] in s2;
      var l :| 0 <= l < |s2| && s2[l] == s1[j];
      assert c2[l] == c;
    }
    forall c | c in c2 ensures c in c1 {
      var j :| 0 <= j < |s2| && c2[j] == c;
      assert s2[j] in s2 && s2[j] in s1;
      var l :| 0 <= l < |s1| && s1[l] == s2[j];
      assert c1[l] == c;
    }
  }

  /** The positions in `ms` of the mappings from `src`, ascending. */
  function Positions(ms: seq<FieldMapping>, src: string): seq<nat>
    decreases |ms|
  {
    if ms == [] then []
    else Positions(ms[..|ms| - 1], src) + (if ms[|ms| - 1].fromNodeKey == src then [|ms| - 1] else [])
  }

  /**
   * A group lists the mappings from its source in declaration order: its
   * t-th element is the mapping at the t-th position, in ascending order, of
   * the positions holding a mapping from that source.
   */
  lemma {:induction false} GroupInDeclarationOrder(ms: seq<FieldMapping>, src: string)
    ensures |Group(ms, src)| == |Positions(ms, src)|
    ensures forall t :: 0 <= t < |Positions(ms, src)| ==>
      Positions(ms, src)[t] < |ms| && Group(ms, src)[t] == ms[Positions(ms, src)[t]]
    ensures forall t, u :: 0 <= t < u < |Positions(ms, src)| ==> Positions(ms, src)[t] < Positions(ms, src)[u]
    ensures forall i :: 0 <= i < |ms| && ms[i].fromNodeKey == src ==> i in Positions(ms, src)
    decreases |ms|
  {
    if ms != [] {
      var n := |ms| - 1;
      var init := ms[..n];
      GroupInDeclarationOrder(init, src);
      assert forall i :: 0 <= i < n ==> init[i] == ms[i];
      assert forall t :: 0 <= t < |Positions(init, src)| ==> Positions(init, src)[t] < n;
    }
  }
}
