/**
 * Node-type schemas. A node type is named by a dotted namespace
 * ("containerBase.entity.dagNode.transform") whose last segment is the type
 * name. A type definition holds the ports of the type, minus those it
 * inherits from its parent definition; a schema registers definitions by type
 * name and lists the nodes of a default scene.
 */
module Schemas {
  import opened Errors
  import opened PyStrings
  import opened Ports

  /** The namespace before the last `.`, or nothing when there is no `.`. */
  function NamespaceParent(ns: string): (r: Option<string>)
    ensures r.None? <==> NoDot(ns)
    ensures r.Some? ==> |r.value| < |ns| && r.value <= ns
  {
    var k := LastIndexOf(ns, '.');
    if k < 0 then None else Some(ns[..k])
  }

  /** The namespace after the last `.`, or all of it. */
  function NamespaceLeaf(ns: string): (r: string)
  {
    ns[LastIndexOf(ns, '.') + 1..]
  }

  /** The parent, a `.` and the leaf spell the namespace back; the leaf has no `.`. */
  lemma NamespaceSplit(ns: string)
    ensures NoDot(NamespaceLeaf(ns))
    ensures NamespaceParent(ns).None? ==> NamespaceLeaf(ns) == ns
    ensures NamespaceParent(ns).Some? ==> NamespaceParent(ns).value + "." + NamespaceLeaf(ns) == ns
  {
    var k := LastIndexOf(ns, '.');
    var leaf := ns[k + 1..];
    assert NamespaceLeaf(ns) == leaf;
    forall i | 0 <= i < |leaf| ensures leaf[i] != '.' {
      assert leaf[i] == ns[k + 1 + i];
    }
    if k >= 0 {
      assert NamespaceParent(ns) == Some(ns[..k]);
      assert ns[k..] == [ns[k]] + leaf;
      assert ns == ns[..k] + ns[k..];
    } else {
      assert leaf == ns;
    }
  }

  /** "org.foo.bar" has parent "org.foo" and leaf "bar"; "org" has no parent. */
  lemma NamespaceExamples()
    ensures NamespaceParent("org.foo.bar") == Some("org.foo")
    ensures NamespaceLeaf("foo.bar") == "bar"
    ensures NamespaceParent("org") == None && NamespaceLeaf("foo") == "foo"
  {
    assert "org.foo.bar"[7] == '.';
    assert "org.foo.bar"[..7] == "org.foo";
    assert "foo.bar"[3] == '.';
    assert "foo.bar"[4..] == "bar";
    assert NoDot("org") && NoDot("foo");
  }

  /** The parent that is visited: a non-empty one (an empty parent is false in Python). */
  function VisitedParent(ns: string): (r: Option<string>)
    ensures r.Some? ==> r.value != "" && |r.value| < |ns|
  {
    var p := NamespaceParent(ns);
    if p.Some? && p.value != "" then p else None
  }

  /** A namespace and its visited ancestors. */
  function Lineage(ns: string): (r: set<string>)
    ensures ns in r
    ensures forall x :: x in r ==> |x| <= |ns|
    decreases |ns|
  {
    var p := VisitedParent(ns);
    {ns} + (if p.Some? then Lineage(p.value) else {})
  }

  function Elements(s: seq<string>): set<string>
  {
    set i | 0 <= i < |s| :: s[i]
  }

  predicate NoRepeats(s: seq<string>)
  {
    forall i, j :: 0 <= i < j < |s| ==> s[i] != s[j]
  }

  /** Every listed namespace's visited parent is listed before it. */
  predicate ParentsFirst(s: seq<string>)
  {
    forall i :: 0 <= i < |s| && VisitedParent(s[i]).Some? ==>
      exists j :: 0 <= j < i && s[j] == VisitedParent(s[i]).value
  }

  /** The lineages of all the given namespaces. */
  function AllLineages(namespaces: seq<string>): set<string>
  {
    if |namespaces| == 0 then {} else AllLineages(namespaces[..|namespaces| - 1]) + Lineage(namespaces[|namespaces| - 1])
  }

  /**
   * What visiting `ns` yields when `known` has been yielded already: its
   * unknown ancestors, eldest first, then `ns` itself.
   */
  function Unvisited(ns: string, known: set<string>): seq<string>
    decreases |ns|
  {
    if ns in known then []
    else
      var p := VisitedParent(ns);
      (if p.Some? then Unvisited(p.value, known) else []) + [ns]
  }

  /** The order `iter_namespaces` yields in: each namespace's unvisited lineage, in the given order. */
  function YieldOrder(namespaces: seq<string>): seq<string>
  {
    if |namespaces| == 0 then []
    else
      var last := |namespaces| - 1;
      YieldOrder(namespaces[..last]) + Unvisited(namespaces[last], AllLineages(namespaces[..last]))
  }

  /**
   * Yield `ns` after its parents, skipping what is already known; `known` is
   * the set of namespaces yielded so far.
   */
  method Visit(ns: string, known: set<string>, out: seq<string>) returns (known': set<string>, out': seq<string>)
    requires known == Elements(out) && NoRepeats(out) && ParentsFirst(out)
    requires forall x :: x in known ==> Lineage(x) <= known
    ensures known' == Elements(out') && NoRepeats(out') && ParentsFirst(out')
    ensures forall x :: x in known' ==> Lineage(x) <= known'
    ensures out' == out + Unvisited(ns, known) && known' == known + Lineage(ns)
    decreases |ns|
  {
    if ns in known {
      return known, out;
    }
    known', out' := known, out;
    var p := VisitedParent(ns);
    if p.Some? {
      known', out' := Visit(p.value, known', out');
    }
    VisitAppends(ns, known, out, known', out');
    known' := known' + {ns};
    out' := out' + [ns];
  }

  /** The last step of `Visit`: once the parent's lineage is listed, `ns` follows it. */
  lemma VisitAppends(ns: string, known: set<string>, out: seq<string>, known': set<string>, out': seq<string>)
    requires ns !in known
    requires known' == Elements(out') && NoRepeats(out') && ParentsFirst(out')
    requires forall x :: x in known' ==> Lineage(x) <= known'
    requires var p := VisitedParent(ns);
      out' == out + (if p.Some? then Unvisited(p.value, known) else [])
      && known' == known + (if p.Some? then Lineage(p.value) else {})
    ensures known' + {ns} == Elements(out' + [ns]) && NoRepeats(out' + [ns]) && ParentsFirst(out' + [ns])
    ensures forall x :: x in known' + {ns} ==> Lineage(x) <= known' + {ns}
    ensures out' + [ns] == out + Unvisited(ns, known) && known' + {ns} == known + Lineage(ns)
  {
    var p := VisitedParent(ns);
    var before := if p.Some? then Unvisited(p.value, known) else [];
    assert Unvisited(ns, known) == before + [ns];
    assert out' + [ns] == out + (before + [ns]);
    if p.Some? {
      assert p.value in Lineage(p.value);
      assert ns !in Lineage(p.value) by {
        assert forall x :: x in Lineage(p.value) ==> |x| < |ns|;
      }
    }
    assert ns !in known';
    AppendNew(out', ns);
  }

  /** Appending a new namespace whose visited parent is already listed keeps the listing well formed. */
  lemma AppendNew(out: seq<string>, ns: string)
    requires NoRepeats(out) && ParentsFirst(out) && ns !in Elements(out)
    requires VisitedParent(ns).Some? ==> VisitedParent(ns).value in Elements(out)
    ensures NoRepeats(out + [ns]) && ParentsFirst(out + [ns])
    ensures Elements(out + [ns]) == Elements(out) + {ns}
  {
    var s := out + [ns];
    forall i | 0 <= i < |s| && VisitedParent(s[i]).Some?
      ensures exists j :: 0 <= j < i && s[j] == VisitedParent(s[i]).value
    {
      var q := VisitedParent(s[i]).value;
      if i == |out| {
        var j :| 0 <= j < |out| && out[j] == q;
        assert s[j] == q;
      } else {
        assert s[i] == out[i];
        var j :| 0 <= j < i && out[j] == q;
        assert s[j] == q;
      }
    }
    assert forall i :: 0 <= i < |out| ==> s[i] == out[i];
    assert s[|out|] == ns;
  }

  /**
   * `iter_namespaces`: every given namespace and its ancestors, each ancestor
   * before its descendants and none twice.
   */
  method IterNamespaces(namespaces: seq<string>) returns (out: seq<string>)
    ensures NoRepeats(out) && ParentsFirst(out)
    ensures Elements(out) == AllLineages(namespaces)
    ensures out == YieldOrder(namespaces)
  {
    var known: set<string> := {};
    out := [];
    var i := 0;
    while i < |namespaces|
      invariant 0 <= i <= |namespaces|
      invariant known == Elements(out) && NoRepeats(out) && ParentsFirst(out)
      invariant forall x :: x in known ==> Lineage(x) <= known
      invariant known == AllLineages(namespaces[..i])
      invariant out == YieldOrder(namespaces[..i])
    {
      known, out := Visit(namespaces[i], known, out);
      assert namespaces[..i + 1][..i] == namespaces[..i];
      i := i + 1;
    }
    assert namespaces[..i] == namespaces;
  }

  /** The example of `iter_namespaces`: ("a.b", "a.b.c", "d.e") yields a, a.b, a.b.c, d, d.e. */
  lemma IterNamespacesExample()
    ensures YieldOrder(["a.b", "a.b.c", "d.e"]) == ["a", "a.b", "a.b.c", "d", "d.e"]
  {
    assert "a.b"[1] == '.' && "a.b"[..1] == "a";
    assert "a.b.c"[3] == '.' && "a.b.c"[..3] == "a.b";
    assert "d.e"[1] == '.' && "d.e"[..1] == "d";
    assert NoDot("a") && NoDot("d");
    assert VisitedParent("a.b") == Some("a") && VisitedParent("a") == None;
    assert VisitedParent("a.b.c") == Some("a.b");
    assert VisitedParent("d.e") == Some("d") && VisitedParent("d") == None;
    var xs := ["a.b", "a.b.c", "d.e"];
    assert xs[..0] == [] && xs[..1] == ["a.b"] && xs[..2] == ["a.b", "a.b.c"];
    assert AllLineages(xs[..1]) == {"a.b", "a"};
    assert AllLineages(xs[..2]) == {"a.b", "a", "a.b.c"};
    assert YieldOrder(xs[..1]) == ["a", "a.b"];
    assert YieldOrder(xs[..2]) == ["a", "a.b", "a.b.c"];
  }

  /** The ports a node type defines: the keyword arguments of each port, by port name. */
  type PortTable = map<string, PortOptions>

  /** A node type definition; `parent` is the definition it inherits ports from. */
  datatype NodeTypeDef = NodeTypeDef(
    namespace: string,
    ownData: PortTable,
    classification: seq<string>,
    isAbstract: bool,
    parent: Option<NodeTypeDef>)
  {
    /** The type name: the namespace's leaf. */
    function Type(): string
    {
      NamespaceLeaf(namespace)
    }

    /** `data`: the own ports overlaid with all the parent's ports; the parent's entries win. */
    function Data(): (r: PortTable)
      ensures r.Keys == ownData.Keys + (if parent.Some? then parent.value.Data().Keys else {})
      ensures parent.Some? ==> forall k :: k in parent.value.Data() ==> r[k] == parent.value.Data()[k]
      ensures forall k :: k in ownData && (parent.None? || k !in parent.value.Data()) ==> r[k] == ownData[k]
    {
      if parent.Some? then ownData + parent.value.Data() else ownData
    }
  }

  /** The own ports a definition keeps: those its parent does not already define. */
  function Pruned(data: PortTable, parent: Option<NodeTypeDef>): (r: PortTable)
  {
    if parent.Some? then map k | k in data && k !in parent.value.Data() :: data[k] else data
  }

  /**
   * `NodeTypeDef(...)`: drop from `data` every port the parent's full data
   * already holds, one parent key at a time.
   */
  method NewNodeTypeDef(namespace: string, data: PortTable, classification: seq<string>,
                        isAbstract: bool, parent: Option<NodeTypeDef>) returns (d: NodeTypeDef)
    ensures d == NodeTypeDef(namespace, Pruned(data, parent), classification, isAbstract, parent)
  {
    var own := data;
    if parent.Some? {
      var parentData := parent.value.Data();
      var keys := parentData.Keys;
      while keys != {}
        invariant keys <= parentData.Keys
        invariant forall k :: k in own <==> k in data && (k !in parentData || k in keys)
        invariant forall k :: k in own ==> own[k] == data[k]
        decreases |keys|
      {
        var key :| key in keys;
        if key in own {
          own := own - {key};
        }
        keys := keys - {key};
      }
      assert own == Pruned(data, parent);
    }
    d := NodeTypeDef(namespace, own, classification, isAbstract, parent);
  }

  /** A constructed definition shares no port name with its parent's data. */
  lemma PrunedDisjointFromParent(data: PortTable, parent: NodeTypeDef)
    ensures Pruned(data, Some(parent)).Keys !! parent.Data().Keys
  {
  }

  /** Pruning loses nothing: the constructed definition's data is the given data overlaid with the parent's. */
  lemma PruningKeepsData(namespace: string, data: PortTable, classification: seq<string>,
                         isAbstract: bool, parent: Option<NodeTypeDef>)
    ensures NodeTypeDef(namespace, Pruned(data, parent), classification, isAbstract, parent).Data()
      == if parent.Some? then data + parent.value.Data() else data
  {
    if parent.Some? {
      var d := NodeTypeDef(namespace, Pruned(data, parent), classification, isAbstract, parent);
      var e := data + parent.value.Data();
      assert d.Data().Keys == e.Keys;
      forall k | k in e ensures d.Data()[k] == e[k] {
      }
    }
  }

  /** The serialised form of a definition; `abstract` may be missing. */
  datatype NodeTypeDict = NodeTypeDict(
    namespace: string,
    attributes: PortTable,
    classification: seq<string>,
    isAbstract: Option<bool>)

  /** `to_dict`: the own ports only, and no parent. */
  function NodeTypeToDict(d: NodeTypeDef): (r: NodeTypeDict)
    ensures r.isAbstract.Some?
  {
    NodeTypeDict(d.namespace, d.ownData, d.classification, Some(d.isAbstract))
  }

  /** `from_dict`: a definition without parent, not abstract unless the dict says so. */
  function NodeTypeFromDict(x: NodeTypeDict): (r: NodeTypeDef)
    ensures r.parent.None?
  {
    NodeTypeDef(x.namespace, Pruned(x.attributes, None), x.classification,
                x.isAbstract.Some? && x.isAbstract.value, None)
  }

  /** `from_dict(to_dict(d))` keeps namespace, own ports, classification and abstract, and loses the parent. */
  lemma NodeTypeDictRoundTrip(d: NodeTypeDef)
    ensures NodeTypeFromDict(NodeTypeToDict(d)) == d.(parent := None)
  {
  }

  /** `to_dict(from_dict(x))` gives `x` back, with a missing `abstract` read as false. */
  lemma NodeTypeDictRoundTripBack(x: NodeTypeDict)
    ensures NodeTypeToDict(NodeTypeFromDict(x)) == x.(isAbstract := Some(x.isAbstract.Some? && x.isAbstract.value))
  {
  }

  /** The serialised schema; either entry may be missing. */
  datatype SchemaDict = SchemaDict(
    nodes: Option<map<string, NodeTypeDict>>,
    defaultState: Option<map<string, string>>)

  function NodesToDict(nodes: map<string, NodeTypeDef>): (r: map<string, NodeTypeDict>)
    ensures r.Keys == nodes.Keys
    ensures forall t :: t in r ==> r[t] == NodeTypeToDict(nodes[t])
  {
    map t | t in nodes :: NodeTypeToDict(nodes[t])
  }

  function NodesFromDict(nodes: map<string, NodeTypeDict>): (r: map<string, NodeTypeDef>)
    ensures r.Keys == nodes.Keys
    ensures forall t :: t in r ==> r[t] == NodeTypeFromDict(nodes[t])
  {
    map t | t in nodes :: NodeTypeFromDict(nodes[t])
  }

  /** `x or {}` for an optional dictionary. */
  function OrEmpty<K, V>(x: Option<map<K, V>>): (r: map<K, V>)
    ensures x.Some? ==> r == x.value
    ensures x.None? ==> r == map[]
  {
    if x.Some? then x.value else map[]
  }

  /** The registered node types and the nodes of the default scene (node name to node type). */
  class Schema {
    var nodes: map<string, NodeTypeDef>
    var defaultState: map<string, string>

    constructor (nodes: Option<map<string, NodeTypeDef>>, defaultState: Option<map<string, string>>)
      ensures this.nodes == OrEmpty(nodes) && this.defaultState == OrEmpty(defaultState)
    {
      this.nodes := OrEmpty(nodes);
      this.defaultState := OrEmpty(defaultState);
    }

    /** `register_node`: refuse a type that is already registered; otherwise add it under its type name. */
    method RegisterNode(d: NodeTypeDef) returns (r: Outcome)
      modifies this
      ensures old(d.Type() in nodes) ==>
        r == Fail(GenericException("Node type " + Repr(d.Type()) + " is already registered!"))
        && nodes == old(nodes)
      ensures old(d.Type() !in nodes) ==> r == Pass && nodes == old(nodes)[d.Type() := d]
      ensures defaultState == old(defaultState)
    {
      if d.Type() in nodes {
        return Fail(GenericException("Node type " + Repr(d.Type()) + " is already registered!"));
      }
      nodes := nodes[d.Type() := d];
      return Pass;
    }

    /** `get`: the definition registered for a type, if any. */
    function Get(nodeType: string): (r: Option<NodeTypeDef>)
      reads this
      ensures r.Some? <==> nodeType in nodes
      ensures r.Some? ==> r.value == nodes[nodeType]
    {
      if nodeType in nodes then Some(nodes[nodeType]) else None
    }

    /** `to_dict`. */
    function ToDict(): (r: SchemaDict)
      reads this
    {
      SchemaDict(Some(NodesToDict(nodes)), Some(defaultState))
    }

    /** `from_dict`: a new schema from a serialised one. */
    static method FromDict(x: SchemaDict) returns (s: Schema)
      ensures fresh(s)
      ensures s.nodes == NodesFromDict(OrEmpty(x.nodes)) && s.defaultState == OrEmpty(x.defaultState)
    {
      s := new Schema(Some(NodesFromDict(OrEmpty(x.nodes))), x.defaultState);
    }
  }

  /**
   * Serialising a schema and reading it back keeps the default scene and the
   * registered types, each definition losing only its parent.
   */
  lemma SchemaDictRoundTrip(s: Schema)
    ensures var x := s.ToDict();
      OrEmpty(x.defaultState) == s.defaultState
      && NodesFromDict(OrEmpty(x.nodes)).Keys == s.nodes.Keys
      && forall t :: t in s.nodes ==> NodesFromDict(OrEmpty(x.nodes))[t] == s.nodes[t].(parent := None)
  {
    var x := s.ToDict();
    forall t | t in s.nodes ensures NodesFromDict(OrEmpty(x.nodes))[t] == s.nodes[t].(parent := None) {
      NodeTypeDictRoundTrip(s.nodes[t]);
    }
  }

  /** A registered type is found by `get` afterwards, and nothing else changes. */
  lemma RegisteredTypeIsFound(nodes: map<string, NodeTypeDef>, d: NodeTypeDef, t: string)
    requires d.Type() !in nodes
    ensures var n := nodes[d.Type() := d];
      (t == d.Type() ==> n[t] == d) && (t != d.Type() ==> (t in n <==> t in nodes) && (t in nodes ==> n[t] == nodes[t]))
  {
  }
}
