/**
 * The `maya.cmds` layer of the mock: each command looks its nodes and ports
 * up in a scene session, reports a missing one with the message Maya gives,
 * and calls the session. A command that takes any number of objects receives
 * them as one sequence, the way `redirect_method_args_to_arg` packs them, and
 * its keyword aliases are already folded into the long keywords (module
 * Arguments), so each command here takes the long keywords only.
 */
module Cmds {
  import opened Errors
  import opened PyStrings
  import opened Constants
  import opened Naming
  import opened Nodes
  import opened Ports
  import opened Connections
  import opened PySets
  import opened Scene
  import opened Sessions

  /** Python truthiness of an optional string: given and not empty. */
  predicate Given(s: Option<string>)
  {
    s.Some? && s.value != ""
  }

  /** `longName or shortName`, once one of them is given. */
  function AttrName(longName: Option<string>, shortName: Option<string>): string
    requires Given(longName) || Given(shortName)
  {
    if Given(longName) then longName.value else shortName.value
  }

  /** `attributeType or dataType or "float"`. */
  function AttrTypeOf(attributeType: Option<string>, dataType: Option<string>): string
  {
    if Given(attributeType) then attributeType.value
    else if Given(dataType) then dataType.value
    else "float"
  }

  /** The keyword arguments `addAttr` hands to `create_port`; the rest keep the port's defaults. */
  function AddAttrOptions(attributeType: Option<string>, dataType: Option<string>, defaultValue: Value,
                          niceName: Option<string>, shortName: Option<string>): PortOptions
  {
    DefaultPortOptions.(portType := AttrTypeOf(attributeType, dataType), shortName := shortName,
                        niceName := niceName, value := defaultValue)
  }

  /** Every object pattern matches some node of the scene. */
  ghost predicate AllMatch(nodes: set<Node>, U: set<Node>, objects: seq<string>)
    reads U`parent
    requires Rooted(nodes, U)
  {
    forall i :: 0 <= i < |objects| ==> MatchingNodes(nodes, U, Some(objects[i])) != {}
  }

  /** The nodes each object pattern matches, object by object. */
  ghost function Matches(nodes: set<Node>, U: set<Node>, objects: seq<string>): (Ms: seq<set<Node>>)
    reads U`parent
    requires Rooted(nodes, U)
    ensures |Ms| == |objects|
    ensures forall j :: 0 <= j < |objects| ==> Ms[j] == MatchingNodes(nodes, U, Some(objects[j]))
  {
    if objects == [] then []
    else Matches(nodes, U, objects[..|objects| - 1]) + [MatchingNodes(nodes, U, Some(objects[|objects| - 1]))]
  }

  /** The union of the sets of `Ms`. */
  ghost function Flatten(Ms: seq<set<Node>>): (r: set<Node>)
    ensures forall j :: 0 <= j < |Ms| ==> Ms[j] <= r
  {
    if Ms == [] then {} else Flatten(Ms[..|Ms| - 1]) + Ms[|Ms| - 1]
  }

  /** Every entry of `table0` is kept, possibly grown, in `table`. */
  ghost predicate KeepsEntries(table0: map<Node, set<Port>>, table: map<Node, set<Port>>)
  {
    forall m :: m in table0 ==> table0[m] <= Entry(table, m)
  }

  /** Every port of `ports` that `ports0` lacks is made from `name` and `opts`, on a node of `N`. */
  ghost predicate NewPortsFrom(ports0: set<Port>, ports: set<Port>, name: string, opts: PortOptions, N: set<Node>)
    reads ports
  {
    forall p :: p in ports - ports0 ==> p.node in N && MadeFrom(p, name, opts)
  }

  /** The nodes the ports of `W` sit on. */
  ghost function NodesOf(W: seq<Port>): (r: set<Node>)
    ensures forall j :: 0 <= j < |W| ==> W[j].node in r
  {
    set j | 0 <= j < |W| :: W[j].node
  }

  /**
   * `n` is the node matching `pattern` whose dag path is least, the one
   * `get_node_by_match` picks from the sorted matches.
   */
  ghost predicate FirstMatch(n: Node, nodes: set<Node>, U: set<Node>, pattern: string)
    reads U`parent
    requires Rooted(nodes, U)
  {
    var M := MatchingNodes(nodes, U, Some(pattern));
    n in M && forall m :: m in M ==> LexLe(DagPath(n, U), DagPath(m, U))
  }

  /**
   * `carried[i]` is a port named `name` that the table records for the
   * first node object `i` matches, for each of the first `|carried|`
   * objects.
   */
  ghost predicate CarriedFor(carried: seq<Port>, nodes: set<Node>, U: set<Node>, objects: seq<string>,
                             table: map<Node, set<Port>>, name: string)
    reads U`parent
    requires Rooted(nodes, U)
  {
    |carried| <= |objects|
    && forall i :: 0 <= i < |carried| ==>
         FirstMatch(carried[i].node, nodes, U, objects[i])
         && carried[i] in Entry(table, carried[i].node) && carried[i].name == name
  }

  /**
   * What the rounds of the `addAttr` loop that carried `W` did to a scene
   * that had the ports `ports0` and the ports-by-node table `table0`: old
   * entries are kept, and every new port is made from `name` and `opts` on
   * a node of `W`.
   */
  ghost predicate Added(ports: set<Port>, table: map<Node, set<Port>>, W: seq<Port>, name: string, opts: PortOptions,
                        ports0: set<Port>, table0: map<Node, set<Port>>)
    reads ports
  {
    ports0 <= ports && NewPortsFrom(ports0, ports, name, opts, NodesOf(W)) && KeepsEntries(table0, table)
  }

  /**
   * One round of the `addAttr` loop that adds only ports made from `name`
   * and `opts` on the node of `w`, only grows the table, and leaves `w` in
   * the table as a port of that name on the first node the next object
   * matches, extends both records by `w`.
   */
  lemma AddedGrows(nodes: set<Node>, U: set<Node>, objects: seq<string>, ports1: set<Port>, table1: map<Node, set<Port>>,
                   ports2: set<Port>, table2: map<Node, set<Port>>, W: seq<Port>, name: string, opts: PortOptions,
                   ports0: set<Port>, table0: map<Node, set<Port>>, w: Port)
    requires Rooted(nodes, U) && |W| < |objects|
    requires Added(ports1, table1, W, name, opts, ports0, table0) && CarriedFor(W, nodes, U, objects, table1, name)
    requires ports1 <= ports2 && forall p :: p in ports2 - ports1 ==> p.node == w.node && MadeFrom(p, name, opts)
    requires KeepsEntries(table1, table2)
    requires FirstMatch(w.node, nodes, U, objects[|W|]) && w in Entry(table2, w.node) && w.name == name
    ensures Added(ports2, table2, W + [w], name, opts, ports0, table0)
    ensures CarriedFor(W + [w], nodes, U, objects, table2, name)
  {
    var W' := W + [w];
    assert NodesOf(W') == NodesOf(W) + {w.node} by {
      forall n | n in NodesOf(W') ensures n in NodesOf(W) + {w.node} {
        var j :| 0 <= j < |W'| && W'[j].node == n;
        if j < |W| {
          assert W[j].node == n;
        }
      }
      forall n | n in NodesOf(W) ensures n in NodesOf(W') {
        var j :| 0 <= j < |W| && W[j].node == n;
        assert W'[j].node == n;
      }
      assert W'[|W|].node == w.node;
    }
    forall m | m in table0
      ensures table0[m] <= Entry(table2, m)
    {
      assert table0[m] <= Entry(table1, m);
    }
    forall j | 0 <= j < |W|
      ensures W'[j] in Entry(table2, W'[j].node)
    {
      assert W[j] in Entry(table1, W[j].node);
    }
  }

  /** While no node of `U` moves, `CarriedFor` keeps its value. */
  twostate lemma CarriedForStays(new nodes: set<Node>, new U: set<Node>, new objects: seq<string>, new W: seq<Port>,
                                 new table: map<Node, set<Port>>, new name: string)
    requires old(allocated(nodes) && allocated(U) && allocated(W) && allocated(table))
    requires forall n :: n in U ==> old(n.parent) == n.parent
    requires old(Rooted(nodes, U))
    ensures Rooted(nodes, U)
    ensures old(CarriedFor(W, nodes, U, objects, table, name)) == CarriedFor(W, nodes, U, objects, table, name)
    ensures old(Matches(nodes, U, objects)) == Matches(nodes, U, objects)
  {
  }

  /** While no node of `U` moves, the first node a pattern matches stays the first. */
  twostate lemma FirstMatchStays(new n: Node, new nodes: set<Node>, new U: set<Node>, new pattern: string)
    requires old(allocated(n) && allocated(nodes) && allocated(U))
    requires forall m :: m in U ==> old(m.parent) == m.parent
    requires old(Rooted(nodes, U))
    ensures Rooted(nodes, U)
    ensures old(FirstMatch(n, nodes, U, pattern)) == FirstMatch(n, nodes, U, pattern)
  {
  }

  /** The objects that carried a port each match some node. */
  lemma CarriedMatch(nodes: set<Node>, U: set<Node>, objects: seq<string>, carried: seq<Port>,
                     table: map<Node, set<Port>>, name: string)
    requires Rooted(nodes, U) && CarriedFor(carried, nodes, U, objects, table, name)
    ensures AllMatch(nodes, U, objects[..|carried|])
  {
    forall i | 0 <= i < |carried|
      ensures MatchingNodes(nodes, U, Some(objects[..|carried|][i])) != {}
    {
      assert objects[..|carried|][i] == objects[i];
    }
  }

  /** No port of the scene matches the pattern: `get_port_by_match` finds nothing. */
  ghost predicate NoPortMatches(ports: set<Port>, U: set<Node>, pattern: string)
    reads U`parent
    requires PortsRooted(ports, U)
  {
    forall p :: p in ports ==> !MatchesPortPattern(p, Some(pattern), U)
  }

  /** The message `connectAttr` answers with: each end as node name, `.` and port name. */
  function ConnectedMessage(src: Port, dst: Port): string
  {
    "Connected " + src.node.name + "." + src.name + " to " + dst.node.name + "." + dst.name + "."
  }

  /** The error `disconnectAttr` raises when the two plugs are not connected. */
  function NoConnectionMessage(srcPlug: string, dstPlug: string): string
  {
    "There is no connection from '" + srcPlug + "' to '" + dstPlug + "' to disconnect"
  }

  /** What `connectionInfo` answers: one plug, or a list of plugs. */
  datatype Info = Plug(plug: string) | Plugs(plugs: seq<string>)

  /** `s` lists the set `S`, each element once. */
  predicate Lists<T>(s: seq<T>, S: set<T>)
  {
    (forall i :: 0 <= i < |s| ==> s[i] in S)
    && (forall x :: x in S ==> x in s)
    && forall i, j :: 0 <= i < j < |s| ==> s[i] != s[j]
  }

  /** The nodes of `S` whose name is one of `names`. */
  function Named(S: set<Node>, names: seq<string>): (r: set<Node>)
    ensures r <= S
  {
    set n | n in S && n.name in names
  }

  /** The list comprehension of `select`: the nodes named in `names`, each once. */
  method ListNamed(S: set<Node>, names: seq<string>) returns (out: seq<Node>)
    ensures Lists(out, Named(S, names))
  {
    out := [];
    var rest := S;
    while rest != {}
      invariant rest <= S
      invariant Lists(out, Named(S - rest, names))
      decreases rest
    {
      var n :| n in rest;
      if n.name in names {
        out := out + [n];
      }
      rest := rest - {n};
    }
    assert S - rest == S;
  }

  /**
   * The ports `listAttr` reports for the nodes `N`: each is found under its
   * own node's entry of the table and is user-defined when asked, every
   * such port is there, and none twice.
   */
  ghost predicate ListsPortsOf(listed: seq<Port>, table: map<Node, set<Port>>, N: set<Node>, userDefined: bool)
  {
    (forall i :: 0 <= i < |listed| ==>
       listed[i].node in N && listed[i] in Entry(table, listed[i].node) && (userDefined ==> listed[i].userDefined))
    && (forall n, p :: n in N && p in Entry(table, n) && (userDefined ==> p.userDefined) ==> p in listed)
    && (forall i, j :: 0 <= i < j < |listed| ==> listed[i] != listed[j])
  }

  /**
   * The inner loop of `listAttr` over one node's ports: those that pass the
   * user-defined filter are appended after `listed`, each once.
   */
  method AppendPorts(listed: seq<Port>, names: seq<string>, ps: set<Port>, userDefined: bool)
    returns (out: seq<Port>, outNames: seq<string>)
    requires |names| == |listed| && forall i :: 0 <= i < |listed| ==> names[i] == listed[i].name
    requires forall i :: 0 <= i < |listed| ==> listed[i] !in ps
    ensures |out| >= |listed| && out[..|listed|] == listed
    ensures |outNames| == |out| && forall i :: 0 <= i < |out| ==> outNames[i] == out[i].name
    ensures forall i :: |listed| <= i < |out| ==> out[i] in ps && (userDefined ==> out[i].userDefined)
    ensures forall p :: p in ps && (userDefined ==> p.userDefined) ==> p in out
    ensures forall i, j :: |listed| <= i < j < |out| ==> out[i] != out[j]
  {
    out, outNames := listed, names;
    var rest := ps;
    while rest != {}
      invariant rest <= ps
      invariant |out| >= |listed| && out[..|listed|] == listed
      invariant |outNames| == |out| && forall i :: 0 <= i < |out| ==> outNames[i] == out[i].name
      invariant forall i :: |listed| <= i < |out| ==> out[i] in ps - rest && (userDefined ==> out[i].userDefined)
      invariant forall p :: p in ps - rest && (userDefined ==> p.userDefined) ==> p in out
      invariant forall i, j :: |listed| <= i < j < |out| ==> out[i] != out[j]
      decreases rest
    {
      var p :| p in rest;
      if !userDefined || p.userDefined {
        out, outNames := out + [p], outNames + [p.name];
      }
      rest := rest - {p};
    }
  }

  /**
   * The generator of `listAttr` over the nodes `N` and their entries of
   * the ports-by-node table, filtered on `userDefined`, with the names of
   * the ports it yields.
   */
  method ListPorts(table: map<Node, set<Port>>, N: set<Node>, userDefined: bool) returns (listed: seq<Port>, names: seq<string>)
    requires ByNode(table)
    ensures ListsPortsOf(listed, table, N, userDefined)
    ensures |names| == |listed| && forall i :: 0 <= i < |listed| ==> names[i] == listed[i].name
  {
    listed, names := [], [];
    var rest := N;
    while rest != {}
      invariant rest <= N
      invariant ListsPortsOf(listed, table, N - rest, userDefined)
      invariant |names| == |listed| && forall i :: 0 <= i < |listed| ==> names[i] == listed[i].name
      decreases rest
    {
      var n :| n in rest;
      var out, outNames := AppendPorts(listed, names, Entry(table, n), userDefined);
      forall i, j | 0 <= i < j < |out|
        ensures out[i] != out[j]
      {
        if j < |listed| {
          assert out[i] == listed[i] && out[j] == listed[j];
        } else if i < |listed| {
          assert out[i] == listed[i];
        }
      }
      forall i | 0 <= i < |out|
        ensures out[i].node in N - (rest - {n}) && out[i] in Entry(table, out[i].node) && (userDefined ==> out[i].userDefined)
      {
        if i < |listed| {
          assert out[i] == listed[i];
        }
      }
      forall m, p | m in N - (rest - {n}) && p in Entry(table, m) && (userDefined ==> p.userDefined)
        ensures p in out
      {
        if m != n {
          assert p in listed;
          var k :| 0 <= k < |listed| && listed[k] == p;
          assert out[k] == p;
        }
      }
      listed, names := out, outNames;
      rest := rest - {n};
    }
    assert N - rest == N;
  }

  /** The first `k` objects all match when their entries of `Matches` are all non-empty. */
  lemma AllMatchUpTo(nodes: set<Node>, U: set<Node>, objects: seq<string>, Ms: seq<set<Node>>, k: nat)
    requires Rooted(nodes, U) && Ms == Matches(nodes, U, objects) && k <= |objects|
    requires forall j :: 0 <= j < k ==> Ms[j] != {}
    ensures AllMatch(nodes, U, objects[..k])
  {
    forall i | 0 <= i < k
      ensures MatchingNodes(nodes, U, Some(objects[..k][i])) != {}
    {
      assert objects[..k][i] == objects[i];
    }
  }

  /** The nodes `ls` keeps: those the pattern matches, selected when asked, of the type when one is given. */
  function LsNodes(nodes: set<Node>, ghost U: set<Node>, pattern: Option<string>, sel: seq<Node>, selection: bool,
                   nodeType: Option<string>): set<Node>
    reads U`parent
    requires Rooted(nodes, U)
  {
    set n | n in MatchingNodes(nodes, U, pattern) && (selection ==> n in sel) && (Given(nodeType) ==> n.nodeType == nodeType.value)
  }

  /** The first of the objects `ls` receives, the only pattern it honours. */
  function FirstPattern(objects: seq<string>): Option<string>
  {
    if |objects| > 0 then Some(objects[0]) else None
  }

  /** The objects `parent` moves: all of them with `world`, else all but the last, which names the new parent. */
  function ParentChildren(objects: seq<string>, world: bool): seq<string>
  {
    if world || |objects| == 0 then objects else objects[..|objects| - 1]
  }

  /**
   * No node a child name picks is the node the last name picks or one of
   * its ancestors: Maya refuses such a move, and the mock would close a
   * cycle of parents.
   */
  ghost predicate ParentingAcyclic(nodes: set<Node>, U: set<Node>, objects: seq<string>, world: bool)
    reads U`parent
    requires Rooted(nodes, U)
  {
    !world && |objects| > 0 ==>
      forall p, c :: p in nodes && p.name == objects[|objects| - 1] && c in nodes && c.name in objects[..|objects| - 1] ==>
        c !in Chain(p, U)
  }

  /** Nodes whose parent is `target` have the target's dag path, a `|` and their own name as theirs. */
  lemma ChildPaths(moved: seq<Node>, target: Node, U: set<Node>)
    requires ChainIn(target, U)
    requires forall j :: 0 <= j < |moved| ==> ChainIn(moved[j], U) && moved[j].parent == target
    ensures forall j :: 0 <= j < |moved| ==> DagPath(moved[j], U) == DagPath(target, U) + "|" + moved[j].name
  {
    forall j | 0 <= j < |moved|
      ensures DagPath(moved[j], U) == DagPath(target, U) + "|" + moved[j].name
    {
      DagPathUnfold(moved[j], U);
    }
  }

  class CmdsSession {
    const session: Session

    /**
     * `session or MockedSession()`: the adaptor keeps the given session when
     * it holds a node. A session's length is its number of nodes, so a
     * missing or empty session is replaced by a new one without schema.
     */
    constructor (session: Session?)
      requires session != null ==> session.Valid()
      ensures this.session.Valid()
      ensures session != null && session.nodes != {} ==> this.session == session
      ensures session == null || session.nodes == {} ==>
        (fresh(this.session) && this.session.schema == null && this.session.nodes == {} && this.session.ports == {}
         && this.session.connections == {} && this.session.selection == [])
    {
      if session != null && session.nodes != {} {
        this.session := session;
      } else {
        var s, r, created := Session.New(null);
        this.session := s;
      }
    }

    /**
     * `_conform_connection_ports`: the ports the source and destination
     * patterns name; the source is looked up first.
     */
    method ConformConnectionPorts(src: string, dst: string) returns (r: Result<(Port, Port)>)
      requires session.Valid()
      ensures r.Err? <==>
        NoPortMatches(session.ports, session.Universe, src) || NoPortMatches(session.ports, session.Universe, dst)
      ensures NoPortMatches(session.ports, session.Universe, src) ==>
        r == Err(RuntimeError("The source attribute " + Repr(src) + " cannot be found."))
      ensures !NoPortMatches(session.ports, session.Universe, src) && NoPortMatches(session.ports, session.Universe, dst) ==>
        r == Err(RuntimeError("The destination attribute " + Repr(dst) + " cannot be found."))
      ensures r.Ok? ==> r.value.0 in session.ports && MatchesPortPattern(r.value.0, Some(src), session.Universe)
      ensures r.Ok? ==> r.value.1 in session.ports && MatchesPortPattern(r.value.1, Some(dst), session.Universe)
    {
      var portSrc := session.GetPortByMatch(Some(src));
      if portSrc.None? {
        return Err(RuntimeError("The source attribute " + Repr(src) + " cannot be found."));
      }
      var portDst := session.GetPortByMatch(Some(dst));
      if portDst.None? {
        return Err(RuntimeError("The destination attribute " + Repr(dst) + " cannot be found."));
      }
      return Ok((portSrc.value, portDst.value));
    }

    /**
     * `connectionInfo`: with `sourceFromDestination` alone, the display form
     * of some port connected into the port, or "" when none is; with
     * `destinationFromSource` alone, the display forms of the ports it feeds.
     * Any other combination of flags is refused.
     */
    method ConnectionInfo(dagpath: string, sourceFromDestination: bool, destinationFromSource: bool)
      returns (r: Result<Info>, ghost port: Port?, ghost listed: seq<Connection>)
      requires session.Valid()
      ensures NoPortMatches(session.ports, session.Universe, dagpath) ==>
        r == Err(ValueError("No object matches name: " + dagpath))
      ensures !NoPortMatches(session.ports, session.Universe, dagpath) ==>
        port != null && port in session.ports && MatchesPortPattern(port, Some(dagpath), session.Universe)
      ensures !NoPortMatches(session.ports, session.Universe, dagpath) && sourceFromDestination && destinationFromSource ==>
        r == Err(RuntimeError("You cannot specify more than one flag."))
      ensures !NoPortMatches(session.ports, session.Universe, dagpath) && !sourceFromDestination && !destinationFromSource ==>
        r == Err(RuntimeError("You must specify exactly one flag."))
      ensures !NoPortMatches(session.ports, session.Universe, dagpath) && sourceFromDestination && !destinationFromSource ==>
        r.Ok? && r.value.Plug?
        && (InputConnections(session.connections, port) == {} <==> r.value.plug == "")
        && (InputConnections(session.connections, port) != {} ==>
              exists c :: c in InputConnections(session.connections, port)
                && r.value.plug == PortDisplay(session.nodes, session.Universe, c.src))
      ensures !NoPortMatches(session.ports, session.Universe, dagpath) && destinationFromSource && !sourceFromDestination ==>
        r.Ok? && r.value.Plugs? && Lists(listed, OutputConnections(session.connections, port))
        && |r.value.plugs| == |listed|
        && forall i :: 0 <= i < |listed| ==> r.value.plugs[i] == PortDisplay(session.nodes, session.Universe, listed[i].dst)
    {
      listed := [];
      port := null;
      var found := session.GetPortByMatch(Some(dagpath));
      if found.None? {
        return Err(ValueError("No object matches name: " + dagpath)), port, listed;
      }
      var p := found.value;
      port := p;
      if sourceFromDestination && !destinationFromSource {
        var plug := InputSource(p);
        return Ok(Plug(plug)), port, listed;
      }
      if destinationFromSource && !sourceFromDestination {
        var plugs;
        plugs, listed := OutputDestinations(p);
        return Ok(Plugs(plugs)), port, listed;
      }
      if sourceFromDestination && destinationFromSource {
        return Err(RuntimeError("You cannot specify more than one flag.")), port, listed;
      }
      return Err(RuntimeError("You must specify exactly one flag.")), port, listed;
    }

    /** The first value of the generator over the port's inputs, "" when it is empty. */
    method InputSource(p: Port) returns (plug: string)
      requires session.Valid()
      ensures InputConnections(session.connections, p) == {} <==> plug == ""
      ensures InputConnections(session.connections, p) != {} ==>
        exists c :: c in InputConnections(session.connections, p) && plug == PortDisplay(session.nodes, session.Universe, c.src)
    {
      var ins := InputConnections(session.connections, p);
      if ins == {} {
        return "";
      }
      var c :| c in ins;
      plug := session.PortMelObject(c.src);
    }

    /** The list of the display forms of the ports the port feeds. */
    method OutputDestinations(p: Port) returns (plugs: seq<string>, ghost listed: seq<Connection>)
      requires session.Valid()
      ensures Lists(listed, OutputConnections(session.connections, p)) && |plugs| == |listed|
      ensures forall i :: 0 <= i < |listed| ==> plugs[i] == PortDisplay(session.nodes, session.Universe, listed[i].dst)
    {
      var outs := OutputConnections(session.connections, p);
      var rest := outs;
      plugs, listed := [], [];
      while rest != {}
        invariant rest <= outs
        invariant Lists(listed, outs - rest) && |plugs| == |listed|
        invariant forall i :: 0 <= i < |listed| ==> plugs[i] == PortDisplay(session.nodes, session.Universe, listed[i].dst)
        decreases rest
      {
        var c :| c in rest;
        var plug := session.PortMelObject(c.dst);
        plugs, listed := plugs + [plug], listed + [c];
        rest := rest - {c};
      }
      assert outs - rest == outs;
    }
    /**
     * The first half of `connectAttr` on found ports: a destination that
     * already has an input is refused unless `force`, in which case one of
     * its input connections, `tried`, is removed as `remove_connection`
     * does. `freed` is the connection set left for the new connection.
     */
    method FreeDestination(dst: Port, force: bool) returns (r: Outcome, ghost tried: Option<Connection>)
      requires session.Valid()
      modifies session`connections
      ensures session.Valid() && session.connections <= old(session.connections)
      ensures InputConnections(old(session.connections), dst) == {} ==>
        r == Pass && tried.None? && session.connections == old(session.connections)
      ensures !force && InputConnections(old(session.connections), dst) != {} ==>
        r == Fail(RuntimeError("Maya command error")) && tried.None? && session.connections == old(session.connections)
      ensures force && InputConnections(old(session.connections), dst) != {} ==>
        tried.Some? && tried.value in InputConnections(old(session.connections), dst)
      ensures tried.Some? ==> (r.Fail? <==> !old(KeyedIn(session.connections, tried.value, session.Universe)))
      ensures tried.Some? && r.Fail? ==>
        r.error == KeyError(ConnectionRepr(tried.value)) && session.connections == old(session.connections)
      ensures tried.Some? && r.Pass? ==> var C' := session.connections;
        old(ConnectionTakenOut(session.connections, tried.value, session.Universe, C'))
      ensures tried.Some? && old(session.UniqueConnectionKeys()) ==>
        r == Pass && session.connections == old(session.connections) - {tried.value}
      ensures old(session.UniqueConnectionKeys()) ==> var C' := session.connections; old(UniqueConns(C', session.Universe))
    {
      tried := None;
      var inputs := InputConnections(session.connections, dst);
      if inputs == {} {
        r := Pass;
      } else if !force {
        r := Fail(RuntimeError("Maya command error"));
      } else {
        var c :| c in inputs;
        tried := Some(c);
        r := session.RemoveConnection(c);
      }
    }

    /**
     * `connectAttr` on found ports: the destination is freed as
     * `FreeDestination` does, then the connection is created in what is
     * left, `freed`; afterwards a lookup of the new connection finds one.
     */
    method ConnectPorts(src: Port, dst: Port, force: bool)
      returns (r: Result<string>, ghost tried: Option<Connection>, ghost freed: set<Connection>)
      requires session.Valid() && src.node in session.Universe && dst.node in session.Universe
      modifies session`connections
      ensures session.Valid() && freed <= old(session.connections)
      ensures (force || InputConnections(old(session.connections), dst) == {}) && old(session.UniqueConnectionKeys()) ==>
        freed == old(session.connections) - (if tried.Some? then {tried.value} else {})
      ensures !force && InputConnections(old(session.connections), dst) != {} ==>
        r == Err(RuntimeError("Maya command error")) && session.connections == old(session.connections)
      ensures (force || InputConnections(old(session.connections), dst) == {}) && old(session.UniqueConnectionKeys()) ==>
        (r.Ok? <==> (src.portType, dst.portType) !in ImpossibleConnections)
      ensures ((force || InputConnections(old(session.connections), dst) == {}) && old(session.UniqueConnectionKeys()) &&
               (src.portType, dst.portType) in ImpossibleConnections) ==>
        r == Err(CannotConnectError(src, dst, session.Universe))
      ensures r.Err? ==> session.connections == freed
      ensures r.Ok? ==> r.value == ConnectedMessage(src, dst)
      ensures r.Ok? ==> var c := NewConnection(src, dst, session.Universe);
        session.connections == AddConnection(freed, c, session.Universe) && KeyedIn(session.connections, c, session.Universe)
    {
      var cleared;
      cleared, tried := FreeDestination(dst, force);
      freed := session.connections;
      assert (force || InputConnections(old(session.connections), dst) == {}) && old(session.UniqueConnectionKeys()) ==>
        freed == old(session.connections) - (if tried.Some? then {tried.value} else {}) && cleared == Pass;
      if cleared.Fail? {
        r := Err(cleared.error);
      } else {
        r := ConnectFreed(src, dst);
      }
    }

    /** The second half of `connectAttr` on found ports: the connection is created as `create_connection` does. */
    method ConnectFreed(src: Port, dst: Port) returns (r: Result<string>)
      requires session.Valid() && src.node in session.Universe && dst.node in session.Universe
      modifies session`connections
      ensures session.Valid()
      ensures r.Ok? <==> (src.portType, dst.portType) !in ImpossibleConnections
      ensures r.Err? ==> r == Err(CannotConnectError(src, dst, session.Universe)) && session.connections == old(session.connections)
      ensures r.Ok? ==> r.value == ConnectedMessage(src, dst)
      ensures r.Ok? ==> var c := NewConnection(src, dst, session.Universe);
        session.connections == AddConnection(old(session.connections), c, session.Universe)
        && KeyedIn(session.connections, c, session.Universe)
    {
      session.ValidRooted();
      var created := session.CreateConnection(src, dst);
      AddConnectionStays(old(session.connections), src, dst, session.Universe);
      if created.Err? {
        r := Err(created.error);
      } else {
        r := Ok(ConnectedMessage(src, dst));
      }
    }

    /** `connectAttr`: both ports are looked up by pattern, then connected as `ConnectPorts` does. */
    method ConnectAttr(src: string, dst: string, force: bool)
      returns (r: Result<string>, ghost srcPort: Port?, ghost dstPort: Port?, ghost tried: Option<Connection>, ghost freed: set<Connection>)
      requires session.Valid()
      modifies session`connections
      ensures session.Valid()
      ensures old(NoPortMatches(session.ports, session.Universe, src)) ==>
        r == Err(RuntimeError("The source attribute " + Repr(src) + " cannot be found."))
        && session.connections == old(session.connections)
      ensures !old(NoPortMatches(session.ports, session.Universe, src)) && old(NoPortMatches(session.ports, session.Universe, dst)) ==>
        r == Err(RuntimeError("The destination attribute " + Repr(dst) + " cannot be found."))
        && session.connections == old(session.connections)
      ensures !old(NoPortMatches(session.ports, session.Universe, src)) && !old(NoPortMatches(session.ports, session.Universe, dst)) ==>
        srcPort != null && dstPort != null
        && old(srcPort in session.ports && MatchesPortPattern(srcPort, Some(src), session.Universe))
        && old(dstPort in session.ports && MatchesPortPattern(dstPort, Some(dst), session.Universe))
      ensures srcPort != null && dstPort != null && !force && InputConnections(old(session.connections), dstPort) != {} ==>
        r == Err(RuntimeError("Maya command error")) && session.connections == old(session.connections)
      ensures srcPort != null && dstPort != null && (force || InputConnections(old(session.connections), dstPort) == {})
              && old(session.UniqueConnectionKeys()) ==>
        (r.Ok? <==> (srcPort.portType, dstPort.portType) !in ImpossibleConnections)
      ensures srcPort != null && dstPort != null && (force || InputConnections(old(session.connections), dstPort) == {})
              && old(session.UniqueConnectionKeys()) ==>
        freed == old(session.connections) - (if tried.Some? then {tried.value} else {})
      ensures srcPort != null ==> dstPort != null && srcPort.node in session.Universe && dstPort.node in session.Universe
      ensures (srcPort != null && dstPort != null && (force || InputConnections(old(session.connections), dstPort) == {})
               && old(session.UniqueConnectionKeys()) && (srcPort.portType, dstPort.portType) in ImpossibleConnections) ==>
        srcPort.node in session.Universe && dstPort.node in session.Universe
        && r == Err(CannotConnectError(srcPort, dstPort, session.Universe))
      ensures r.Err? ==> session.connections == freed
      ensures r.Ok? ==>
        srcPort != null && dstPort != null && r.value == ConnectedMessage(srcPort, dstPort) && freed <= old(session.connections)
        && srcPort.node in session.Universe && dstPort.node in session.Universe
      ensures r.Ok? ==> var c := NewConnection(srcPort, dstPort, session.Universe);
        session.connections == AddConnection(freed, c, session.Universe) && KeyedIn(session.connections, c, session.Universe)
    {
      srcPort, dstPort, tried, freed := null, null, None, session.connections;
      var ports := ConformConnectionPorts(src, dst);
      if ports.Err? {
        r := Err(ports.error);
      } else {
        srcPort, dstPort := ports.value.0, ports.value.1;
        r, tried, freed := ConnectPorts(ports.value.0, ports.value.1, force);
      }
    }

    /**
     * `disconnectAttr` on found ports: a connection `found` from `src` to
     * `dst` (the very ports) must exist, and is removed as
     * `remove_connection` does.
     */
    method DisconnectPorts(src: Port, dst: Port) returns (r: Outcome, ghost found: Option<Connection>)
      requires session.Valid() && src.node in session.Universe && dst.node in session.Universe
      modifies session`connections
      ensures session.Valid() && session.connections <= old(session.connections)
      ensures found.None? <==> !HasConnection(old(session.connections), src, dst)
      ensures found.None? ==>
        r == Fail(RuntimeError(NoConnectionMessage(PortDisplay(session.nodes, session.Universe, src),
                                                   PortDisplay(session.nodes, session.Universe, dst))))
        && session.connections == old(session.connections)
      ensures found.Some? ==> found.value in old(session.connections) && found.value.src == src && found.value.dst == dst
      ensures found.Some? ==> (r.Fail? <==> !old(KeyedIn(session.connections, found.value, session.Universe)))
      ensures found.Some? && r.Fail? ==>
        r.error == KeyError(ConnectionRepr(found.value)) && session.connections == old(session.connections)
      ensures found.Some? && r.Pass? ==> var C' := session.connections;
        old(ConnectionTakenOut(session.connections, found.value, session.Universe, C'))
      ensures found.Some? && old(session.UniqueConnectionKeys()) ==>
        r == Pass && session.connections == old(session.connections) - {found.value}
        && !HasConnection(session.connections, src, dst)
    {
      found := None;
      var connection := session.GetConnectionByPorts(src, dst);
      if connection.None? {
        r := NoConnectionError(src, dst);
      } else {
        found := connection;
        r := DisconnectFound(connection.value);
      }
    }

    /** The error `disconnectAttr` raises when no connection joins the two ports. */
    method NoConnectionError(src: Port, dst: Port) returns (r: Outcome)
      requires session.Valid() && src.node in session.Universe && dst.node in session.Universe
      ensures r == Fail(RuntimeError(NoConnectionMessage(PortDisplay(session.nodes, session.Universe, src),
                                                         PortDisplay(session.nodes, session.Universe, dst))))
    {
      var srcText := session.PortMelObject(src);
      var dstText := session.PortMelObject(dst);
      r := Fail(RuntimeError(NoConnectionMessage(srcText, dstText)));
    }

    /**
     * The removal `disconnectAttr` makes once it has found `c`; with unique
     * keys no other connection joins the same two ports, so none is left.
     */
    method DisconnectFound(c: Connection) returns (r: Outcome)
      requires session.Valid() && c in session.connections
      modifies session`connections
      ensures session.Valid() && session.connections <= old(session.connections)
      ensures r.Fail? <==> !old(KeyedIn(session.connections, c, session.Universe))
      ensures r.Fail? ==> r.error == KeyError(ConnectionRepr(c)) && session.connections == old(session.connections)
      ensures r.Pass? ==> var C' := session.connections; old(ConnectionTakenOut(session.connections, c, session.Universe, C'))
      ensures old(session.UniqueConnectionKeys()) ==>
        r == Pass && session.connections == old(session.connections) - {c} && !HasConnection(session.connections, c.src, c.dst)
    {
      ghost var unique := session.UniqueConnectionKeys();
      if unique {
        OnlyConnectionBetween(session.connections, c, session.Universe);
      }
      session.ValidRooted();
      r := session.RemoveConnection(c);
    }

    /** `disconnectAttr`: both ports are looked up by pattern, then disconnected as `DisconnectPorts` does. */
    method DisconnectAttr(src: string, dst: string)
      returns (r: Outcome, ghost srcPort: Port?, ghost dstPort: Port?, ghost found: Option<Connection>)
      requires session.Valid()
      modifies session`connections
      ensures session.Valid() && session.connections <= old(session.connections)
      ensures old(NoPortMatches(session.ports, session.Universe, src)) ==>
        r == Fail(RuntimeError("The source attribute " + Repr(src) + " cannot be found."))
        && session.connections == old(session.connections)
      ensures !old(NoPortMatches(session.ports, session.Universe, src)) && old(NoPortMatches(session.ports, session.Universe, dst)) ==>
        r == Fail(RuntimeError("The destination attribute " + Repr(dst) + " cannot be found."))
        && session.connections == old(session.connections)
      ensures !old(NoPortMatches(session.ports, session.Universe, src)) && !old(NoPortMatches(session.ports, session.Universe, dst)) ==>
        srcPort != null && dstPort != null
        && old(srcPort in session.ports && MatchesPortPattern(srcPort, Some(src), session.Universe))
        && old(dstPort in session.ports && MatchesPortPattern(dstPort, Some(dst), session.Universe))
        && (found.Some? <==> HasConnection(old(session.connections), srcPort, dstPort))
      ensures found.Some? ==>
        srcPort != null && dstPort != null && found.value in old(session.connections)
        && found.value.src == srcPort && found.value.dst == dstPort
        && (r.Fail? <==> !old(KeyedIn(session.connections, found.value, session.Universe)))
      ensures found.Some? && r.Fail? ==> r.error == KeyError(ConnectionRepr(found.value))
      ensures found.Some? && old(session.UniqueConnectionKeys()) ==>
        r == Pass && session.connections == old(session.connections) - {found.value}
        && !HasConnection(session.connections, srcPort, dstPort)
    {
      srcPort, dstPort, found := null, null, None;
      var ports := ConformConnectionPorts(src, dst);
      if ports.Err? {
        return Fail(ports.error), srcPort, dstPort, found;
      }
      srcPort, dstPort := ports.value.0, ports.value.1;
      r, found := DisconnectPorts(ports.value.0, ports.value.1);
    }

    /**
     * One round of the `addAttr` loop: the object is looked up strictly and
     * the port `made` is created on the first node it matches, as
     * `create_port` does; `M` holds the nodes the object matches, and
     * `carried` is the port of that name the node's entry then holds.
     */
    method AddAttrTo(obj: string, name: string, opts: PortOptions, ghost M: set<Node>)
      returns (r: Outcome, ghost carried: Port?, ghost made: Port?)
      requires session.Valid() && M == MatchingNodes(session.nodes, session.Universe, Some(obj))
      modifies session`ports, session`portsByNode
      ensures session.Valid() && old(session.ports) <= session.ports
      ensures KeepsEntries(old(session.portsByNode), session.portsByNode)
      ensures r.Fail? ==> session.ports == old(session.ports) && session.portsByNode == old(session.portsByNode)
      ensures M == {} ==> r == Fail(ValueError("No object matches name: " + obj))
      ensures M != {} ==> (r.Pass? <==> IsAttrTypeName(opts.portType))
      ensures M != {} && !IsAttrTypeName(opts.portType) ==> r == Fail(AttributeError(opts.portType))
      ensures r.Pass? ==>
        carried != null && FirstMatch(carried.node, session.nodes, session.Universe, obj)
        && carried in session.PortsOf(carried.node) && carried.name == name
      ensures r.Pass? ==> made != null && made.node == carried.node && MadeFrom(made, name, opts)
      ensures r.Pass? ==> PortAdded(old(session.ports), made, session.Universe, session.ports)
      ensures r.Pass? ==> session.ports - old(session.ports) <= {made}
    {
      carried, made := null, null;
      var found := session.GetNodeByMatch(Some(obj), true);
      if found.Err? {
        r := Fail(found.error);
      } else if found.value.None? {
        assert false;
      } else {
        var node := found.value.value;
        assert FirstMatch(node, session.nodes, session.Universe, obj);
        var port := session.CreateNamedPort(node, name, opts);
        FirstMatchStays(node, session.nodes, session.Universe, obj);
        if port.Err? {
          r := Fail(port.error);
        } else {
          made := port.value;
          PortKeysStay(old(session.ports), session.Universe);
          AddPortKeyed(old(session.ports), made, session.Universe);
          carried :| carried in session.PortsOf(node) && carried.name == name;
          r := Pass;
        }
      }
    }

    /** Round `i` of the `addAttr` loop, which extends `Added` and `CarriedFor` by the port carried. */
    method AddAttrStep(objects: seq<string>, i: nat, name: string, opts: PortOptions, ghost Ms: seq<set<Node>>, ghost W: seq<Port>,
                       ghost ports0: set<Port>, ghost table0: map<Node, set<Port>>) returns (r: Outcome, ghost W': seq<Port>)
      requires session.Valid() && i < |objects| == |Ms| && |W| == i
      requires Ms == Matches(session.nodes, session.Universe, objects)
      requires Added(session.ports, session.portsByNode, W, name, opts, ports0, table0)
      requires CarriedFor(W, session.nodes, session.Universe, objects, session.portsByNode, name)
      modifies session`ports, session`portsByNode
      ensures session.Valid() && Ms == Matches(session.nodes, session.Universe, objects)
      ensures Added(session.ports, session.portsByNode, W', name, opts, ports0, table0)
      ensures CarriedFor(W', session.nodes, session.Universe, objects, session.portsByNode, name)
      ensures r.Pass? ==> IsAttrTypeName(opts.portType) && |W'| == i + 1
      ensures r.Fail? ==> W' == W
      ensures Ms[i] == {} ==> r == Fail(ValueError("No object matches name: " + objects[i]))
      ensures Ms[i] != {} ==> (r.Pass? <==> IsAttrTypeName(opts.portType))
      ensures Ms[i] != {} && !IsAttrTypeName(opts.portType) ==>
        r == Fail(AttributeError(opts.portType))
    {
      ghost var ports1, table1 := session.ports, session.portsByNode;
      ghost var carried, made;
      r, carried, made := AddAttrTo(objects[i], name, opts, Ms[i]);
      CarriedForStays(session.nodes, session.Universe, objects, W, table1, name);
      W' := W;
      if r.Pass? {
        AddedGrows(session.nodes, session.Universe, objects, ports1, table1, session.ports, session.portsByNode,
                   W, name, opts, ports0, table0, carried);
        W' := W + [carried];
      }
    }

    /**
     * The loop of `addAttr` over the objects, where `Ms` holds the nodes
     * each object matches; `k` rounds passed, carrying `W`.
     */
    method AddAttrLoop(objects: seq<string>, name: string, opts: PortOptions, ghost Ms: seq<set<Node>>)
      returns (r: Outcome, ghost k: nat, ghost W: seq<Port>)
      requires session.Valid() && Ms == Matches(session.nodes, session.Universe, objects)
      modifies session`ports, session`portsByNode
      ensures session.Valid() && k <= |objects| == |Ms| && Ms == Matches(session.nodes, session.Universe, objects)
      ensures |W| == k && Added(session.ports, session.portsByNode, W, name, opts, old(session.ports), old(session.portsByNode))
      ensures CarriedFor(W, session.nodes, session.Universe, objects, session.portsByNode, name)
      ensures k > 0 ==> IsAttrTypeName(opts.portType)
      ensures r.Pass? ==> k == |objects|
      ensures r.Fail? ==>
        k < |objects|
        && (Ms[k] == {} ==> r == Fail(ValueError("No object matches name: " + objects[k])))
        && (Ms[k] != {} ==>
              !IsAttrTypeName(opts.portType)
              && r == Fail(AttributeError(opts.portType)))
    {
      ghost var ports0, table0 := session.ports, session.portsByNode;
      W := [];
      var i := 0;
      while i < |objects|
        invariant i <= |objects| && session.Valid() && |W| == i
        invariant Ms == Matches(session.nodes, session.Universe, objects)
        invariant Added(session.ports, session.portsByNode, W, name, opts, ports0, table0)
        invariant CarriedFor(W, session.nodes, session.Universe, objects, session.portsByNode, name)
        invariant i > 0 ==> IsAttrTypeName(opts.portType)
      {
        r, W := AddAttrStep(objects, i, name, opts, Ms, W, ports0, table0);
        if r.Fail? {
          return r, i, W;
        }
        i := i + 1;
      }
      return Pass, i, W;
    }

    /**
     * `addAttr` once the port's name and options are settled: the port is
     * created on the first node each object matches, in order, and the
     * first failure stops the loop. `failedAt` is the object that failed
     * (the number of objects when none did), and `carried[i]` the port of
     * that name the table records for object `i`.
     */
    method AddNamedAttr(objects: seq<string>, name: string, opts: PortOptions)
      returns (r: Outcome, ghost failedAt: nat, ghost carried: seq<Port>)
      requires session.Valid()
      modifies session`ports, session`portsByNode
      ensures session.Valid() && old(session.ports) <= session.ports
      ensures r.Pass? <==> (|objects| == 0 || IsAttrTypeName(opts.portType)) && AllMatch(session.nodes, session.Universe, objects)
      ensures IsAttrTypeName(opts.portType) && r.Fail? ==>
        failedAt < |objects| && AllMatch(session.nodes, session.Universe, objects[..failedAt])
        && MatchingNodes(session.nodes, session.Universe, Some(objects[failedAt])) == {}
        && r.error == ValueError("No object matches name: " + objects[failedAt])
      ensures |objects| > 0 && MatchingNodes(session.nodes, session.Universe, Some(objects[0])) != {} && !IsAttrTypeName(opts.portType) ==>
        r == Fail(AttributeError(opts.portType))
      ensures |carried| == failedAt <= |objects| && (r.Pass? ==> failedAt == |objects|)
      ensures CarriedFor(carried, session.nodes, session.Universe, objects, session.portsByNode, name)
      ensures NewPortsFrom(old(session.ports), session.ports, name, opts, NodesOf(carried))
      ensures KeepsEntries(old(session.portsByNode), session.portsByNode)
    {
      ghost var Ms := Matches(session.nodes, session.Universe, objects);
      r, failedAt, carried := AddAttrLoop(objects, name, opts, Ms);
      CarriedMatch(session.nodes, session.Universe, objects, carried, session.portsByNode, name);
      if r.Pass? {
        assert objects[..failedAt] == objects;
      }
    }

    /**
     * `addAttr`: a port named by the long name, else the short name, of
     * type `attributeType or dataType or "float"` and holding
     * `defaultValue`, is created on the first node each object matches, as
     * `AddNamedAttr` does; with neither name nothing happens.
     */
    method AddAttr(objects: seq<string>, attributeType: Option<string>, dataType: Option<string>, defaultValue: Value,
                   longName: Option<string>, niceName: Option<string>, shortName: Option<string>)
      returns (r: Outcome, ghost failedAt: nat, ghost carried: seq<Port>)
      requires session.Valid()
      modifies session`ports, session`portsByNode
      ensures session.Valid() && old(session.ports) <= session.ports
      ensures !Given(longName) && !Given(shortName) ==>
        r == Fail(RuntimeError("New attribute needs either a long (-ln) or short (-sn) attribute name."))
        && session.ports == old(session.ports) && session.portsByNode == old(session.portsByNode)
      ensures Given(longName) || Given(shortName) ==>
        (r.Pass? <==>
           (|objects| == 0 || IsAttrTypeName(AttrTypeOf(attributeType, dataType)))
           && AllMatch(session.nodes, session.Universe, objects))
      ensures (Given(longName) || Given(shortName)) && IsAttrTypeName(AttrTypeOf(attributeType, dataType)) && r.Fail? ==>
        failedAt < |objects| && AllMatch(session.nodes, session.Universe, objects[..failedAt])
        && MatchingNodes(session.nodes, session.Universe, Some(objects[failedAt])) == {}
        && r.error == ValueError("No object matches name: " + objects[failedAt])
      ensures ((Given(longName) || Given(shortName)) && |objects| > 0
               && MatchingNodes(session.nodes, session.Universe, Some(objects[0])) != {}
               && !IsAttrTypeName(AttrTypeOf(attributeType, dataType))) ==>
        r == Fail(AttributeError(AttrTypeOf(attributeType, dataType)))
      ensures Given(longName) || Given(shortName) ==>
        |carried| == failedAt <= |objects| && (r.Pass? ==> failedAt == |objects|)
        && CarriedFor(carried, session.nodes, session.Universe, objects, session.portsByNode, AttrName(longName, shortName))
        && NewPortsFrom(old(session.ports), session.ports, AttrName(longName, shortName),
                        AddAttrOptions(attributeType, dataType, defaultValue, niceName, shortName), NodesOf(carried))
      ensures KeepsEntries(old(session.portsByNode), session.portsByNode)
      ensures r.Pass? ==> Given(longName) || Given(shortName)
    {
      if Given(longName) || Given(shortName) {
        var opts := AddAttrOptions(attributeType, dataType, defaultValue, niceName, shortName);
        r, failedAt, carried := AddNamedAttr(objects, AttrName(longName, shortName), opts);
      } else {
        r, failedAt, carried := Fail(RuntimeError("New attribute needs either a long (-ln) or short (-sn) attribute name.")), 0, [];
      }
    }

    /** `select`: the selection becomes the nodes named in `names`, each once, in no set order. */
    method Select(names: seq<string>)
      requires session.Valid()
      modifies session`selection
      ensures session.Valid() && Lists(session.selection, Named(session.nodes, names))
    {
      var picked := ListNamed(session.nodes, names);
      session.selection := picked;
    }

    /** `getAttr`: the value of a port the path matches; `ValueError` when none does. */
    method GetAttr(dagpath: string) returns (r: Result<Value>, ghost port: Port?)
      requires session.Valid()
      ensures NoPortMatches(session.ports, session.Universe, dagpath) <==> r.Err?
      ensures r.Err? ==> r.error == ValueError("No object matches name: " + dagpath)
      ensures r.Ok? ==>
        port != null && port in session.ports && MatchesPortPattern(port, Some(dagpath), session.Universe)
        && r.value == port.value
    {
      port := null;
      var found := session.GetPortByMatch(Some(dagpath));
      if found.None? {
        r := Err(ValueError("No object matches name: " + dagpath));
      } else {
        port := found.value;
        r := Ok(found.value.value);
      }
    }

    /**
     * `setAttr`: a port the path matches takes the value and every other
     * port keeps its own; with no match, reading `.value` off `None` raises
     * `AttributeError`.
     */
    method SetAttr(dagpath: string, value: Value) returns (r: Outcome, ghost port: Port?)
      requires session.Valid()
      modifies session.ports`value
      ensures NoPortMatches(session.ports, session.Universe, dagpath) <==> r.Fail?
      ensures r.Fail? ==>
        r.error == AttributeError("'NoneType' object has no attribute 'value'")
        && forall p :: p in session.ports ==> p.value == old(p.value)
      ensures r.Pass? ==>
        port != null && port in session.ports && MatchesPortPattern(port, Some(dagpath), session.Universe)
        && port.value == value
        && forall p :: p in session.ports && p != port ==> p.value == old(p.value)
    {
      port := null;
      var found := session.GetPortByMatch(Some(dagpath));
      if found.None? {
        r := Fail(AttributeError("'NoneType' object has no attribute 'value'"));
      } else {
        port := found.value;
        found.value.value := value;
        r := Pass;
      }
    }

    /**
     * `nodeType`: the type of some node with that name; with none, reading
     * `.type` off `None` raises `AttributeError`.
     */
    method NodeType(name: string) returns (r: Result<string>, ghost node: Node?)
      requires session.Valid()
      ensures r.Err? <==> forall n :: n in session.nodes ==> n.name != name
      ensures r.Err? ==> r.error == AttributeError("'NoneType' object has no attribute 'type'")
      ensures r.Ok? ==> node != null && node in session.nodes && node.name == name && r.value == node.nodeType
    {
      node := null;
      var found := session.GetNodeByName(name);
      if found.None? {
        r := Err(AttributeError("'NoneType' object has no attribute 'type'"));
      } else {
        node := found.value;
        r := Ok(found.value.nodeType);
      }
    }

    /** `objExists`: a port matches the pattern, or else a node does. */
    method ObjExists(pattern: string) returns (b: bool)
      requires session.Valid()
      ensures b <==> !NoPortMatches(session.ports, session.Universe, pattern) || NodeExist(session.nodes, session.Universe, pattern)
    {
      var port := session.GetPortByMatch(Some(pattern));
      if port.Some? {
        b := true;
      } else {
        b := session.NodeExists(pattern);
      }
    }

    /**
     * `delete`: some node with that name is removed with its ports and
     * their connections; with none, `remove_node(None)` ends in
     * `nodes.remove(None)`, a `KeyError`.
     */
    method Delete(name: string) returns (r: Outcome, ghost removed: Node?)
      requires session.Valid()
      modifies session`nodes, session`connections, session`ports
      ensures session.Valid() && session.nodes <= old(session.nodes) && session.portsByNode == old(session.portsByNode)
      ensures session.ports <= old(session.ports) && session.connections <= old(session.connections)
      ensures removed == null <==> forall n :: n in old(session.nodes) ==> n.name != name
      ensures removed == null ==>
        r == Fail(KeyError("None")) && session.nodes == old(session.nodes) && session.ports == old(session.ports)
        && session.connections == old(session.connections)
      ensures removed != null ==> removed in old(session.nodes) && removed.name == name
      ensures removed != null && r.Pass? ==> session.nodes == old(session.nodes) - {removed}
      ensures removed != null && r.Fail? ==>
        session.nodes == old(session.nodes)
        && old(exists p :: p in PortsOn(session.ports, removed) && RemovalError(r.error, p, session.connections))
      ensures removed != null && old(session.UniquePortKeys()) && old(session.UniqueConnectionKeys()) ==>
        r == Pass && session.nodes == old(session.nodes) - {removed}
        && session.ports == old(session.ports - PortsOn(session.ports, removed))
        && session.connections == old(session.connections - TouchingAny(session.connections, PortsOn(session.ports, removed)))
    {
      removed := null;
      var found := session.GetNodeByName(name);
      if found.None? {
        r := Fail(KeyError("None"));
      } else {
        removed := found.value;
        r := session.RemoveNode(found.value);
      }
    }

    /**
     * The node `deleteAttr` works on: some node with the queried name, else
     * the node of a port `via` the query matches.
     */
    method DeleteAttrOwner(query: string) returns (owner: Option<Node>, ghost via: Port?)
      requires session.Valid()
      ensures owner.None? <==>
        (forall n :: n in session.nodes ==> n.name != query) && NoPortMatches(session.ports, session.Universe, query)
      ensures owner.Some? ==> owner.value in session.Universe
      ensures owner.Some? ==>
        (owner.value in session.nodes && owner.value.name == query)
        || ((forall n :: n in session.nodes ==> n.name != query)
            && via != null && via in session.ports && MatchesPortPattern(via, Some(query), session.Universe)
            && owner.value == via.node)
    {
      via := null;
      var named := session.GetNodeByName(query);
      if named.Some? {
        owner := named;
      } else {
        var port := session.GetPortByMatch(Some(query));
        if port.None? {
          owner := None;
        } else {
          via := port.value;
          owner := Some(port.value.node);
        }
      }
    }

    /**
     * The second half of `deleteAttr`, once the node is known: the port is
     * the one the query itself matches when no attribute is given, else the
     * node's port answering to the attribute; it is removed with its
     * connections.
     */
    method DeleteAttrOf(query: string, attribute: Option<string>, owner: Node) returns (r: Outcome, ghost port: Port?)
      requires session.Valid() && owner in session.Universe
      modifies session`connections, session`ports
      ensures session.Valid() && session.ports <= old(session.ports) && session.connections <= old(session.connections)
      ensures session.portsByNode == old(session.portsByNode)
      ensures attribute.None? && old(NoPortMatches(session.ports, session.Universe, query)) ==>
        r == Fail(RuntimeError("Must specify attribute to be deleted.\n"))
      ensures attribute.Some? && (forall p :: p in old(session.PortsOf(owner)) ==> !AnswersTo(p, attribute.value)) ==>
        r == Fail(RuntimeError("Node " + Repr(owner.name) + " does not have attribute " + Repr(attribute.value) + ".\n"))
      ensures port == null ==>
        r.Fail? && session.ports == old(session.ports) && session.connections == old(session.connections)
      ensures attribute.None? ==> (port != null <==> !old(NoPortMatches(session.ports, session.Universe, query)))
      ensures attribute.Some? ==>
        (port != null <==> old(exists p :: p in session.PortsOf(owner) && AnswersTo(p, attribute.value)))
      ensures port != null && attribute.None? ==> port in old(session.ports) && old(MatchesPortPattern(port, Some(query), session.Universe))
      ensures port != null && attribute.Some? ==> port in old(session.PortsOf(owner)) && AnswersTo(port, attribute.value)
      ensures port != null && r.Fail? ==> session.ports == old(session.ports) && RemovalError(r.error, port, old(session.connections))
      ensures var C' := session.connections; port != null && old(session.UniqueConnectionKeys()) ==>
        old(C' == session.connections - Touching(session.connections, port)
            && (r.Fail? <==> !PortAt(session.ports, session.Universe, PortDagPath(port, session.Universe))))
      ensures var P' := session.ports; port != null && r.Pass? ==>
        old(PortTakenOut(session.ports, PortDagPath(port, session.Universe), session.Universe, P'))
      ensures port != null && port in old(session.ports) && old(session.UniquePortKeys()) && old(session.UniqueConnectionKeys()) ==>
        r == Pass && session.ports == old(session.ports) - {port}
    {
      port := null;
      var target: Option<Port>;
      if attribute.None? {
        target := session.GetPortByMatch(Some(query));
      } else {
        target := session.GetNodePortByName(owner, attribute.value);
      }
      if target.None? {
        r := Fail(if attribute.None? then RuntimeError("Must specify attribute to be deleted.\n")
                  else RuntimeError("Node " + Repr(owner.name) + " does not have attribute " + Repr(attribute.value) + ".\n"));
      } else {
        port := target.value;
        r := session.RemovePortAsWritten(target.value);
      }
    }

    /**
     * `deleteAttr`: the node is looked up by name, else through a port the
     * query matches; `ValueError` when neither finds one. The rest is
     * `DeleteAttrOf`.
     */
    method DeleteAttr(query: string, attribute: Option<string>) returns (r: Outcome, ghost owner: Node?, ghost port: Port?)
      requires session.Valid()
      modifies session`connections, session`ports
      ensures session.Valid() && session.ports <= old(session.ports) && session.connections <= old(session.connections)
      ensures session.portsByNode == old(session.portsByNode)
      ensures owner == null <==>
        (forall n :: n in old(session.nodes) ==> n.name != query) && old(NoPortMatches(session.ports, session.Universe, query))
      ensures owner == null ==> r == Fail(ValueError("No object matches name: " + query)) && port == null
      ensures owner != null ==>
        owner in session.Universe && ((owner in session.nodes && owner.name == query) || forall n :: n in session.nodes ==> n.name != query)
      ensures port == null ==>
        r.Fail? && session.ports == old(session.ports) && session.connections == old(session.connections)
      ensures port != null ==> owner != null
      ensures owner != null && attribute.None? ==> (port != null <==> !old(NoPortMatches(session.ports, session.Universe, query)))
      ensures owner != null && attribute.Some? ==>
        (port != null <==> old(exists p :: p in session.PortsOf(owner) && AnswersTo(p, attribute.value)))
      ensures port != null && attribute.None? ==> port in old(session.ports)
      ensures port != null && attribute.Some? ==> port in old(session.PortsOf(owner)) && AnswersTo(port, attribute.value)
      ensures port != null && r.Fail? ==> session.ports == old(session.ports) && RemovalError(r.error, port, old(session.connections))
      ensures var C' := session.connections; port != null && old(session.UniqueConnectionKeys()) ==>
        old(C' == session.connections - Touching(session.connections, port)
            && (r.Fail? <==> !PortAt(session.ports, session.Universe, PortDagPath(port, session.Universe))))
      ensures port != null && port in old(session.ports) && old(session.UniquePortKeys()) && old(session.UniqueConnectionKeys()) ==>
        r == Pass && session.ports == old(session.ports) - {port}
    {
      port, owner := null, null;
      var found, via := DeleteAttrOwner(query);
      if found.None? {
        r := Fail(ValueError("No object matches name: " + query));
      } else {
        owner := found.value;
        r, port := DeleteAttrOf(query, attribute, found.value);
      }
    }

    /**
     * The node set of `listAttr`: every node some object matches. Each
     * lookup is a strict `get_nodes_by_match`, whose list holds exactly the
     * matching nodes, so the first object matching nothing raises.
     */
    method ListAttrNodes(objects: seq<string>) returns (r: Result<set<Node>>, ghost failedAt: nat)
      requires session.Valid()
      ensures r.Err? <==> !AllMatch(session.nodes, session.Universe, objects)
      ensures r.Err? ==>
        failedAt < |objects| && AllMatch(session.nodes, session.Universe, objects[..failedAt])
        && MatchingNodes(session.nodes, session.Universe, Some(objects[failedAt])) == {}
        && r.error == ValueError("No object matches name: " + objects[failedAt])
      ensures r.Ok? ==> r.value == Flatten(Matches(session.nodes, session.Universe, objects))
    {
      ghost var Ms := Matches(session.nodes, session.Universe, objects);
      failedAt := 0;
      var N := {};
      var i := 0;
      while i < |objects|
        invariant i <= |objects| && N == Flatten(Ms[..i])
        invariant forall j :: 0 <= j < i ==> Ms[j] != {}
      {
        var found := MatchingNodes(session.nodes, session.Universe, Some(objects[i]));
        if found == {} {
          AllMatchUpTo(session.nodes, session.Universe, objects, Ms, i);
          return Err(ValueError("No object matches name: " + objects[i])), i;
        }
        assert Ms[..i + 1][..i] == Ms[..i];
        N := N + found;
        i := i + 1;
      }
      assert Ms[..i] == Ms;
      AllMatchUpTo(session.nodes, session.Universe, objects, Ms, i);
      assert objects[..i] == objects;
      return Ok(N), failedAt;
    }

    /**
     * `listAttr`: the names of the ports recorded for every node some
     * object matches, only user-defined ones when asked, in no set order.
     */
    method ListAttr(objects: seq<string>, userDefined: bool) returns (r: Result<seq<string>>, ghost failedAt: nat, ghost listed: seq<Port>)
      requires session.Valid()
      ensures r.Err? <==> !AllMatch(session.nodes, session.Universe, objects)
      ensures r.Err? ==>
        failedAt < |objects| && AllMatch(session.nodes, session.Universe, objects[..failedAt])
        && MatchingNodes(session.nodes, session.Universe, Some(objects[failedAt])) == {}
        && r.error == ValueError("No object matches name: " + objects[failedAt])
      ensures r.Ok? ==>
        ListsPortsOf(listed, session.portsByNode, Flatten(Matches(session.nodes, session.Universe, objects)), userDefined)
        && |r.value| == |listed| && forall i :: 0 <= i < |listed| ==> r.value[i] == listed[i].name
    {
      listed := [];
      var N;
      N, failedAt := ListAttrNodes(objects);
      if N.Err? {
        r := Err(N.error);
      } else {
        var ports, names := ListPorts(session.portsByNode, N.value, userDefined);
        listed := ports;
        r := Ok(names);
      }
    }

    /**
     * `ls`: the nodes the first object matches (all of them with no
     * object), kept when selected if asked and of the given type if one is,
     * in ascending dag-path order; each as its dag path with `long`, else
     * as its display form.
     */
    method Ls(objects: seq<string>, long: bool, selection: bool, nodeType: Option<string>) returns (r: seq<string>, ghost listed: seq<Node>)
      requires session.Valid()
      ensures multiset(listed) == multiset(LsNodes(session.nodes, session.Universe, FirstPattern(objects), session.selection, selection, nodeType))
      ensures (forall i :: 0 <= i < |listed| ==> listed[i] in session.nodes) && SortedByPath(listed, session.Universe)
      ensures |r| == |listed|
      ensures forall i :: 0 <= i < |listed| ==>
        r[i] == if long then DagPath(listed[i], session.Universe) else DisplayForm(session.nodes, session.Universe, listed[i])
    {
      session.ValidRooted();
      var S := LsNodes(session.nodes, session.Universe, FirstPattern(objects), session.selection, selection, nodeType);
      var sorted := SortNodes(S, session.Universe);
      listed := sorted;
      r := ShowNodes(sorted, long);
    }

    /** The `_get` of `ls` over the sorted nodes: dag paths with `long`, else display forms. */
    method ShowNodes(sorted: seq<Node>, long: bool) returns (r: seq<string>)
      requires session.Valid() && forall i :: 0 <= i < |sorted| ==> sorted[i] in session.nodes
      ensures |r| == |sorted|
      ensures forall i :: 0 <= i < |sorted| ==>
        r[i] == if long then DagPath(sorted[i], session.Universe) else DisplayForm(session.nodes, session.Universe, sorted[i])
    {
      session.ValidRooted();
      r := [];
      var i := 0;
      while i < |sorted|
        invariant i <= |sorted| && |r| == i
        invariant forall j :: 0 <= j < i ==>
          r[j] == if long then DagPath(sorted[j], session.Universe) else DisplayForm(session.nodes, session.Universe, sorted[j])
      {
        var shown;
        if long {
          shown := DagPath(sorted[i], session.Universe);
        } else {
          shown := session.MelObject(sorted[i]);
        }
        r := r + [shown];
        i := i + 1;
      }
    }

    /** The list comprehension of `parent`: `get_node_by_name` of each name, `None` where no node has it. */
    method NodesByName(names: seq<string>) returns (found: seq<Option<Node>>)
      requires session.Valid()
      ensures |found| == |names|
      ensures forall i :: 0 <= i < |names| ==> (found[i].None? <==> forall n :: n in session.nodes ==> n.name != names[i])
      ensures forall i :: 0 <= i < |names| && found[i].Some? ==> found[i].value in session.nodes && found[i].value.name == names[i]
    {
      found := [];
      var i := 0;
      while i < |names|
        invariant i <= |names| && |found| == i
        invariant forall j :: 0 <= j < i ==> (found[j].None? <==> forall n :: n in session.nodes ==> n.name != names[j])
        invariant forall j :: 0 <= j < i && found[j].Some? ==> found[j].value in session.nodes && found[j].value.name == names[j]
      {
        var node := session.GetNodeByName(names[i]);
        found := found + [node];
        i := i + 1;
      }
    }

    /** `child.set_parent(target)` for a node of the scene: only the child's parent changes. */
    method MoveChild(child: Node, target: Node?)
      requires session.Valid() && child in session.nodes
      requires target != null ==> target in session.Universe && child !in Chain(target, session.Universe)
      modifies session.Universe`parent, session.Universe`children
      ensures session.Valid() && child.parent == target
      ensures target != null ==> Chain(target, session.Universe) == old(Chain(target, session.Universe))
      ensures forall n :: n in session.Universe && n != child ==> n.parent == old(n.parent)
    {
      assert ChainIn(child, session.Universe);
      assert child.parent != null ==> ChainIn(child.parent, session.Universe - {child});
      session.Reparent(child, target);
    }

    /**
     * The loop of `parent`: each child in turn moves under `target`, or to
     * the root; a child no node was found for stops it with the
     * `AttributeError` of `None.set_parent`.
     */
    method MoveUnder(children: seq<string>, found: seq<Option<Node>>, target: Node?) returns (r: Outcome, ghost moved: seq<Node>)
      requires session.Valid() && |found| == |children|
      requires forall i :: 0 <= i < |found| ==> (found[i].None? <==> forall n :: n in session.nodes ==> n.name != children[i])
      requires forall i :: 0 <= i < |found| && found[i].Some? ==> found[i].value in session.nodes && found[i].value.name == children[i]
      requires target != null ==>
        target in session.Universe && forall i :: 0 <= i < |found| && found[i].Some? ==> found[i].value !in Chain(target, session.Universe)
      modifies session.Universe`parent, session.Universe`children
      ensures session.Valid() && |moved| <= |children|
      ensures forall i :: 0 <= i < |moved| ==>
        moved[i] in session.nodes && moved[i].name == children[i] && moved[i].parent == target
      ensures r.Pass? ==> |moved| == |children|
      ensures r.Fail? ==>
        |moved| < |children| && r.error == AttributeError("'NoneType' object has no attribute 'set_parent'")
        && forall n :: n in session.nodes ==> n.name != children[|moved|]
      ensures target != null ==> Chain(target, session.Universe) == old(Chain(target, session.Universe))
      ensures target != null ==> forall i :: 0 <= i < |moved| ==>
        DagPath(moved[i], session.Universe) == DagPath(target, session.Universe) + "|" + moved[i].name
    {
      ghost var U := session.Universe;
      ghost var chain := if target != null then Chain(target, U) else [];
      moved := [];
      var i := 0;
      while i < |found| && found[i].Some?
        invariant i <= |found| && |moved| == i && session.Valid()
        invariant target != null ==> Chain(target, U) == chain
        invariant forall j :: 0 <= j < i ==> found[j].Some? && moved[j] == found[j].value && moved[j].parent == target
      {
        var child := found[i].value;
        MoveChild(child, target);
        moved := moved + [child];
        i := i + 1;
      }
      if target != null {
        ChildPaths(moved, target, U);
      }
      if i < |found| {
        r := Fail(AttributeError("'NoneType' object has no attribute 'set_parent'"));
      } else {
        r := Pass;
      }
    }

    /**
     * `parent`: with `world` every object moves to the root; otherwise the
     * last object names the new parent (the root when no node has that
     * name) and the others move under it, in order.
     */
    method Parent(objects: seq<string>, world: bool) returns (r: Outcome, ghost target: Node?, ghost moved: seq<Node>)
      requires session.Valid() && ParentingAcyclic(session.nodes, session.Universe, objects, world)
      modifies session.Universe`parent, session.Universe`children
      ensures session.Valid()
      ensures !world && |objects| == 0 ==>
        r == Fail(IndexError("tuple index out of range")) && moved == []
        && forall n :: n in session.Universe ==> n.parent == old(n.parent)
      ensures world ==> target == null
      ensures target != null ==> target in session.nodes
      ensures !world && |objects| > 0 ==>
        (target == null <==> forall n :: n in session.nodes ==> n.name != objects[|objects| - 1])
        && (target != null ==> target in session.nodes && target.name == objects[|objects| - 1])
      ensures |moved| <= |ParentChildren(objects, world)|
      ensures forall i :: 0 <= i < |moved| ==>
        moved[i] in session.nodes && moved[i].name == ParentChildren(objects, world)[i] && moved[i].parent == target
      ensures r.Pass? ==> |moved| == |ParentChildren(objects, world)|
      ensures r.Fail? && (world || |objects| > 0) ==>
        |moved| < |ParentChildren(objects, world)| && r.error == AttributeError("'NoneType' object has no attribute 'set_parent'")
        && forall n :: n in session.nodes ==> n.name != ParentChildren(objects, world)[|moved|]
      ensures target != null ==> Chain(target, session.Universe) == old(Chain(target, session.Universe))
      ensures target != null ==> forall i :: 0 <= i < |moved| ==>
        DagPath(moved[i], session.Universe) == DagPath(target, session.Universe) + "|" + moved[i].name
    {
      target, moved := null, [];
      if !world && |objects| == 0 {
        r := Fail(IndexError("tuple index out of range"));
      } else {
        var children := ParentChildren(objects, world);
        var found := NodesByName(children);
        var parent: Option<Node> := None;
        if !world {
          parent := session.GetNodeByName(objects[|objects| - 1]);
        }
        var under: Node? := if parent.Some? then parent.value else null;
        target := under;
        r, moved := MoveUnder(children, found, under);
      }
    }

    /**
     * The part of `createNode` after the parent is known: the session
     * creates the node, whose display form is the answer and, unless
     * `skipSelect`, the new selection.
     */
    method CreateNodeUnder(nodeType: string, name: Option<string>, parent: Node?, skipSelect: bool)
      returns (r: Result<string>, ghost created: Node?)
      requires session.Valid() && (parent != null ==> parent in session.Universe)
      modifies session`nodes, session`Universe, session`ports, session`portsByNode, session`selection
      modifies Present(parent, null)`children
      ensures session.Valid() && old(session.nodes) <= session.nodes && old(session.ports) <= session.ports
      ensures NoLegalCharacters(name) ==>
        r == Err(RuntimeError("New name has no legal characters.\n"))
        && session.nodes == old(session.nodes) && session.ports == old(session.ports)
      ensures (!NoLegalCharacters(name) && session.AppliesCleanly(nodeType)
               && (nodeType in ShapeClass ==> session.AppliesCleanly("transform"))) ==> r.Ok?
      ensures r.Ok? ==>
        created != null && created in session.nodes && created.nodeType == nodeType
        && created.name == old(ResolvedName(session.nodes, session.Universe, nodeType, ConformedName(name), parent))
        && r.value == DisplayForm(session.nodes, session.Universe, created)
      ensures r.Ok? && nodeType !in ShapeClass ==> created.parent == parent
      ensures r.Err? && !NoLegalCharacters(name) ==> r.error.AttributeError?
      ensures r.Ok? ==> PortsFromData(session.PortsOf(created), session.SchemaData(nodeType))
      ensures r.Ok? && nodeType in ShapeClass ==>
        created.parent != null && PortsFromData(session.PortsOf(created.parent), session.SchemaData("transform"))
      ensures r.Ok? && !skipSelect ==> Lists(session.selection, Named(session.nodes, [r.value]))
      ensures r.Err? || skipSelect ==> session.selection == old(session.selection)
    {
      created := null;
      var node := session.CreateNode(nodeType, name, parent);
      if node.Err? {
        r := Err(node.error);
      } else {
        created := node.value;
        r := Ok(DisplayForm(session.nodes, session.Universe, node.value));
        if !skipSelect {
          SelectCreated(r.value, created, nodeType);
        }
      }
    }

    /** `select` of a node just created, whose ports, and its shape parent's, it leaves as they were made. */
    method SelectCreated(shown: string, ghost created: Node, ghost nodeType: string)
      requires session.Valid()
      requires PortsFromData(session.PortsOf(created), session.SchemaData(nodeType))
      requires nodeType in ShapeClass ==>
        created.parent != null && PortsFromData(session.PortsOf(created.parent), session.SchemaData("transform"))
      modifies session`selection
      ensures session.Valid() && Lists(session.selection, Named(session.nodes, [shown]))
      ensures PortsFromData(session.PortsOf(created), session.SchemaData(nodeType))
      ensures nodeType in ShapeClass ==>
        created.parent != null && PortsFromData(session.PortsOf(created.parent), session.SchemaData("transform"))
    {
      Select([shown]);
    }

    /**
     * `createNode`: the parent, when one is given, is the first node by dag
     * path that matches it, looked up strictly; the node is created as the
     * session's `create_node` does and its display form is returned; unless
     * `skipSelect`, `select` then picks the nodes named by that display form.
     */
    method CreateNode(nodeType: string, name: Option<string>, parent: Option<string>, skipSelect: bool)
      returns (r: Result<string>, ghost under: Node?, ghost created: Node?)
      requires session.Valid()
      modifies session`nodes, session`Universe, session`ports, session`portsByNode, session`selection, session.Universe`children
      ensures session.Valid() && old(session.nodes) <= session.nodes && old(session.ports) <= session.ports
      ensures Given(parent) && old(MatchingNodes(session.nodes, session.Universe, parent)) == {} ==>
        r == Err(ValueError("No object matches name: " + parent.value))
        && session.nodes == old(session.nodes) && session.ports == old(session.ports)
      ensures !Given(parent) ==> under == null
      ensures Given(parent) && old(MatchingNodes(session.nodes, session.Universe, parent)) != {} ==> under != null
      ensures under != null ==>
        under in old(session.nodes) && Given(parent)
        && old(under in MatchingNodes(session.nodes, session.Universe, parent)
               && forall m :: m in MatchingNodes(session.nodes, session.Universe, parent) ==>
                    LexLe(DagPath(under, session.Universe), DagPath(m, session.Universe)))
      ensures (!Given(parent) || under != null) && NoLegalCharacters(name) ==>
        r == Err(RuntimeError("New name has no legal characters.\n"))
      ensures ((!Given(parent) || old(MatchingNodes(session.nodes, session.Universe, parent)) != {})
               && !NoLegalCharacters(name) && session.AppliesCleanly(nodeType)
               && (nodeType in ShapeClass ==> session.AppliesCleanly("transform"))) ==> r.Ok?
      ensures r.Ok? ==>
        created != null && created in session.nodes && created.nodeType == nodeType
        && created.name == old(ResolvedName(session.nodes, session.Universe, nodeType, ConformedName(name), under))
        && r.value == DisplayForm(session.nodes, session.Universe, created)
      ensures r.Ok? && nodeType !in ShapeClass ==> created.parent == under
      ensures r.Err? && (!Given(parent) || under != null) && !NoLegalCharacters(name) ==> r.error.AttributeError?
      ensures r.Ok? ==> PortsFromData(session.PortsOf(created), session.SchemaData(nodeType))
      ensures r.Ok? && nodeType in ShapeClass ==>
        created.parent != null && PortsFromData(session.PortsOf(created.parent), session.SchemaData("transform"))
      ensures r.Ok? && !skipSelect ==> Lists(session.selection, Named(session.nodes, [r.value]))
      ensures r.Err? || skipSelect ==> session.selection == old(session.selection)
    {
      under, created := null, null;
      var found: Result<Option<Node>> := Ok(None);
      if Given(parent) {
        found := session.GetNodeByMatch(parent, true);
      }
      if found.Err? {
        r := Err(found.error);
      } else {
        var parentNode: Node? := if found.value.Some? then found.value.value else null;
        under := parentNode;
        r, created := CreateNodeUnder(nodeType, name, parentNode, skipSelect);
      }
    }
  }
}
