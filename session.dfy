/**
 * The scene session: the sets of nodes, ports and connections of one mocked
 * scene, the ports of each node, the selection and an optional schema. Every
 * scene operation goes through it. Lookups that find nothing answer `None`.
 *
 * The ghost `Universe` holds every node the session ever created; parents are
 * always taken from it, so the dag path of any node it holds is well defined.
 */
module Sessions {
  import opened Errors
  import opened PyStrings
  import opened Constants
  import opened Naming
  import opened Nodes
  import opened Ports
  import opened Connections
  import opened Schemas
  import opened PySets
  import opened Scene

  /** The name `create_node` works with: a non-empty given name is conformed first. */
  function ConformedName(name: Option<string>): Option<string>
  {
    if name.Some? then Some(ConformNodeName(name.value)) else None
  }

  /** The given name loses every character to conforming (an empty name included). */
  predicate NoLegalCharacters(name: Option<string>)
  {
    ConformedName(name) == Some("")
  }

  /**
   * A node created from the given name `key` is called either the conformed
   * key or the key's stem without trailing digits followed by a number.
   */
  ghost predicate NamedAfter(name: string, key: string)
  {
    var c := ConformNodeName(key);
    name == c || exists k: nat :: name == Candidate(RStripDigits(c), k)
  }

  /** The name `create_node` resolves from a given name is named after it. */
  lemma ResolvedNamedAfter(nodes: set<Node>, U: set<Node>, nodeType: string, key: string, parent: Node?)
    requires Rooted(nodes, U) && (parent != null ==> ChainIn(parent, U))
    ensures NamedAfter(ResolvedName(nodes, U, nodeType, ConformedName(Some(key)), parent), key)
  {
    var c := ConformNodeName(key);
    var r := ResolvedName(nodes, U, nodeType, Some(c), parent);
    if r != c {
      var base := RStripDigits(c);
      assert r == Candidate(base, LeastFree(nodes, U, base, parent));
    }
  }

  /** `port` answers to `name` by its long, short or nice name. */
  predicate AnswersTo(port: Port, name: string)
  {
    port.name == name || port.shortName == name || port.niceName == name
  }

  /** The nodes of `s` appear in ascending dag-path order. */
  ghost predicate SortedByPath(s: seq<Node>, U: set<Node>)
    reads U`parent
    requires forall i :: 0 <= i < |s| ==> ChainIn(s[i], U)
  {
    forall i, j :: 0 <= i < j < |s| ==> LexLe(DagPath(s[i], U), DagPath(s[j], U))
  }

  /** The `str.format` rendering of an optional pattern. */
  function PatternText(pattern: Option<string>): string
  {
    if pattern.Some? then pattern.value else "None"
  }

  /** `sorted(nodes)`: nodes order by dag path (`__lt__` compares dag paths). */
  method SortNodes(S: set<Node>, ghost U: set<Node>) returns (out: seq<Node>)
    requires Rooted(S, U)
    ensures multiset(out) == multiset(S)
    ensures (forall i :: 0 <= i < |out| ==> out[i] in S) && SortedByPath(out, U)
  {
    var key := map n | n in S :: DagPath(n, U);
    out := [];
    var rest := S;
    while rest != {}
      invariant rest <= S
      invariant multiset(out) == multiset(S - rest)
      invariant forall i :: 0 <= i < |out| ==> out[i] in key
      invariant SortedBy(out, key)
      decreases rest
    {
      var n :| n in rest;
      InsertKeepsSorted(out, n, key);
      out := InsertSorted(out, n, key);
      assert S - (rest - {n}) == (S - rest) + {n};
      rest := rest - {n};
    }
    assert S - rest == S;
  }

  /** The connections that use `port` at either end. */
  function Touching(conns: set<Connection>, port: Port): (r: set<Connection>)
    ensures r <= conns
  {
    set c | c in conns && (c.src == port || c.dst == port)
  }

  /** The connections that use a port of `P` at either end. */
  function TouchingAny(conns: set<Connection>, P: set<Port>): (r: set<Connection>)
    ensures r <= conns
  {
    set c | c in conns && (c.src in P || c.dst in P)
  }

  /** The ports of `S` that sit on `node`. */
  function PortsOn(S: set<Port>, node: Node): (r: set<Port>)
    ensures r <= S
  {
    set p | p in S && p.node == node
  }

  /**
   * A lookup of `path` in `S` finds a port: one held under that hash whose
   * dag path is still `path`. A port created at `path` would equal it.
   */
  ghost predicate PortAt(S: set<Port>, U: set<Node>, path: string)
    reads U`parent
    requires PortsRooted(S, U)
  {
    exists q :: q in S && q.hashKey == path && PortDagPath(q, U) == path
  }

  /** `S'` is `S` less one port that a lookup of `path` finds. */
  ghost predicate PortTakenOut(S: set<Port>, path: string, U: set<Node>, S': set<Port>)
    reads U`parent
    requires PortsRooted(S, U)
  {
    exists q :: q in S && q.hashKey == path && PortDagPath(q, U) == path && S' == S - {q}
  }

  /** Lookups of a port in a set of ports are the set lookups of `PySets` under stored and current keys. */
  lemma PortLookup(T: set<Port>, S: set<Port>, p: Port, U: set<Node>)
    requires T <= S + {p} && PortsRooted(S + {p}, U)
    ensures var stored, key := StoredPortKeys(S + {p}), PortKeys(S + {p}, U);
      (Finds(T, p, stored, key) <==> PortAt(T, U, PortDagPath(p, U)))
      && (forall r :: TakesOut(T, p, stored, key, r) <==> PortTakenOut(T, PortDagPath(p, U), U, r))
      && (UniquePorts(T, U) ==> InStep(T, stored, key) && UniqueKeys(T, key))
  {
  }

  /**
   * `S'` is what `S.add(p)` leaves for a port held under its dag path: `S`
   * when a lookup of `p` finds a port there, otherwise `S` and `p`.
   */
  ghost predicate PortAdded(S: set<Port>, p: Port, U: set<Node>, S': set<Port>)
    reads U`parent
    requires PortsRooted(S + {p}, U)
  {
    if PortAt(S, U, PortDagPath(p, U)) then S' == S else S' == S + {p}
  }

  /**
   * `S.add(p)` on a set of ports whose dag paths are `key`, for a port held
   * under the hash it was created with.
   */
  function AddedPorts(S: set<Port>, p: Port, key: map<Port, string>): (r: set<Port>)
    requires S <= key.Keys
    ensures S <= r <= S + {p}
  {
    Add(S, p, StoredPortKeys(S + {p}), key[p := p.hashKey])
  }

  /**
   * After `S.add(p)` for a port held under its dag path, a lookup of `p`
   * finds a port; the set grows exactly when none answered before, and dag
   * paths stay unique.
   */
  lemma AddPortKeyed(S: set<Port>, p: Port, U: set<Node>)
    requires PortsRooted(S + {p}, U) && p.hashKey == PortDagPath(p, U)
    ensures var r := AddedPorts(S, p, PortKeys(S, U)); PortAdded(S, p, U, r) && PortAt(r, U, PortDagPath(p, U))
    ensures UniquePorts(S, U) ==> UniquePorts(AddedPorts(S, p, PortKeys(S, U)), U)
  {
    var stored, key := StoredPortKeys(S + {p}), PortKeys(S + {p}, U);
    assert PortKeys(S, U)[p := p.hashKey] == key;
    var r := AddedPorts(S, p, PortKeys(S, U));
    PortLookup(S, S, p, U);
    PortLookup(r, S, p, U);
    if UniquePorts(S, U) {
      AddKeepsUnique(S, p, stored, key);
    }
  }

  /** The dag path of each port on `node` is the node's path, a dot and the port's name. */
  lemma EntryKeys(S: set<Port>, node: Node, U: set<Node>)
    requires ChainIn(node, U) && forall q :: q in S ==> q.node == node
    ensures PortsRooted(S, U) && forall q :: q in S ==> PortKeys(S, U)[q] == DagPath(node, U) + "." + q.name
  {
  }

  /**
   * When every port of `S` is named after a common `prefix`, `S.add(p)`
   * holds a port with `p`'s name: `p` itself or the one found in its place.
   */
  lemma AddedPortNamed(S: set<Port>, p: Port, key: map<Port, string>, prefix: string)
    requires S <= key.Keys && forall q :: q in S ==> key[q] == prefix + q.name
    requires p.hashKey == prefix + p.name
    ensures exists q :: q in AddedPorts(S, p, key) && q.name == p.name
  {
    var k := key[p := p.hashKey];
    if AddedPorts(S, p, key) == S {
      var q :| q in S && StoredPortKeys(S + {p})[q] == k[p] && k[q] == k[p];
      assert prefix + q.name == prefix + p.name;
      assert q.name == (prefix + q.name)[|prefix|..];
    } else {
      assert p in AddedPorts(S, p, key);
    }
  }

  /**
   * When every port of `S` is named after a common `prefix` and none has
   * `p`'s name, `S.add(p)` takes `p` in.
   */
  lemma AddedPortFresh(S: set<Port>, p: Port, key: map<Port, string>, prefix: string)
    requires S <= key.Keys && forall q :: q in S ==> key[q] == prefix + q.name && q.name != p.name
    requires p.hashKey == prefix + p.name
    ensures AddedPorts(S, p, key) == S + {p}
  {
    var k := key[p := p.hashKey];
    forall q | q in S
      ensures k[q] != k[p]
    {
      assert k[q][|prefix|..] == q.name;
      assert k[p][|prefix|..] == p.name;
    }
  }

  /**
   * The ports a node type's data gives a node: for each entry, a port made
   * from it as not user-defined; no other port, and no two of one name.
   */
  ghost predicate PortsFromData(entry: set<Port>, data: PortTable)
    reads entry
  {
    (forall k :: k in data ==> exists p :: p in entry && MadeFrom(p, k, data[k].(userDefined := false)))
    && (forall p :: p in entry ==> p.name in data && MadeFrom(p, p.name, data[p.name].(userDefined := false)))
    && (forall p, q :: p in entry && q in entry && p.name == q.name ==> p == q)
  }

  /** `ports.remove(p)`: the port a lookup of `p` finds leaves; `KeyError` when there is none. */
  method RemovePortFrom(S: set<Port>, p: Port, ghost U: set<Node>) returns (r: Result<set<Port>>)
    requires PortsRooted(S + {p}, U)
    ensures r.Err? <==> !PortAt(S, U, PortDagPath(p, U))
    ensures r.Err? ==> r.error == KeyError(PortRepr(p))
    ensures r.Ok? ==> PortTakenOut(S, PortDagPath(p, U), U, r.value)
    ensures UniquePorts(S, U) && p in S ==> r == Ok(S - {p})
    ensures UniquePorts(S, U) && r.Ok? ==> UniquePorts(r.value, U) && !PortAt(r.value, U, PortDagPath(p, U))
  {
    var stored, key := StoredPortKeys(S + {p}), PortKeys(S + {p}, U);
    r := Remove(S, p, stored, key, PortRepr(p));
    PortLookup(S, S, p, U);
    if UniquePorts(S, U) && r.Ok? {
      if p in S {
        TakesOutMember(S, p, stored, key, r.value);
      }
      TakesOutLeavesNone(S, p, stored, key, r.value);
      PortLookup(r.value, S, p, U);
      UniquePortsShrink(r.value, S, U);
    }
  }

  /** `DEFAULT_PREFIX_BY_SHAPE_TYPE.get(t, t)` starts with a lower-case letter for every shape type. */
  lemma ShapePrefixStartsWithLetter(nodeType: string)
    requires nodeType in ShapeClass
    ensures |DefaultPrefix(nodeType)| > 0 && 'a' <= DefaultPrefix(nodeType)[0] <= 'z'
  {
  }

  /**
   * Every connection of `S` is held under its key of now, and no two share
   * a key: the connection set behaves as a set of keys.
   */
  ghost predicate UniqueConns(S: set<Connection>, U: set<Node>)
    reads U`parent
  {
    ConnectionsRooted(S, U)
    && (forall c :: c in S ==> c.hashKey == ConnectionKey(c, U))
    && forall a, b :: a in S && b in S && ConnectionKey(a, U) == ConnectionKey(b, U) ==> a == b
  }

  /** Every port of `S` is held under its dag path of now, and no two share a dag path. */
  ghost predicate UniquePorts(S: set<Port>, U: set<Node>)
    reads U`parent
  {
    PortsRooted(S, U)
    && (forall q :: q in S ==> q.hashKey == PortDagPath(q, U))
    && forall a, b :: a in S && b in S && PortDagPath(a, U) == PortDagPath(b, U) ==> a == b
  }

  /** With unique keys, a connection is the only one between its two ports. */
  lemma OnlyConnectionBetween(S: set<Connection>, c: Connection, U: set<Node>)
    requires UniqueConns(S, U) && c in S
    ensures !HasConnection(S - {c}, c.src, c.dst)
  {
    forall d | d in S && d.src == c.src && d.dst == c.dst
      ensures d == c
    {
      assert ConnectionKey(d, U) == ConnectionKey(c, U);
    }
  }

  /** Dropping connections keeps their keys unique. */
  lemma UniqueConnsShrink(S: set<Connection>, T: set<Connection>, U: set<Node>)
    requires S <= T && UniqueConns(T, U)
    ensures UniqueConns(S, U)
  {
    UniqueKeysShrink(S, T, ConnectionKeys(T, U), ConnectionKeys(S, U));
  }

  /** Dropping ports keeps their dag paths unique. */
  lemma UniquePortsShrink(S: set<Port>, T: set<Port>, U: set<Node>)
    requires S <= T && UniquePorts(T, U)
    ensures UniquePorts(S, U)
  {
    UniqueKeysShrink(S, T, PortKeys(T, U), PortKeys(S, U));
  }

  /** Lookups of a connection are the set lookups of `PySets` under stored and current keys. */
  lemma ConnectionLookup(T: set<Connection>, S: set<Connection>, c: Connection, U: set<Node>)
    requires T <= S + {c} && ConnectionsRooted(S + {c}, U)
    ensures var stored, key := StoredConnectionKeys(S + {c}), ConnectionKeys(S + {c}, U);
      (Finds(T, c, stored, key) <==> KeyedIn(T, c, U))
      && (forall r :: TakesOut(T, c, stored, key, r) <==> ConnectionTakenOut(T, c, U, r))
      && (UniqueConns(T, U) ==> InStep(T, stored, key) && UniqueKeys(T, key))
  {
  }

  /**
   * `S'` is what `S.add(c)` leaves for a connection held under its key of
   * now: `S` when a lookup of `c` finds a connection there, otherwise `S`
   * and `c`.
   */
  ghost predicate ConnectionAdded(S: set<Connection>, c: Connection, U: set<Node>, S': set<Connection>)
    reads U`parent
    requires ConnectionsRooted(S + {c}, U)
  {
    if KeyedIn(S, c, U) then S' == S else S' == S + {c}
  }

  /** `connections.add(c)` for a connection held under its key of now. */
  function AddConnection(S: set<Connection>, c: Connection, ghost U: set<Node>): (r: set<Connection>)
    reads U`parent
    requires ConnectionsRooted(S + {c}, U) && c.hashKey == ConnectionKey(c, U)
    ensures S <= r <= S + {c}
  {
    Add(S, c, StoredConnectionKeys(S + {c}), ConnectionKeys(S + {c}, U))
  }

  /**
   * After `connections.add(c)` a lookup of `c` finds a connection; the set
   * grows exactly when none answered before, and keys stay unique.
   */
  lemma AddConnectionKeyed(S: set<Connection>, c: Connection, U: set<Node>)
    requires ConnectionsRooted(S + {c}, U) && c.hashKey == ConnectionKey(c, U)
    ensures var r := AddConnection(S, c, U); ConnectionAdded(S, c, U, r) && KeyedIn(r, c, U)
    ensures UniqueConns(S, U) ==> UniqueConns(AddConnection(S, c, U), U)
  {
    var stored, key := StoredConnectionKeys(S + {c}), ConnectionKeys(S + {c}, U);
    var r := AddConnection(S, c, U);
    ConnectionLookup(S, S, c, U);
    ConnectionLookup(r, S, c, U);
    if UniqueConns(S, U) {
      AddKeepsUnique(S, c, stored, key);
    }
  }

  /** While no node of `U` moves, the ports of `S` keep their dag paths. */
  twostate lemma PortKeysStay(new S: set<Port>, new U: set<Node>)
    requires old(allocated(S) && allocated(U))
    requires forall n :: n in U ==> old(n.parent) == n.parent
    requires old(PortsRooted(S, U))
    ensures PortsRooted(S, U) && old(PortKeys(S, U)) == PortKeys(S, U)
  {
  }

  /** The `RuntimeError` `create_connection` raises for two ports whose types cannot be connected. */
  function CannotConnectError(src: Port, dst: Port, ghost U: set<Node>): Error
    reads U`parent
    requires ChainIn(src.node, U) && ChainIn(dst.node, U)
  {
    RuntimeError("The attribute " + Repr(PortDagPath(src, U)) + " cannot be connected to " + Repr(PortDagPath(dst, U)) + ".")
  }

  /** While no node of `U` moves, adding a new connection between two ports gives the same set. */
  twostate lemma AddConnectionStays(new S: set<Connection>, new src: Port, new dst: Port, new U: set<Node>)
    requires old(allocated(S) && allocated(src) && allocated(dst) && allocated(U))
    requires forall n :: n in U ==> old(n.parent) == n.parent
    requires old(ConnectionsRooted(S, U) && ChainIn(src.node, U) && ChainIn(dst.node, U))
    ensures ConnectionsRooted(S, U) && ChainIn(src.node, U) && ChainIn(dst.node, U)
    ensures old(NewConnection(src, dst, U)) == NewConnection(src, dst, U)
    ensures old(CannotConnectError(src, dst, U)) == CannotConnectError(src, dst, U)
    ensures old(AddConnection(S, NewConnection(src, dst, U), U)) == AddConnection(S, NewConnection(src, dst, U), U)
    ensures old(KeyedIn(AddConnection(S, NewConnection(src, dst, U), U), NewConnection(src, dst, U), U))
            == KeyedIn(AddConnection(S, NewConnection(src, dst, U), U), NewConnection(src, dst, U), U)
  {
  }

  /** `connections.remove(c)`: the connection a lookup of `c` finds leaves; `KeyError` when there is none. */
  method RemoveConnectionFrom(S: set<Connection>, c: Connection, ghost U: set<Node>) returns (r: Result<set<Connection>>)
    requires ConnectionsRooted(S + {c}, U)
    ensures r.Err? <==> !KeyedIn(S, c, U)
    ensures r.Err? ==> r.error == KeyError(ConnectionRepr(c))
    ensures r.Ok? ==> ConnectionTakenOut(S, c, U, r.value)
    ensures UniqueConns(S, U) && c in S ==> r == Ok(S - {c})
    ensures UniqueConns(S, U) && r.Ok? ==> UniqueConns(r.value, U) && !KeyedIn(r.value, c, U)
  {
    var stored, key := StoredConnectionKeys(S + {c}), ConnectionKeys(S + {c}, U);
    r := Remove(S, c, stored, key, ConnectionRepr(c));
    ConnectionLookup(S, S, c, U);
    if UniqueConns(S, U) && r.Ok? {
      if c in S {
        TakesOutMember(S, c, stored, key, r.value);
      }
      TakesOutLeavesNone(S, c, stored, key, r.value);
      ConnectionLookup(r.value, S, c, U);
      UniqueConnsShrink(r.value, S, U);
    }
  }

  /** The entry of a ports-by-node table for `n`; a `defaultdict(set)` answers an empty set. */
  function Entry(table: map<Node, set<Port>>, n: Node): (r: set<Port>)
    ensures n in table ==> r == table[n]
    ensures n !in table ==> r == {}
  {
    if n in table then table[n] else {}
  }

  /** `table` answers as `table0` does for every node but `node`. */
  ghost predicate OnlyEntryOf(table0: map<Node, set<Port>>, table: map<Node, set<Port>>, node: Node)
  {
    (forall m :: m in table && m != node ==> Entry(table, m) == Entry(table0, m))
    && (forall m :: m in table0 && m != node ==> Entry(table, m) == Entry(table0, m))
  }

  /**
   * The port set and the ports-by-node table once `apply` has handled the
   * entries of `data` outside `pending` on `node`, starting from `ports0`
   * and `table0`: the new ports are not user-defined ports of `node` named
   * in `data`; each handled entry's type is known and has a port of its name
   * in `node`'s entry; no other entry changed; and when `node`'s entry was
   * empty, it holds exactly one port made from each handled entry.
   */
  ghost predicate AppliedSoFar(ports0: set<Port>, ports: set<Port>, table0: map<Node, set<Port>>,
                               table: map<Node, set<Port>>, node: Node, data: PortTable, pending: set<string>)
    reads Entry(table, node)
  {
    pending <= data.Keys && ports0 <= ports
    && (forall p :: p in ports - ports0 ==> p.node == node && !p.userDefined && p.name in data)
    && (forall k :: k in data && k !in pending ==> IsAttrTypeName(data[k].portType))
    && (forall k :: k in data && k !in pending ==> exists p :: p in Entry(table, node) && p.name == k)
    && OnlyEntryOf(table0, table, node)
    && (Entry(table0, node) == {} ==>
          (forall p :: p in Entry(table, node) ==>
             p.name in data && p.name !in pending && MadeFrom(p, p.name, data[p.name].(userDefined := false)))
          && forall p, q :: p in Entry(table, node) && q in Entry(table, node) && p.name == q.name ==> p == q)
  }

  /** Ports whose values did not change keep describing the same data. */
  twostate lemma PortsFromDataStays(new entry: set<Port>, new data: PortTable)
    requires old(allocated(entry)) && unchanged(entry)
    requires old(PortsFromData(entry, data))
    ensures PortsFromData(entry, data)
  {
  }

  /** Creating the port of pending entry `k` on `node`, as `create_port` adds it to both tables, hands entry `k`. */
  lemma AppliedStep(ports0: set<Port>, ports1: set<Port>, ports2: set<Port>, table0: map<Node, set<Port>>,
                    table1: map<Node, set<Port>>, table2: map<Node, set<Port>>, node: Node, data: PortTable,
                    pending: set<string>, k: string, p: Port, key: map<Port, string>, prefix: string)
    requires AppliedSoFar(ports0, ports1, table0, table1, node, data, pending) && k in pending
    requires IsAttrTypeName(data[k].portType)
    requires p.node == node && MadeFrom(p, k, data[k].(userDefined := false))
    requires ports1 <= ports2 <= ports1 + {p}
    requires Entry(table1, node) <= key.Keys && forall q :: q in Entry(table1, node) ==> key[q] == prefix + q.name
    requires p.hashKey == prefix + k
    requires table2 == table1[node := AddedPorts(Entry(table1, node), p, key)]
    ensures AppliedSoFar(ports0, ports2, table0, table2, node, data, pending - {k})
  {
    var before := Entry(table1, node);
    AddedPortNamed(before, p, key, prefix);
    if Entry(table0, node) == {} {
      AddedPortFresh(before, p, key, prefix);
      assert Entry(table2, node) == before + {p};
    }
  }

  /** With nothing pending, a node whose entry was empty holds exactly the ports its data gives it. */
  lemma AppliedAll(ports0: set<Port>, ports: set<Port>, table0: map<Node, set<Port>>,
                   table: map<Node, set<Port>>, node: Node, data: PortTable)
    requires AppliedSoFar(ports0, ports, table0, table, node, data, {})
    ensures Entry(table0, node) == {} ==> PortsFromData(Entry(table, node), data)
  {
    if Entry(table0, node) == {} {
      forall k | k in data
        ensures exists p :: p in Entry(table, node) && MadeFrom(p, k, data[k].(userDefined := false))
      {
        var p :| p in Entry(table, node) && p.name == k;
        assert MadeFrom(p, p.name, data[p.name].(userDefined := false));
      }
    }
  }

  /** Each entry of a ports-by-node table holds ports of its own node. */
  predicate ByNode(table: map<Node, set<Port>>)
  {
    forall n :: n in table ==> forall p :: p in table[n] ==> p.node == n
  }

  /** Replacing `p`'s entry by a subset of it and `p` keeps each entry on its own node. */
  lemma AddedToTable(table: map<Node, set<Port>>, p: Port, entry: set<Port>)
    requires ByNode(table) && entry <= Entry(table, p.node) + {p}
    ensures ByNode(table[p.node := entry])
  {
  }

  /** One turn of `RemoveConnectionsTouching`: `c` leaves `out`. */
  method RemoveTouchingStep(S: set<Connection>, out: set<Connection>, touching: set<Connection>, todo: set<Connection>,
                            c: Connection, ghost U: set<Node>, ghost unique: bool)
    returns (r: Result<set<Connection>>)
    requires ConnectionsRooted(S, U) && out <= S && c in todo && todo <= touching <= S
    requires unique ==> UniqueConns(out, U) && out == S - (touching - todo)
    ensures r.Err? ==> r.error == KeyError(ConnectionRepr(c))
    ensures r.Ok? ==> r.value <= out
    ensures unique ==> r.Ok? && UniqueConns(r.value, U) && r.value == S - (touching - (todo - {c}))
  {
    assert out + {c} <= S;
    r := RemoveConnectionFrom(out, c, U);
    if unique {
      assert c in out;
      assert r.value == out - {c};
      assert out - {c} == S - (touching - (todo - {c}));
    }
  }

  /**
   * The loop of `remove_port` over the connections that use `port`: each
   * is removed in turn from `S`, stopping at the first `KeyError`.
   */
  method RemoveConnectionsTouching(S: set<Connection>, port: Port, ghost U: set<Node>) returns (r: Outcome, out: set<Connection>)
    requires ConnectionsRooted(S, U)
    ensures out <= S
    ensures r.Fail? ==> exists c :: c in Touching(S, port) && r.error == KeyError(ConnectionRepr(c))
    ensures UniqueConns(S, U) ==> r == Pass && out == S - Touching(S, port) && UniqueConns(out, U)
  {
    ghost var unique := UniqueConns(S, U);
    var touching := Touching(S, port);
    var todo := touching;
    out := S;
    while todo != {}
      invariant todo <= touching
      invariant out <= S
      invariant unique ==> UniqueConns(out, U) && out == S - (touching - todo)
      decreases todo
    {
      var c :| c in todo;
      var res := RemoveTouchingStep(S, out, touching, todo, c, U, unique);
      if res.Err? {
        return Fail(res.error), out;
      }
      out := res.value;
      todo := todo - {c};
    }
    return Pass, out;
  }

  /**
   * The errors removing `p` can raise: the `KeyError` of a connection that
   * uses it, or its own.
   */
  predicate RemovalError(e: Error, p: Port, conns: set<Connection>)
  {
    e == KeyError(PortRepr(p)) || exists c :: c in Touching(conns, p) && e == KeyError(ConnectionRepr(c))
  }

  /**
   * `remove_port` as written, on the scene's ports and connections: the
   * connections that use the port go, then the port leaves the ports.
   */
  method RemovePortAsWrittenIn(ports: set<Port>, conns: set<Connection>, port: Port, ghost U: set<Node>)
    returns (r: Outcome, ports': set<Port>, conns': set<Connection>)
    requires PortsRooted(ports + {port}, U) && ConnectionsRooted(conns, U)
    ensures ports' <= ports && conns' <= conns
    ensures r.Fail? ==> ports' == ports && RemovalError(r.error, port, conns)
    ensures UniqueConns(conns, U) ==> conns' == conns - Touching(conns, port) && UniqueConns(conns', U)
    ensures UniqueConns(conns, U) ==>
      (r.Fail? <==> !PortAt(ports, U, PortDagPath(port, U))) && (r.Fail? ==> r.error == KeyError(PortRepr(port)))
    ensures r.Pass? ==> PortTakenOut(ports, PortDagPath(port, U), U, ports')
    ensures UniquePorts(ports, U) && r.Pass? ==> UniquePorts(ports', U) && !PortAt(ports', U, PortDagPath(port, U))
    ensures UniquePorts(ports, U) && UniqueConns(conns, U) && port in ports ==> r == Pass && ports' == ports - {port}
  {
    r, conns' := RemoveConnectionsTouching(conns, port, U);
    ports' := ports;
    if r.Pass? {
      var res := RemovePortFrom(ports, port, U);
      if res.Err? {
        r := Fail(res.error);
      } else {
        ports' := res.value;
      }
    }
  }

  /** One turn of `RemovePortsOn`: `p` is removed from `curPorts` and `curConns` as `remove_port` does. */
  method RemovePortsStep(ports: set<Port>, conns: set<Connection>, P: set<Port>, todo: set<Port>, p: Port,
                         curPorts: set<Port>, curConns: set<Connection>, ghost U: set<Node>, ghost unique: bool)
    returns (r: Outcome, ports': set<Port>, conns': set<Connection>)
    requires PortsRooted(ports, U) && ConnectionsRooted(conns, U) && p in todo && todo <= P <= ports
    requires curPorts <= ports && curConns <= conns
    requires unique ==> (UniquePorts(curPorts, U) && UniqueConns(curConns, U)
      && curPorts == ports - (P - todo) && curConns == conns - TouchingAny(conns, P - todo))
    ensures ports' <= curPorts && conns' <= curConns
    ensures r.Fail? ==> RemovalError(r.error, p, conns)
    ensures unique ==> (r == Pass && UniquePorts(ports', U) && UniqueConns(conns', U)
      && ports' == ports - (P - (todo - {p})) && conns' == conns - TouchingAny(conns, P - (todo - {p})))
  {
    r, ports', conns' := RemovePortAsWrittenIn(curPorts, curConns, p, U);
    if r.Fail? {
      assert Touching(curConns, p) <= Touching(conns, p);
    }
    if unique {
      assert p in curPorts;
      assert ports - (P - (todo - {p})) == curPorts - {p};
      assert conns - TouchingAny(conns, P - (todo - {p})) == curConns - Touching(curConns, p);
    }
  }

  /**
   * The loop of `remove_node` over the ports that sit on `node`: each is
   * removed in turn as `remove_port` does, with its connections, stopping
   * at the first failure.
   */
  method RemovePortsOn(ports: set<Port>, conns: set<Connection>, node: Node, ghost U: set<Node>)
    returns (r: Outcome, ports': set<Port>, conns': set<Connection>)
    requires PortsRooted(ports, U) && ConnectionsRooted(conns, U)
    ensures ports' <= ports && conns' <= conns
    ensures r.Fail? ==> exists p :: p in PortsOn(ports, node) && RemovalError(r.error, p, conns)
    ensures UniquePorts(ports, U) && UniqueConns(conns, U) ==>
      r == Pass && ports' == ports - PortsOn(ports, node) && conns' == conns - TouchingAny(conns, PortsOn(ports, node))
  {
    ghost var unique := UniquePorts(ports, U) && UniqueConns(conns, U);
    var P := PortsOn(ports, node);
    var todo := P;
    ports', conns' := ports, conns;
    r := Pass;
    while todo != {} && r.Pass?
      invariant todo <= P
      invariant ports' <= ports && conns' <= conns
      invariant r.Fail? ==> exists p :: p in P && RemovalError(r.error, p, conns)
      invariant unique ==> (r == Pass && UniquePorts(ports', U) && UniqueConns(conns', U)
        && ports' == ports - (P - todo) && conns' == conns - TouchingAny(conns, P - todo))
      decreases todo, if r.Pass? then 1 else 0
    {
      var p :| p in todo;
      r, ports', conns' := RemovePortsStep(ports, conns, P, todo, p, ports', conns', U, unique);
      todo := todo - {p};
    }
    if unique {
      assert P - todo == P;
    }
  }

  /** A port whose dag path is its node's path, a dot and `k` is named `k`. */
  lemma SamePathSameName(q: Port, k: string, U: set<Node>)
    requires ChainIn(q.node, U) && PortDagPath(q, U) == DagPath(q.node, U) + "." + k
    ensures q.name == k
  {
    var prefix := DagPath(q.node, U) + ".";
    assert PortDagPath(q, U) == prefix + q.name;
    assert q.name == (prefix + q.name)[|prefix|..];
    assert k == (prefix + k)[|prefix|..];
  }

  /** What `session[item]` finds: a port, or else a node. */
  datatype Item = PortItem(port: Port) | NodeItem(node: Node)

  class Session {
    var nodes: set<Node>
    var ports: set<Port>
    var connections: set<Connection>
    var selection: seq<Node>
    var portsByNode: map<Node, set<Port>>
    const schema: Schema?
    ghost var Universe: set<Node>

    /**
     * Every created node has a finite chain of created ancestors, and every
     * node the state mentions was created by the session; each entry of the
     * ports-by-node table holds ports of its own node.
     */
    ghost predicate Valid()
      reads this, Universe`parent
    {
      Rooted(Universe, Universe)
      && nodes <= Universe
      && (forall p :: p in ports ==> p.node in Universe)
      && portsByNode.Keys <= Universe && ByNode(portsByNode)
      && (forall c :: c in connections ==> c.src.node in Universe && c.dst.node in Universe)
      && (forall i :: 0 <= i < |selection| ==> selection[i] in Universe)
    }

    /** The nodes, ports and connections of the scene all have well-defined dag paths. */
    lemma ValidRooted()
      requires Valid()
      ensures Rooted(nodes, Universe) && PortsRooted(ports, Universe) && ConnectionsRooted(connections, Universe)
    {
    }

    /** An empty scene. */
    constructor Empty(schema: Schema?)
      ensures Valid() && this.schema == schema
      ensures nodes == {} && ports == {} && connections == {} && selection == [] && portsByNode == map[]
      ensures Universe == {}
    {
      nodes := {};
      ports := {};
      connections := {};
      selection := [];
      portsByNode := map[];
      this.schema := schema;
      Universe := {};
    }

    /**
     * `_unique_name`: count from 1 until `<prefix><i>` is a valid name that
     * no node's path matches once placed under `parent`.
     */
    method UniqueName(prefix: string, parent: Node?) returns (name: string)
      requires Valid() && (parent != null ==> parent in Universe)
      ensures name == Candidate(prefix, LeastFree(nodes, Universe, prefix, parent))
    {
      ValidRooted();
      var ns := nodes;
      ghost var U := Universe;
      ghost var bound := Pow10(PathLengthBound(ns, U));
      FarCandidateIsFree(ns, U, prefix, parent);
      var i := 1;
      while !IsFree(ns, U, prefix, parent, i)
        invariant 1 <= i <= bound
        invariant forall j :: 1 <= j < i ==> !IsFree(ns, U, prefix, parent, j)
        decreases bound - i
      {
        i := i + 1;
      }
      ghost var k := LeastFree(ns, U, prefix, parent);
      assert !(k < i) && !(i < k);
      name := Candidate(prefix, i);
    }

    /** `get_node_by_name`: some node with that name, if any. */
    method GetNodeByName(name: string) returns (r: Option<Node>)
      ensures r.Some? ==> r.value in nodes && r.value.name == name
      ensures r.None? <==> forall n :: n in nodes ==> n.name != name
    {
      var rest := nodes;
      while rest != {}
        invariant rest <= nodes
        invariant forall n :: n in nodes - rest ==> n.name != name
        decreases rest
      {
        var n :| n in rest;
        if n.name == name {
          return Some(n);
        }
        rest := rest - {n};
      }
      return None;
    }

    /**
     * `get_nodes_by_match`: the matching nodes in ascending dag-path order,
     * each once; `ValueError` when none match and `strict` is set.
     */
    method GetNodesByMatch(pattern: Option<string>, strict: bool) returns (r: Result<seq<Node>>)
      requires Valid()
      ensures r.Err? <==> strict && MatchingNodes(nodes, Universe, pattern) == {}
      ensures r.Err? ==> r.error == ValueError("No object matches name: " + PatternText(pattern))
      ensures r.Ok? ==> multiset(r.value) == multiset(MatchingNodes(nodes, Universe, pattern))
      ensures r.Ok? ==> (forall i :: 0 <= i < |r.value| ==> r.value[i] in nodes) && SortedByPath(r.value, Universe)
    {
      ValidRooted();
      var out := SortNodes(MatchingNodes(nodes, Universe, pattern), Universe);
      assert forall m :: m in MatchingNodes(nodes, Universe, pattern) ==> m in multiset(out);
      assert |multiset(out)| == |out|;
      forall i | 0 <= i < |out| ensures out[i] in nodes {
        assert out[i] in multiset(out);
      }
      if strict && |out| == 0 {
        return Err(ValueError("No object matches name: " + PatternText(pattern)));
      }
      return Ok(out);
    }

    /**
     * `__getitem__`: a port the pattern matches, else the first matching node
     * by dag path. The node lookup is strict, so it raises `ValueError`
     * before the method's own `KeyError` can be reached.
     */
    method GetItem(item: string) returns (r: Result<Item>)
      requires Valid()
      ensures r.Ok? && r.value.PortItem? ==> r.value.port in ports && MatchesPortPattern(r.value.port, Some(item), Universe)
      ensures r.Ok? && r.value.NodeItem? ==>
        (forall p :: p in ports ==> !MatchesPortPattern(p, Some(item), Universe))
        && r.value.node in MatchingNodes(nodes, Universe, Some(item))
      ensures r.Err? <==>
        (forall p :: p in ports ==> !MatchesPortPattern(p, Some(item), Universe)) && MatchingNodes(nodes, Universe, Some(item)) == {}
      ensures r.Err? ==> r.error == ValueError("No object matches name: " + item)
    {
      var port := GetPortByMatch(Some(item));
      if port.Some? {
        return Ok(PortItem(port.value));
      }
      var node := GetNodeByMatch(Some(item), true);
      if node.Err? {
        return Err(node.error);
      }
      if node.value.None? {
        assert false;
        return Err(KeyError("Found no node or port matching " + Repr(item)));
      }
      return Ok(NodeItem(node.value.value));
    }

    /** `get_node_by_match`: the first matching node by dag path, if any. */
    method GetNodeByMatch(pattern: Option<string>, strict: bool) returns (r: Result<Option<Node>>)
      requires Valid()
      ensures r.Err? <==> strict && MatchingNodes(nodes, Universe, pattern) == {}
      ensures r.Err? ==> r.error == ValueError("No object matches name: " + PatternText(pattern))
      ensures r.Ok? ==> (r.value.None? <==> MatchingNodes(nodes, Universe, pattern) == {})
      ensures r.Ok? && r.value.Some? ==>
        var n := r.value.value;
        n in MatchingNodes(nodes, Universe, pattern)
        && forall m :: m in MatchingNodes(nodes, Universe, pattern) ==> LexLe(DagPath(n, Universe), DagPath(m, Universe))
    {
      var all := GetNodesByMatch(pattern, strict);
      if all.Err? {
        return Err(all.error);
      }
      var s := all.value;
      ghost var M := MatchingNodes(nodes, Universe, pattern);
      if |s| == 0 {
        assert forall m :: m in M ==> m in multiset(M);
        return Ok(None);
      }
      assert s[0] in multiset(s);
      forall m | m in M ensures LexLe(DagPath(s[0], Universe), DagPath(m, Universe)) {
        assert m in multiset(M);
        var i :| 0 <= i < |s| && s[i] == m;
      }
      return Ok(Some(s[0]));
    }

    /** `node_exist`: a node matches the path, read as a pattern. */
    method NodeExists(dagpath: string) returns (b: bool)
      requires Valid()
      ensures b <==> NodeExist(nodes, Universe, dagpath)
    {
      var n := GetNodeByMatch(Some(dagpath), false);
      b := n.value.Some?;
    }

    /** `get_port_by_match`: some port the pattern matches, if any. */
    method GetPortByMatch(pattern: Option<string>) returns (r: Option<Port>)
      requires Valid()
      ensures r.Some? ==> r.value in ports && MatchesPortPattern(r.value, pattern, Universe)
      ensures r.None? <==> forall p :: p in ports ==> !MatchesPortPattern(p, pattern, Universe)
    {
      var rest := ports;
      while rest != {}
        invariant rest <= ports
        invariant forall p :: p in ports - rest ==> !MatchesPortPattern(p, pattern, Universe)
        decreases rest
      {
        var p :| p in rest;
        if MatchesPortPattern(p, pattern, Universe) {
          return Some(p);
        }
        rest := rest - {p};
      }
      return None;
    }

    /** `get_connection_by_ports`: a connection from `src` to `dst` (the very ports), if any. */
    method GetConnectionByPorts(src: Port, dst: Port) returns (r: Option<Connection>)
      ensures r.Some? <==> HasConnection(connections, src, dst)
      ensures r.Some? ==> r.value in connections && r.value.src == src && r.value.dst == dst
    {
      var rest := connections;
      while rest != {}
        invariant rest <= connections
        invariant forall c :: c in connections - rest ==> !(c.src == src && c.dst == dst)
        decreases rest
      {
        var c :| c in rest;
        if c.src == src && c.dst == dst {
          return Some(c);
        }
        rest := rest - {c};
      }
      return None;
    }

    /** The ports recorded for `node`, none when it has no entry. */
    function PortsOf(node: Node): (r: set<Port>)
      reads this
    {
      Entry(portsByNode, node)
    }

    /** `get_node_port_by_name`: a port of `node` answering to `name`, if any. */
    method GetNodePortByName(node: Node, name: string) returns (r: Option<Port>)
      ensures r.Some? ==> r.value in PortsOf(node) && AnswersTo(r.value, name)
      ensures r.None? <==> forall p :: p in PortsOf(node) ==> !AnswersTo(p, name)
    {
      var rest := PortsOf(node);
      while rest != {}
        invariant rest <= PortsOf(node)
        invariant forall p :: p in PortsOf(node) - rest ==> !AnswersTo(p, name)
        decreases rest
      {
        var p :| p in rest;
        if p.name == name {
          return Some(p);
        } else if p.shortName == name {
          return Some(p);
        } else if p.niceName == name {
          return Some(p);
        }
        rest := rest - {p};
      }
      return None;
    }

    /**
     * A node's `__melobject__`: its name, qualified by one ancestor name at a
     * time while another node matches it, and made absolute at the root.
     */
    method MelObject(n: Node) returns (pattern: string)
      requires Valid() && n in Universe
      ensures pattern == DisplayForm(nodes, Universe, n)
    {
      ghost var c := Chain(n, Universe);
      ghost var k := 0;
      pattern := n.name;
      var node := n;
      while IsPatternClashing(nodes, Universe, n, pattern)
        invariant k < |c| && node == c[k] && pattern == MelPattern(c, k)
        invariant DisplayFrom(nodes, Universe, c, k) == DisplayForm(nodes, Universe, n)
        decreases |c| - k
      {
        RootChainLength(c[k..]);
        var parent := node.parent;
        if parent != null {
          pattern := Join(parent.name, pattern);
          node := parent;
          k := k + 1;
        } else {
          pattern := "|" + pattern;
          return;
        }
      }
    }

    /** A port's `__melobject__`: its node's display form, a dot and the port name. */
    method PortMelObject(p: Port) returns (s: string)
      requires Valid() && p.node in Universe
      ensures s == PortDisplay(nodes, Universe, p)
    {
      var node := MelObject(p.node);
      s := node + "." + p.name;
    }

    /** No two ports of the scene share a dag path. */
    ghost predicate UniquePortKeys()
      reads this, Universe`parent
    {
      UniquePorts(ports, Universe)
    }

    /** No two connections of the scene share a key. */
    ghost predicate UniqueConnectionKeys()
      reads this, Universe`parent
    {
      UniqueConns(connections, Universe)
    }

    /** Installs new port tables that keep the scene valid. */
    method SetPortTables(newPorts: set<Port>, newTable: map<Node, set<Port>>)
      requires Valid()
      requires forall p :: p in newPorts ==> p.node in Universe
      requires newTable.Keys <= Universe && ByNode(newTable)
      modifies this`ports, this`portsByNode
      ensures Valid() && ports == newPorts && portsByNode == newTable
    {
      ports := newPorts;
      portsByNode := newTable;
    }

    /** Installs a smaller set of connections, which keeps the scene valid. */
    method SetConnections(newConnections: set<Connection>)
      requires Valid() && newConnections <= connections
      modifies this`connections
      ensures Valid() && connections == newConnections
    {
      connections := newConnections;
    }

    /** Takes `port` out of its node's entry of the ports-by-node table. */
    method DropFromEntry(port: Port)
      requires Valid() && port.node in Universe
      modifies this`portsByNode
      ensures Valid() && portsByNode == old(portsByNode)[port.node := old(PortsOf(port.node)) - {port}]
    {
      portsByNode := portsByNode[port.node := PortsOf(port.node) - {port}];
    }

    /** Installs smaller sets of ports and connections, which keeps the scene valid. */
    method SetPortsAndConnections(newPorts: set<Port>, newConnections: set<Connection>)
      requires Valid() && newPorts <= ports && newConnections <= connections
      modifies this`ports, this`connections
      ensures Valid() && ports == newPorts && connections == newConnections
    {
      ports := newPorts;
      connections := newConnections;
    }

    /** Installs a smaller set of nodes, which keeps the scene valid. */
    method SetNodes(newNodes: set<Node>)
      requires Valid() && newNodes <= nodes
      modifies this`nodes
      ensures Valid() && nodes == newNodes
    {
      nodes := newNodes;
    }

    /**
     * The bookkeeping half of `create_port`: `p`, held under its dag path,
     * is added to its node's ports and to the scene's ports.
     */
    method AddToTables(p: Port)
      requires Valid() && p.node in Universe && p.hashKey == PortDagPath(p, Universe)
      modifies this`ports, this`portsByNode
      ensures Valid()
      ensures ports == old(AddedPorts(ports, p, PortKeys(ports, Universe)))
      ensures portsByNode == old(portsByNode[p.node := AddedPorts(PortsOf(p.node), p, PortKeys(PortsOf(p.node), Universe))])
    {
      ValidRooted();
      var entry := AddedPorts(PortsOf(p.node), p, PortKeys(PortsOf(p.node), Universe));
      var all := AddedPorts(ports, p, PortKeys(ports, Universe));
      AddedToTable(portsByNode, p, entry);
      SetPortTables(all, portsByNode[p.node := entry]);
    }

    /**
     * `create_port`: a new port on `node`, held under its dag path, added to
     * the node's ports and to the scene's ports; an unknown port type raises
     * `AttributeError` and changes nothing.
     */
    method CreatePort(node: Node, name: string, opts: PortOptions) returns (r: Result<Port>)
      requires Valid() && node in Universe
      modifies this`ports, this`portsByNode
      ensures Valid()
      ensures r.Err? <==> !IsAttrTypeName(opts.portType)
      ensures r.Err? ==> r.error == AttributeError(opts.portType)
      ensures r.Err? ==> ports == old(ports) && portsByNode == old(portsByNode)
      ensures r.Ok? ==> fresh(r.value) && r.value.node == node && MadeFrom(r.value, name, opts)
      ensures r.Ok? ==> r.value.hashKey == old(DagPath(node, Universe)) + "." + name
      ensures r.Ok? ==> ports == AddedPorts(old(ports), r.value, old(PortKeys(ports, Universe)))
      ensures r.Ok? ==> portsByNode == old(portsByNode)[node := AddedPorts(old(PortsOf(node)), r.value, old(PortKeys(PortsOf(node), Universe)))]
    {
      ValidRooted();
      var res := NewPort(node, name, opts, Universe);
      if res.Err? {
        r := Err(res.error);
      } else {
        AddToTables(res.value);
        r := Ok(res.value);
      }
    }

    /**
     * `remove_connection`: the connection a lookup of `c` finds leaves;
     * `KeyError` when there is none.
     */
    method RemoveConnection(c: Connection) returns (r: Outcome)
      requires Valid() && c.src.node in Universe && c.dst.node in Universe
      modifies this`connections
      ensures Valid() && connections <= old(connections)
      ensures r.Fail? <==> !old(KeyedIn(connections, c, Universe))
      ensures r.Fail? ==> r.error == KeyError(ConnectionRepr(c)) && connections == old(connections)
      ensures r.Pass? ==> var C' := connections; old(ConnectionTakenOut(connections, c, Universe, C'))
      ensures old(UniqueConnectionKeys()) && c in old(connections) ==> r == Pass && connections == old(connections) - {c}
      ensures old(UniqueConnectionKeys()) ==> var C' := connections; old(UniqueConns(C', Universe))
    {
      ValidRooted();
      var res := RemoveConnectionFrom(connections, c, Universe);
      if res.Err? {
        r := Fail(res.error);
      } else {
        SetConnections(res.value);
        r := Pass;
      }
    }

    /**
     * `remove_port` as written: the port's connections go, then the port
     * leaves the scene's ports. The ports-by-node table is not touched, so
     * the node still lists the port.
     */
    method RemovePortAsWritten(port: Port) returns (r: Outcome)
      requires Valid() && port.node in Universe
      modifies this`connections, this`ports
      ensures Valid() && ports <= old(ports) && connections <= old(connections) && portsByNode == old(portsByNode)
      ensures r.Fail? ==> ports == old(ports) && RemovalError(r.error, port, old(connections))
      ensures var C' := connections; old(UniqueConns(connections, Universe)) ==>
        old(C' == connections - Touching(connections, port) && UniqueConns(C', Universe)
            && (r.Fail? <==> !PortAt(ports, Universe, PortDagPath(port, Universe)))
            && (r.Fail? ==> r.error == KeyError(PortRepr(port))))
      ensures var P' := ports; r.Pass? ==> old(PortTakenOut(ports, PortDagPath(port, Universe), Universe, P'))
      ensures var P' := ports; r.Pass? && old(UniquePortKeys()) ==>
        old(UniquePorts(P', Universe) && !PortAt(P', Universe, PortDagPath(port, Universe)))
      ensures old(UniquePortKeys()) && old(UniqueConnectionKeys()) && port in old(ports) ==>
        r == Pass && ports == old(ports) - {port}
    {
      ValidRooted();
      var ports', conns';
      r, ports', conns' := RemovePortAsWrittenIn(ports, connections, port, Universe);
      SetPortsAndConnections(ports', conns');
    }

    /**
     * `remove_port` with the table kept in step: as written, and then the
     * port leaves its node's entry of the ports-by-node table too, so that
     * the node no longer lists it.
     */
    method RemovePort(port: Port) returns (r: Outcome)
      requires Valid() && port.node in Universe
      modifies this`connections, this`ports, this`portsByNode
      ensures Valid() && ports <= old(ports) && connections <= old(connections)
      ensures r.Fail? ==> ports == old(ports) && portsByNode == old(portsByNode)
      ensures r.Fail? ==> RemovalError(r.error, port, old(connections))
      ensures var C' := connections; old(UniqueConns(connections, Universe)) ==>
        old(C' == connections - Touching(connections, port)
            && (r.Fail? <==> !PortAt(ports, Universe, PortDagPath(port, Universe))))
      ensures var P' := ports; r.Pass? ==> old(PortTakenOut(ports, PortDagPath(port, Universe), Universe, P'))
      ensures r.Pass? ==> portsByNode == old(portsByNode)[port.node := old(PortsOf(port.node)) - {port}]
      ensures r.Pass? ==> port !in PortsOf(port.node)
      ensures old(UniquePortKeys()) && old(UniqueConnectionKeys()) && port in old(ports) ==>
        r == Pass && ports == old(ports) - {port}
    {
      r := RemovePortAsWritten(port);
      if r.Pass? {
        DropFromEntry(port);
      }
    }

    /**
     * `remove_node_port`: look the port up by name on the node and remove
     * it as `remove_port` does; `remove_port(None)` fails with
     * `KeyError(None)` when there is none.
     */
    method RemoveNodePort(node: Node, name: string) returns (r: Outcome, ghost port: Port?)
      requires Valid() && node in Universe
      modifies this`connections, this`ports
      ensures Valid() && ports <= old(ports) && connections <= old(connections) && portsByNode == old(portsByNode)
      ensures port == null <==> forall p :: p in PortsOf(node) ==> !AnswersTo(p, name)
      ensures port == null ==> r == Fail(KeyError("None")) && ports == old(ports) && connections == old(connections)
      ensures port != null ==> port in PortsOf(node) && AnswersTo(port, name)
      ensures port != null && r.Fail? ==> RemovalError(r.error, port, old(connections))
      ensures var C' := connections; port != null && old(UniqueConns(connections, Universe)) ==>
        old(C' == connections - Touching(connections, port)
            && (r.Fail? <==> !PortAt(ports, Universe, PortDagPath(port, Universe))))
      ensures var P' := ports; port != null && r.Pass? ==> old(PortTakenOut(ports, PortDagPath(port, Universe), Universe, P'))
      ensures port != null && old(UniquePortKeys()) && old(UniqueConnectionKeys()) && port in old(ports) ==>
        r == Pass && ports == old(ports) - {port}
    {
      port := null;
      var found := GetNodePortByName(node, name);
      if found.None? {
        r := Fail(KeyError("None"));
      } else {
        port := found.value;
        r := RemovePortAsWritten(found.value);
      }
    }

    /** The first half of `remove_node`: every port on `node` is removed as `remove_port` does, with its connections. */
    method RemovePortsOfNode(node: Node) returns (r: Outcome)
      requires Valid() && node in Universe
      modifies this`connections, this`ports
      ensures Valid() && ports <= old(ports) && connections <= old(connections) && portsByNode == old(portsByNode)
      ensures r.Fail? ==> old(exists p :: p in PortsOn(ports, node) && RemovalError(r.error, p, connections))
      ensures old(UniquePortKeys()) && old(UniqueConnectionKeys()) ==>
        r == Pass && ports == old(ports - PortsOn(ports, node))
        && connections == old(connections - TouchingAny(connections, PortsOn(ports, node)))
    {
      ValidRooted();
      var ports', conns';
      r, ports', conns' := RemovePortsOn(ports, connections, node, Universe);
      SetPortsAndConnections(ports', conns');
    }

    /**
     * `remove_node`: remove every port of the node (and so their
     * connections), then the node itself, which must be in the scene. The
     * ports-by-node table keeps the node's entry.
     */
    method RemoveNode(node: Node) returns (r: Outcome)
      requires Valid() && node in Universe
      modifies this`nodes, this`connections, this`ports
      ensures Valid() && nodes <= old(nodes) && ports <= old(ports) && connections <= old(connections)
      ensures portsByNode == old(portsByNode)
      ensures r.Pass? ==> node in old(nodes) && nodes == old(nodes) - {node}
      ensures r.Fail? ==> nodes == old(nodes)
      ensures r.Fail? ==>
        (old(exists p :: p in PortsOn(ports, node) && RemovalError(r.error, p, connections))
         || (node !in old(nodes) && r.error == old(KeyError(NodeRepr(node, Universe)))))
      ensures old(UniquePortKeys()) && old(UniqueConnectionKeys()) ==>
        ports == old(ports - PortsOn(ports, node))
        && connections == old(connections - TouchingAny(connections, PortsOn(ports, node)))
        && (r == Pass <==> node in old(nodes))
        && (r.Fail? ==> r.error == old(KeyError(NodeRepr(node, Universe))))
    {
      r := RemovePortsOfNode(node);
      if r.Fail? {
        return;
      }
      if node !in nodes {
        return Fail(KeyError(NodeRepr(node, Universe)));
      }
      SetNodes(nodes - {node});
      return Pass;
    }

    /** `connections.add(c)` on the scene, for a connection held under its key of now. */
    method AddToConnections(c: Connection)
      requires Valid() && c.src.node in Universe && c.dst.node in Universe
      requires c.hashKey == ConnectionKey(c, Universe)
      modifies this`connections
      ensures Valid() && connections == old(AddConnection(connections, c, Universe))
    {
      ValidRooted();
      connections := AddConnection(connections, c, Universe);
    }

    /**
     * `create_connection`: refused between port types that cannot be
     * connected; otherwise the connection joins the scene unless one with
     * its key is already there. No pair of types has a conversion factor
     * (the table is keyed by factor), so no conversion node is ever made.
     */
    method CreateConnection(src: Port, dst: Port) returns (r: Result<Connection>)
      requires Valid() && src.node in Universe && dst.node in Universe
      modifies this`connections
      ensures Valid()
      ensures (src.portType, dst.portType) in ImpossibleConnections ==>
        r == old(Err(CannotConnectError(src, dst, Universe)))
        && connections == old(connections)
      ensures (src.portType, dst.portType) !in ImpossibleConnections ==>
        r == old(Ok(NewConnection(src, dst, Universe)))
        && connections == old(AddConnection(connections, NewConnection(src, dst, Universe), Universe))
      ensures connections <= old(connections) + (if r.Ok? then {r.value} else {})
      ensures r.Ok? ==> var S', c := connections, r.value;
        old(ConnectionAdded(connections, c, Universe, S') && KeyedIn(S', c, Universe))
      ensures old(UniqueConnectionKeys()) ==> var S' := connections; old(UniqueConns(S', Universe))
    {
      ValidRooted();
      if (src.portType, dst.portType) in ImpossibleConnections {
        return Err(CannotConnectError(src, dst, Universe));
      }
      var factor := ConversionFactor(src.portType, dst.portType);
      NoConversionByTypePair(src.portType, dst.portType);
      if factor.Some? {
        assert false;
      }
      var c := NewConnection(src, dst, Universe);
      AddConnectionKeyed(connections, c, Universe);
      AddToConnections(c);
      return Ok(c);
    }

    /**
     * Creates a port as `CreatePort` does and afterwards guarantees that the
     * node's entry of the port table holds a port of that name, either the
     * new one or the one already there under the same dag path.
     */
    method CreateNamedPort(node: Node, name: string, opts: PortOptions) returns (r: Result<Port>)
      requires Valid() && node in Universe
      modifies this`ports, this`portsByNode
      ensures Valid() && old(ports) <= ports
      ensures r.Err? <==> !IsAttrTypeName(opts.portType)
      ensures r.Err? ==> r.error == AttributeError(opts.portType)
      ensures r.Err? ==> ports == old(ports) && portsByNode == old(portsByNode)
      ensures forall p :: p in ports - old(ports) ==> p.node == node && p.name == name && p.userDefined == opts.userDefined
      ensures r.Ok? ==> fresh(r.value) && r.value.node == node && MadeFrom(r.value, name, opts)
      ensures r.Ok? ==> r.value.hashKey == old(DagPath(node, Universe)) + "." + name
      ensures r.Ok? ==> ports == AddedPorts(old(ports), r.value, old(PortKeys(ports, Universe)))
      ensures r.Ok? ==> portsByNode == old(portsByNode)[node := AddedPorts(old(PortsOf(node)), r.value, old(PortKeys(PortsOf(node), Universe)))]
      ensures forall m :: m in old(portsByNode) ==> old(portsByNode[m]) <= PortsOf(m)
      ensures r.Ok? ==> exists p :: p in PortsOf(node) && p.name == name
    {
      ValidRooted();
      ghost var before := PortsOf(node);
      ghost var key := PortKeys(before, Universe);
      ghost var prefix := DagPath(node, Universe) + ".";
      EntryKeys(before, node, Universe);
      r := CreatePort(node, name, opts);
      if r.Ok? {
        AddedPortNamed(before, r.value, key, prefix);
      }
    }

    /**
     * A type definition's `apply`: one port per entry of the definition's
     * data, created as not user-defined, stopping at the first entry whose
     * type is not an attribute type.
     */
    method ApplyNodeType(def: NodeTypeDef, node: Node) returns (r: Outcome)
      requires Valid() && node in Universe
      modifies this`ports, this`portsByNode
      ensures Valid() && old(ports) <= ports
      ensures forall p :: p in ports - old(ports) ==> p.node == node && !p.userDefined && p.name in def.Data()
      ensures r.Fail? <==> exists k :: k in def.Data() && !IsAttrTypeName(def.Data()[k].portType)
      ensures r.Fail? ==> exists k :: (k in def.Data() && !IsAttrTypeName(def.Data()[k].portType)
        && r.error == AttributeError(def.Data()[k].portType))
      ensures r.Pass? ==> forall k :: k in def.Data() ==> exists p :: p in PortsOf(node) && p.name == k
      ensures r.Pass? && old(PortsOf(node)) == {} ==> PortsFromData(PortsOf(node), def.Data())
      ensures OnlyEntryOf(old(portsByNode), portsByNode, node)
    {
      var data := def.Data();
      var keys := data.Keys;
      while keys != {}
        invariant Valid()
        invariant AppliedSoFar(old(ports), ports, old(portsByNode), portsByNode, node, data, keys)
        decreases keys
      {
        var k :| k in keys;
        var res := ApplyEntry(data, k, node, old(ports), old(portsByNode), keys);
        if res.Err? {
          return Fail(res.error);
        }
        keys := keys - {k};
      }
      AppliedAll(old(ports), ports, old(portsByNode), portsByNode, node, data);
      return Pass;
    }

    /** One round of `ApplyNodeType`: the port of entry `k`, created as not user-defined. */
    method ApplyEntry(data: PortTable, k: string, node: Node, ghost ports0: set<Port>,
                      ghost table0: map<Node, set<Port>>, ghost pending: set<string>) returns (r: Result<Port>)
      requires Valid() && node in Universe && k in pending && k in data
      requires AppliedSoFar(ports0, ports, table0, portsByNode, node, data, pending)
      modifies this`ports, this`portsByNode
      ensures Valid()
      ensures r.Err? <==> !IsAttrTypeName(data[k].portType)
      ensures r.Err? ==> r.error == AttributeError(data[k].portType) && ports == old(ports) && portsByNode == old(portsByNode)
      ensures r.Ok? ==> r.value.node == node && MadeFrom(r.value, k, data[k].(userDefined := false))
      ensures r.Ok? ==> AppliedSoFar(ports0, ports, table0, portsByNode, node, data, pending - {k})
    {
      ghost var key, prefix;
      r, key, prefix := CreateEntryPort(node, k, data[k].(userDefined := false));
      if r.Ok? {
        AppliedStep(ports0, old(ports), ports, table0, old(portsByNode), portsByNode, node, data, pending, k, r.value, key, prefix);
      }
    }

    /**
     * `create_port` on `node`, with the keys `key` the ports of `node`'s entry
     * were held under, each its node's path and `.` (the `prefix`) followed by
     * its name.
     */
    method CreateEntryPort(node: Node, name: string, opts: PortOptions)
      returns (r: Result<Port>, ghost key: map<Port, string>, ghost prefix: string)
      requires Valid() && node in Universe
      modifies this`ports, this`portsByNode
      ensures Valid()
      ensures r.Err? <==> !IsAttrTypeName(opts.portType)
      ensures r.Err? ==> r.error == AttributeError(opts.portType) && ports == old(ports) && portsByNode == old(portsByNode)
      ensures r.Ok? ==> r.value.node == node && MadeFrom(r.value, name, opts) && r.value.hashKey == prefix + name
      ensures r.Ok? ==> old(ports) <= ports <= old(ports) + {r.value}
      ensures old(PortsOf(node)) <= key.Keys && forall q :: q in old(PortsOf(node)) ==> key[q] == prefix + q.name
      ensures r.Ok? ==> portsByNode == old(portsByNode)[node := AddedPorts(old(PortsOf(node)), r.value, key)]
    {
      ValidRooted();
      key := PortKeys(PortsOf(node), Universe);
      prefix := DagPath(node, Universe) + ".";
      EntryKeys(PortsOf(node), node, Universe);
      r := CreatePort(node, name, opts);
    }

    /** The data of the schema's definition of `nodeType`; none without a schema or without a definition. */
    function SchemaData(nodeType: string): PortTable
      reads schema
    {
      if schema != null && schema.Get(nodeType).Some? then schema.Get(nodeType).value.Data() else map[]
    }

    /** Applying the schema's definition of `nodeType`, if any, cannot meet an unknown attribute type. */
    predicate AppliesCleanly(nodeType: string)
      reads schema
    {
      schema == null || schema.Get(nodeType).None?
      || forall k :: k in schema.Get(nodeType).value.Data() ==> IsAttrTypeName(schema.Get(nodeType).value.Data()[k].portType)
    }

    /** Registers a node just created under a created parent, which keeps the scene valid. */
    method AddNode(node: Node)
      requires Valid() && node !in Universe && (node.parent != null ==> node.parent in Universe)
      modifies this`nodes, this`Universe
      ensures Valid() && nodes == old(nodes) + {node} && Universe == old(Universe) + {node}
    {
      ghost var U := Universe;
      Universe := Universe + {node};
      nodes := nodes + {node};
      assert Universe - {node} == U;
      forall n | n in Universe
        ensures ChainIn(n, Universe)
      {
        if n != node {
          ChainInGrow(n, U, Universe);
        }
      }
    }

    /** The name `create_node` settles on for a conformed name, or for none. */
    method ResolveName(nodeType: string, conformed: Option<string>, parent: Node?) returns (resolved: string)
      requires Valid() && (parent != null ==> parent in Universe)
      ensures resolved == ResolvedName(nodes, Universe, nodeType, conformed, parent)
    {
      ValidRooted();
      if conformed.None? {
        resolved := UniqueName(AutoPrefix(nodeType), parent);
      } else {
        var path := if parent != null then DagPath(parent, Universe) + "|" + conformed.value else "|" + conformed.value;
        var taken := NodeExists(path);
        if !IsNameValid(conformed.value) || taken {
          resolved := UniqueName(RStripDigits(conformed.value), parent);
        } else {
          resolved := conformed.value;
        }
      }
    }

    /** Creates the node itself under `under`, then applies the schema's definition of its type. */
    method PlaceNode(nodeType: string, name: string, under: Node?) returns (r: Result<Node>)
      requires Valid() && (under != null ==> under in Universe)
      modifies this`nodes, this`Universe, this`ports, this`portsByNode, Present(under, null)`children
      ensures Valid() && old(nodes) <= nodes && old(Universe) <= Universe && old(ports) <= ports
      ensures AppliesCleanly(nodeType) ==> r.Ok?
      ensures r.Err? ==> r.error.AttributeError?
      ensures r.Ok? ==> fresh(r.value) && r.value.nodeType == nodeType && r.value.name == name && r.value.parent == under
      ensures r.Ok? ==> nodes == old(nodes) + {r.value}
      ensures r.Ok? ==> forall p :: p in ports - old(ports) ==> !p.userDefined && p.node == r.value
      ensures r.Ok? ==> PortsFromData(PortsOf(r.value), SchemaData(nodeType))
      ensures forall m :: m in old(Universe) ==> PortsOf(m) == old(PortsOf(m))
    {
      var node := new Node(nodeType, name, under);
      AddNode(node);
      if schema != null && schema.Get(nodeType).Some? {
        var applied := ApplyNodeType(schema.Get(nodeType).value, node);
        if applied.Fail? {
          return Err(applied.error);
        }
      }
      return Ok(node);
    }

    /** `PlaceNode` under a node whose entry holds the ports `data` gives it, which it keeps. */
    method PlaceUnder(nodeType: string, name: string, under: Node, ghost data: PortTable) returns (r: Result<Node>)
      requires Valid() && under in Universe && PortsFromData(PortsOf(under), data)
      modifies this`nodes, this`Universe, this`ports, this`portsByNode, under`children
      ensures Valid() && old(nodes) <= nodes && old(Universe) <= Universe && old(ports) <= ports
      ensures AppliesCleanly(nodeType) ==> r.Ok?
      ensures r.Err? ==> r.error.AttributeError?
      ensures r.Ok? ==> fresh(r.value) && r.value.nodeType == nodeType && r.value.name == name && r.value.parent == under
      ensures r.Ok? ==> nodes == old(nodes) + {r.value}
      ensures r.Ok? ==> forall p :: p in ports - old(ports) ==> !p.userDefined && p.node == r.value
      ensures r.Ok? ==> PortsFromData(PortsOf(r.value), SchemaData(nodeType))
      ensures forall m :: m in old(Universe) ==> PortsOf(m) == old(PortsOf(m))
      ensures PortsFromData(PortsOf(under), data)
    {
      ghost var entry := PortsOf(under);
      r := PlaceNode(nodeType, name, under);
      PortsFromDataStays(entry, data);
    }

    /** The root transform a shape lives under, named from the shape type's prefix. */
    method CreateShapeTransform(nodeType: string) returns (r: Result<Node>)
      requires Valid() && nodeType in ShapeClass
      modifies this`nodes, this`Universe, this`ports, this`portsByNode
      ensures Valid() && old(nodes) <= nodes && old(Universe) <= Universe && old(ports) <= ports
      ensures AppliesCleanly("transform") ==> r.Ok?
      ensures r.Err? ==> r.error.AttributeError?
      ensures r.Ok? ==> fresh(r.value) && r.value.nodeType == "transform" && r.value.parent == null
      ensures r.Ok? ==> r.value.name == old(Candidate(DefaultPrefix(nodeType), LeastFree(nodes, Universe, DefaultPrefix(nodeType), null)))
      ensures r.Ok? ==> nodes == old(nodes) + {r.value}
      ensures r.Ok? ==> forall p :: p in ports - old(ports) ==> !p.userDefined && p.node == r.value
      ensures r.Ok? ==> PortsFromData(PortsOf(r.value), SchemaData("transform"))
      ensures forall m :: m in old(Universe) ==> PortsOf(m) == old(PortsOf(m))
      decreases 1
    {
      ValidRooted();
      var prefix := DefaultPrefix(nodeType);
      var transformName := UniqueName(prefix, null);
      ShapePrefixStartsWithLetter(nodeType);
      assert transformName[0] == prefix[0];
      assert ConformedName(Some(transformName)) == Some(transformName);
      ghost var k := LeastFree(nodes, Universe, prefix, null);
      assert IsFree(nodes, Universe, prefix, null, k);
      assert ResolvedName(nodes, Universe, "transform", Some(transformName), null) == transformName;
      assert "transform" !in ShapeClass;
      r := CreateNode("transform", Some(transformName), null);
    }

    /**
     * `create_node`: the given name is conformed and refused when nothing
     * legal is left; the node is named as `ResolvedName` says; a shape first
     * gets a new root transform named after its type's prefix and lives under
     * it; the schema's definition of the type, if any, adds its ports.
     */
    method CreateNode(nodeType: string, name: Option<string>, parent: Node?) returns (r: Result<Node>)
      requires Valid() && (parent != null ==> parent in Universe)
      modifies this`nodes, this`Universe, this`ports, this`portsByNode, Present(parent, null)`children
      ensures Valid() && old(nodes) <= nodes && old(Universe) <= Universe && old(ports) <= ports
      ensures NoLegalCharacters(name) ==>
        r == Err(RuntimeError("New name has no legal characters.\n"))
        && nodes == old(nodes) && ports == old(ports) && portsByNode == old(portsByNode)
      ensures !NoLegalCharacters(name) && AppliesCleanly(nodeType) && (nodeType in ShapeClass ==> AppliesCleanly("transform")) ==>
        r.Ok?
      ensures r.Err? && !NoLegalCharacters(name) ==> r.error.AttributeError?
      ensures r.Ok? ==> fresh(r.value) && r.value in nodes && r.value.nodeType == nodeType
      ensures r.Ok? ==> r.value.name == old(ResolvedName(nodes, Universe, nodeType, ConformedName(name), parent))
      ensures r.Ok? && nodeType !in ShapeClass ==> r.value.parent == parent && nodes == old(nodes) + {r.value}
      ensures r.Ok? && nodeType in ShapeClass ==>
        r.value.parent != null && fresh(r.value.parent)
        && r.value.parent.nodeType == "transform" && r.value.parent.parent == null
        && r.value.parent.name == old(Candidate(DefaultPrefix(nodeType), LeastFree(nodes, Universe, DefaultPrefix(nodeType), null)))
        && nodes == old(nodes) + {r.value, r.value.parent}
        && PortsFromData(PortsOf(r.value.parent), SchemaData("transform"))
      ensures r.Ok? ==> forall p :: p in ports - old(ports) ==> !p.userDefined && (p.node == r.value || p.node == r.value.parent)
      ensures r.Ok? ==> PortsFromData(PortsOf(r.value), SchemaData(nodeType))
      ensures forall m :: m in old(Universe) ==> PortsOf(m) == old(PortsOf(m))
      decreases if nodeType in ShapeClass then 3 else 0
    {
      var conformed := ConformedName(name);
      if conformed == Some("") {
        return Err(RuntimeError("New name has no legal characters.\n"));
      }
      var resolved := ResolveName(nodeType, conformed, parent);
      if nodeType in ShapeClass {
        r := PlaceShape(nodeType, resolved);
      } else {
        r := PlaceNode(nodeType, resolved, parent);
      }
    }

    /** A shape node named `name`, placed under a new root transform made as `CreateShapeTransform` makes it. */
    method PlaceShape(nodeType: string, name: string) returns (r: Result<Node>)
      requires Valid() && nodeType in ShapeClass
      modifies this`nodes, this`Universe, this`ports, this`portsByNode
      ensures Valid() && old(nodes) <= nodes && old(Universe) <= Universe && old(ports) <= ports
      ensures AppliesCleanly(nodeType) && AppliesCleanly("transform") ==> r.Ok?
      ensures r.Err? ==> r.error.AttributeError?
      ensures r.Ok? ==> fresh(r.value) && r.value.nodeType == nodeType && r.value.name == name
      ensures r.Ok? ==>
        r.value.parent != null && fresh(r.value.parent)
        && r.value.parent.nodeType == "transform" && r.value.parent.parent == null
        && r.value.parent.name == old(Candidate(DefaultPrefix(nodeType), LeastFree(nodes, Universe, DefaultPrefix(nodeType), null)))
        && nodes == old(nodes) + {r.value, r.value.parent}
        && PortsFromData(PortsOf(r.value.parent), SchemaData("transform"))
      ensures r.Ok? ==> forall p :: p in ports - old(ports) ==> !p.userDefined && (p.node == r.value || p.node == r.value.parent)
      ensures r.Ok? ==> PortsFromData(PortsOf(r.value), SchemaData(nodeType))
      ensures forall m :: m in old(Universe) ==> PortsOf(m) == old(PortsOf(m))
      decreases 2
    {
      var t := CreateShapeTransform(nodeType);
      if t.Err? {
        r := Err(t.error);
      } else {
        r := PlaceUnder(nodeType, name, t.value, SchemaData("transform"));
      }
    }

    /**
     * The default scene of the schema: `create_node(type, name)` for each
     * entry of its default state, stopping at the first error.
     */
    method LoadDefaultState() returns (r: Outcome, ghost created: map<string, Node>)
      requires Valid() && schema != null
      modifies this`nodes, this`Universe, this`ports, this`portsByNode
      ensures Valid() && old(nodes) <= nodes && old(ports) <= ports
      ensures created.Keys <= schema.defaultState.Keys && (r.Pass? ==> created.Keys == schema.defaultState.Keys)
      ensures forall name :: name in created ==>
        created[name] in nodes - old(nodes) && created[name].nodeType == schema.defaultState[name]
        && NamedAfter(created[name].name, name)
      ensures forall a, b :: a in created && b in created && a != b ==> created[a] != created[b]
      ensures AppliesCleanly("transform")
              && (forall name :: name in schema.defaultState ==> !NoLegalCharacters(Some(name)) && AppliesCleanly(schema.defaultState[name]))
              ==> r.Pass?
      ensures r.Fail? ==> r.error == RuntimeError("New name has no legal characters.\n") || r.error.AttributeError?
    {
      var state := schema.defaultState;
      var names := state.Keys;
      created := map[];
      while names != {}
        invariant names <= state.Keys && created.Keys == state.Keys - names
        invariant Valid() && old(nodes) <= nodes && old(ports) <= ports
        invariant forall name :: name in created ==>
          created[name] in nodes - old(nodes) && created[name].nodeType == state[name]
          && NamedAfter(created[name].name, name)
        invariant forall a, b :: a in created && b in created && a != b ==> created[a] != created[b]
        decreases names
      {
        var name :| name in names;
        ResolvedNamedAfter(nodes, Universe, state[name], name, null);
        var node := CreateNode(state[name], Some(name), null);
        if node.Err? {
          return Fail(node.error), created;
        }
        created := created[name := node.value];
        names := names - {name};
      }
      return Pass, created;
    }

    /**
     * `MockedSession(schema)`: an empty scene, filled with the schema's
     * default state when there is a schema.
     */
    static method New(schema: Schema?) returns (s: Session, r: Outcome, ghost created: map<string, Node>)
      ensures fresh(s) && s.Valid() && s.schema == schema
      ensures s.connections == {} && s.selection == []
      ensures schema == null ==> r == Pass && s.nodes == {} && s.ports == {} && created == map[]
      ensures schema != null ==>
        created.Keys <= schema.defaultState.Keys && (r.Pass? ==> created.Keys == schema.defaultState.Keys)
      ensures forall name :: name in created ==>
        schema != null && created[name] in s.nodes && created[name].nodeType == schema.defaultState[name]
        && NamedAfter(created[name].name, name)
      ensures forall a, b :: a in created && b in created && a != b ==> created[a] != created[b]
    {
      s := new Session.Empty(schema);
      r, created := Pass, map[];
      if schema != null {
        r, created := s.LoadDefaultState();
      }
    }

    /**
     * `set_parent` on a node of the scene: `x` moves under `p`, or to the
     * root. `p` must not lie below `x` (nor be `x`), so every parent chain
     * stays finite.
     */
    method Reparent(x: Node, p: Node?)
      requires Valid() && x in Universe
      requires p != null ==> p in Universe && x !in Chain(p, Universe)
      modifies x`parent, Present(x.parent, p)`children
      ensures Valid() && x.parent == p
      ensures p != null ==> p.children == old(p.children) + {x}
      ensures old(x.parent) != null && old(x.parent) != p ==> old(x.parent).children == old(x.parent.children) - {x}
      ensures p == null ==> DagPath(x, Universe) == "|" + x.name
      ensures p != null ==> DagPath(x, Universe) == old(DagPath(p, Universe)) + "|" + x.name
      ensures p != null ==> Chain(p, Universe) == old(Chain(p, Universe))
    {
      Relink(x, p, Universe);
    }
  }
}
