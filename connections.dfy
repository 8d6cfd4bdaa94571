/**
 * Connections between ports. A connection is an immutable (source,
 * destination) pair; two connections compare equal when the source's dag
 * path followed by the destination's dag path is the same string.
 */
module Connections {
  import opened Nodes
  import opened Ports

  /**
   * A connection object. `hashKey` is the hash the scene's connection set
   * holds it under: its key when it was created, which re-parenting a node
   * does not update.
   */
  datatype Connection = Connection(src: Port, dst: Port, hashKey: string)

  /** The connection's endpoints are both attached to nodes whose chains lie in `U`. */
  ghost predicate ConnectionIn(c: Connection, U: set<Node>)
    reads U`parent
  {
    ChainIn(c.src.node, U) && ChainIn(c.dst.node, U)
  }

  /** The string hashed by a connection: source dag path then destination dag path. */
  function ConnectionKey(c: Connection, ghost U: set<Node>): string
    reads U`parent
    requires ConnectionIn(c, U)
  {
    PortDagPath(c.src, U) + PortDagPath(c.dst, U)
  }

  /** A connection made now from `src` to `dst`, held under its key of this moment. */
  function NewConnection(src: Port, dst: Port, ghost U: set<Node>): (c: Connection)
    reads U`parent
    requires ChainIn(src.node, U) && ChainIn(dst.node, U)
    ensures c.src == src && c.dst == dst && ConnectionIn(c, U)
    ensures c.hashKey == ConnectionKey(c, U)
  {
    Connection(src, dst, PortDagPath(src, U) + PortDagPath(dst, U))
  }

  /** `a == b` on connections. */
  predicate ConnectionEqual(a: Connection, b: Connection, ghost U: set<Node>)
    reads U`parent
    requires ConnectionIn(a, U) && ConnectionIn(b, U)
  {
    ConnectionKey(a, U) == ConnectionKey(b, U)
  }

  /** `a != b` on connections. */
  predicate ConnectionNotEqual(a: Connection, b: Connection, ghost U: set<Node>)
    reads U`parent
    requires ConnectionIn(a, U) && ConnectionIn(b, U)
  {
    ConnectionKey(a, U) != ConnectionKey(b, U)
  }

  /**
   * `!=` negates `==`, and connections with equal endpoints' paths are equal;
   * the converse needs the key to split uniquely, which is not claimed.
   */
  lemma ConnectionEqualityLaws(a: Connection, b: Connection, U: set<Node>)
    requires ConnectionIn(a, U) && ConnectionIn(b, U)
    ensures ConnectionNotEqual(a, b, U) <==> !ConnectionEqual(a, b, U)
    ensures PortEqual(a.src, b.src, U) && PortEqual(a.dst, b.dst, U) ==> ConnectionEqual(a, b, U)
  {
  }

  /**
   * With source and destination dag paths of equal length on both sides,
   * equal keys mean equal source paths and equal destination paths.
   */
  lemma EqualKeysSameLengthSplit(a: Connection, b: Connection, U: set<Node>)
    requires ConnectionIn(a, U) && ConnectionIn(b, U)
    requires |PortDagPath(a.src, U)| == |PortDagPath(b.src, U)|
    requires ConnectionEqual(a, b, U)
    ensures PortEqual(a.src, b.src, U) && PortEqual(a.dst, b.dst, U)
  {
    var k := |PortDagPath(a.src, U)|;
    assert ConnectionKey(a, U)[..k] == PortDagPath(a.src, U);
    assert ConnectionKey(b, U)[..k] == PortDagPath(b.src, U);
    assert ConnectionKey(a, U)[k..] == PortDagPath(a.dst, U);
    assert ConnectionKey(b, U)[k..] == PortDagPath(b.dst, U);
  }
}
