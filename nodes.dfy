/**
 * Scene nodes. A node is an object with a fixed name and type and a mutable
 * link to its parent; sets of nodes compare them by identity. The dag path of
 * a node is computed from its parent chain on every access, so it is a
 * function of the heap over a ghost universe `U` of nodes in which the chain
 * is known to end.
 */
module Nodes {
  import opened Constants
  import opened Naming

  class Node {
    const nodeType: string
    const name: string
    var parent: Node?
    var children: set<Node>

    /** A node starts without children and is registered as a child of `parent`. */
    constructor (nodeType: string, name: string, parent: Node?)
      modifies Present(parent, null)`children
      ensures this.nodeType == nodeType && this.name == name
      ensures this.parent == parent && children == {}
      ensures parent != null ==> parent.children == old(parent.children) + {this}
    {
      this.nodeType := nodeType;
      this.name := name;
      this.parent := null;
      children := {};
      new;
      if parent != null {
        SetParent(parent);
      }
    }

    /**
     * Re-parent the node: it leaves the old parent's children and joins the
     * new parent's children. No cycle check is made here.
     */
    method SetParent(p: Node?)
      modifies this`parent, Present(parent, p)`children
      ensures parent == p
      ensures old(parent) != null && old(parent) != p ==>
        old(parent).children == old(parent.children) - {this}
      ensures p != null ==> p.children == old(p.children) + {this}
    {
      if parent != null {
        parent.children := parent.children - {this};
      }
      if p != null {
        p.children := p.children + {this};
      }
      parent := p;
    }

    predicate IsShape()
    {
      nodeType in ShapeClass
    }
  }

  /** The non-null ones among two nodes. */
  function Present(a: Node?, b: Node?): set<Node>
  {
    (if a == null then {} else {a}) + (if b == null then {} else {b})
  }

  /** The parent chain of `n` stays inside `U` and reaches a root without repeating a node. */
  ghost predicate ChainIn(n: Node, U: set<Node>)
    reads U`parent
    decreases |U|
  {
    n in U && (n.parent != null ==> ChainIn(n.parent, U - {n}))
  }

  /** `c` lists a node and its ancestors, ending at a root. */
  ghost predicate IsRootChain(c: seq<Node>)
    reads set i | 0 <= i < |c| :: c[i]
  {
    |c| >= 1
    && (forall i :: 0 <= i < |c| - 1 ==> c[i].parent == c[i + 1])
    && c[|c| - 1].parent == null
  }

  ghost predicate Distinct(c: seq<Node>)
  {
    forall i, j :: 0 <= i < j < |c| ==> c[i] != c[j]
  }

  /** The node itself followed by its ancestors, nearest first. */
  function Chain(n: Node, ghost U: set<Node>): (c: seq<Node>)
    reads U`parent
    requires ChainIn(n, U)
    ensures |c| >= 1 && c[0] == n && IsRootChain(c) && Distinct(c)
    ensures forall i :: 0 <= i < |c| ==> c[i] in U
    decreases |U|
  {
    if n.parent == null then [n] else [n] + Chain(n.parent, U - {n})
  }

  /** A root chain has more than one node exactly when its head has a parent. */
  lemma RootChainLength(c: seq<Node>)
    requires IsRootChain(c)
    ensures |c| > 1 <==> c[0].parent != null
  {
    if |c| > 1 {
      assert c[0].parent == c[1];
    } else {
      assert c[|c| - 1] == c[0];
    }
  }

  /** A node has only one chain: two root chains from the same node coincide. */
  lemma {:induction false} RootChainUnique(c: seq<Node>, d: seq<Node>)
    requires IsRootChain(c) && IsRootChain(d) && c[0] == d[0]
    ensures c == d
    decreases |c|
  {
    RootChainLength(c);
    RootChainLength(d);
    if |c| > 1 {
      assert c[0].parent == c[1] && d[0].parent == d[1];
      RootChainUnique(c[1..], d[1..]);
      assert c == [c[0]] + c[1..] && d == [d[0]] + d[1..];
    } else {
      assert c == [c[0]] && d == [d[0]];
    }
  }

  /** A root chain of distinct nodes of `U` witnesses that the chain of its head stays in `U`. */
  lemma {:induction false} RootChainInUniverse(c: seq<Node>, U: set<Node>)
    requires IsRootChain(c) && Distinct(c)
    requires forall i :: 0 <= i < |c| ==> c[i] in U
    ensures ChainIn(c[0], U)
    decreases |c|
  {
    if |c| > 1 {
      forall i | 0 <= i < |c[1..]| ensures c[1..][i] in U - {c[0]} {
        assert c[1..][i] == c[i + 1] && c[i + 1] != c[0];
      }
      RootChainInUniverse(c[1..], U - {c[0]});
    }
  }

  /** A chain that stays inside `U` stays inside any larger universe. */
  lemma {:induction false} ChainInGrow(n: Node, U: set<Node>, V: set<Node>)
    requires ChainIn(n, U) && U <= V
    ensures ChainIn(n, V)
    decreases |U|
  {
    if n.parent != null {
      ChainInGrow(n.parent, U - {n}, V - {n});
    }
  }

  /** The chain of a node does not depend on the universe it is computed in. */
  lemma ChainIndependent(n: Node, U: set<Node>, V: set<Node>)
    requires ChainIn(n, U) && ChainIn(n, V)
    ensures Chain(n, U) == Chain(n, V)
  {
    RootChainUnique(Chain(n, U), Chain(n, V));
  }

  /** The chain of a node is the node followed by the chain of its parent. */
  lemma ChainUnfold(n: Node, U: set<Node>)
    requires ChainIn(n, U) && n.parent != null
    ensures ChainIn(n.parent, U)
    ensures Chain(n, U) == [n] + Chain(n.parent, U)
  {
    var c := Chain(n, U);
    RootChainInUniverse(c[1..], U);
    RootChainUnique(c[1..], Chain(n.parent, U));
  }

  /** The dag path spelled by a chain: the names from the root down to `c[0]`, each after a `|`. */
  function PathOf(c: seq<Node>): string
  {
    if |c| == 0 then "" else PathOf(c[1..]) + "|" + c[0].name
  }

  /** The fully qualified dag path of a node. */
  function DagPath(n: Node, ghost U: set<Node>): string
    reads U`parent
    requires ChainIn(n, U)
  {
    PathOf(Chain(n, U))
  }

  /** A root's path is `|name`; any other node's path is its parent's path, `|`, and its name. */
  lemma DagPathUnfold(n: Node, U: set<Node>)
    requires ChainIn(n, U)
    ensures n.parent == null ==> DagPath(n, U) == "|" + n.name
    ensures n.parent != null ==> ChainIn(n.parent, U) && DagPath(n, U) == DagPath(n.parent, U) + "|" + n.name
  {
    var c := Chain(n, U);
    if n.parent != null {
      ChainUnfold(n, U);
      assert c[1..] == Chain(n.parent, U);
    } else {
      assert c == [n];
      assert PathOf(c) == PathOf(c[1..]) + "|" + n.name;
    }
  }

  /** All names along a chain are plain. */
  ghost predicate PlainNames(c: seq<Node>)
  {
    forall i :: 0 <= i < |c| ==> PlainName(c[i].name)
  }

  /**
   * The pattern the display form reaches after climbing `k` ancestors: the
   * node's name joined under the names of its first `k` ancestors.
   */
  function MelPattern(c: seq<Node>, k: nat): string
    requires k < |c|
  {
    if k == 0 then c[0].name else Join(c[k].name, MelPattern(c, k - 1))
  }

  /** A relative dag path: non-empty, neither starting nor ending with `|`, and without `*`. */
  ghost predicate RelativePath(m: string)
  {
    |m| > 0 && m[0] != '|' && m[|m| - 1] != '|' && !HasStar(m)
  }

  lemma ConcatRelative(name: string, m: string)
    requires PlainName(name) && RelativePath(m)
    ensures RelativePath(name + "|" + m)
  {
    var r := name + "|" + m;
    forall i | 0 <= i < |r| ensures r[i] != '*' {
      if i < |name| {
        assert r[i] == name[i];
      } else if i > |name| {
        assert r[i] == m[i - |name| - 1];
      }
    }
    assert r[0] == name[0];
    assert r[|r| - 1] == m[|m| - 1];
  }

  /** The names of `c[k]`, ..., `c[0]`, each followed by `|` except the last. */
  function RelativeName(c: seq<Node>, k: nat): string
    requires k < |c|
  {
    if k == 0 then c[0].name else c[k].name + "|" + RelativeName(c, k - 1)
  }

  /** The dag path spelled by a chain splits after the `k`-th ancestor's parent. */
  lemma {:induction false} PathOfSplit(c: seq<Node>, k: nat)
    requires k < |c|
    ensures PathOf(c) == PathOf(c[k + 1..]) + "|" + RelativeName(c, k)
  {
    if k > 0 {
      PathOfSplit(c, k - 1);
      var t := c[k..];
      assert t[1..] == c[k + 1..] && t[0] == c[k];
      calc {
        PathOf(c);
        PathOf(t) + "|" + RelativeName(c, k - 1);
        (PathOf(c[k + 1..]) + "|" + c[k].name) + "|" + RelativeName(c, k - 1);
        PathOf(c[k + 1..]) + "|" + (c[k].name + "|" + RelativeName(c, k - 1));
      }
    }
  }

  /** With plain names, the pattern after `k` climbs is that relative name: no `Join` strips anything. */
  lemma {:induction false} MelPatternIsRelativeName(c: seq<Node>, k: nat)
    requires k < |c| && PlainNames(c)
    ensures MelPattern(c, k) == RelativeName(c, k) && RelativePath(RelativeName(c, k))
  {
    if k > 0 {
      MelPatternIsRelativeName(c, k - 1);
      JoinPlain(c[k].name, RelativeName(c, k - 1));
      ConcatRelative(c[k].name, RelativeName(c, k - 1));
    }
  }

  /**
   * With plain names, the pattern after `k` climbs is the tail of the dag
   * path below the `k`-th ancestor's parent, and a relative path.
   */
  lemma MelPatternIsPathTail(c: seq<Node>, k: nat)
    requires k < |c| && PlainNames(c)
    ensures PathOf(c) == PathOf(c[k + 1..]) + "|" + MelPattern(c, k)
    ensures RelativePath(MelPattern(c, k))
  {
    PathOfSplit(c, k);
    MelPatternIsRelativeName(c, k);
  }

  /** With plain names, the full climb preceded by `|` is the dag path. */
  lemma FullPatternIsDagPath(n: Node, U: set<Node>)
    requires ChainIn(n, U) && PlainNames(Chain(n, U))
    ensures var c := Chain(n, U); "|" + MelPattern(c, |c| - 1) == DagPath(n, U)
  {
    var c := Chain(n, U);
    MelPatternIsPathTail(c, |c| - 1);
    assert c[|c|..] == [];
  }

  /** `c` is a chain to a root under the parent links recorded in `pm`. */
  ghost predicate LinkedUnder(pm: map<Node, Node?>, c: seq<Node>)
  {
    |c| >= 1
    && (forall i :: 0 <= i < |c| ==> c[i] in pm)
    && (forall i :: 0 <= i < |c| - 1 ==> pm[c[i]] == c[i + 1])
    && pm[c[|c| - 1]] == null
  }

  lemma LinkedLength(pm: map<Node, Node?>, c: seq<Node>, a: nat)
    requires LinkedUnder(pm, c) && a < |c|
    ensures a + 1 < |c| <==> pm[c[a]] != null
  {
    if a + 1 < |c| {
      assert pm[c[a]] == c[a + 1];
    } else {
      assert c[|c| - 1] == c[a];
    }
  }

  /** Two chains under the same links that meet at a node agree from there up to the root. */
  lemma {:induction false} LinkedChainsMeet(pm: map<Node, Node?>, c: seq<Node>, a: nat, t: seq<Node>, b: nat)
    requires LinkedUnder(pm, c) && LinkedUnder(pm, t)
    requires a < |c| && b < |t| && c[a] == t[b]
    ensures c[a..] == t[b..]
    decreases |c| - a
  {
    LinkedLength(pm, c, a);
    LinkedLength(pm, t, b);
    if a + 1 < |c| {
      assert pm[c[a]] == c[a + 1] && pm[t[b]] == t[b + 1];
      LinkedChainsMeet(pm, c, a + 1, t, b + 1);
      assert c[a..] == [c[a]] + c[a + 1..];
      assert t[b..] == [t[b]] + t[b + 1..];
    } else {
      assert c[a..] == [c[a]] && t[b..] == [t[b]];
    }
  }

  /** Once two recorded chains meet, every later node of the one is on the other. */
  lemma MeetingChainsShareAncestors(pm: map<Node, Node?>, c: seq<Node>, a: nat, t: seq<Node>, b: nat, i: nat)
    requires LinkedUnder(pm, c) && LinkedUnder(pm, t)
    requires a <= i < |c| && b < |t| && c[a] == t[b]
    ensures c[i] in t
  {
    LinkedChainsMeet(pm, c, a, t, b);
    assert c[i] == c[a..][i - a] == t[b..][i - a];
  }

  /** A snapshot of the parent links of the nodes of `U`. */
  ghost function Links(U: set<Node>): (pm: map<Node, Node?>)
    reads U`parent
    ensures forall y :: y in U ==> y in pm && pm[y] == y.parent
  {
    map y | y in U :: y.parent
  }

  /** The chain of a node follows the links of the snapshot taken in the same state. */
  lemma ChainLinked(m: Node, U: set<Node>)
    requires ChainIn(m, U)
    ensures LinkedUnder(Links(U), Chain(m, U))
  {
  }

  /**
   * After a change of `x`'s parent, a chain recorded in the snapshot `pm`
   * that avoids `x` is still the chain of its head.
   */
  lemma RelinkAvoiding(U: set<Node>, x: Node, pm: map<Node, Node?>, c: seq<Node>)
    requires LinkedUnder(pm, c) && Distinct(c) && x !in c
    requires forall i :: 0 <= i < |c| ==> c[i] in U
    requires forall y :: y in U && y != x ==> y in pm && y.parent == pm[y]
    ensures ChainIn(c[0], U) && Chain(c[0], U) == c
  {
    forall j | 0 <= j < |c| - 1 ensures c[j].parent == c[j + 1] {
      assert c[j] != x;
    }
    assert c[|c| - 1] != x;
    RootChainInUniverse(c, U);
    RootChainUnique(c, Chain(c[0], U));
  }

  /**
   * Cutting a recorded chain `c` at `x` and continuing with a recorded chain
   * `tail` that avoids `x` repeats no node.
   */
  lemma SpliceDistinct(pm: map<Node, Node?>, c: seq<Node>, i: nat, tail: seq<Node>)
    requires LinkedUnder(pm, c) && Distinct(c) && i < |c|
    requires tail == [] || (LinkedUnder(pm, tail) && Distinct(tail))
    requires c[i] !in tail
    ensures Distinct(c[..i + 1] + tail)
  {
    var head := c[..i + 1];
    forall a, b | 0 <= a < |head| && 0 <= b < |tail| ensures head[a] != tail[b] {
      if head[a] == tail[b] {
        MeetingChainsShareAncestors(pm, c, a, tail, b, i);
      }
    }
    var nc := head + tail;
    forall a, b | 0 <= a < b < |nc| ensures nc[a] != nc[b] {
      if b < |head| {
        assert nc[a] == c[a] && nc[b] == c[b];
      } else if a >= |head| {
        assert nc[a] == tail[a - |head|] && nc[b] == tail[b - |head|];
      } else {
        assert nc[a] == head[a] && nc[b] == tail[b - |head|];
      }
    }
  }

  /**
   * After `x` is given the parent `p`, a recorded chain `c` through `x` is cut
   * at `x` and continued with the recorded chain `tail` of `p` (empty when `p`
   * is null); when `tail` avoids `x`, the head of `c` still has a chain in `U`.
   */
  lemma RelinkThrough(U: set<Node>, x: Node, p: Node?, pm: map<Node, Node?>, c: seq<Node>, tail: seq<Node>)
    requires LinkedUnder(pm, c) && Distinct(c) && x in c
    requires forall i :: 0 <= i < |c| ==> c[i] in U
    requires p == null ==> tail == []
    requires p != null ==> LinkedUnder(pm, tail) && Distinct(tail) && tail[0] == p
    requires x !in tail && forall i :: 0 <= i < |tail| ==> tail[i] in U
    requires forall y :: y in U && y != x ==> y in pm && y.parent == pm[y]
    requires x.parent == p
    ensures ChainIn(c[0], U)
  {
    var i :| 0 <= i < |c| && c[i] == x;
    var head := c[..i + 1];
    SpliceDistinct(pm, c, i, tail);
    var nc := head + tail;
    forall j | 0 <= j < |nc| - 1 ensures nc[j].parent == nc[j + 1] {
      if j < i {
        assert nc[j] == c[j] && nc[j + 1] == c[j + 1] && c[j] != x;
      } else if j == i {
        assert nc[j] == x && nc[j + 1] == tail[0];
      } else {
        var t := j - |head|;
        assert nc[j] == tail[t] && nc[j + 1] == tail[t + 1] && tail[t] != x;
      }
    }
    assert nc[|nc| - 1].parent == null by {
      if p != null {
        assert nc[|nc| - 1] == tail[|tail| - 1] != x;
      }
    }
    RootChainInUniverse(nc, U);
  }

  /**
   * Re-parenting `x` under `p` keeps every chain of `U` finite when `x` is
   * not an ancestor-or-self of `p`; `pm` and `c`, `tail` are the links and
   * the chains of the head and of `p` recorded before the change.
   */
  lemma ReparentKeepsChain(U: set<Node>, x: Node, p: Node?, pm: map<Node, Node?>, c: seq<Node>, tail: seq<Node>)
    requires LinkedUnder(pm, c) && Distinct(c)
    requires forall i :: 0 <= i < |c| ==> c[i] in U
    requires p == null ==> tail == []
    requires p != null ==> LinkedUnder(pm, tail) && Distinct(tail) && tail[0] == p
    requires x !in tail && forall i :: 0 <= i < |tail| ==> tail[i] in U
    requires forall y :: y in U && y != x ==> y in pm && y.parent == pm[y]
    requires x.parent == p
    ensures ChainIn(c[0], U)
    ensures x !in c ==> Chain(c[0], U) == c
  {
    if x in c {
      RelinkThrough(U, x, p, pm, c, tail);
    } else {
      RelinkAvoiding(U, x, pm, c);
    }
  }

  /** The chains of every node of `U`. */
  ghost function Chains(U: set<Node>): (chains: map<Node, seq<Node>>)
    reads U`parent
    requires forall n :: n in U ==> ChainIn(n, U)
    ensures chains.Keys == U
    ensures forall n :: n in U ==> chains[n] == Chain(n, U)
  {
    map n | n in U :: Chain(n, U)
  }

  /** Every chain of `Chains(U)` follows the links of `U`, repeats no node and stays in `U`. */
  lemma ChainsLinked(U: set<Node>)
    requires forall n :: n in U ==> ChainIn(n, U)
    ensures forall n :: n in U ==> LinkedUnder(Links(U), Chains(U)[n]) && Distinct(Chains(U)[n]) && Chains(U)[n][0] == n
    ensures forall n, i :: n in U && 0 <= i < |Chains(U)[n]| ==> Chains(U)[n][i] in U
  {
    forall n | n in U
      ensures LinkedUnder(Links(U), Chains(U)[n])
    {
      ChainLinked(n, U);
    }
  }

  /**
   * A snapshot of the parent links and of the chains of the nodes of `U`:
   * each chain follows the links, repeats no node and stays in `U`; the
   * chain of `p` is its chain now.
   */
  lemma Snapshot(U: set<Node>, p: Node?) returns (pm: map<Node, Node?>, chains: map<Node, seq<Node>>)
    requires forall n :: n in U ==> ChainIn(n, U)
    requires p != null ==> p in U
    ensures forall y :: y in U ==> y in pm && pm[y] == y.parent
    ensures chains.Keys == U
    ensures p != null ==> chains[p] == Chain(p, U)
    ensures forall n :: n in U ==> LinkedUnder(pm, chains[n]) && Distinct(chains[n]) && chains[n][0] == n
    ensures forall n, i :: n in U && 0 <= i < |chains[n]| ==> chains[n][i] in U
  {
    pm := Links(U);
    chains := Chains(U);
    ChainsLinked(U);
  }

  /**
   * After `x` is given the parent `p` (whose recorded chain avoids `x`), every
   * node of `U` still has a chain, and the nodes whose recorded chain avoids
   * `x` have their recorded chain.
   */
  lemma ReparentKeepsChains(U: set<Node>, x: Node, p: Node?, pm: map<Node, Node?>, chains: map<Node, seq<Node>>)
    requires chains.Keys == U && (p != null ==> p in U && x !in chains[p])
    requires forall n :: n in U ==> LinkedUnder(pm, chains[n]) && Distinct(chains[n]) && chains[n][0] == n
    requires forall n, i :: n in U && 0 <= i < |chains[n]| ==> chains[n][i] in U
    requires forall y :: y in U && y != x ==> y in pm && y.parent == pm[y]
    requires x.parent == p
    ensures forall n :: n in U ==> ChainIn(n, U)
    ensures forall n :: n in U && x !in chains[n] ==> Chain(n, U) == chains[n]
  {
    var tail: seq<Node> := if p != null then chains[p] else [];
    forall n | n in U
      ensures ChainIn(n, U) && (x !in chains[n] ==> Chain(n, U) == chains[n])
    {
      ReparentKeepsChain(U, x, p, pm, chains[n], tail);
    }
  }

  /**
   * `set_parent` on a node of `U`: `x` moves under `p`, or to the root. When
   * `x` is not on `p`'s chain, every chain of `U` stays finite, and `x`'s dag
   * path becomes `p`'s path, `|` and its name.
   */
  method Relink(x: Node, p: Node?, ghost U: set<Node>)
    requires forall n :: n in U ==> ChainIn(n, U)
    requires x in U && (p != null ==> p in U && x !in Chain(p, U))
    modifies x`parent, Present(x.parent, p)`children
    ensures x.parent == p
    ensures p != null ==> p.children == old(p.children) + {x}
    ensures old(x.parent) != null && old(x.parent) != p ==> old(x.parent).children == old(x.parent.children) - {x}
    ensures forall n :: n in U ==> ChainIn(n, U)
    ensures p == null ==> DagPath(x, U) == "|" + x.name
    ensures p != null ==> DagPath(x, U) == old(DagPath(p, U)) + "|" + x.name
    ensures p != null ==> Chain(p, U) == old(Chain(p, U))
  {
    ghost var pm, chains := Snapshot(U, p);
    x.SetParent(p);
    ReparentKeepsChains(U, x, p, pm, chains);
    DagPathUnfold(x, U);
  }
}
