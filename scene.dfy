/**
 * Queries over a scene: which nodes a pattern matches, whether a name is
 * taken, a node's display form, the automatic `<prefix><n>` names and the
 * connections touching a port. Every query is a function of the session's
 * node and connection sets and of the parent links of a ghost universe `U`
 * of nodes in which every chain ends.
 */
module Scene {
  import opened Errors
  import opened PyStrings
  import opened Constants
  import opened Naming
  import opened Nodes
  import opened Ports
  import opened Connections

  /** Every node of `S` has a finite parent chain inside `U`. */
  ghost predicate Rooted(S: set<Node>, U: set<Node>)
    reads U`parent
  {
    forall n :: n in S ==> ChainIn(n, U)
  }

  /** The nodes whose dag path matches the pattern (`iter_node_by_match`). */
  function MatchingNodes(nodes: set<Node>, ghost U: set<Node>, pattern: Option<string>): (r: set<Node>)
    reads U`parent
    requires Rooted(nodes, U)
    ensures r <= nodes
  {
    set n | n in nodes && MatchesDagPath(pattern, DagPath(n, U))
  }

  /** `node_exist`: some node matches the given path, read as a pattern. */
  predicate NodeExist(nodes: set<Node>, ghost U: set<Node>, dagpath: string)
    reads U`parent
    requires Rooted(nodes, U)
  {
    MatchingNodes(nodes, U, Some(dagpath)) != {}
  }

  /** `is_pattern_clashing`: a node other than `node` matches the pattern. */
  predicate IsPatternClashing(nodes: set<Node>, ghost U: set<Node>, node: Node, pattern: string)
    reads U`parent
    requires Rooted(nodes, U)
  {
    MatchingNodes(nodes, U, Some(pattern)) - {node} != {}
  }

  /** `_is_name_valid`: non-empty and not a reserved word. */
  predicate IsNameValid(name: string)
  {
    name != "" && name !in BlacklistedNodeNames
  }

  /**
   * The display-form loop from the `k`-th ancestor on: the current pattern
   * is kept when no other node matches it; otherwise the next ancestor's name
   * is joined in front, and at the root a `|` is prepended and the loop stops.
   */
  function DisplayFrom(nodes: set<Node>, ghost U: set<Node>, c: seq<Node>, k: nat): string
    reads U`parent
    requires Rooted(nodes, U) && k < |c|
    decreases |c| - k
  {
    var pattern := MelPattern(c, k);
    if !IsPatternClashing(nodes, U, c[0], pattern) then pattern
    else if k + 1 < |c| then DisplayFrom(nodes, U, c, k + 1)
    else "|" + pattern
  }

  /** A node's display form (`__melobject__`). */
  function DisplayForm(nodes: set<Node>, ghost U: set<Node>, n: Node): string
    reads U`parent
    requires Rooted(nodes, U) && ChainIn(n, U)
  {
    DisplayFrom(nodes, U, Chain(n, U), 0)
  }

  /** A port's `__melobject__`: its node's display form, `.` and its name. */
  function PortDisplay(nodes: set<Node>, ghost U: set<Node>, p: Port): string
    reads U`parent
    requires Rooted(nodes, U) && ChainIn(p.node, U)
  {
    DisplayForm(nodes, U, p.node) + "." + p.name
  }

  /** The pattern after `j` climbs is matched by a node other than `c[0]`. */
  predicate Clashes(nodes: set<Node>, ghost U: set<Node>, c: seq<Node>, j: nat)
    reads U`parent
    requires Rooted(nodes, U) && j < |c|
  {
    IsPatternClashing(nodes, U, c[0], MelPattern(c, j))
  }

  /** Where the display-form loop started at `k` stops climbing. */
  function StopIndex(nodes: set<Node>, ghost U: set<Node>, c: seq<Node>, k: nat): (m: nat)
    reads U`parent
    requires Rooted(nodes, U) && k < |c|
    ensures k <= m < |c|
    decreases |c| - k
  {
    if !Clashes(nodes, U, c, k) then k
    else if k + 1 < |c| then StopIndex(nodes, U, c, k + 1)
    else k
  }

  /**
   * The display form is the first pattern of the climb that no other node
   * matches, or, when every pattern up to the root clashes, the last one
   * behind a `|`.
   */
  lemma {:induction false} DisplayFromIsFirstFree(nodes: set<Node>, U: set<Node>, c: seq<Node>, k: nat)
    requires Rooted(nodes, U) && k < |c|
    ensures var m := StopIndex(nodes, U, c, k);
      (forall j :: k <= j < m ==> Clashes(nodes, U, c, j))
      && (!Clashes(nodes, U, c, m) ==> DisplayFrom(nodes, U, c, k) == MelPattern(c, m))
      && (Clashes(nodes, U, c, m) ==> m == |c| - 1 && DisplayFrom(nodes, U, c, k) == "|" + MelPattern(c, m))
    decreases |c| - k
  {
    if Clashes(nodes, U, c, k) && k + 1 < |c| {
      DisplayFromIsFirstFree(nodes, U, c, k + 1);
    }
  }

  /** A node that no other node's path matches by name is shown by its bare name. */
  lemma BareNameWhenUnambiguous(nodes: set<Node>, U: set<Node>, n: Node)
    requires Rooted(nodes, U) && ChainIn(n, U)
    requires !IsPatternClashing(nodes, U, n, n.name)
    ensures DisplayForm(nodes, U, n) == n.name
  {
  }

  /** A root node whose name another node matches is shown as `|name`. */
  lemma AmbiguousRootIsAbsolute(nodes: set<Node>, U: set<Node>, n: Node)
    requires Rooted(nodes, U) && ChainIn(n, U) && n.parent == null
    requires IsPatternClashing(nodes, U, n, n.name)
    ensures DisplayForm(nodes, U, n) == "|" + n.name
  {
    assert Chain(n, U) == [n];
  }

  /**
   * A child whose name clashes but whose parent-qualified name does not is
   * shown as `parent|name`.
   */
  lemma AmbiguousChildIsQualified(nodes: set<Node>, U: set<Node>, n: Node)
    requires Rooted(nodes, U) && ChainIn(n, U) && n.parent != null
    requires PlainName(n.name) && PlainName(n.parent.name)
    requires IsPatternClashing(nodes, U, n, n.name)
    requires !IsPatternClashing(nodes, U, n, n.parent.name + "|" + n.name)
    ensures DisplayForm(nodes, U, n) == n.parent.name + "|" + n.name
  {
    var c := Chain(n, U);
    ChainUnfold(n, U);
    assert c[1] == n.parent;
    JoinPlain(n.parent.name, n.name);
    assert MelPattern(c, 1) == n.parent.name + "|" + n.name;
    assert DisplayFrom(nodes, U, c, 0) == DisplayFrom(nodes, U, c, 1);
  }

  /** A dag path of plain names has no empty segment and no `*`. */
  lemma {:induction false} PlainPathShape(c: seq<Node>)
    requires PlainNames(c) && |c| >= 1
    ensures var d := PathOf(c); NoEmptySegment(d) && !HasStar(d) && |d| > 0 && d[0] == '|'
  {
    var d := PathOf(c);
    if |c| == 1 {
      assert c[1..] == [];
      assert d == "|" + c[0].name;
      assert PlainName(c[0].name);
      forall k | 0 <= k < |d| - 1 ensures !(d[k] == '|' && d[k + 1] == '|') {
        assert d[k + 1] == c[0].name[k];
      }
      forall k | 0 <= k < |d| ensures d[k] != '*' {
        if k > 0 {
          assert d[k] == c[0].name[k - 1];
        }
      }
    } else {
      var t := PathOf(c[1..]);
      assert PlainNames(c[1..]) by {
        forall i | 0 <= i < |c[1..]| ensures PlainName(c[1..][i].name) {
          assert c[1..][i] == c[i + 1];
        }
      }
      PlainPathShape(c[1..]);
      var nm := c[0].name;
      assert PlainName(nm);
      assert d == t + "|" + nm;
      forall k | 0 <= k < |d| - 1 ensures !(d[k] == '|' && d[k + 1] == '|') {
        if k + 1 < |t| {
          assert d[k] == t[k] && d[k + 1] == t[k + 1];
        } else if k + 1 == |t| {
          assert d[k + 1] == '|' && d[k] == t[|t| - 1];
          assert t[|t| - 1] == c[1].name[|c[1].name| - 1] by {
            DagTailIsName(c[1..]);
          }
        } else {
          assert d[k + 1] == nm[k - |t|];
        }
      }
      forall k | 0 <= k < |d| ensures d[k] != '*' {
        if k < |t| {
          assert d[k] == t[k];
        } else if k > |t| {
          assert d[k] == nm[k - |t| - 1];
        }
      }
    }
  }

  /** The path spelled by a chain ends with the name of its first node. */
  lemma DagTailIsName(c: seq<Node>)
    requires |c| >= 1
    ensures var d := PathOf(c); |d| > |c[0].name| && d[|d| - |c[0].name|..] == c[0].name
  {
    var d := PathOf(c);
    assert d == PathOf(c[1..]) + "|" + c[0].name;
  }

  /** Every node of `S` has a chain of plain names. */
  ghost predicate PlainScene(S: set<Node>, U: set<Node>)
    reads U`parent
    requires Rooted(S, U)
  {
    forall n :: n in S ==> PlainNames(Chain(n, U))
  }

  /**
   * The display form names its node: with plain names everywhere, the node
   * matches its own display form, and any other node it matches has the very
   * same dag path (possible only when the climb reached the root).
   */
  lemma DisplayFormResolvesToNode(nodes: set<Node>, U: set<Node>, n: Node)
    requires Rooted(nodes, U) && n in nodes && PlainScene(nodes, U)
    ensures var r := DisplayForm(nodes, U, n);
      n in MatchingNodes(nodes, U, Some(r))
      && forall m :: m in MatchingNodes(nodes, U, Some(r)) ==> DagPath(m, U) == DagPath(n, U)
  {
    var c := Chain(n, U);
    var r := DisplayForm(nodes, U, n);
    DisplayFromIsFirstFree(nodes, U, c, 0);
    var k := StopIndex(nodes, U, c, 0);
    var d := DagPath(n, U);
    MelPatternIsPathTail(c, k);
    if !Clashes(nodes, U, c, k) {
      RelativePatternMatchesSuffix(r, d);
      var pre := PathOf(c[k + 1..]);
      assert d == pre + "|" + r;
      assert d[|d| - |r| - 1..] == "|" + r;
      assert n in MatchingNodes(nodes, U, Some(r));
      forall m | m in MatchingNodes(nodes, U, Some(r)) ensures m == n {
        assert m !in MatchingNodes(nodes, U, Some(r)) - {n};
      }
    } else {
      FullPatternIsDagPath(n, U);
      assert r == d;
      PlainPathShape(c);
      GlobWithoutStarIsEquality(r, d);
      forall m | m in MatchingNodes(nodes, U, Some(r)) ensures DagPath(m, U) == d {
        PlainPathShape(Chain(m, U));
        AbsolutePatternMatchesWholePath(r, DagPath(m, U));
        GlobWithoutStarIsEquality(r, DagPath(m, U));
      }
    }
  }

  /** `"{}{}".format(prefix, i)`. */
  function Candidate(prefix: string, i: nat): string
  {
    prefix + NatToString(i)
  }

  /** The path a candidate name is tested at: joined under the parent, or `|name` at the root. */
  function CandidatePath(parent: Node?, name: string, ghost U: set<Node>): string
    reads U`parent
    requires parent != null ==> ChainIn(parent, U)
  {
    if parent != null then Join(DagPath(parent, U), name) else "|" + name
  }

  /** The `i`-th candidate is a valid name and no node matches its path. */
  predicate IsFree(nodes: set<Node>, ghost U: set<Node>, prefix: string, parent: Node?, i: nat)
    reads U`parent
    requires Rooted(nodes, U) && (parent != null ==> ChainIn(parent, U))
  {
    var name := Candidate(prefix, i);
    IsNameValid(name) && !NodeExist(nodes, U, CandidatePath(parent, name, U))
  }

  /** A bound on the length of every node's dag path. */
  ghost function PathLengthBound(nodes: set<Node>, U: set<Node>): (b: nat)
    reads U`parent
    requires Rooted(nodes, U)
    ensures forall n :: n in nodes ==> |DagPath(n, U)| < b
    decreases nodes
  {
    if nodes == {} then 0
    else
      var n :| n in nodes;
      var b := PathLengthBound(nodes - {n}, U);
      if |DagPath(n, U)| < b then b else |DagPath(n, U)| + 1
  }

  /** A string ending in digits has at least that many characters other than `*`. */
  lemma NonStarSuffix(x: string, digits: string)
    requires AllDigits(digits)
    ensures |x + digits| - CountChar(x + digits, '*') >= |digits|
  {
    CountCharAppend(x, digits, '*');
    CountCharBounded(x, '*');
    CountCharBounded(digits, '*');
  }

  /** Stripping `|` from both ends of a name that ends in digits keeps those digits at its end. */
  lemma StripKeepsDigits(prefix: string, digits: string)
    requires AllDigits(digits) && |digits| >= 1
    ensures var r := Strip(prefix + digits, '|'); |r| >= |digits| && r[|r| - |digits|..] == digits
  {
    var s := prefix + digits;
    LStripRemovesLeadingRun(s, '|');
    var r1 := LStrip(s, '|');
    assert s[|prefix|] == digits[0];
    assert |s| - |r1| <= |prefix|;
    assert r1[|r1| - |digits|..] == digits;
    RStripRemovesTrailingRun(r1, '|');
    var r2 := RStrip(r1, '|');
    assert r1[|r1| - 1] == digits[|digits| - 1];
    assert r2 == r1;
  }

  /** A numbered name ends in a digit, so it is never empty nor reserved. */
  lemma NumberedNameIsValid(prefix: string, i: nat)
    ensures IsNameValid(Candidate(prefix, i))
  {
    var name := Candidate(prefix, i);
    var digits := NatToString(i);
    assert IsDigit(name[|name| - 1]) by {
      assert name[|name| - 1] == digits[|digits| - 1];
    }
    BlacklistedNamesEndInLetter();
    forall k | 0 <= k < |BlacklistedNodeNames| ensures BlacklistedNodeNames[k] != name {
      var w := BlacklistedNodeNames[k];
      assert 'a' <= w[|w| - 1] <= 'z';
    }
  }

  /** In a scene of one root node with a plain name, `|x` exists exactly when `x` is that name. */
  lemma LoneRootExists(t: Node, U: set<Node>, x: string)
    requires ChainIn(t, U) && t.parent == null && PlainName(t.name) && PlainName(x)
    ensures NodeExist({t}, U, "|" + x) <==> x == t.name
  {
    DagPathUnfold(t, U);
    var d := DagPath(t, U);
    assert Chain(t, U) == [t];
    PlainPathShape(Chain(t, U));
    AbsolutePatternMatchesWholePath("|" + x, d);
    assert !HasStar("|" + x) by {
      forall k | 0 <= k < |"|" + x| ensures ("|" + x)[k] != '*' {
        if k > 0 {
          assert ("|" + x)[k] == x[k - 1];
        }
      }
    }
    GlobWithoutStarIsEquality("|" + x, d);
    if x != t.name {
      assert ("|" + x)[1..] == x;
      assert d[1..] == t.name;
    }
    assert MatchingNodes({t}, U, Some("|" + x)) == (if x == t.name then {t} else {});
  }

  /**
   * `_unique_name` terminates: the candidate numbered 10^b, where b bounds the
   * length of every dag path, has more digits than any path has characters,
   * so no node matches its path, and a name ending in a digit is never
   * reserved.
   */
  lemma FarCandidateIsFree(nodes: set<Node>, U: set<Node>, prefix: string, parent: Node?)
    requires Rooted(nodes, U) && (parent != null ==> ChainIn(parent, U))
    ensures IsFree(nodes, U, prefix, parent, Pow10(PathLengthBound(nodes, U)))
  {
    var b := PathLengthBound(nodes, U);
    var i := Pow10(b);
    var digits := NatToString(i);
    NatToStringLength(i, b);
    var name := Candidate(prefix, i);
    NumberedNameIsValid(prefix, i);
    var path := CandidatePath(parent, name, U);
    var front: string;
    if parent != null {
      StripKeepsDigits(prefix, digits);
      var r := Strip(name, '|');
      var head := (if StartsWithPipe(DagPath(parent, U)) then "|" else "") + Strip(DagPath(parent, U), '|') + "|";
      assert path == head + r;
      assert r == r[..|r| - |digits|] + digits;
      front := head + r[..|r| - |digits|];
    } else {
      front := "|" + prefix;
    }
    assert path == front + digits;
    NonStarSuffix(front, digits);
    forall n | n in nodes ensures !MatchesDagPath(Some(path), DagPath(n, U)) {
      LongPatternMatchesNothing(path, DagPath(n, U));
    }
    assert MatchingNodes(nodes, U, Some(path)) == {};
  }

  /** Below any free candidate lies a first free one. */
  lemma {:induction false} LeastFreeExists(nodes: set<Node>, U: set<Node>, prefix: string, parent: Node?, b: nat)
    requires Rooted(nodes, U) && (parent != null ==> ChainIn(parent, U))
    requires b >= 1 && IsFree(nodes, U, prefix, parent, b)
    ensures exists k :: (1 <= k <= b && IsFree(nodes, U, prefix, parent, k)
      && forall j :: 1 <= j < k ==> !IsFree(nodes, U, prefix, parent, j))
    decreases b
  {
    if exists j :: 1 <= j < b && IsFree(nodes, U, prefix, parent, j) {
      var j :| 1 <= j < b && IsFree(nodes, U, prefix, parent, j);
      LeastFreeExists(nodes, U, prefix, parent, j);
    }
  }

  /** The number `_unique_name` settles on: the first `i >= 1` whose candidate is free. */
  ghost function LeastFree(nodes: set<Node>, U: set<Node>, prefix: string, parent: Node?): (k: nat)
    reads U`parent
    requires Rooted(nodes, U) && (parent != null ==> ChainIn(parent, U))
    ensures k >= 1 && IsFree(nodes, U, prefix, parent, k)
    ensures forall j :: 1 <= j < k ==> !IsFree(nodes, U, prefix, parent, j)
  {
    FarCandidateIsFree(nodes, U, prefix, parent);
    LeastFreeExists(nodes, U, prefix, parent, Pow10(PathLengthBound(nodes, U)));
    var k :| 1 <= k && IsFree(nodes, U, prefix, parent, k)
      && forall j :: 1 <= j < k ==> !IsFree(nodes, U, prefix, parent, j);
    k
  }

  /** The prefix of an automatic name: the type, or `<shape prefix>Shape` for a shape type. */
  function AutoPrefix(nodeType: string): (prefix: string)
    ensures nodeType !in ShapeClass ==> prefix == nodeType
    ensures nodeType in ShapeClass ==> prefix == DefaultPrefix(nodeType) + "Shape"
  {
    if nodeType in ShapeClass then DefaultPrefix(nodeType) + "Shape" else nodeType
  }

  /** The path an explicit name is checked at: `<parent dag path>|<name>`, or `|<name>`. */
  function ExplicitPath(parent: Node?, name: string, ghost U: set<Node>): string
    reads U`parent
    requires parent != null ==> ChainIn(parent, U)
  {
    if parent != null then DagPath(parent, U) + "|" + name else "|" + name
  }

  /**
   * The name `create_node` gives a node, from the conformed name: without
   * one, the first free `<prefix><n>`; an explicit name that is valid and
   * whose path no node matches, as is; otherwise the name without its
   * trailing digits, numbered afresh.
   */
  ghost function ResolvedName(nodes: set<Node>, U: set<Node>, nodeType: string, name: Option<string>, parent: Node?): string
    reads U`parent
    requires Rooted(nodes, U) && (parent != null ==> ChainIn(parent, U))
  {
    if name.None? then
      Candidate(AutoPrefix(nodeType), LeastFree(nodes, U, AutoPrefix(nodeType), parent))
    else if IsNameValid(name.value) && !NodeExist(nodes, U, ExplicitPath(parent, name.value, U)) then
      name.value
    else
      var base := RStripDigits(name.value);
      Candidate(base, LeastFree(nodes, U, base, parent))
  }

  /**
   * The resolved name is always valid, and no node matches it where it was
   * checked: at its explicit path when kept, at its joined path when numbered.
   */
  lemma ResolvedNameIsFree(nodes: set<Node>, U: set<Node>, nodeType: string, name: Option<string>, parent: Node?)
    requires Rooted(nodes, U) && (parent != null ==> ChainIn(parent, U))
    ensures var r := ResolvedName(nodes, U, nodeType, name, parent);
      IsNameValid(r)
      && (name.Some? && r == name.value && IsNameValid(name.value) ==>
            !NodeExist(nodes, U, ExplicitPath(parent, r, U)) || !NodeExist(nodes, U, CandidatePath(parent, r, U)))
      && (name.None? || r != name.value || !IsNameValid(name.value) || NodeExist(nodes, U, ExplicitPath(parent, name.value, U)) ==>
            !NodeExist(nodes, U, CandidatePath(parent, r, U)))
  {
  }

  /** A numbered name keeps the stem: the type's prefix, or the explicit name without its trailing digits. */
  lemma ResolvedNameStem(nodes: set<Node>, U: set<Node>, nodeType: string, name: Option<string>, parent: Node?)
    requires Rooted(nodes, U) && (parent != null ==> ChainIn(parent, U))
    ensures var r := ResolvedName(nodes, U, nodeType, name, parent);
      (name.None? ==> AutoPrefix(nodeType) < r && AllDigits(r[|AutoPrefix(nodeType)|..]))
      && (name.Some? && r != name.value ==> RStripDigits(name.value) < r && AllDigits(r[|RStripDigits(name.value)|..]))
  {
    var r := ResolvedName(nodes, U, nodeType, name, parent);
    if name.None? {
      var k := LeastFree(nodes, U, AutoPrefix(nodeType), parent);
      assert r[|AutoPrefix(nodeType)|..] == NatToString(k);
    } else if r != name.value {
      var base := RStripDigits(name.value);
      var k := LeastFree(nodes, U, base, parent);
      assert r[|base|..] == NatToString(k);
    }
  }

  /** In an empty scene the first `transform` is `transform1`, the first `mesh` is `polySurfaceShape1`. */
  lemma FirstAutomaticNames(U: set<Node>)
    ensures ResolvedName({}, U, "transform", None, null) == "transform1"
    ensures ResolvedName({}, U, "mesh", None, null) == "polySurfaceShape1"
  {
    assert NatToString(1) == "1";
    assert IsFree({}, U, "transform", null, 1);
    assert LeastFree({}, U, "transform", null) == 1;
    assert AutoPrefix("mesh") == "polySurfaceShape";
    assert IsFree({}, U, "polySurfaceShape", null, 1);
    assert LeastFree({}, U, "polySurfaceShape", null) == 1;
  }

  /** Beside a root `transform1`, the next `transform` is `transform2`. */
  lemma SecondAutomaticName(t: Node, U: set<Node>)
    requires ChainIn(t, U) && t.parent == null && t.name == "transform1"
    ensures ResolvedName({t}, U, "transform", None, null) == "transform2"
  {
    assert NatToString(1) == "1" && NatToString(2) == "2";
    assert Candidate("transform", 1) == "transform1" && Candidate("transform", 2) == "transform2";
    assert PlainName("transform1") && PlainName("transform2");
    LoneRootExists(t, U, "transform1");
    LoneRootExists(t, U, "transform2");
    NumberedNameIsValid("transform", 2);
    assert !IsFree({t}, U, "transform", null, 1);
    assert IsFree({t}, U, "transform", null, 2);
    assert LeastFree({t}, U, "transform", null) == 2;
  }

  /** An explicit `foo` beside a root `foo` becomes `foo1`. */
  lemma CollidingNameIsNumbered(f: Node, U: set<Node>)
    requires ChainIn(f, U) && f.parent == null && f.name == "foo"
    ensures ResolvedName({f}, U, "transform", Some("foo"), null) == "foo1"
  {
    assert NatToString(1) == "1";
    assert Candidate("foo", 1) == "foo1";
    assert PlainName("foo") && PlainName("foo1");
    LoneRootExists(f, U, "foo");
    LoneRootExists(f, U, "foo1");
    NumberedNameIsValid("foo", 1);
    assert NodeExist({f}, U, ExplicitPath(null, "foo", U));
    assert RStripDigits("foo") == "foo";
    assert IsFree({f}, U, "foo", null, 1);
    assert LeastFree({f}, U, "foo", null) == 1;
  }

  /** `get_port_input_connections`: the connections whose destination is `p`. */
  function InputConnections(conns: set<Connection>, p: Port): (r: set<Connection>)
    ensures r <= conns
  {
    set c | c in conns && c.dst == p
  }

  /** `get_port_output_connections`: the connections whose source is `p`. */
  function OutputConnections(conns: set<Connection>, p: Port): (r: set<Connection>)
    ensures r <= conns
  {
    set c | c in conns && c.src == p
  }

  /** `port_is_source`. */
  predicate PortIsSource(conns: set<Connection>, p: Port)
  {
    exists c :: c in conns && c.src == p
  }

  /** `port_is_destination`. */
  predicate PortIsDestination(conns: set<Connection>, p: Port)
  {
    exists c :: c in conns && c.dst == p
  }

  /** `get_port_inputs`: the sources of the input connections. */
  function PortInputs(conns: set<Connection>, p: Port): set<Port>
  {
    set c | c in InputConnections(conns, p) :: c.src
  }

  /** `get_port_outputs`: the destinations of the output connections. */
  function PortOutputs(conns: set<Connection>, p: Port): set<Port>
  {
    set c | c in OutputConnections(conns, p) :: c.dst
  }

  /** A port is a source exactly when it has an output, and a destination exactly when it has an input. */
  lemma SourceIffHasOutputs(conns: set<Connection>, p: Port)
    ensures PortIsSource(conns, p) <==> OutputConnections(conns, p) != {}
    ensures OutputConnections(conns, p) != {} <==> PortOutputs(conns, p) != {}
    ensures PortIsDestination(conns, p) <==> InputConnections(conns, p) != {}
    ensures InputConnections(conns, p) != {} <==> PortInputs(conns, p) != {}
  {
    if PortIsSource(conns, p) {
      var c :| c in conns && c.src == p;
      assert c in OutputConnections(conns, p);
    }
    if OutputConnections(conns, p) != {} {
      var c :| c in OutputConnections(conns, p);
      assert c.dst in PortOutputs(conns, p);
    }
    if PortIsDestination(conns, p) {
      var c :| c in conns && c.dst == p;
      assert c in InputConnections(conns, p);
    }
    if InputConnections(conns, p) != {} {
      var c :| c in InputConnections(conns, p);
      assert c.src in PortInputs(conns, p);
    }
  }

  /** Some connection of `conns` goes from the very port `src` to the very port `dst`. */
  predicate HasConnection(conns: set<Connection>, src: Port, dst: Port)
  {
    exists c :: c in conns && c.src == src && c.dst == dst
  }

  /** The inputs of `p` are the ports connected into it, its outputs those it is connected to. */
  lemma InputsAreConnectedSources(conns: set<Connection>, p: Port, q: Port)
    ensures q in PortInputs(conns, p) <==> HasConnection(conns, q, p)
    ensures q in PortOutputs(conns, p) <==> HasConnection(conns, p, q)
  {
    if HasConnection(conns, q, p) {
      var c :| c in conns && c.src == q && c.dst == p;
      assert c in InputConnections(conns, p);
    }
    if HasConnection(conns, p, q) {
      var c :| c in conns && c.src == p && c.dst == q;
      assert c in OutputConnections(conns, p);
    }
  }

  /** `q` feeds `p` exactly when `p` is fed by `q`. */
  lemma InputsOutputsDual(conns: set<Connection>, p: Port, q: Port)
    ensures q in PortInputs(conns, p) <==> p in PortOutputs(conns, q)
  {
    InputsAreConnectedSources(conns, p, q);
    InputsAreConnectedSources(conns, q, p);
  }

  /** Every port of `S` sits on a node with a finite chain in `U`. */
  ghost predicate PortsRooted(S: set<Port>, U: set<Node>)
    reads U`parent
  {
    forall q :: q in S ==> ChainIn(q.node, U)
  }

  /** The hash each port of `S` is stored under in the scene's sets. */
  function StoredPortKeys(S: set<Port>): (stored: map<Port, string>)
    ensures stored.Keys == S
    ensures forall q :: q in S ==> stored[q] == q.hashKey
  {
    map q | q in S :: q.hashKey
  }

  /** The hash key of each port: its dag path. */
  function PortKeys(S: set<Port>, ghost U: set<Node>): (key: map<Port, string>)
    reads U`parent
    requires PortsRooted(S, U)
    ensures key.Keys == S
    ensures forall q :: q in S ==> key[q] == PortDagPath(q, U)
  {
    map q | q in S :: PortDagPath(q, U)
  }

  /** Every connection of `S` joins ports on nodes with finite chains in `U`. */
  ghost predicate ConnectionsRooted(S: set<Connection>, U: set<Node>)
    reads U`parent
  {
    forall c :: c in S ==> ConnectionIn(c, U)
  }

  /**
   * A lookup of `c` in `S` finds a connection: one held under the key `c`
   * has now, whose own key is that key too.
   */
  ghost predicate KeyedIn(S: set<Connection>, c: Connection, U: set<Node>)
    reads U`parent
    requires ConnectionsRooted(S, U) && ConnectionIn(c, U)
  {
    exists y :: y in S && y.hashKey == ConnectionKey(c, U) && ConnectionKey(y, U) == ConnectionKey(c, U)
  }

  /** `S'` is `S` less one connection that a lookup of `c` finds. */
  ghost predicate ConnectionTakenOut(S: set<Connection>, c: Connection, U: set<Node>, S': set<Connection>)
    reads U`parent
    requires ConnectionsRooted(S, U) && ConnectionIn(c, U)
  {
    exists y :: y in S && y.hashKey == ConnectionKey(c, U) && ConnectionKey(y, U) == ConnectionKey(c, U) && S' == S - {y}
  }

  /** The hash each connection of `S` is stored under in the scene's connection set. */
  function StoredConnectionKeys(S: set<Connection>): (stored: map<Connection, string>)
    ensures stored.Keys == S
    ensures forall c :: c in S ==> stored[c] == c.hashKey
  {
    map c | c in S :: c.hashKey
  }

  /** The hash key of each connection: source path then destination path. */
  function ConnectionKeys(S: set<Connection>, ghost U: set<Node>): (key: map<Connection, string>)
    reads U`parent
    requires ConnectionsRooted(S, U)
    ensures key.Keys == S
    ensures forall c :: c in S ==> key[c] == ConnectionKey(c, U)
  {
    map c | c in S :: ConnectionKey(c, U)
  }

  /** A port's repr: `<Mocked Port "node.port">`. */
  function PortRepr(p: Port): string
  {
    "<Mocked Port \"" + p.node.name + "." + p.name + "\">"
  }

  /** A connection's repr, which formats its ports' reprs. */
  function ConnectionRepr(c: Connection): string
  {
    "<Mocked Connection \"" + PortRepr(c.src) + "\" \"" + PortRepr(c.dst) + "\">"
  }

  /** A node's repr: `<Mocked Node "dagpath">`. */
  function NodeRepr(n: Node, ghost U: set<Node>): string
    reads U`parent
    requires ChainIn(n, U)
  {
    "<Mocked Node \"" + DagPath(n, U) + "\">"
  }

  /** `s` is in ascending order of its elements' keys. */
  predicate SortedBy<T>(s: seq<T>, key: map<T, string>)
    requires forall i :: 0 <= i < |s| ==> s[i] in key
  {
    forall i, j :: 0 <= i < j < |s| ==> LexLe(key[s[i]], key[s[j]])
  }

  /** Insert `x` before the first element whose key is not below its own. */
  function InsertSorted<T>(s: seq<T>, x: T, key: map<T, string>): (r: seq<T>)
    requires x in key && forall i :: 0 <= i < |s| ==> s[i] in key
    ensures multiset(r) == multiset(s) + multiset{x}
  {
    if |s| == 0 then [x]
    else if LexLe(key[x], key[s[0]]) then [x] + s
    else
      assert s == [s[0]] + s[1..];
      [s[0]] + InsertSorted(s[1..], x, key)
  }

  /** A lower bound of `x` and of every element of `s` bounds every element after insertion. */
  lemma InsertKeepsLowerBound<T>(s: seq<T>, x: T, key: map<T, string>, b: string)
    requires x in key && forall i :: 0 <= i < |s| ==> s[i] in key
    requires LexLe(b, key[x]) && forall i :: 0 <= i < |s| ==> LexLe(b, key[s[i]])
    ensures var r := InsertSorted(s, x, key); forall i :: 0 <= i < |r| ==> r[i] in key && LexLe(b, key[r[i]])
  {
    var r := InsertSorted(s, x, key);
    forall i | 0 <= i < |r| ensures r[i] in key && LexLe(b, key[r[i]]) {
      assert r[i] in multiset(r);
      if r[i] != x {
        assert r[i] in multiset(s);
        var k :| 0 <= k < |s| && s[k] == r[i];
      }
    }
  }

  /** Putting an element whose key is below the first one in front keeps a sorted sequence sorted. */
  lemma PrependKeepsSorted<T>(s: seq<T>, x: T, key: map<T, string>)
    requires x in key && forall i :: 0 <= i < |s| ==> s[i] in key
    requires SortedBy(s, key) && |s| > 0 && LexLe(key[x], key[s[0]])
    ensures var r := [x] + s; (forall i :: 0 <= i < |r| ==> r[i] in key) && SortedBy(r, key)
  {
    var r := [x] + s;
    forall i, j | 0 <= i < j < |r| ensures LexLe(key[r[i]], key[r[j]]) {
      if i == 0 {
        if j > 1 {
          LexLeTransitive(key[x], key[s[0]], key[s[j - 1]]);
        }
      } else {
        assert r[i] == s[i - 1] && r[j] == s[j - 1];
      }
    }
  }

  /** Putting a lower bound of a sorted sequence in front keeps it sorted. */
  lemma ConsKeepsSorted<T>(y: T, t: seq<T>, key: map<T, string>)
    requires y in key && forall i :: 0 <= i < |t| ==> t[i] in key && LexLe(key[y], key[t[i]])
    requires SortedBy(t, key)
    ensures var r := [y] + t; (forall i :: 0 <= i < |r| ==> r[i] in key) && SortedBy(r, key)
  {
    var r := [y] + t;
    forall i, j | 0 <= i < j < |r| ensures LexLe(key[r[i]], key[r[j]]) {
      assert r[j] == t[j - 1];
      if i > 0 {
        assert r[i] == t[i - 1];
      }
    }
  }

  /** Inserting keeps a sorted sequence sorted. */
  lemma {:induction false} InsertKeepsSorted<T>(s: seq<T>, x: T, key: map<T, string>)
    requires x in key && forall i :: 0 <= i < |s| ==> s[i] in key
    requires SortedBy(s, key)
    ensures var r := InsertSorted(s, x, key); (forall i :: 0 <= i < |r| ==> r[i] in key) && SortedBy(r, key)
  {
    if |s| == 0 {
    } else if LexLe(key[x], key[s[0]]) {
      PrependKeepsSorted(s, x, key);
    } else {
      var t := InsertSorted(s[1..], x, key);
      assert InsertSorted(s, x, key) == [s[0]] + t;
      assert SortedBy(s[1..], key);
      InsertKeepsSorted(s[1..], x, key);
      LexLeTotal(key[x], key[s[0]]);
      InsertKeepsLowerBound(s[1..], x, key, key[s[0]]);
      ConsKeepsSorted(s[0], t, key);
    }
  }
}
