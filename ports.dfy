/**
 * Ports (attributes) of nodes. A port belongs to one node, has a long, a
 * short and a nice name, a type taken from the attribute-type enumeration and
 * a value that callers may reassign. Its dag path is the node's dag path, a
 * `.` and the port name; ports compare equal when their dag paths do.
 */
module Ports {
  import opened Errors
  import opened PyStrings
  import opened Constants
  import opened Nodes

  /** The value of a port. The mock stores any Python object; these are the kinds it is given. */
  datatype Value = IntValue(i: int) | RealValue(r: real) | StrValue(s: string) | BoolValue(b: bool)

  /** A name given to the constructor, or the port name when none (or an empty one) is given. */
  function NameOrDefault(given: Option<string>, name: string): (r: string)
    ensures given.None? || given.value == "" ==> r == name
    ensures given.Some? && given.value != "" ==> r == given.value
  {
    if given.Some? && given.value != "" then given.value else name
  }

  class Port {
    const node: Node
    const name: string
    const shortName: string
    const niceName: string
    const portType: AttrType
    var value: Value
    const readable: bool
    const writable: bool
    const interesting: bool
    const userDefined: bool
    const parentName: Option<string>
    /**
     * The hash the scene's sets hold the port under. A Python set keeps the
     * hash an element had when it was added, and a port joins the sets as
     * soon as it is created, so this is its dag path at creation, which
     * re-parenting its node does not update.
     */
    const hashKey: string

    /** A port of `node`; the short and nice names fall back to `name`. */
    constructor (node: Node, name: string, portType: AttrType, shortName: Option<string>,
                 niceName: Option<string>, value: Value, readable: bool, writable: bool,
                 interesting: bool, userDefined: bool, parentName: Option<string>, hashKey: string)
      ensures this.node == node && this.name == name && this.portType == portType
      ensures this.shortName == NameOrDefault(shortName, name)
      ensures this.niceName == NameOrDefault(niceName, name)
      ensures this.value == value && this.readable == readable && this.writable == writable
      ensures this.interesting == interesting && this.userDefined == userDefined
      ensures this.parentName == parentName && this.hashKey == hashKey
    {
      this.node := node;
      this.name := name;
      this.shortName := NameOrDefault(shortName, name);
      this.niceName := NameOrDefault(niceName, name);
      this.portType := portType;
      this.value := value;
      this.readable := readable;
      this.writable := writable;
      this.interesting := interesting;
      this.userDefined := userDefined;
      this.parentName := parentName;
      this.hashKey := hashKey;
    }
  }

  /** The keyword arguments a port is created with, holding the constructor's defaults. */
  datatype PortOptions = PortOptions(
    portType: string,
    shortName: Option<string>,
    niceName: Option<string>,
    value: Value,
    readable: bool,
    writable: bool,
    interesting: bool,
    userDefined: bool,
    parentName: Option<string>)

  const DefaultPortOptions: PortOptions :=
    PortOptions("long", None, None, IntValue(0), true, true, true, true, None)

  /**
   * Create a port; the type name must name an attribute-type member, otherwise
   * the enumeration lookup raises an `AttributeError`. The new port's hash is
   * its dag path now.
   */
  method NewPort(node: Node, name: string, opts: PortOptions, ghost U: set<Node>) returns (r: Result<Port>)
    requires ChainIn(node, U)
    ensures r.Err? <==> !IsAttrTypeName(opts.portType)
    ensures r.Err? ==> r.error == AttributeError(opts.portType)
    ensures r.Ok? ==> fresh(r.value) && r.value.node == node && r.value.name == name
    ensures r.Ok? ==> r.value.portType == opts.portType && r.value.value == opts.value
    ensures r.Ok? ==> r.value.shortName == NameOrDefault(opts.shortName, name)
    ensures r.Ok? ==> r.value.niceName == NameOrDefault(opts.niceName, name)
    ensures r.Ok? ==> r.value.userDefined == opts.userDefined && r.value.parentName == opts.parentName
    ensures r.Ok? ==> r.value.readable == opts.readable && r.value.writable == opts.writable
    ensures r.Ok? ==> r.value.interesting == opts.interesting
    ensures r.Ok? ==> r.value.hashKey == old(DagPath(node, U)) + "." + name
  {
    var t := LookupAttrType(opts.portType);
    if t.None? {
      return Err(AttributeError(opts.portType));
    }
    var p := new Port(node, name, t.value, opts.shortName, opts.niceName, opts.value,
                      opts.readable, opts.writable, opts.interesting, opts.userDefined, opts.parentName,
                      DagPath(node, U) + "." + name);
    return Ok(p);
  }

  /** `p` holds what `create_port` gives a port made from `name` and `opts`. */
  ghost predicate MadeFrom(p: Port, name: string, opts: PortOptions)
    reads p
  {
    p.name == name && p.portType == opts.portType && p.value == opts.value
    && p.shortName == NameOrDefault(opts.shortName, name) && p.niceName == NameOrDefault(opts.niceName, name)
    && p.userDefined == opts.userDefined && p.readable == opts.readable && p.writable == opts.writable
    && p.interesting == opts.interesting && p.parentName == opts.parentName
  }

  /** The port's dag path: the node's dag path, `.`, the long name. */
  function PortDagPath(p: Port, ghost U: set<Node>): string
    reads U`parent
    requires ChainIn(p.node, U)
  {
    DagPath(p.node, U) + "." + p.name
  }

  /** The same path spelled with the short name. */
  function PortShortDagPath(p: Port, ghost U: set<Node>): string
    reads U`parent
    requires ChainIn(p.node, U)
  {
    DagPath(p.node, U) + "." + p.shortName
  }

  /**
   * When the port name has no `.`, the last `.` of the port's dag path
   * separates the node's dag path from the port name, so both can be read
   * back from the path.
   */
  lemma PortDagPathSplits(p: Port, U: set<Node>)
    requires ChainIn(p.node, U) && NoDot(p.name)
    ensures var d := PortDagPath(p, U);
      var k := LastIndexOf(d, '.');
      k == |DagPath(p.node, U)| && d[..k] == DagPath(p.node, U) && d[k + 1..] == p.name
  {
    var n := DagPath(p.node, U);
    var d := PortDagPath(p, U);
    assert d[|n|] == '.';
    forall i | |n| < i < |d| ensures d[i] != '.' {
      assert d[i] == p.name[i - |n| - 1];
    }
    var k := LastIndexOf(d, '.');
    assert k == |n|;
  }

  /** `a == b` on ports: equal dag paths (the hash is the hash of the dag path). */
  predicate PortEqual(a: Port, b: Port, ghost U: set<Node>)
    reads U`parent
    requires ChainIn(a.node, U) && ChainIn(b.node, U)
  {
    PortDagPath(a, U) == PortDagPath(b, U)
  }

  /** `a != b` on ports. */
  predicate PortNotEqual(a: Port, b: Port, ghost U: set<Node>)
    reads U`parent
    requires ChainIn(a.node, U) && ChainIn(b.node, U)
  {
    PortDagPath(a, U) != PortDagPath(b, U)
  }

  /** Ports with `.`-free names are equal exactly when their nodes' paths and their names are. */
  lemma PortEqualIffSamePathAndName(a: Port, b: Port, U: set<Node>)
    requires ChainIn(a.node, U) && ChainIn(b.node, U) && NoDot(a.name) && NoDot(b.name)
    ensures PortEqual(a, b, U) <==> DagPath(a.node, U) == DagPath(b.node, U) && a.name == b.name
    ensures PortNotEqual(a, b, U) <==> !PortEqual(a, b, U)
  {
    PortDagPathSplits(a, U);
    PortDagPathSplits(b, U);
  }

  /**
   * `fnmatch` on a name: `*` matches any run of characters, `?` any single
   * character and every other character itself; the whole name must match.
   */
  predicate FnMatch(p: string, s: string)
    decreases |p| + |s|
  {
    if |p| == 0 then |s| == 0
    else if p[0] == '*' then FnMatch(p[1..], s) || (|s| > 0 && FnMatch(p, s[1..]))
    else if p[0] == '?' then |s| > 0 && FnMatch(p[1..], s[1..])
    else |s| > 0 && s[0] == p[0] && FnMatch(p[1..], s[1..])
  }

  predicate HasWildcard(p: string)
  {
    exists i :: 0 <= i < |p| && (p[i] == '*' || p[i] == '?')
  }

  /** A pattern without `*` or `?` fnmatches exactly the string equal to it. */
  lemma {:induction false} FnMatchLiteral(p: string, s: string)
    requires !HasWildcard(p)
    ensures FnMatch(p, s) <==> p == s
  {
    if |p| > 0 {
      assert p[0] != '*' && p[0] != '?';
      assert !HasWildcard(p[1..]) by {
        forall i | 0 <= i < |p[1..]| ensures p[1..][i] != '*' && p[1..][i] != '?' {
          assert p[1..][i] == p[i + 1];
        }
      }
      if |s| > 0 {
        FnMatchLiteral(p[1..], s[1..]);
        if s[0] == p[0] && p[1..] == s[1..] {
          assert p == [p[0]] + p[1..] && s == [s[0]] + s[1..];
        }
      }
    }
  }

  /** A trailing `*` matches any continuation: `x*` fnmatches every string that starts with `x`. */
  lemma {:induction false} FnMatchTrailingStar(x: string, y: string)
    ensures FnMatch(x + "*", x + y)
    decreases |x| + |y|
  {
    if |x| > 0 {
      if x[0] == '*' {
        assert (x + "*")[1..] == x[1..] + "*";
        assert (x + y)[1..] == x[1..] + y;
        FnMatchTrailingStar(x[1..], y);
        // the `*` of `x` matches the `*` of the string, the rest matches by induction
        assert FnMatch(x + "*", (x + y)[1..]);
      } else {
        assert (x + "*")[1..] == x[1..] + "*";
        assert (x + y)[1..] == x[1..] + y;
        FnMatchTrailingStar(x[1..], y);
      }
    } else {
      assert x + "*" == "*" && x + y == y;
      StarMatchesAll(y);
    }
  }

  /** A lone `*` matches every string. */
  lemma {:induction false} StarMatchesAll(s: string)
    ensures FnMatch("*", s)
  {
    if |s| > 0 {
      StarMatchesAll(s[1..]);
    } else {
      assert "*"[1..] == "";
    }
  }

  /**
   * `match`: no pattern matches every port; otherwise the pattern, after a
   * leading `|`, must equal the long or short dag path, or the long or short
   * name must equal or fnmatch it. The nice name is never consulted.
   */
  predicate MatchesPortPattern(p: Port, pattern: Option<string>, ghost U: set<Node>)
    reads U`parent
    requires ChainIn(p.node, U)
  {
    pattern.None?
    || PortDagPath(p, U) == "|" + pattern.value
    || PortShortDagPath(p, U) == "|" + pattern.value
    || p.name == pattern.value || FnMatch(pattern.value, p.name)
    || p.shortName == pattern.value || FnMatch(pattern.value, p.shortName)
  }

  /**
   * A pattern without wildcards matches a port exactly when it is the port's
   * long or short name, or its long or short dag path without the leading `|`.
   */
  lemma MatchesLiteralPattern(p: Port, pat: string, U: set<Node>)
    requires ChainIn(p.node, U) && !HasWildcard(pat)
    ensures MatchesPortPattern(p, Some(pat), U) <==>
      PortDagPath(p, U) == "|" + pat || PortShortDagPath(p, U) == "|" + pat
      || p.name == pat || p.shortName == pat
  {
    FnMatchLiteral(pat, p.name);
    FnMatchLiteral(pat, p.shortName);
  }

  /** So a name that only extends the pattern does not match it ("foo1" and "foo")... */
  lemma LongerNameDoesNotMatch(p: Port, pat: string, U: set<Node>)
    requires ChainIn(p.node, U) && !HasWildcard(pat)
    requires p.name == p.shortName && |p.name| > |pat|
    requires PortDagPath(p, U) != "|" + pat
    ensures !MatchesPortPattern(p, Some(pat), U)
  {
    MatchesLiteralPattern(p, pat, U);
  }

  /** ... while the pattern followed by `*` does ("foo1" and "foo*"). */
  lemma NameMatchesPrefixStar(p: Port, x: string, U: set<Node>)
    requires ChainIn(p.node, U) && x <= p.name
    ensures MatchesPortPattern(p, Some(x + "*"), U)
  {
    assert p.name == x + p.name[|x|..];
    FnMatchTrailingStar(x, p.name[|x|..]);
  }
}
