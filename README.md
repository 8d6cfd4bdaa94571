# maya-mock scene session, modelled in Dafny

maya-mock is an in-memory stand-in for Maya's scene graph. A session holds
three things:

- **nodes**: each has a name, a type and a parent link;
- **ports**: the attributes of a node;
- **connections**: directed pairs of ports.

Every scene operation goes through the session. It names new nodes by
Maya's rules:

- the automatic `<prefix><n>` numbering;
- renaming a name that collides;
- refusing reserved MEL words;
- creating a transform above every shape.

It also resolves dag-path patterns to nodes and ports, and it computes a
node's shortest unambiguous display form.

A procedural layer mirrors `maya.cmds` on top of the session: `createNode`,
`addAttr`, `connectAttr`, `connectionInfo`, `disconnectAttr`, `delete`,
`deleteAttr`, `getAttr`, `setAttr`, `listAttr`, `ls`, `nodeType`,
`objExists`, `select` and `parent`. It keeps Maya's flag rules and error
messages.

This project models those two layers and their helpers, one Dafny module
per source module:

- `errors.dfy` (`Errors`): Python's exceptions as values (`Result`,
  `Outcome`, `Option`).
- `pystrings.dfy` (`PyStrings`): the `str` operations the mock relies on:
  `str(n)`, `strip`/`rstrip`, `rfind`, and lexicographic `<`.
- `constants.dfy` (`Constants`): reserved names, shape types, shape-name
  prefixes, the attribute-type enumeration, impossible connections, and the
  conversion table as it is actually rebuilt.
- `naming.dfy` (`Naming`): name conforming, `join`, and dag-path pattern
  matching.
- `dag_objects.dfy` (`DagObjects`): the comparison operators of dag objects.
- `nodes.dfy` (`Nodes`): the `Node` class, parent chains, dag paths, and
  re-parenting.
- `ports.dfy` (`Ports`): the `Port` class, port paths, equality, and
  `fnmatch`-based matching.
- `connections.dfy` (`Connections`): connections and their path-pair
  equality.
- `pysets.dfy` (`PySets`): Python `set` operations on elements that compare
  by a hash key.
- `schema.dfy` (`Schemas`): namespaces, node type definitions, the schema,
  and their dictionary round trips.
- `scene.dfy` (`Scene`): the value-level rules of a scene: matching,
  display forms, name resolution, connection queries, and sorting.
- `session.dfy` (`Sessions`): the `Session` class and its operations.
- `arguments.dfy` (`Arguments`): the keyword-alias remapping wrapper of the
  commands.
- `cmds.dfy` (`Cmds`): the `CmdsSession` class of commands.

The session and the commands change state in place, so they are classes.
Each method names the fields it may change in its `modifies` clause. Its
contract says what becomes of each of them: outright where the code
determines it, through the lookup predicates below where the result
depends on a hash lookup, and within the limits listed under "## Left out"
where a member states less.

**Dag paths and cycles.** A node's dag path is recomputed from its parent
chain on every access. It is therefore a function of the heap over a ghost
universe of all created nodes, and every chain in that universe is finite.
Re-parenting keeps this so; the acyclicity it needs is stated as a
precondition.

**Hashing.** Ports and connections hash and compare by dag paths: a port
by its own, a connection by its source's path followed by its
destination's. A Python set keeps each element in the slot of the hash it
had when it was added, and `parent` changes dag paths without re-hashing
anything. So each port and connection records the key it was stored under
when it was created. A set lookup of `x` finds an element only when that
element is stored under the key `x` has now and its own key is still that
key. A port or connection whose node moved is therefore not found through
its hash: `remove` raises `KeyError` for it, and `add` of an equal new
element adds a second one. (CPython's lookup also accepts a probed slot
holding the very object, which can still reach a moved element's old slot;
see "## Left out".) The
exact new state is stated in the common case, where every element is still
stored under its current key and no two share one ("unique keys" below).
The general case is stated through the lookup: which element a `remove`
takes out, or whether an `add` found one.

**Lookups.** The session's lookups answer `None` when nothing is found.
The commands were written against lookups that raise `LookupError`, so
each not-found case is modelled this way:

- where a command catches the `LookupError` (`connectAttr`,
  `disconnectAttr`, `connectionInfo`, `deleteAttr`, `getAttr`,
  `objExists`), the model returns the error the command would raise;
- where it does not (`setAttr`, `nodeType`, `delete`, `parent`), the model
  follows the `None`: the `AttributeError` on `None`, `KeyError(None)` from
  `set.remove`, or a move to the root.

**Proved in Dafny:**

- `create_node` names by the first free `<prefix><n>`, with examples
  `transform1`, `transform2`, `polySurfaceShape1` and `foo1`.
- `_unique_name` terminates.
- The display-form climb picks the first unambiguous pattern.
- The display form resolves back to its node.
- Removal cascades from a node to its ports and from a port to its
  connections. As written, it leaves the ports-by-node table untouched (see
  Findings).
- After `connectAttr` succeeds, a lookup of the new connection finds it.
  With unique keys, the connections are the old ones, less the input that
  `force` removed, plus the new one unless an equal one was there.
- Re-parenting keeps every chain finite and moves each child's dag path
  under its new parent.
- Port and connection equality are path equality.
- Patterns without `*` match whole path segments.
- `iter_namespaces` lists ancestors first and none twice, in the
  documented order.
- `str(n)` spells `n` in decimal digits.
- Loading the default state creates one distinct node per entry. Each has
  the entry's type and a name derived from the entry's key.
- Node type definitions round-trip through dictionaries.
- Keyword aliases win over long names.
- Each command raises the source's error types with the source's message
  texts, where node names and patterns contain no quote, backslash or
  control character (see "## Left out"). The cases in which it raises them
  are stated exactly, except for the members listed under "## Left out".

## Model

Source paths are relative to the repository root.

| member | source | states |
|---|---|---|
| PyStrings.NatToString | python/maya_mock/base/session.py:112 | `str(i)` of a natural number is a non-empty run of digits without a leading zero, and the digits read back as `i` |
| PyStrings.NatToStringLength | python/maya_mock/base/session.py:111-115 | a number of at least 10^k has more than k decimal digits (the bound that makes `_unique_name` stop) |
| PyStrings.RStripDigits | python/maya_mock/base/session.py:260 | `rstrip(string.digits)` is a prefix of the name, removes only digits, and leaves no trailing digit |
| PyStrings.LStripRemovesLeadingRun | src/maya_mock/base/naming.py:29 | `lstrip('|')` removes exactly the leading run of `|` and leaves a suffix not starting with `|` |
| PyStrings.RStripRemovesTrailingRun | src/maya_mock/base/naming.py:29 | `rstrip('|')` removes exactly the trailing run of `|` and leaves a prefix not ending with `|` |
| PyStrings.StripNoop | src/maya_mock/base/naming.py:29 | `strip('|')` leaves a string unchanged when it neither starts nor ends with `|` |
| PyStrings.LastIndexOf | src/maya_mock/base/schema.py:25 | the position `rsplit('.', 1)` splits at: the last `.`, or -1 when there is none |
| PyStrings.LexLtIrreflexive | src/maya_mock/base/_abstract.py:20-21 | no dag path sorts below itself under `str` `<` |
| PyStrings.LexLtTrichotomy | src/maya_mock/base/_abstract.py:20-21 | any two dag paths are equal or one sorts below the other |
| PyStrings.LexLtTransitive | src/maya_mock/base/_abstract.py:20-21 | `str` `<` is transitive |
| PyStrings.LexLtAsymmetric | src/maya_mock/base/_abstract.py:20-21 | `a < b` excludes `b < a` |
| PyStrings.LexLeTotal | src/maya_mock/base/_abstract.py:26-27 | `<=` relates any two dag paths one way or the other |
| PyStrings.LexLeTransitive | src/maya_mock/base/_abstract.py:26-27 | `<=` is transitive |
| PyStrings.LexLeAntisymmetric | src/maya_mock/base/_abstract.py:26-27 | `a <= b` and `b <= a` only for equal paths |
| DagObjects.Greater | src/maya_mock/base/_abstract.py:17-18 | `>` always fails with the `AttributeError` for the misspelled `dagapth` |
| DagObjects.NotEqualNegatesEqual | src/maya_mock/base/_abstract.py:11-15 | `!=` is exactly the negation of `==` (both compare the dag-path hash) |
| DagObjects.LessIsStrictTotalOrder | src/maya_mock/base/_abstract.py:20-21 | `<` on dag objects is irreflexive, asymmetric, transitive and total, so `sorted` has one answer |
| DagObjects.ComparisonsAgree | src/maya_mock/base/_abstract.py:20-27 | `>=` is the negation of `<`, and `<=` is `<` or `==` |
| Connections.ConnectionEqualityLaws | python/maya_mock/base/connection.py:18-25 | connection `!=` negates `==`; connections whose endpoints have equal paths are equal |
| Connections.EqualKeysSameLengthSplit | python/maya_mock/base/connection.py:24-25 | equal `src.dagpath + dst.dagpath` keys with equally long source paths mean equal sources and equal destinations |
| Connections.NewConnection | python/maya_mock/base/session.py:374-375 | a connection made now joins the two ports and is stored under the key their dag paths give at that moment |
| Arguments.HandleArguments | src/maya_mock/base/_utils.py:19-34 | the wrapper calls the command with the remapped keywords exactly when no keyword is left over; otherwise `NotImplementedError` lists each leftover key once, with "s" only for more than one |
| Arguments.LeftoverIsUnnamed | src/maya_mock/base/_utils.py:21-27 | the keywords left over are exactly those that are neither a long name nor an alias, and only long names are conformed |
| Arguments.RemapLeavesOthers | src/maya_mock/base/_utils.py:21-25 | a long name that no pair mentions keeps its conformed value |
| Arguments.AliasWins | src/maya_mock/base/_utils.py:21-25 | for each (long, alias) pair, the alias's value wins, else the long name's value, else nothing |
| Constants.DefaultPrefix | src/maya_mock/base/constants.py:45-49 | `DEFAULT_PREFIX_BY_SHAPE_TYPE.get(t, t)`: the shape prefix when listed, the type otherwise |
| Constants.LookupAttrType | src/maya_mock/base/port.py:55 | `getattr(EnumAttrTypes, t)` finds a member exactly when `t` names one, and its value is that name |
| Constants.LookupAttrTypeFrom | src/maya_mock/base/constants.py:52-103 | the scan over the enumeration answers as the whole lookup does |
| Constants.MemberValueIsName | src/maya_mock/base/constants.py:52-103 | every attribute-type member's value equals its name |
| Constants.Reciprocal | src/maya_mock/base/constants.py:119-122 | `1.0 / factor` turns the degree factor into the radian one and back, and never yields the same factor |
| Constants.ReciprocalInvolutive | src/maya_mock/base/constants.py:119-122 | taking the reciprocal twice gives the factor back |
| Constants.Get | python/maya_mock/base/session.py:363 | `dict.get` finds a value exactly for present keys |
| Constants.RebuiltTableKeyedByFactor | src/maya_mock/base/constants.py:108-122 | the rebuilt conversion table is the single entry factor to reciprocal, keyed by the factor |
| Constants.NoConversionByTypePair | python/maya_mock/base/session.py:363-364 | a lookup by (source type, destination type) never finds a conversion factor |
| Constants.BlacklistedNamesEndInLetter | src/maya_mock/base/constants.py:6-29 | every reserved name ends in a lower-case letter, so a numbered name is never reserved |
| Naming.ConformNodeName | src/maya_mock/base/naming.py:4-17 | conforming removes one leading digit if there is one, and nothing else |
| Naming.ConformStripsOneDigitOnly | src/maya_mock/base/naming.py:4-17 | "0" conforms to "", "00" to "0", and "foo:bar" is unchanged |
| Naming.Join | src/maya_mock/base/naming.py:20-32 | `join`: both sides stripped of `\|`, joined by one `\|`, with the left side's leading `\|` kept; `JoinPlain` states the result for plain names |
| Naming.JoinPlain | src/maya_mock/base/naming.py:20-32 | joining a plain name and a relative path puts one `|` between them and keeps a leading `|` of the left side |
| Naming.NoPatternMatchesAll | src/maya_mock/base/naming.py:50-52 | no pattern matches every dag path |
| Naming.GlobWithoutStarIsEquality | src/maya_mock/base/naming.py:54-58 | a pattern without `*` matches exactly its own text |
| Naming.MatchesDagPath | src/maya_mock/base/naming.py:35-67 | the regex `pattern_to_regex` builds: no pattern matches every path; otherwise the glob matches the whole path or the part after a `\|`; the lemmas beside it state its consequences |
| Naming.GlobKeepsPipes | src/maya_mock/base/naming.py:54-58 | `*` (a run of word characters) never crosses a `|` |
| Naming.RelativePatternMatchesSuffix | src/maya_mock/base/naming.py:60-67 | a relative pattern without `*` matches a path exactly when it is the path or follows a `|` at the path's end |
| Naming.AbsolutePatternMatchesWholePath | src/maya_mock/base/naming.py:57-67 | a pattern with a leading `|` only matches a whole dag path |
| Naming.StarMatchExample | src/maya_mock/base/naming.py:54-67 | "transform*" matches "\|transform1" |
| Naming.SegmentMatchExamples | src/maya_mock/base/naming.py:60-67 | "B" and "A\|B" match "\|A\|B"; "\|B" does not |
| Naming.GlobLength | src/maya_mock/base/naming.py:54-55 | a matched string has at least as many characters as the pattern has characters other than `*` |
| Naming.LongPatternMatchesNothing | src/maya_mock/base/naming.py:54-67 | a pattern with more non-`*` characters than a path has never matches it |
| Nodes.Node.constructor | src/maya_mock/base/node.py:13-36 | a new node keeps its name and type, has no children, and joins its parent's children |
| Nodes.Node.SetParent | src/maya_mock/base/node.py:88-97 | `set_parent` removes the node from the old parent's children, adds it to the new parent's, and sets the link |
| Nodes.Chain | src/maya_mock/base/node.py:77-78 | a node's chain starts at the node, follows parent links to a root, repeats no node, and stays in the universe |
| Nodes.RootChainLength | src/maya_mock/base/node.py:77 | a chain goes on past the node exactly when the node has a parent |
| Nodes.RootChainUnique | src/maya_mock/base/node.py:77-78 | a node has one root chain |
| Nodes.ChainUnfold | src/maya_mock/base/node.py:77 | a node's chain is the node followed by its parent's chain |
| Nodes.DagPathUnfold | src/maya_mock/base/node.py:71-78 | a root's dag path is `\|name`, any other node's is its parent's path, `\|` and its name |
| Nodes.MelPatternIsRelativeName | src/maya_mock/base/node.py:59-67 | the pattern after k climbs is the names from the k-th ancestor down, joined by `\|` |
| Nodes.MelPatternIsPathTail | src/maya_mock/base/node.py:59-67 | every pattern of the climb is a tail of the node's dag path after a `\|` |
| Nodes.FullPatternIsDagPath | src/maya_mock/base/node.py:63-66 | the pattern at the root with a `\|` in front is the full dag path |
| Nodes.ReparentKeepsChains | src/maya_mock/base/node.py:88-97 | re-parenting a node to a parent not below it keeps every chain finite and leaves the chains not through the node unchanged |
| Nodes.Relink | src/maya_mock/base/node.py:88-97 | `set_parent(p)` updates children and parent, keeps all chains finite, and makes the dag path `p`'s path, `\|`, name (or `\|name`) |
| Ports.NameOrDefault | src/maya_mock/base/port.py:47-54 | a short or nice name falls back to the port name when not given or empty |
| Ports.Port.constructor | src/maya_mock/base/port.py:14-61 | a port keeps every argument, with short and nice names defaulting to the name |
| Ports.NewPort | src/maya_mock/base/port.py:14-61 | a port is created exactly when the type names an attribute type; otherwise the enumeration lookup's `AttributeError` carrying just the type name |
| Ports.PortDagPathSplits | src/maya_mock/base/port.py:123-131 | the last `.` of a port's dag path separates its node's dag path from its name |
| Ports.PortEqualIffSamePathAndName | src/maya_mock/base/port.py:63-70 | two ports are equal exactly when their nodes' paths and their names are equal; `!=` negates `==` |
| Ports.FnMatchLiteral | src/maya_mock/base/port.py:115-119 | `fnmatch` with a pattern free of wildcards is string equality |
| Ports.FnMatchTrailingStar | src/maya_mock/base/port.py:115-119 | `x*` fnmatches every string starting with `x` |
| Ports.StarMatchesAll | src/maya_mock/base/port.py:115-119 | `*` fnmatches every name |
| Ports.MatchesPortPattern | src/maya_mock/base/port.py:85-121 | `match`: no pattern matches every port; otherwise `\|pattern` is the long or short dag path, or the pattern equals or fnmatches the long or short name; its lemmas below state what that accepts |
| Ports.MatchesLiteralPattern | src/maya_mock/base/port.py:85-121 | a pattern without wildcards matches a port exactly when `\|pattern` is its long or short dag path or the pattern is its long or short name |
| Ports.LongerNameDoesNotMatch | src/maya_mock/base/port.py:111-121 | a port named `foo1` does not match `foo` |
| Ports.NameMatchesPrefixStar | src/maya_mock/base/port.py:111-121 | a port named `foo1` matches `foo*` |
| PySets.Add | python/maya_mock/base/session.py:375 | `set.add(x)` leaves the set unchanged exactly when a lookup of `x` finds an element, otherwise adds `x`; afterwards a lookup of `x` finds one |
| PySets.Discard | src/maya_mock/base/node.py:94 | `set.discard(x)` takes out one element a lookup of `x` finds, and changes nothing when the lookup finds none |
| PySets.Remove | python/maya_mock/base/session.py:390 | `set.remove(x)` raises `KeyError` with the repr exactly when a lookup of `x` by hash and equality finds nothing; otherwise one element the lookup finds leaves and no other |
| PySets.AddIdempotent | python/maya_mock/base/session.py:375 | adding twice is adding once |
| PySets.AddKeepsUnique | python/maya_mock/base/session.py:374-375 | adding to a set whose elements are all stored under their current keys, no two alike, keeps both properties |
| PySets.TakesOutMember | python/maya_mock/base/session.py:390 | in such a set, removing a member takes out exactly that member |
| PySets.TakesOutWhatWasAdded | python/maya_mock/base/session.py:375-390 | removing what was just added, when no element answered for it before, gives the set back |
| PySets.StaleMemberMissed | python/maya_mock/base/session.py:331 | a member whose key changed since it was added is not found through its hash when no other member answers for it: `remove` raises although the object is in the set |
| PySets.TakesOutLeavesNone | python/maya_mock/base/session.py:390 | with unique keys, after a removal a lookup of the same element finds nothing |
| Scene.MatchingNodes | python/maya_mock/base/session.py:169-181 | `iter_node_by_match` yields scene nodes whose dag path matches the pattern |
| Scene.StopIndex | src/maya_mock/base/node.py:60-67 | the display-form loop stops at an ancestor of the node: it climbs at most the chain's length |
| Scene.NodeExist | python/maya_mock/base/session.py:77-87 | `node_exist`: some node's dag path matches the path read as a pattern |
| Scene.IsPatternClashing | python/maya_mock/base/session.py:146-159 | `is_pattern_clashing`: a node other than the given one matches the pattern |
| Scene.IsNameValid | python/maya_mock/base/session.py:89-101 | `_is_name_valid`: non-empty and not reserved; `NumberedNameIsValid` states that numbered names always pass |
| Scene.DisplayForm | src/maya_mock/base/node.py:47-69 | `__melobject__` as a function of the scene; `MelObject` computes it and `DisplayFromIsFirstFree` states which pattern it is |
| Scene.DisplayFromIsFirstFree | src/maya_mock/base/node.py:55-69 | the display form is the first pattern of the climb that no other node matches, or `\|` and the root pattern when all clash |
| Scene.BareNameWhenUnambiguous | src/maya_mock/base/node.py:55-69 | a node no other node matches by name is shown by its bare name |
| Scene.AmbiguousRootIsAbsolute | src/maya_mock/base/node.py:60-67 | an ambiguous root node is shown as `\|name` |
| Scene.AmbiguousChildIsQualified | src/maya_mock/base/node.py:60-64 | an ambiguous child unambiguous with its parent's name is shown as `parent\|name` |
| Scene.DisplayFormResolvesToNode | src/maya_mock/base/node.py:47-69 | a node matches its own display form, and any other match has the same dag path |
| Scene.NumberedNameIsValid | python/maya_mock/base/session.py:89-114 | every numbered candidate name is non-empty and not reserved |
| Scene.LoneRootExists | python/maya_mock/base/session.py:77-87 | beside a single root node, `\|x` exists exactly when `x` is its name |
| Scene.FarCandidateIsFree | python/maya_mock/base/session.py:111-115 | the candidate numbered 10^b is free, so `_unique_name`'s count terminates |
| Scene.LeastFreeExists | python/maya_mock/base/session.py:111-115 | below any free candidate lies a first free one |
| Scene.LeastFree | python/maya_mock/base/session.py:111-115 | the number `_unique_name` returns: free, and every smaller number from 1 is taken |
| Scene.AutoPrefix | python/maya_mock/base/session.py:246-252 | an unnamed node is numbered from its type, or `<shape prefix>Shape` for a shape type |
| Scene.ResolvedNameIsFree | python/maya_mock/base/session.py:245-261 | the name `create_node` settles on is valid, and no node matches it where it was checked |
| Scene.ResolvedNameStem | python/maya_mock/base/session.py:254-261 | a numbered name is the type's prefix, or the given name without trailing digits, followed by digits |
| Scene.FirstAutomaticNames | python/maya_mock/base/session.py:246-254 | in an empty scene, the first transform is `transform1` and the first mesh `polySurfaceShape1` |
| Scene.SecondAutomaticName | python/maya_mock/base/session.py:111-115 | beside a root `transform1`, the next transform is `transform2` |
| Scene.CollidingNameIsNumbered | python/maya_mock/base/session.py:256-261 | an explicit `foo` beside a root `foo` becomes `foo1` |
| Scene.InputConnections | python/maya_mock/base/session.py:438-445 | the input connections of a port are scene connections |
| Scene.OutputConnections | python/maya_mock/base/session.py:447-454 | the output connections of a port are scene connections |
| Scene.PortIsSource | python/maya_mock/base/session.py:420-427 | `port_is_source`: some connection has the port as its source |
| Scene.PortIsDestination | python/maya_mock/base/session.py:429-436 | `port_is_destination`: some connection has the port as its destination |
| Scene.PortInputs | python/maya_mock/base/session.py:456-463 | `get_port_inputs`: the sources of the port's input connections |
| Scene.PortOutputs | python/maya_mock/base/session.py:465-472 | `get_port_outputs`: the destinations of the port's output connections |
| Scene.SourceIffHasOutputs | python/maya_mock/base/session.py:420-472 | a port is a source exactly when it has an output connection, and a destination exactly when it has an input |
| Scene.InputsAreConnectedSources | python/maya_mock/base/session.py:456-472 | `q` is an input of `p` exactly when `q`→`p` is a connection, and an output when `p`→`q` is |
| Scene.InputsOutputsDual | python/maya_mock/base/session.py:456-472 | `q` feeds `p` exactly when `p` is fed by `q` |
| Scene.PortKeys | src/maya_mock/base/port.py:69-70 | the key a port compares by in a lookup is its dag path at the time of the lookup |
| Scene.ConnectionKeys | python/maya_mock/base/connection.py:24-25 | the key a connection compares by is its source path followed by its destination path, both as they are now |
| Scene.StoredPortKeys | python/maya_mock/base/session.py:311 | the hash a port is stored under is the key it was created with, which `parent` does not update |
| Scene.StoredConnectionKeys | python/maya_mock/base/session.py:375 | the hash a connection is stored under is the key it was created with |
| Scene.InsertSorted | python/maya_mock/base/session.py:141 | insertion into the sorted list adds exactly the element |
| Scene.InsertKeepsSorted | python/maya_mock/base/session.py:141 | insertion keeps a list sorted by dag path |
| Schemas.NamespaceParent | src/maya_mock/base/schema.py:12-25 | a namespace's parent is missing exactly when it has no `.`, and otherwise is a shorter prefix |
| Schemas.NamespaceSplit | src/maya_mock/base/schema.py:25-40 | parent, `.` and leaf spell the namespace back; the leaf holds no `.` |
| Schemas.NamespaceExamples | src/maya_mock/base/schema.py:16-35 | "org.foo.bar" has parent "org.foo", "foo.bar" has leaf "bar", "org" has no parent, "foo" is its own leaf |
| Schemas.VisitedParent | src/maya_mock/base/schema.py:63-64 | the parent `iter_namespaces` recurses into is non-empty and shorter |
| Schemas.Lineage | src/maya_mock/base/schema.py:57-70 | a namespace's visited ancestors include itself and are no longer than it |
| Schemas.Visit | src/maya_mock/base/schema.py:57-70 | the recursive visit appends exactly the namespace's not-yet-visited lineage, outermost first, and marks the whole lineage visited |
| Schemas.AppendNew | src/maya_mock/base/schema.py:68-70 | yielding a new namespace whose parent was yielded keeps the output parents-first and repeat-free |
| Schemas.IterNamespaces | src/maya_mock/base/schema.py:43-74 | `iter_namespaces` yields exactly the documented order: for each input in turn, the ancestors not yet yielded (outermost first) and then the input itself, unless already yielded |
| Schemas.IterNamespacesExample | src/maya_mock/base/schema.py:47-48 | the doctest: `("a.b", "a.b.c", "d.e")` yields `a`, `a.b`, `a.b.c`, `d`, `d.e` |
| Schemas.NodeTypeDef.Data | src/maya_mock/base/schema.py:112-134 | `data` is the own data overlaid with all the parent's data, the parent's entries winning |
| Schemas.NewNodeTypeDef | src/maya_mock/base/schema.py:82-107 | the constructor keeps only the own entries the parent's data lacks |
| Schemas.PrunedDisjointFromParent | src/maya_mock/base/schema.py:94-100 | the kept entries share no key with the parent's data |
| Schemas.PruningKeepsData | src/maya_mock/base/schema.py:94-134 | pruning loses nothing: the definition's data is the given data overlaid with the parent's |
| Schemas.NodeTypeToDict | src/maya_mock/base/schema.py:146-156 | `to_dict` writes the namespace, own data, classification and abstract flag |
| Schemas.NodeTypeFromDict | src/maya_mock/base/schema.py:158-171 | `from_dict` builds a parentless definition, not abstract unless the dict says so |
| Schemas.NodeTypeDictRoundTrip | src/maya_mock/base/schema.py:146-171 | `from_dict(to_dict(d))` is `d` without its parent |
| Schemas.NodeTypeDictRoundTripBack | src/maya_mock/base/schema.py:146-171 | `to_dict(from_dict(x))` is `x`, with a missing `abstract` read as false |
| Schemas.NodesToDict | src/maya_mock/base/schema.py:249-253 | the schema's node types serialise entry by entry |
| Schemas.NodesFromDict | src/maya_mock/base/schema.py:269-272 | the serialised node types load entry by entry |
| Schemas.OrEmpty | src/maya_mock/base/schema.py:194-195 | `x or {}` for an optional dictionary |
| Schemas.Schema.constructor | src/maya_mock/base/schema.py:179-195 | a schema holds the given types and default state, or empty ones |
| Schemas.Schema.RegisterNode | src/maya_mock/base/schema.py:197-204 | registering a known type raises and changes nothing; a new one is added under its type name |
| Schemas.Schema.Get | src/maya_mock/base/schema.py:206-214 | `get` finds the definition registered for a type, or nothing for an unknown one |
| Schemas.Schema.FromDict | src/maya_mock/base/schema.py:257-276 | `from_dict` loads the node types and the default state, each possibly missing |
| Schemas.Schema.ToDict | src/maya_mock/base/schema.py:242-253 | `to_dict`: the serialised node types and the default state; `SchemaDictRoundTrip` states that `from_dict` reads them back |
| Schemas.SchemaDictRoundTrip | src/maya_mock/base/schema.py:242-276 | a schema's `to_dict` then `from_dict` keeps its default state and its types up to the parent links |
| Schemas.RegisteredTypeIsFound | src/maya_mock/base/schema.py:197-214 | after registering, `get` finds the new type and answers as before for every other |
| Sessions.SortNodes | python/maya_mock/base/session.py:141 | `sorted` returns each node once, in ascending dag-path order |
| Sessions.Touching | python/maya_mock/base/session.py:324 | the connections collected for `remove_port` are scene connections using the port |
| Sessions.TouchingAny | python/maya_mock/base/session.py:291-293 | the connections of any of a node's ports are scene connections |
| Sessions.PortsOn | python/maya_mock/base/session.py:291 | the ports collected for `remove_node` are scene ports on the node |
| Sessions.PortLookup | python/maya_mock/base/session.py:311-331 | lookups in a port set are the set lookups of `PySets`, with the stored hashes and the current dag paths as keys |
| Sessions.AddedPorts | python/maya_mock/base/session.py:311 | `ports.add(p)` keeps every port and adds at most `p` |
| Sessions.AddPortKeyed | python/maya_mock/base/session.py:310-311 | after adding a port stored under its dag path, a lookup of it finds a port; the set grows exactly when none answered before; unique dag paths stay unique |
| Sessions.EntryKeys | python/maya_mock/base/session.py:310 | the key of each port of a node's entry is the node's path, `.` and the port's name |
| Sessions.AddedPortNamed | python/maya_mock/base/session.py:310 | after adding `p` to its node's entry, the entry holds a port with `p`'s name: `p` or the port found in its place |
| Sessions.RemovePortFrom | python/maya_mock/base/session.py:331 | `ports.remove(p)` raises `KeyError` exactly when no port is stored under `p`'s current dag path and still has it, as after its node moved (lookup by hash only); otherwise one such port leaves; with unique keys exactly `p` leaves and no lookup finds it afterwards |
| Sessions.ShapePrefixStartsWithLetter | python/maya_mock/base/session.py:265-266 | every shape prefix starts with a lower-case letter |
| Sessions.OnlyConnectionBetween | python/maya_mock/base/session.py:197-206 | with unique keys, a connection is the only one between its two ports, so once it is removed none joins them |
| Sessions.ConnectionLookup | python/maya_mock/base/session.py:375-390 | lookups in the connection set are the set lookups of `PySets`, with the stored hashes and the current path pairs as keys |
| Sessions.AddConnection | python/maya_mock/base/session.py:375 | `connections.add(c)` keeps every connection and adds at most `c` |
| Sessions.AddConnectionKeyed | python/maya_mock/base/session.py:374-375 | after `connections.add(c)` for a connection stored under its current key, a lookup of `c` finds one; the set grows exactly when none answered before; unique keys stay unique |
| Sessions.RemoveConnectionFrom | python/maya_mock/base/session.py:390 | `connections.remove(c)` raises `KeyError` exactly when a lookup of `c` by hash finds nothing, as after an endpoint moved; otherwise one connection the lookup finds leaves; with unique keys exactly `c`, and no lookup finds it afterwards |
| Sessions.Entry | python/maya_mock/base/session.py:40 | a `defaultdict(set)` answers the stored set, or an empty one |
| Sessions.AddedToTable | python/maya_mock/base/session.py:310 | replacing a node's entry by the added set keeps every entry on its own node |
| Sessions.RemoveTouchingStep | python/maya_mock/base/session.py:325-326 | one turn of the removal loop: `KeyError` of the connection, or the connection taken out; with unique keys it always succeeds |
| Sessions.RemoveConnectionsTouching | python/maya_mock/base/session.py:323-326 | the loop fails only with the `KeyError` of a connection that uses the port; with unique keys it removes exactly the connections using the port |
| Sessions.RemovePortAsWrittenIn | python/maya_mock/base/session.py:316-331 | `remove_port` as written on values: the connections using the port go, then the port as a lookup finds it; the errors are the `KeyError`s of those removals; with unique keys exactly the port leaves |
| Sessions.RemovePortsStep | python/maya_mock/base/session.py:290-293 | one turn of the port loop of `remove_node`: the port removed as `remove_port` does, or one of its removal errors |
| Sessions.RemovePortsOn | python/maya_mock/base/session.py:290-293 | the loop of `remove_node` stops at the first removal error of a port on the node; with unique keys it removes exactly those ports and the connections using them |
| Sessions.Session.Empty | python/maya_mock/base/session.py:34-41 | a new session has no nodes, ports, connections or selection |
| Sessions.Session.UniqueName | python/maya_mock/base/session.py:103-115 | `_unique_name` returns `<prefix><i>` for the first free i from 1 |
| Sessions.Session.GetNodeByName | python/maya_mock/base/session.py:117-129 | a node with the name, or nothing exactly when no node has it |
| Sessions.Session.GetNodesByMatch | python/maya_mock/base/session.py:131-144 | the matching nodes, each once and sorted by dag path; `ValueError` exactly when strict and none match |
| Sessions.Session.GetItem | python/maya_mock/base/session.py:58-67 | `session[item]` answers a matching port first, else a matching node, else the strict lookup's `ValueError` |
| Sessions.Session.GetNodeByMatch | python/maya_mock/base/session.py:161-167 | the matching node with the smallest dag path, nothing when none (non-strict), `ValueError` when strict |
| Sessions.Session.NodeExists | python/maya_mock/base/session.py:77-87 | `node_exist` holds exactly when some node matches the path |
| Sessions.Session.GetPortByMatch | python/maya_mock/base/session.py:183-195 | a scene port the pattern matches, or nothing exactly when none does |
| Sessions.Session.GetConnectionByPorts | python/maya_mock/base/session.py:197-206 | the connection between the very two ports, exactly when it exists |
| Sessions.Session.GetNodePortByName | python/maya_mock/base/session.py:399-418 | a port of the node answering to the name by long, short or nice name, or nothing exactly when none does |
| Sessions.Session.MelObject | src/maya_mock/base/node.py:47-69 | the `__melobject__` loop returns the node's display form |
| Sessions.Session.PortMelObject | src/maya_mock/base/port.py:75-76 | a port's display is its node's display form, `.`, its name |
| Sessions.Session.AddToTables | python/maya_mock/base/session.py:310-311 | the port joins its node's entry and the scene's ports as `set.add` does: unless a lookup of it finds a port already |
| Sessions.Session.CreatePort | python/maya_mock/base/session.py:300-314 | `create_port` makes a port with the given options on the node, stored under the node's path at that moment, `.` and the name, and adds it to both tables as `set.add` does; a bad type raises `AttributeError` with the type name and changes nothing |
| Sessions.Session.RemoveConnection | python/maya_mock/base/session.py:380-390 | `remove_connection` raises `KeyError` exactly when a lookup of the connection finds nothing; otherwise one connection the lookup finds leaves; with unique keys exactly it |
| Sessions.Session.DropFromEntry | python/maya_mock/base/session.py:316-331 | the corrected half only: the port leaves its node's entry and no other entry changes |
| Sessions.Session.RemovePortAsWritten | python/maya_mock/base/session.py:316-331 | `remove_port` as written: the connections using the port go, then the port as a lookup finds it; `KeyError` when a lookup misses; the ports-by-node table is unchanged, so the node still lists the port |
| Sessions.Session.RemovePort | python/maya_mock/base/session.py:316-331 | `remove_port` with the table kept in step: as written, and on success the port is no longer in its node's entry, which loses exactly that port |
| Sessions.Session.RemoveNodePort | python/maya_mock/base/session.py:333-341 | a port of the node answering to the name is removed as `remove_port` does, the table unchanged; with none, `KeyError(None)` and nothing changes |
| Sessions.Session.RemovePortsOfNode | python/maya_mock/base/session.py:290-293 | every port on the node is removed as `remove_port` does, stopping at the first removal error; the table is unchanged; with unique keys exactly those ports and their connections go |
| Sessions.Session.RemoveNode | python/maya_mock/base/session.py:284-298 | the node's ports and their connections go, then the node; `KeyError` when the node is not in the scene or a removal misses; the table is unchanged |
| Sessions.Session.CreateConnection | python/maya_mock/base/session.py:343-378 | an impossible type pair raises the `RuntimeError` naming both paths and changes nothing; otherwise the new connection is added as `set.add` does and a lookup of it finds one |
| Sessions.Session.CreateNamedPort | python/maya_mock/base/session.py:300-314 | `create_port` with its fields, key and both tables stated as `set.add` leaves them, and the node's entry then holds a port of that name; a bad type raises `AttributeError` with the type name and changes nothing |
| Sessions.Session.CreateEntryPort | src/maya_mock/base/schema.py:143-144 | `create_port` for one entry: a port on the node made from the entry's options, stored under the node's path, `.` and the name, added to the node's entry as `set.add` does |
| Sessions.Session.ApplyEntry | src/maya_mock/base/schema.py:143-144 | one data entry becomes a port on the node made from the entry's options with `user_defined` false (every field: type, value, short and nice names, flags, parent), or the entry's unknown type raises `AttributeError` with the type name and changes nothing |
| Sessions.Session.ApplyNodeType | src/maya_mock/base/schema.py:136-144 | `apply` creates only non-user-defined ports named in the data; it fails exactly on an unknown attribute type, with `AttributeError` naming that type; on success a node that had no ports holds exactly one port per data entry, each made from that entry's options with `user_defined` false; no other node's entry changes |
| Sessions.AddedPortFresh | python/maya_mock/base/session.py:309-310 | a port whose name no port of the entry has is added as itself: `set.add` finds nothing under its key |
| Sessions.AppliedStep | src/maya_mock/base/schema.py:143-144 | one more entry applied keeps the loop's record: every handled entry has a port, and on a fresh node each port is made from its entry and no two share a name |
| Sessions.AppliedAll | src/maya_mock/base/schema.py:143-144 | with every entry handled, a fresh node's entry holds exactly the ports the data describes |
| Sessions.Session.AddNode | python/maya_mock/base/session.py:269-274 | the created node joins the scene |
| Sessions.Session.ResolveName | python/maya_mock/base/session.py:245-261 | the name computed is the resolved name |
| Sessions.ConformedName | python/maya_mock/base/session.py:232-238 | the name `create_node` goes on with: a given name conformed, none kept as none; `ConformNodeName` states what conforming removes |
| Sessions.ResolvedNamedAfter | python/maya_mock/base/session.py:245-261 | the name `create_node` gives for a requested name is the conformed name, or its stem with a number |
| Sessions.Session.PlaceNode | python/maya_mock/base/session.py:269-280 | the node is created under the given parent; its entry holds exactly the ports its type's schema definition describes, one per entry, made from that entry's options; the entries of existing nodes are unchanged |
| Sessions.Session.PlaceUnder | python/maya_mock/base/session.py:267-269 | placing a shape under its new transform leaves the transform's schema ports as they were made |
| Sessions.Session.CreateShapeTransform | python/maya_mock/base/session.py:263-267 | a shape's transform is a new root transform named `<prefix><n>` for the first free n, holding exactly the ports the `transform` definition describes |
| Sessions.Session.PlaceShape | python/maya_mock/base/session.py:263-280 | a shape is created under a new root transform: the shape has its resolved name and its type's schema ports, the transform the `transform` schema ports; existing nodes keep their entries |
| Sessions.Session.CreateNode | python/maya_mock/base/session.py:217-282 | `create_node` refuses a name with no legal characters, names by the resolved name, puts a shape under a new root transform, and gives the node (and a shape's transform) exactly the ports its schema definition describes, each made from its entry |
| Sessions.Session.LoadDefaultState | python/maya_mock/base/session.py:43-47 | one distinct new node per default-state entry, of the entry's type and named after the entry's key; success whenever every name is legal and every type applies |
| Sessions.Session.New | python/maya_mock/base/session.py:34-47 | a session starts empty and, with a schema, holds one node per default-state entry, of its type and named after its key |
| Sessions.Session.Reparent | src/maya_mock/base/node.py:88-97 | re-parenting in the scene keeps chains finite and sets the dag path under the new parent |
| Cmds.Matches | src/maya_mock/cmds/session.py:298-302 | the nodes each listed object matches |
| Cmds.Flatten | src/maya_mock/cmds/session.py:298-302 | the union of the matched nodes contains each object's matches |
| Cmds.AddedGrows | src/maya_mock/cmds/session.py:81-90 | the port carried for the next object, on its least matching node, extends the record of carried ports and of the new ports made from the options |
| Cmds.CarriedMatch | src/maya_mock/cmds/session.py:81-90 | when k objects carry a port on one of their matches, the first k objects all match a node |
| Cmds.Named | src/maya_mock/cmds/session.py:395-397 | `select` picks scene nodes whose name is listed |
| Cmds.ListNamed | src/maya_mock/cmds/session.py:395-397 | the selection lists exactly the scene nodes whose name is listed, each once |
| Cmds.AppendPorts | src/maya_mock/cmds/session.py:303-307 | one node's ports pass the `userDefined` filter and are appended with their names |
| Cmds.ListPorts | src/maya_mock/cmds/session.py:303-307 | `listAttr` lists every port of the matched nodes passing the filter, each once, by name |
| Cmds.AllMatchUpTo | src/maya_mock/cmds/session.py:298-302 | objects that each matched a node all match |
| Cmds.ChildPaths | src/maya_mock/cmds/session.py:436-437 | a child moved under the target has the target's path, `\|` and its name |
| Cmds.CmdsSession.constructor | src/maya_mock/cmds/session.py:14-18 | `session or MockedSession()`: a given session holding a node is kept; a missing or empty one is replaced by a new empty session without schema |
| Cmds.CmdsSession.ConformConnectionPorts | src/maya_mock/cmds/session.py:28-39 | both ports are found, or the source's or destination's "cannot be found" error |
| Cmds.CmdsSession.ConnectionInfo | src/maya_mock/cmds/session.py:116-156 | `ValueError` for an unknown plug; both or neither flag raise their messages; `sdf` gives an input's display or ""; `dfs` every output's display |
| Cmds.CmdsSession.InputSource | src/maya_mock/cmds/session.py:138-145 | the source display of some input connection, "" exactly when none |
| Cmds.CmdsSession.OutputDestinations | src/maya_mock/cmds/session.py:147-151 | the display of the destination of every output connection |
| Cmds.CmdsSession.FreeDestination | src/maya_mock/cmds/session.py:171-178 | an existing input raises "Maya command error" unless `force`; with `force` one input is removed as `remove_connection` does, `KeyError` when a lookup misses it |
| Cmds.CmdsSession.ConnectPorts | src/maya_mock/cmds/session.py:169-187 | `connectAttr` on found ports: the duplicate-input rule, then success exactly for a connectable type pair; an impossible pair raises the `RuntimeError` naming both ports and leaves the freed connections; on success the freed connections with the new one added, which a lookup finds |
| Cmds.CmdsSession.ConnectFreed | src/maya_mock/cmds/session.py:180-187 | the connection is created exactly for a connectable type pair; otherwise the `RuntimeError` "The attribute '<src>' cannot be connected to '<dst>'." and nothing changes; on success the old set with it added, and a lookup finds it |
| Cmds.CmdsSession.ConnectAttr | src/maya_mock/cmds/session.py:158-187 | `connectAttr` reports missing plugs, refuses an occupied destination without `force`, raises the `RuntimeError` naming both ports for an impossible pair with the freed connections left, and otherwise connects the matched ports; on success the new connection is in the scene, found by a lookup |
| Cmds.CmdsSession.DisconnectPorts | src/maya_mock/cmds/session.py:212-222 | raises "There is no connection from … to … to disconnect" exactly when no connection joins the ports; otherwise removes it as `remove_connection` does, with unique keys exactly it |
| Cmds.CmdsSession.DisconnectFound | src/maya_mock/cmds/session.py:222 | the found connection leaves as a lookup finds it, `KeyError` when the lookup misses; with unique keys no connection joins the ports afterwards |
| Cmds.CmdsSession.NoConnectionError | src/maya_mock/cmds/session.py:215-220 | the error names both ports by their display forms |
| Cmds.CmdsSession.DisconnectAttr | src/maya_mock/cmds/session.py:202-222 | `disconnectAttr` reports missing plugs, finds a connection exactly when one joins the matched ports, and removes it as `remove_connection` does |
| Cmds.CmdsSession.AddAttrTo | src/maya_mock/cmds/session.py:81-90 | one object: `ValueError` when nothing matches, `AttributeError` with the type name, or else a port of the name on the least matching node by dag path; a port made is on that node with exactly the given type, value, short and nice names, and is added as `set.add` does |
| Cmds.CmdsSession.AddAttrStep | src/maya_mock/cmds/session.py:81-90 | one turn of the object loop extends the record of carried ports, each on its object's least matching node, and of new ports made from the options, or fails with the object's error |
| Cmds.CmdsSession.AddAttrLoop | src/maya_mock/cmds/session.py:81-90 | the loop stops at the first failing object with its error; each earlier object's least matching node carries the port and every new port is made from the options |
| Cmds.CmdsSession.AddNamedAttr | src/maya_mock/cmds/session.py:78-90 | succeeds exactly when every object matches and the type is known; each object that was handled has a port of the name on its least matching node; every new port sits on such a node with the given type, value, short and nice names |
| Cmds.CmdsSession.AddAttr | src/maya_mock/cmds/session.py:41-90 | `addAttr` needs a long or short name; each handled object's least matching node carries a port named long else short, and every new port has type `at` else `dt` else "float", `defaultValue` as its value, and the short and nice names given |
| Cmds.CmdsSession.Select | src/maya_mock/cmds/session.py:385-397 | the selection becomes exactly the nodes whose name is listed |
| Cmds.CmdsSession.GetAttr | src/maya_mock/cmds/session.py:263-278 | the value of a matching port, `ValueError` exactly when none matches |
| Cmds.CmdsSession.SetAttr | src/maya_mock/cmds/session.py:399-411 | one matching port takes the value and no other changes; no match is the `AttributeError` on `None` |
| Cmds.CmdsSession.NodeType | src/maya_mock/cmds/session.py:352-364 | the type of a node with the name; no such node is the `AttributeError` on `None` |
| Cmds.CmdsSession.ObjExists | src/maya_mock/cmds/session.py:366-383 | true exactly when a port or a node matches |
| Cmds.CmdsSession.Delete | src/maya_mock/cmds/session.py:189-200 | removes a node with the name as `remove_node` does, the table unchanged; no such node is `KeyError(None)` and nothing changes |
| Cmds.CmdsSession.DeleteAttrOwner | src/maya_mock/cmds/session.py:236-245 | the owner is a node with the name, else the node of a matching port, else nothing |
| Cmds.CmdsSession.DeleteAttrOf | src/maya_mock/cmds/session.py:247-261 | without `at` a port the query matches is found exactly when one exists and goes ("Must specify attribute" if none); with `at` a port of the owner answering to it is found exactly when one exists ("does not have attribute" if none); removal as `remove_port` does, the table unchanged |
| Cmds.CmdsSession.DeleteAttr | src/maya_mock/cmds/session.py:224-261 | `deleteAttr` raises `ValueError` exactly when neither node nor port matches; otherwise the port is found exactly when the query (without `at`) or `at` (on the owner) names one, and is removed as `remove_port` does, the table unchanged |
| Cmds.CmdsSession.ListAttrNodes | src/maya_mock/cmds/session.py:298-302 | the union of every object's matches, or the `ValueError` of the first object that matches nothing |
| Cmds.CmdsSession.ListAttr | src/maya_mock/cmds/session.py:280-307 | `listAttr` names every port of the matched nodes passing the `userDefined` filter, each once |
| Cmds.CmdsSession.Ls | src/maya_mock/cmds/session.py:309-350 | `ls` lists the nodes matching the first object, filtered by selection and type, sorted by dag path, shown long or by display form |
| Cmds.CmdsSession.ShowNodes | src/maya_mock/cmds/session.py:342-350 | each node is shown by its dag path when `long`, else by its display form |
| Cmds.CmdsSession.NodesByName | src/maya_mock/cmds/session.py:433-434 | each name maps to a node with that name, or to nothing exactly when none has it |
| Cmds.CmdsSession.MoveChild | src/maya_mock/cmds/session.py:436-437 | one child moves under the target; no other link changes and the target's chain stays |
| Cmds.CmdsSession.MoveUnder | src/maya_mock/cmds/session.py:433-437 | children move under the target in order until a missing name, which fails with the `AttributeError` on `None` |
| Cmds.ParentChildren | src/maya_mock/cmds/session.py:424-429 | the objects `parent` moves: all of them with `world`, else all but the last |
| Cmds.CmdsSession.Parent | src/maya_mock/cmds/session.py:413-437 | `parent` moves the children under the last object (the root with `world` or a missing parent); each moved path is the target's path and its name |
| Cmds.CmdsSession.SelectCreated | src/maya_mock/cmds/session.py:110-112 | selecting the new node's display form leaves its schema ports, and its transform's, as they were made |
| Cmds.CmdsSession.CreateNodeUnder | src/maya_mock/cmds/session.py:106-112 | the node is created under the resolved parent with exactly its schema ports (and a shape's transform with the `transform` ports); its display form is returned and, unless `skipSelect`, selected; any other error than the illegal name is an `AttributeError` |
| Cmds.CmdsSession.CreateNode | src/maya_mock/cmds/session.py:92-114 | `createNode` resolves the parent strictly and, when a node matches, uses the least match as the parent; it creates the node with exactly its schema ports, returns its display form, and selects it unless `skipSelect`; once the parent is found and the name is legal, every error is an `AttributeError` |

## Left out

- Signals and `emit`: observer plumbing with no effect on the scene, so the model has no event log.
- Logging, `MockedSession.warning` and the `warning` command: console output only.
- `connectAttr`'s warning to the script editor is also console output. The refusal itself is modelled.
- The session's `isinstance` check on the schema: the model's types rule out other schema values.
- The schema's own `isinstance` check on `nodes`: ruled out by the types for the same reason.
- `get_node_by_namespace` and `get_known_node_types`: one-line dictionary reads that no modelled operation uses.
- `from_json_file` and `to_json_file`: file I/O. The dictionary forms they read and write are modelled.
- `__len__`, `__iter__`, `__str__`, `__setitem__` and `__delitem__` of the session: trivial, or unconditional `NotImplementedError`.
- `redirect_method_args_to_arg`: Dafny has no variadic calls, so every command takes its objects as one sequence, which is what the wrapper produces.
- Python `re` and `fnmatch` internals:
  - dag-path patterns give `*` its word-character meaning and `|` its literal one; every other character is literal;
  - `fnmatch` bracket classes `[...]` are not modelled.
- `pattern_to_regex` only sees a leading `|` after it has been escaped to `\|`, so its `startswith('|')` branch never fires. The model matches what the code does: a whole path, or a tail after a `|`.
- Port values are an opaque `Value` datatype rather than any Python object. `addAttr`'s default `0.0` is passed in as a `Value`.
- The unit-conversion factors are floats. They are modelled as two symbolic factors. The conversion branch of `create_connection` is unreachable and proved so.
- Node hashing is identity, so reparenting never changes how a node set answers. Ports and connections compare by key strings: two different strings whose hashes collide are not modelled.
- PySets.Remove: the lookup is modelled by hash and equality alone. CPython 2.7 first accepts a probed slot that holds the very object looked up, so it can still remove a moved element when its old slot lies on the new hash's probe path, which depends on the table's size and layout. The model always raises `KeyError` there. Every removal built on it inherits this: `Sessions.RemovePortFrom`, `Sessions.RemoveConnectionFrom`, the removal loops of `remove_port` and `remove_node`, `FreeDestination`, `DisconnectAttr`, `Delete` and `DeleteAttr`.
- PySets.StaleMemberMissed: states the miss of the hash lookup. CPython's identity check can find the moved object after all, depending on the table's layout.
- Sessions.RemovePortFrom: `KeyError` exactly when the hash lookup misses, as `PySets.Remove`; CPython may still remove a moved port itself.
- Sessions.RemoveConnectionFrom: `KeyError` exactly when the hash lookup misses, as `PySets.Remove`; CPython may still remove a moved connection itself.
- The stale `children` set after `remove_node`: the node stays in its parent's `children`, as in the code, and nothing in the model reads it.
- The node's own `ports` set and `get_port_by_name` on the node: never written by the session, so always empty.
- The `u` prefix that Python 2's `%r` gives unicode strings in messages: messages use the plain quote form.
- Errors.Repr: quoting a name in a message is Python's `%r` only for strings without quotes, backslashes or control characters. Python escapes those or switches to double quotes; the model always wraps the text in single quotes.
- The selection is a sequence of nodes. Membership in `ls -sl` is by identity.
- Nodes belonging to another session, and a parent given as a node of another session: each session owns a universe of its nodes.
- Cmds.CmdsSession.Parent: requires that no parent named by the last object lies below a child. The code does not check this and would create a cycle, after which `dagpath` never returns.
- Cmds.CmdsSession.Parent: states each moved child's dag path relative to the target's chain, which the move leaves unchanged. It does not restate the paths of the moved nodes' descendants.
- Cmds.CmdsSession.MoveUnder: states dag paths the same way as `Parent`.
- Cmds.CmdsSession.DeleteAttr: says that the owner was found through a matching port only through `DeleteAttrOwner`'s contract.
- Cmds.CmdsSession.ConnectionInfo: with several inputs the source shown is one of them; the code takes the first in set order.
- Cmds.CmdsSession.FreeDestination: with `force` and several inputs, which input is removed is likewise arbitrary.
- Cmds.CmdsSession.Ls: `listed` is stated as a permutation of the filtered matches plus sortedness. Ties between nodes with equal dag paths may come in any order.
- Cmds.CmdsSession.ListAttr: the order of the names is not stated; the code's order is set order.
- Cmds.CmdsSession.ListAttrNodes: collects matches from the unsorted matching set. The code sorts first, which yields the same set.
- Cmds.CmdsSession.CreateNode: selecting the returned display form picks the nodes with that exact name. For a qualified display form that is no node, as in the code.
- Sessions.Session.RemoveNode: the exact new ports and connections are stated when every port and connection is still stored under its current key and no two share one. Otherwise the contract states the possible errors and that the sets only shrink, not which connections a failed loop had already removed.
- Sessions.Session.RemovePortsOfNode: exact results are stated under the same unique-key condition as `RemoveNode`.
- Sessions.Session.RemovePort: the exact connections removed are stated under the same unique-key condition. The port itself is always stated as the one a lookup takes out.
- Sessions.Session.RemovePortAsWritten: states its results in the same way as `RemovePort`.
- Sessions.Session.RemoveNodePort: states its results in the same way as `RemovePort`.
- Sessions.Session.RemoveConnection: the removed connection is the one a lookup takes out; that it is exactly the given one is stated under unique keys.
- Cmds.CmdsSession.Delete: states its results in the same way as `RemoveNode`.
- Cmds.CmdsSession.DeleteAttrOf: states its results in the same way as `RemovePort`.
- Cmds.CmdsSession.DeleteAttr: states its results in the same way as `RemovePort`.
- Cmds.CmdsSession.DisconnectPorts: states its results in the same way as `RemoveConnection`.
- Cmds.CmdsSession.DisconnectAttr: states its results in the same way as `RemoveConnection`.
- Cmds.CmdsSession.ConnectPorts: the success condition and the connections left after `force` are stated exactly under unique keys. The `KeyError` that `force` raises when the old input's node has moved is stated by `FreeDestination` and not restated here.
- Cmds.CmdsSession.ConnectAttr: states success and the `force` removal in the same way as `ConnectPorts`.
- Ports.Port.constructor: an empty name is kept as `""`. The code turns it into `None` (so the short and nice names become `None` too) and the dag path ends in `.None`. `addAttr` refuses empty names before it gets here; a schema entry with an empty key does not.
- Ports.NewPort: keeps an empty name and keys the port by a path ending in `.`, as the constructor does.
- Sessions.Session.CreatePort: keeps an empty name in the same way as `Ports.NewPort`.
- Sessions.Session.CreateNamedPort: keeps an empty name in the same way as `Ports.NewPort`.
- Scene.InputConnections: the identity set of matching connections. The code builds a new Python set, which hashes each connection by its current paths and so merges two whose current paths agree. That happens only after `parent` moved a node and an equal connection was added again.
- Scene.OutputConnections: keeps every matching connection in the same way as `Scene.InputConnections`.
- Scene.PortInputs: the sources as an identity set. The code's set comprehension merges ports whose current dag paths agree, which only a move can cause.
- Scene.PortOutputs: the destinations as an identity set, in the same way as `Scene.PortInputs`.
- Cmds.CmdsSession.OutputDestinations: lists one display per connection of `Scene.OutputConnections`. Where the code's set merged two connections, it lists one fewer.
- Cmds.CmdsSession.ConnectionInfo: `dfs` lists the destinations in the same way as `OutputDestinations`.
- Sessions.Session.CreateNode: success is promised when the schema's port types are all known. Otherwise only the kind of error is stated.
- Cmds.CmdsSession.CreateNode: states success and errors in the same way as `Sessions.Session.CreateNode`.
- Sessions.Session.ApplyNodeType: the error names some entry with an unknown type. The code names the first in dictionary order.
- Schemas.NewNodeTypeDef: `data.pop(key)` also removes the parent's keys from the dictionary the caller passed in. The model's maps are values, so the caller's map is unchanged.
- Sessions.Session.LoadDefaultState: states that a failure is one of the two errors `create_node` can raise, not which one.
- Sessions.Session.LoadDefaultState: states each node's name as the conformed key or its stem followed by a number, not which. That depends on the nodes created before it, and so on the dictionary's iteration order.
- Sessions.Session.New: states failures and names in the same way as `LoadDefaultState`.
- Scene.DisplayFormResolvesToNode: assumes names without `|` or `*`, which the naming rules do not enforce for explicit names.

## Findings

| source | as written | input that shows it | evidently intended | confidence | as-written member | corrected member |
|---|---|---|---|---|---|---|
| python/maya_mock/base/session.py:316-331 | `remove_port` removes the port from `ports` but not from `ports_by_node[port.node]` | `create_port(n, "foo")`, then `remove_port` on it: `listAttr(n)` still lists "foo", and `deleteAttr(n, at="foo")` finds it again and raises `KeyError` from `ports.remove` | the removed port also leaves its node's entry, as `create_port` put it there (line 310) | likely; not executed | Sessions.Session.RemovePortAsWritten | Sessions.Session.RemovePort |
