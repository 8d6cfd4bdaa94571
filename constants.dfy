/** The fixed tables of the mock: reserved names, shape types, attribute types, connection rules. */
module Constants {
  import opened Errors

  /** MEL keywords that cannot be used as a node name as-is. */
  const BlacklistedNodeNames: seq<string> := [
    "break", "case", "default", "do", "else", "false", "float", "global", "for", "if", "in",
    "int", "matrix", "no", "proc", "string", "switch", "true", "vector", "while", "yes"
  ]

  /** Node types whose nodes always live under a transform. */
  const ShapeClass: seq<string> := [
    "drawdb.light", "mesh", "nurbsSurface", "nurbsCurve", "locator", "volume"
  ]

  /** Name prefixes for the transform created above a shape, by shape type. */
  const DefaultPrefixByShapeType: map<string, string> := map[
    "mesh" := "polySurface",
    "nurbsSurface" := "surface",
    "nurbsCurve" := "curve"
  ]

  /** `DEFAULT_PREFIX_BY_SHAPE_TYPE.get(t, t)`. */
  function DefaultPrefix(nodeType: string): (prefix: string)
    ensures nodeType in DefaultPrefixByShapeType ==> prefix == DefaultPrefixByShapeType[nodeType]
    ensures nodeType !in DefaultPrefixByShapeType ==> prefix == nodeType
  {
    if nodeType in DefaultPrefixByShapeType then DefaultPrefixByShapeType[nodeType] else nodeType
  }

  /** The members of the attribute-type enumeration, as (member name, value) pairs. */
  const EnumAttrTypes: seq<(string, string)> := [
    ("bool", "bool"), ("long", "long"), ("short", "short"), ("byte", "byte"),
    ("char", "char"), ("enum", "enum"), ("float", "float"), ("double", "double"),
    ("doubleAngle", "doubleAngle"), ("doubleLinear", "doubleLinear"), ("string", "string"),
    ("stringArray", "stringArray"), ("compound", "compound"), ("message", "message"),
    ("time", "time"), ("matrix", "matrix"), ("fltMatrix", "fltMatrix"),
    ("reflectanceRGB", "reflectanceRGB"), ("reflectance", "reflectance"),
    ("spectrumRGB", "spectrumRGB"), ("spectrum", "spectrum"), ("float2", "float2"),
    ("float3", "float3"), ("double2", "double2"), ("double3", "double3"),
    ("double4", "double4"), ("long2", "long2"), ("long3", "long3"), ("short2", "short2"),
    ("short3", "short3"), ("doubleArray", "doubleArray"), ("Int32Array", "Int32Array"),
    ("vectorArray", "vectorArray"), ("nurbsCurve", "nurbsCurve"),
    ("nurbsSurface", "nurbsSurface"), ("mesh", "mesh"), ("lattice", "lattice"),
    ("pointArray", "pointArray"), ("typed", "typed"), ("generic", "generic"),
    ("lightData", "lightData"), ("addr", "addr"), ("floatLinear", "floatLinear"),
    ("polyFaces", "polyFaces")
  ]

  predicate IsAttrTypeName(name: string)
  {
    exists i :: 0 <= i < |EnumAttrTypes| && EnumAttrTypes[i].0 == name
  }

  /** A port type: the name of an attribute-type member. */
  type AttrType = name: string | IsAttrTypeName(name) witness EnumAttrTypes[0].0

  /** `getattr(EnumAttrTypes, name)`: the member's value, or nothing for an unknown name. */
  function LookupAttrType(name: string): (r: Option<AttrType>)
    ensures r.Some? <==> IsAttrTypeName(name)
    ensures r.Some? ==> r.value == name
  {
    LookupAttrTypeFrom(name, 0)
  }

  function LookupAttrTypeFrom(name: string, i: nat): (r: Option<AttrType>)
    requires i <= |EnumAttrTypes|
    requires forall j :: 0 <= j < i ==> EnumAttrTypes[j].0 != name
    ensures r.Some? <==> IsAttrTypeName(name)
    ensures r.Some? ==> r.value == name
    decreases |EnumAttrTypes| - i
  {
    if i == |EnumAttrTypes| then None
    else if EnumAttrTypes[i].0 == name then
      MemberValueIsName(i);
      Some(EnumAttrTypes[i].1)
    else LookupAttrTypeFrom(name, i + 1)
  }

  /** Every member's value is its own name. */
  lemma MemberValueIsName(i: nat)
    requires i < |EnumAttrTypes|
    ensures EnumAttrTypes[i].1 == EnumAttrTypes[i].0
  {
  }

  /** The attribute type a port gets when none is given. */
  const DefaultPortType: AttrType := (assert EnumAttrTypes[1].0 == "long"; "long")

  /** Type pairs that cannot be connected from source to destination. */
  const ImpossibleConnections: set<(string, string)> := {("char", "string")}

  /**
   * The unit conversion factors are floats; the model only needs to tell
   * apart the degree-to-radian factor and its reciprocal.
   */
  datatype Factor = RadiansPerDegree | DegreesPerRadian

  function Reciprocal(f: Factor): (g: Factor)
    ensures g != f
  {
    match f
    case RadiansPerDegree => DegreesPerRadian
    case DegreesPerRadian => RadiansPerDegree
  }

  lemma ReciprocalInvolutive(f: Factor)
    ensures Reciprocal(Reciprocal(f)) == f
  {
  }

  /** A key of the conversion table: a (source, destination) type pair, or a bare factor. */
  datatype ConversionKey = TypePair(src: string, dst: string) | FactorValue(factor: Factor)

  /** The conversion table as first written: (source type, destination type) to factor, in order. */
  const DeclaredConversionFactors: seq<((string, string), Factor)> := [
    (("double", "doubleAngle"), RadiansPerDegree),
    (("bool", "doubleAngle"), RadiansPerDegree)
  ]

  /** The dict comprehension that rebuilds the table: for each entry, factor := 1 / factor. */
  function RebuildConversionTable(entries: seq<((string, string), Factor)>): map<ConversionKey, Factor>
  {
    if |entries| == 0 then map[]
    else
      var last := entries[|entries| - 1].1;
      RebuildConversionTable(entries[..|entries| - 1])[FactorValue(last) := Reciprocal(last)]
  }

  /** The table as rebuilt, which is the one the session consults. */
  const ConversionFactorByType: map<ConversionKey, Factor> := RebuildConversionTable(DeclaredConversionFactors)

  /** `CONVERSION_FACTOR_BY_TYPE.get((src, dst))`. */
  function ConversionFactor(src: string, dst: string): Option<Factor>
  {
    Get(ConversionFactorByType, TypePair(src, dst))
  }

  /** `m.get(k)`. */
  function Get<K, V>(m: map<K, V>, k: K): (r: Option<V>)
    ensures r.Some? <==> k in m
    ensures r.Some? ==> r.value == m[k]
  {
    if k in m then Some(m[k]) else None
  }

  /** The rebuilt table has the single key of the one declared factor and no type pair. */
  lemma RebuiltTableKeyedByFactor()
    ensures ConversionFactorByType == map[FactorValue(RadiansPerDegree) := DegreesPerRadian]
  {
    var e := DeclaredConversionFactors;
    assert e[..1][..0] == [];
    assert RebuildConversionTable(e[..1]) == map[FactorValue(RadiansPerDegree) := DegreesPerRadian];
    assert e[..2][..1] == e[..1];
    assert e[..2] == e;
    assert RebuildConversionTable(e) == RebuildConversionTable(e[..1])[FactorValue(RadiansPerDegree) := DegreesPerRadian];
  }

  /** So a lookup by a type pair never finds a factor. */
  lemma NoConversionByTypePair(src: string, dst: string)
    ensures ConversionFactor(src, dst) == None
  {
    RebuiltTableKeyedByFactor();
  }

  /** No reserved name ends in a digit, so a numbered name is never reserved. */
  lemma BlacklistedNamesEndInLetter()
    ensures forall i :: 0 <= i < |BlacklistedNodeNames| ==>
      |BlacklistedNodeNames[i]| > 0 && 'a' <= BlacklistedNodeNames[i][|BlacklistedNodeNames[i]| - 1] <= 'z'
  {
  }
}
