/**
 * The comparison operators shared by objects that have a dag path. Each
 * operator compares the two objects' dag paths, so the model states them on
 * the paths themselves.
 */
module DagObjects {
  import opened Errors
  import opened PyStrings

  /** `a == b`: the hashes are equal; the default hash is the hash of the dag path. */
  predicate Equal(a: string, b: string)
  {
    a == b
  }

  /** `a != b`: the hashes differ. */
  predicate NotEqual(a: string, b: string)
  {
    a != b
  }

  /** `a < b`, the comparison `sorted` uses. */
  predicate Less(a: string, b: string)
  {
    LexLt(a, b)
  }

  /** `a <= b`. */
  predicate LessOrEqual(a: string, b: string)
  {
    LexLe(a, b)
  }

  /** `a >= b`. */
  predicate GreaterOrEqual(a: string, b: string)
  {
    LexLe(b, a)
  }

  /** `a > b` reads a misspelled attribute of `b` and so always fails. */
  function Greater(className: string, a: string, b: string): (r: Result<bool>)
    ensures r == Err(AttributeError("'" + className + "' object has no attribute 'dagapth'"))
  {
    Err(AttributeError("'" + className + "' object has no attribute 'dagapth'"))
  }

  lemma NotEqualNegatesEqual(a: string, b: string)
    ensures NotEqual(a, b) <==> !Equal(a, b)
  {
  }

  /** `<` is a strict total order on dag paths, so `sorted` has a unique result. */
  lemma LessIsStrictTotalOrder(a: string, b: string, c: string)
    ensures !Less(a, a)
    ensures Less(a, b) ==> !Less(b, a)
    ensures Less(a, b) && Less(b, c) ==> Less(a, c)
    ensures Less(a, b) || a == b || Less(b, a)
  {
    LexLtIrreflexive(a);
    if Less(a, b) {
      LexLtAsymmetric(a, b);
      if Less(b, c) {
        LexLtTransitive(a, b, c);
      }
    }
    LexLtTrichotomy(a, b);
  }

  /** `>=` is the negation of `<`, and `<=` is `<` or `==`. */
  lemma ComparisonsAgree(a: string, b: string)
    ensures GreaterOrEqual(a, b) <==> !Less(a, b)
    ensures LessOrEqual(a, b) <==> Less(a, b) || Equal(a, b)
  {
    LexLtTrichotomy(a, b);
    if Less(a, b) && LexLt(b, a) {
      LexLtAsymmetric(a, b);
    }
    if Less(a, b) {
      LexLtIrreflexive(a);
    }
  }
}
