/**
 * Node names and dag-path patterns. A dag path is a `|`-separated list of
 * node names starting with `|` ("|parent|child"). A pattern is matched the
 * way the regular expression built from it matches: `*` stands for a run of
 * word characters, `|` is literal, and the pattern must cover either the
 * whole dag path or the part after one of its `|`.
 */
module Naming {
  import opened Errors
  import opened PyStrings

  /**
   * Conforming a node name removes one leading digit, if there is one, and
   * nothing else: the second alternative of the substitution is a zero-width
   * look-ahead and removes no character.
   */
  function ConformNodeName(name: string): (r: string)
    ensures |r| <= |name| <= |r| + 1 && r == name[|name| - |r|..]
    ensures |r| < |name| <==> |name| > 0 && IsDigit(name[0])
  {
    if |name| > 0 && IsDigit(name[0]) then name[1..] else name
  }

  /** Only one digit goes: "0" conforms to the empty name, "00" to "0", and ':' stays. */
  lemma ConformStripsOneDigitOnly()
    ensures ConformNodeName("0") == ""
    ensures ConformNodeName("00") == "0"
    ensures ConformNodeName("foo:bar") == "foo:bar"
  {
  }

  function StartsWithPipe(s: string): bool
  {
    |s| > 0 && s[0] == '|'
  }

  /** Join two dag paths: strip `|` from both ends of each, join with `|`, keep a leading `|` of `left`. */
  function Join(left: string, right: string): string
  {
    (if StartsWithPipe(left) then "|" else "") + Strip(left, '|') + "|" + Strip(right, '|')
  }

  /** A node name that takes part in dag paths cleanly: non-empty, no `|` and no `*`. */
  predicate PlainName(name: string)
  {
    |name| > 0 && forall i :: 0 <= i < |name| ==> name[i] != '|' && name[i] != '*'
  }

  /** Joining a plain name with a relative path puts exactly one `|` between them. */
  lemma JoinPlain(left: string, right: string)
    requires PlainName(left)
    requires |right| > 0 && right[0] != '|' && right[|right| - 1] != '|'
    ensures Join(left, right) == left + "|" + right
    ensures Join("|" + left, right) == "|" + left + "|" + right
  {
    StripNoop(left, '|');
    StripNoop(right, '|');
    assert LStrip("|" + left, '|') == LStrip(left, '|');
  }

  /** The glob part of a pattern: `*` matches a (possibly empty) run of word characters. */
  predicate GlobMatch(p: string, s: string)
    decreases |p| + |s|
  {
    if |p| == 0 then |s| == 0
    else if p[0] == '*' then
      GlobMatch(p[1..], s) || (|s| > 0 && IsWordChar(s[0]) && GlobMatch(p, s[1..]))
    else |s| > 0 && s[0] == p[0] && GlobMatch(p[1..], s[1..])
  }

  /**
   * Whether a dag path matches a pattern: no pattern matches everything;
   * otherwise the pattern must match the whole path or the part after a `|`.
   */
  predicate MatchesDagPath(pattern: Option<string>, dagpath: string)
  {
    pattern.None?
    || GlobMatch(pattern.value, dagpath)
    || exists k :: 0 <= k < |dagpath| && dagpath[k] == '|' && GlobMatch(pattern.value, dagpath[k + 1..])
  }

  lemma NoPatternMatchesAll(dagpath: string)
    ensures MatchesDagPath(None, dagpath)
  {
  }

  function CountChar(s: string, c: char): nat
  {
    if |s| == 0 then 0 else (if s[0] == c then 1 else 0) + CountChar(s[1..], c)
  }

  predicate HasStar(p: string)
  {
    exists i :: 0 <= i < |p| && p[i] == '*'
  }

  /** A pattern without `*` globs exactly the string equal to it. */
  lemma {:induction false} GlobWithoutStarIsEquality(p: string, s: string)
    requires !HasStar(p)
    ensures GlobMatch(p, s) <==> p == s
  {
    if |p| > 0 {
      assert p[0] != '*';
      assert !HasStar(p[1..]) by {
        forall i | 0 <= i < |p[1..]| ensures p[1..][i] != '*' {
          assert p[1..][i] == p[i + 1];
        }
      }
      if |s| > 0 {
        GlobWithoutStarIsEquality(p[1..], s[1..]);
        if s[0] == p[0] && p[1..] == s[1..] {
          assert p == [p[0]] + p[1..] && s == [s[0]] + s[1..];
        }
      }
    }
  }

  /** `*` never crosses a `|`: a globbed string has as many `|` as the pattern. */
  lemma {:induction false} GlobKeepsPipes(p: string, s: string)
    requires GlobMatch(p, s)
    ensures CountChar(s, '|') == CountChar(p, '|')
    decreases |p| + |s|
  {
    if |p| > 0 {
      if p[0] == '*' {
        if GlobMatch(p[1..], s) {
          GlobKeepsPipes(p[1..], s);
        } else {
          GlobKeepsPipes(p, s[1..]);
        }
      } else {
        GlobKeepsPipes(p[1..], s[1..]);
      }
    }
  }

  /**
   * A relative pattern without `*` names a trailing run of segments: it
   * matches exactly the path equal to it and the paths ending in `|` + it.
   */
  lemma RelativePatternMatchesSuffix(p: string, d: string)
    requires !HasStar(p)
    ensures MatchesDagPath(Some(p), d) <==> d == p || (|d| > |p| && d[|d| - |p| - 1..] == "|" + p)
  {
    GlobWithoutStarIsEquality(p, d);
    if MatchesDagPath(Some(p), d) && d != p {
      var k :| 0 <= k < |d| && d[k] == '|' && GlobMatch(p, d[k + 1..]);
      GlobWithoutStarIsEquality(p, d[k + 1..]);
      assert d[|d| - |p| - 1..] == [d[k]] + d[k + 1..];
    }
    if |d| > |p| && d[|d| - |p| - 1..] == "|" + p {
      var k := |d| - |p| - 1;
      assert d[k] == '|' && d[k + 1..] == p;
      GlobWithoutStarIsEquality(p, d[k + 1..]);
    }
  }

  /** No two consecutive `|`: every segment of the path is non-empty. */
  predicate NoEmptySegment(d: string)
  {
    forall k :: 0 <= k < |d| - 1 ==> !(d[k] == '|' && d[k + 1] == '|')
  }

  /** A pattern with a leading `|` can only match a whole dag path. */
  lemma AbsolutePatternMatchesWholePath(p: string, d: string)
    requires StartsWithPipe(p) && NoEmptySegment(d)
    ensures MatchesDagPath(Some(p), d) <==> GlobMatch(p, d)
  {
  }

  /** `*` takes the trailing digits: "transform*" matches "|transform1". */
  lemma StarMatchExample()
    ensures MatchesDagPath(Some("transform*"), "|transform1")
  {
    assert GlobMatch("*", "1");
    assert GlobMatch("transform*", "transform1");
    assert "|transform1"[1..] == "transform1";
  }

  /** "B" and "A|B" both match "|A|B"; "|B" does not. */
  lemma SegmentMatchExamples()
    ensures MatchesDagPath(Some("B"), "|A|B") && MatchesDagPath(Some("A|B"), "|A|B")
    ensures !MatchesDagPath(Some("|B"), "|A|B")
  {
    RelativePatternMatchesSuffix("B", "|A|B");
    assert "|A|B"[2..] == "|" + "B";
    RelativePatternMatchesSuffix("A|B", "|A|B");
    assert "|A|B"[0..] == "|" + "A|B";
    AbsolutePatternMatchesWholePath("|B", "|A|B");
    GlobWithoutStarIsEquality("|B", "|A|B");
  }

  lemma {:induction false} CountCharAppend(a: string, b: string, c: char)
    ensures CountChar(a + b, c) == CountChar(a, c) + CountChar(b, c)
  {
    if |a| > 0 {
      assert (a + b)[1..] == a[1..] + b;
      CountCharAppend(a[1..], b, c);
    } else {
      assert a + b == b;
    }
  }

  lemma {:induction false} CountCharBounded(s: string, c: char)
    ensures CountChar(s, c) <= |s|
    ensures (forall i :: 0 <= i < |s| ==> s[i] != c) ==> CountChar(s, c) == 0
  {
    if |s| > 0 {
      CountCharBounded(s[1..], c);
    }
  }

  /** Every character of a pattern but `*` consumes one character: a globbed string is at least that long. */
  lemma {:induction false} GlobLength(p: string, s: string)
    requires GlobMatch(p, s)
    ensures |s| + CountChar(p, '*') >= |p|
    decreases |p| + |s|
  {
    if |p| > 0 {
      if p[0] == '*' {
        if GlobMatch(p[1..], s) {
          GlobLength(p[1..], s);
        } else {
          GlobLength(p, s[1..]);
        }
      } else {
        GlobLength(p[1..], s[1..]);
      }
    }
  }

  /** So a pattern with more non-`*` characters than a path has never matches it. */
  lemma LongPatternMatchesNothing(p: string, d: string)
    requires |p| - CountChar(p, '*') > |d|
    ensures !MatchesDagPath(Some(p), d)
  {
    if GlobMatch(p, d) {
      GlobLength(p, d);
    }
    if exists k :: 0 <= k < |d| && d[k] == '|' && GlobMatch(p, d[k + 1..]) {
      var k :| 0 <= k < |d| && d[k] == '|' && GlobMatch(p, d[k + 1..]);
      GlobLength(p, d[k + 1..]);
    }
  }
}
