/** Names of enrolment sessions and of their output directories. */
module SessionIds {
  import opened Decimals
  import opened RustInts

  lemma {:induction false} DecimalIsClean(n: nat)
    ensures IsClean(Decimal(n))
  {
    if n >= 10 {
      DecimalIsClean(n / 10);
    }
  }

  // ----- session ids -----

  const PREFIX := "face-enrollment-"

  function BaseId(unixMs: nat): string {
    PREFIX + Decimal(unixMs)
  }

  function SuffixedId(base: string, suffix: nat): string {
    base + "-" + Decimal(suffix)
  }

  lemma SuffixedIdsAreDistinct(base: string, m: nat, n: nat)
    ensures SuffixedId(base, m) == SuffixedId(base, n) ==> m == n
    ensures SuffixedId(base, m) != base
  {
    if SuffixedId(base, m) == SuffixedId(base, n) {
      assert SuffixedId(base, m)[|base| + 1..] == Decimal(m);
      assert SuffixedId(base, n)[|base| + 1..] == Decimal(n);
      DecimalIsInjective(m, n);
    }
  }

  /** Pigeonhole: a table that holds the base and n suffixed ids has more than n entries. */
  lemma {:induction false} TakenIdsCount(taken: set<string>, base: string, n: nat) returns (held: set<string>)
    requires base in taken
    requires forall s :: 1 <= s <= n ==> SuffixedId(base, s) in taken
    ensures held <= taken && |held| == n + 1 && n < |taken|
    ensures forall id :: id in held <==> id == base || exists s :: 1 <= s <= n && id == SuffixedId(base, s)
  {
    if n == 0 {
      held := {base};
    } else {
      var fewer := TakenIdsCount(taken, base, n - 1);
      var last := SuffixedId(base, n);
      SuffixedIdsAreDistinct(base, n, n);
      forall s | 1 <= s <= n - 1 ensures SuffixedId(base, s) != last {
        SuffixedIdsAreDistinct(base, s, n);
      }
      held := fewer + {last};
    }
    SubsetSize(held, taken);
  }

  lemma {:induction false} SubsetSize<T>(small: set<T>, large: set<T>)
    requires small <= large
    ensures |small| <= |large|
  {
    if small != {} {
      var x :| x in small;
      SubsetSize(small - {x}, large - {x});
    }
  }

  /**
   * The search for an unused id.  With fewer than 2^32 sessions it always finds one, so
   * the fallback is never used; the clock is read again for the fallback.
   */
  method NextFaceEnrollmentSessionId(taken: set<string>, unixMs: nat, laterUnixMs: nat) returns (id: string)
    ensures IsClean(id) && id != []
    ensures |taken| <= U32_MAX ==> id !in taken
    ensures BaseId(unixMs) !in taken ==> id == BaseId(unixMs)
  {
    var base := BaseId(unixMs);
    DecimalIsClean(unixMs);
    DecimalIsClean(laterUnixMs);
    if base !in taken {
      return base;
    }
    for suffix := 1 to U32_MAX + 1
      invariant forall s :: 1 <= s < suffix ==> SuffixedId(base, s) in taken
    {
      var candidate := SuffixedId(base, suffix);
      DecimalIsClean(suffix);
      if candidate !in taken {
        return candidate;
      }
    }
    ghost var held := TakenIdsCount(taken, base, U32_MAX);
    return PREFIX + Decimal(laterUnixMs) + "-fallback";
  }

  // ----- directory names -----

  predicate IsCleanChar(c: char) {
    '0' <= c <= '9' || 'a' <= c <= 'z' || 'A' <= c <= 'Z' || c == '-' || c == '_'
  }

  predicate IsClean(text: string) {
    forall i :: 0 <= i < |text| ==> IsCleanChar(text[i])
  }

  function SanitizeSessionPathSegment(value: string): (segment: string)
    ensures segment != [] && IsClean(segment)
    ensures segment == value <==> value != [] && IsClean(value)
  {
    var sanitized := seq(|value|, i requires 0 <= i < |value| => if IsCleanChar(value[i]) then value[i] else '-');
    if sanitized == [] then "face-enrollment-session" else sanitized
  }

  type Path = seq<string>

  function OutputDir(root: Path, sessionId: string): Path {
    root + [SanitizeSessionPathSegment(sessionId)]
  }

  /** Whatever the id is, its directory lies directly below the root, without leading elsewhere. */
  lemma DirectoryStaysBelowTheRoot(root: Path, id: string)
    ensures var dir := OutputDir(root, id);
            && |dir| == |root| + 1 && dir[..|root|] == root
            && dir[|root|] != "" && dir[|root|] != "." && dir[|root|] != ".."
            && forall i :: 0 <= i < |dir[|root|]| ==> dir[|root|][i] !in {'/', '\\', ':', '.', ' ', '\0'}
  {
    var segment := SanitizeSessionPathSegment(id);
    assert OutputDir(root, id)[|root|] == segment;
    assert IsCleanChar(segment[0]);
  }

  /** Two characters that a directory name does not tell apart. */
  predicate LookAlike(a: char, b: char) {
    a == b || ((a == '-' || !IsCleanChar(a)) && (b == '-' || !IsCleanChar(b)))
  }

  /** The name that an empty one stands for. */
  function OrDefault(name: string): string {
    if name == [] then "face-enrollment-session" else name
  }

  predicate LookAlikeNames(a: string, b: string) {
    |a| == |b| && forall i :: 0 <= i < |a| ==> LookAlike(a[i], b[i])
  }

  /**
   * Exactly when two names share a directory: when they look alike character by character,
   * the empty name standing for the default one.
   */
  lemma DirectoriesCoincide(root: Path, a: string, b: string)
    ensures OutputDir(root, a) == OutputDir(root, b) <==> LookAlikeNames(OrDefault(a), OrDefault(b))
  {
    SegmentOf(a);
    SegmentOf(b);
    var s, t := SanitizeSessionPathSegment(a), SanitizeSessionPathSegment(b);
    assert OutputDir(root, a)[|root|] == s && OutputDir(root, b)[|root|] == t;
    if s == t {
      forall i | 0 <= i < |s| ensures LookAlike(OrDefault(a)[i], OrDefault(b)[i]) {
        assert s[i] == t[i];
      }
    }
    if LookAlikeNames(OrDefault(a), OrDefault(b)) {
      forall i | 0 <= i < |s| ensures s[i] == t[i] {
        assert LookAlike(OrDefault(a)[i], OrDefault(b)[i]);
      }
      assert s == t;
    }
  }

  lemma SegmentOf(name: string)
    ensures var segment, text := SanitizeSessionPathSegment(name), OrDefault(name);
            && |segment| == |text|
            && forall i :: 0 <= i < |text| ==> segment[i] == if IsCleanChar(text[i]) then text[i] else '-'
  {
  }

  /** Two clean names, such as the ids of sessions, share a directory only if they are the same. */
  lemma OutputDirsDiffer(root: Path, a: string, b: string)
    requires a != [] && b != [] && IsClean(a) && IsClean(b)
    ensures OutputDir(root, a) == OutputDir(root, b) <==> a == b
  {
    assert OutputDir(root, a)[|root|] == a && OutputDir(root, b)[|root|] == b;
  }
}
