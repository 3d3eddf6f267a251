/** Version precedence: Semantic Versioning 2.0.0 section 11, as `SemanticVersion` implements it. */
module SemVer {
  import opened Text

  /** A prerelease identifier; an alphanumeric one is not all digits. */
  datatype Ident = Numeric(n: nat) | Alpha(text: string)

  /** Build metadata plays no part in precedence and is dropped. */
  datatype Version = Version(major: nat, minor: nat, patch: nat, pre: seq<Ident>)

  /** `_compare_prerelease_identifier` < 0. */
  predicate IdentLess(a: Ident, b: Ident) {
    match (a, b)
    case (Numeric(x), Numeric(y)) => x < y
    case (Numeric(_), Alpha(_)) => true
    case (Alpha(_), Numeric(_)) => false
    case (Alpha(x), Alpha(y)) => TextLess(x, y)
  }

  /** Identifier by identifier; when all agree the shorter list is less. */
  predicate PreLess(a: seq<Ident>, b: seq<Ident>) {
    if b == [] then false
    else if a == [] then true
    else if a[0] != b[0] then IdentLess(a[0], b[0])
    else PreLess(a[1..], b[1..])
  }

  predicate CoreLess(v: Version, w: Version) {
    if v.major != w.major then v.major < w.major
    else if v.minor != w.minor then v.minor < w.minor
    else v.patch < w.patch
  }

  predicate SameCore(v: Version, w: Version) {
    v.major == w.major && v.minor == w.minor && v.patch == w.patch
  }

  /** `__lt__`: a prerelease precedes its release. */
  predicate Less(v: Version, w: Version) {
    if !SameCore(v, w) then CoreLess(v, w)
    else if v.pre == [] then false
    else if w.pre == [] then true
    else PreLess(v.pre, w.pre)
  }

  predicate AtMost(v: Version, w: Version) {
    v == w || Less(v, w)
  }

  // ---------------------------------------------------------------- the comparison loop

  /** -1, 0 or 1, as `_compare_prerelease_identifier` answers. */
  function CompareIdent(a: Ident, b: Ident): int {
    if IdentLess(a, b) then -1 else if IdentLess(b, a) then 1 else 0
  }

  /** `_compare_prerelease`: negative exactly when the first list precedes, zero exactly when equal. */
  method ComparePrerelease(a: seq<Ident>, b: seq<Ident>) returns (r: int)
    ensures r < 0 <==> PreLess(a, b)
    ensures r == 0 <==> a == b
    ensures r > 0 <==> PreLess(b, a)
  {
    var n := if |a| <= |b| then |a| else |b|;
    for k := 0 to n
      invariant a[..k] == b[..k]
      invariant PreLess(a, b) == PreLess(a[k..], b[k..]) && PreLess(b, a) == PreLess(b[k..], a[k..])
    {
      IdentTotal(a[k], b[k]);
      assert a[k..][1..] == a[k + 1..] && b[k..][1..] == b[k + 1..];
      var result := CompareIdent(a[k], b[k]);
      if result != 0 {
        assert a[k] != b[k];
        return result;
      }
      assert a[..k + 1] == a[..k] + [a[k]] && b[..k + 1] == b[..k] + [b[k]];
    }
    if |a| < |b| {
      return -1;
    }
    if |a| > |b| {
      return 1;
    }
    assert a[..n] == a && b[..n] == b;
    return 0;
  }

  // ---------------------------------------------------------------- a strict total order

  lemma IdentTotal(a: Ident, b: Ident)
    ensures !(IdentLess(a, b) && IdentLess(b, a))
    ensures a == b || IdentLess(a, b) || IdentLess(b, a)
    ensures a == b ==> !IdentLess(a, b)
  {
    if a.Alpha? && b.Alpha? {
      TextTotal(a.text, b.text);
    }
  }

  lemma IdentTransitive(a: Ident, b: Ident, c: Ident)
    requires IdentLess(a, b) && IdentLess(b, c)
    ensures IdentLess(a, c)
  {
    if a.Alpha? && b.Alpha? && c.Alpha? {
      TextTransitive(a.text, b.text, c.text);
    }
  }

  lemma {:induction false} PreTotal(a: seq<Ident>, b: seq<Ident>)
    ensures !(PreLess(a, b) && PreLess(b, a))
    ensures a == b || PreLess(a, b) || PreLess(b, a)
    ensures a == b ==> !PreLess(a, b)
  {
    if a != [] && b != [] {
      IdentTotal(a[0], b[0]);
      PreTotal(a[1..], b[1..]);
      assert a == [a[0]] + a[1..] && b == [b[0]] + b[1..];
    }
  }

  lemma {:induction false} PreTransitive(a: seq<Ident>, b: seq<Ident>, c: seq<Ident>)
    requires PreLess(a, b) && PreLess(b, c)
    ensures PreLess(a, c)
  {
    if a != [] {
      if a[0] == b[0] == c[0] {
        PreTransitive(a[1..], b[1..], c[1..]);
      } else if a[0] != b[0] && b[0] != c[0] {
        IdentTransitive(a[0], b[0], c[0]);
        IdentTotal(a[0], b[0]);
        IdentTotal(a[0], c[0]);
      }
    }
  }

  /** Precedence is a strict total order: exactly one of less, equal and greater holds. */
  lemma LessTotal(v: Version, w: Version)
    ensures !(Less(v, w) && Less(w, v))
    ensures v == w || Less(v, w) || Less(w, v)
    ensures v == w ==> !Less(v, w)
  {
    PreTotal(v.pre, w.pre);
  }

  lemma LessTransitive(u: Version, v: Version, w: Version)
    requires Less(u, v) && Less(v, w)
    ensures Less(u, w)
  {
    if SameCore(u, v) && SameCore(v, w) && u.pre != [] && v.pre != [] && w.pre != [] {
      PreTransitive(u.pre, v.pre, w.pre);
    }
  }

  /** X.Y.Z-0 is the least version with core X.Y.Z, so what is below it has a lesser core. */
  lemma LeastOfCore(v: Version, w: Version)
    requires w.pre == [Numeric(0)]
    ensures Less(v, w) <==> CoreLess(v, w)
  {
    if SameCore(v, w) && v.pre != [] {
      assert [Numeric(0)][1..] == [];
      assert !PreLess(v.pre, w.pre);
    }
  }

  /** A release is the greatest version of its core. */
  lemma ReleaseOfCore(v: Version, w: Version)
    requires w.pre == []
    ensures AtMost(w, v) <==> CoreLess(w, v) || (SameCore(v, w) && v.pre == [])
  {
  }

  // ---------------------------------------------------------------- what the standard says of it

  /** Up to position `k` the identifiers agree. */
  predicate AgreeUpTo(a: seq<Ident>, b: seq<Ident>, k: nat) {
    k <= |a| && k <= |b| && a[..k] == b[..k]
  }

  lemma {:induction false} PreLessFrom(a: seq<Ident>, b: seq<Ident>, k: nat)
    requires AgreeUpTo(a, b, k)
    ensures PreLess(a, b) <==> PreLess(a[k..], b[k..])
  {
    if k == 0 {
      assert a[0..] == a && b[0..] == b;
    } else {
      assert a[..k][0] == b[..k][0];
      assert a[1..][..k - 1] == a[..k][1..] && b[1..][..k - 1] == b[..k][1..];
      PreLessFrom(a[1..], b[1..], k - 1);
      assert a[1..][k - 1..] == a[k..] && b[1..][k - 1..] == b[k..];
    }
  }

  /** Rules 11.2 and 11.3: major, minor and patch decide numerically, and a prerelease precedes its release. */
  lemma CorePrecedence(v: Version, w: Version)
    ensures v.major < w.major ==> Less(v, w)
    ensures v.major == w.major && v.minor < w.minor ==> Less(v, w)
    ensures v.major == w.major && v.minor == w.minor && v.patch < w.patch ==> Less(v, w)
    ensures SameCore(v, w) && v.pre != [] && w.pre == [] ==> Less(v, w) && !Less(w, v)
    ensures SameCore(v, w) && v.pre == w.pre == [] ==> !Less(v, w)
  {
  }

  /**
    Rule 11.4: two prereleases of one core are ordered by their first different identifiers, numbers
    numerically and before texts, texts by their first different character; when all agree the shorter
    list comes first.
   */
  lemma PrereleasePrecedence(v: Version, w: Version, k: nat)
    requires SameCore(v, w) && v.pre != [] && w.pre != [] && AgreeUpTo(v.pre, w.pre, k)
    ensures k == |v.pre| ==> (Less(v, w) <==> k < |w.pre|)
    ensures k == |w.pre| ==> !Less(v, w)
    ensures k < |v.pre| && k < |w.pre| && v.pre[k] != w.pre[k] ==>
              match (v.pre[k], w.pre[k])
              case (Numeric(x), Numeric(y)) => Less(v, w) <==> x < y
              case (Numeric(_), Alpha(_)) => Less(v, w)
              case (Alpha(_), Numeric(_)) => !Less(v, w)
              case (Alpha(x), Alpha(y)) => Less(v, w) <==> exists j :: BeforeAt(x, y, j)
  {
    PreLessFrom(v.pre, w.pre, k);
    if k < |v.pre| && k < |w.pre| && v.pre[k].Alpha? && w.pre[k].Alpha? {
      TextLessIs(v.pre[k].text, w.pre[k].text);
    }
  }
}
