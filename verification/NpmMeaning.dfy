/**
  What npm range syntax means, said without bounds: by the components given, by agreement of leading
  components, and by precedence. Desugaring preserves that meaning, except that a lower end at 0.0.0
  is dropped.
 */
module NpmMeaning {
  import opened Text
  import opened SemVer
  import opened NpmRange

  /** The components given before the first missing or wild one. */
  function Given(x: Parts): seq<nat> {
    match x
    case Parts(Num(a), Num(b), Num(c), _) => [a, b, c]
    case Parts(Num(a), Num(b), _, _) => [a, b]
    case Parts(Num(a), _, _, _) => [a]
    case _ => []
  }

  function Core(v: Version): seq<nat> {
    [v.major, v.minor, v.patch]
  }

  predicate Prerelease(v: Version) {
    v.pre != []
  }

  /** Lexicographic order of component lists of one length. */
  predicate Before(a: seq<nat>, b: seq<nat>)
    requires |a| == |b|
  {
    if a == [] then false else if a[0] != b[0] then a[0] < b[0] else Before(a[1..], b[1..])
  }

  /** The given components, missing ones zero. */
  function Padded(g: seq<nat>): (core: seq<nat>)
    requires |g| <= 3
    ensures |core| == 3
  {
    if |g| == 0 then [0, 0, 0] else if |g| == 1 then g + [0, 0] else if |g| == 2 then g + [0] else g
  }

  /** The full version, where all components are given. */
  function Full(x: Parts): Version
    requires |Given(x)| == 3
  {
    Version(Given(x)[0], Given(x)[1], Given(x)[2], x.pre)
  }

  predicate IsPrereleaseOf(v: Version, core: seq<nat>) {
    Prerelease(v) && Core(v) == core
  }

  /** Not below what is given: by precedence for a full version, by its components for a partial one. */
  predicate AtLeast(x: Parts, v: Version) {
    var g := Given(x);
    if |g| == 3 then AtMost(Full(x), v)
    else !Before(Core(v)[..|g|], g) && !IsPrereleaseOf(v, Padded(g))
  }

  /** The first `k` components are the given ones. */
  predicate Agrees(x: Parts, v: Version, k: nat)
    requires k <= |Given(x)|
  {
    Core(v)[..k] == Given(x)[..k]
  }

  /** Caret ranges fix everything up to the left-most non-zero component. */
  function Fixed(g: seq<nat>): (k: nat)
    ensures k <= |g|
  {
    if g == [] then 0 else if g[0] != 0 then 1 else 1 + Fixed(g[1..])
  }

  /** The least component list of the same length above `g`. */
  function Next(g: seq<nat>): (n: seq<nat>)
    requires g != []
    ensures |n| == |g|
  {
    g[..|g| - 1] + [g[|g| - 1] + 1]
  }

  /** A lower end at exactly 0.0.0, which the source drops. */
  predicate ZeroEnd(x: Parts) {
    Given(x) != [] && Padded(Given(x)) == [0, 0, 0] && (|Given(x)| == 3 ==> x.pre == [])
  }

  /** The lower end; `waive` drops it where it is at 0.0.0. */
  predicate LowerEnd(waive: bool, x: Parts, v: Version) {
    (waive && ZeroEnd(x)) || AtLeast(x, v)
  }

  predicate MeansBare(waive: bool, x: Parts, v: Version) {
    var g := Given(x);
    if |g| == 3 then v == Full(x) else |g| == 0 || (LowerEnd(waive, x, v) && Agrees(x, v, |g|))
  }

  predicate MeansCompare(waive: bool, op: Op, x: Parts, v: Version) {
    var g := Given(x);
    if |g| == 0 then !op.Gt? && !op.Lt?
    else
      match op
      case Eq => MeansBare(waive, x, v)
      case Ge => LowerEnd(waive, x, v)
      case Gt =>
        if |g| == 3 then Less(Full(x), v)
        else Before(g, Core(v)[..|g|]) && !IsPrereleaseOf(v, Padded(Next(g)))
      case Lt => if |g| == 3 then Less(v, Full(x)) else Before(Core(v)[..|g|], g)
      case Le => if |g| == 3 then AtMost(v, Full(x)) else !Before(g, Core(v)[..|g|])
  }

  predicate Means(waive: bool, t: Token, v: Version) {
    match t
    case Caret(x) => Given(x) == [] || (LowerEnd(waive, x, v) && Agrees(x, v, Fixed(Given(x))))
    case Tilde(x) =>
      Given(x) == [] || (LowerEnd(waive, x, v) && Agrees(x, v, if |Given(x)| == 1 then 1 else 2))
    case Bare(x) => MeansBare(waive, x, v)
    case Compare(op, x) => MeansCompare(waive, op, x, v)
  }

  /** From one partial version to another, both inclusive. */
  predicate MeansHyphen(waive: bool, lower: Parts, upper: Parts, v: Version) {
    && (Given(lower) == [] || LowerEnd(waive, lower, v))
    && (Given(upper) == [] || MeansCompare(waive, Le, upper, v))
  }

  // ---------------------------------------------------------------- one token

  lemma Before1(a: nat, b: nat)
    ensures Before([a], [b]) <==> a < b
  {
    assert [a][1..] == [] && [b][1..] == [];
  }

  lemma Before2(a: nat, b: nat, c: nat, d: nat)
    ensures Before([a, b], [c, d]) <==> a < c || (a == c && b < d)
  {
    assert [a, b][1..] == [b] && [c, d][1..] == [d];
    Before1(b, d);
  }

  lemma Before3(a: nat, b: nat, c: nat, d: nat, e: nat, f: nat)
    ensures Before([a, b, c], [d, e, f]) <==> a < d || (a == d && (b < e || (b == e && c < f)))
  {
    assert [a, b, c][1..] == [b, c] && [d, e, f][1..] == [e, f];
    Before2(b, c, e, f);
  }

  lemma Prefixes(v: Version)
    ensures Core(v)[..0] == [] && Core(v)[..1] == [v.major]
    ensures Core(v)[..2] == [v.major, v.minor] && Core(v)[..3] == Core(v)
  {
  }

  lemma OneMeets(a: Bound, v: Version)
    ensures MeetsAll([a], v) <==> MeetsBound(a, v)
  {
    assert [a][0] == a;
  }

  /** A lower bound at a release, by components. */
  lemma FromCore(v: Version, a: nat, b: nat, c: nat)
    ensures MeetsBound(From(Release(a, b, c)), v) <==> !Before(Core(v), [a, b, c]) && !IsPrereleaseOf(v, [a, b, c])
  {
    ReleaseOfCore(v, Release(a, b, c));
    Before3(v.major, v.minor, v.patch, a, b, c);
  }

  /** An exclusive upper bound with `-0` compares cores only. */
  lemma BelowCore(v: Version, a: nat, b: nat, c: nat)
    ensures MeetsBound(Below(a, b, c), v) <==> Before(Core(v), [a, b, c])
  {
    LeastOfCore(v, Version(a, b, c, [Numeric(0)]));
    Before3(v.major, v.minor, v.patch, a, b, c);
  }

  /** The lower bound a partial or full version is rewritten to. */
  function LowBound(x: Parts): Bound
    requires Given(x) != []
  {
    if |Given(x)| == 3 then From(Full(x))
    else From(Release(Padded(Given(x))[0], Padded(Given(x))[1], Padded(Given(x))[2]))
  }

  lemma LowBoundIs(x: Parts, v: Version)
    requires Given(x) != []
    ensures MeetsBound(LowBound(x), v) <==> AtLeast(x, v)
    ensures LowBound(x) == Bound(Ge, ZERO) <==> ZeroEnd(x)
  {
    var g := Given(x);
    Prefixes(v);
    if |g| == 1 {
      FromCore(v, g[0], 0, 0);
      Before3(v.major, v.minor, v.patch, g[0], 0, 0);
      Before1(v.major, g[0]);
    } else if |g| == 2 {
      FromCore(v, g[0], g[1], 0);
      Before3(v.major, v.minor, v.patch, g[0], g[1], 0);
      Before2(v.major, v.minor, g[0], g[1]);
    }
  }

  /** Below the next list is at or below the given one, whatever follows. */
  lemma BelowNext(x: Parts, v: Version, k: nat)
    requires 1 <= k <= |Given(x)|
    ensures var up := Padded(Next(Given(x)[..k]));
            MeetsBound(Below(up[0], up[1], up[2]), v) <==> Agrees(x, v, k) || Before(Core(v)[..k], Given(x)[..k])
  {
    var g := Given(x);
    var up := Padded(Next(g[..k]));
    Prefixes(v);
    BelowCore(v, up[0], up[1], up[2]);
    Before3(v.major, v.minor, v.patch, up[0], up[1], up[2]);
    assert g[..1] == [g[0]];
    Before1(v.major, g[0]);
    if k >= 2 {
      assert g[..2] == [g[0], g[1]];
      Before2(v.major, v.minor, g[0], g[1]);
    }
    if k == 3 {
      assert g[..3] == [g[0], g[1], g[2]];
      Before3(v.major, v.minor, v.patch, g[0], g[1], g[2]);
    }
  }

  /** What is not below the given components is not below any shorter prefix of them. */
  lemma AtLeastPrefix(x: Parts, v: Version, k: nat)
    requires 1 <= k <= |Given(x)| && (AtLeast(x, v) || ZeroEnd(x))
    ensures !Before(Core(v)[..k], Given(x)[..k])
  {
    var g := Given(x);
    Prefixes(v);
    assert Padded(g)[0] == g[0] && (|g| >= 2 ==> Padded(g)[1] == g[1]);
    assert g[..1] == [g[0]];
    Before1(v.major, g[0]);
    if |g| >= 2 {
      assert g[..2] == [g[0], g[1]];
      Before2(v.major, v.minor, g[0], g[1]);
    }
    if |g| == 3 {
      assert g[..3] == [g[0], g[1], g[2]] == g;
      Before3(v.major, v.minor, v.patch, g[0], g[1], g[2]);
    } else {
      assert g[..|g|] == g;
    }
  }

  // ---------------------------------------------------------------- tokens

  /** The upper bound that fixes the first `k` given components. */
  function UpBound(x: Parts, k: nat): Bound
    requires 1 <= k <= |Given(x)|
  {
    var up := Padded(Next(Given(x)[..k]));
    Below(up[0], up[1], up[2])
  }

  /** A bound with the collapse of `>=0.0.0` taken into account. */
  predicate Meets(waive: bool, b: Bound, v: Version) {
    (waive && b == Bound(Ge, ZERO)) || MeetsBound(b, v)
  }

  lemma WithinMeans(waive: bool, x: Parts, v: Version, k: nat)
    requires 1 <= k <= |Given(x)|
    ensures Meets(waive, LowBound(x), v) && Meets(waive, UpBound(x, k), v) <==> LowerEnd(waive, x, v) && Agrees(x, v, k)
  {
    LowBoundIs(x, v);
    BelowNext(x, v, k);
    if LowerEnd(waive, x, v) {
      AtLeastPrefix(x, v, k);
    }
  }

  predicate AllMeet(waive: bool, bounds: seq<Bound>, v: Version) {
    forall k :: 0 <= k < |bounds| ==> Meets(waive, bounds[k], v)
  }

  lemma TwoMeet(waive: bool, a: Bound, b: Bound, v: Version)
    ensures AllMeet(waive, [a, b], v) <==> Meets(waive, a, v) && Meets(waive, b, v)
    ensures AllMeet(waive, [a], v) <==> Meets(waive, a, v)
  {
    assert [a, b][0] == a && [a, b][1] == b && [a][0] == a;
  }

  lemma CaretBounds(x: Parts)
    ensures ReplaceCaret(x) == if Given(x) == [] then [] else [LowBound(x), UpBound(x, Fixed(Given(x)))]
    ensures Given(x) != [] ==> Fixed(Given(x)) >= 1
  {
    var g := Given(x);
    if |g| == 1 {
      assert Fixed(g) == 1 && g[..1] == g;
    } else if |g| == 2 {
      assert g[1..] == [g[1]];
      assert Fixed([g[1]]) == 1;
      assert g[..1] == [g[0]] && g[..2] == g;
    } else if |g| == 3 {
      assert g[1..] == [g[1], g[2]] && g[1..][1..] == [g[2]];
      assert Fixed([g[2]]) == 1;
      assert g[..1] == [g[0]] && g[..2] == [g[0], g[1]] && g[..3] == g;
    }
  }

  lemma TildeBounds(x: Parts)
    ensures ReplaceTilde(x) == if Given(x) == [] then []
                               else [LowBound(x), UpBound(x, if |Given(x)| == 1 then 1 else 2)]
  {
    var g := Given(x);
    if |g| >= 1 {
      assert g[..1] == [g[0]];
    }
    if |g| >= 2 {
      assert g[..2] == [g[0], g[1]];
    }
  }

  lemma BareBounds(x: Parts)
    ensures |Given(x)| == 3 ==> ReplaceBare(x) == [Bound(Eq, Full(x))]
    ensures 1 <= |Given(x)| <= 2 ==> ReplaceBare(x) == [LowBound(x), UpBound(x, |Given(x)|)]
    ensures Given(x) == [] ==> ReplaceBare(x) == [AnyVersion]
  {
    assert Given(x)[..|Given(x)|] == Given(x);
  }

  lemma BareMeans(waive: bool, x: Parts, v: Version)
    ensures AllMeet(waive, ReplaceBare(x), v) <==> MeansBare(waive, x, v)
  {
    BareBounds(x);
    if |Given(x)| == 3 {
      TwoMeet(waive, Bound(Eq, Full(x)), AnyVersion, v);
    } else if Given(x) == [] {
      TwoMeet(waive, AnyVersion, AnyVersion, v);
    } else {
      TwoMeet(waive, LowBound(x), UpBound(x, |Given(x)|), v);
      WithinMeans(waive, x, v, |Given(x)|);
    }
  }

  /** Strict lower and inclusive upper ends of a partial version move to the next components. */
  lemma PartialEnds(x: Parts, v: Version)
    requires 1 <= |Given(x)| <= 2
    ensures var g := Given(x); var up := Padded(Next(g)); var low := Padded(g);
            && (MeetsBound(From(Release(up[0], up[1], up[2])), v) <==>
                  Before(g, Core(v)[..|g|]) && !IsPrereleaseOf(v, up))
            && (MeetsBound(Below(up[0], up[1], up[2]), v) <==> !Before(g, Core(v)[..|g|]))
            && (MeetsBound(Below(low[0], low[1], low[2]), v) <==> Before(Core(v)[..|g|], g))
  {
    var g := Given(x);
    var up, low := Padded(Next(g)), Padded(g);
    Prefixes(v);
    FromCore(v, up[0], up[1], up[2]);
    BelowCore(v, up[0], up[1], up[2]);
    BelowCore(v, low[0], low[1], low[2]);
    Before3(v.major, v.minor, v.patch, up[0], up[1], up[2]);
    Before3(v.major, v.minor, v.patch, low[0], low[1], low[2]);
    if |g| == 1 {
      Before1(v.major, g[0]);
      Before1(g[0], v.major);
    } else {
      Before2(v.major, v.minor, g[0], g[1]);
      Before2(g[0], g[1], v.major, v.minor);
    }
  }

  /** With an operator, by the number of components given. */
  lemma CompareBounds(op: Op, x: Parts)
    ensures |Given(x)| == 3 ==> ReplaceCompare(op, x) == [Bound(op, Full(x))]
    ensures Given(x) == [] ==> ReplaceCompare(op, x) == [if op.Gt? || op.Lt? then Below(0, 0, 0) else AnyVersion]
    ensures 1 <= |Given(x)| <= 2 ==>
              var up, low := Padded(Next(Given(x))), Padded(Given(x));
              ReplaceCompare(op, x) ==
                match op
                case Eq => ReplaceBare(x)
                case Gt => [From(Release(up[0], up[1], up[2]))]
                case Le => [Below(up[0], up[1], up[2])]
                case Ge => [LowBound(x)]
                case Lt => [Below(low[0], low[1], low[2])]
  {
  }

  lemma CompareMeans(waive: bool, op: Op, x: Parts, v: Version)
    ensures AllMeet(waive, ReplaceCompare(op, x), v) <==> MeansCompare(waive, op, x, v)
  {
    CompareBounds(op, x);
    var bounds := ReplaceCompare(op, x);
    if |Given(x)| == 3 {
      LowBoundIs(x, v);
      TwoMeet(waive, bounds[0], AnyVersion, v);
      BareMeans(waive, x, v);
    } else if Given(x) == [] {
      BelowCore(v, 0, 0, 0);
      Before3(v.major, v.minor, v.patch, 0, 0, 0);
      TwoMeet(waive, bounds[0], AnyVersion, v);
    } else if op.Eq? {
      BareMeans(waive, x, v);
    } else {
      PartialEnds(x, v);
      LowBoundIs(x, v);
      TwoMeet(waive, bounds[0], AnyVersion, v);
    }
  }

  /** Desugaring one token preserves its meaning, with and without the collapse of `>=0.0.0`. */
  lemma TokenMeaning(waive: bool, t: Token, v: Version)
    ensures AllMeet(waive, Desugared(t), v) <==> Means(waive, t, v)
  {
    match t {
      case Caret(x) =>
        CaretBounds(x);
        if Given(x) != [] {
          TwoMeet(waive, LowBound(x), UpBound(x, Fixed(Given(x))), v);
          WithinMeans(waive, x, v, Fixed(Given(x)));
        }
      case Tilde(x) =>
        TildeBounds(x);
        if Given(x) != [] {
          var k := if |Given(x)| == 1 then 1 else 2;
          TwoMeet(waive, LowBound(x), UpBound(x, k), v);
          WithinMeans(waive, x, v, k);
        }
      case Bare(x) => BareMeans(waive, x, v);
      case Compare(op, x) => CompareMeans(waive, op, x, v);
    }
  }

  // ---------------------------------------------------------------- branches

  /** A full operand with a prerelease invites the prereleases of its own core. */
  predicate Invites(x: Parts, v: Version) {
    |Given(x)| == 3 && x.pre != [] && SameCore(Full(x), v)
  }

  predicate Invited(b: Branch, v: Version) {
    match b
    case Tokens(tokens) => exists k :: 0 <= k < |tokens| && Invites(tokens[k].parts, v)
    case Hyphen(lower, upper) => Invites(lower, v) || Invites(upper, v)
  }

  predicate EveryTokenMeans(waive: bool, tokens: seq<Token>, v: Version) {
    forall k :: 0 <= k < |tokens| ==> Means(waive, tokens[k], v)
  }

  /** The declared meaning of one alternative; `waive` reads it without a lower end at 0.0.0. */
  predicate BranchMeans(waive: bool, b: Branch, v: Version) {
    && (match b
        case Tokens(tokens) => EveryTokenMeans(waive, tokens, v)
        case Hyphen(lower, upper) => MeansHyphen(waive, lower, upper, v))
    && (Prerelease(v) ==> Invited(b, v))
  }

  // ---------------------------------------------------------------- collapse and opt-in

  lemma {:induction false} CollapseIs(bounds: seq<Bound>, b: Bound)
    ensures b in Collapse(bounds) <==> b in bounds && b != AnyVersion && b != Bound(Ge, ZERO)
  {
    if bounds != [] {
      CollapseIs(bounds[1..], b);
    }
  }

  predicate Opted(bounds: seq<Bound>, v: Version) {
    exists k :: 0 <= k < |bounds| && OptsIn(bounds[k], v)
  }

  /** Collapsing waives the lower ends at 0.0.0 and changes no opt-in. */
  lemma CollapseMeets(bounds: seq<Bound>, v: Version)
    ensures MeetsAll(OrAny(Collapse(bounds)), v) <==> AllMeet(true, bounds, v)
    ensures Opted(OrAny(Collapse(bounds)), v) <==> Opted(bounds, v)
  {
    var after := OrAny(Collapse(bounds));
    forall b
      ensures b in Collapse(bounds) <==> b in bounds && b != AnyVersion && b != Bound(Ge, ZERO)
    {
      CollapseIs(bounds, b);
    }
    if MeetsAll(after, v) {
      forall k | 0 <= k < |bounds|
        ensures Meets(true, bounds[k], v)
      {
        if bounds[k] in Collapse(bounds) {
          var j :| 0 <= j < |after| && after[j] == bounds[k];
        }
      }
    }
    if AllMeet(true, bounds, v) {
      forall j | 0 <= j < |after|
        ensures MeetsBound(after[j], v)
      {
        if Collapse(bounds) != [] {
          assert after[j] in Collapse(bounds);
          var k :| 0 <= k < |bounds| && bounds[k] == after[j];
        }
      }
    }
    OptedIs(bounds, v);
    OptedIs(after, v);
  }

  lemma OptedIs(bounds: seq<Bound>, v: Version)
    ensures Opted(bounds, v) <==> exists b :: b in bounds && OptsIn(b, v)
  {
    if b :| b in bounds && OptsIn(b, v) {
      var k :| 0 <= k < |bounds| && bounds[k] == b;
    }
  }

  /** A rewritten upper bound invites only prereleases it excludes itself. */
  lemma BelowOptsNothing(a: nat, b: nat, c: nat, v: Version)
    ensures MeetsBound(Below(a, b, c), v) ==> !OptsIn(Below(a, b, c), v)
  {
    LeastOfCore(v, Version(a, b, c, [Numeric(0)]));
  }

  lemma TwoOpt(a: Bound, b: Bound, v: Version)
    ensures Opted([a, b], v) <==> OptsIn(a, v) || OptsIn(b, v)
    ensures Opted([a], v) <==> OptsIn(a, v)
  {
    assert [a, b][0] == a && [a, b][1] == b && [a][0] == a;
  }

  /** Of a token's bounds exactly the full operand's own opts in, where they are all met. */
  lemma TokenOpts(t: Token, v: Version)
    requires AllMeet(true, Desugared(t), v)
    ensures Opted(Desugared(t), v) <==> Invites(t.parts, v)
  {
    var x := t.parts;
    match t {
      case Caret(_) =>
        CaretBounds(x);
        if Given(x) != [] {
          RangeOpts(x, Fixed(Given(x)), v);
        }
      case Tilde(_) =>
        TildeBounds(x);
        if Given(x) != [] {
          RangeOpts(x, if |Given(x)| == 1 then 1 else 2, v);
        }
      case Bare(_) => BareOpts(x, v);
      case Compare(op, _) => CompareOpts(op, x, v);
    }
  }

  lemma RangeOpts(x: Parts, k: nat, v: Version)
    requires 1 <= k <= |Given(x)| && AllMeet(true, [LowBound(x), UpBound(x, k)], v)
    ensures Opted([LowBound(x), UpBound(x, k)], v) <==> Invites(x, v)
  {
    var up := Padded(Next(Given(x)[..k]));
    TwoOpt(LowBound(x), UpBound(x, k), v);
    TwoMeet(true, LowBound(x), UpBound(x, k), v);
    BelowOptsNothing(up[0], up[1], up[2], v);
  }

  lemma BareOpts(x: Parts, v: Version)
    requires AllMeet(true, ReplaceBare(x), v)
    ensures Opted(ReplaceBare(x), v) <==> Invites(x, v)
  {
    BareBounds(x);
    if |Given(x)| == 3 {
      TwoOpt(Bound(Eq, Full(x)), AnyVersion, v);
    } else if Given(x) == [] {
      TwoOpt(AnyVersion, AnyVersion, v);
    } else {
      RangeOpts(x, |Given(x)|, v);
    }
  }

  lemma CompareOpts(op: Op, x: Parts, v: Version)
    requires AllMeet(true, ReplaceCompare(op, x), v)
    ensures Opted(ReplaceCompare(op, x), v) <==> Invites(x, v)
  {
    CompareBounds(op, x);
    if 1 <= |Given(x)| <= 2 && op.Eq? {
      BareOpts(x, v);
    } else {
      var bound := ReplaceCompare(op, x)[0];
      assert ReplaceCompare(op, x) == [bound];
      TwoOpt(bound, AnyVersion, v);
      TwoMeet(true, bound, AnyVersion, v);
      if bound.Bound? && bound.op.Lt? && |Given(x)| < 3 {
        BelowOptsNothing(bound.version.major, bound.version.minor, bound.version.patch, v);
      }
    }
  }

  lemma Appended(a: seq<Bound>, b: seq<Bound>, v: Version)
    ensures MeetsAll(a + b, v) <==> MeetsAll(a, v) && MeetsAll(b, v)
    ensures Opted(a + b, v) <==> Opted(a, v) || Opted(b, v)
  {
    if MeetsAll(a + b, v) {
      assert forall k :: 0 <= k < |a| ==> (a + b)[k] == a[k];
      assert forall k :: 0 <= k < |b| ==> (a + b)[|a| + k] == b[k];
    }
    OptedIs(a, v);
    OptedIs(b, v);
    OptedIs(a + b, v);
  }

  predicate AnyInvites(tokens: seq<Token>, v: Version) {
    exists k :: 0 <= k < |tokens| && Invites(tokens[k].parts, v)
  }

  lemma TokensSnoc(waive: bool, tokens: seq<Token>, v: Version)
    requires tokens != []
    ensures var init, last := tokens[..|tokens| - 1], tokens[|tokens| - 1];
            && (EveryTokenMeans(waive, tokens, v) <==> EveryTokenMeans(waive, init, v) && Means(waive, last, v))
            && (AnyInvites(tokens, v) <==> AnyInvites(init, v) || Invites(last.parts, v))
  {
    var n := |tokens| - 1;
    var init := tokens[..n];
    assert forall k :: 0 <= k < n ==> init[k] == tokens[k];
    InvitesSnoc(tokens, init, v);
  }

  lemma InvitesSnoc(tokens: seq<Token>, init: seq<Token>, v: Version)
    requires tokens != [] && init == tokens[..|tokens| - 1]
    ensures AnyInvites(tokens, v) <==> AnyInvites(init, v) || Invites(tokens[|tokens| - 1].parts, v)
  {
    if k :| 0 <= k < |init| && Invites(init[k].parts, v) {
      assert Invites(tokens[k].parts, v);
    }
    if k :| 0 <= k < |tokens| && Invites(tokens[k].parts, v) {
      assert k < |init| ==> init[k] == tokens[k];
    }
  }

  lemma OneToken(t: Token, v: Version)
    ensures var bounds := OrAny(Collapse(Desugared(t)));
            && (MeetsAll(bounds, v) <==> Means(true, t, v))
            && (MeetsAll(bounds, v) ==> (Opted(bounds, v) <==> Invites(t.parts, v)))
  {
    CollapseMeets(Desugared(t), v);
    TokenMeaning(true, t, v);
    if AllMeet(true, Desugared(t), v) {
      TokenOpts(t, v);
    }
  }

  lemma {:induction false} TokensMeaning(tokens: seq<Token>, v: Version)
    requires DesugarTokens(tokens).Ok?
    ensures MeetsAll(DesugarTokens(tokens).value, v) <==> EveryTokenMeans(true, tokens, v)
    ensures EveryTokenMeans(true, tokens, v) ==> (Opted(DesugarTokens(tokens).value, v) <==> AnyInvites(tokens, v))
  {
    if tokens != [] {
      var n := |tokens| - 1;
      TokensMeaning(tokens[..n], v);
      TokensSnoc(true, tokens, v);
      OneToken(tokens[n], v);
      Appended(DesugarTokens(tokens[..n]).value, DesugarToken(tokens[n]).value, v);
    }
  }

  /** A hyphen range is a lower and an upper comparison. */
  function HyphenTokens(lower: Parts, upper: Parts): seq<Token> {
    (if Given(lower) == [] then [] else [Compare(Ge, lower)])
    + (if Given(upper) == [] then [] else [Compare(Le, upper)])
  }

  function Bounds(t: Token): seq<Bound> {
    OrAny(Collapse(Desugared(t)))
  }

  lemma DesugarShort(t: Token, u: Token)
    requires !Malformed(t) && !Malformed(u)
    ensures DesugarTokens([]) == Ok([])
    ensures DesugarTokens([t]) == Ok(Bounds(t))
    ensures DesugarTokens([t, u]) == Ok(Bounds(t) + Bounds(u))
  {
    assert [t][..0] == [] && [t, u][..1] == [t];
    assert [] + Bounds(t) == Bounds(t);
  }

  lemma EndsShort(a: Bound, b: Bound)
    ensures HyphenEnds([a]) == OrAny(Collapse([a]))
    ensures HyphenEnds([a, b]) == OrAny(Collapse([a])) + OrAny(Collapse([b]))
  {
    assert [a][1..] == [] && [b][1..] == [] && [a, b][1..] == [b];
    assert OrAny(Collapse([a])) + [] == OrAny(Collapse([a])) && OrAny(Collapse([b])) + [] == OrAny(Collapse([b]));
  }

  lemma HyphenShape(lower: Parts, upper: Parts)
    ensures ReplaceHyphen(lower, upper) ==
            (if Given(lower) == [] then [] else ReplaceCompare(Ge, lower))
            + (if Given(upper) == [] then [] else ReplaceCompare(Le, upper))
    ensures Given(lower) != [] ==> |ReplaceCompare(Ge, lower)| == 1
    ensures Given(upper) != [] ==> |ReplaceCompare(Le, upper)| == 1
  {
  }

  lemma HyphenEndsIs(lower: Parts, upper: Parts)
    ensures DesugarTokens(HyphenTokens(lower, upper)) == Ok(HyphenEnds(ReplaceHyphen(lower, upper)))
  {
    var low, up := Compare(Ge, lower), Compare(Le, upper);
    HyphenShape(lower, upper);
    var ends := ReplaceHyphen(lower, upper);
    if Given(lower) != [] && Given(upper) != [] {
      DesugarShort(low, up);
      EndsShort(Desugared(low)[0], Desugared(up)[0]);
      assert HyphenTokens(lower, upper) == [low, up];
      assert ends == [Desugared(low)[0], Desugared(up)[0]];
    } else if Given(lower) != [] {
      DesugarShort(low, low);
      EndsShort(Desugared(low)[0], Desugared(low)[0]);
      assert HyphenTokens(lower, upper) == [low];
      assert ends == [Desugared(low)[0]];
    } else if Given(upper) != [] {
      DesugarShort(up, up);
      EndsShort(Desugared(up)[0], Desugared(up)[0]);
      assert HyphenTokens(lower, upper) == [up];
      assert ends == [Desugared(up)[0]];
    }
  }

  lemma HyphenMeaning(waive: bool, lower: Parts, upper: Parts, v: Version)
    ensures EveryTokenMeans(waive, HyphenTokens(lower, upper), v) <==> MeansHyphen(waive, lower, upper, v)
    ensures AnyInvites(HyphenTokens(lower, upper), v) <==> Invites(lower, v) || Invites(upper, v)
  {
    var low, up := Compare(Ge, lower), Compare(Le, upper);
    assert [low][0] == low && [up][0] == up && [low, up][0] == low && [low, up][1] == up;
    if Given(lower) != [] && Given(upper) != [] {
      assert HyphenTokens(lower, upper) == [low, up];
    } else if Given(lower) != [] {
      assert HyphenTokens(lower, upper) == [low];
    } else if Given(upper) != [] {
      assert HyphenTokens(lower, upper) == [up];
    }
  }

  /**
    One alternative of a range accepts a version exactly when the version meets its declared meaning,
    read without lower ends at 0.0.0, and for a prerelease some full operand with a prerelease has the
    same major, minor and patch.
   */
  lemma BranchMeaning(b: Branch, v: Version)
    requires DesugarBranch(b).Ok?
    ensures BranchAccepts(DesugarBranch(b).value, v) <==> BranchMeans(true, b, v)
  {
    var tokens := match b
      case Tokens(ts) => ts
      case Hyphen(lower, upper) => HyphenTokens(lower, upper);
    if b.Hyphen? {
      HyphenEndsIs(b.lower, b.upper);
      HyphenMeaning(true, b.lower, b.upper, v);
    }
    TokensMeaning(tokens, v);
    var bounds := DesugarTokens(tokens).value;
    OneMeets(AnyVersion, v);
    TwoOpt(AnyVersion, AnyVersion, v);
    assert bounds == [] ==> MeetsAll(bounds, v) && !Opted(bounds, v);
    assert Opted(OrAny(bounds), v) <==> Opted(bounds, v);
    assert MeetsAll(OrAny(bounds), v) <==> MeetsAll(bounds, v);
    assert Invited(b, v) <==> AnyInvites(tokens, v);
  }

  /** A whole range: some alternative means the version. */
  lemma RangeMeaning(range: seq<Branch>, branches: seq<seq<Bound>>, v: Version)
    requires |branches| == |range| && forall k :: 0 <= k < |range| ==> DesugarBranch(range[k]) == Ok(branches[k])
    ensures (exists k :: 0 <= k < |branches| && BranchAccepts(branches[k], v)) <==>
            exists k :: 0 <= k < |range| && BranchMeans(true, range[k], v)
  {
    forall k | 0 <= k < |range|
      ensures BranchAccepts(branches[k], v) <==> BranchMeans(true, range[k], v)
    {
      BranchMeaning(range[k], v);
    }
    if k :| 0 <= k < |branches| && BranchAccepts(branches[k], v) {
      assert BranchMeans(true, range[k], v);
    }
    if k :| 0 <= k < |range| && BranchMeans(true, range[k], v) {
      assert BranchAccepts(branches[k], v);
    }
  }

  // ---------------------------------------------------------------- the dropped lower end

  /** The token sets a lower end at exactly 0.0.0. */
  predicate ZeroEnded(t: Token) {
    match t
    case Caret(x) => ZeroEnd(x)
    case Tilde(x) => ZeroEnd(x)
    case Bare(x) => ZeroEnd(x) && |Given(x)| < 3
    case Compare(op, x) => ZeroEnd(x) && (op.Ge? || (op.Eq? && |Given(x)| < 3))
  }

  predicate ZeroEndedBranch(b: Branch) {
    match b
    case Tokens(tokens) => exists k :: 0 <= k < |tokens| && ZeroEnded(tokens[k])
    case Hyphen(lower, _) => ZeroEnd(lower)
  }

  predicate PrereleaseOfZero(v: Version) {
    IsPrereleaseOf(v, [0, 0, 0])
  }

  lemma ZeroEndIs(x: Parts, v: Version)
    requires ZeroEnd(x)
    ensures AtLeast(x, v) <==> !PrereleaseOfZero(v)
  {
    LowBoundIs(x, v);
    assert LowBound(x) == From(Release(0, 0, 0));
    FromCore(v, 0, 0, 0);
    Before3(v.major, v.minor, v.patch, 0, 0, 0);
  }

  /** Without the waiver a token with a zero end excludes just the prereleases of 0.0.0 more. */
  lemma TokenWaiver(t: Token, v: Version)
    ensures Means(false, t, v) <==> Means(true, t, v) && !(ZeroEnded(t) && PrereleaseOfZero(v))
  {
    if ZeroEnd(t.parts) {
      ZeroEndIs(t.parts, v);
    }
  }

  lemma BranchWaiver(b: Branch, v: Version)
    ensures BranchMeans(false, b, v) <==> BranchMeans(true, b, v) && !(ZeroEndedBranch(b) && PrereleaseOfZero(v))
  {
    match b {
      case Tokens(tokens) =>
        forall k | 0 <= k < |tokens|
          ensures Means(false, tokens[k], v) <==>
                    Means(true, tokens[k], v) && !(ZeroEnded(tokens[k]) && PrereleaseOfZero(v))
        {
          TokenWaiver(tokens[k], v);
        }
      case Hyphen(lower, upper) =>
        TokenWaiver(Compare(Ge, lower), v);
        if ZeroEnd(lower) {
          ZeroEndIs(lower, v);
        }
    }
  }

  /** An operand invites prereleases of 0.0.0. */
  predicate InvitesZero(b: Branch) {
    match b
    case Tokens(tokens) => exists k :: 0 <= k < |tokens| && ZeroOperand(tokens[k].parts)
    case Hyphen(lower, upper) => ZeroOperand(lower) || ZeroOperand(upper)
  }

  predicate ZeroOperand(x: Parts) {
    Given(x) == [0, 0, 0] && x.pre != []
  }

  lemma InvitedZero(b: Branch, v: Version)
    requires PrereleaseOfZero(v)
    ensures Invited(b, v) <==> InvitesZero(b)
  {
    assert Core(v)[0] == v.major && Core(v)[1] == v.minor && Core(v)[2] == v.patch;
    match b {
      case Tokens(tokens) =>
        if k :| 0 <= k < |tokens| && ZeroOperand(tokens[k].parts) {
          assert Invites(tokens[k].parts, v);
        }
        if k :| 0 <= k < |tokens| && Invites(tokens[k].parts, v) {
          assert ZeroOperand(tokens[k].parts);
        }
      case Hyphen(lower, upper) =>
    }
  }

  /**
    Where the source departs from the declared meaning: exactly on the prereleases of 0.0.0 that meet
    everything else, and only in an alternative that has both a lower end at 0.0.0 and an operand that
    is itself a prerelease of 0.0.0.
   */
  lemma DepartsExactly(b: Branch, v: Version)
    requires DesugarBranch(b).Ok?
    ensures (BranchAccepts(DesugarBranch(b).value, v) <==> BranchMeans(false, b, v)) <==>
            !(ZeroEndedBranch(b) && InvitesZero(b) && PrereleaseOfZero(v) && BranchMeans(true, b, v))
  {
    BranchMeaning(b, v);
    BranchWaiver(b, v);
    if PrereleaseOfZero(v) {
      InvitedZero(b, v);
    }
  }

  /** Every other alternative keeps its meaning on every version. */
  lemma MeaningPreserved(b: Branch, v: Version)
    requires DesugarBranch(b).Ok? && !(ZeroEndedBranch(b) && InvitesZero(b))
    ensures BranchAccepts(DesugarBranch(b).value, v) <==> BranchMeans(false, b, v)
  {
    DepartsExactly(b, v);
  }

  /** `0.0.0 - 0.0.0-beta` accepts 0.0.0-alpha, which precedes 0.0.0. */
  lemma ZeroEndIsDropped()
    ensures var b := Hyphen(Parts(Num(0), Num(0), Num(0), []), Parts(Num(0), Num(0), Num(0), [Alpha("beta")]));
            var v := Version(0, 0, 0, [Alpha("alpha")]);
            && DesugarBranch(b).Ok? && BranchAccepts(DesugarBranch(b).value, v)
            && !BranchMeans(false, b, v) && Less(v, ZERO)
  {
    var lower, upper := Parts(Num(0), Num(0), Num(0), []), Parts(Num(0), Num(0), Num(0), [Alpha("beta")]);
    var v := Version(0, 0, 0, [Alpha("alpha")]);
    assert "alpha"[0] == 'a' && "beta"[0] == 'b';
    assert TextLess("alpha", "beta");
    assert Less(v, Full(upper));
    BranchMeaning(Hyphen(lower, upper), v);
    BranchWaiver(Hyphen(lower, upper), v);
  }

  // ---------------------------------------------------------------- what parses

  /** A branch is refused exactly for an operator that no operand follows. */
  lemma ParsesExactly(b: Branch)
    ensures DesugarBranch(b).Ok? <==>
              b.Hyphen? || forall t :: t in b.tokens ==> !(t.Compare? && t.parts.major.Absent?)
  {
    if b.Tokens? {
      TokensParse(b.tokens);
    }
  }

  lemma {:induction false} TokensParse(tokens: seq<Token>)
    ensures DesugarTokens(tokens).Ok? <==> forall t :: t in tokens ==> !(t.Compare? && t.parts.major.Absent?)
  {
    if tokens != [] {
      var init, last := tokens[..|tokens| - 1], tokens[|tokens| - 1];
      TokensParse(init);
      assert tokens == init + [last];
    }
  }
}
