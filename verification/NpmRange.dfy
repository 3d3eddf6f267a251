/**
  npm ranges: the desugaring of caret, tilde, X-range, partial and hyphen syntax into primitive bounds,
  from parsed parts, and the matching of a version against them.
 */
module NpmRange {
  import opened SemVer

  /** One component of a partial version. */
  datatype Comp = Absent | Wild | Num(n: nat)

  datatype Parts = Parts(major: Comp, minor: Comp, patch: Comp, pre: seq<Ident>)

  datatype Op = Lt | Le | Gt | Ge | Eq

  datatype Token =
    | Caret(parts: Parts)
    | Tilde(parts: Parts)
    | Bare(parts: Parts)
    | Compare(op: Op, parts: Parts)

  /** One alternative of `||`. */
  datatype Branch = Tokens(tokens: seq<Token>) | Hyphen(lower: Parts, upper: Parts)

  datatype Bound = AnyVersion | Bound(op: Op, version: Version)

  datatype Result<T> = Ok(value: T) | RangeError

  // ---------------------------------------------------------------- the source's rewriting

  function Release(major: nat, minor: nat, patch: nat): Version {
    Version(major, minor, patch, [])
  }

  /** The exclusive upper bounds end in `-0`. */
  function Below(major: nat, minor: nat, patch: nat): Bound {
    Bound(Lt, Version(major, minor, patch, [Numeric(0)]))
  }

  function From(version: Version): Bound {
    Bound(Ge, version)
  }

  /** `_replace_caret`. */
  function ReplaceCaret(x: Parts): seq<Bound> {
    match x
    case Parts(Num(a), Num(b), Num(c), pre) =>
      [From(Version(a, b, c, pre)),
       if a == 0 then (if b == 0 then Below(a, b, c + 1) else Below(a, b + 1, 0)) else Below(a + 1, 0, 0)]
    case Parts(Num(a), Num(b), _, _) =>
      [From(Release(a, b, 0)), if a == 0 then Below(a, b + 1, 0) else Below(a + 1, 0, 0)]
    case Parts(Num(a), _, _, _) => [From(Release(a, 0, 0)), Below(a + 1, 0, 0)]
    case _ => []
  }

  /** `_replace_tilde`. */
  function ReplaceTilde(x: Parts): seq<Bound> {
    match x
    case Parts(Num(a), Num(b), Num(c), pre) => [From(Version(a, b, c, pre)), Below(a, b + 1, 0)]
    case Parts(Num(a), Num(b), _, _) => [From(Release(a, b, 0)), Below(a, b + 1, 0)]
    case Parts(Num(a), _, _, _) => [From(Release(a, 0, 0)), Below(a + 1, 0, 0)]
    case _ => []
  }

  /** `_replace_xrange` without an operator, which an `=` before a partial version is dropped to. */
  function ReplaceBare(x: Parts): seq<Bound> {
    match x
    case Parts(Num(a), Num(b), Num(c), pre) => [Bound(Eq, Version(a, b, c, pre))]
    case Parts(Num(a), Num(b), _, _) => [From(Release(a, b, 0)), Below(a, b + 1, 0)]
    case Parts(Num(a), _, _, _) => [From(Release(a, 0, 0)), Below(a + 1, 0, 0)]
    case _ => [AnyVersion]
  }

  /** `_replace_xrange` with an operator. */
  function ReplaceCompare(op: Op, x: Parts): seq<Bound> {
    match x
    case Parts(Num(a), Num(b), Num(c), pre) => [Bound(op, Version(a, b, c, pre))]
    case Parts(Num(a), Num(b), _, _) =>
      (match op
       case Eq => ReplaceBare(x)
       case Gt => [From(Release(a, b + 1, 0))]
       case Le => [Below(a, b + 1, 0)]
       case Ge => [From(Release(a, b, 0))]
       case Lt => [Below(a, b, 0)])
    case Parts(Num(a), _, _, _) =>
      (match op
       case Eq => ReplaceBare(x)
       case Gt => [From(Release(a + 1, 0, 0))]
       case Le => [Below(a + 1, 0, 0)]
       case Ge => [From(Release(a, 0, 0))]
       case Lt => [Below(a, 0, 0)])
    case _ => if op.Gt? || op.Lt? then [Below(0, 0, 0)] else [AnyVersion]
  }

  /** `_replace_hyphen`, the two ends. */
  function ReplaceHyphen(lower: Parts, upper: Parts): seq<Bound> {
    (match lower
     case Parts(Num(a), Num(b), Num(c), pre) => [From(Version(a, b, c, pre))]
     case Parts(Num(a), Num(b), _, _) => [From(Release(a, b, 0))]
     case Parts(Num(a), _, _, _) => [From(Release(a, 0, 0))]
     case _ => [])
    + (match upper
       case Parts(Num(a), Num(b), Num(c), pre) => [Bound(Le, Version(a, b, c, pre))]
       case Parts(Num(a), Num(b), _, _) => [Below(a, b + 1, 0)]
       case Parts(Num(a), _, _, _) => [Below(a + 1, 0, 0)]
       case _ => [])
  }

  const ZERO := Version(0, 0, 0, [])

  /** Stars and `>=0.0.0` collapse to ANY, and ANYs are dropped. */
  function Collapse(bounds: seq<Bound>): seq<Bound> {
    if bounds == [] then []
    else (if bounds[0].AnyVersion? || bounds[0] == Bound(Ge, ZERO) then [] else [bounds[0]]) + Collapse(bounds[1..])
  }

  /** A token that lost every bound is the ANY comparator. */
  function OrAny(bounds: seq<Bound>): seq<Bound> {
    if bounds == [] then [AnyVersion] else bounds
  }

  function Desugared(t: Token): seq<Bound> {
    match t
    case Caret(x) => ReplaceCaret(x)
    case Tilde(x) => ReplaceTilde(x)
    case Bare(x) => ReplaceBare(x)
    case Compare(op, x) => ReplaceCompare(op, x)
  }

  /** An operator without any operand. */
  predicate Malformed(t: Token) {
    t.Compare? && t.parts.major.Absent?
  }

  /** `_desugar_token`. */
  function DesugarToken(t: Token): Result<seq<Bound>> {
    if Malformed(t) then RangeError else Ok(OrAny(Collapse(Desugared(t))))
  }

  function DesugarTokens(tokens: seq<Token>): Result<seq<Bound>> {
    if tokens == [] then Ok([])
    else
      match (DesugarTokens(tokens[..|tokens| - 1]), DesugarToken(tokens[|tokens| - 1]))
      case (Ok(a), Ok(b)) => Ok(a + b)
      case _ => RangeError
  }

  function DesugarBranch(b: Branch): Result<seq<Bound>> {
    match b
    case Tokens(tokens) =>
      (match DesugarTokens(tokens)
       case Ok(bounds) => Ok(OrAny(bounds))
       case RangeError => RangeError)
    // The two rewritten ends go through `_desugar_token` in turn.
    case Hyphen(lower, upper) => Ok(OrAny(HyphenEnds(ReplaceHyphen(lower, upper))))
  }

  function HyphenEnds(ends: seq<Bound>): seq<Bound> {
    if ends == [] then [] else OrAny(Collapse([ends[0]])) + HyphenEnds(ends[1..])
  }

  /** `_satisfies_bound`. */
  predicate MeetsBound(b: Bound, v: Version) {
    match b
    case AnyVersion => true
    case Bound(Lt, w) => Less(v, w)
    case Bound(Le, w) => AtMost(v, w)
    case Bound(Gt, w) => Less(w, v)
    case Bound(Ge, w) => AtMost(w, v)
    case Bound(Eq, w) => v == w
  }

  predicate MeetsAll(bounds: seq<Bound>, v: Version) {
    forall k :: 0 <= k < |bounds| ==> MeetsBound(bounds[k], v)
  }

  predicate OptsIn(b: Bound, v: Version) {
    b.Bound? && b.version.pre != [] && SameCore(b.version, v)
  }

  /** One branch accepts: all bounds, and for a prerelease the opt-in of some bound. */
  predicate BranchAccepts(bounds: seq<Bound>, v: Version) {
    MeetsAll(bounds, v) && (v.pre != [] ==> exists k :: 0 <= k < |bounds| && OptsIn(bounds[k], v))
  }

  /** `NpmRange.matches`. */
  method Matches(branches: seq<seq<Bound>>, v: Version) returns (accepted: bool)
    ensures accepted <==> exists k :: 0 <= k < |branches| && BranchAccepts(branches[k], v)
  {
    for i := 0 to |branches|
      invariant forall k :: 0 <= k < i ==> !BranchAccepts(branches[k], v)
    {
      var branch := branches[i];
      var ok := true;
      for j := 0 to |branch|
        invariant ok && forall k :: 0 <= k < j ==> MeetsBound(branch[k], v)
      {
        if !MeetsBound(branch[j], v) {
          ok := false;
          break;
        }
      }
      if !ok {
        continue;
      }
      if v.pre != [] {
        var allowed := false;
        for j := 0 to |branch|
          invariant !allowed && forall k :: 0 <= k < j ==> !OptsIn(branch[k], v)
        {
          if OptsIn(branch[j], v) {
            allowed := true;
            break;
          }
        }
        if !allowed {
          continue;
        }
      }
      return true;
    }
    return false;
  }

  /** `parse_range` after the text has been split: every branch, or an error. */
  method ParseRange(range: seq<Branch>) returns (parsed: Result<seq<seq<Bound>>>)
    ensures parsed.Ok? <==> forall k :: 0 <= k < |range| ==> DesugarBranch(range[k]).Ok?
    ensures parsed.Ok? ==> |parsed.value| == |range|
    ensures parsed.Ok? ==> forall k :: 0 <= k < |range| ==> DesugarBranch(range[k]) == Ok(parsed.value[k])
  {
    var branches := [];
    for i := 0 to |range|
      invariant |branches| == i
      invariant forall k :: 0 <= k < i ==> DesugarBranch(range[k]) == Ok(branches[k])
    {
      var branch := ParseBranch(range[i]);
      if branch.RangeError? {
        return RangeError;
      }
      branches := branches + [branch.value];
    }
    return Ok(branches);
  }

  /** One branch of `parse_range`: its tokens in turn. */
  method ParseBranch(b: Branch) returns (bounds: Result<seq<Bound>>)
    ensures bounds == DesugarBranch(b)
  {
    if b.Hyphen? {
      return Ok(OrAny(HyphenEnds(ReplaceHyphen(b.lower, b.upper))));
    }
    var all := [];
    for i := 0 to |b.tokens|
      invariant DesugarTokens(b.tokens[..i]) == Ok(all)
    {
      assert b.tokens[..i + 1][..i] == b.tokens[..i];
      var one := DesugarToken(b.tokens[i]);
      if one.RangeError? {
        ErrorStays(b.tokens, i + 1);
        return RangeError;
      }
      all := all + one.value;
    }
    assert b.tokens[..|b.tokens|] == b.tokens;
    return Ok(OrAny(all));
  }

  lemma {:induction false} ErrorStays(tokens: seq<Token>, i: nat)
    requires i <= |tokens| && DesugarTokens(tokens[..i]).RangeError?
    ensures DesugarTokens(tokens).RangeError?
  {
    if i == |tokens| {
      assert tokens[..i] == tokens;
    } else {
      assert tokens[..|tokens| - 1][..i] == tokens[..i];
      ErrorStays(tokens[..|tokens| - 1], i);
    }
  }
}
