/** When the incremental redactor emits what the whole-text redactor would. */
module RedactionAgreement {
  import opened Text
  import opened Redaction

  /**
    Every proper prefix of a secret that contains a complete secret starts with one. This is what a
    caller has to check: without it the incremental redactor emits the beginning of a secret as soon
    as a complete secret shows up behind it.
   */
  predicate Guarded(secrets: seq<string>) {
    forall t | t in secrets :: forall k | 0 <= k < |t| :: GuardedAt(t, k, secrets)
  }

  predicate GuardedAt(t: string, k: nat, secrets: seq<string>)
    requires k <= |t|
  {
    var start := Leftmost(t[..k], secrets);
    start == k || start == 0
  }

  lemma GuardedCandidate(rest: string, secrets: seq<string>)
    requires Guarded(secrets)
    ensures Candidate(rest, secrets) ==> Leftmost(rest, secrets) == |rest| || Leftmost(rest, secrets) == 0
  {
    if Candidate(rest, secrets) {
      var t :| t in secrets && rest < t;
      assert GuardedAt(t, |rest|, secrets);
      assert t[..|rest|] == rest;
    }
  }

  /** A match that only shows up with more text begins with what was there before. */
  lemma MatchBeyond(rest: string, more: string, secrets: seq<string>)
    ensures MatchLen(rest, secrets) == 0 && MatchLen(rest + more, secrets) > 0 ==> Candidate(rest, secrets)
    ensures Candidate(rest + more, secrets) ==> Candidate(rest, secrets)
  {
    var n := MatchLen(rest + more, secrets);
    MatchLenIs(rest, secrets);
    MatchLenIs(rest + more, secrets);
    if n > |rest| {
      assert rest < (rest + more)[..n];
    } else if n > 0 {
      assert (rest + more)[..n] <= rest;
    }
    if Candidate(rest + more, secrets) {
      var t :| t in secrets && rest + more < t;
      assert rest < t;
    }
  }

  lemma NoLongCandidate(text: string, secrets: seq<string>)
    ensures Candidate(text, secrets) ==> |text| < Longest(secrets)
  {
    LongestIs(secrets);
  }

  /** A position with nothing to redact, and settled: no later text can turn it into a match. */
  lemma Settled(p: string, more: string, i: nat, secrets: seq<string>)
    requires Guarded(secrets)
    requires i < |p| && QuietAt(p, i, secrets)
    requires |p| - i >= Longest(secrets) || i < Leftmost(p, secrets) < |p|
    ensures Copied(p + more, i, secrets)
  {
    var rest := p[i..];
    assert (p + more)[i..] == rest + more;
    MatchLenExtend(rest, more, secrets);
    LeftmostQuiet(p, secrets);
    MatchBeyond(rest, more, secrets);
    NoLongCandidate(rest, secrets);
    if |rest| < Longest(secrets) {
      LeftmostSuffix(p, i, Leftmost(p, secrets), secrets);
      assert rest[0..] == rest;
      GuardedCandidate(rest, secrets);
    }
  }

  /** Emitting `d.0` and going on with `d.1` comes to the same as going on with `p`. */
  predicate Amounts(p: string, more: string, d: (string, string), secrets: seq<string>, abort: bool) {
    Final(p + more, secrets, abort) == d.0 + Final(d.1 + more, secrets, abort)
  }

  lemma SettledPrefix(p: string, more: string, n: nat, secrets: seq<string>, abort: bool)
    requires Guarded(secrets)
    requires n <= |p| && Quiet(p, n, secrets)
    requires n == 0 || |p| - n + 1 >= Longest(secrets) || n <= Leftmost(p, secrets) < |p|
    ensures Amounts(p, more, (p[..n], p[n..]), secrets, abort)
  {
    forall i | 0 <= i < n ensures Copied(p + more, i, secrets) {
      assert QuietAt(p, i, secrets);
      Settled(p, more, i, secrets);
    }
    assert (p + more)[n..] == p[n..] + more;
    assert (p + more)[..n] == p[..n];
    FinalCopied(p + more, n, secrets, abort);
  }

  /** Draining an unfinished stream emits exactly what is settled and keeps the rest. */
  lemma {:induction false} DrainOpen(p: string, more: string, secrets: seq<string>, abort: bool)
    requires Guarded(secrets)
    ensures Amounts(p, more, Drain(p, secrets, Open), secrets, abort)
    decreases |p|
  {
    if p == "" {
      assert "" + Final("" + more, secrets, abort) == Final("" + more, secrets, abort);
    } else if Leftmost(p, secrets) == |p| {
      DrainQuiet(p, more, secrets, abort);
    } else {
      var start := Leftmost(p, secrets);
      LeftmostQuiet(p, secrets);
      SettledPrefix(p, more, start, secrets, abort);
      if |p| - start >= Longest(secrets) {
        var end := start + MatchLen(p[start..], secrets);
        DrainOpen(p[end..], more, secrets, abort);
        DrainCommit(p, more, start, end, secrets, abort);
      }
    }
  }

  lemma DrainQuiet(p: string, more: string, secrets: seq<string>, abort: bool)
    requires Guarded(secrets) && p != "" && Leftmost(p, secrets) == |p|
    ensures Amounts(p, more, Drain(p, secrets, Open), secrets, abort)
  {
    var keep := if Longest(secrets) > 0 then Longest(secrets) - 1 else 0;
    var cut := if |p| <= keep then 0 else |p| - keep;
    LeftmostQuiet(p, secrets);
    forall i | 0 <= i < cut ensures QuietAt(p, i, secrets) {}
    SettledPrefix(p, more, cut, secrets, abort);
  }

  /** A committed match, when the rest behind it drains as it should. */
  lemma DrainCommit(p: string, more: string, start: nat, end: nat, secrets: seq<string>, abort: bool)
    requires start == Leftmost(p, secrets) < |p| && |p| - start >= Longest(secrets)
    requires end == start + MatchLen(p[start..], secrets)
    requires Amounts(p, more, (p[..start], p[start..]), secrets, abort)
    requires Amounts(p[end..], more, Drain(p[end..], secrets, Open), secrets, abort)
    ensures Amounts(p, more, Drain(p, secrets, Open), secrets, abort)
  {
    DrainMatch(p, start, end, secrets, Open);
    FinalCommitted(p, more, start, end, secrets, abort);
    MatchAmounts(p, more, start, end, Drain(p, secrets, Open), Drain(p[end..], secrets, Open), secrets, abort);
  }

  lemma MatchAmounts(p: string, more: string, start: nat, end: nat, d: (string, string), e: (string, string),
                     secrets: seq<string>, abort: bool)
    requires start < end <= |p| && d.0 == p[..start] + REDACTED + e.0 && d.1 == e.1
    requires Final(p[start..] + more, secrets, abort) == REDACTED + Final(p[end..] + more, secrets, abort)
    requires Amounts(p, more, (p[..start], p[start..]), secrets, abort)
    requires Amounts(p[end..], more, e, secrets, abort)
    ensures Amounts(p, more, d, secrets, abort)
  {
    Regroup(Final(p + more, secrets, abort), p[..start], Final(p[start..] + more, secrets, abort),
            Final(p[end..] + more, secrets, abort), d.0, e.0, Final(e.1 + more, secrets, abort));
  }

  /** A match with a longest secret's length of text behind its start stays what it is. */
  lemma FinalCommitted(p: string, more: string, start: nat, end: nat, secrets: seq<string>, abort: bool)
    requires start < end <= |p| && |p| - start >= Longest(secrets) && end == start + MatchLen(p[start..], secrets)
    ensures Final(p[start..] + more, secrets, abort) == REDACTED + Final(p[end..] + more, secrets, abort)
  {
    MatchLenExtend(p[start..], more, secrets);
    SliceAppend(p, start, end - start, more);
    FinalMatch(p[start..] + more, p[end..] + more, secrets, abort);
  }

  lemma Regroup(whole: string, before: string, mid: string, tail: string, emitted: string, out: string, last: string)
    requires whole == before + mid && mid == REDACTED + tail && tail == out + last
    requires emitted == before + REDACTED + out
    ensures whole == emitted + last
  {
  }

  lemma SliceAppend(p: string, i: nat, n: nat, more: string)
    requires i + n <= |p|
    ensures (p[i..] + more)[n..] == p[i + n..] + more
  {
  }

  lemma FinalMatch(text: string, tail: string, secrets: seq<string>, abort: bool)
    requires MatchLen(text, secrets) > 0 && tail == text[MatchLen(text, secrets)..]
    ensures Final(text, secrets, abort) == REDACTED + Final(tail, secrets, abort)
  {
  }

  // ---------------------------------------------------------------- the flush at the end

  lemma CopiedBeforeMatch(p: string, secrets: seq<string>)
    requires Leftmost(p, secrets) < |p|
    ensures forall i :: 0 <= i < Leftmost(p, secrets) ==> Copied(p, i, secrets)
  {
    var start := Leftmost(p, secrets);
    LeftmostQuiet(p, secrets);
    forall i | 0 <= i < start ensures Copied(p, i, secrets) {
      assert QuietAt(p, i, secrets);
      LeftmostSuffix(p, i, start, secrets);
    }
  }

  lemma QuietSuffix(p: string, cut: nat, secrets: seq<string>)
    requires cut <= |p| && Leftmost(p, secrets) == |p|
    ensures Leftmost(p[cut..], secrets) == |p| - cut
  {
    LeftmostQuiet(p, secrets);
    forall j | 0 <= j < |p| - cut ensures QuietAt(p[cut..], j, secrets) {
      assert p[cut..][j..] == p[cut + j..];
      assert QuietAt(p, cut + j, secrets);
    }
    var j := Leftmost(p[cut..], secrets);
    assert j < |p| - cut ==> QuietAt(p[cut..], j, secrets);
  }

  /** The flush of a rest without a match, at a clean end and at an abort. */
  lemma FlushQuiet(p: string, secrets: seq<string>, abort: bool)
    requires p != "" && Leftmost(p, secrets) == |p|
    ensures Drain(p, secrets, if abort then Aborted else Clean).0 == Final(p, secrets, abort)
  {
    LeftmostQuiet(p, secrets);
    if abort {
      PartialCutIs(p, 0, secrets);
      var cut := PartialCut(p, 0, secrets);
      forall i | 0 <= i < cut ensures Copied(p, i, secrets) {
        assert QuietAt(p, i, secrets);
        assert !CandidateAt(p, i, secrets);
      }
      FinalCopied(p, cut, secrets, abort);
      if cut < |p| {
        QuietSuffix(p, cut, secrets);
        assert QuietAt(p, cut, secrets);
      }
    } else {
      FinalClean(p, secrets);
      RedactQuiet(p, |p|, secrets);
      assert p[..|p|] == p && p[|p|..] == "";
    }
  }

  /** At the end of the stream the held overlap is redacted like a text of its own. */
  lemma {:induction false} DrainFlush(p: string, secrets: seq<string>, abort: bool)
    ensures Drain(p, secrets, if abort then Aborted else Clean).0 == Final(p, secrets, abort)
    decreases |p|
  {
    var ending := if abort then Aborted else Clean;
    if p != "" {
      var start := Leftmost(p, secrets);
      if start == |p| {
        FlushQuiet(p, secrets, abort);
      } else {
        FlushMatch(p, secrets, abort, ending);
      }
    }
  }

  lemma FlushMatch(p: string, secrets: seq<string>, abort: bool, ending: Ending)
    requires Leftmost(p, secrets) < |p| && ending == if abort then Aborted else Clean
    ensures Drain(p, secrets, ending).0 == Final(p, secrets, abort)
    decreases |p|, 0
  {
    var start := Leftmost(p, secrets);
    var end := start + MatchLen(p[start..], secrets);
    DrainMatch(p, start, end, secrets, ending);
    DrainFlush(p[end..], secrets, abort);
    FinalMatchAt(p, start, end, secrets, abort);
  }

  // ---------------------------------------------------------------- whole runs

  /** What is still held is never a whole window: at most one character less than the longest secret. */
  lemma {:induction false} HeldBound(p: string, secrets: seq<string>)
    ensures |Drain(p, secrets, Open).1| <= if Longest(secrets) > 0 then Longest(secrets) - 1 else 0
    decreases |p|
  {
    if p != "" {
      var start := Leftmost(p, secrets);
      if start < |p| && |p| - start >= Longest(secrets) {
        var end := start + MatchLen(p[start..], secrets);
        DrainMatch(p, start, end, secrets, Open);
        HeldBound(p[end..], secrets);
      }
    }
  }

  lemma {:induction false} FeedHeldBound(pieces: seq<string>, held: string, secrets: seq<string>)
    requires |held| <= if Longest(secrets) > 0 then Longest(secrets) - 1 else 0
    ensures |Feed(pieces, held, secrets).1| <= if Longest(secrets) > 0 then Longest(secrets) - 1 else 0
  {
    if pieces != [] {
      HeldBound(held + pieces[0], secrets);
      FeedHeldBound(pieces[1..], Drain(held + pieces[0], secrets, Open).1, secrets);
    }
  }

  lemma {:induction false} FeedAgrees(pieces: seq<string>, held: string, secrets: seq<string>, abort: bool)
    requires Guarded(secrets)
    ensures Final(held + Join(pieces), secrets, abort)
         == Feed(pieces, held, secrets).0 + Final(Feed(pieces, held, secrets).1, secrets, abort)
  {
    if pieces == [] {
      assert held + Join(pieces) == held;
    } else {
      var more := Join(pieces[1..]);
      assert held + Join(pieces) == (held + pieces[0]) + more;
      DrainOpen(held + pieces[0], more, secrets, abort);
      FeedAgrees(pieces[1..], Drain(held + pieces[0], secrets, Open).1, secrets, abort);
    }
  }

  /** A clean or aborted stream emits what the whole text determines, however it was cut. */
  lemma StreamAgrees(pieces: seq<string>, secrets: seq<string>, abort: bool)
    requires Guarded(secrets)
    ensures Stream(pieces, secrets, abort) == Final(Join(pieces), secrets, abort)
  {
    FeedAgrees(pieces, "", secrets, abort);
    assert "" + Join(pieces) == Join(pieces);
    DrainFlush(Feed(pieces, "", secrets).1, secrets, abort);
  }

  // ---------------------------------------------------------------- and when it does not

  lemma JoinTwo(a: string, b: string)
    ensures Join([a, b]) == a + b
  {
    assert [a, b][1..] == [b];
    assert Join([b]) == b + Join([]);
  }

  lemma FeedTwo(a: string, b: string, secrets: seq<string>)
    ensures
      var first := Drain(a, secrets, Open);
      var second := Drain(first.1 + b, secrets, Open);
      Feed([a, b], "", secrets) == (first.0 + second.0, second.1)
  {
    assert [a, b][1..] == [b];
    assert "" + a == a;
    var first := Drain(a, secrets, Open);
    var second := Drain(first.1 + b, secrets, Open);
    assert Feed([b], first.1, secrets) == (second.0 + "", second.1);
    assert second.0 + "" == second.0;
  }

  /** A text that starts with a match costs at least one marker, now or at the flush. */
  lemma MatchFirst(rest: string, secrets: seq<string>)
    requires MatchLen(rest, secrets) > 0
    ensures |Drain(rest, secrets, Open).0| + |Final(Drain(rest, secrets, Open).1, secrets, false)| >= |REDACTED|
  {
    assert rest[0..] == rest;
    var start := Leftmost(rest, secrets);
    assert start == 0;
    if |rest| >= Longest(secrets) {
      DrainMatch(rest, 0, MatchLen(rest, secrets), secrets, Open);
    } else {
      FinalMatch(rest, rest[MatchLen(rest, secrets)..], secrets, false);
    }
  }

  lemma WholeSecret(t: string, secrets: seq<string>)
    requires t in secrets && t != ""
    ensures Redact(t, secrets) == REDACTED
  {
    MatchLenIs(t, secrets);
    assert MatchLen(t, secrets) == |t|;
    assert t[|t|..] == "";
  }

  /** Splitting a secret behind a complete inner secret makes the stream emit its beginning. */
  lemma UnguardedSplit(t: string, k: nat, secrets: seq<string>)
    requires t in secrets && k < |t| && !GuardedAt(t, k, secrets)
    ensures Stream([t[..k], t[k..]], secrets, false) != Redact(t, secrets)
  {
    var p := t[..k];
    var start := Leftmost(p, secrets);
    LongestIs(secrets);
    assert Drain(p, secrets, Open) == (p[..start], p[start..]);
    MatchLenExtend(p[start..], t[k..], secrets);
    MatchFirst(p[start..] + t[k..], secrets);
    FeedTwo(p, t[k..], secrets);
    DrainFlush(Feed([p, t[k..]], "", secrets).1, secrets, false);
    WholeSecret(t, secrets);
  }

  /**
    The incremental redactor equals the whole-text redactor, for every text and every way of cutting
    it, exactly when the secrets are guarded.
   */
  lemma AgreesIffGuarded(secrets: seq<string>)
    ensures (forall pieces :: Stream(pieces, secrets, false) == Redact(Join(pieces), secrets)) <==> Guarded(secrets)
  {
    if Guarded(secrets) {
      forall pieces ensures Stream(pieces, secrets, false) == Redact(Join(pieces), secrets) {
        StreamAgrees(pieces, secrets, false);
        FinalClean(Join(pieces), secrets);
      }
    } else {
      var t :| t in secrets && !forall k | 0 <= k < |t| :: GuardedAt(t, k, secrets);
      var k :| 0 <= k < |t| && !GuardedAt(t, k, secrets);
      UnguardedSplit(t, k, secrets);
      JoinTwo(t[..k], t[k..]);
      assert t[..k] + t[k..] == t;
      assert Stream([t[..k], t[k..]], secrets, false) != Redact(Join([t[..k], t[k..]]), secrets);
    }
  }

  /** A secret strictly inside another one is enough to break the agreement. */
  lemma InnerSecretLeaks()
    ensures !Guarded(["abcd", "b"])
    ensures Stream(["ab", "cd"], ["abcd", "b"], false) != Redact("abcd", ["abcd", "b"])
  {
    var secrets := ["abcd", "b"];
    var p := "abcd"[..2];
    assert p == "ab" && "abcd"[2..] == "cd";
    MatchLenIs(p, secrets);
    var n := MatchLen(p, secrets);
    assert n == 0 by {
      assert p[..1][0] == 'a' && secrets[1][0] == 'b';
      assert |p[..2]| == 2;
    }
    assert p[0..] == p;
    MatchLenIs(p[1..], secrets);
    assert p[1..] == "b" && secrets[1] == "b";
    LeftmostBound(p, 1, secrets);
    assert !GuardedAt("abcd", 2, secrets);
    UnguardedSplit("abcd", 2, secrets);
  }

  /** A non-empty `s` sits in `t` at `i`, neither at its start nor reaching its end. */
  predicate InsideAt(s: string, t: string, i: nat) {
    s != "" && 0 < i && i + |s| < |t| && t[i..i + |s|] == s
  }

  /** Secrets none of which sits strictly inside another are guarded; prefixes and suffixes are fine. */
  lemma NoInnerGuarded(secrets: seq<string>)
    requires forall s, t, i :: s in secrets && t in secrets ==> !InsideAt(s, t, i)
    ensures Guarded(secrets)
  {
    forall t, k | t in secrets && 0 <= k < |t| ensures GuardedAt(t, k, secrets) {
      var start := Leftmost(t[..k], secrets);
      if start < k {
        MatchLenIs(t[..k][start..], secrets);
        var s := t[..k][start..][..MatchLen(t[..k][start..], secrets)];
        assert s == t[start..start + |s|];
        assert !InsideAt(s, t, start);
      }
    }
  }

  // ---------------------------------------------------------------- what an abort costs

  /** Where the text after the last match begins. */
  function ClearFrom(text: string, secrets: seq<string>): (i: nat)
    ensures i <= |text|
    decreases |text|
  {
    var start := Leftmost(text, secrets);
    if start == |text| then 0
    else
      var end := start + MatchLen(text[start..], secrets);
      end + ClearFrom(text[end..], secrets)
  }

  /** Where the longest suffix of the text after the last match that begins a secret starts. */
  function AbortCut(text: string, secrets: seq<string>): (cut: nat)
    ensures ClearFrom(text, secrets) <= cut <= |text|
  {
    var clear := ClearFrom(text, secrets);
    clear + PartialCut(text[clear..], 0, secrets)
  }

  lemma PartialCutFrom(text: string, clear: nat, i: nat, cut: nat, secrets: seq<string>)
    requires clear <= i <= |text| && cut == clear + PartialCut(text[clear..], 0, secrets)
    ensures cut < |text| ==> CandidateAt(text, cut, secrets)
    ensures i < cut ==> !CandidateAt(text, i, secrets)
  {
    PartialCutIs(text[clear..], 0, secrets);
    SliceSlice(text, clear, cut - clear);
    SliceSlice(text, clear, i - clear);
    assert CandidateAt(text, cut, secrets) == CandidateAt(text[clear..], cut - clear, secrets);
    assert CandidateAt(text, i, secrets) == CandidateAt(text[clear..], i - clear, secrets);
  }

  /** It starts a secret, and no earlier position after the last match does. */
  lemma AbortCutIs(text: string, i: nat, secrets: seq<string>)
    requires ClearFrom(text, secrets) <= i <= |text|
    ensures AbortCut(text, secrets) < |text| ==> CandidateAt(text, AbortCut(text, secrets), secrets)
    ensures i < AbortCut(text, secrets) ==> !CandidateAt(text, i, secrets)
  {
    PartialCutFrom(text, ClearFrom(text, secrets), i, AbortCut(text, secrets), secrets);
  }

  lemma AbortCutStep(text: string, end: nat, secrets: seq<string>)
    requires Leftmost(text, secrets) < |text|
    requires end == Leftmost(text, secrets) + MatchLen(text[Leftmost(text, secrets)..], secrets)
    ensures AbortCut(text, secrets) == end + AbortCut(text[end..], secrets)
  {
    var clear := ClearFrom(text[end..], secrets);
    assert ClearFrom(text, secrets) == end + clear;
    SliceSlice(text, end, clear);
  }

  lemma QuietTrunc(text: string, n: nat, cut: nat, secrets: seq<string>)
    requires n <= cut <= |text| && Quiet(text, n, secrets)
    ensures Quiet(text[..cut], n, secrets)
  {
    forall i | 0 <= i < n ensures QuietAt(text[..cut], i, secrets) {
      assert QuietAt(text, i, secrets);
      assert text[i..] == text[..cut][i..] + text[cut..];
      MatchLenExtend(text[..cut][i..], text[cut..], secrets);
    }
  }

  lemma RedactMatchAt(text: string, start: nat, end: nat, secrets: seq<string>)
    requires start < end <= |text| && Quiet(text, start, secrets) && end == start + MatchLen(text[start..], secrets)
    ensures Redact(text, secrets) == text[..start] + REDACTED + Redact(text[end..], secrets)
  {
    RedactQuiet(text, start, secrets);
    RedactMatchFrom(text, start, end, secrets);
    Glue(Redact(text, secrets), text[..start], Redact(text[start..], secrets), Redact(text[end..], secrets));
  }

  lemma RedactMatchFrom(text: string, start: nat, end: nat, secrets: seq<string>)
    requires start < end <= |text| && end == start + MatchLen(text[start..], secrets)
    ensures Redact(text[start..], secrets) == REDACTED + Redact(text[end..], secrets)
  {
    SliceSlice(text, start, end - start);
    RedactMatch(text[start..], text[end..], secrets);
  }

  lemma Glue(whole: string, before: string, mid: string, tail: string)
    requires whole == before + mid && mid == REDACTED + tail
    ensures whole == before + REDACTED + tail
  {
  }

  lemma RedactMatch(text: string, tail: string, secrets: seq<string>)
    requires MatchLen(text, secrets) > 0 && tail == text[MatchLen(text, secrets)..]
    ensures Redact(text, secrets) == REDACTED + Redact(tail, secrets)
  {
  }

  /** Cutting a text behind a match does not change that match. */
  lemma MatchTrunc(text: string, start: nat, end: nat, cut: nat, secrets: seq<string>)
    requires start < end <= cut <= |text| && end == start + MatchLen(text[start..], secrets)
    ensures end == start + MatchLen(text[..cut][start..], secrets)
  {
    var rest := text[..cut][start..];
    assert text[start..] == rest + text[cut..];
    MatchLenExtend(rest, text[cut..], secrets);
    MatchLenIs(text[start..], secrets);
    MatchLenIs(rest, secrets);
    assert text[start..][..end - start] == rest[..end - start];
    assert rest[..end - start] <= rest;
  }

  lemma AbortQuiet(text: string, cut: nat, secrets: seq<string>)
    requires Leftmost(text, secrets) == |text| && cut == PartialCut(text, 0, secrets)
    ensures Redact(text, secrets) == Redact(text[..cut], secrets) + text[cut..]
    ensures Final(text, secrets, true) == Redact(text[..cut], secrets) + if cut < |text| then REDACTED else ""
  {
    LeftmostQuiet(text, secrets);
    QuietTrunc(text, cut, cut, secrets);
    RedactNothing(text, secrets);
    RedactNothing(text[..cut], secrets);
    if text != "" { FlushQuiet(text, secrets, true); }
  }

  /**
    An aborted stream is the clean one, except that the longest suffix of the match-free rest that
    begins a secret is replaced by exactly one marker.
   */
  lemma {:induction false} AbortCutsPartialSecret(text: string, secrets: seq<string>)
    ensures
      var cut := AbortCut(text, secrets);
      && Redact(text, secrets) == Redact(text[..cut], secrets) + text[cut..]
      && Final(text, secrets, true) == Redact(text[..cut], secrets) + if cut < |text| then REDACTED else ""
    decreases |text|
  {
    var start := Leftmost(text, secrets);
    if start == |text| {
      assert text[0..] == text;
      AbortQuiet(text, AbortCut(text, secrets), secrets);
    } else {
      var end := start + MatchLen(text[start..], secrets);
      AbortCutsPartialSecret(text[end..], secrets);
      AbortCutStep(text, end, secrets);
      AbortMatch(text, start, end, AbortCut(text, secrets), secrets);
    }
  }

  lemma SliceSlice(text: string, i: nat, j: nat)
    requires i + j <= |text|
    ensures text[i..][j..] == text[i + j..]
  {
  }

  lemma AbortMatch(text: string, start: nat, end: nat, cut: nat, secrets: seq<string>)
    requires start == Leftmost(text, secrets) < |text| && end == start + MatchLen(text[start..], secrets)
    requires end <= cut <= |text|
    requires Redact(text[end..], secrets) == Redact(text[end..][..cut - end], secrets) + text[end..][cut - end..]
    requires Final(text[end..], secrets, true)
          == Redact(text[end..][..cut - end], secrets) + if cut < |text| then REDACTED else ""
    ensures Redact(text, secrets) == Redact(text[..cut], secrets) + text[cut..]
    ensures Final(text, secrets, true) == Redact(text[..cut], secrets) + if cut < |text| then REDACTED else ""
  {
    var head := text[..start] + REDACTED;
    var tail := Redact(text[end..][..cut - end], secrets);
    LeftmostQuiet(text, secrets);
    RedactMatchAt(text, start, end, secrets);
    RedactCut(text, start, end, cut, secrets);
    SliceSlice(text, end, cut - end);
    Assoc(head, tail, text[cut..]);
    FinalMatchAt(text, start, end, secrets, true);
    Assoc(head, tail, if cut < |text| then REDACTED else "");
  }

  /** Cut behind its first match, a text is redacted to that match and the rest up to the cut. */
  lemma RedactCut(text: string, start: nat, end: nat, cut: nat, secrets: seq<string>)
    requires start < end <= cut <= |text| && Quiet(text, start, secrets)
    requires end == start + MatchLen(text[start..], secrets)
    ensures Redact(text[..cut], secrets) == text[..start] + REDACTED + Redact(text[end..][..cut - end], secrets)
  {
    QuietTrunc(text, start, cut, secrets);
    MatchTrunc(text, start, end, cut, secrets);
    assert text[..cut][end..] == text[end..][..cut - end];
    RedactMatchAt(text[..cut], start, end, secrets);
    assert text[..cut][..start] == text[..start];
  }

  lemma FinalMatchAt(text: string, start: nat, end: nat, secrets: seq<string>, abort: bool)
    requires start == Leftmost(text, secrets) < |text| && end == start + MatchLen(text[start..], secrets)
    ensures Final(text, secrets, abort) == text[..start] + REDACTED + Final(text[end..], secrets, abort)
  {
    FinalBeforeMatch(text, start, secrets, abort);
    FinalMatchFrom(text, start, end, secrets, abort);
    Glue(Final(text, secrets, abort), text[..start], Final(text[start..], secrets, abort),
         Final(text[end..], secrets, abort));
  }

  lemma FinalBeforeMatch(text: string, start: nat, secrets: seq<string>, abort: bool)
    requires start == Leftmost(text, secrets) < |text|
    ensures Final(text, secrets, abort) == text[..start] + Final(text[start..], secrets, abort)
  {
    CopiedBeforeMatch(text, secrets);
    FinalCopied(text, start, secrets, abort);
  }

  lemma FinalMatchFrom(text: string, start: nat, end: nat, secrets: seq<string>, abort: bool)
    requires start < end <= |text| && end == start + MatchLen(text[start..], secrets)
    ensures Final(text[start..], secrets, abort) == REDACTED + Final(text[end..], secrets, abort)
  {
    SliceSlice(text, start, end - start);
    FinalMatch(text[start..], text[end..], secrets, abort);
  }

  lemma Assoc(a: string, b: string, c: string)
    ensures a + (b + c) == a + b + c
  {
  }
}
