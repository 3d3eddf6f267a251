/**
  Secret redaction: the whole-text redactor `redact_text` and the incremental one inside
  `RedactingStream`, and exactly when the two agree.
 */
module Redaction {
  import opened Text

  const REDACTED := "<redacted>"

  // ---------------------------------------------------------------- secrets

  /** Length of the longest secret (`longest_secret_length`). */
  function Longest(secrets: seq<string>): (n: nat) {
    if secrets == [] then 0
    else
      var rest := Longest(secrets[1..]);
      if |secrets[0]| > rest then |secrets[0]| else rest
  }

  lemma {:induction false} LongestIs(secrets: seq<string>)
    ensures forall s :: s in secrets ==> |s| <= Longest(secrets)
    ensures Longest(secrets) > 0 ==> exists s :: s in secrets && |s| == Longest(secrets)
  {
    if secrets != [] {
      LongestIs(secrets[1..]);
      forall s | s in secrets ensures |s| <= Longest(secrets) {
        if s != secrets[0] { assert s in secrets[1..]; }
      }
      if |secrets[0]| > Longest(secrets[1..]) {
        assert secrets[0] in secrets && |secrets[0]| == Longest(secrets);
      }
    }
  }

  /** Length of the longest secret that `text` starts with; 0 when it starts with none. */
  function MatchLen(text: string, secrets: seq<string>): (n: nat)
    ensures n <= |text|
  {
    if secrets == [] then 0
    else
      var rest := MatchLen(text, secrets[1..]);
      if secrets[0] <= text && |secrets[0]| > rest then |secrets[0]| else rest
  }

  /** A match is a secret, and no secret that fits is longer. */
  lemma {:induction false} MatchLenIs(text: string, secrets: seq<string>)
    ensures var n := MatchLen(text, secrets); n > 0 ==> text[..n] in secrets
    ensures forall s :: s in secrets && s <= text ==> |s| <= MatchLen(text, secrets)
  {
    if secrets != [] {
      MatchLenIs(text, secrets[1..]);
      if secrets[0] <= text { assert text[..|secrets[0]|] == secrets[0]; }
      forall s | s in secrets && s <= text ensures |s| <= MatchLen(text, secrets) {
        if s != secrets[0] { assert s in secrets[1..]; }
      }
    }
  }

  /** Two secret lists with the same non-empty members are interchangeable. */
  ghost predicate SameSecrets(a: seq<string>, b: seq<string>) {
    forall s :: s != "" ==> (s in a <==> s in b)
  }

  lemma MatchLenOfSet(text: string, a: seq<string>, b: seq<string>)
    requires SameSecrets(a, b)
    ensures MatchLen(text, a) == MatchLen(text, b)
  {
    MatchLenIs(text, a);
    MatchLenIs(text, b);
    var m, n := MatchLen(text, a), MatchLen(text, b);
    if m > 0 { assert text[..m] in b; assert text[..m] <= text; }
    if n > 0 { assert text[..n] in a; assert text[..n] <= text; }
  }

  lemma LongestOfSet(a: seq<string>, b: seq<string>)
    requires SameSecrets(a, b)
    ensures Longest(a) == Longest(b)
  {
    LongestIs(a);
    LongestIs(b);
    if Longest(a) > 0 { var s :| s in a && |s| == Longest(a); assert s in b; }
    if Longest(b) > 0 { var s :| s in b && |s| == Longest(b); assert s in a; }
  }

  /** A match found in a text survives anything appended after it, and none can be lost. */
  lemma MatchLenExtend(text: string, more: string, secrets: seq<string>)
    ensures MatchLen(text, secrets) <= MatchLen(text + more, secrets)
    ensures |text| >= Longest(secrets) ==> MatchLen(text + more, secrets) == MatchLen(text, secrets)
  {
    MatchLenIs(text, secrets);
    MatchLenIs(text + more, secrets);
    LongestIs(secrets);
    var m, n := MatchLen(text, secrets), MatchLen(text + more, secrets);
    if m > 0 { assert text[..m] <= text + more; }
    if |text| >= Longest(secrets) && n > 0 {
      assert (text + more)[..n] in secrets;
      assert (text + more)[..n] == text[..n];
      assert text[..n] <= text;
    }
  }

  // ---------------------------------------------------------------- whole-text redaction

  /** Leftmost-longest redaction of a whole text. */
  function Redact(text: string, secrets: seq<string>): string
    decreases |text|
  {
    if text == "" then ""
    else
      var n := MatchLen(text, secrets);
      if n > 0 then REDACTED + Redact(text[n..], secrets)
      else [text[0]] + Redact(text[1..], secrets)
  }

  /** No secret starts at position `i` of `text`. */
  ghost predicate QuietAt(text: string, i: nat, secrets: seq<string>)
    requires i <= |text|
  {
    MatchLen(text[i..], secrets) == 0
  }

  /** No secret starts in the first `n` positions of `text`. */
  ghost predicate Quiet(text: string, n: nat, secrets: seq<string>)
    requires n <= |text|
  {
    forall i :: 0 <= i < n ==> QuietAt(text, i, secrets)
  }

  lemma QuietTail(text: string, n: nat, secrets: seq<string>)
    requires 0 < n <= |text| && Quiet(text, n, secrets)
    ensures Quiet(text[1..], n - 1, secrets)
  {
    forall i | 0 <= i < n - 1 ensures QuietAt(text[1..], i, secrets) {
      assert QuietAt(text, i + 1, secrets);
      assert text[1..][i..] == text[i + 1..];
    }
  }

  lemma AppendHead(c: char, a: string, b: string)
    ensures [c] + (a + b) == ([c] + a) + b
  {
  }

  lemma RedactClear(text: string, secrets: seq<string>)
    requires text != "" && MatchLen(text, secrets) == 0
    ensures Redact(text, secrets) == [text[0]] + Redact(text[1..], secrets)
  {
  }

  lemma {:induction false} RedactQuiet(text: string, n: nat, secrets: seq<string>)
    requires n <= |text| && Quiet(text, n, secrets)
    ensures Redact(text, secrets) == text[..n] + Redact(text[n..], secrets)
  {
    if n == 0 {
      assert text[0..] == text;
    } else {
      assert MatchLen(text, secrets) == 0 by { assert QuietAt(text, 0, secrets); assert text[0..] == text; }
      QuietTail(text, n, secrets);
      RedactQuiet(text[1..], n - 1, secrets);
      RedactClear(text, secrets);
      assert text[1..][n - 1..] == text[n..];
      AppendHead(text[0], text[1..][..n - 1], Redact(text[n..], secrets));
      assert [text[0]] + text[1..][..n - 1] == text[..n];
    }
  }

  lemma {:induction false} RedactOfSet(text: string, a: seq<string>, b: seq<string>)
    requires SameSecrets(a, b)
    ensures Redact(text, a) == Redact(text, b)
    decreases |text|
  {
    if text != "" {
      MatchLenOfSet(text, a, b);
      var n := MatchLen(text, a);
      RedactOfSet(if n > 0 then text[n..] else text[1..], a, b);
    }
  }

  // ---------------------------------------------------------------- incremental redaction

  /** First position at which some secret starts; `|text|` when there is none. */
  function Leftmost(text: string, secrets: seq<string>): (start: nat)
    ensures start <= |text|
    ensures start < |text| ==> MatchLen(text[start..], secrets) > 0
  {
    LeftmostFrom(text, 0, secrets)
  }

  function LeftmostFrom(text: string, from: nat, secrets: seq<string>): (start: nat)
    requires from <= |text|
    ensures from <= start <= |text|
    ensures start < |text| ==> MatchLen(text[start..], secrets) > 0
    decreases |text| - from
  {
    if from == |text| || MatchLen(text[from..], secrets) > 0 then from
    else LeftmostFrom(text, from + 1, secrets)
  }

  lemma {:induction false} LeftmostFromQuiet(text: string, from: nat, secrets: seq<string>)
    requires from <= |text| && Quiet(text, from, secrets)
    ensures Quiet(text, LeftmostFrom(text, from, secrets), secrets)
    decreases |text| - from
  {
    if from < |text| && MatchLen(text[from..], secrets) == 0 {
      assert QuietAt(text, from, secrets);
      LeftmostFromQuiet(text, from + 1, secrets);
    }
  }

  lemma LeftmostQuiet(text: string, secrets: seq<string>)
    ensures Quiet(text, Leftmost(text, secrets), secrets)
  {
    LeftmostFromQuiet(text, 0, secrets);
  }

  /** `text` is the beginning of a longer secret. */
  predicate Candidate(text: string, secrets: seq<string>) {
    exists t :: t in secrets && text < t
  }

  predicate CandidateAt(text: string, i: nat, secrets: seq<string>)
    requires i <= |text|
  {
    Candidate(text[i..], secrets)
  }

  /** Where the longest suffix of `text` that is a proper prefix of a secret begins. */
  function PartialCut(text: string, from: nat, secrets: seq<string>): (cut: nat)
    requires from <= |text|
    ensures from <= cut <= |text|
    decreases |text| - from
  {
    if from == |text| || CandidateAt(text, from, secrets) then from
    else PartialCut(text, from + 1, secrets)
  }

  lemma {:induction false} PartialCutIs(text: string, from: nat, secrets: seq<string>)
    requires from <= |text|
    requires forall i :: 0 <= i < from ==> !CandidateAt(text, i, secrets)
    ensures var cut := PartialCut(text, from, secrets);
            && (cut < |text| ==> CandidateAt(text, cut, secrets))
            && forall i :: 0 <= i < cut ==> !CandidateAt(text, i, secrets)
    decreases |text| - from
  {
    if from < |text| && !CandidateAt(text, from, secrets) {
      PartialCutIs(text, from + 1, secrets);
    }
  }

  /** Whether the text after the held overlap is still to come, over, or cut off by a failure. */
  datatype Ending = Open | Clean | Aborted

  /** One `_feed_text` loop over the held overlap: what it emits and what it keeps holding. */
  function Drain(pending: string, secrets: seq<string>, ending: Ending): (string, string)
    decreases |pending|
  {
    if pending == "" then ("", "")
    else
      var start := Leftmost(pending, secrets);
      if start == |pending| then
        match ending
        case Clean => (pending, "")
        case Aborted =>
          var cut := PartialCut(pending, 0, secrets);
          (pending[..cut] + (if cut < |pending| then REDACTED else ""), "")
        case Open =>
          var keep := if Longest(secrets) > 0 then Longest(secrets) - 1 else 0;
          var cut := if |pending| <= keep then 0 else |pending| - keep;
          (pending[..cut], pending[cut..])
      else if ending.Open? && |pending| - start < Longest(secrets) then
        (pending[..start], pending[start..])
      else
        var end := start + MatchLen(pending[start..], secrets);
        var (out, held) := Drain(pending[end..], secrets, ending);
        (pending[..start] + REDACTED + out, held)
  }

  lemma DrainMatch(p: string, start: nat, end: nat, secrets: seq<string>, ending: Ending)
    requires start == Leftmost(p, secrets) < |p|
    requires end == start + MatchLen(p[start..], secrets)
    requires ending.Open? ==> |p| - start >= Longest(secrets)
    ensures Drain(p, secrets, ending).0 == p[..start] + REDACTED + Drain(p[end..], secrets, ending).0
    ensures Drain(p, secrets, ending).1 == Drain(p[end..], secrets, ending).1
  {
  }

  /** Feeding pieces one after another, starting from a held overlap. */
  function Feed(pieces: seq<string>, held: string, secrets: seq<string>): (string, string) {
    if pieces == [] then ("", held)
    else
      var (out, held') := Drain(held + pieces[0], secrets, Open);
      var (rest, last) := Feed(pieces[1..], held', secrets);
      (out + rest, last)
  }

  /** The whole output of a stream that was fed `pieces` and then flushed. */
  function Stream(pieces: seq<string>, secrets: seq<string>, abort: bool): string {
    var (out, held) := Feed(pieces, "", secrets);
    out + Drain(held, secrets, if abort then Aborted else Clean).0
  }

  /**
    What a stream should have emitted in all, read off the whole text: every leftmost-longest
    secret is replaced, and on an abort a match-free rest that begins a secret is replaced too.
   */
  function Final(text: string, secrets: seq<string>, abort: bool): string
    decreases |text|
  {
    if text == "" then ""
    else
      var n := MatchLen(text, secrets);
      if n > 0 then REDACTED + Final(text[n..], secrets, abort)
      else if abort && Candidate(text, secrets) && Leftmost(text, secrets) == |text| then REDACTED
      else [text[0]] + Final(text[1..], secrets, abort)
  }

  lemma {:induction false} FinalClean(text: string, secrets: seq<string>)
    ensures Final(text, secrets, false) == Redact(text, secrets)
    decreases |text|
  {
    if text != "" {
      var n := MatchLen(text, secrets);
      FinalClean(if n > 0 then text[n..] else text[1..], secrets);
    }
  }

  /** `Final` copies position `i` of `text` to the output. */
  ghost predicate Copied(text: string, i: nat, secrets: seq<string>)
    requires i <= |text|
  {
    && QuietAt(text, i, secrets)
    && (Candidate(text[i..], secrets) ==> Leftmost(text[i..], secrets) < |text| - i)
  }

  lemma FinalStep(text: string, secrets: seq<string>, abort: bool)
    requires text != "" && Copied(text, 0, secrets)
    ensures Final(text, secrets, abort) == [text[0]] + Final(text[1..], secrets, abort)
  {
    assert text[0..] == text;
  }

  lemma CopiedTail(text: string, n: nat, secrets: seq<string>)
    requires 0 < n <= |text|
    requires forall i :: 0 <= i < n ==> Copied(text, i, secrets)
    ensures forall i :: 0 <= i < n - 1 ==> Copied(text[1..], i, secrets)
  {
    forall i | 0 <= i < n - 1 ensures Copied(text[1..], i, secrets) {
      assert Copied(text, i + 1, secrets);
      assert text[1..][i..] == text[i + 1..];
    }
  }

  lemma {:induction false} FinalCopied(text: string, n: nat, secrets: seq<string>, abort: bool)
    requires n <= |text|
    requires forall i :: 0 <= i < n ==> Copied(text, i, secrets)
    ensures Final(text, secrets, abort) == text[..n] + Final(text[n..], secrets, abort)
  {
    if n == 0 {
      assert text[0..] == text;
    } else {
      FinalStep(text, secrets, abort);
      CopiedTail(text, n, secrets);
      FinalCopied(text[1..], n - 1, secrets, abort);
      assert text[1..][n - 1..] == text[n..];
      AppendHead(text[0], text[1..][..n - 1], Final(text[n..], secrets, abort));
      assert [text[0]] + text[1..][..n - 1] == text[..n];
    }
  }

  lemma LeftmostBound(text: string, i: nat, secrets: seq<string>)
    requires i < |text| && !QuietAt(text, i, secrets)
    ensures Leftmost(text, secrets) <= i
  {
    LeftmostQuiet(text, secrets);
  }

  /** A match at `j` is a match at `j - i` of the text from `i` on. */
  lemma LeftmostSuffix(text: string, i: nat, j: nat, secrets: seq<string>)
    requires i <= j < |text| && !QuietAt(text, j, secrets)
    ensures Leftmost(text[i..], secrets) <= j - i
  {
    assert text[i..][j - i..] == text[j..];
    LeftmostBound(text[i..], j - i, secrets);
  }

  // ---------------------------------------------------------------- order and repetition do not matter

  lemma {:induction false} LeftmostOfSet(text: string, from: nat, a: seq<string>, b: seq<string>)
    requires SameSecrets(a, b) && from <= |text|
    ensures LeftmostFrom(text, from, a) == LeftmostFrom(text, from, b)
    decreases |text| - from
  {
    if from < |text| {
      MatchLenOfSet(text[from..], a, b);
      LeftmostOfSet(text, from + 1, a, b);
    }
  }

  lemma CandidateOfSet(text: string, a: seq<string>, b: seq<string>)
    requires SameSecrets(a, b)
    ensures Candidate(text, a) == Candidate(text, b)
  {
    if Candidate(text, a) { var t :| t in a && text < t; assert t in b; }
    if Candidate(text, b) { var t :| t in b && text < t; assert t in a; }
  }

  lemma {:induction false} PartialCutOfSet(text: string, from: nat, a: seq<string>, b: seq<string>)
    requires SameSecrets(a, b) && from <= |text|
    ensures PartialCut(text, from, a) == PartialCut(text, from, b)
    decreases |text| - from
  {
    if from < |text| {
      CandidateOfSet(text[from..], a, b);
      PartialCutOfSet(text, from + 1, a, b);
    }
  }

  lemma {:induction false} DrainOfSet(pending: string, a: seq<string>, b: seq<string>, ending: Ending)
    requires SameSecrets(a, b)
    ensures Drain(pending, a, ending) == Drain(pending, b, ending)
    decreases |pending|
  {
    if pending != "" {
      LeftmostOfSet(pending, 0, a, b);
      LongestOfSet(a, b);
      PartialCutOfSet(pending, 0, a, b);
      var start := Leftmost(pending, a);
      if start < |pending| {
        MatchLenOfSet(pending[start..], a, b);
        if !ending.Open? || |pending| - start >= Longest(a) {
          var end := start + MatchLen(pending[start..], a);
          DrainMatch(pending, start, end, a, ending);
          DrainMatch(pending, start, end, b, ending);
          DrainOfSet(pending[end..], a, b, ending);
        }
      }
    }
  }

  lemma {:induction false} FeedOfSet(pieces: seq<string>, held: string, a: seq<string>, b: seq<string>)
    requires SameSecrets(a, b)
    ensures Feed(pieces, held, a) == Feed(pieces, held, b)
  {
    if pieces != [] {
      DrainOfSet(held + pieces[0], a, b, Open);
      FeedOfSet(pieces[1..], Drain(held + pieces[0], a, Open).1, a, b);
    }
  }

  /** Reordering or repeating secrets changes neither redactor. */
  lemma OrderIndependent(pieces: seq<string>, text: string, a: seq<string>, b: seq<string>, abort: bool)
    requires SameSecrets(a, b)
    ensures Stream(pieces, a, abort) == Stream(pieces, b, abort)
    ensures Redact(text, a) == Redact(text, b)
  {
    FeedOfSet(pieces, "", a, b);
    DrainOfSet(Feed(pieces, "", a).1, a, b, if abort then Aborted else Clean);
    RedactOfSet(text, a, b);
  }

  // ---------------------------------------------------------------- what is replaced

  /** The matches that redaction replaces from a position on, as pairs of start and end. */
  function Matches(text: string, from: nat, secrets: seq<string>): (spans: seq<(nat, nat)>)
    requires from <= |text|
    ensures forall k :: 0 <= k < |spans| ==> from <= spans[k].0 < spans[k].1 <= |text|
    decreases |text| - from
  {
    if from == |text| then []
    else
      var n := MatchLen(text[from..], secrets);
      if n > 0 then [(from, from + n)] + Matches(text, from + n, secrets) else Matches(text, from + 1, secrets)
  }

  /** Ordered spans that do not overlap. */
  predicate InOrder(text: string, from: nat, spans: seq<(nat, nat)>)
    decreases spans
  {
    if spans == [] then from <= |text|
    else from <= spans[0].0 < spans[0].1 <= |text| && InOrder(text, spans[0].1, spans[1..])
  }

  /** The text with every span replaced by the marker. */
  function Splice(text: string, from: nat, spans: seq<(nat, nat)>): string
    requires InOrder(text, from, spans)
    decreases spans
  {
    if spans == [] then text[from..]
    else text[from..spans[0].0] + REDACTED + Splice(text, spans[0].1, spans[1..])
  }

  /** Redaction replaces exactly its matches. */
  lemma {:induction false} RedactIsSpliced(text: string, from: nat, secrets: seq<string>)
    requires from <= |text|
    ensures Spliced(text, from, Matches(text, from, secrets), Redact(text[from..], secrets))
    decreases |text| - from
  {
    if from < |text| {
      var n := MatchLen(text[from..], secrets);
      RedactStep(text, from, secrets);
      if n > 0 {
        RedactIsSpliced(text, from + n, secrets);
        SpliceMatch(text, from, from + n, Matches(text, from + n, secrets), Redact(text[from + n..], secrets));
      } else {
        RedactIsSpliced(text, from + 1, secrets);
        SpliceBack(text, from, Matches(text, from + 1, secrets), Redact(text[from + 1..], secrets));
      }
    }
  }

  /** The rest of the text with those spans replaced is `out`. */
  predicate Spliced(text: string, from: nat, spans: seq<(nat, nat)>, out: string) {
    InOrder(text, from, spans) && out == Splice(text, from, spans)
  }

  lemma SpliceMatch(text: string, from: nat, end: nat, spans: seq<(nat, nat)>, out: string)
    requires from < end <= |text| && Spliced(text, end, spans, out)
    ensures Spliced(text, from, [(from, end)] + spans, REDACTED + out)
  {
    assert ([(from, end)] + spans)[1..] == spans;
    assert text[from..from] + REDACTED == REDACTED;
  }

  lemma SpliceBack(text: string, from: nat, spans: seq<(nat, nat)>, out: string)
    requires from < |text| && Spliced(text, from + 1, spans, out)
    ensures Spliced(text, from, spans, [text[from]] + out)
  {
    if spans == [] {
      assert text[from..] == [text[from]] + text[from + 1..];
    } else {
      var rest := Splice(text, spans[0].1, spans[1..]);
      assert text[from..spans[0].0] == [text[from]] + text[from + 1..spans[0].0];
      AppendAssoc([text[from]], text[from + 1..spans[0].0] + REDACTED, rest);
      AppendAssoc([text[from]], text[from + 1..spans[0].0], REDACTED);
    }
  }

  /** Each match is a secret. */
  lemma {:induction false} MatchesAreSecrets(text: string, from: nat, secrets: seq<string>)
    requires from <= |text|
    ensures forall m :: m in Matches(text, from, secrets) ==> text[m.0..m.1] in secrets
    decreases |text| - from
  {
    if from < |text| {
      var n := MatchLen(text[from..], secrets);
      MatchesAreSecrets(text, if n > 0 then from + n else from + 1, secrets);
      MatchLenIs(text[from..], secrets);
      assert text[from..][..n] == text[from..from + n];
    }
  }

  /** Every occurrence of every secret starts inside a replaced match. */
  lemma {:induction false} OccurrenceHidden(text: string, from: nat, i: nat, s: string, secrets: seq<string>)
    requires s in secrets && s != "" && from <= i <= |text| && s <= text[i..]
    ensures exists m :: m in Matches(text, from, secrets) && m.0 <= i < m.1
    decreases |text| - from
  {
    var n := MatchLen(text[from..], secrets);
    if i == from {
      MatchLenIs(text[from..], secrets);
      assert (from, from + n) in Matches(text, from, secrets);
    } else if i < from + n {
      assert (from, from + n) in Matches(text, from, secrets);
    } else {
      var next := if n > 0 then from + n else from + 1;
      OccurrenceHidden(text, next, i, s, secrets);
      var m :| m in Matches(text, next, secrets) && m.0 <= i < m.1;
      assert m in Matches(text, from, secrets);
    }
  }

  // ---------------------------------------------------------------- the source's loops

  /** The non-empty secrets in the order of their first occurrence. */
  function FirstOccurrences(secrets: seq<string>): seq<string> {
    if secrets == [] then []
    else
      var before := FirstOccurrences(secrets[..|secrets| - 1]);
      var last := secrets[|secrets| - 1];
      if last != "" && last !in before then before + [last] else before
  }

  lemma {:induction false} FirstOccurrencesIs(secrets: seq<string>)
    ensures SameSecrets(FirstOccurrences(secrets), secrets)
    ensures "" !in FirstOccurrences(secrets)
    ensures forall i, j :: 0 <= i < j < |FirstOccurrences(secrets)| ==>
              FirstOccurrences(secrets)[i] != FirstOccurrences(secrets)[j]
  {
    if secrets != [] {
      var init := secrets[..|secrets| - 1];
      FirstOccurrencesIs(init);
      assert secrets == init + [secrets[|secrets| - 1]];
    }
  }

  /** `dedupe_secrets`: the loop keeps every non-empty secret once, in order of first occurrence. */
  method DedupeSecrets(secrets: seq<string>) returns (result: seq<string>)
    ensures result == FirstOccurrences(secrets)
  {
    var seen: set<string> := {};
    result := [];
    for k := 0 to |secrets|
      invariant seen == set s | s in result
      invariant result == FirstOccurrences(secrets[..k])
    {
      assert secrets[..k + 1][..k] == secrets[..k];
      if secrets[k] != "" && secrets[k] !in seen {
        seen := seen + {secrets[k]};
        result := result + [secrets[k]];
      }
    }
    assert secrets[..|secrets|] == secrets;
  }

  /** The longest secret that matches at `i`, as both redactors search for it. */
  method LongestAt(text: string, i: nat, secrets: seq<string>) returns (matched: nat)
    requires i <= |text|
    ensures matched == MatchLen(text[i..], secrets)
  {
    matched := 0;
    MatchLenIs(text[i..], []);
    for k := 0 to |secrets|
      invariant matched <= |text| - i
      invariant matched > 0 ==> text[i..][..matched] in secrets[..k]
      invariant forall s :: s in secrets[..k] && s <= text[i..] ==> |s| <= matched
    {
      assert secrets[..k + 1] == secrets[..k] + [secrets[k]];
      if secrets[k] <= text[i..] && |secrets[k]| > matched {
        matched := |secrets[k]|;
        assert text[i..][..matched] == secrets[k];
      }
    }
    assert secrets[..|secrets|] == secrets;
    MatchLenIs(text[i..], secrets);
    var n := MatchLen(text[i..], secrets);
    if n > 0 { assert text[i..][..n] <= text[i..]; }
    if matched > 0 { assert text[i..][..matched] <= text[i..]; }
  }

  /** `redact_text`: the index loop computes the leftmost-longest redaction. */
  method RedactText(text: string, secrets: seq<string>) returns (out: string)
    ensures out == Redact(text, secrets)
  {
    var clean := DedupeSecrets(secrets);
    FirstOccurrencesIs(secrets);
    RedactOfSet(text, secrets, clean);
    if clean == [] {
      RedactNothing(text, clean);
      return text;
    }
    out := RedactLoop(text, clean);
  }

  method RedactLoop(text: string, clean: seq<string>) returns (out: string)
    ensures out == Redact(text, clean)
  {
    out := "";
    var i := 0;
    RedactedStart(text, clean);
    while i < |text|
      invariant 0 <= i <= |text|
      invariant RedactedTo(text, i, out, clean)
    {
      var matched := LongestAt(text, i, clean);
      RedactedStep(text, i, out, clean);
      if matched > 0 {
        out := out + REDACTED;
        i := i + matched;
      } else {
        out := out + [text[i]];
        i := i + 1;
      }
    }
    RedactedEnd(text, out, clean);
  }

  /** A text in which no secret starts anywhere. */
  lemma RedactNothing(text: string, secrets: seq<string>)
    requires Quiet(text, |text|, secrets)
    ensures Redact(text, secrets) == text
  {
    RedactQuiet(text, |text|, secrets);
    assert text[..|text|] == text && text[|text|..] == "";
  }

  /** What the loop has written once it stands at `i`. */
  ghost predicate RedactedTo(text: string, i: nat, out: string, secrets: seq<string>)
    requires i <= |text|
  {
    Redact(text, secrets) == out + Redact(text[i..], secrets)
  }

  lemma RedactedStart(text: string, secrets: seq<string>)
    ensures RedactedTo(text, 0, "", secrets)
  {
    assert text[0..] == text;
  }

  lemma RedactedStep(text: string, i: nat, out: string, secrets: seq<string>)
    requires i < |text| && RedactedTo(text, i, out, secrets)
    ensures var n := MatchLen(text[i..], secrets);
            if n > 0 then RedactedTo(text, i + n, out + REDACTED, secrets)
            else RedactedTo(text, i + 1, out + [text[i]], secrets)
  {
    var n := MatchLen(text[i..], secrets);
    RedactStep(text, i, secrets);
    if n > 0 {
      AppendAssoc(out, REDACTED, Redact(text[i + n..], secrets));
    } else {
      AppendAssoc(out, [text[i]], Redact(text[i + 1..], secrets));
    }
  }

  lemma RedactedEnd(text: string, out: string, secrets: seq<string>)
    requires RedactedTo(text, |text|, out, secrets)
    ensures out == Redact(text, secrets)
  {
    assert text[|text|..] == "" && out + "" == out;
  }

  lemma AppendAssoc(a: string, b: string, c: string)
    ensures a + (b + c) == a + b + c
  {
  }

  lemma RedactStep(text: string, i: nat, secrets: seq<string>)
    requires i < |text|
    ensures var n := MatchLen(text[i..], secrets);
            Redact(text[i..], secrets)
            == if n > 0 then REDACTED + Redact(text[i + n..], secrets) else [text[i]] + Redact(text[i + 1..], secrets)
  {
    var n := MatchLen(text[i..], secrets);
    assert text[i..][n..] == text[i + n..];
    assert text[i..][1..] == text[i + 1..];
  }
}
