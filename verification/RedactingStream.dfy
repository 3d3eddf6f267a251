/**
  The whole pipeline of one stream, `RedactingStream`: bytes are decoded, framed into bounded lines,
  neutralized, redacted incrementally, and the tail of what was emitted is retained.
 */
module RedactingStream {
  import opened Common
  import opened Text
  import opened Utf8
  import opened Neutralizer
  import opened Redaction
  import opened RedactionAgreement
  import opened LastCharacter
  import opened Tail
  import opened Framer
  import Framing

  const CONFIG := Framing.Config(Framing.LINE_LIMIT, Framing.OVERFLOW)

  /** `finish` feeds the framer's last pieces, and then the empty text, with the end already known. */
  function FlushAll(pieces: seq<string>, held: string, secrets: seq<string>, ending: Ending): string {
    if pieces == [] then Drain(held, secrets, ending).0
    else
      var (out, held') := Drain(held + pieces[0], secrets, ending);
      out + FlushAll(pieces[1..], held', secrets, ending)
  }

  lemma {:induction false} DrainEndsEmpty(p: string, secrets: seq<string>, ending: Ending)
    requires !ending.Open?
    ensures Drain(p, secrets, ending).1 == ""
    decreases |p|
  {
    if p != "" {
      var start := Leftmost(p, secrets);
      if start < |p| {
        var end := start + MatchLen(p[start..], secrets);
        DrainMatch(p, start, end, secrets, ending);
        DrainEndsEmpty(p[end..], secrets, ending);
      }
    }
  }

  /** Emitting piece by piece at the end: each piece is redacted like a text of its own. */
  function FinalPieces(pieces: seq<string>, secrets: seq<string>, abort: bool): string {
    if pieces == [] then "" else Final(pieces[0], secrets, abort) + FinalPieces(pieces[1..], secrets, abort)
  }

  lemma {:induction false} FlushAllIs(pieces: seq<string>, held: string, secrets: seq<string>, abort: bool)
    ensures FlushAll(pieces, held, secrets, if abort then Aborted else Clean)
         == if pieces == [] then Final(held, secrets, abort)
            else Final(held + pieces[0], secrets, abort) + FinalPieces(pieces[1..], secrets, abort)
  {
    var ending := if abort then Aborted else Clean;
    if pieces == [] {
      DrainFlush(held, secrets, abort);
    } else {
      DrainFlush(held + pieces[0], secrets, abort);
      DrainEndsEmpty(held + pieces[0], secrets, ending);
      FlushAllIs(pieces[1..], "", secrets, abort);
      if pieces[1..] == [] {
      } else {
        assert "" + pieces[1..][0] == pieces[1..][0];
      }
    }
  }

  /** Everything a stream emits: `pieces` before its end, and the framer's last `pieces` at its end. */
  function Emitted(pieces: seq<string>, last: seq<string>, secrets: seq<string>, abort: bool): string {
    Feed(pieces, "", secrets).0 + FlushAll(last, Feed(pieces, "", secrets).1, secrets, if abort then Aborted else Clean)
  }

  /**
    The text the stream was fed is redacted as a whole up to the first of the framer's last pieces;
    each further last piece is redacted alone.
   */
  lemma EmittedIs(pieces: seq<string>, last: seq<string>, secrets: seq<string>, abort: bool)
    requires Guarded(secrets)
    ensures Emitted(pieces, last, secrets, abort)
         == if last == [] then Final(Join(pieces), secrets, abort)
            else Final(Join(pieces) + last[0], secrets, abort) + FinalPieces(last[1..], secrets, abort)
  {
    var (out, held) := Feed(pieces, "", secrets);
    FlushAllIs(last, held, secrets, abort);
    if last == [] {
      FeedAgrees(pieces, "", secrets, abort);
      assert "" + Join(pieces) == Join(pieces);
    } else {
      FeedAgrees(pieces + [last[0]], "", secrets, abort);
      FeedSnoc(pieces, "", last[0], secrets);
      JoinSnoc(pieces, last[0]);
      assert "" + Join(pieces + [last[0]]) == Join(pieces) + last[0];
      DrainOpen(held + last[0], "", secrets, abort);
      EmptyRight(held + last[0]);
      var (out', held') := Drain(held + last[0], secrets, Open);
      EmptyRight(held');
      var rest := FinalPieces(last[1..], secrets, abort);
      Framing.Concat3(out, Final(held + last[0], secrets, abort), rest);
      Framing.Concat3(out, out', Final(held', secrets, abort));
    }
  }

  lemma EmptyRight(s: string)
    ensures s + "" == s
  {
  }

  lemma {:induction false} FeedSnoc(pieces: seq<string>, held: string, last: string, secrets: seq<string>)
    ensures
      var before := Feed(pieces, held, secrets);
      var after := Drain(before.1 + last, secrets, Open);
      Feed(pieces + [last], held, secrets) == (before.0 + after.0, after.1)
  {
    if pieces == [] {
      assert pieces + [last] == [last] && [last][1..] == [];
      var after := Drain(held + last, secrets, Open);
      assert after.0 + "" == after.0 && "" + after.0 == after.0;
    } else {
      var first := Drain(held + pieces[0], secrets, Open);
      assert (pieces + [last])[1..] == pieces[1..] + [last];
      FeedSnoc(pieces[1..], first.1, last, secrets);
      var before := Feed(pieces[1..], first.1, secrets);
      Framing.Concat3(first.0, before.0, Drain(before.1 + last, secrets, Open).0);
    }
  }

  // ---------------------------------------------------------------- the source's searches

  /** `_leftmost_longest`: the first position with a match, and how long the match is (0: none). */
  method LeftmostLongest(text: string, secrets: seq<string>) returns (start: nat, matched: nat)
    ensures start == Leftmost(text, secrets)
    ensures matched == if start < |text| then MatchLen(text[start..], secrets) else 0
  {
    for i := 0 to |text|
      invariant Leftmost(text, secrets) == LeftmostFrom(text, i, secrets)
    {
      matched := LongestAt(text, i, secrets);
      if matched > 0 { return i, matched; }
    }
    return |text|, 0;
  }

  /** The inner loop of `_partial_secret_suffix_len`: a suffix longer than `best` that begins `secret`. */
  method SuffixBeginning(text: string, secret: string, best: nat) returns (found: nat)
    requires best <= |text|
    ensures best <= found <= |text|
    ensures found > best ==> SuffixStarts(text, found, secret)
    ensures forall n: nat | found < n <= |text| :: !SuffixStarts(text, n, secret)
  {
    var length := if |secret| - 1 < |text| then |secret| - 1 else |text|;
    while length > best
      invariant length <= |text| && length < |secret|
      invariant forall n: nat | length < n <= |text| :: !SuffixStarts(text, n, secret)
      decreases length
    {
      if text[|text| - length..] == secret[..length] { return length; }
      length := length - 1;
    }
    return best;
  }

  /** `_partial_secret_suffix_len`: per secret, only longer suffixes than the best so far are tried. */
  method PartialSecretSuffixLen(text: string, secrets: seq<string>) returns (best: nat)
    ensures best == |text| - PartialCut(text, 0, secrets)
  {
    best := 0;
    for k := 0 to |secrets|
      invariant best <= |text|
      invariant best > 0 ==> CandidateAt(text, |text| - best, secrets)
      invariant forall t, n: nat | t in secrets[..k] && best < n <= |text| :: !SuffixStarts(text, n, t)
    {
      var found := SuffixBeginning(text, secrets[k], best);
      if found > best { assert text[|text| - found..] < secrets[k] && secrets[k] in secrets; }
      best := found;
      assert secrets[..k + 1] == secrets[..k] + [secrets[k]];
    }
    assert secrets[..|secrets|] == secrets;
    BestSuffix(text, best, secrets);
  }

  /** The last `n` characters of `text` begin the longer secret `t`. */
  ghost predicate SuffixStarts(text: string, n: nat, t: string)
    requires n <= |text|
  {
    text[|text| - n..] < t
  }

  lemma BestSuffix(text: string, best: nat, secrets: seq<string>)
    requires best <= |text| && (best > 0 ==> CandidateAt(text, |text| - best, secrets))
    requires forall t, n: nat | t in secrets && best < n <= |text| :: !SuffixStarts(text, n, t)
    ensures best == |text| - PartialCut(text, 0, secrets)
  {
    PartialCutIs(text, 0, secrets);
    var cut := PartialCut(text, 0, secrets);
    if cut < |text| - best {
      var t :| t in secrets && text[cut..] < t;
      assert SuffixStarts(text, |text| - cut, t);
    }
  }

  /** A stream that is still open: what its parts hold is determined by the bytes fed so far. */
  ghost predicate InProgress(fed: seq<byte>, pieces: seq<string>, line: Framing.Line, held: seq<byte>) {
    && Join(pieces) == Framing.Run(Framing.FRESH, Decode(fed).0, CONFIG).1
    && line == Framing.Run(Framing.FRESH, Decode(fed).0, CONFIG).0
    && held == Decode(fed).1
  }

  /** The text of a finished stream. */
  ghost predicate Ended(fed: seq<byte>, pieces: seq<string>, last: seq<string>) {
    Join(pieces) + Join(last) == Framing.Frame(DecodeAll(fed), CONFIG)
  }

  /** One more block of bytes. */
  lemma FedMore(fed: seq<byte>, data: seq<byte>, pieces: seq<string>, out: seq<string>,
                line: Framing.Line, held: seq<byte>, line': Framing.Line, held': seq<byte>)
    requires InProgress(fed, pieces, line, held)
    requires Join(out) == Framing.Run(line, Decode(held + data).0, CONFIG).1
    requires line' == Framing.Run(line, Decode(held + data).0, CONFIG).0
    requires held' == Decode(held + data).1
    ensures InProgress(fed + data, pieces + out, line', held')
  {
    DecodeSplit(fed, data);
    Framing.RunSplit(Framing.FRESH, Decode(fed).0, Decode(held + data).0, CONFIG);
    JoinAppend(pieces, out);
  }

  /** The end of the stream. */
  lemma EndedText(fed: seq<byte>, pieces: seq<string>, out: seq<string>, line: Framing.Line, held: seq<byte>)
    requires InProgress(fed, pieces, line, held)
    requires var end := Framing.Run(line, Flush(held), CONFIG); Join(out) == end.1 + Framing.LineEnd(end.0)
    ensures Ended(fed, pieces, out)
  {
    Framing.RunSplit(Framing.FRESH, Decode(fed).0, Flush(held), CONFIG);
    var end := Framing.Run(line, Flush(held), CONFIG);
    Framing.Concat3(Join(pieces), end.1, Framing.LineEnd(end.0));
  }

  /**
    When the end adds at most one piece, everything emitted is the redaction of the whole text.
   */
  lemma EmittedWhole(pieces: seq<string>, last: seq<string>, secrets: seq<string>, abort: bool)
    requires Guarded(secrets) && |last| <= 1
    ensures Emitted(pieces, last, secrets, abort) == Final(Join(pieces) + Join(last), secrets, abort)
  {
    EmittedIs(pieces, last, secrets, abort);
    if last == [] {
      EmptyRight(Join(pieces));
    } else {
      assert last[1..] == [];
      EmptyRight(last[0]);
      EmptyRight(Final(Join(pieces) + last[0], secrets, abort));
    }
  }

  // ---------------------------------------------------------------- an end inside a UTF-8 sequence

  /** Where an unfinished stream stands, as its bytes determine it. */
  function LineOf(fed: seq<byte>): Framing.Line {
    Framing.Run(Framing.FRESH, Decode(fed).0, CONFIG).0
  }

  /** The bytes stop inside a UTF-8 sequence, right after an ESC, in a line with room for what is missing. */
  predicate StopsAfterEsc(fed: seq<byte>) {
    Framing.EndsInTwo(LineOf(fed), Decode(fed).1, CONFIG)
  }

  /** The last pieces of such a stream: the ESC as it is shown, and the replacement character. */
  const ESC_PIECES: seq<string> := ["\\x1b", [REPLACEMENT]]

  lemma LastPieces(fed: seq<byte>, last: seq<string>)
    requires Framing.EndPieces(LineOf(fed), Decode(fed).1, CONFIG, last)
    ensures if StopsAfterEsc(fed) then last == ESC_PIECES else |last| <= 1
  {
    if StopsAfterEsc(fed) {
      Framing.RunEscAlone(Framing.FRESH, Decode(fed).0, CONFIG);
      ShownEsc();
    }
  }

  lemma ShownEsc()
    ensures Controls.Visible([Controls.ESC]) == "\\x1b"
  {
    assert [Controls.ESC][1..] == "";
  }

  /** Then the replacement character is redacted apart from the text before it. */
  lemma EmittedApart(pieces: seq<string>, secrets: seq<string>, abort: bool)
    requires Guarded(secrets)
    ensures Emitted(pieces, ESC_PIECES, secrets, abort)
         == Final(Join(pieces) + ESC_PIECES[0], secrets, abort) + Final([REPLACEMENT], secrets, abort)
  {
    EmittedIs(pieces, ESC_PIECES, secrets, abort);
    assert ESC_PIECES[1..] == [[REPLACEMENT]] && [[REPLACEMENT]][1..] == [];
    EmptyRight(Final([REPLACEMENT], secrets, abort));
  }

  /** What a stream emits for a text whose last character is redacted apart. */
  predicate EmittedAs(emitted: string, text: string, secrets: seq<string>, abort: bool) {
    && text != ""
    && emitted == Final(text[..|text| - 1], secrets, abort) + Final([REPLACEMENT], secrets, abort)
    && (!abort ==> (emitted == Redact(text, secrets) <==> !EndsInSecret(text, secrets)))
  }

  lemma ApartAs(before: string, secrets: seq<string>, abort: bool)
    ensures EmittedAs(Final(before, secrets, abort) + Final([REPLACEMENT], secrets, abort),
                      before + [REPLACEMENT], secrets, abort)
  {
    SplitLast(before, REPLACEMENT);
    FinalClean(before, secrets);
    FinalClean([REPLACEMENT], secrets);
    LastApart(before + [REPLACEMENT], 0, secrets);
  }

  lemma SplitLast(before: string, c: char)
    ensures var text := before + [c];
            text[0..] == text && text[..|text| - 1][0..] == before && text[|text| - 1..] == [c]
  {
  }

  /** What the bytes of a finished stream, and the way it ended, say of everything it emitted. */
  predicate OutputIs(fed: seq<byte>, emitted: string, secrets: seq<string>, abort: bool) {
    var text := Framing.Frame(DecodeAll(fed), CONFIG);
    if StopsAfterEsc(fed) then EmittedAs(emitted, text, secrets, abort)
    else emitted == Final(text, secrets, abort) && (!abort ==> emitted == Redact(text, secrets))
  }

  lemma OutputOfPieces(fed: seq<byte>, pieces: seq<string>, last: seq<string>, secrets: seq<string>, abort: bool)
    requires Guarded(secrets) && Ended(fed, pieces, last)
    requires Framing.EndPieces(LineOf(fed), Decode(fed).1, CONFIG, last)
    ensures OutputIs(fed, Emitted(pieces, last, secrets, abort), secrets, abort)
  {
    LastPieces(fed, last);
    if StopsAfterEsc(fed) {
      EmittedApart(pieces, secrets, abort);
      JoinTwo(ESC_PIECES[0], [REPLACEMENT]);
      Framing.Concat3(Join(pieces), ESC_PIECES[0], [REPLACEMENT]);
      ApartAs(Join(pieces) + ESC_PIECES[0], secrets, abort);
    } else {
      EmittedWhole(pieces, last, secrets, abort);
      FinalClean(Join(pieces) + Join(last), secrets);
    }
  }

  /** Such a stream emits a secret made of a shown ESC and the replacement character as it is. */
  lemma SplitSecretLeaks()
    ensures
      var fed: seq<byte> := [0x1B, 0xC3];
      var secrets := [ESC_PIECES[0] + [REPLACEMENT]];
      && Guarded(secrets) && StopsAfterEsc(fed)
      && EndsInSecret(Framing.Frame(DecodeAll(fed), CONFIG), secrets)
  {
    var secret := ESC_PIECES[0] + [REPLACEMENT];
    OneGuarded(secret);
    EscThenLead();
    assert secret[0..] == secret;
    assert CrossesAt(secret, 0, 0, [secret]);
  }

  lemma OneGuarded(secret: string)
    ensures Guarded([secret])
  {
    NoInnerGuarded([secret]);
  }

  /** ESC and the first byte of a two-byte sequence. */
  lemma EscThenLead()
    ensures
      var fed: seq<byte> := [0x1B, 0xC3];
      StopsAfterEsc(fed) && Framing.Frame(DecodeAll(fed), CONFIG) == ESC_PIECES[0] + [REPLACEMENT]
  {
    var fed: seq<byte> := [0x1B, 0xC3];
    var first, last := Item(Controls.ESC, 1), Item(REPLACEMENT, 1);
    assert fed[1..] == [0xC3];
    assert Decode([0xC3]) == ([], [0xC3]);
    assert Utf8.Next(fed) == Some(first);
    assert [first] + [] == [first];
    assert Decode(fed) == ([first], [0xC3]);
    var line := Framing.Line(Controls.State(Controls.Esc, [Controls.ESC], 1), 1, false);
    assert Framing.Step(Framing.FRESH, first, CONFIG) == (line, "");
    assert [first][1..] == [];
    assert Framing.Run(Framing.FRESH, [first], CONFIG) == (line, "" + "");
    ShownEsc();
    var end := Framing.Line(Controls.START, 2, false);
    assert Framing.Step(line, last, CONFIG) == (end, ESC_PIECES[0] + [REPLACEMENT]);
    Framing.RunSnoc(Framing.FRESH, [first], last, CONFIG);
    assert DecodeAll(fed) == [first] + [last];
  }

  class Redactor {
    const secrets: seq<string>
    const longest: nat
    const tailLimit: int
    const framer: LineFramer
    var pending: string
    var eof: bool
    var redactUnresolved: bool
    var tail: string
    var tailBytes: nat

    ghost var fed: seq<byte>        // every byte fed so far
    ghost var pieces: seq<string>   // every text the framer made of them before the end
    ghost var last: seq<string>     // every text the framer made at the end
    ghost var emitted: string       // everything emitted so far

    ghost function Repr(): set<object>
      reads this, framer
    {
      {this} + framer.Repr()
    }

    ghost predicate TailKept()
      reads this`tail, this`tailBytes, this`emitted
    {
      tail == Fit(emitted, tailLimit) && tailBytes == Size(tail)
    }

    /** What a finished stream has emitted. */
    ghost predicate EmittedAll()
      reads this`emitted, this`pieces, this`last, this`redactUnresolved
    {
      emitted == Emitted(pieces, last, secrets, redactUnresolved)
    }

    /** What has been emitted and what is held is what feeding `pieces` gives. */
    ghost predicate FedPieces()
      reads this`emitted, this`pending, this`pieces
    {
      (emitted, pending) == Feed(pieces, "", secrets)
    }

    ghost predicate Valid()
      reads this, Repr(), framer.Repr()
    {
      && framer.Valid() && framer.cfg == CONFIG && this !in framer.Repr() && framer.eof == eof
      && longest == Longest(secrets)
      && TailKept()
      && (!eof ==>
            && FedPieces()
            && InProgress(fed, pieces, framer.View(), framer.decoder.held))
      && (eof ==>
            && EmittedAll()
            && Framing.EndPieces(LineOf(fed), Decode(fed).1, CONFIG, last)
            && Ended(fed, pieces, last))
    }

    constructor (secrets: seq<string>, tailLimit: int)
      ensures Valid() && fresh(Repr()) && !eof
      ensures this.secrets == FirstOccurrences(secrets) && this.tailLimit == tailLimit
      ensures fed == [] && emitted == "" && pending == ""
    {
      var clean := DedupeSecrets(secrets);
      this.secrets := clean;
      longest := Longest(clean);
      this.tailLimit := tailLimit;
      framer := new LineFramer(CONFIG);
      pending, eof, redactUnresolved, tail, tailBytes := "", false, false, "", 0;
      fed, pieces, last, emitted := [], [], [], "";
    }

    ghost function EndingNow(): Ending
      reads this
    {
      if !eof then Open else if redactUnresolved then Aborted else Clean
    }

    /** `_append_tail`. */
    method AppendTail(text: string)
      requires TailKept()
      modifies this`tail, this`tailBytes, this`emitted
      ensures emitted == old(emitted) + text
      ensures TailKept()
    {
      FitAppend(emitted, text, tailLimit);
      ghost var all := tail + text;
      for i := 0 to |text|
        invariant emitted == old(emitted)
        invariant tail + text[i..] == all && tailBytes == Size(tail)
      {
        SizeAppend(tail, [text[i]]);
        assert tail + [text[i]] + text[i + 1..] == tail + text[i..];
        assert Size([text[i]]) == Width(text[i]) by { assert [text[i]][1..] == ""; }
        tail := tail + [text[i]];
        tailBytes := tailBytes + Width(text[i]);
      }
      EmptyRight(tail);
      assert text[|text|..] == "";
      while tailBytes > tailLimit && tail != ""
        invariant emitted == old(emitted)
        invariant Fit(tail, tailLimit) == Fit(all, tailLimit) && tailBytes == Size(tail)
        decreases |tail|
      {
        tailBytes := tailBytes - Width(tail[0]);
        tail := tail[1..];
      }
      emitted := emitted + text;
    }

    /** What the loop of `_feed_text` has emitted, and what draining the rest will add. */
    ghost predicate Drained(whole: (string, string), chunks: seq<string>, rest: string)
      reads this
    {
      whole == (Join(chunks) + Drain(rest, secrets, EndingNow()).0, Drain(rest, secrets, EndingNow()).1)
    }

    lemma DrainedStart(p: string)
      ensures Drained(Drain(p, secrets, EndingNow()), [], p)
    {
      var out := Drain(p, secrets, EndingNow()).0;
      assert Join<char>([]) + out == out;
    }

    /** One committed match. */
    lemma DrainedMatch(whole: (string, string), chunks: seq<string>, p: string, start: nat, end: nat)
      requires Drained(whole, chunks, p)
      requires start == Leftmost(p, secrets) < |p| && end == start + MatchLen(p[start..], secrets)
      requires EndingNow().Open? ==> |p| - start >= Longest(secrets)
      ensures Drained(whole, (if start > 0 then chunks + [p[..start]] else chunks) + [REDACTED], p[end..])
    {
      var before := if start > 0 then chunks + [p[..start]] else chunks;
      var rest := Drain(p[end..], secrets, EndingNow()).0;
      JoinPrefix(chunks, p[..start]);
      JoinSnoc(before, REDACTED);
      DrainMatch(p, start, end, secrets, EndingNow());
      Regrouped(Join(chunks), p[..start], REDACTED, rest);
      assert Join(before + [REDACTED]) + rest == whole.0;
    }

    static lemma Regrouped(a: string, b: string, c: string, d: string)
      ensures a + (b + c + d) == a + b + c + d
    {
    }

    /** The last pass: `rest` is emitted and `held` stays. */
    lemma DrainedEnd(whole: (string, string), chunks: seq<string>, p: string, rest: seq<string>)
      requires Drained(whole, chunks, p) && Join(rest) == Drain(p, secrets, EndingNow()).0
      ensures whole == (Join(chunks + rest), Drain(p, secrets, EndingNow()).1)
    {
      JoinAppend(chunks, rest);
    }

    /** The loop of `_feed_text` over the overlap, without the tail. */
    method DrainPending() returns (chunks: seq<string>)
      requires longest == Longest(secrets)
      modifies this`pending
      ensures Join(chunks) == Drain(old(pending), secrets, EndingNow()).0
      ensures pending == Drain(old(pending), secrets, EndingNow()).1
    {
      chunks := [];
      ghost var whole := Drain(pending, secrets, EndingNow());
      DrainedStart(pending);
      while pending != ""
        invariant Drained(whole, chunks, pending)
        decreases |pending|
      {
        var done;
        done, chunks := DrainOnce(whole, chunks);
        if done {
          return;
        }
      }
      assert chunks + [] == chunks;
      DrainedEnd(whole, chunks, pending, []);
    }

    /** One pass of that loop. */
    method DrainOnce(ghost whole: (string, string), chunks: seq<string>) returns (done: bool, chunks': seq<string>)
      requires longest == Longest(secrets) && pending != "" && Drained(whole, chunks, pending)
      modifies this`pending
      ensures done ==> whole == (Join(chunks'), pending)
      ensures !done ==> Drained(whole, chunks', pending) && |pending| < |old(pending)|
    {
      var start, matched := LeftmostLongest(pending, secrets);
      if start == |pending| {
        ghost var was := pending;
        var rest := FlushQuietPending();
        DrainedEnd(whole, chunks, was, rest);
        return true, chunks + rest;
      }
      if !(eof || |pending| - start >= longest) {
        chunks' := HoldFrom(whole, chunks, start);
        return true, chunks';
      }
      chunks' := CommitMatch(whole, chunks, start, start + matched);
      return false, chunks';
    }

    /** A committed match: the text before it and the marker are emitted. */
    method CommitMatch(ghost whole: (string, string), chunks: seq<string>, start: nat, end: nat)
      returns (chunks': seq<string>)
      requires Drained(whole, chunks, pending)
      requires start == Leftmost(pending, secrets) < |pending|
      requires end == start + MatchLen(pending[start..], secrets)
      requires EndingNow().Open? ==> |pending| - start >= Longest(secrets)
      modifies this`pending
      ensures Drained(whole, chunks', pending) && |pending| < |old(pending)|
    {
      DrainedMatch(whole, chunks, pending, start, end);
      chunks' := (if start > 0 then chunks + [pending[..start]] else chunks) + [REDACTED];
      pending := pending[end..];
    }

    /** A match that is not committed yet: the text before it is emitted and the rest held. */
    method HoldFrom(ghost whole: (string, string), chunks: seq<string>, start: nat) returns (chunks': seq<string>)
      requires Drained(whole, chunks, pending) && pending != ""
      requires start == Leftmost(pending, secrets) < |pending|
      requires EndingNow().Open? && |pending| - start < Longest(secrets)
      modifies this`pending
      ensures whole == (Join(chunks'), pending)
    {
      JoinPrefix(chunks, pending[..start]);
      chunks' := if start > 0 then chunks + [pending[..start]] else chunks;
      pending := pending[start..];
    }

    static lemma JoinPrefix(chunks: seq<string>, x: string)
      ensures Join(if |x| > 0 then chunks + [x] else chunks) == Join(chunks) + x
    {
      if |x| > 0 { JoinSnoc(chunks, x); } else { EmptyRight(Join(chunks)); }
    }

    /** The branch of `_feed_text` for an overlap without a match. */
    method FlushQuietPending() returns (chunks: seq<string>)
      requires longest == Longest(secrets) && pending != "" && Leftmost(pending, secrets) == |pending|
      modifies this`pending
      ensures Join(chunks) == Drain(old(pending), secrets, EndingNow()).0
      ensures pending == Drain(old(pending), secrets, EndingNow()).1
    {
      chunks := [];
      ghost var was := pending;
      if eof {
        if redactUnresolved {
          var partial := PartialSecretSuffixLen(pending, secrets);
          var safe := pending[..|pending| - partial];
          JoinPrefix([], safe);
          chunks := if |safe| > 0 then [] + [safe] else [];
          if partial > 0 {
            JoinSnoc(chunks, REDACTED);
            chunks := chunks + [REDACTED];
          } else {
            EmptyRight(safe);
          }
          assert Join<char>([]) + safe == safe;
        } else {
          JoinSnoc([], pending);
          chunks := [pending];
          assert [] + [was] == chunks && Join<char>([]) + was == was;
        }
        pending := "";
        return;
      }
      var keep := if longest > 0 then longest - 1 else 0;
      if |pending| <= keep {
        assert was[0..] == was && was[..0] == "";
        return;
      }
      var emit := pending[..|pending| - keep];
      JoinSnoc([], emit);
      chunks := [emit];
      assert [] + [emit] == chunks && Join<char>([]) + emit == emit;
      pending := pending[|pending| - keep..];
    }

    /** `_feed_text`. */
    method FeedText(text: string) returns (chunks: seq<string>)
      requires longest == Longest(secrets) && TailKept()
      modifies this`pending, this`tail, this`tailBytes, this`emitted
      ensures Join(chunks) == Drain(old(pending) + text, secrets, EndingNow()).0
      ensures pending == Drain(old(pending) + text, secrets, EndingNow()).1
      ensures emitted == old(emitted) + Join(chunks)
      ensures TailKept()
    {
      if text != "" { pending := pending + text; } else { EmptyRight(pending); }
      chunks := DrainPending();
      AppendAll(chunks);
    }

    method AppendAll(chunks: seq<string>)
      requires TailKept()
      modifies this`tail, this`tailBytes, this`emitted
      ensures emitted == old(emitted) + Join(chunks)
      ensures TailKept()
    {
      ghost var start := emitted;
      EmptyRight(emitted);
      for i := 0 to |chunks|
        invariant emitted == start + Join(chunks[..i])
        invariant TailKept()
      {
        assert chunks[..i + 1] == chunks[..i] + [chunks[i]];
        JoinSnoc(chunks[..i], chunks[i]);
        Framing.Concat3(start, Join(chunks[..i]), chunks[i]);
        AppendTail(chunks[i]);
      }
      assert chunks[..|chunks|] == chunks;
    }

    /** Feed texts one after another, keeping the history of what was fed. */
    method FeedTexts(texts: seq<string>) returns (chunks: seq<string>)
      requires longest == Longest(secrets) && TailKept()
      requires !eof && FedPieces()
      modifies this`pending, this`tail, this`tailBytes, this`emitted, this`pieces
      ensures emitted == old(emitted) + Join(chunks)
      ensures TailKept()
      ensures pieces == old(pieces) + texts && FedPieces()
    {
      chunks := [];
      ghost var start, before := emitted, pieces;
      EmptyRight(emitted);
      assert pieces + [] == pieces;
      for i := 0 to |texts|
        invariant emitted == start + Join(chunks)
        invariant TailKept()
        invariant pieces == before + texts[..i]
        invariant FedPieces()
      {
        var more := FeedPiece(texts[i]);
        Framing.Concat3(start, Join(chunks), Join(more));
        JoinAppend(chunks, more);
        chunks := chunks + more;
        TakeMore(before, texts, i);
      }
      assert texts[..|texts|] == texts;
    }

    method FeedPiece(text: string) returns (more: seq<string>)
      requires longest == Longest(secrets) && TailKept()
      requires !eof && FedPieces()
      modifies this`pending, this`tail, this`tailBytes, this`emitted, this`pieces
      ensures emitted == old(emitted) + Join(more)
      ensures TailKept()
      ensures pieces == old(pieces) + [text] && FedPieces()
    {
      FeedSnoc(pieces, "", text, secrets);
      more := FeedText(text);
      pieces := pieces + [text];
    }

    static lemma TakeMore(before: seq<string>, texts: seq<string>, i: nat)
      requires i < |texts|
      ensures before + texts[..i] + [texts[i]] == before + texts[..i + 1]
    {
    }

    /** `feed_bytes`; the source raises from the framer once the stream is finished. */
    method FeedBytes(data: seq<byte>) returns (r: Fed)
      requires Valid()
      modifies Repr()
      ensures Valid() && fresh(Repr() - old(Repr())) && eof == old(eof)
      ensures !eof ==> r.Fed? && fed == old(fed) + data && emitted == old(emitted) + Join(r.chunks)
      ensures eof ==>
                && fed == old(fed) && emitted == old(emitted) && tail == old(tail)
                && (r == AlreadyFinished || data == [])
    {
      if data == [] {
        assert fed + data == fed;
        EmptyRight(emitted);
        r := Fed([]);
      } else {
        r := FeedNonEmpty(data);
      }
    }

    method FeedNonEmpty(data: seq<byte>) returns (r: Fed)
      requires Valid()
      modifies Repr()
      ensures Valid() && fresh(Repr() - old(Repr())) && eof == old(eof)
      ensures !eof ==> r.Fed? && fed == old(fed) + data && emitted == old(emitted) + Join(r.chunks)
      ensures eof ==> fed == old(fed) && emitted == old(emitted) && tail == old(tail) && r == AlreadyFinished
    {
      ghost var line, held := framer.View(), framer.decoder.held;
      var texts := framer.FeedBytes(data);
      if texts.AlreadyFinished? { return AlreadyFinished; }
      FedMore(fed, data, pieces, texts.chunks, line, held, framer.View(), framer.decoder.held);
      var chunks := FeedTexts(texts.chunks);
      fed := fed + data;
      r := Fed(chunks);
    }

    /** The framer's last pieces, then the empty text, all with the end already known. */
    method FlushTexts(texts: seq<string>) returns (chunks: seq<string>)
      requires longest == Longest(secrets) && TailKept()
      requires eof
      modifies this`pending, this`tail, this`tailBytes, this`emitted
      ensures emitted == old(emitted) + Join(chunks)
      ensures Join(chunks) == FlushAll(texts, old(pending), secrets, EndingNow())
      ensures TailKept()
    {
      chunks := [];
      ghost var whole := FlushAll(texts, pending, secrets, EndingNow());
      EmptyRight(emitted);
      assert Join<char>([]) + whole == whole;
      assert texts[0..] == texts;
      for i := 0 to |texts|
        invariant emitted == old(emitted) + Join(chunks)
        invariant TailKept()
        invariant whole == Join(chunks) + FlushAll(texts[i..], pending, secrets, EndingNow())
      {
        assert texts[i..][0] == texts[i] && texts[i..][1..] == texts[i + 1..];
        ghost var held := pending;
        var more := FeedText(texts[i]);
        Framing.Concat3(old(emitted), Join(chunks), Join(more));
        Framing.Concat3(Join(chunks), Join(more), FlushAll(texts[i + 1..], pending, secrets, EndingNow()));
        JoinAppend(chunks, more);
        chunks := chunks + more;
      }
      EmptyRight(pending);
      var more := FeedText("");
      Framing.Concat3(old(emitted), Join(chunks), Join(more));
      JoinAppend(chunks, more);
      chunks := chunks + more;
    }

    method Finish(abort: bool) returns (chunks: seq<string>)
      requires Valid()
      modifies Repr()
      ensures Valid() && fresh(Repr() - old(Repr())) && eof && fed == old(fed)
      ensures emitted == old(emitted) + Join(chunks)
      ensures !old(eof) ==> redactUnresolved == abort
      ensures old(eof) ==> chunks == []
    {
      if eof {
        EmptyRight(emitted);
        chunks := [];
      } else {
        chunks := FinishOpen(abort);
      }
    }

    /** End the framer and learn its last pieces. */
    method EndFramer() returns (texts: seq<string>)
      requires Valid() && !eof
      modifies framer.Repr()
      ensures framer.Valid() && this !in framer.Repr() && framer.eof
      ensures fresh(framer.Repr() - old(framer.Repr()))
      ensures Ended(fed, pieces, texts)
      ensures Framing.EndPieces(LineOf(fed), Decode(fed).1, CONFIG, texts)
    {
      ghost var line, held := framer.View(), framer.decoder.held;
      texts := framer.Finish();
      EndedText(fed, pieces, texts, line, held);
    }

    /** Redact the framer's last pieces, with the end known. */
    method FlushLast(texts: seq<string>, abort: bool) returns (chunks: seq<string>)
      requires longest == Longest(secrets) && !eof
      requires TailKept() && FedPieces()
      modifies this`eof, this`redactUnresolved, this`pending, this`tail, this`tailBytes, this`emitted, this`last
      ensures eof && redactUnresolved == abort && last == texts
      ensures emitted == old(emitted) + Join(chunks)
      ensures TailKept() && EmittedAll()
    {
      eof := true;
      redactUnresolved := abort;
      chunks := FlushTexts(texts);
      last := texts;
    }

    method FinishOpen(abort: bool) returns (chunks: seq<string>)
      requires Valid() && !eof
      modifies Repr()
      ensures Valid() && fresh(Repr() - old(Repr())) && eof && fed == old(fed)
      ensures emitted == old(emitted) + Join(chunks)
      ensures redactUnresolved == abort
    {
      var texts := EndFramer();
      chunks := FlushLast(texts, abort);
    }

    /**
      End to end, after any feeds and one finish: what was emitted is determined by the bytes alone,
      not by how they were cut. Unless they stop inside a UTF-8 sequence right after an ESC, it is the
      redaction of the framed, neutralized, decoded text; there the last replacement character is redacted
      apart, and after a clean end the two differ exactly when a secret takes in that character.
     */
    lemma OutputOfBytes()
      requires Valid() && eof && Guarded(secrets)
      ensures OutputIs(fed, emitted, secrets, redactUnresolved)
      ensures tail == Fit(emitted, tailLimit)
    {
      OutputOfPieces(fed, pieces, last, secrets, redactUnresolved);
    }
  }
}
