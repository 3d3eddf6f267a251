/** What becomes of redaction when the last character of a text is redacted apart from the rest. */
module LastCharacter {
  import opened Text
  import opened Redaction

  /** Redaction does not pass over this position: it is not strictly inside a match. */
  predicate Stands(text: string, from: nat, p: nat, secrets: seq<string>)
    requires from <= |text|
  {
    forall m :: m in Matches(text, from, secrets) ==> !(m.0 < p < m.1)
  }

  /** A secret of at least two characters ends the text, where redaction of the text before arrives. */
  predicate CrossesAt(text: string, from: nat, p: nat, secrets: seq<string>)
    requires text != "" && from <= |text| - 1
  {
    from <= p < |text| - 1 && text[p..] in secrets && Stands(text[..|text| - 1], from, p, secrets)
  }

  predicate Crosses(text: string, from: nat, secrets: seq<string>)
    requires text != "" && from <= |text| - 1
  {
    exists p :: from <= p < |text| - 1 && CrossesAt(text, from, p, secrets)
  }

  /** Where redaction goes from a position. */
  function Next(text: string, from: nat, secrets: seq<string>): (next: nat)
    requires from < |text|
    ensures from < next <= |text|
  {
    var n := MatchLen(text[from..], secrets);
    if n > 0 then from + n else from + 1
  }

  /** A secret of at least two characters takes in the last character of the text. */
  predicate EndsInSecret(text: string, secrets: seq<string>) {
    text != "" && Crosses(text, 0, secrets)
  }

  lemma MatchesNext(text: string, from: nat, secrets: seq<string>)
    requires from < |text|
    ensures var rest := Matches(text, Next(text, from, secrets), secrets);
            Matches(text, from, secrets)
            == if MatchLen(text[from..], secrets) > 0 then [(from, Next(text, from, secrets))] + rest else rest
  {
  }

  lemma StandsNext(text: string, from: nat, p: nat, secrets: seq<string>)
    requires from < |text| && p > from
    ensures Stands(text, from, p, secrets) <==>
              p >= Next(text, from, secrets) && Stands(text, Next(text, from, secrets), p, secrets)
  {
    var next := Next(text, from, secrets);
    var first, rest := [(from, next)], Matches(text, next, secrets);
    MatchesNext(text, from, secrets);
    assert forall m :: m in first + rest <==> m == (from, next) || m in rest;
  }

  /** When no secret is the whole text, what is found does not depend on its last character. */
  lemma MatchWithoutLast(text: string, secrets: seq<string>)
    requires text != ""
    ensures text in secrets ==> MatchLen(text, secrets) == |text|
    ensures text !in secrets ==> MatchLen(text, secrets) == MatchLen(text[..|text| - 1], secrets)
  {
    var init := text[..|text| - 1];
    MatchLenIs(text, secrets);
    MatchLenIs(init, secrets);
    MatchLenExtend(init, text[|text| - 1..], secrets);
    assert init + text[|text| - 1..] == text;
    var n := MatchLen(text, secrets);
    if text !in secrets && n > 0 {
      assert text[..|text|] == text;
      assert text[..n] == init[..n] && init[..n] <= init;
    }
  }

  /** Redacting the last character apart makes no difference to the redaction from a position on. */
  predicate SameApart(text: string, from: nat, secrets: seq<string>)
    requires text != "" && from <= |text| - 1
  {
    Redact(text[..|text| - 1][from..], secrets) + Redact(text[|text| - 1..], secrets) == Redact(text[from..], secrets)
  }

  /** It makes a difference exactly when a secret crosses into that character. */
  lemma {:induction false} LastApart(text: string, from: nat, secrets: seq<string>)
    requires text != "" && from <= |text| - 1 && text[|text| - 1] != '>'
    ensures SameApart(text, from, secrets) <==> !Crosses(text, from, secrets)
    decreases |text| - from
  {
    var init := text[..|text| - 1];
    if from == |init| {
      NothingApart(text, secrets);
    } else if text[from..] in secrets {
      assert CrossesAt(text, from, from, secrets);
      assert text[from..] == init[from..] + text[|init|..];
      WholeApart(init[from..], text[|init|..], text[from..], secrets);
    } else {
      var next := Next(init, from, secrets);
      LastApart(text, next, secrets);
      CrossesNext(text, from, next, secrets);
      SameNext(text, from, next, secrets);
    }
  }

  lemma NothingApart(text: string, secrets: seq<string>)
    requires text != ""
    ensures SameApart(text, |text| - 1, secrets)
  {
    assert text[..|text| - 1][|text| - 1..] == "";
    assert "" + Redact(text[|text| - 1..], secrets) == Redact(text[|text| - 1..], secrets);
  }

  lemma MatchFromWithoutLast(text: string, from: nat, secrets: seq<string>)
    requires text != "" && from < |text| && text[from..] !in secrets
    ensures MatchLen(text[from..], secrets) == MatchLen(text[..|text| - 1][from..], secrets)
  {
    var rest := text[from..];
    MatchWithoutLast(rest, secrets);
    assert rest[..|rest| - 1] == text[..|text| - 1][from..];
  }

  lemma SameNext(text: string, from: nat, next: nat, secrets: seq<string>)
    requires text != "" && from < |text| - 1 && text[from..] !in secrets
    requires next == Next(text[..|text| - 1], from, secrets)
    ensures SameApart(text, from, secrets) <==> SameApart(text, next, secrets)
  {
    var init := text[..|text| - 1];
    MatchFromWithoutLast(text, from, secrets);
    RedactNext(init, from, secrets);
    RedactNext(text, from, secrets);
    SameTails(Head(text, from, secrets), Redact(init[next..], secrets), Redact(text[|text| - 1..], secrets),
              Redact(text[next..], secrets));
  }

  /** What redaction writes on its way to the next position. */
  function Head(text: string, from: nat, secrets: seq<string>): string
    requires from < |text|
  {
    if MatchLen(text[from..], secrets) > 0 then REDACTED else [text[from]]
  }

  lemma RedactNext(text: string, from: nat, secrets: seq<string>)
    requires from < |text|
    ensures Redact(text[from..], secrets)
         == Head(text, from, secrets) + Redact(text[Next(text, from, secrets)..], secrets)
  {
    RedactStep(text, from, secrets);
  }

  lemma SameTails(head: string, a: string, b: string, c: string)
    ensures head + a + b == head + c <==> a + b == c
  {
    AppendAssoc(head, a, b);
    SameHead(head, a + b, c);
  }

  lemma SameHead(head: string, a: string, b: string)
    ensures head + a == head + b <==> a == b
  {
    assert (head + a)[|head|..] == a && (head + b)[|head|..] == b;
  }

  lemma WholeApart(init: string, last: string, text: string, secrets: seq<string>)
    requires init != "" && |last| == 1 && text == init + last && text in secrets && last[0] != '>'
    ensures Redact(init, secrets) + Redact(last, secrets) != Redact(text, secrets)
  {
    MatchWithoutLast(text, secrets);
    assert text[|text|..] == "";
    assert Redact(text, secrets) == REDACTED + "" == REDACTED;
    assert last[1..] == "";
    assert Redact(last, secrets) == REDACTED || Redact(last, secrets) == last;
    var whole := Redact(init, secrets) + Redact(last, secrets);
    assert Redact(init, secrets) != "";
    assert whole[|whole| - 1] == Redact(last, secrets)[|Redact(last, secrets)| - 1];
    assert REDACTED[|REDACTED| - 1] == '>';
  }

  lemma CrossesAtNext(text: string, from: nat, next: nat, p: nat, secrets: seq<string>)
    requires text != "" && from < |text| - 1 && text[from..] !in secrets
    requires next == Next(text[..|text| - 1], from, secrets)
    ensures CrossesAt(text, from, p, secrets) <==> CrossesAt(text, next, p, secrets)
  {
    if p > from {
      StandsNext(text[..|text| - 1], from, p, secrets);
    }
  }

  lemma CrossesNext(text: string, from: nat, next: nat, secrets: seq<string>)
    requires text != "" && from < |text| - 1 && text[from..] !in secrets
    requires next == Next(text[..|text| - 1], from, secrets)
    ensures Crosses(text, from, secrets) <==> Crosses(text, next, secrets)
  {
    if p :| from <= p < |text| - 1 && CrossesAt(text, from, p, secrets) {
      CrossesAtNext(text, from, next, p, secrets);
    }
    if p :| next <= p < |text| - 1 && CrossesAt(text, next, p, secrets) {
      CrossesAtNext(text, from, next, p, secrets);
    }
  }
}
