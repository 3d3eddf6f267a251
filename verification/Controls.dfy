/**
  Neutralizing terminal control functions: `TerminalControlNeutralizer`. Control sequences and
  control strings are those of ECMA-48 sections 5.4 and 5.6; both are shown as inert text.
 */
module Controls {
  import opened Common
  import opened Text
  import opened Utf8

  const INCOMPLETE := "[INCOMPLETE_CONTROL_SEQUENCE]"
  const OVERSIZED := "[OVERSIZED_CONTROL_SEQUENCE]"

  /** Bytes one pending sequence may take (CONTROL_SEQUENCE_LIMIT_BYTES). */
  const LIMIT: nat := 8 * 1024

  const ESC: char := 0x1B as char
  const BEL: char := 0x07 as char
  const ST: char := 0x9C as char

  datatype Kind = Osc | Dcs | Sos | Pm | Apc

  /** What the machine is in the middle of. */
  datatype Mode =
    | Normal
    | Esc
    | Csi
    | Str(kind: Kind)
    | StrEsc(kind: Kind)
    | DropCsi
    | DropStr(kind: Kind)
    | DropStrEsc(kind: Kind)

  datatype State = State(mode: Mode, pending: string, bytes: nat)

  const START := State(Normal, "", 0)

  // ---------------------------------------------------------------- characters

  /** A C0, DEL or C1 control character. */
  predicate Control(c: char) {
    c as int < 32 || 127 <= c as int <= 159
  }

  /** What a terminal may be shown: no control character but newline and tab. */
  predicate Inert(c: char) {
    !Control(c) || c == '\n' || c == '\t'
  }

  predicate InertText(s: string) {
    forall i :: 0 <= i < |s| ==> Inert(s[i])
  }

  function HexDigit(d: nat): (c: char)
    requires d < 16
    ensures Inert(c)
  {
    "0123456789abcdef"[d]
  }

  /** `_visible_control`: controls become `\xhh`. */
  function Visible(s: string): string {
    if s == "" then ""
    else
      (if Control(s[0]) then ['\\', 'x', HexDigit(s[0] as int / 16), HexDigit(s[0] as int % 16)] else [s[0]])
      + Visible(s[1..])
  }

  function C1Introducer(c: char): Option<Kind> {
    match c as int
    case 0x90 => Some(Dcs)
    case 0x98 => Some(Sos)
    case 0x9D => Some(Osc)
    case 0x9E => Some(Pm)
    case 0x9F => Some(Apc)
    case _ => None
  }

  function EscIntroducer(c: char): Option<Kind> {
    match c
    case ']' => Some(Osc)
    case 'P' => Some(Dcs)
    case 'X' => Some(Sos)
    case '^' => Some(Pm)
    case '_' => Some(Apc)
    case _ => None
  }

  /** The final byte of a control sequence. */
  predicate CsiFinal(c: char) {
    0x40 <= c as int <= 0x7E
  }

  /** `_string_terminated`: the one-character ends of a control string. */
  predicate Terminates(kind: Kind, c: char) {
    c == ST || (kind == Osc && c == BEL)
  }

  // ---------------------------------------------------------------- what is shown

  /** The value of a lower-case hexadecimal digit, by its code point; None for any other character. */
  function DigitValue(c: char): Option<nat> {
    if '0' <= c <= '9' then Some(c as int - '0' as int)
    else if 'a' <= c <= 'f' then Some(c as int - 'a' as int + 10)
    else None
  }

  /** A shown control is a backslash, an `x` and two digits that spell its code point. */
  lemma VisibleControl(c: char)
    requires c as int < 0x20 || 0x7F <= c as int <= 0x9F
    ensures var shown := Visible([c]);
            && |shown| == 4 && shown[0] == '\\' && shown[1] == 'x'
            && DigitValue(shown[2]).Some? && DigitValue(shown[3]).Some?
            && 16 * DigitValue(shown[2]).value + DigitValue(shown[3]).value == c as int
  {
    assert [c][1..] == "";
    HexDigitIs(c as int / 16);
    HexDigitIs(c as int % 16);
  }

  lemma HexDigitIs(d: nat)
    requires d < 16
    ensures DigitValue(HexDigit(d)) == Some(d)
  {
  }

  /** Everything else is copied, and a text is shown character by character. */
  lemma VisibleOther(s: string)
    requires s != ""
    ensures Visible(s) == Visible([s[0]]) + Visible(s[1..])
    ensures 0x20 <= s[0] as int < 0x7F || 0xA0 <= s[0] as int ==> Visible(s) == [s[0]] + Visible(s[1..])
  {
    assert [s[0]][1..] == "";
  }

  /** What a shown text stands for, read from the left: `\xhh` is the character with that code point. */
  function ReadBack(shown: string): string {
    if shown == "" then ""
    else if |shown| >= 4 && shown[0] == '\\' && shown[1] == 'x'
         && DigitValue(shown[2]).Some? && DigitValue(shown[3]).Some? then
      [(16 * DigitValue(shown[2]).value + DigitValue(shown[3]).value) as char] + ReadBack(shown[4..])
    else [shown[0]] + ReadBack(shown[1..])
  }

  /** Showing loses nothing: what contains no backslash of its own can be read back. */
  lemma {:induction false} VisibleReadsBack(s: string)
    requires '\\' !in s
    ensures ReadBack(Visible(s)) == s
  {
    if s != "" {
      var shown, rest := Visible([s[0]]), Visible(s[1..]);
      VisibleReadsBack(s[1..]);
      VisibleOther(s);
      if Control(s[0]) {
        VisibleControl(s[0]);
        assert (shown + rest)[4..] == rest;
      } else {
        assert ([s[0]] + rest)[1..] == rest;
      }
    }
  }

  /** A backslash of its own can be taken for a shown control. */
  lemma BackslashIsAmbiguous()
    ensures Visible([0x0D as char]) == Visible("\\x0d") == "\\x0d"
  {
    assert [0x0D as char][1..] == "";
  }

  /**
    The two forms of an introducer agree (ECMA-48 section 5.3): ESC with a character from columns 4 and 5
    stands for the C1 control 64 code points higher, for CSI and ST as for the five strings.
   */
  lemma IntroducersAgree(c: char)
    requires 0x40 <= c as int <= 0x5F
    ensures EscIntroducer(c) == C1Introducer((c as int + 0x40) as char)
    ensures c == '[' <==> c as int + 0x40 == 0x9B
    ensures c == '\\' <==> (c as int + 0x40) as char == ST
  {
  }

  // ---------------------------------------------------------------- the machine

  /** Add `c` to the pending sequence: go to `next`, or give up into `drop` when it grew too large. */
  function Push(s: State, c: char, w: nat, limit: nat, next: Mode, drop: Mode): (State, string) {
    if s.bytes + w > limit then (State(drop, "", 0), OVERSIZED)
    else (State(next, s.pending + [c], s.bytes + w), "")
  }

  /** Add the last character of the pending sequence and show it whole. */
  function Close(s: State, c: char, w: nat, limit: nat): (State, string) {
    if s.bytes + w > limit then (START, OVERSIZED) else (START, Visible(s.pending + [c]))
  }

  function Plain(c: char, w: nat, limit: nat): (State, string) {
    if c == ESC then (if w > limit then START else State(Esc, [c], w), "")
    else if c as int == 0x9B then Push(START, c, w, limit, Csi, DropCsi)
    else if C1Introducer(c).Some? then
      Push(START, c, w, limit, Str(C1Introducer(c).value), DropStr(C1Introducer(c).value))
    else if c == '\n' || c == '\t' then (START, [c])
    else if Control(c) then (START, Visible([c]))
    else (START, [c])
  }

  /** One character of `_feed`. */
  function Step(s: State, c: char, w: nat, limit: nat): (State, string) {
    match s.mode
    case Normal => Plain(c, w, limit)
    case Esc =>
      if c == '[' then Push(s, c, w, limit, Csi, DropCsi)
      else if EscIntroducer(c).Some? then
        Push(s, c, w, limit, Str(EscIntroducer(c).value), DropStr(EscIntroducer(c).value))
      else (Plain(c, w, limit).0, Visible(s.pending) + Plain(c, w, limit).1)
    case Csi =>
      if CsiFinal(c) then Close(s, c, w, limit) else Push(s, c, w, limit, Csi, DropCsi)
    case Str(k) =>
      if c == ESC then Push(s, c, w, limit, StrEsc(k), DropStrEsc(k))
      else if Terminates(k, c) then Close(s, c, w, limit)
      else Push(s, c, w, limit, Str(k), DropStr(k))
    case StrEsc(k) =>
      if c == '\\' || Terminates(k, c) then Close(s, c, w, limit)
      else Push(s, c, w, limit, Str(k), DropStr(k))
    case DropCsi =>
      (if CsiFinal(c) then START else s, "")
    case DropStr(k) =>
      (if Terminates(k, c) then START else if c == ESC then State(DropStrEsc(k), "", 0) else s, "")
    case DropStrEsc(k) =>
      (if c == '\\' || Terminates(k, c) then START else if c == ESC then s else State(DropStr(k), "", 0), "")
  }

  function Run(s: State, items: seq<Item>, limit: nat): (State, string)
    decreases items
  {
    if items == [] then (s, "")
    else
      var (s', out) := Step(s, items[0].c, items[0].width, limit);
      var (last, rest) := Run(s', items[1..], limit);
      (last, out + rest)
  }

  predicate Unfinished(s: State) {
    s.mode.Esc? || s.mode.Csi? || s.mode.Str? || s.mode.StrEsc?
  }

  /** What the end of the text adds. */
  function Ending(s: State): string {
    if Unfinished(s) then INCOMPLETE else ""
  }

  /** Neutralizing a whole text. */
  function Neutralize(items: seq<Item>, limit: nat): string {
    var (s, out) := Run(START, items, limit);
    out + Ending(s)
  }

  /** Nothing is pending outside a sequence, and a pending one fits the limit. */
  predicate Bounded(s: State, limit: nat) {
    if Unfinished(s) then s.pending != "" && s.bytes <= limit else s.pending == "" && s.bytes == 0
  }

  // ---------------------------------------------------------------- runs

  lemma {:induction false} RunSplit(s: State, a: seq<Item>, b: seq<Item>, limit: nat)
    ensures Run(s, a + b, limit).0 == Run(Run(s, a, limit).0, b, limit).0
    ensures Run(s, a + b, limit).1 == Run(s, a, limit).1 + Run(Run(s, a, limit).0, b, limit).1
    decreases a
  {
    if a == [] {
      assert a + b == b;
    } else {
      assert (a + b)[1..] == a[1..] + b;
      RunSplit(Step(s, a[0].c, a[0].width, limit).0, a[1..], b, limit);
    }
  }

  lemma RunOne(s: State, item: Item, limit: nat)
    ensures Run(s, [item], limit) == Step(s, item.c, item.width, limit)
  {
    var r := Step(s, item.c, item.width, limit);
    assert Run(r.0, [item][1..], limit) == (r.0, "");
    assert r.1 + "" == r.1;
  }

  /** The pending sequence never exceeds the limit. */
  lemma {:induction false} RunBounded(s: State, items: seq<Item>, limit: nat)
    requires Bounded(s, limit)
    ensures Bounded(Run(s, items, limit).0, limit)
    decreases items
  {
    if items != [] { RunBounded(Step(s, items[0].c, items[0].width, limit).0, items[1..], limit); }
  }

  lemma {:induction false} VisibleInert(s: string)
    ensures InertText(Visible(s))
  {
    if s != "" { VisibleInert(s[1..]); }
  }

  lemma MarkersInert()
    ensures InertText(OVERSIZED) && InertText(INCOMPLETE)
  {
  }

  lemma PlainInert(c: char, w: nat, limit: nat)
    ensures InertText(Plain(c, w, limit).1)
  {
    MarkersInert();
    VisibleInert([c]);
  }

  lemma StepInert(s: State, c: char, w: nat, limit: nat)
    ensures InertText(Step(s, c, w, limit).1)
  {
    MarkersInert();
    PlainInert(c, w, limit);
    VisibleInert(s.pending);
    VisibleInert(s.pending + [c]);
  }

  lemma {:induction false} RunInert(s: State, items: seq<Item>, limit: nat)
    ensures InertText(Run(s, items, limit).1)
    decreases items
  {
    if items != [] {
      StepInert(s, items[0].c, items[0].width, limit);
      RunInert(Step(s, items[0].c, items[0].width, limit).0, items[1..], limit);
    }
  }

  /** No control character but newline and tab ever reaches the output. */
  lemma NeutralizeInert(items: seq<Item>, limit: nat)
    ensures forall c :: c in Neutralize(items, limit) ==>
              c == '\n' || c == '\t' || 0x20 <= c as int < 0x7F || 0xA0 <= c as int
  {
    NeutralizedText(items, limit);
  }

  lemma NeutralizedText(items: seq<Item>, limit: nat)
    ensures InertText(Neutralize(items, limit))
  {
    MarkersInert();
    RunInert(START, items, limit);
  }

  /** Text without controls passes through unchanged. */
  lemma {:induction false} RunIdentity(items: seq<Item>, limit: nat)
    requires InertText(Chars(items))
    ensures Run(START, items, limit) == (START, Chars(items))
  {
    if items != [] {
      var c := items[0].c;
      assert Inert(Chars(items)[0]);
      assert Chars(items)[1..] == Chars(items[1..]);
      assert Step(START, c, items[0].width, limit) == (START, [c]);
      RunIdentity(items[1..], limit);
    }
  }

  /** Neutralizing twice is neutralizing once. */
  lemma NeutralizeIdempotent(items: seq<Item>, limit: nat)
    ensures Neutralize(Pairs(Neutralize(items, limit)), limit) == Neutralize(items, limit)
  {
    var s := Neutralize(items, limit);
    NeutralizedText(items, limit);
    CharsPairs(s);
    RunIdentity(Pairs(s), limit);
    assert s + "" == s;
  }

  // ---------------------------------------------------------------- whole control functions

  lemma {:induction false} ItemsAppend(a: seq<Item>, b: seq<Item>)
    ensures Chars(a + b) == Chars(a) + Chars(b) && Widths(a + b) == Widths(a) + Widths(b)
  {
    if a == [] {
      assert a + b == b;
    } else {
      assert (a + b)[1..] == a[1..] + b;
      ItemsAppend(a[1..], b);
    }
  }

  lemma ItemsSnoc(a: seq<Item>, item: Item)
    ensures Chars(a + [item]) == Chars(a) + [item.c] && Widths(a + [item]) == Widths(a) + item.width
  {
    ItemsAppend(a, [item]);
    assert Chars([item][1..]) == "" && Widths([item][1..]) == 0;
  }

  /** Running one more character. */
  lemma RunSnoc(s: State, a: seq<Item>, item: Item, limit: nat)
    ensures
      var before := Run(s, a, limit);
      var last := Step(before.0, item.c, item.width, limit);
      Run(s, a + [item], limit) == (last.0, before.1 + last.1)
  {
    RunSplit(s, a, [item], limit);
    RunOne(Run(s, a, limit).0, item, limit);
  }

  /** The same when nothing has come out before, or nothing comes out now. */
  lemma RunQuietly(s: State, a: seq<Item>, item: Item, limit: nat)
    ensures
      var before := Run(s, a, limit);
      var last := Step(before.0, item.c, item.width, limit);
      && (before.1 == "" ==> Run(s, a + [item], limit) == last)
      && (last.1 == "" ==> Run(s, a + [item], limit) == (last.0, before.1))
  {
    RunSnoc(s, a, item, limit);
    var before := Run(s, a, limit);
    var last := Step(before.0, item.c, item.width, limit);
    assert "" + last.1 == last.1 && before.1 + "" == before.1;
  }

  /** A sequence that has been read so far, still fitting or already given up with one marker. */
  function Reading(next: Mode, drop: Mode, items: seq<Item>, limit: nat): (State, string) {
    if Widths(items) <= limit then (State(next, Chars(items), Widths(items)), "")
    else (State(drop, "", 0), OVERSIZED)
  }

  /** The result of a whole sequence: shown verbatim, or one marker. */
  function Shown(items: seq<Item>, limit: nat): string {
    if Widths(items) <= limit then Visible(Chars(items)) else OVERSIZED
  }

  /** ESC [ or the C1 control CSI. */
  predicate CsiIntro(intro: seq<Item>, limit: nat) {
    || (|intro| == 1 && intro[0].c as int == 0x9B)
    || (|intro| == 2 && intro[0].c == ESC && intro[0].width <= limit && intro[1].c == '[')
  }

  predicate StringIntro(intro: seq<Item>, kind: Kind, limit: nat) {
    || (|intro| == 1 && C1Introducer(intro[0].c) == Some(kind))
    || (|intro| == 2 && intro[0].c == ESC && intro[0].width <= limit && EscIntroducer(intro[1].c) == Some(kind))
  }

  lemma IntroRun(intro: seq<Item>, next: Mode, drop: Mode, limit: nat)
    requires (next == Csi && drop == DropCsi && CsiIntro(intro, limit))
          || (next.Str? && drop == DropStr(next.kind) && StringIntro(intro, next.kind, limit))
    ensures Run(START, intro, limit) == Reading(next, drop, intro, limit)
  {
    var one := [intro[0]];
    RunOne(START, intro[0], limit);
    assert Chars(one) == [intro[0].c] && Widths(one) == intro[0].width by {
      assert [] + one == one;
      ItemsSnoc([], intro[0]);
    }
    assert "" + [intro[0].c] == [intro[0].c];
    if |intro| == 1 {
      assert intro == one;
    } else {
      assert intro == one + [intro[1]];
      assert Run(START, one, limit) == (State(Esc, Chars(one), Widths(one)), "");
      ItemsSnoc(one, intro[1]);
      RunQuietly(START, one, intro[1], limit);
    }
  }

  lemma {:induction false} CsiParameters(intro: seq<Item>, params: seq<Item>, limit: nat)
    requires CsiIntro(intro, limit)
    requires forall i :: 0 <= i < |params| ==> !CsiFinal(params[i].c)
    ensures Run(START, intro + params, limit) == Reading(Csi, DropCsi, intro + params, limit)
  {
    if params == [] {
      assert intro + params == intro;
      IntroRun(intro, Csi, DropCsi, limit);
    } else {
      var init, item := params[..|params| - 1], params[|params| - 1];
      assert intro + params == (intro + init) + [item];
      CsiParameters(intro, init, limit);
      RunQuietly(START, intro + init, item, limit);
      ItemsSnoc(intro + init, item);
    }
  }

  /**
    ECMA-48 section 5.4: a control sequence is shown whole when it fits the limit and is otherwise
    replaced by exactly one marker; either way ordinary text follows its final byte.
   */
  lemma CsiSequence(intro: seq<Item>, params: seq<Item>, final: Item, limit: nat)
    requires CsiIntro(intro, limit) && 0x40 <= final.c as int <= 0x7E
    requires forall i :: 0 <= i < |params| ==> !(0x40 <= params[i].c as int <= 0x7E)
    ensures Run(START, intro + params + [final], limit) == (START, Shown(intro + params + [final], limit))
  {
    CsiParameters(intro, params, limit);
    RunQuietly(START, intro + params, final, limit);
    ItemsSnoc(intro + params, final);
  }

  /** Body of a control string: no ST, in an OSC string no BEL either, and no backslash right after an ESC. */
  predicate StringBody(kind: Kind, body: seq<Item>) {
    forall i :: 0 <= i < |body| ==>
      && body[i].c as int != 0x9C && (kind == Osc ==> body[i].c as int != 0x07)
      && (body[i].c == '\\' && i > 0 ==> body[i - 1].c != ESC)
  }

  /** How many ESC the body ends with. */
  function TrailingEsc(body: seq<Item>): (n: nat)
    ensures n > 0 <==> body != [] && body[|body| - 1].c == ESC
  {
    if body != [] && body[|body| - 1].c == ESC then 1 + TrailingEsc(body[..|body| - 1]) else 0
  }

  /** The machine inside a string: collecting it in pairs of ESC, or dropping it after one marker. */
  predicate InString(r: (State, string), kind: Kind, body: seq<Item>, all: seq<Item>, limit: nat) {
    var odd := TrailingEsc(body) % 2 == 1;
    if Widths(all) <= limit then
      r == (State(if odd then StrEsc(kind) else Str(kind), Chars(all), Widths(all)), "")
    else
      && r.1 == OVERSIZED
      && (r.0 == State(DropStr(kind), "", 0) || r.0 == State(DropStrEsc(kind), "", 0))
      && (odd ==> r.0.mode.DropStrEsc?)
      && (r.0.mode.DropStrEsc? ==> TrailingEsc(body) > 0)
  }

  lemma TrailingEscSnoc(body: seq<Item>, item: Item)
    ensures TrailingEsc(body + [item]) == if item.c == ESC then TrailingEsc(body) + 1 else 0
  {
    assert (body + [item])[..|body|] == body;
  }

  /** One more character of a body that still fits. */
  lemma CollectStep(s: State, kind: Kind, odd: bool, item: Item, limit: nat)
    requires s.mode == if odd then StrEsc(kind) else Str(kind)
    requires !Terminates(kind, item.c) && (item.c == '\\' ==> !odd)
    ensures Step(s, item.c, item.width, limit)
         == Push(s, item.c, item.width, limit,
                 if item.c == ESC && !odd then StrEsc(kind) else Str(kind),
                 if item.c == ESC && !odd then DropStrEsc(kind) else DropStr(kind))
  {
  }

  /** One more character of a body that is being dropped. */
  lemma DropStep(s: State, kind: Kind, item: Item, limit: nat)
    requires s == State(DropStr(kind), "", 0) || s == State(DropStrEsc(kind), "", 0)
    requires !Terminates(kind, item.c) && (item.c == '\\' ==> s.mode.DropStr?)
    ensures Step(s, item.c, item.width, limit)
         == (State(if item.c == ESC then DropStrEsc(kind) else DropStr(kind), "", 0), "")
  {
  }

  /** One more character of a body that fits so far. */
  lemma FittingStep(s: State, kind: Kind, body: seq<Item>, all: seq<Item>, item: Item, limit: nat)
    requires InString((s, ""), kind, body, all, limit) && Widths(all) <= limit
    requires !Terminates(kind, item.c) && (item.c == '\\' ==> TrailingEsc(body) == 0)
    ensures InString(Step(s, item.c, item.width, limit), kind, body + [item], all + [item], limit)
  {
    ItemsSnoc(all, item);
    TrailingEscSnoc(body, item);
    CollectStep(s, kind, TrailingEsc(body) % 2 == 1, item, limit);
  }

  /** One more character of a body that was already too large. */
  lemma DroppedStep(s: State, kind: Kind, body: seq<Item>, all: seq<Item>, item: Item, limit: nat)
    requires InString((s, OVERSIZED), kind, body, all, limit) && Widths(all) > limit
    requires !Terminates(kind, item.c) && (item.c == '\\' ==> TrailingEsc(body) == 0)
    ensures var last := Step(s, item.c, item.width, limit);
            last.1 == "" && InString((last.0, OVERSIZED), kind, body + [item], all + [item], limit)
  {
    ItemsSnoc(all, item);
    TrailingEscSnoc(body, item);
    DropStep(s, kind, item, limit);
  }

  /** One more character of the body. */
  lemma StringStep(before: (State, string), kind: Kind, body: seq<Item>, all: seq<Item>, item: Item, limit: nat)
    requires InString(before, kind, body, all, limit)
    requires !Terminates(kind, item.c) && (item.c == '\\' ==> TrailingEsc(body) == 0)
    ensures
      var last := Step(before.0, item.c, item.width, limit);
      var after := if before.1 == "" then last else (last.0, before.1);
      && (before.1 == "" || last.1 == "")
      && InString(after, kind, body + [item], all + [item], limit)
  {
    if Widths(all) <= limit {
      FittingStep(before.0, kind, body, all, item, limit);
    } else {
      DroppedStep(before.0, kind, body, all, item, limit);
    }
  }

  lemma {:induction false} StringRun(intro: seq<Item>, kind: Kind, body: seq<Item>, limit: nat)
    requires StringIntro(intro, kind, limit) && StringBody(kind, body)
    ensures InString(Run(START, intro + body, limit), kind, body, intro + body, limit)
  {
    if body == [] {
      assert intro + body == intro;
      IntroRun(intro, Str(kind), DropStr(kind), limit);
    } else {
      var init, item := body[..|body| - 1], body[|body| - 1];
      assert body == init + [item];
      assert intro + body == (intro + init) + [item];
      StringRun(intro, kind, init, limit);
      RunQuietly(START, intro + init, item, limit);
      StringStep(Run(START, intro + init, limit), kind, init, intro + init, item, limit);
    }
  }

  /** A one-character terminator, and the backslash of ESC \\. */
  lemma EndStep(s: State, kind: Kind, c: char, w: nat, limit: nat)
    ensures s.mode.Str? && s.mode.kind == kind && Terminates(kind, c) ==> Step(s, c, w, limit) == Close(s, c, w, limit)
    ensures s.mode.StrEsc? && s.mode.kind == kind && (c == '\\' || Terminates(kind, c)) ==>
              Step(s, c, w, limit) == Close(s, c, w, limit)
    ensures s.mode.DropStr? && s.mode.kind == kind && Terminates(kind, c) ==> Step(s, c, w, limit) == (START, "")
    ensures s.mode.DropStrEsc? && s.mode.kind == kind && (c == '\\' || Terminates(kind, c)) ==>
              Step(s, c, w, limit) == (START, "")
    ensures s.mode.Str? && s.mode.kind == kind && c == '\\' ==>
              Step(s, c, w, limit) == Push(s, c, w, limit, Str(kind), DropStr(kind))
  {
  }

  /** A control string ended by the C1 control ST, or by BEL when it is an OSC. */
  lemma StringEndedByOne(intro: seq<Item>, kind: Kind, body: seq<Item>, end: Item, limit: nat)
    requires StringIntro(intro, kind, limit) && StringBody(kind, body)
    requires end.c as int == 0x9C || (kind == Osc && end.c as int == 0x07)
    ensures Run(START, intro + body + [end], limit) == (START, Shown(intro + body + [end], limit))
  {
    var read := intro + body;
    StringRun(intro, kind, body, limit);
    var r := Run(START, read, limit);
    RunQuietly(START, read, end, limit);
    ItemsSnoc(read, end);
    EndStep(r.0, kind, end.c, end.width, limit);
  }

  /** After the ESC of ESC \\. */
  lemma StringThenEsc(intro: seq<Item>, kind: Kind, body: seq<Item>, esc: Item, limit: nat)
    requires StringIntro(intro, kind, limit) && StringBody(kind, body) && esc.c == ESC
    ensures
      var all := intro + body + [esc];
      var r := Run(START, all, limit);
      var even := TrailingEsc(body) % 2 == 0;
      && (Widths(all) <= limit ==> r == (State(if even then StrEsc(kind) else Str(kind), Chars(all), Widths(all)), ""))
      && (Widths(all) > limit ==>
            var paired := !even && Widths(intro + body) <= limit;
            r == (State(if paired then DropStr(kind) else DropStrEsc(kind), "", 0), OVERSIZED))
  {
    var read := intro + body;
    StringRun(intro, kind, body, limit);
    var s := Run(START, read, limit).0;
    RunQuietly(START, read, esc, limit);
    ItemsSnoc(read, esc);
    if Widths(read) <= limit {
      CollectStep(s, kind, TrailingEsc(body) % 2 == 1, esc, limit);
    } else {
      DropStep(s, kind, esc, limit);
    }
  }

  /**
    ECMA-48 section 5.6: a control string extends through ST. Written as ESC \\, that ST ends the
    string exactly when the body ends in an even number of ESC or was already too large: the machine
    pairs ESC characters while it collects. Otherwise the pair is content, or the part of it that
    crosses the limit leaves the machine dropping the string.
   */
  lemma StringEndedByEscSt(intro: seq<Item>, kind: Kind, body: seq<Item>, esc: Item, end: Item, limit: nat)
    requires StringIntro(intro, kind, limit) && StringBody(kind, body)
    requires esc.c == ESC && end.c == '\\'
    ensures
      var all := intro + body + [esc, end];
      var r := Run(START, all, limit);
      && (r.0.mode == Normal <==> TrailingEsc(body) % 2 == 0 || Widths(intro + body) > limit)
      && r == if r.0.mode == Normal then (START, Shown(all, limit)) else Reading(Str(kind), DropStr(kind), all, limit)
  {
    var read := intro + body + [esc];
    StringThenEsc(intro, kind, body, esc, limit);
    ItemsSnoc(intro + body, esc);
    var r := Run(START, read, limit);
    RunQuietly(START, read, end, limit);
    ItemsSnoc(read, end);
    assert intro + body + [esc, end] == read + [end];
    EndStep(r.0, kind, end.c, end.width, limit);
  }
}
