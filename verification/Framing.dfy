/** Bounded source lines: `TerminalSafeLineFramer`, and what it makes of a text line by line. */
module Framing {
  import opened Text
  import opened Utf8
  import opened Controls
  import opened Neutralizer

  /** DIAGNOSTIC_LINE_LIMIT_BYTES and OVERSIZED_DIAGNOSTIC_MARKER. */
  const LINE_LIMIT: nat := 64 * 1024
  const OVERFLOW := "[sanitized oversized diagnostic]"

  /** Where the framer stands in the current source line. */
  datatype Line = Line(control: Controls.State, bytes: nat, overflow: bool)

  const FRESH := Line(START, 0, false)

  /** The fixed settings of one framer. */
  datatype Config = Config(limit: nat, marker: string)

  function Step(f: Line, item: Item, cfg: Config): (Line, string) {
    if f.overflow then
      if item.c == '\n' then (FRESH, "\n") else (f, "")
    else if item.c == '\n' then (FRESH, Ending(f.control) + "\n")
    else if f.bytes + item.width > cfg.limit then (Line(START, 0, true), cfg.marker)
    else
      var (s, out) := Controls.Step(f.control, item.c, item.width, LIMIT);
      (Line(s, f.bytes + item.width, false), out)
  }

  function Run(f: Line, items: seq<Item>, cfg: Config): (Line, string)
    decreases items
  {
    if items == [] then (f, "")
    else
      var (f', out) := Step(f, items[0], cfg);
      var (last, rest) := Run(f', items[1..], cfg);
      (last, out + rest)
  }

  /** What the end of the stream adds after the last line. */
  function LineEnd(f: Line): string {
    if f.overflow then "" else Ending(f.control)
  }

  /** The whole text a framer makes of a stream of characters. */
  function Frame(items: seq<Item>, cfg: Config): string {
    Run(FRESH, items, cfg).1 + LineEnd(Run(FRESH, items, cfg).0)
  }

  /** An ESC that waits for its next character is all that is pending. */
  predicate EscAlone(f: Line) {
    f.control.mode.Esc? ==> f.control.pending == [ESC]
  }

  lemma {:induction false} RunEscAlone(f: Line, items: seq<Item>, cfg: Config)
    requires EscAlone(f)
    ensures EscAlone(Run(f, items, cfg).0)
    decreases items
  {
    if items != [] {
      RunEscAlone(Step(f, items[0], cfg).0, items[1..], cfg);
    }
  }

  /** Where the withheld bytes at the end make two pieces: after an ESC, with room for them in the line. */
  predicate EndsInTwo(f: Line, held: seq<byte>, cfg: Config) {
    held != [] && !f.overflow && f.control.mode.Esc? && f.bytes + |held| <= cfg.limit
  }

  /** The pieces `finish` makes. */
  predicate EndPieces(f: Line, held: seq<byte>, cfg: Config, pieces: seq<string>) {
    if EndsInTwo(f, held, cfg) then pieces == [Visible(f.control.pending), [REPLACEMENT]] else |pieces| <= 1
  }

  lemma {:induction false} RunSplit(f: Line, a: seq<Item>, b: seq<Item>, cfg: Config)
    ensures Run(f, a + b, cfg).0 == Run(Run(f, a, cfg).0, b, cfg).0
    ensures Run(f, a + b, cfg).1 == Run(f, a, cfg).1 + Run(Run(f, a, cfg).0, b, cfg).1
    decreases a
  {
    if a == [] {
      assert a + b == b;
    } else {
      assert (a + b)[1..] == a[1..] + b;
      var next := Step(f, a[0], cfg);
      RunSplit(next.0, a[1..], b, cfg);
      Concat3(next.1, Run(next.0, a[1..], cfg).1, Run(Run(f, a, cfg).0, b, cfg).1);
    }
  }

  lemma RunSnoc(f: Line, a: seq<Item>, item: Item, cfg: Config)
    ensures
      var before := Run(f, a, cfg);
      var last := Step(before.0, item, cfg);
      Run(f, a + [item], cfg) == (last.0, before.1 + last.1)
  {
    RunSplit(f, a, [item], cfg);
    var r := Step(Run(f, a, cfg).0, item, cfg);
    assert Run(r.0, [item][1..], cfg) == (r.0, "");
    assert r.1 + "" == r.1;
  }

  // ---------------------------------------------------------------- line by line

  /** The source lines of a text: its characters cut at every newline. */
  function Lines(items: seq<Item>): (lines: seq<seq<Item>>)
    ensures lines != []
  {
    if items == [] then [[]]
    else
      var rest := Lines(items[1..]);
      if items[0].c == '\n' then [[]] + rest else [[items[0]] + rest[0]] + rest[1..]
  }

  /** The longest beginning of a line that fits `room` bytes. */
  function Fitting(line: seq<Item>, room: nat): (n: nat)
    ensures n <= |line|
  {
    if line == [] || line[0].width > room then 0 else 1 + Fitting(line[1..], room - line[0].width)
  }

  /**
    What one source line becomes: neutralized in full when it fits, and otherwise its longest fitting
    beginning, neutralized as far as it is decided, followed by exactly one marker.
   */
  function FrameLine(line: seq<Item>, cfg: Config): string {
    if Widths(line) <= cfg.limit then Neutralize(line, LIMIT)
    else Controls.Run(START, line[..Fitting(line, cfg.limit)], LIMIT).1 + cfg.marker
  }

  function FrameLines(lines: seq<seq<Item>>, cfg: Config): string
    requires lines != []
  {
    if |lines| == 1 then FrameLine(lines[0], cfg)
    else FrameLine(lines[0], cfg) + "\n" + FrameLines(lines[1..], cfg)
  }

  /** No other beginning of the line that fits is longer. */
  lemma {:induction false} FittingLongest(line: seq<Item>, room: nat)
    ensures Widths(line[..Fitting(line, room)]) <= room
    ensures forall k :: Fitting(line, room) < k <= |line| ==> Widths(line[..k]) > room
    ensures Fitting(line, room) == |line| <==> Widths(line) <= room
  {
    if line != [] && line[0].width <= room {
      var w := line[0].width;
      FittingLongest(line[1..], room - w);
      forall k | 1 <= k <= |line| ensures Widths(line[..k]) == w + Widths(line[1..][..k - 1]) {
        assert line[..k][1..] == line[1..][..k - 1];
      }
    } else if line != [] {
      forall k | 1 <= k <= |line| ensures Widths(line[..k]) > room {
        assert line[..k][0] == line[0];
      }
    }
    assert line[..|line|] == line;
  }

  lemma RunHead(f: Line, items: seq<Item>, cfg: Config)
    requires items != []
    ensures
      var first := Step(f, items[0], cfg);
      var rest := Run(first.0, items[1..], cfg);
      Run(f, items, cfg) == (rest.0, first.1 + rest.1)
  {
  }

  lemma ControlRunHead(s: Controls.State, items: seq<Item>, n: nat)
    requires 0 < n <= |items|
    ensures
      var first := Controls.Step(s, items[0].c, items[0].width, LIMIT);
      var rest := Controls.Run(first.0, items[1..][..n - 1], LIMIT);
      Controls.Run(s, items[..n], LIMIT) == (rest.0, first.1 + rest.1)
  {
    assert items[..n][1..] == items[1..][..n - 1];
  }

  /** A line read from the state `f`, up to but not including its newline. */
  ghost predicate ReadTo(r: (Line, string), f: Line, line: seq<Item>, n: nat, cfg: Config)
    requires n <= |line|
  {
    var read := Controls.Run(f.control, line[..n], LIMIT);
    r == if n == |line| then (Line(read.0, f.bytes + Widths(line), false), read.1)
         else (Line(START, 0, true), read.1 + cfg.marker)
  }

  lemma Concat3(a: string, b: string, c: string)
    ensures a + (b + c) == a + b + c
  {
  }

  lemma ReadOneMore(r: (Line, string), f: Line, line: seq<Item>, n: nat, cfg: Config)
    requires !f.overflow && line != [] && line[0].c != '\n' && f.bytes + line[0].width <= cfg.limit && 0 < n <= |line|
    requires ReadTo(r, Step(f, line[0], cfg).0, line[1..], n - 1, cfg)
    ensures ReadTo((r.0, Step(f, line[0], cfg).1 + r.1), f, line, n, cfg)
  {
    ControlRunHead(f.control, line, n);
    var first := Controls.Step(f.control, line[0].c, line[0].width, LIMIT);
    var rest := Controls.Run(first.0, line[1..][..n - 1], LIMIT);
    Concat3(first.1, rest.1, cfg.marker);
  }

  lemma {:induction false} LineRun(f: Line, line: seq<Item>, cfg: Config)
    requires !f.overflow && f.bytes <= cfg.limit
    requires forall i :: 0 <= i < |line| ==> line[i].c != '\n'
    ensures ReadTo(Run(f, line, cfg), f, line, Fitting(line, cfg.limit - f.bytes), cfg)
    decreases line
  {
    if line != [] {
      RunHead(f, line, cfg);
      var (f', out) := Step(f, line[0], cfg);
      if f.bytes + line[0].width > cfg.limit {
        DroppedRun(f', line[1..], cfg);
        assert out + "" == out && "" + out == out;
      } else {
        LineRun(f', line[1..], cfg);
        ReadOneMore(Run(f', line[1..], cfg), f, line, Fitting(line, cfg.limit - f.bytes), cfg);
      }
    }
  }

  lemma {:induction false} DroppedRun(f: Line, line: seq<Item>, cfg: Config)
    requires f.overflow
    requires forall i :: 0 <= i < |line| ==> line[i].c != '\n'
    ensures Run(f, line, cfg) == (f, "")
    decreases line
  {
    if line != [] {
      RunHead(f, line, cfg);
      DroppedRun(f, line[1..], cfg);
      assert "" + "" == "";
    }
  }

  /** One line from its beginning: all that is emitted before the newline or the end. */
  lemma OneLine(line: seq<Item>, cfg: Config)
    requires forall i :: 0 <= i < |line| ==> line[i].c != '\n'
    ensures var r := Run(FRESH, line, cfg); r.1 + LineEnd(r.0) == FrameLine(line, cfg)
  {
    LineRun(FRESH, line, cfg);
    FittingLongest(line, cfg.limit);
    assert line[..|line|] == line;
    var r := Run(FRESH, line, cfg);
    assert r.1 + "" == r.1;
  }

  lemma {:induction false} LinesFirst(items: seq<Item>)
    ensures forall i :: 0 <= i < |Lines(items)[0]| ==> Lines(items)[0][i].c != '\n'
    ensures |Lines(items)| == 1 ==> Lines(items)[0] == items
    ensures |Lines(items)| > 1 ==>
              var n := |Lines(items)[0]|;
              && n < |items| && items[..n] == Lines(items)[0] && items[n].c == '\n'
              && Lines(items[n + 1..]) == Lines(items)[1..]
  {
    if items != [] {
      LinesFirst(items[1..]);
      if items[0].c == '\n' {
        assert items[..0] == [];
      } else {
        var n := |Lines(items)[0]|;
        if |Lines(items)| > 1 {
          assert items[1..][..n - 1] == items[1..n];
          assert items[1..][n..] == items[n + 1..];
        }
      }
    }
  }

  /**
    Framing is a homomorphism of lines: l1 newline ... newline ln becomes f(l1) newline ... newline
    f(ln), whatever control sequence or overflow one line leaves behind.
   */
  lemma {:induction false} FrameIsLinewise(items: seq<Item>, cfg: Config)
    ensures Frame(items, cfg) == FrameLines(Lines(items), cfg)
    decreases |items|
  {
    var lines := Lines(items);
    LinesFirst(items);
    var line := lines[0];
    OneLine(line, cfg);
    if |lines| > 1 {
      FrameFirstLine(items, line, items[|line| + 1..], cfg);
      FrameIsLinewise(items[|line| + 1..], cfg);
    }
  }

  lemma FrameFirstLine(items: seq<Item>, line: seq<Item>, rest: seq<Item>, cfg: Config)
    requires |line| < |items| && line == items[..|line|] && items[|line|].c == '\n' && rest == items[|line| + 1..]
    requires var r := Run(FRESH, line, cfg); r.1 + LineEnd(r.0) == FrameLine(line, cfg)
    ensures Frame(items, cfg) == FrameLine(line, cfg) + "\n" + Frame(rest, cfg)
  {
    var newline := items[|line|];
    assert items == (line + [newline]) + rest;
    RunSplit(FRESH, line + [newline], rest, cfg);
    RunSnoc(FRESH, line, newline, cfg);
    var r, t := Run(FRESH, line, cfg), Run(FRESH, rest, cfg);
    NewlineStep(r.0, newline, cfg);
    Concat3(r.1, LineEnd(r.0), "\n");
    Concat3(FrameLine(line, cfg) + "\n", t.1, LineEnd(t.0));
  }

  lemma NewlineStep(f: Line, newline: Item, cfg: Config)
    requires newline.c == '\n'
    ensures Step(f, newline, cfg) == (FRESH, LineEnd(f) + "\n")
  {
    assert "" + "\n" == "\n";
  }
}
