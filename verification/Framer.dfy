/** The object `TerminalSafeLineFramer`, proved against module Framing. */
module Framer {
  import opened Text
  import opened Utf8
  import opened Controls
  import opened Neutralizer
  import Framing

  class LineFramer {
    const cfg: Framing.Config
    const decoder: ByteDecoder
    var neutralizer: ControlNeutralizer
    var lineBytes: nat
    var overflow: bool
    var eof: bool

    ghost function Repr(): set<object>
      reads this
    {
      {this, decoder, neutralizer, neutralizer.decoder}
    }

    ghost predicate Valid()
      reads this, Repr()
    {
      && decoder.Valid()
      && neutralizer.Valid() && neutralizer.limit == LIMIT && !neutralizer.eof && neutralizer.decoder.held == []
      && neutralizer.decoder != decoder
      && (overflow ==> neutralizer.View() == START && lineBytes == 0)
      && lineBytes <= cfg.limit
    }

    ghost function View(): Framing.Line
      reads this, neutralizer
    {
      Framing.Line(neutralizer.View(), lineBytes, overflow)
    }

    constructor (cfg: Framing.Config)
      ensures Valid() && fresh(Repr()) && this.cfg == cfg
      ensures View() == Framing.FRESH && decoder.held == [] && !eof
    {
      this.cfg := cfg;
      decoder := new ByteDecoder();
      neutralizer := new ControlNeutralizer(LIMIT);
      lineBytes, overflow, eof := 0, false, false;
    }

    /** `_reset_line`. */
    method ResetLine()
      modifies this
      ensures neutralizer.Valid() && fresh(neutralizer) && fresh(neutralizer.decoder)
      ensures neutralizer.limit == LIMIT && !neutralizer.eof && neutralizer.decoder.held == []
      ensures neutralizer.View() == START && lineBytes == 0
      ensures overflow == old(overflow) && eof == old(eof)
    {
      lineBytes := 0;
      neutralizer := new ControlNeutralizer(LIMIT);
    }

    /** Hand the characters collected since the last line event to the neutralizer. */
    method FlushPending(pending: seq<Item>, out: seq<string>) returns (out': seq<string>)
      requires Valid() && !overflow
      modifies neutralizer
      ensures Valid()
      ensures Join(out') == Join(out) + Controls.Run(old(neutralizer.View()), pending, LIMIT).1
      ensures neutralizer.View() == Controls.Run(old(neutralizer.View()), pending, LIMIT).0
      ensures pending == [] ==> out' == out
      ensures out == [] && |pending| == 1 && pending[0].c == REPLACEMENT ==>
                ReplacementChunks(old(neutralizer.View()), neutralizer.View(), out')
    {
      if pending == [] {
        assert Join(out) + "" == Join(out);
        return out;
      }
      var r := neutralizer.FeedCharacters(pending);
      JoinAppend(out, r.chunks);
      out' := out + r.chunks;
    }

    /** What the state will be once `pending` is handed over. */
    ghost function Ahead(pending: seq<Item>): Framing.Line
      reads this, neutralizer
    {
      Framing.Line(Controls.Run(neutralizer.View(), pending, LIMIT).0, lineBytes, overflow)
    }

    ghost function AheadText(pending: seq<Item>): string
      reads this, neutralizer
    {
      Controls.Run(neutralizer.View(), pending, LIMIT).1
    }

    /** Finalize the pending control sequence at the end of a line. */
    method EndLine(out: seq<string>) returns (out': seq<string>)
      requires Valid() && !overflow
      modifies Repr()
      ensures Valid() && eof == old(eof) && decoder.held == old(decoder.held)
      ensures fresh(Repr() - old(Repr()))
      ensures Join(out') == Join(out) + Ending(old(neutralizer.View()))
      ensures View() == Framing.FRESH
      ensures out' == out + if Unfinished(old(neutralizer.View())) then [INCOMPLETE] else []
    {
      ghost var ending := Ending(neutralizer.View());
      var last := neutralizer.Finish();
      assert Join(last) == ending by { assert "" + ending == ending; }
      JoinAppend(out, last);
      out' := out + last;
      ResetLine();
    }

    method Newline(pending: seq<Item>, out: seq<string>) returns (out': seq<string>)
      requires Valid() && !overflow
      modifies Repr()
      ensures Valid() && eof == old(eof) && decoder.held == old(decoder.held)
      ensures fresh(Repr() - old(Repr()))
      ensures View() == Framing.FRESH
      ensures Join(out') == Join(out) + old(AheadText(pending)) + (Ending(old(Ahead(pending)).control) + "\n")
    {
      var before := FlushPending(pending, out);
      ghost var ending := Ending(neutralizer.View());
      out' := EndLine(before);
      JoinSnoc(out', "\n");
      Framing.Concat3(Join(before), ending, "\n");
      out' := out' + ["\n"];
    }

    method Overflow(pending: seq<Item>, out: seq<string>) returns (out': seq<string>)
      requires Valid() && !overflow
      modifies this, neutralizer
      ensures Valid() && eof == old(eof) && neutralizer == old(neutralizer)
      ensures View() == Framing.Line(START, 0, true)
      ensures Join(out') == Join(out) + old(AheadText(pending)) + cfg.marker
      ensures pending == [] ==> out' == out + [cfg.marker]
    {
      var before := FlushPending(pending, out);
      JoinSnoc(before, cfg.marker);
      out' := before + [cfg.marker];
      overflow := true;
      neutralizer.DiscardPending();
      lineBytes := 0;
    }

    /** The newline that ends an oversized line. */
    method Resume(out: seq<string>) returns (out': seq<string>)
      requires Valid() && overflow
      modifies this
      ensures Valid() && eof == old(eof) && decoder.held == old(decoder.held)
      ensures fresh(Repr() - old(Repr()))
      ensures View() == Framing.FRESH && Join(out') == Join(out) + "\n"
    {
      overflow := false;
      ResetLine();
      JoinSnoc(out, "\n");
      out' := out + ["\n"];
    }

    /** A character that fits the line waits to be neutralized. */
    method Collect(item: Item, pending: seq<Item>) returns (pending': seq<Item>)
      requires Valid() && !overflow && item.c != '\n' && lineBytes + item.width <= cfg.limit
      modifies this`lineBytes
      ensures Valid() && pending' == pending + [item]
      ensures Ahead(pending') == Framing.Step(old(Ahead(pending)), item, cfg).0
      ensures AheadText(pending') == old(AheadText(pending)) + Framing.Step(old(Ahead(pending)), item, cfg).1
    {
      lineBytes := lineBytes + item.width;
      Controls.RunSnoc(neutralizer.View(), pending, item, LIMIT);
      pending' := pending + [item];
    }

    /** One pass of the loop of `_feed`. */
    method FeedOne(item: Item, pending: seq<Item>, out: seq<string>) returns (pending': seq<Item>, out': seq<string>)
      requires Valid() && (overflow ==> pending == [])
      modifies Repr()
      ensures Valid() && eof == old(eof) && decoder.held == old(decoder.held)
      ensures fresh(Repr() - old(Repr())) && (overflow ==> pending' == [])
      ensures Ahead(pending') == Framing.Step(old(Ahead(pending)), item, cfg).0
      ensures Join(out') + AheadText(pending')
           == Join(out) + old(AheadText(pending)) + Framing.Step(old(Ahead(pending)), item, cfg).1
      ensures item.c == REPLACEMENT && pending == [] && out == [] ==>
                if old(overflow) then overflow && out' == []
                else if old(lineBytes) + item.width > cfg.limit then overflow && out' == [cfg.marker]
                else !overflow && out' == [] && pending' == [item] && neutralizer.View() == old(neutralizer.View())
    {
      pending', out' := pending, out;
      if overflow {
        if item.c == '\n' {
          out' := Resume(out);
        }
      } else if item.c == '\n' {
        out' := Newline(pending, out);
        pending' := [];
      } else if lineBytes + item.width > cfg.limit {
        out' := Overflow(pending, out);
        pending' := [];
      } else {
        Framing.Concat3(Join(out), AheadText(pending), Framing.Step(Ahead(pending), item, cfg).1);
        pending' := Collect(item, pending);
      }
    }

    /** `_feed`. */
    method FeedAll(characters: seq<Item>) returns (out: seq<string>)
      requires Valid()
      modifies Repr()
      ensures Valid() && eof == old(eof) && decoder.held == old(decoder.held)
      ensures fresh(Repr() - old(Repr()))
      ensures Join(out) == Framing.Run(old(View()), characters, cfg).1
      ensures View() == Framing.Run(old(View()), characters, cfg).0
      ensures characters == [] ==> out == []
      ensures |characters| == 1 && characters[0].c == REPLACEMENT ==>
                if old(overflow) then overflow && out == []
                else if old(lineBytes) + characters[0].width > cfg.limit then overflow && out == [cfg.marker]
                else !overflow && ReplacementChunks(old(neutralizer.View()), neutralizer.View(), out)
    {
      out := [];
      var pending: seq<Item> := [];
      ghost var start := View();
      for i := 0 to |characters|
        invariant Valid() && eof == old(eof) && decoder.held == old(decoder.held)
        invariant fresh(Repr() - old(Repr())) && (overflow ==> pending == [])
        invariant i == 0 ==> out == [] && pending == [] && overflow == old(overflow) && lineBytes == old(lineBytes)
        invariant i == 0 ==> neutralizer.View() == old(neutralizer.View())
        invariant i == 1 && characters[0].c == REPLACEMENT ==>
                    if old(overflow) then overflow && out == []
                    else if old(lineBytes) + characters[0].width > cfg.limit then overflow && out == [cfg.marker]
                    else !overflow && out == [] && pending == [characters[0]]
                         && neutralizer.View() == old(neutralizer.View())
        invariant Ahead(pending) == Framing.Run(start, characters[..i], cfg).0
        invariant Join(out) + AheadText(pending) == Framing.Run(start, characters[..i], cfg).1
      {
        assert characters[..i + 1] == characters[..i] + [characters[i]];
        Framing.RunSnoc(start, characters[..i], characters[i], cfg);
        pending, out := FeedOne(characters[i], pending, out);
      }
      assert characters[..|characters|] == characters;
      if overflow {
        assert Join(out) + "" == Join(out);
      } else {
        out := FlushPending(pending, out);
      }
    }

    /** `feed_bytes`. */
    method FeedBytes(data: seq<byte>) returns (r: Fed)
      requires Valid()
      modifies Repr()
      ensures Valid() && eof == old(eof) && fresh(Repr() - old(Repr()))
      ensures eof ==> r == AlreadyFinished && View() == old(View()) && decoder.held == old(decoder.held)
      ensures !eof ==>
                && r.Fed?
                && Join(r.chunks) == Framing.Run(old(View()), Decode(old(decoder.held) + data).0, cfg).1
                && View() == Framing.Run(old(View()), Decode(old(decoder.held) + data).0, cfg).0
                && decoder.held == Decode(old(decoder.held) + data).1
    {
      if eof { return AlreadyFinished; }
      if data == [] {
        WithheldDecode(decoder.held);
        assert decoder.held + data == decoder.held;
        return Fed([]);
      }
      var characters := decoder.Feed(data);
      var out := FeedAll(characters);
      r := Fed(out);
    }

    /** `feed_text`: characters counted by the size of their own UTF-8 form. */
    method FeedText(text: string) returns (r: Fed)
      requires Valid()
      modifies Repr()
      ensures Valid() && eof == old(eof) && fresh(Repr() - old(Repr()))
      ensures decoder.held == old(decoder.held)
      ensures eof ==> r == AlreadyFinished && View() == old(View())
      ensures !eof ==>
                && r.Fed?
                && Join(r.chunks) == Framing.Run(old(View()), Pairs(text), cfg).1
                && View() == Framing.Run(old(View()), Pairs(text), cfg).0
    {
      if eof { return AlreadyFinished; }
      if text == "" { return Fed([]); }
      var out := FeedAll(Pairs(text));
      r := Fed(out);
    }

    method Finish() returns (out: seq<string>)
      requires Valid()
      modifies Repr()
      ensures Valid() && eof && fresh(Repr() - old(Repr()))
      ensures old(eof) ==> out == [] && View() == old(View()) && decoder.held == old(decoder.held)
      ensures !old(eof) ==>
                var last := Framing.Run(old(View()), Flush(old(decoder.held)), cfg);
                Join(out) == last.1 + Framing.LineEnd(last.0) && decoder.held == []
      ensures !old(eof) ==> Framing.EndPieces(old(View()), old(decoder.held), cfg, out)
    {
      if eof { return []; }
      eof := true;
      var characters := decoder.Finish();
      out := FeedAll(characters);
      if overflow {
        assert Join(out) + "" == Join(out);
        ResetLine();
      } else {
        out := EndLine(out);
      }
    }
  }
}
