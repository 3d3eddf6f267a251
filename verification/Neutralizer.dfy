/** The object `TerminalControlNeutralizer`, proved against the machine of module Controls. */
module Neutralizer {
  import opened Common
  import opened Text
  import opened Utf8
  import opened Controls

  /** What a feed returns; the source raises once the object is finished. */
  datatype Fed = Fed(chunks: seq<string>) | AlreadyFinished

  /** Move the collected plain text into the list of chunks (`flush_plain`). */
  function FlushPlain(chunks: seq<string>, plain: string): seq<string> {
    if plain != "" then chunks + [plain] else chunks
  }

  lemma FlushPlainJoin(chunks: seq<string>, plain: string)
    ensures Join(FlushPlain(chunks, plain)) == Join(chunks) + plain
  {
    if plain != "" { JoinSnoc(chunks, plain); } else { assert Join(chunks) + "" == Join(chunks); }
  }

  lemma FlushThen(chunks: seq<string>, plain: string, x: string)
    ensures Join(FlushPlain(chunks, plain) + [x]) + "" == Join(chunks) + plain + x
  {
    FlushPlainJoin(chunks, plain);
    JoinSnoc(FlushPlain(chunks, plain), x);
  }

  /**
    The chunks made of one U+FFFD: a pending ESC is shown in a chunk of its own before it; otherwise there
    is at most one chunk, and none while a sequence goes on.
   */
  predicate ReplacementChunks(before: State, after: State, chunks: seq<string>) {
    if before.mode.Esc? then chunks == [Visible(before.pending), [REPLACEMENT]] && after == START
    else |chunks| <= 1 && (chunks != [] ==> !Unfinished(after))
  }

  class ControlNeutralizer {
    const limit: nat
    const decoder: ByteDecoder
    var mode: Mode            // `_state` together with `_string_kind`
    var pending: string
    var pendingBytes: nat
    var eof: bool

    ghost function View(): State
      reads this
    {
      State(mode, pending, pendingBytes)
    }

    ghost predicate Valid()
      reads this, decoder
    {
      limit > 0 && decoder.Valid() && Bounded(View(), limit)
    }

    constructor (limit: nat)
      requires limit > 0
      ensures Valid() && fresh(decoder) && this.limit == limit
      ensures View() == START && !eof && decoder.held == []
    {
      this.limit := limit;
      decoder := new ByteDecoder();
      mode, pending, pendingBytes, eof := Normal, "", 0, false;
    }

    method FeedBytes(data: seq<byte>) returns (r: Fed)
      requires Valid()
      modifies this, decoder
      ensures Valid() && eof == old(eof)
      ensures eof ==> r == AlreadyFinished && View() == old(View()) && decoder.held == old(decoder.held)
      ensures !eof ==>
                && r.Fed?
                && Join(r.chunks) == Run(old(View()), Decode(old(decoder.held) + data).0, limit).1
                && View() == Run(old(View()), Decode(old(decoder.held) + data).0, limit).0
                && decoder.held == Decode(old(decoder.held) + data).1
    {
      if eof { return AlreadyFinished; }
      if data == [] {
        WithheldDecode(decoder.held);
        assert decoder.held + data == decoder.held;
        return Fed([]);
      }
      var characters := decoder.Feed(data);
      var chunks := FeedAll(characters);
      r := Fed(chunks);
    }

    method FeedCharacters(characters: seq<Item>) returns (r: Fed)
      requires Valid()
      modifies this
      ensures Valid() && eof == old(eof)
      ensures eof ==> r == AlreadyFinished && View() == old(View())
      ensures !eof ==>
                && r.Fed?
                && Join(r.chunks) == Run(old(View()), characters, limit).1
                && View() == Run(old(View()), characters, limit).0
                && (|characters| == 1 && characters[0].c == REPLACEMENT ==>
                      ReplacementChunks(old(View()), View(), r.chunks))
    {
      if eof { return AlreadyFinished; }
      var chunks := FeedAll(characters);
      r := Fed(chunks);
    }

    method Finish() returns (chunks: seq<string>)
      requires Valid()
      modifies this, decoder
      ensures Valid() && eof
      ensures old(eof) ==> chunks == [] && View() == old(View()) && decoder.held == old(decoder.held)
      ensures !old(eof) ==>
                var last := Run(old(View()), Flush(old(decoder.held)), limit);
                Join(chunks) == last.1 + Ending(last.0) && View() == START && decoder.held == []
      ensures !old(eof) && old(decoder.held) == [] ==> chunks == if Unfinished(old(View())) then [INCOMPLETE] else []
    {
      if eof { return []; }
      eof := true;
      var characters := decoder.Finish();
      chunks := FeedAll(characters);
      if mode.Esc? || mode.Csi? || mode.Str? || mode.StrEsc? {
        JoinSnoc(chunks, INCOMPLETE);
        chunks := chunks + [INCOMPLETE];
      } else {
        assert Join(chunks) + "" == Join(chunks);
      }
      mode, pending, pendingBytes := Normal, "", 0;
    }

    /** `discard_pending`: forget a pending sequence without a trace. */
    method DiscardPending()
      requires Valid()
      modifies this
      ensures Valid() && View() == START && eof == old(eof)
    {
      mode, pending, pendingBytes := Normal, "", 0;
    }

    /** `_begin`: start a sequence unless its introducer alone is too large. */
    method Begin(next: Mode, c: char, w: nat) returns (oversized: bool)
      requires mode == Normal && pending == "" && pendingBytes == 0
      modifies this
      ensures oversized == (w > limit) && eof == old(eof)
      ensures View() == if oversized then START else State(next, [c], w)
    {
      if w > limit {
        mode, pending, pendingBytes := Normal, "", 0;
        return true;
      }
      mode, pending, pendingBytes := next, [c], w;
      return false;
    }

    /** `_begin_string`: extend the introducer and enter the string. */
    method BeginString(kind: Kind, c: char, w: nat) returns (oversized: bool)
      modifies this
      ensures oversized == (old(pendingBytes) + w > limit) && eof == old(eof)
      ensures View() == if oversized then START else State(Str(kind), old(pending) + [c], old(pendingBytes) + w)
    {
      pending := pending + [c];
      pendingBytes := pendingBytes + w;
      if pendingBytes > limit {
        mode, pending, pendingBytes := Normal, "", 0;
        return true;
      }
      mode := Str(kind);
      return false;
    }

    /** `_append`. */
    method Append(c: char, w: nat) returns (oversized: bool)
      modifies this
      ensures oversized == (old(pendingBytes) + w > limit) && eof == old(eof) && mode == old(mode)
      ensures pending == if oversized then "" else old(pending) + [c]
      ensures pendingBytes == if oversized then 0 else old(pendingBytes) + w
    {
      pending := pending + [c];
      pendingBytes := pendingBytes + w;
      if pendingBytes > limit {
        pending, pendingBytes := "", 0;
        return true;
      }
      return false;
    }

    /** `_append` and the `oversize(state)` after it: the next mode, or the marker and the drop mode. */
    method Extend(c: char, w: nat, next: Mode, drop: Mode, chunks: seq<string>, plain: string)
      returns (chunks': seq<string>, plain': string)
      modifies this
      ensures eof == old(eof)
      ensures View() == Push(old(View()), c, w, limit, next, drop).0
      ensures Join(chunks') + plain' == Join(chunks) + plain + Push(old(View()), c, w, limit, next, drop).1
      ensures plain == "" ==> plain' == ""
      ensures chunks == [] && plain == "" ==>
                var shown := Push(old(View()), c, w, limit, next, drop).1;
                chunks' == (if shown == "" then [] else [shown]) && plain' == ""
    {
      var oversized := Append(c, w);
      if oversized {
        FlushThen(chunks, plain, OVERSIZED);
        chunks', plain' := FlushPlain(chunks, plain) + [OVERSIZED], "";
        mode := drop;
      } else {
        mode := next;
        chunks', plain' := chunks, plain;
      }
    }

    /** `_append` of a last character, then `_emit_pending`. */
    method ExtendLast(c: char, w: nat, chunks: seq<string>, plain: string)
      returns (chunks': seq<string>, plain': string)
      modifies this
      ensures eof == old(eof) && plain' == ""
      ensures View() == START
      ensures Join(chunks') + plain' == Join(chunks) + plain + Close(old(View()), c, w, limit).1
    {
      var oversized := Append(c, w);
      var shown := if oversized then OVERSIZED else Visible(pending);
      FlushThen(chunks, plain, shown);
      chunks', plain' := FlushPlain(chunks, plain) + [shown], "";
      mode, pending, pendingBytes := Normal, "", 0;
    }

    /** `_handle_normal`. */
    method HandleNormal(c: char, w: nat, chunks: seq<string>, plain: string)
      returns (chunks': seq<string>, plain': string)
      requires View() == START
      modifies this
      ensures eof == old(eof)
      ensures View() == Plain(c, w, limit).0
      ensures Join(chunks') + plain' == Join(chunks) + plain + Plain(c, w, limit).1
      ensures mode != Normal ==> plain' == ""
      ensures c == REPLACEMENT ==> chunks' == chunks && plain' == plain + [c]
    {
      var oversized;
      if c == ESC {
        FlushPlainJoin(chunks, plain);
        chunks', plain' := FlushPlain(chunks, plain), "";
        oversized := Begin(Esc, c, w);
      } else if c as int == 0x9B {
        oversized := Begin(Csi, c, w);
        if oversized {
          FlushThen(chunks, plain, OVERSIZED);
          chunks', plain' := FlushPlain(chunks, plain) + [OVERSIZED], "";
          mode := DropCsi;
        } else {
          FlushPlainJoin(chunks, plain);
          chunks', plain' := FlushPlain(chunks, plain), "";
        }
        assert "" + [c] == [c];
      } else if C1Introducer(c).Some? {
        var kind := C1Introducer(c).value;
        oversized := BeginString(kind, c, w);
        if oversized {
          FlushThen(chunks, plain, OVERSIZED);
          chunks', plain' := FlushPlain(chunks, plain) + [OVERSIZED], "";
          mode := DropStr(kind);
        } else {
          FlushPlainJoin(chunks, plain);
          chunks', plain' := FlushPlain(chunks, plain), "";
        }
      } else if c == '\n' || c == '\t' || !Control(c) {
        chunks', plain' := chunks, plain + [c];
      } else {
        FlushThen(chunks, plain, Visible([c]));
        chunks', plain' := FlushPlain(chunks, plain) + [Visible([c])], "";
      }
    }

    /** The branch of `_feed` for a character after ESC; nothing plain is waiting then. */
    method AfterEsc(c: char, w: nat, chunks: seq<string>)
      returns (chunks': seq<string>, plain': string)
      requires mode == Esc
      modifies this
      ensures eof == old(eof) && (mode != Normal ==> plain' == "")
      ensures View() == Step(old(View()), c, w, limit).0
      ensures Join(chunks') + plain' == Join(chunks) + Step(old(View()), c, w, limit).1
      ensures c == REPLACEMENT ==>
                chunks' == chunks + [Visible(old(pending))] && plain' == [c] && View() == START
    {
      assert Join(chunks) + "" == Join(chunks);
      if c == '[' {
        chunks', plain' := Extend(c, w, Csi, DropCsi, chunks, "");
      } else if EscIntroducer(c).Some? {
        var kind := EscIntroducer(c).value;
        chunks', plain' := Extend(c, w, Str(kind), DropStr(kind), chunks, "");
      } else {
        JoinSnoc(chunks, Visible(pending));
        var shown := chunks + [Visible(pending)];
        mode, pending, pendingBytes := Normal, "", 0;
        assert Join(shown) + "" == Join(shown);
        chunks', plain' := HandleNormal(c, w, shown, "");
        assert "" + [c] == [c];
      }
    }

    /** One pass of the loop of `_feed`. */
    method FeedOne(c: char, w: nat, chunks: seq<string>, plain: string)
      returns (chunks': seq<string>, plain': string)
      requires Bounded(View(), limit) && (mode != Normal ==> plain == "")
      modifies this
      ensures eof == old(eof) && (mode != Normal ==> plain' == "")
      ensures View() == Step(old(View()), c, w, limit).0
      ensures Join(chunks') + plain' == Join(chunks) + plain + Step(old(View()), c, w, limit).1
      ensures c == REPLACEMENT && chunks == [] && plain == "" ==>
                ReplacementChunks(old(View()), View(), FlushPlain(chunks', plain'))
    {
      chunks', plain' := chunks, plain;
      assert Join(chunks) + "" == Join(chunks);
      match mode {
        case Normal =>
          chunks', plain' := HandleNormal(c, w, chunks, plain);
        case DropCsi =>
          if CsiFinal(c) { mode := Normal; }
        case DropStr(k) =>
          if Terminates(k, c) { mode := Normal; } else if c == ESC { mode := DropStrEsc(k); }
        case DropStrEsc(k) =>
          if c == '\\' || Terminates(k, c) { mode := Normal; }
          else if c == ESC {}
          else { mode := DropStr(k); }
        case Esc =>
          chunks', plain' := AfterEsc(c, w, chunks);
        case Csi =>
          if CsiFinal(c) {
            chunks', plain' := ExtendLast(c, w, chunks, plain);
          } else {
            chunks', plain' := Extend(c, w, Csi, DropCsi, chunks, plain);
          }
        case Str(k) =>
          if c == ESC {
            chunks', plain' := Extend(c, w, StrEsc(k), DropStrEsc(k), chunks, plain);
          } else if Terminates(k, c) {
            chunks', plain' := ExtendLast(c, w, chunks, plain);
          } else {
            chunks', plain' := Extend(c, w, Str(k), DropStr(k), chunks, plain);
          }
        case StrEsc(k) =>
          if c == '\\' || Terminates(k, c) {
            chunks', plain' := ExtendLast(c, w, chunks, plain);
          } else {
            chunks', plain' := Extend(c, w, Str(k), DropStr(k), chunks, plain);
          }
      }
    }

    /** `_feed`. */
    method FeedAll(characters: seq<Item>) returns (chunks: seq<string>)
      requires Bounded(View(), limit)
      modifies this
      ensures Bounded(View(), limit) && eof == old(eof)
      ensures Join(chunks) == Run(old(View()), characters, limit).1
      ensures View() == Run(old(View()), characters, limit).0
      ensures characters == [] ==> chunks == []
      ensures |characters| == 1 && characters[0].c == REPLACEMENT ==> ReplacementChunks(old(View()), View(), chunks)
    {
      chunks := [];
      var plain := "";
      ghost var start := View();
      RunBounded(start, characters, limit);
      for i := 0 to |characters|
        invariant eof == old(eof) && (mode != Normal ==> plain == "")
        invariant i == 0 ==> chunks == [] && plain == ""
        invariant i == 1 && characters[0].c == REPLACEMENT ==>
                    ReplacementChunks(start, View(), FlushPlain(chunks, plain))
        invariant View() == Run(start, characters[..i], limit).0
        invariant Join(chunks) + plain == Run(start, characters[..i], limit).1
      {
        RunBounded(start, characters[..i], limit);
        assert characters[..i + 1] == characters[..i] + [characters[i]];
        RunSnoc(start, characters[..i], characters[i], limit);
        chunks, plain := FeedOne(characters[i].c, characters[i].width, chunks, plain);
      }
      assert characters[..|characters|] == characters;
      FlushPlainJoin(chunks, plain);
      chunks := FlushPlain(chunks, plain);
    }
  }
}
