/**
  The incremental UTF-8 decoder `_Utf8ByteDecoder`, measured against the encoding of RFC 3629
  section 3 and the maximal-subpart replacement of section 3.9 of the Unicode Standard.
 */
module Utf8 {
  import opened Common
  import opened Text

  type byte = x: int | 0 <= x < 256

  const REPLACEMENT: char := 0xFFFD as char

  /** One decoded character with the number of source bytes it stands for. */
  datatype Item = Item(c: char, width: nat)

  // ---------------------------------------------------------------- RFC 3629 section 3

  /** The UTF-8 form of one scalar value. */
  function Encode(c: char): (b: seq<byte>)
    ensures |b| == Width(c)
  {
    var v := c as int;
    if v < 0x80 then [v]
    else if v < 0x800 then [0xC0 + v / 64, 0x80 + v % 64]
    else if v < 0x10000 then [0xE0 + v / 4096, 0x80 + v / 64 % 64, 0x80 + v % 64]
    else [0xF0 + v / 262144, 0x80 + v / 4096 % 64, 0x80 + v / 64 % 64, 0x80 + v % 64]
  }

  function EncodeAll(s: string): seq<byte> {
    if s == "" then [] else Encode(s[0]) + EncodeAll(s[1..])
  }

  /** Some character's UTF-8 form begins with `b`. */
  ghost predicate Begins(b: seq<byte>) {
    exists c :: b <= Encode(c)
  }

  // ---------------------------------------------------------------- the decoder's step

  predicate Continuation(b: byte) {
    0x80 <= b <= 0xBF
  }

  /** The lead bytes that announce more bytes. */
  predicate Lead(first: byte) {
    0xC2 <= first < 0xF5
  }

  function Need(first: byte): (n: nat)
    requires Lead(first)
    ensures 2 <= n <= 4
  {
    if first < 0xE0 then 2 else if first < 0xF0 then 3 else 4
  }

  /** `_second_byte_range`. */
  function SecondByteRange(first: byte): (byte, byte) {
    if first == 0xE0 then (0xA0, 0xBF)
    else if first == 0xED then (0x80, 0x9F)
    else if first == 0xF0 then (0x90, 0xBF)
    else if first == 0xF4 then (0x80, 0x8F)
    else (0x80, 0xBF)
  }

  predicate SecondOk(first: byte, second: byte) {
    SecondByteRange(first).0 <= second <= SecondByteRange(first).1
  }

  /** How far the continuation bytes reach, at most to `need`. */
  function Consumed(buf: seq<byte>, from: nat, need: nat): (n: nat)
    requires from <= need && from <= |buf|
    ensures from <= n <= need && n <= |buf|
    ensures forall i :: from <= i < n ==> Continuation(buf[i])
    ensures n < need && n < |buf| ==> !Continuation(buf[n])
    decreases need - from
  {
    if from < need && from < |buf| && Continuation(buf[from]) then Consumed(buf, from + 1, need) else from
  }

  /** The scalar value of a complete well-formed sequence. */
  function Scalar(b: seq<byte>): int
    requires 2 <= |b| <= 4
  {
    var b0: int, b1: int := b[0], b[1];
    if |b| == 2 then (b0 - 0xC0) * 64 + (b1 - 0x80)
    else
      var b2: int := b[2];
      if |b| == 3 then (b0 - 0xE0) * 4096 + (b1 - 0x80) * 64 + (b2 - 0x80)
      else
        var b3: int := b[3];
        (b0 - 0xF0) * 262144 + (b1 - 0x80) * 4096 + (b2 - 0x80) * 64 + (b3 - 0x80)
  }

  predicate Complete(b: seq<byte>) {
    && 2 <= |b| <= 4
    && Lead(b[0]) && Need(b[0]) == |b|
    && SecondOk(b[0], b[1])
    && forall i :: 2 <= i < |b| ==> Continuation(b[i])
  }

  lemma ScalarInRange(b: seq<byte>)
    requires Complete(b)
    ensures 0x80 <= Scalar(b) < 0xD800 || 0xE000 <= Scalar(b) < 0x110000
  {
  }

  /** The character of a complete sequence; its UTF-8 form is that sequence. */
  function CharOf(b: seq<byte>): (c: char)
    requires Complete(b)
  {
    ScalarInRange(b);
    Scalar(b) as char
  }

  /** What one pass of the decoder's loop decides at the front of the buffer; None withholds it. */
  function Next(buf: seq<byte>): (item: Option<Item>)
    requires buf != []
    ensures item.Some? ==> 1 <= item.value.width <= |buf|
  {
    var first := buf[0];
    if first < 0x80 then Some(Item(first as char, 1))
    else if !Lead(first) then Some(Item(REPLACEMENT, 1))
    else if |buf| == 1 then None
    else if !SecondOk(first, buf[1]) then Some(Item(REPLACEMENT, 1))
    else
      var n := Consumed(buf, 2, Need(first));
      if n == Need(first) then Some(Item(CharOf(buf[..n]), n))
      else if n < |buf| then Some(Item(REPLACEMENT, n))
      else None
  }

  /** Decoding a buffer: the items decided, and the bytes withheld for later. */
  function Decode(buf: seq<byte>): (seq<Item>, seq<byte>)
    decreases |buf|
  {
    if buf == [] then ([], [])
    else
      match Next(buf)
      case None => ([], buf)
      case Some(item) =>
        var (items, held) := Decode(buf[item.width..]);
        ([item] + items, held)
  }

  /** The end of the stream turns withheld bytes into one replacement character. */
  function Flush(held: seq<byte>): seq<Item> {
    if held == [] then [] else [Item(REPLACEMENT, |held|)]
  }

  /** Everything a byte stream decodes to. */
  function DecodeAll(bytes: seq<byte>): seq<Item> {
    Decode(bytes).0 + Flush(Decode(bytes).1)
  }

  // ---------------------------------------------------------------- encoding and the step

  lemma EncodeComplete(c: char)
    requires c as int >= 0x80
    ensures Complete(Encode(c)) && Scalar(Encode(c)) == c as int
  {
    var v := c as int;
    assert v == v / 64 * 64 + v % 64;
    assert v / 64 == v / 4096 * 64 + v / 64 % 64;
    assert v / 4096 == v / 262144 * 64 + v / 4096 % 64;
  }

  /** Base-64 digits can be read back. */
  lemma Digits(a: int, b: int, c: int, d: int)
    requires 0 <= a && 0 <= b < 64 && 0 <= c < 64 && 0 <= d < 64
    ensures var v := a * 262144 + b * 4096 + c * 64 + d;
            v % 64 == d && v / 64 == a * 4096 + b * 64 + c && v / 64 % 64 == c
            && v / 4096 == a * 64 + b && v / 4096 % 64 == b && v / 262144 == a
  {
  }

  lemma CharOfEncode(b: seq<byte>)
    requires Complete(b)
    ensures Encode(CharOf(b)) == b
  {
    ScalarInRange(b);
    var b0: int, b1: int := b[0], b[1];
    if |b| == 2 {
      Digits(0, 0, b0 - 0xC0, b1 - 0x80);
    } else if |b| == 3 {
      Digits(0, b0 - 0xE0, b1 - 0x80, b[2] as int - 0x80);
    } else {
      Digits(b0 - 0xF0, b1 - 0x80, b[2] as int - 0x80, b[3] as int - 0x80);
    }
  }

  // ---------------------------------------------------------------- maximal subparts

  lemma ConsumedExtend(buf: seq<byte>, more: seq<byte>, from: nat, need: nat)
    requires from <= need && from <= |buf|
    ensures var n := Consumed(buf, from, need);
            n == need || n < |buf| ==> Consumed(buf + more, from, need) == n
    decreases need - from
  {
    if from < need && from < |buf| && Continuation(buf[from]) { ConsumedExtend(buf, more, from + 1, need); }
  }

  /** A decision at the front of the buffer is final: more bytes do not change it. */
  lemma NextStable(buf: seq<byte>, more: seq<byte>)
    requires buf != [] && Next(buf).Some?
    ensures Next(buf + more) == Next(buf)
  {
    var first := buf[0];
    if Lead(first) && |buf| > 1 && SecondOk(first, buf[1]) {
      var n := Consumed(buf, 2, Need(first));
      ConsumedExtend(buf, more, 2, Need(first));
      assert (buf + more)[..n] == buf[..n];
    }
  }

  /** A character's UTF-8 form at the front of the buffer is decoded to that character. */
  lemma NextEncoded(c: char, more: seq<byte>)
    ensures Next(Encode(c) + more) == Some(Item(c, Width(c)))
  {
    var b := Encode(c);
    if c as int >= 0x80 {
      EncodeComplete(c);
      assert Consumed(b, 2, |b|) == |b|;
      assert b[..|b|] == b;
      assert CharOf(b) == c;
      NextStable(b, more);
    }
  }

  /** A well-formed beginning, completed to a whole sequence. */
  function Completion(b: seq<byte>): (w: seq<byte>)
    requires b != [] && Lead(b[0]) && |b| <= Need(b[0])
    requires |b| > 1 ==> SecondOk(b[0], b[1])
    requires forall i :: 2 <= i < |b| ==> Continuation(b[i])
    ensures Complete(w) && b <= w
  {
    var two := if |b| == 1 then b + [SecondByteRange(b[0]).0] else b;
    two + seq(Need(b[0]) - |two|, _ => 0x80)
  }

  lemma BeginsWhenWellFormed(b: seq<byte>)
    requires b != [] && Lead(b[0]) && |b| <= Need(b[0])
    requires |b| > 1 ==> SecondOk(b[0], b[1])
    requires forall i :: 2 <= i < |b| ==> Continuation(b[i])
    ensures exists c :: b <= Encode(c) && |Encode(c)| == Need(b[0])
  {
    var w := Completion(b);
    CharOfEncode(w);
    assert b <= Encode(CharOf(w));
  }

  predicate WellFormedBeginning(b: seq<byte>)
    requires b != []
  {
    && Lead(b[0]) && |b| <= Need(b[0])
    && (|b| > 1 ==> SecondOk(b[0], b[1]))
    && forall i :: 2 <= i < |b| ==> Continuation(b[i])
  }

  lemma BeginsShape(b: seq<byte>)
    requires b != [] && b[0] >= 0x80
    ensures Begins(b) <==> WellFormedBeginning(b)
  {
    if WellFormedBeginning(b) { BeginsWhenWellFormed(b); }
    if c :| b <= Encode(c) {
      assert b[0] == Encode(c)[0];
      EncodeComplete(c);
    }
  }

  /**
    Section 3.9 of the Unicode Standard, for the front of any buffer. A well-formed sequence there
    becomes its character. The beginning of one that the buffer ends in is withheld. Anything else
    becomes one replacement character for the maximal subpart: the longest beginning of a well-formed
    sequence, or a single byte when there is none.
   */
  lemma NextIsMaximalSubpart(buf: seq<byte>)
    requires buf != []
    ensures forall c :: Encode(c) <= buf ==> Next(buf) == Some(Item(c, Width(c)))
    ensures Next(buf).None? <==> exists c :: buf < Encode(c)
    ensures (Next(buf).Some? && !exists c :: Encode(c) <= buf) ==>
              var n := Next(buf).value.width;
              && Next(buf).value.c == REPLACEMENT
              && (n == 1 || Begins(buf[..n]))
              && (forall k :: n < k <= |buf| ==> !Begins(buf[..k]))
  {
    forall c | Encode(c) <= buf ensures Next(buf) == Some(Item(c, Width(c))) {
      assert buf == Encode(c) + buf[|Encode(c)|..];
      NextEncoded(c, buf[|Encode(c)|..]);
    }
    NoneIsBeginning(buf);
    if Next(buf).Some? { ReplacedSubpart(buf); }
  }

  lemma NoneIsBeginning(buf: seq<byte>)
    requires buf != []
    ensures Next(buf).None? <==> exists c :: buf < Encode(c)
  {
    if Next(buf).None? {
      BeginsWhenWellFormed(buf);
    }
    if c :| buf < Encode(c) {
      assert buf[0] == Encode(c)[0];
      EncodeComplete(c);
      assert Begins(buf);
      BeginsShape(buf);
    }
  }

  lemma ReplacedSubpart(buf: seq<byte>)
    requires buf != [] && Next(buf).Some?
    ensures (exists c :: Encode(c) <= buf) ||
            var n := Next(buf).value.width;
            && Next(buf).value.c == REPLACEMENT
            && (n == 1 || Begins(buf[..n]))
            && forall k :: n < k <= |buf| ==> !Begins(buf[..k])
  {
    var first := buf[0];
    var n := Next(buf).value.width;
    if first < 0x80 {
      assert Encode(first as char) <= buf;
    } else if Lead(first) && SecondOk(first, buf[1]) && n == Need(first) {
      CharOfEncode(buf[..n]);
      assert Encode(CharOf(buf[..n])) <= buf;
    } else {
      BeginsShape(buf[..n]);
      forall k | n < k <= |buf| ensures !Begins(buf[..k]) {
        BeginsShape(buf[..k]);
        assert buf[..k][n] == buf[n] && buf[..k][0] == first && buf[..k][1] == buf[1];
      }
    }
  }

  // ---------------------------------------------------------------- whole buffers

  function Widths(items: seq<Item>): nat {
    if items == [] then 0 else items[0].width + Widths(items[1..])
  }

  function Chars(items: seq<Item>): string {
    if items == [] then "" else [items[0].c] + Chars(items[1..])
  }

  /** Characters with the widths their own UTF-8 form has (`feed_text`). */
  function Pairs(s: string): seq<Item> {
    if s == "" then [] else [Item(s[0], Width(s[0]))] + Pairs(s[1..])
  }

  /** A buffer the decoder keeps: nothing, or the beginning of a longer well-formed sequence. */
  predicate Withheld(held: seq<byte>) {
    held == [] || Next(held).None?
  }

  /** At most three bytes are withheld, and no byte is lost or counted twice. */
  lemma {:induction false} DecodeConserves(buf: seq<byte>)
    ensures Withheld(Decode(buf).1) && |Decode(buf).1| <= 3
    ensures Widths(Decode(buf).0) + |Decode(buf).1| == |buf|
    ensures forall i :: 0 <= i < |Decode(buf).0| ==> 1 <= Decode(buf).0[i].width <= 4
    decreases |buf|
  {
    if buf != [] && Next(buf).Some? {
      var w := Next(buf).value.width;
      DecodeConserves(buf[w..]);
      assert ([Next(buf).value] + Decode(buf[w..]).0)[1..] == Decode(buf[w..]).0;
    }
  }

  lemma WithheldDecode(held: seq<byte>)
    requires Withheld(held)
    ensures Decode(held) == ([], held)
  {
  }

  /** Cutting the input anywhere changes nothing: the withheld bytes carry over. */
  lemma {:induction false} DecodeSplit(a: seq<byte>, b: seq<byte>)
    ensures Decode(a + b).0 == Decode(a).0 + Decode(Decode(a).1 + b).0
    ensures Decode(a + b).1 == Decode(Decode(a).1 + b).1
    decreases |a|
  {
    if a == [] {
      assert a + b == b;
    } else if Next(a).Some? {
      var w := Next(a).value.width;
      NextStable(a, b);
      assert (a + b)[w..] == a[w..] + b;
      DecodeSplit(a[w..], b);
    }
  }

  /** Decoding undoes encoding, whatever follows. */
  lemma {:induction false} DecodeEncoded(s: string, more: seq<byte>)
    ensures Decode(EncodeAll(s) + more).0 == Pairs(s) + Decode(more).0
    ensures Decode(EncodeAll(s) + more).1 == Decode(more).1
  {
    if s == "" {
      assert EncodeAll(s) + more == more;
    } else {
      var rest := EncodeAll(s[1..]) + more;
      assert EncodeAll(s) + more == Encode(s[0]) + rest;
      DecodeOne(s[0], rest);
      DecodeEncoded(s[1..], more);
      ItemsAssoc(Item(s[0], Width(s[0])), Pairs(s[1..]), Decode(more).0);
    }
  }

  lemma ItemsAssoc(first: Item, a: seq<Item>, b: seq<Item>)
    ensures [first] + (a + b) == [first] + a + b
  {
  }

  lemma DecodeOne(c: char, rest: seq<byte>)
    ensures Decode(Encode(c) + rest) == ([Item(c, Width(c))] + Decode(rest).0, Decode(rest).1)
  {
    NextEncoded(c, rest);
    assert (Encode(c) + rest)[Width(c)..] == rest;
  }

  lemma {:induction false} CharsPairs(s: string)
    ensures Chars(Pairs(s)) == s
  {
    if s != "" { CharsPairs(s[1..]); }
  }

  /** UTF-8 text survives the decoder unchanged. */
  lemma RoundTrip(s: string)
    ensures DecodeAll(EncodeAll(s)) == Pairs(s) && Chars(DecodeAll(EncodeAll(s))) == s
  {
    DecodeEncoded(s, []);
    assert EncodeAll(s) + [] == EncodeAll(s);
    CharsPairs(s);
  }

  /** What a loop over `buffer` has decoded once it stands at `index`. */
  ghost predicate DecodedTo(buffer: seq<byte>, index: nat, decoded: seq<Item>)
    requires index <= |buffer|
  {
    Decode(buffer) == (decoded + Decode(buffer[index..]).0, Decode(buffer[index..]).1)
  }

  lemma DecodedStart(buffer: seq<byte>)
    ensures DecodedTo(buffer, 0, [])
  {
    assert buffer[0..] == buffer;
    assert [] + Decode(buffer).0 == Decode(buffer).0;
  }

  lemma DecodedStep(buffer: seq<byte>, index: nat, decoded: seq<Item>)
    requires index < |buffer| && DecodedTo(buffer, index, decoded) && Next(buffer[index..]).Some?
    ensures var item := Next(buffer[index..]).value;
            DecodedTo(buffer, index + item.width, decoded + [item])
  {
    var item := Next(buffer[index..]).value;
    assert buffer[index..][item.width..] == buffer[index + item.width..];
    var rest := Decode(buffer[index + item.width..]);
    assert Decode(buffer[index..]) == ([item] + rest.0, rest.1);
    assert decoded + ([item] + rest.0) == decoded + [item] + rest.0;
  }

  lemma DecodedDone(buffer: seq<byte>, index: nat, decoded: seq<Item>)
    requires index <= |buffer| && DecodedTo(buffer, index, decoded)
    requires index < |buffer| ==> Next(buffer[index..]).None?
    ensures Decode(buffer) == (decoded, buffer[index..]) && Withheld(buffer[index..])
  {
    DecodeConserves(buffer);
    assert decoded + [] == decoded;
  }

  // ---------------------------------------------------------------- the source's object

  /** `_Utf8ByteDecoder`. */
  class ByteDecoder {
    var held: seq<byte>

    ghost predicate Valid()
      reads this
    {
      Withheld(held)
    }

    constructor ()
      ensures Valid() && held == []
    {
      held := [];
    }

    /** One pass of the loop in `feed`: the item at `index`, or None to withhold the rest. */
    static method Scan(buffer: seq<byte>, index: nat) returns (item: Option<Item>)
      requires index < |buffer|
      ensures item == Next(buffer[index..])
    {
      var rest := buffer[index..];
      var first := buffer[index];
      if first < 0x80 { return Some(Item(first as char, 1)); }
      if first < 0xC2 || first >= 0xF5 { return Some(Item(REPLACEMENT, 1)); }
      var need := Need(first);
      if index + 1 >= |buffer| { return None; }
      if !SecondOk(first, buffer[index + 1]) { return Some(Item(REPLACEMENT, 1)); }
      var consumed := 2;
      while consumed < need && index + consumed < |buffer| && Continuation(buffer[index + consumed])
        invariant 2 <= consumed <= need && index + consumed <= |buffer|
        invariant Consumed(rest, 2, need) == Consumed(rest, consumed, need)
      {
        assert rest[consumed] == buffer[index + consumed];
        consumed := consumed + 1;
      }
      assert index + consumed < |buffer| ==> rest[consumed] == buffer[index + consumed];
      if consumed == need { return Some(Item(CharOf(rest[..need]), need)); }
      item := if index + consumed < |buffer| then Some(Item(REPLACEMENT, consumed)) else None;
    }

    /** The same, with what it adds to the items decoded so far. */
    static method ScanOne(buffer: seq<byte>, index: nat, ghost decoded: seq<Item>) returns (item: Option<Item>)
      requires index < |buffer| && DecodedTo(buffer, index, decoded)
      ensures item == Next(buffer[index..])
      ensures item.Some? ==> 1 <= item.value.width <= |buffer| - index
      ensures item.Some? ==> DecodedTo(buffer, index + item.value.width, decoded + [item.value])
    {
      item := Scan(buffer, index);
      if item.Some? {
        DecodedStep(buffer, index, decoded);
      }
    }

    method Feed(data: seq<byte>) returns (decoded: seq<Item>)
      requires Valid()
      modifies this
      ensures Valid()
      ensures decoded == Decode(old(held) + data).0
      ensures held == Decode(old(held) + data).1
    {
      var buffer := held + data;
      var index;
      decoded, index := ScanAll(buffer);
      held := buffer[index..];
    }

    /** The loop of `feed`: all items of the buffer, and where the withheld bytes begin. */
    static method ScanAll(buffer: seq<byte>) returns (decoded: seq<Item>, index: nat)
      ensures index <= |buffer| && Decode(buffer) == (decoded, buffer[index..]) && Withheld(buffer[index..])
    {
      decoded, index := [], 0;
      DecodedStart(buffer);
      while index < |buffer|
        invariant index <= |buffer|
        invariant DecodedTo(buffer, index, decoded)
      {
        var item := ScanOne(buffer, index, decoded);
        if item.None? {
          break;
        }
        decoded := decoded + [item.value];
        index := index + item.value.width;
      }
      DecodedDone(buffer, index, decoded);
    }

    method Finish() returns (decoded: seq<Item>)
      requires Valid()
      modifies this
      ensures Valid() && held == []
      ensures decoded == Flush(old(held))
    {
      var last := held;
      held := [];
      decoded := if last == [] then [] else [Item(REPLACEMENT, |last|)];
    }
  }
}
