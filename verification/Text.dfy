/** Strings: lists of chunks and their concatenation, UTF-8 sizes, and the order of code points. */
module Text {

  /** The text a list of chunks carries, chunk boundaries forgotten (`"".join(chunks)`). */
  function Join<T>(chunks: seq<seq<T>>): seq<T> {
    if chunks == [] then [] else chunks[0] + Join(chunks[1..])
  }

  lemma {:induction false} JoinAppend<T>(a: seq<seq<T>>, b: seq<seq<T>>)
    ensures Join(a + b) == Join(a) + Join(b)
  {
    if a == [] {
      assert a + b == b;
    } else {
      assert (a + b)[1..] == a[1..] + b;
      JoinAppend(a[1..], b);
    }
  }

  lemma JoinSnoc<T>(a: seq<seq<T>>, x: seq<T>)
    ensures Join(a + [x]) == Join(a) + x
  {
    JoinAppend(a, [x]);
    assert Join([x]) == x + Join([]);
  }

  /** Number of bytes in the UTF-8 form of one scalar value (RFC 3629 section 3). */
  function Width(c: char): (w: nat)
    ensures 1 <= w <= 4
  {
    var v := c as int;
    if v < 0x80 then 1 else if v < 0x800 then 2 else if v < 0x10000 then 3 else 4
  }

  /** Number of bytes in the UTF-8 form of a text. */
  function Size(s: string): nat {
    if s == "" then 0 else Width(s[0]) + Size(s[1..])
  }

  lemma {:induction false} SizeAppend(a: string, b: string)
    ensures Size(a + b) == Size(a) + Size(b)
  {
    if a == "" {
      assert a + b == b;
    } else {
      assert (a + b)[1..] == a[1..] + b;
      SizeAppend(a[1..], b);
    }
  }

  /** Code-point order of strings. */
  predicate TextLess(a: string, b: string) {
    if b == "" then false
    else if a == "" then true
    else if a[0] != b[0] then a[0] < b[0]
    else TextLess(a[1..], b[1..])
  }

  lemma {:induction false} TextTotal(a: string, b: string)
    ensures !(TextLess(a, b) && TextLess(b, a))
    ensures a == b || TextLess(a, b) || TextLess(b, a)
    ensures a == b ==> !TextLess(a, b)
  {
    if a != "" && b != "" && a[0] == b[0] {
      TextTotal(a[1..], b[1..]);
      assert a == [a[0]] + a[1..] && b == [b[0]] + b[1..];
    }
  }

  lemma {:induction false} TextTransitive(a: string, b: string, c: string)
    requires TextLess(a, b) && TextLess(b, c)
    ensures TextLess(a, c)
  {
    if a != "" && a[0] == b[0] == c[0] {
      TextTransitive(a[1..], b[1..], c[1..]);
    }
  }

  /** `a` comes before `b` from position `j` on: there it ends or has the smaller character. */
  predicate BeforeAt(a: string, b: string, j: nat) {
    && j <= |a| && j < |b| && a[..j] == b[..j]
    && (j < |a| ==> a[j] < b[j])
  }

  /** Strings are ordered by their first difference; a proper beginning comes first. */
  lemma {:induction false} TextLessIs(a: string, b: string)
    ensures TextLess(a, b) <==> exists j :: BeforeAt(a, b, j)
  {
    if b == "" {
    } else if a == "" {
      assert BeforeAt(a, b, 0);
    } else if a[0] != b[0] {
      if j: nat :| BeforeAt(a, b, j) {
        FirstAgrees(a, b, j);
      }
      assert a[0] < b[0] ==> BeforeAt(a, b, 0);
    } else {
      TextLessIs(a[1..], b[1..]);
      BeforeAtNext(a, b);
    }
  }

  lemma FirstAgrees(a: string, b: string, j: nat)
    requires a != "" && b != "" && BeforeAt(a, b, j)
    ensures j > 0 ==> a[0] == b[0]
  {
    if j > 0 {
      assert a[..j][0] == b[..j][0];
    }
  }

  lemma BeforeAtNext(a: string, b: string)
    requires a != "" && b != "" && a[0] == b[0]
    ensures (exists j :: BeforeAt(a, b, j)) <==> exists j :: BeforeAt(a[1..], b[1..], j)
  {
    if j: nat :| BeforeAt(a, b, j) {
      assert j > 0;
      assert a[1..][..j - 1] == a[..j][1..] && b[1..][..j - 1] == b[..j][1..];
      assert BeforeAt(a[1..], b[1..], j - 1);
    }
    if j: nat :| BeforeAt(a[1..], b[1..], j) {
      assert a[..j + 1] == [a[0]] + a[1..][..j] && b[..j + 1] == [b[0]] + b[1..][..j];
      assert BeforeAt(a, b, j + 1);
    }
  }
}
