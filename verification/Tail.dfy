/** The bounded diagnostic tail: the longest suffix, in whole characters, whose UTF-8 form fits. */
module Tail {
  import opened Text

  /** Drop characters from the front until the rest fits `limit` bytes. */
  function Fit(s: string, limit: int): string {
    if s == "" || Size(s) <= limit then s else Fit(s[1..], limit)
  }

  /** It is a suffix, it fits, and every longer suffix does not. */
  lemma {:induction false} FitIsLongest(s: string, limit: int)
    ensures |Fit(s, limit)| <= |s| && Fit(s, limit) == s[|s| - |Fit(s, limit)|..]
    ensures Fit(s, limit) == "" || Size(Fit(s, limit)) <= limit
    ensures forall i :: 0 <= i < |s| - |Fit(s, limit)| ==> Size(s[i..]) > limit
  {
    if s == "" || Size(s) <= limit {
      assert s[0..] == s;
    } else {
      var t := s[1..];
      FitIsLongest(t, limit);
      forall i | 0 <= i < |s| - |Fit(s, limit)| ensures Size(s[i..]) > limit {
        if i == 0 {
          assert s[0..] == s;
        } else {
          assert t[i - 1..] == s[i..];
        }
      }
      assert t[|t| - |Fit(t, limit)|..] == s[|s| - |Fit(t, limit)|..];
    }
  }

  /** Keeping only the tail loses nothing that a later tail needs. */
  lemma {:induction false} FitAppend(s: string, more: string, limit: int)
    ensures Fit(Fit(s, limit) + more, limit) == Fit(s + more, limit)
  {
    if s != "" && Size(s) > limit {
      FitAppend(s[1..], more, limit);
      SizeAppend(s, more);
      assert (s + more)[1..] == s[1..] + more;
    }
  }
}
