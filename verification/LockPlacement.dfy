/**
  Lock paths: how the parser reads a `packages` key, and that on the paths it reads the resolvers'
  string cuts are the package nesting. Reachable nodes have canonical paths only.
 */
module LockPlacement {
  import opened Common
  import opened SlashPaths
  import opened LockPaths
  import opened LockGraph

  const NM := "node_modules"

  // ---------------------------------------------------------------- names

  predicate Lead(c: char) {
    'a' <= c <= 'z' || '0' <= c <= '9'
  }

  predicate Tail(c: char) {
    Lead(c) || c == '.' || c == '_' || c == '~' || c == '-'
  }

  predicate Token(s: string) {
    s != "" && Lead(s[0]) && forall k :: 0 <= k < |s| ==> Tail(s[k])
  }

  /** `_NAME_RE.match`: its `$` also matches before one final newline. */
  predicate NameRe(s: string) {
    Token(s) || (|s| > 1 && s[|s| - 1] == '\n' && Token(s[..|s| - 1]))
  }

  /** A path segment: not empty, and free of slashes and backslashes. */
  predicate Segment(s: string) {
    s != "" && forall k :: 0 <= k < |s| ==> s[k] != '/' && s[k] != '\\'
  }

  lemma NameReIs(s: string)
    requires NameRe(s)
    ensures Segment(s) && s[0] != '@'
  {
    if !Token(s) {
      assert forall k :: 0 <= k < |s| - 1 ==> s[k] == s[..|s| - 1][k];
    }
  }

  /** `_validate_name` raises nothing. */
  predicate ValidName(n: string) {
    if n != "" && n[0] == '@' then
      var k := FirstSlash(n);
      k < |n| && NameRe(n[1..k]) && NameRe(n[k + 1..])
    else NameRe(n)
  }

  /** A name the parser can have read from a path: no package is called `node_modules`. */
  predicate PlacedName(n: string) {
    ValidName(n) && n != NM
  }

  /** The segments a name takes in a path. */
  function NameSegs(n: string): seq<string> {
    var k := FirstSlash(n);
    if k < |n| then [n[..k], n[k + 1..]] else [n]
  }

  /** A name has at most one slash, and only when it is scoped. */
  lemma OneSlash(n: string, i: nat)
    requires ValidName(n) && i < |n| && n[i] == '/'
    ensures n[0] == '@' && i == FirstSlash(n)
  {
    var k := FirstSlash(n);
    if n[0] == '@' {
      NameReIs(n[k + 1..]);
      assert forall j :: k < j < |n| ==> n[j] == n[k + 1..][j - k - 1];
    } else {
      NameReIs(n);
    }
  }

  lemma ScopeSegment(n: string, k: nat)
    requires 1 < k <= |n| && n[0] == '@' && Segment(n[1..k])
    ensures Segment(n[..k])
  {
    assert forall j :: 1 <= j < k ==> n[j] == n[1..k][j - 1];
  }

  lemma ScopedParts(n: string)
    requires ValidName(n) && n[0] == '@'
    ensures var k := FirstSlash(n);
            && 0 < k < |n| && n == n[..k] + ['/'] + n[k + 1..]
            && Segment(n[..k]) && Segment(n[k + 1..]) && n[k + 1..][0] != '@'
  {
    var k := FirstSlash(n);
    NameReIs(n[1..k]);
    NameReIs(n[k + 1..]);
    ScopeSegment(n, k);
    Splice(n, k);
  }

  lemma UnscopedPart(n: string)
    requires ValidName(n) && n[0] != '@'
    ensures FirstSlash(n) == |n| && Segment(n)
  {
    NameReIs(n);
  }

  // ---------------------------------------------------------------- paths from names

  /** The canonical path of a package nested as `names` says; the root is the empty nesting. */
  function PathOf(names: seq<string>): string {
    if names == [] then ""
    else Candidate(PathOf(names[..|names| - 1]), names[|names| - 1])
  }

  predicate AllPlaced(names: seq<string>) {
    forall k :: 0 <= k < |names| ==> PlacedName(names[k])
  }

  lemma PathOfEmpty(names: seq<string>)
    ensures PathOf(names) == "" <==> names == []
  {
    if names != [] {
      assert |PathOf(names)| > 0;
    }
  }

  /** A separator begins and ends with its only slashes, 13 characters apart, and goes on with `n`. */
  lemma SepChars(s: string, j: int)
    requires SepAt(s, j)
    ensures s[j] == '/' && s[j + 13] == '/' && s[j + 1] == 'n'
  {
    var t := s[j..j + |SEP|];
    assert t[0] == SEP[0] && t[13] == SEP[13] && t[1] == SEP[1];
  }

  /** A name after `node_modules/` starts no separator, neither inside it nor across the boundary. */
  lemma NoSepInName(s: string, start: nat, n: string, j: int)
    requires ValidName(n) && 1 <= start <= |s| && s[start..] == n
    requires j >= start - 1
    ensures !SepAt(s, j)
  {
    if SepAt(s, j) {
      SepChars(s, j);
      assert s[j + 13] == n[j + 13 - start] && s[j + 1] == n[j + 1 - start];
      OneSlash(n, j + 13 - start);
    }
  }

  /** Cutting the last name off: the resolvers' `rfind` finds the separator before it. */
  lemma ParentOfCandidate(directory: string, n: string)
    requires ValidName(n)
    ensures Parent(Candidate(directory, n)) == directory
  {
    var path := Candidate(directory, n);
    LastSepIs(path);
    var start := |path| - |n|;
    assert path[start..] == n;
    if directory == "" {
      if LastSep(path) >= 0 {
        SepChars(path, LastSep(path));
        assert path[LastSep(path)] == '/';
        TopSlash(path, n, LastSep(path));
        NoSepInName(path, start, n, LastSep(path));
      }
    } else {
      assert path == directory + SEP + n;
      assert path[|directory|..|directory| + |SEP|] == SEP;
      assert SepAt(path, |directory|);
      if LastSep(path) > |directory| {
        SepChars(path, LastSep(path));
        SepSlash(path, directory, n, LastSep(path));
        NoSepInName(path, start, n, LastSep(path));
      }
    }
  }

  lemma TopSlash(path: string, n: string, j: nat)
    requires path == TOP + n && j < |path| && path[j] == '/'
    ensures j >= |TOP| - 1
  {
    if j < |TOP| {
      assert TOP[j] == '/';
    }
  }

  lemma SepSlash(path: string, directory: string, n: string, j: nat)
    requires path == directory + SEP + n && |directory| < j < |path| && path[j] == '/'
    ensures j >= |directory| + |SEP| - 1
  {
    if j < |directory| + |SEP| {
      assert SEP[j - |directory|] == '/';
    }
  }

  /** The nestings around a package, the innermost first. */
  function Nestings(names: seq<string>): seq<string> {
    [PathOf(names)] + if names == [] then [] else Nestings(names[..|names| - 1])
  }

  predicate AllValid(names: seq<string>) {
    forall k :: 0 <= k < |names| ==> ValidName(names[k])
  }

  /** On canonical paths the ancestors of the string searches are the enclosing packages. */
  lemma {:induction false} AncestorsOfPath(names: seq<string>)
    requires AllValid(names)
    ensures Ancestors(PathOf(names)) == Nestings(names)
  {
    PathOfEmpty(names);
    if names != [] {
      ParentOfCandidate(PathOf(names[..|names| - 1]), names[|names| - 1]);
      AncestorsOfPath(names[..|names| - 1]);
    }
  }

  // ---------------------------------------------------------------- the parser

  predicate AllSegments(segs: seq<string>) {
    forall k :: 0 <= k < |segs| ==> Segment(segs[k])
  }

  lemma {:induction false} SplitJoin(segs: seq<string>)
    requires segs != [] && AllSegments(segs)
    ensures Split(JoinSlash(segs)) == segs
  {
    if |segs| == 1 {
      assert Segment(segs[0]);
      assert segs == [segs[0]];
    } else {
      var rest := segs[1..];
      assert Segment(segs[0]);
      SplitJoin(rest);
      SplitFirst(segs[0], JoinSlash(rest));
      assert segs == [segs[0]] + rest;
    }
  }

  lemma SplitFirst(first: string, rest: string)
    requires Segment(first)
    ensures Split(first + ['/'] + rest) == [first] + Split(rest)
  {
    var path := first + ['/'] + rest;
    FirstSlashOf(first, rest);
    assert path[..|first|] == first && path[|first| + 1..] == rest;
  }

  datatype Parsed =
    | Root
    | Node(parent: string, name: string)
    | UnsafePath
    | InvalidName
    | IndexError               // the list of names is empty: an uncaught exception

  predicate AtSign(s: string) {
    s != "" && s[0] == '@'
  }

  /** The name at the front of the segments, and how many of them it takes. */
  function TakeName(segs: seq<string>): Option<(string, nat)>
    requires segs != []
    ensures TakeName(segs).Some? ==> 1 <= TakeName(segs).value.1 <= |segs|
  {
    if segs[0] == NM then None
    else if AtSign(segs[0]) then
      if |segs| < 2 then None else Some((segs[0] + ['/'] + segs[1], 2))
    else Some((segs[0], 1))
  }

  /** The names read from the segments after a `node_modules`; a trailing `node_modules` is passed over. */
  function NamesFrom(segs: seq<string>): Option<seq<string>>
    decreases |segs|
  {
    if segs == [] then Some([])
    else
      match TakeName(segs)
      case None => None
      case Some((name, used)) => Prepended(name, NamesAfter(segs[used..]))
  }

  /** After a name the path ends or goes on with `node_modules`. */
  function NamesAfter(segs: seq<string>): Option<seq<string>>
    decreases |segs|
  {
    if segs == [] then Some([])
    else if segs[0] != NM then None
    else NamesFrom(segs[1..])
  }

  function Prepended(name: string, names: Option<seq<string>>): Option<seq<string>> {
    if names.None? then None else Some([name] + names.value)
  }

  predicate DoubleSlash(path: string, k: nat) {
    k + 1 < |path| && path[k] == '/' && path[k + 1] == '/'
  }

  /** `//`, a leading or trailing slash, or a backslash. */
  predicate UnsafeText(path: string)
    requires path != ""
  {
    || path[0] == '/' || path[|path| - 1] == '/'
    || (exists k :: 0 <= k < |path| && DoubleSlash(path, k))
    || '\\' in path
  }

  /** `_parse_path`. */
  function Parse(path: string): Parsed {
    if path == "" then Root
    else if UnsafeText(path) then UnsafePath
    else
      var segs := Split(path);
      if segs[0] != NM then UnsafePath
      else
        match NamesFrom(segs[1..])
        case None => UnsafePath
        case Some(names) => NodeOf(names)
  }

  function NodeOf(names: seq<string>): Parsed {
    if !AllValid(names) then InvalidName
    else if names == [] then IndexError
    else Node(PathOf(names[..|names| - 1]), names[|names| - 1])
  }

  function Combined(names: seq<string>, more: Option<seq<string>>): Option<seq<string>> {
    if more.None? then None else Some(names + more.value)
  }

  lemma CombinedNext(names: seq<string>, name: string, more: Option<seq<string>>)
    ensures Combined(names, Prepended(name, more)) == Combined(names + [name], more)
  {
    if more.Some? {
      assert names + ([name] + more.value) == names + [name] + more.value;
    }
  }

  lemma CombinedNil(names: seq<string>, more: Option<seq<string>>)
    ensures Combined([], more) == more && Combined(names, Some([])) == Some(names)
  {
    if more.Some? {
      assert [] + more.value == more.value;
    }
    assert names + [] == names;
  }

  /** `_parse_path`, with its index loop over the segments. */
  method ParsePath(path: string) returns (parsed: Parsed)
    ensures parsed == Parse(path)
  {
    if path == "" {
      return Root;
    }
    if UnsafeText(path) {
      return UnsafePath;
    }
    var segments := Split(path);
    if segments[0] != NM {
      return UnsafePath;
    }
    var read := ReadNames(segments);
    if read.None? {
      return UnsafePath;
    }
    parsed := FromNames(read.value);
  }

  /** Names are checked one by one, and the last is the node's own. */
  method FromNames(names: seq<string>) returns (parsed: Parsed)
    ensures parsed == NodeOf(names)
  {
    for k := 0 to |names|
      invariant forall j :: 0 <= j < k ==> ValidName(names[j])
    {
      if !ValidName(names[k]) {
        return InvalidName;
      }
    }
    if names == [] {
      return IndexError;
    }
    return Node(PathOf(names[..|names| - 1]), names[|names| - 1]);
  }

  method ReadNames(segments: seq<string>) returns (read: Option<seq<string>>)
    requires segments != []
    ensures read == NamesFrom(segments[1..])
  {
    var names := [];
    var i := 1;
    CombinedNil([], NamesFrom(segments[1..]));
    while i < |segments|
      invariant 1 <= i <= |segments|
      invariant NamesFrom(segments[1..]) == Combined(names, NamesFrom(segments[i..]))
    {
      ghost var rest := segments[i..];
      var seg := segments[i];
      if seg == NM {
        return None;
      }
      var name := seg;
      if AtSign(seg) {
        if i + 1 >= |segments| {
          return None;
        }
        name := seg + ['/'] + segments[i + 1];
        i := i + 1;
      }
      i := i + 1;
      assert NamesFrom(rest) == Prepended(name, NamesAfter(segments[i..]));
      CombinedNext(names, name, NamesAfter(segments[i..]));
      names := names + [name];
      if i < |segments| {
        if segments[i] != NM {
          return None;
        }
        assert segments[i..][1..] == segments[i + 1..];
        i := i + 1;
      }
    }
    CombinedNil(names, None);
    return Some(names);
  }

  // ---------------------------------------------------------------- what the parser accepts

  /** The segments of a canonical path. */
  function SegsOf(names: seq<string>): seq<string> {
    if names == [] then []
    else [NM] + NameSegs(names[0]) + SegsOf(names[1..])
  }

  lemma NameSegsIs(n: string)
    requires ValidName(n)
    ensures if AtSign(n) then
              |NameSegs(n)| == 2 && NameSegs(n)[0] + ['/'] + NameSegs(n)[1] == n && AtSign(NameSegs(n)[0])
            else NameSegs(n) == [n]
    ensures AllSegments(NameSegs(n)) && JoinSlash(NameSegs(n)) == n
  {
    if AtSign(n) {
      ScopedParts(n);
      assert NameSegs(n)[1..] == [NameSegs(n)[1]];
    } else {
      UnscopedPart(n);
    }
  }

  lemma ScopedNameSegs(scope: string, rest: string)
    requires AtSign(scope) && ValidName(scope + ['/'] + rest) && forall k :: 0 <= k < |scope| ==> scope[k] != '/'
    ensures NameSegs(scope + ['/'] + rest) == [scope, rest]
  {
    FirstSlashOf(scope, rest);
    var n := scope + ['/'] + rest;
    assert n[..|scope|] == scope && n[|scope| + 1..] == rest;
  }

  /** Read names give back the segments, up to one trailing `node_modules`. */
  predicate SegsFor(segs: seq<string>, names: seq<string>) {
    segs == SegsOf(names) || segs == SegsOf(names) + [NM]
  }

  lemma TakeNameIs(segs: seq<string>)
    requires segs != [] && AllSegments(segs) && TakeName(segs).Some? && ValidName(TakeName(segs).value.0)
    ensures PlacedName(TakeName(segs).value.0)
    ensures NameSegs(TakeName(segs).value.0) == segs[..TakeName(segs).value.1]
  {
    assert Segment(segs[0]);
    var name := TakeName(segs).value.0;
    if AtSign(segs[0]) {
      ScopedNameSegs(segs[0], segs[1]);
      assert name[0] == '@' && NM[0] == 'n';
    } else {
      NameSegsIs(name);
    }
  }

  lemma TakeNameOf(name: string, rest: seq<string>)
    requires PlacedName(name)
    ensures TakeName(NameSegs(name) + rest) == Some((name, |NameSegs(name)|))
    ensures (NameSegs(name) + rest)[|NameSegs(name)|..] == rest
  {
    NameSegsIs(name);
    if AtSign(name) {
      assert NM[0] == 'n' && NameSegs(name)[0][0] == '@';
    }
  }

  lemma SegsOfNext(name: string, names: seq<string>, tail: seq<string>)
    ensures [NM] + (NameSegs(name) + (SegsOf(names) + tail)) == SegsOf([name] + names) + tail
  {
    var all := [name] + names;
    assert all[0] == name && all[1..] == names;
    var mine, rest := NameSegs(name), SegsOf(names);
    assert SegsOf(all) == [NM] + mine + rest;
    SegsAssoc(mine, rest, tail);
  }

  lemma SegsAssoc(mine: seq<string>, rest: seq<string>, tail: seq<string>)
    ensures [NM] + (mine + (rest + tail)) == [NM] + mine + rest + tail
  {
  }

  lemma {:induction false} NamesAfterIs(segs: seq<string>)
    requires AllSegments(segs) && NamesAfter(segs).Some? && AllValid(NamesAfter(segs).value)
    ensures AllPlaced(NamesAfter(segs).value) && SegsFor(segs, NamesAfter(segs).value)
    decreases |segs|
  {
    if |segs| > 1 {
      var rest := segs[1..];
      var (name, used) := TakeName(rest).value;
      var names := NamesAfter(rest[used..]).value;
      assert NamesAfter(segs).value == [name] + names;
      assert ([name] + names)[0] == name && ([name] + names)[1..] == names;
      ValidParts(name, names);
      TakeNameIs(rest);
      NamesAfterIs(rest[used..]);
      assert segs == [NM] + (rest[..used] + rest[used..]);
      SegsOfNext(name, names, []);
      SegsOfNext(name, names, [NM]);
      assert SegsOf(names) + [] == SegsOf(names) && SegsOf([name] + names) + [] == SegsOf([name] + names);
    } else if |segs| == 1 {
      assert segs == [] + [NM];
    }
  }

  lemma ValidParts(name: string, names: seq<string>)
    requires AllValid([name] + names)
    ensures ValidName(name) && AllValid(names)
  {
    assert ([name] + names)[0] == name;
    assert forall k :: 0 <= k < |names| ==> names[k] == ([name] + names)[k + 1];
  }

  /** The converse: the segments of placed names are read back, followed by whatever the rest gives. */
  lemma {:induction false} NamesAfterSegs(names: seq<string>, tail: seq<string>)
    requires AllPlaced(names)
    ensures NamesAfter(SegsOf(names) + tail) == Combined(names, NamesAfter(tail))
    decreases |names|
  {
    if names == [] {
      assert SegsOf(names) + tail == tail;
      CombinedNil([], NamesAfter(tail));
    } else {
      var name, rest := names[0], SegsOf(names[1..]) + tail;
      assert PlacedName(name);
      TakeNameOf(name, rest);
      NamesAfterSegs(names[1..], tail);
      SegsOfNext(name, names[1..], tail);
      assert names == [name] + names[1..];
      NamesFromName(NameSegs(name) + rest);
      assert [] + [name] == [name];
      CombinedNext([], name, NamesAfter(rest));
      CombinedTwice(name, names[1..], NamesAfter(tail));
    }
  }

  lemma NamesFromName(segs: seq<string>)
    requires segs != [] && TakeName(segs).Some?
    ensures NamesAfter([NM] + segs) == Prepended(TakeName(segs).value.0, NamesAfter(segs[TakeName(segs).value.1..]))
  {
    assert ([NM] + segs)[1..] == segs;
  }

  lemma CombinedTwice(name: string, names: seq<string>, more: Option<seq<string>>)
    ensures Prepended(name, Combined(names, more)) == Combined([name] + names, more)
  {
    if more.Some? {
      assert [name] + (names + more.value) == [name] + names + more.value;
    }
  }

  lemma {:induction false} JoinSlashAppend(a: seq<string>, b: seq<string>)
    requires a != [] && b != []
    ensures JoinSlash(a + b) == JoinSlash(a) + ['/'] + JoinSlash(b)
  {
    if |a| == 1 {
      assert (a + b)[1..] == b;
    } else {
      assert (a + b)[1..] == a[1..] + b;
      JoinSlashAppend(a[1..], b);
    }
  }

  lemma {:induction false} SegsOfSnoc(names: seq<string>, name: string)
    ensures SegsOf(names + [name]) == SegsOf(names) + ([NM] + NameSegs(name))
  {
    if names == [] {
      assert [] + [name] == [name] && [name][1..] == [];
      assert SegsOf([name]) == [NM] + NameSegs(name) + [];
    } else {
      assert (names + [name])[1..] == names[1..] + [name];
      SegsOfSnoc(names[1..], name);
    }
  }

  lemma JoinPlaced(name: string)
    requires ValidName(name)
    ensures JoinSlash([NM] + NameSegs(name)) == TOP + name
  {
    NameSegsIs(name);
    JoinSlashAppend([NM], NameSegs(name));
    assert NM + ['/'] == TOP;
    assert JoinSlash([NM]) == NM;
    assert NM + ['/'] + name == TOP + name;
  }

  /** A canonical path is its segments joined, and splits back into them. */
  lemma {:induction false} PathOfSegs(names: seq<string>)
    requires AllPlaced(names)
    ensures JoinSlash(SegsOf(names)) == PathOf(names) && AllSegments(SegsOf(names))
    ensures names != [] ==> SegsOf(names) != []
  {
    if names != [] {
      var init, last := names[..|names| - 1], names[|names| - 1];
      assert names == init + [last];
      PathOfSegs(init);
      SegsOfSnoc(init, last);
      JoinPlaced(last);
      NameSegsIs(last);
      SegmentsJoin(SegsOf(init), [NM] + NameSegs(last));
      if init == [] {
        assert SegsOf(init) + ([NM] + NameSegs(last)) == [NM] + NameSegs(last);
      } else {
        JoinSlashAppend(SegsOf(init), [NM] + NameSegs(last));
        SlashTop(PathOf(init), last);
        PathOfEmpty(init);
      }
    }
  }

  lemma SegmentsJoin(a: seq<string>, b: seq<string>)
    requires AllSegments(a) && |b| > 0 && b[0] == NM && AllSegments(b[1..])
    ensures AllSegments(a + b)
  {
    assert forall k :: 1 <= k < |b| ==> b[k] == b[1..][k - 1];
  }

  lemma SlashTop(directory: string, name: string)
    ensures directory + ['/'] + (TOP + name) == directory + SEP + name
  {
    assert ['/'] + TOP == SEP;
    assert directory + ['/'] + (TOP + name) == directory + (['/'] + TOP) + name;
  }

  lemma {:induction false} SafeJoin(segs: seq<string>)
    requires segs != [] && AllSegments(segs)
    ensures JoinSlash(segs) != "" && !UnsafeText(JoinSlash(segs))
  {
    assert Segment(segs[0]);
    if |segs| > 1 {
      SafeJoin(segs[1..]);
      SafeConcat(segs[0], JoinSlash(segs[1..]));
    }
  }

  lemma SafeConcat(a: string, b: string)
    requires Segment(a) && b != "" && !UnsafeText(b)
    ensures a + ['/'] + b != "" && !UnsafeText(a + ['/'] + b)
  {
    var s := a + ['/'] + b;
    forall k | 0 <= k < |s|
      ensures !DoubleSlash(s, k) && s[k] != '\\'
    {
      if k > |a| {
        assert s[k] == b[k - |a| - 1] && !DoubleSlash(b, k - |a| - 1);
        assert k + 1 < |s| ==> s[k + 1] == b[k - |a|];
      }
    }
    assert s[0] == a[0] && s[|s| - 1] == b[|b| - 1];
  }

  lemma {:induction false} SafeSplit(path: string)
    requires path != "" && !UnsafeText(path)
    ensures AllSegments(Split(path))
    decreases |path|
  {
    var k := FirstSlash(path);
    if k < |path| {
      var rest := path[k + 1..];
      assert rest != "" by {
        assert path[|path| - 1] != '/';
      }
      SafeRest(path, k);
      SafeSplit(rest);
    }
  }

  lemma SafeRest(path: string, k: nat)
    requires path != "" && !UnsafeText(path) && k + 1 < |path| && path[k] == '/'
    ensures path[k + 1..] != "" && !UnsafeText(path[k + 1..])
  {
    var rest := path[k + 1..];
    assert !DoubleSlash(path, k);
    forall j | 0 <= j < |rest|
      ensures !DoubleSlash(rest, j) && rest[j] == path[j + k + 1] && rest[j] != '\\'
    {
      assert !DoubleSlash(path, j + k + 1);
    }
  }

  predicate Placed(names: seq<string>, path: string) {
    names != [] && AllPlaced(names) && (path == PathOf(names) || path == PathOf(names) + (['/'] + NM))
  }

  lemma TrailingPath(names: seq<string>)
    requires names != [] && AllPlaced(names)
    ensures JoinSlash(SegsOf(names) + [NM]) == PathOf(names) + (['/'] + NM)
  {
    PathOfSegs(names);
    JoinSlashAppend(SegsOf(names), [NM]);
    assert PathOf(names) + ['/'] + NM == PathOf(names) + (['/'] + NM);
  }

  lemma PlacedParse(names: seq<string>, tail: seq<string>)
    requires names != [] && AllPlaced(names) && (tail == [] || tail == [NM])
    ensures Parse(JoinSlash(SegsOf(names) + tail)) == NodeOf(names)
  {
    var segs := SegsOf(names) + tail;
    PathOfSegs(names);
    assert AllSegments(segs);
    SafeJoin(segs);
    SplitJoin(segs);
    NamesAfterSegs(names, tail);
    CombinedNil(names, None);
  }

  lemma AcceptedIsPlaced(path: string)
    requires Parse(path).Node?
    ensures exists names :: Placed(names, path) && Parse(path) == NodeOf(names)
  {
    var segs := Split(path);
    JoinSplit(path);
    SafeSplit(path);
    var names := NamesFrom(segs[1..]).value;
    NamesAfterIs(segs);
    PathOfSegs(names);
    TrailingPath(names);
    assert Placed(names, path);
  }

  /**
    The parser accepts exactly the canonical paths of packages and, unlike the validator's placement
    test, the same with one trailing `node_modules`; the parent it reports is the enclosing package.
   */
  lemma ParseAcceptsPlaced(path: string)
    ensures Parse(path).Node? <==> exists names :: Placed(names, path)
  {
    if Parse(path).Node? {
      AcceptedIsPlaced(path);
    }
    if exists names :: Placed(names, path) {
      var names :| Placed(names, path);
      PathOfSegs(names);
      TrailingPath(names);
      PlacedParse(names, []);
      PlacedParse(names, [NM]);
      assert SegsOf(names) + [] == SegsOf(names);
    }
  }

  /** A component that neither is empty nor begins with a dot. */
  predicate Plainly(seg: string) {
    seg != "" && seg[0] != '.'
  }

  lemma {:induction false} DeeperOnly(parts: seq<string>)
    requires forall k :: 0 <= k < |parts| ==> Plainly(parts[k])
    ensures Depth(parts) == Some(|parts|)
  {
    if parts != [] {
      var init := parts[..|parts| - 1];
      assert forall k :: 0 <= k < |init| ==> init[k] == parts[k];
      DeeperOnly(init);
      assert Plainly(parts[|parts| - 1]);
    }
  }

  lemma NameSegsPlain(n: string)
    requires ValidName(n)
    ensures forall k :: 0 <= k < |NameSegs(n)| ==> Plainly(NameSegs(n)[k])
  {
    var k := FirstSlash(n);
    if k < |n| {
      OneSlash(n, k);
      ScopedParts(n);
      var rest := n[k + 1..];
      assert NameRe(rest);
      NameReLead(rest);
    } else {
      UnscopedPart(n);
      NameReLead(n);
    }
  }

  lemma NameReLead(s: string)
    requires NameRe(s)
    ensures s != "" && s[0] != '.'
  {
  }

  lemma {:induction false} SegsPlain(names: seq<string>)
    requires AllPlaced(names)
    ensures forall k :: 0 <= k < |SegsOf(names)| ==> Plainly(SegsOf(names)[k])
  {
    if names != [] {
      var rest := names[1..];
      assert PlacedName(names[0]);
      SegsPlain(rest);
      NameSegsPlain(names[0]);
      assert SegsOf(names) == [NM] + NameSegs(names[0]) + SegsOf(rest);
    }
  }

  /** A key that is accepted as a node leads straight down: followed component by component it never turns up. */
  lemma NodePathLeadsDown(path: string)
    requires Parse(path).Node?
    ensures Depth(Split(path)) == Some(|Split(path)|)
  {
    var segs := Split(path);
    JoinSplit(path);
    SafeSplit(path);
    var names := NamesFrom(segs[1..]).value;
    NamesAfterIs(segs);
    SegsPlain(names);
    DeeperOnly(segs);
  }

  lemma NodeModulesSegment()
    ensures Segment(NM) && AllSegments([NM]) && JoinSlash([NM]) == NM
  {
  }

  lemma ParseSplit(path: string, segs: seq<string>, names: seq<string>)
    requires path != "" && !UnsafeText(path) && Split(path) == segs
    requires segs[0] == NM && NamesFrom(segs[1..]) == Some(names)
    ensures Parse(path) == NodeOf(names)
  {
  }

  /**
    The one key that is neither accepted nor refused with the parser's own error is a bare
    `node_modules`: every other one ends in `Root`, `Node`, `UnsafePath` or `InvalidName`.
   */
  lemma BareNodeModulesCrashes(path: string)
    ensures Parse(path) == IndexError <==> path == NM
  {
    if path == NM {
      BareCrashes();
    } else if path != "" && !UnsafeText(path) && Split(path)[0] == NM {
      JoinSplit(path);
      NoNames(Split(path)[1..]);
    }
  }

  lemma BareCrashes()
    ensures Parse(NM) == IndexError
  {
    NodeModulesSegment();
    SplitJoin([NM]);
    SafeJoin([NM]);
    ParseSplit(NM, [NM], []);
  }

  /** Only nothing reads as no names. */
  lemma NoNames(segs: seq<string>)
    ensures NamesFrom(segs) == Some([]) <==> segs == []
  {
  }

  // ---------------------------------------------------------------- reachable nodes

  predicate ValidDeps(deps: seq<Dependency>) {
    forall k :: 0 <= k < |deps| ==> ValidName(deps[k].name)
  }

  /** What the parser guarantees of every node it keeps. */
  predicate ParsedLock(m: Lock) {
    && WellKeyed(m)
    && (forall p :: p in m ==> p == "" || Parse(p).Node?)
    && (forall p :: p in m ==> NamesValid(m[p]))
  }

  predicate NamesValid(node: Package) {
    && ValidDeps(node.dependencies) && ValidDeps(node.devDependencies)
    && ValidDeps(node.optionalDependencies) && ValidDeps(node.peerDependencies)
  }

  predicate Canonical(names: seq<string>, p: string) {
    AllPlaced(names) && p == PathOf(names)
  }

  lemma EdgeNameValid(node: Package, e: Edge)
    requires NamesValid(node) && e in Edges(node)
    ensures ValidName(e.name)
  {
    EdgesIs(node, e);
  }

  /** No package can be called `node_modules`: such a path is refused. */
  lemma NodeModulesRefused(names: seq<string>)
    requires AllPlaced(names)
    ensures !Parse(Candidate(PathOf(names), NM)).Node?
  {
    var segs := SegsOf(names) + [NM, NM];
    PathOfSegs(names);
    PathOfEmpty(names);
    assert AllSegments(segs);
    assert JoinSlash([NM, NM]) == NM + ['/'] + NM by {
      assert [NM, NM][1..] == [NM];
    }
    assert TOP + NM == NM + ['/'] + NM;
    if names == [] {
      assert segs == [NM, NM];
    } else {
      JoinSlashAppend(SegsOf(names), [NM, NM]);
      SlashTop(PathOf(names), NM);
    }
    assert JoinSlash(segs) == Candidate(PathOf(names), NM);
    SafeJoin(segs);
    SplitJoin(segs);
    NamesAfterSegs(names, [NM, NM]);
    assert [NM, NM][1..] == [NM];
    assert segs == [segs[0]] + segs[1..];
  }

  lemma {:induction false} NestingsIs(names: seq<string>, directory: string)
    requires directory in Nestings(names)
    ensures exists k :: 0 <= k <= |names| && directory == PathOf(names[..k])
  {
    assert names[..|names|] == names;
    if directory != PathOf(names) {
      var init := names[..|names| - 1];
      NestingsIs(init, directory);
      var k :| 0 <= k <= |init| && directory == PathOf(init[..k]);
      assert init[..k] == names[..k];
    }
  }

  ghost predicate IsCanonical(p: string) {
    exists names :: Canonical(names, p)
  }

  lemma NestedCanonical(names: seq<string>, name: string, q: string)
    requires AllPlaced(names) && ValidName(name) && q == Candidate(PathOf(names), name) && Parse(q).Node?
    ensures IsCanonical(q)
  {
    if name == NM {
      NodeModulesRefused(names);
    }
    var more := names + [name];
    assert more[..|names|] == names;
    assert Canonical(more, q);
  }

  /** A candidate of a canonical package that the parser accepted is canonical too. */
  lemma CandidateCanonical(names: seq<string>, name: string, q: string)
    requires AllPlaced(names) && ValidName(name) && q in Candidates(PathOf(names), name) && Parse(q).Node?
    ensures IsCanonical(q)
  {
    AncestorsOfPath(names);
    var directory := CandidateOf(Nestings(names), name, q);
    NestingsIs(names, directory);
    var k :| 0 <= k <= |names| && directory == PathOf(names[..k]);
    NestedCanonical(names[..k], name, q);
  }

  lemma CandidateOf(directories: seq<string>, name: string, q: string) returns (directory: string)
    requires q in CandidatesIn(directories, name)
    ensures directory in directories && q == Candidate(directory, name)
  {
    CandidatesInIs(directories, name);
    var i :| 0 <= i < |directories| && q == CandidatesIn(directories, name)[i];
    directory := directories[i];
  }

  lemma LinkCanonical(m: Lock, p: string, q: string)
    requires ParsedLock(m) && IsCanonical(p) && Links(m, p, q)
    ensures q in m && IsCanonical(q)
  {
    var names :| Canonical(names, p);
    var e :| e in Edges(m[p]) && Resolve(m.Keys, p, e.name, e.kind) == Some(q);
    EdgeNameValid(m[p], e);
    ResolvedInLock(m, p, e.name, e.kind);
    FirstPresentIs(Candidates(SearchFrom(p, e.kind), e.name), m.Keys);
    var from := SearchNames(names, e.kind);
    CandidatesNonEmpty(SearchFrom(p, e.kind), e.name, q);
    CandidateCanonical(from, e.name, q);
  }

  /** Where an edge is searched from, as a nesting. */
  lemma SearchNames(names: seq<string>, kind: Kind) returns (from: seq<string>)
    requires AllPlaced(names)
    ensures AllPlaced(from) && SearchFrom(PathOf(names), kind) == PathOf(from)
  {
    from := names;
    if kind.Peer? {
      if names == [] {
        LastSepIs("");
      } else {
        from := names[..|names| - 1];
        ParentOfCandidate(PathOf(from), names[|names| - 1]);
      }
    }
  }

  /** A peer is never resolved inside the package that declares it: only beside it or further up. */
  lemma PeerIsOutside(names: seq<string>, name: string, keys: set<string>, q: string)
    requires AllPlaced(names) && names != [] && ValidName(name)
    requires Resolve(keys, PathOf(names), name, Peer) == Some(q)
    ensures !(PathOf(names) + SEP <= q)
  {
    FirstPresentIs(Candidates(SearchFrom(PathOf(names), Peer), name), keys);
    var from := names[..|names| - 1];
    ParentOfNested(names);
    AncestorsOfPath(from);
    var directory := CandidateOf(Nestings(from), name, q);
    NestingsIs(from, directory);
    var k :| 0 <= k <= |from| && directory == PathOf(from[..k]);
    assert from[..k] == names[..k];
    NotBelow(names, k, name);
  }

  lemma ParentOfNested(names: seq<string>)
    requires AllPlaced(names) && names != []
    ensures Parent(PathOf(names)) == PathOf(names[..|names| - 1])
  {
    ParentOfCandidate(PathOf(names[..|names| - 1]), names[|names| - 1]);
  }

  /** What is placed in a directory further up does not lie below the package. */
  lemma NotBelow(names: seq<string>, k: nat, name: string)
    requires AllPlaced(names) && k < |names| && ValidName(name)
    ensures !(PathOf(names) + SEP <= Candidate(PathOf(names[..k]), name))
  {
    LongerPath(names, k);
    NotUnder(PathOf(names), PathOf(names[..k]), name);
  }

  lemma NotUnder(path: string, directory: string, name: string)
    requires ValidName(name) && |path| >= |Candidate(directory, "")|
    ensures !(path + SEP <= Candidate(directory, name))
  {
    var q := Candidate(directory, name);
    var start := |Candidate(directory, "")|;
    NameAtEnd(directory, name);
    if path + SEP <= q {
      SepBehind(path, q);
      NoSepInName(q, start, name, |path|);
    }
  }

  lemma NameAtEnd(directory: string, name: string)
    ensures var start := |Candidate(directory, "")|;
            1 <= start <= |Candidate(directory, name)| && Candidate(directory, name)[start..] == name
  {
  }

  lemma SepBehind(path: string, q: string)
    requires path + SEP <= q
    ensures SepAt(q, |path|)
  {
    assert q[|path|..|path| + |SEP|] == (path + SEP)[|path|..];
  }

  lemma {:induction false} LongerPath(names: seq<string>, k: nat)
    requires AllPlaced(names) && k < |names|
    ensures |PathOf(names)| >= |Candidate(PathOf(names[..k]), "")|
    decreases |names|
  {
    var init := names[..|names| - 1];
    if k < |init| {
      assert init[..k] == names[..k];
      LongerPath(init, k);
    } else {
      assert names[..k] == init;
    }
  }

  lemma CandidatesNonEmpty(path: string, name: string, q: string)
    requires q in Candidates(path, name)
    ensures q != ""
  {
    CandidatesInIs(Ancestors(path), name);
    var i :| 0 <= i < |Ancestors(path)| && q == Candidate(Ancestors(path)[i], name);
    assert |Candidate(Ancestors(path)[i], name)| > 0;
  }

  /** Every root-connected node of a parsed lock has a canonical path: no trailing `node_modules`. */
  lemma ReachableIsCanonical(m: Lock, p: string)
    requires ParsedLock(m) && Reaches(m, false, p)
    ensures IsCanonical(p)
  {
    var closed := set k | k in m && IsCanonical(k);
    assert Canonical([], "");
    forall a, b | a in closed && Follows(m, false, a, b)
      ensures b in closed
    {
      LinkCanonical(m, a, b);
    }
    var route :| Route(m, false, route) && route[|route| - 1] == p;
    ClosedHoldsRoute(m, false, route, closed);
  }
}
