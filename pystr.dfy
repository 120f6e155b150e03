/** The Python 2 `str` behaviour the scripts rely on: prefix and suffix tests,
    `find`, `split` with and without a limit, `split()` on whitespace,
    `strip`, `splitlines`, `join`, slicing and POSIX `os.path.join`. */
module PyStr {

  /** `c.isspace()` for one character of a byte string. */
  predicate IsSpace(c: char) {
    c == ' ' || c == '\t' || c == '\n' || c == '\r' || c == '\U{000B}' || c == '\U{000C}'
  }

  predicate NoSpace(s: string) {
    forall k :: 0 <= k < |s| ==> !IsSpace(s[k])
  }

  /** The line boundaries of `str.splitlines` on a Python 2 byte string. */
  predicate IsLineBreak(c: char) { c == '\n' || c == '\r' }

  predicate NoLineBreak(s: string) {
    forall k :: 0 <= k < |s| ==> !IsLineBreak(s[k])
  }

  predicate StartsWith(s: string, prefix: string) {
    |prefix| <= |s| && s[..|prefix|] == prefix
  }

  predicate EndsWith(s: string, suffix: string) {
    |suffix| <= |s| && s[|s| - |suffix|..] == suffix
  }

  /** `s.find(sub) != -1`: `sub` occurs somewhere in `s`. */
  predicate Contains(s: string, sub: string)
    decreases |s|
  {
    StartsWith(s, sub) || (|s| > 0 && Contains(s[1..], sub))
  }

  /** The index of the first `c` in `s`. */
  function IndexOf(s: string, c: char): (i: nat)
    requires c in s
    ensures i < |s| && s[i] == c
    ensures forall k :: 0 <= k < i ==> s[k] != c
  {
    if s[0] == c then 0
    else
      assert c in s[1..] by { assert s == [s[0]] + s[1..]; }
      1 + IndexOf(s[1..], c)
  }

  /** How many times `c` occurs in `s`. */
  function Count(s: string, c: char): nat
    decreases |s|
  {
    if c !in s then 0 else 1 + Count(s[IndexOf(s, c) + 1..], c)
  }

  /** `s.split(c)` for a one-character separator: the pieces between the
      occurrences of `c`, so always one more piece than there are `c`s. */
  function Split(s: string, c: char): (r: seq<string>)
    ensures |r| >= 1
    ensures forall k :: 0 <= k < |r| ==> c !in r[k]
    decreases |s|
  {
    if c !in s then [s]
    else
      var i := IndexOf(s, c);
      assert c !in s[..i];
      [s[..i]] + Split(s[i + 1..], c)
  }

  /** `s.split(c, n)`: at most `n` splits from the left; the last piece is
      the unsplit remainder and may still contain `c`. */
  function SplitN(s: string, c: char, n: nat): (r: seq<string>)
    ensures 1 <= |r| <= n + 1
    ensures forall k :: 0 <= k < |r| - 1 ==> c !in r[k]
    decreases n
  {
    if n == 0 || c !in s then [s]
    else
      var i := IndexOf(s, c);
      assert c !in s[..i];
      [s[..i]] + SplitN(s[i + 1..], c, n - 1)
  }

  /** `sep.join(parts)`. */
  function Join(parts: seq<string>, sep: string): string
  {
    if |parts| == 0 then ""
    else if |parts| == 1 then parts[0]
    else parts[0] + sep + Join(parts[1..], sep)
  }

  /** Where the first word of `s` ends. */
  function WordEnd(s: string): (k: nat)
    ensures k <= |s| && (k < |s| ==> IsSpace(s[k]))
    ensures forall j :: 0 <= j < k ==> !IsSpace(s[j])
    ensures |s| > 0 && !IsSpace(s[0]) ==> k > 0
  {
    if |s| == 0 || IsSpace(s[0]) then 0
    else 1 + WordEnd(s[1..])
  }

  /** `s.split()`: the maximal runs of non-whitespace characters. */
  function Words(s: string): (r: seq<string>)
    ensures forall k :: 0 <= k < |r| ==> r[k] != "" && NoSpace(r[k])
    decreases |s|
  {
    if |s| == 0 then []
    else if IsSpace(s[0]) then Words(s[1..])
    else
      var k := WordEnd(s);
      [s[..k]] + Words(s[k..])
  }

  /** `s.rstrip()`. */
  function RStrip(s: string): (r: string)
    ensures StartsWith(s, r)
    ensures forall k :: |r| <= k < |s| ==> IsSpace(s[k])
    ensures r == "" || !IsSpace(r[|r| - 1])
    decreases |s|
  {
    if |s| > 0 && IsSpace(s[|s| - 1]) then
      var r := RStrip(s[..|s| - 1]);
      assert s[..|s| - 1][..|r|] == s[..|r|];
      r
    else s
  }

  /** `s.lstrip()`. */
  function LStrip(s: string): (r: string)
    ensures EndsWith(s, r)
    ensures forall k :: 0 <= k < |s| - |r| ==> IsSpace(s[k])
    ensures r == "" || !IsSpace(r[0])
    decreases |s|
  {
    if |s| > 0 && IsSpace(s[0]) then
      var r := LStrip(s[1..]);
      assert s[1..][|s| - 1 - |r|..] == s[|s| - |r|..];
      assert forall k :: 1 <= k < |s| - |r| ==> s[k] == s[1..][k - 1];
      r
    else s
  }

  /** `s.strip()`. */
  function Strip(s: string): string { LStrip(RStrip(s)) }

  /** Where the first line of `s` ends. */
  function LineEnd(s: string): (i: nat)
    ensures i <= |s| && (i < |s| ==> IsLineBreak(s[i]))
    ensures forall k :: 0 <= k < i ==> !IsLineBreak(s[k])
  {
    if |s| == 0 || IsLineBreak(s[0]) then 0
    else 1 + LineEnd(s[1..])
  }

  /** `s.splitlines()` on a Python 2 byte string: lines end at "\n", "\r"
      or "\r\n", and a final line ending does not start an empty line. */
  function SplitLines(s: string): (r: seq<string>)
    ensures |r| == 0 <==> s == ""
    ensures forall k :: 0 <= k < |r| ==> NoLineBreak(r[k])
    decreases |s|
  {
    if |s| == 0 then []
    else
      var i := LineEnd(s);
      if i == |s| then [s]
      else
        var next := if s[i] == '\r' && i + 1 < |s| && s[i + 1] == '\n' then i + 2 else i + 1;
        [s[..i]] + SplitLines(s[next..])
  }

  /** Python's `s[start:stop]`: negative bounds count from the end and both
      bounds are clamped to the string. */
  function Slice(s: string, start: int, stop: int): (r: string)
    ensures |r| <= |s|
  {
    var lo := Clamp(start, |s|);
    var hi := Clamp(stop, |s|);
    if lo < hi then s[lo..hi] else ""
  }

  function Clamp(i: int, n: nat): (r: nat)
    ensures r <= n
    ensures 0 <= i <= n ==> r == i
    ensures i < 0 && i + n >= 0 ==> r == i + n
  {
    var j := if i < 0 then i + n else i;
    if j < 0 then 0 else if j > n then n else j
  }

  /** `os.path.join(a, b)` on POSIX: an absolute `b` discards `a`, and a
      separator is inserted only when `a` is non-empty and lacks one. */
  function PathJoin(a: string, b: string): (r: string)
    ensures EndsWith(r, b)
    ensures !StartsWith(b, "/") ==> StartsWith(r, a)
  {
    if StartsWith(b, "/") then b
    else if a == "" || EndsWith(a, "/") then a + b
    else a + "/" + b
  }

  // ---------------------------------------------------------------------
  // Lemmas

  /** `Count` is the multiplicity of `c` in the multiset of characters of `s`. */
  lemma {:induction false} CountIsMultiplicity(s: string, c: char)
    ensures Count(s, c) == multiset(s)[c]
    decreases |s|
  {
    if c in s {
      var i := IndexOf(s, c);
      CountIsMultiplicity(s[i + 1..], c);
      assert s == s[..i] + [c] + s[i + 1..];
      assert multiset(s) == multiset(s[..i]) + multiset([c]) + multiset(s[i + 1..]);
      assert c !in s[..i];
    }
  }

  /** A split has one more piece than there are separators. */
  lemma {:induction false} SplitLength(s: string, c: char)
    ensures |Split(s, c)| == Count(s, c) + 1
    decreases |s|
  {
    if c in s {
      SplitLength(s[IndexOf(s, c) + 1..], c);
    }
  }

  /** A bounded split makes all `n` splits exactly when `c` occurs at least `n` times. */
  lemma {:induction false} SplitNLength(s: string, c: char, n: nat)
    ensures |SplitN(s, c, n)| == n + 1 <==> Count(s, c) >= n
    decreases n
  {
    if n > 0 && c in s {
      SplitNLength(s[IndexOf(s, c) + 1..], c, n - 1);
    }
  }

  /** Joining the pieces of a split with the separator restores the string. */
  lemma {:induction false} JoinSplit(s: string, c: char)
    ensures Join(Split(s, c), [c]) == s
    decreases |s|
  {
    if c in s {
      var i := IndexOf(s, c);
      var rest := Split(s[i + 1..], c);
      JoinSplit(s[i + 1..], c);
      JoinCons(s[..i], rest, [c]);
      assert s == s[..i] + [c] + s[i + 1..];
    }
  }

  /** Joining with the separator and splitting at most `n` times restores the string. */
  lemma {:induction false} JoinSplitN(s: string, c: char, n: nat)
    ensures Join(SplitN(s, c, n), [c]) == s
    decreases n
  {
    if n > 0 && c in s {
      var i := IndexOf(s, c);
      var a, b := s[..i], s[i + 1..];
      assert s == a + [c] + b;
      SplitNCons(a, c, b, n);
      JoinSplitN(b, c, n - 1);
      JoinCons(a, SplitN(b, c, n - 1), [c]);
    }
  }

  /** Joining a leading piece onto a non-empty list puts one separator after it. */
  lemma JoinCons(a: string, rest: seq<string>, sep: string)
    requires |rest| >= 1
    ensures Join([a] + rest, sep) == a + sep + Join(rest, sep)
  {
    assert ([a] + rest)[1..] == rest;
  }

  /** The first `c` in `a + [c] + rest`, when `a` has none, is right after `a`. */
  lemma IndexOfAfter(a: string, c: char, rest: string)
    requires c !in a
    ensures c in a + [c] + rest && IndexOf(a + [c] + rest, c) == |a|
  {
    var s := a + [c] + rest;
    assert s[|a|] == c;
    assert s[..|a|] == a;
    var i := IndexOf(s, c);
  }

  /** Splitting peels off a leading piece that has no separator. */
  lemma SplitCons(a: string, c: char, rest: string)
    requires c !in a
    ensures Split(a + [c] + rest, c) == [a] + Split(rest, c)
  {
    var s := a + [c] + rest;
    IndexOfAfter(a, c, rest);
    assert s[..|a|] == a && s[|a| + 1..] == rest;
  }

  /** One bounded split step peels off a leading piece that has no separator. */
  lemma SplitNCons(a: string, c: char, rest: string, n: nat)
    requires c !in a && n > 0
    ensures SplitN(a + [c] + rest, c, n) == [a] + SplitN(rest, c, n - 1)
  {
    var s := a + [c] + rest;
    IndexOfAfter(a, c, rest);
    assert s[..|a|] == a && s[|a| + 1..] == rest;
  }

  /** Splitting the join of separator-free pieces gives the pieces back. */
  lemma {:induction false} SplitJoin(parts: seq<string>, c: char)
    requires |parts| >= 1
    requires forall k :: 0 <= k < |parts| ==> c !in parts[k]
    ensures Split(Join(parts, [c]), c) == parts
  {
    if |parts| > 1 {
      SplitJoin(parts[1..], c);
      SplitCons(parts[0], c, Join(parts[1..], [c]));
      assert parts == [parts[0]] + parts[1..];
    }
  }

  /** A bounded split of the join of `n + 1` pieces whose first `n` have no
      separator gives the pieces back; the last piece may hold separators. */
  lemma {:induction false} SplitNJoin(parts: seq<string>, c: char, n: nat)
    requires |parts| == n + 1
    requires forall k :: 0 <= k < n ==> c !in parts[k]
    ensures SplitN(Join(parts, [c]), c, n) == parts
    decreases n
  {
    if n == 0 {
      assert Join(parts, [c]) == parts[0];
    } else {
      var tail := Join(parts[1..], [c]);
      assert parts == [parts[0]] + parts[1..];
      JoinCons(parts[0], parts[1..], [c]);
      assert SplitN(tail, c, n - 1) == parts[1..] by {
        assert forall k :: 0 <= k < n - 1 ==> parts[1..][k] == parts[k + 1];
        SplitNJoin(parts[1..], c, n - 1);
      }
      assert SplitN(parts[0] + [c] + tail, c, n) == [parts[0]] + SplitN(tail, c, n - 1) by {
        SplitNCons(parts[0], c, tail, n);
      }
    }
  }

  /** The first line of `line + "\n" + rest` is `line`. */
  lemma SplitLinesCons(line: string, rest: string)
    requires NoLineBreak(line)
    ensures SplitLines(line + "\n" + rest) == [line] + SplitLines(rest)
  {
    var s := line + "\n" + rest;
    var i := LineEnd(s);
    assert s[|line|] == '\n';
    assert s[..|line|] == line;
    assert i == |line|;
    assert s[i + 1..] == rest;
  }

  /** A leading word followed by a space is the first token of `split()`. */
  lemma WordsCons(w: string, rest: string)
    requires w != "" && NoSpace(w)
    ensures Words(w + " " + rest) == [w] + Words(rest)
  {
    var s := w + " " + rest;
    var k := WordEnd(s);
    assert s[..|w|] == w;
    assert s[|w|] == ' ';
    assert k == |w|;
    assert s[k..] == [' '] + rest;
    assert ([' '] + rest)[1..] == rest;
  }

  /** `split()` of space-joined words gives the words back. */
  lemma {:induction false} WordsJoin(ws: seq<string>)
    requires forall k :: 0 <= k < |ws| ==> ws[k] != "" && NoSpace(ws[k])
    ensures Words(Join(ws, " ")) == ws
  {
    if |ws| == 1 {
      var k := WordEnd(ws[0]);
      assert k == |ws[0]|;
      assert ws[0][..k] == ws[0] && ws[0][k..] == "";
    } else if |ws| > 1 {
      WordsJoin(ws[1..]);
      WordsCons(ws[0], Join(ws[1..], " "));
      assert ws == [ws[0]] + ws[1..];
    }
  }

  /** Whitespace at the end of a string adds no token to `split()`. */
  lemma {:induction false} WordsTrailingSpace(s: string, c: char)
    requires IsSpace(c)
    ensures Words(s + [c]) == Words(s)
    decreases |s|
  {
    var t := s + [c];
    if |s| > 0 {
      assert t[1..] == s[1..] + [c];
      if IsSpace(s[0]) {
        WordsTrailingSpace(s[1..], c);
      } else {
        var k := WordEnd(s);
        var kt := WordEnd(t);
        assert t[..|s|] == s;
        assert IsSpace(t[k]);
        assert forall j :: 0 <= j < k ==> t[j] == s[j];
        assert kt == k;
        assert t[..kt] == s[..k];
        assert t[kt..] == s[k..] + [c];
        if k < |s| {
          WordsTrailingSpace(s[k..], c);
        } else {
          assert Words([c]) == [];
        }
      }
    }
  }

  /** `split()` is not affected by `rstrip()`. */
  lemma {:induction false} WordsRStrip(s: string)
    ensures Words(RStrip(s)) == Words(s)
    decreases |s|
  {
    if |s| > 0 && IsSpace(s[|s| - 1]) {
      var p := s[..|s| - 1];
      WordsRStrip(p);
      WordsTrailingSpace(p, s[|s| - 1]);
      assert s == p + [s[|s| - 1]];
    }
  }

  /** `split()` is not affected by `lstrip()`. */
  lemma {:induction false} WordsLStrip(s: string)
    ensures Words(LStrip(s)) == Words(s)
    decreases |s|
  {
    if |s| > 0 && IsSpace(s[0]) {
      WordsLStrip(s[1..]);
    }
  }

  /** `s.strip().split() == s.split()`. */
  lemma WordsStrip(s: string)
    ensures Words(Strip(s)) == Words(s)
  {
    WordsLStrip(RStrip(s));
    WordsRStrip(s);
  }

  /** `os.path.join` of two relative, slash-free-at-the-seam parts inserts exactly one "/". */
  lemma PathJoinPlain(a: string, b: string)
    requires a != "" && !EndsWith(a, "/") && !StartsWith(b, "/")
    ensures PathJoin(a, b) == a + "/" + b
  {
  }

  /** `sub` found at index `i` means `s.find(sub) != -1`. */
  lemma {:induction false} ContainsAt(s: string, sub: string, i: nat)
    requires i + |sub| <= |s| && s[i..i + |sub|] == sub
    ensures Contains(s, sub)
    decreases i
  {
    if i > 0 {
      assert s[1..][i - 1..i - 1 + |sub|] == s[i..i + |sub|];
      ContainsAt(s[1..], sub, i - 1);
    }
  }
}
