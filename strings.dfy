/** The JavaScript string built-ins the extractor relies on: `indexOf`,
    `includes`, `startsWith`, `trim`, `split` and the `\s` character class,
    over strings of single characters. */
module Strings {

  /** The characters matched by the regular-expression class `\s` and removed
      by `String.prototype.trim`: the ECMAScript WhiteSpace and LineTerminator
      characters. */
  predicate IsSpace(c: char)
  {
    c == ' ' || c == '\t' || c == '\n' || c == '\r' || c == '\U{000B}' || c == '\U{000C}'
    || c == '\U{00A0}' || c == '\U{1680}' || ('\U{2000}' <= c <= '\U{200A}')
    || c == '\U{2028}' || c == '\U{2029}' || c == '\U{202F}' || c == '\U{205F}'
    || c == '\U{3000}' || c == '\U{FEFF}'
  }

  /** The regular-expression class `\w` without the unicode flag. */
  predicate IsWordChar(c: char)
  {
    ('a' <= c <= 'z') || ('A' <= c <= 'Z') || ('0' <= c <= '9') || c == '_'
  }

  /** `pat` occurs in `s` starting at position `j`. */
  predicate OccursAt(s: string, pat: string, j: int)
  {
    0 <= j && j + |pat| <= |s| && s[j..j + |pat|] == pat
  }

  /** The characters of `pat` from its `k`-th on match those of `s` from
      position `j + k` on. */
  predicate MatchesFrom(s: string, pat: string, j: nat, k: nat)
    requires j + |pat| <= |s| && k <= |pat|
    decreases |pat| - k
  {
    k == |pat| || (s[j + k] == pat[k] && MatchesFrom(s, pat, j, k + 1))
  }

  lemma {:induction false} MatchesFromSpec(s: string, pat: string, j: nat, k: nat)
    requires j + |pat| <= |s| && k <= |pat|
    ensures MatchesFrom(s, pat, j, k) <==> forall i :: k <= i < |pat| ==> s[j + i] == pat[i]
    decreases |pat| - k
  {
    if k < |pat| {
      MatchesFromSpec(s, pat, j, k + 1);
    }
  }

  /** Matching character by character is an occurrence. */
  lemma MatchesOccurs(s: string, pat: string, j: nat)
    requires j + |pat| <= |s|
    ensures MatchesFrom(s, pat, j, 0) <==> OccursAt(s, pat, j)
  {
    MatchesFromSpec(s, pat, j, 0);
    var w := s[j..j + |pat|];
    assert forall i :: 0 <= i < |pat| ==> w[i] == s[j + i];
  }

  /** `s.indexOf(pat, from)`: the first position at or after `from` where
      `pat` occurs, or -1. */
  function IndexOf(s: string, pat: string, from: nat): (r: int)
    requires from <= |s|
    ensures r == -1 || (from <= r && r + |pat| <= |s|)
    decreases |s| - from
  {
    if from + |pat| > |s| then -1
    else if MatchesFrom(s, pat, from, 0) then from
    else IndexOf(s, pat, from + 1)
  }

  /** `indexOf` finds the first occurrence: none lies between `from` and
      the position found, and none at all after `from` when it finds none. */
  lemma {:induction false} IndexOfSpec(s: string, pat: string, from: nat)
    requires from <= |s|
    ensures IndexOf(s, pat, from) != -1 ==> OccursAt(s, pat, IndexOf(s, pat, from))
    ensures IndexOf(s, pat, from) == -1 ==> forall j :: from <= j ==> !OccursAt(s, pat, j)
    ensures forall j :: from <= j < IndexOf(s, pat, from) ==> !OccursAt(s, pat, j)
    decreases |s| - from
  {
    if from + |pat| <= |s| {
      MatchesOccurs(s, pat, from);
      if !MatchesFrom(s, pat, from, 0) {
        IndexOfSpec(s, pat, from + 1);
      }
    }
  }

  /** `s.includes(pat)`. */
  predicate Contains(s: string, pat: string)
  {
    IndexOf(s, pat, 0) != -1
  }

  /** `s.startsWith(prefix)`. */
  predicate StartsWith(s: string, prefix: string)
  {
    |prefix| <= |s| && s[..|prefix|] == prefix
  }

  /** One mismatching character rules out an occurrence. */
  lemma MismatchAt(s: string, pat: string, j: int, k: int)
    requires 0 <= k < |pat| && 0 <= j + k < |s| && s[j + k] != pat[k]
    ensures !OccursAt(s, pat, j)
  {
  }

  /** An occurrence that is the first one at or after `from` is what `IndexOf` finds. */
  lemma IndexOfIsFirst(s: string, pat: string, from: nat, r: int)
    requires from <= |s| && from <= r && OccursAt(s, pat, r)
    requires forall j :: from <= j < r ==> !OccursAt(s, pat, j)
    ensures IndexOf(s, pat, from) == r
  {
    IndexOfSpec(s, pat, from);
  }

  /** With no occurrence at or after `from`, `IndexOf` finds none. */
  lemma IndexOfNone(s: string, pat: string, from: nat)
    requires from <= |s|
    requires forall j :: from <= j ==> !OccursAt(s, pat, j)
    ensures IndexOf(s, pat, from) == -1
  {
    IndexOfSpec(s, pat, from);
  }

  /** A match found in `a` is still the first match once text is appended to `a`. */
  lemma IndexOfPrefix(a: string, b: string, pat: string, from: nat)
    requires from <= |a| && IndexOf(a, pat, from) != -1
    ensures IndexOf(a + b, pat, from) == IndexOf(a, pat, from)
  {
    var r := IndexOf(a, pat, from);
    IndexOfSpec(a, pat, from);
    assert (a + b)[r..r + |pat|] == a[r..r + |pat|];
    forall j | from <= j < r
      ensures !OccursAt(a + b, pat, j)
    {
      assert !OccursAt(a, pat, j);
    }
    IndexOfIsFirst(a + b, pat, from, r);
  }

  /** Occurrences in a suffix `s[k..]` are the occurrences in `s`, shifted by `k`. */
  lemma OccursAtShift(s: string, t: string, pat: string, k: nat, j: int)
    requires k <= |s| && t == s[k..]
    ensures OccursAt(t, pat, j) <==> (0 <= j && OccursAt(s, pat, j + k))
  {
    if 0 <= j && j + |pat| <= |s| - k {
      assert t[j..j + |pat|] == s[j + k..j + k + |pat|];
    }
  }

  /** Dropping a prefix of `a` from `a + b`. */
  lemma DropAppend(a: string, b: string, k: nat)
    requires k <= |a|
    ensures (a + b)[k..] == a[k..] + b
  {
  }

  /** An occurrence inside the left piece of `a + b` is an occurrence in `a`. */
  lemma OccursAtLeft(a: string, b: string, pat: string, j: int)
    requires j + |pat| <= |a|
    ensures OccursAt(a + b, pat, j) <==> OccursAt(a, pat, j)
  {
    if 0 <= j {
      assert (a + b)[j..j + |pat|] == a[j..j + |pat|];
    }
  }

  /** An occurrence inside the right piece of `a + b` is an occurrence in `b`. */
  lemma OccursAtRight(a: string, b: string, pat: string, j: int)
    requires |a| <= j
    ensures OccursAt(a + b, pat, j) <==> OccursAt(b, pat, j - |a|)
  {
    if j + |pat| <= |a| + |b| {
      assert (a + b)[j..j + |pat|] == b[j - |a|..j - |a| + |pat|];
    }
  }

  /** A string without the separator character splits into itself. */
  lemma SplitWithout(s: string, sep: char)
    requires sep !in s
    ensures IndexOf(s, [sep], 0) == -1 && Split(s, sep) == [s]
  {
    forall j | 0 <= j < |s| ensures !OccursAt(s, [sep], j) {
      MismatchAt(s, [sep], j, 0);
    }
    IndexOfSpec(s, [sep], 0);
  }

  /** `trimStart`: the suffix left after dropping leading whitespace. */
  function TrimStart(s: string): (r: string)
    ensures |r| <= |s|
    ensures r == [] || !IsSpace(r[0])
  {
    if s != [] && IsSpace(s[0]) then TrimStart(s[1..]) else s
  }

  /** `trimStart` keeps a suffix, and everything it drops is whitespace. */
  lemma {:induction false} TrimStartDropsSpace(s: string)
    ensures TrimStart(s) == s[|s| - |TrimStart(s)|..]
    ensures forall i :: 0 <= i < |s| - |TrimStart(s)| ==> IsSpace(s[i])
  {
    if s != [] && IsSpace(s[0]) {
      TrimStartDropsSpace(s[1..]);
      assert forall i :: 1 <= i < |s| - |TrimStart(s)| ==> s[i] == s[1..][i - 1];
    }
  }

  /** `trimEnd`: the prefix left after dropping trailing whitespace. */
  function TrimEnd(s: string): (r: string)
    ensures |r| <= |s|
    ensures r == [] || !IsSpace(r[|r| - 1])
  {
    if s != [] && IsSpace(s[|s| - 1]) then TrimEnd(s[..|s| - 1]) else s
  }

  /** `trimEnd` keeps a prefix, and everything it drops is whitespace. */
  lemma {:induction false} TrimEndDropsSpace(s: string)
    ensures TrimEnd(s) == s[..|TrimEnd(s)|]
    ensures forall i :: |TrimEnd(s)| <= i < |s| ==> IsSpace(s[i])
  {
    if s != [] && IsSpace(s[|s| - 1]) {
      TrimEndDropsSpace(s[..|s| - 1]);
      assert forall i :: |TrimEnd(s)| <= i < |s| - 1 ==> s[i] == s[..|s| - 1][i];
    }
  }

  /** `s.trim()`. */
  function Trim(s: string): (r: string)
  {
    TrimEnd(TrimStart(s))
  }

  /** `trim` returns a contiguous piece of its input, with no whitespace at
      either end, and everything it removed was whitespace. */
  lemma TrimSpec(s: string)
    ensures exists i, j :: (0 <= i <= j <= |s| && Trim(s) == s[i..j]
                            && (forall k :: 0 <= k < i ==> IsSpace(s[k]))
                            && (forall k :: j <= k < |s| ==> IsSpace(s[k])))
    ensures Trim(s) == [] || (!IsSpace(Trim(s)[0]) && !IsSpace(Trim(s)[|Trim(s)| - 1]))
  {
    var i, j := TrimBounds(s);
    TrimEnds(s);
  }

  /** Where the piece `trim` keeps starts and ends. */
  lemma TrimBounds(s: string) returns (i: nat, j: nat)
    ensures i <= j <= |s| && Trim(s) == s[i..j]
    ensures forall k :: 0 <= k < i ==> IsSpace(s[k])
    ensures forall k :: j <= k < |s| ==> IsSpace(s[k])
  {
    var t := TrimStart(s);
    var r := TrimEnd(t);
    i, j := |s| - |t|, |s| - |t| + |r|;
    TrimStartDropsSpace(s);
    TrimEndDropsSpace(t);
    PrefixOfSuffix(s, t, r, i);
  }

  /** A prefix `r` of the suffix `t` of `s` from `i`, followed in `t` by
      whitespace only, is the slice of `s` from `i`, followed in `s` by
      whitespace only. */
  lemma PrefixOfSuffix(s: string, t: string, r: string, i: nat)
    requires i <= |s| && t == s[i..] && |r| <= |t| && r == t[..|r|]
    requires forall k :: |r| <= k < |t| ==> IsSpace(t[k])
    ensures r == s[i..i + |r|]
    ensures forall k :: i + |r| <= k < |s| ==> IsSpace(s[k])
  {
    forall k | i + |r| <= k < |s| ensures IsSpace(s[k]) {
      assert s[k] == t[k - i];
    }
  }

  /** `trim` leaves no whitespace at either end. */
  lemma TrimEnds(s: string)
    ensures Trim(s) == [] || (!IsSpace(Trim(s)[0]) && !IsSpace(Trim(s)[|Trim(s)| - 1]))
  {
    var t := TrimStart(s);
    var r := TrimEnd(t);
    TrimEndDropsSpace(t);
    assert r != [] ==> r[0] == t[0];
  }

  /** The two pieces of `a + b` are `a` and `b`. */
  lemma Halves(a: string, b: string)
    ensures (a + b)[..|a|] == a && (a + b)[|a|..] == b
  {
  }

  /** Concatenation is associative. */
  lemma Associative(x: string, y: string, z: string)
    ensures (x + y) + z == x + (y + z)
  {
  }

  /** Nothing prepended to `x` leaves it as it was. */
  lemma PrependEmpty(e: string, x: string)
    requires e == ""
    ensures e + x == x
  {
  }

  /** A string with no whitespace at either end is its own `trim`. */
  lemma TrimUnchanged(s: string)
    requires s == [] || (!IsSpace(s[0]) && !IsSpace(s[|s| - 1]))
    ensures Trim(s) == s
  {
  }

  /** `s.split(sep)` for a one-character separator: the pieces between
      separators, always at least one. */
  function Split(s: string, sep: char): (r: seq<string>)
    ensures |r| >= 1
    decreases |s|
  {
    var i := IndexOf(s, [sep], 0);
    if i == -1 then [s] else [s[..i]] + Split(s[i + 1..], sep)
  }

  /** Splitting `a + b` splits `a`, except that its last piece continues
      into `b`. */
  lemma {:induction false} SplitAppend(a: string, b: string, sep: char)
    ensures var pa := Split(a, sep);
            Split(a + b, sep) == pa[..|pa| - 1] + Split(pa[|pa| - 1] + b, sep)
    decreases |a|, 1
  {
    var i := IndexOf(a, [sep], 0);
    if i == -1 {
      SplitAppendNone(a, b, sep);
    } else {
      SplitAppendSome(a, b, sep, i);
    }
  }

  /** `SplitAppend` when `a` holds a separator at `i`, by induction on the
      text after it. */
  lemma {:induction false} SplitAppendSome(a: string, b: string, sep: char, i: int)
    requires i == IndexOf(a, [sep], 0) && i != -1
    ensures var pa := Split(a, sep);
            Split(a + b, sep) == pa[..|pa| - 1] + Split(pa[|pa| - 1] + b, sep)
    decreases |a|, 0
  {
    SplitAppendFirst(a, b, sep, i);
    SplitAppend(a[i + 1..], b, sep);
    SplitAppendStep(a, b, sep, i, a[i + 1..]);
  }

  /** `SplitAppend` for `a`, from the same for the text after its first
      separator. */
  lemma SplitAppendStep(a: string, b: string, sep: char, i: nat, after: string)
    requires i < |a| && after == a[i + 1..]
    requires Split(a, sep) == [a[..i]] + Split(after, sep)
    requires Split(a + b, sep) == [a[..i]] + Split(after + b, sep)
    requires var rest := Split(after, sep);
             Split(after + b, sep) == rest[..|rest| - 1] + Split(rest[|rest| - 1] + b, sep)
    ensures var pa := Split(a, sep);
            Split(a + b, sep) == pa[..|pa| - 1] + Split(pa[|pa| - 1] + b, sep)
  {
    var rest, pa := Split(after, sep), Split(a, sep);
    ConsShape(a[..i], rest, pa, Split(after + b, sep), Split(rest[|rest| - 1] + b, sep),
              Split(a + b, sep), Split(pa[|pa| - 1] + b, sep));
  }

  /** `SplitAppend` when `a` holds no separator. */
  lemma SplitAppendNone(a: string, b: string, sep: char)
    requires IndexOf(a, [sep], 0) == -1
    ensures var pa := Split(a, sep);
            Split(a + b, sep) == pa[..|pa| - 1] + Split(pa[|pa| - 1] + b, sep)
  {
    var pa := Split(a, sep);
    assert pa == [a];
    var whole := Split(a + b, sep);
    assert pa[..0] + whole == whole;
  }

  /** The first separator of `a` is the first of `a + b`, and both split there. */
  lemma SplitAppendFirst(a: string, b: string, sep: char, i: int)
    requires i == IndexOf(a, [sep], 0) && i != -1
    ensures 0 <= i < |a|
    ensures Split(a, sep) == [a[..i]] + Split(a[i + 1..], sep)
    ensures Split(a + b, sep) == [a[..i]] + Split(a[i + 1..] + b, sep)
  {
    IndexOfPrefix(a, b, [sep], 0);
    assert (a + b)[i + 1..] == a[i + 1..] + b;
    assert (a + b)[..i] == a[..i];
  }

  /** One piece put in front of a split that `SplitAppend` describes. */
  lemma ConsShape<T>(x: T, rest: seq<T>, pa: seq<T>, whole: seq<T>, tail: seq<T>, all: seq<T>, tail2: seq<T>)
    requires |rest| >= 1 && pa == [x] + rest && whole == rest[..|rest| - 1] + tail
    requires all == [x] + whole && tail2 == tail
    ensures all == pa[..|pa| - 1] + tail2
  {
    assert pa[..|pa| - 1] == [x] + rest[..|rest| - 1];
  }

  /** The pieces joined back with the separator. */
  function Join(parts: seq<string>, sep: char): string
  {
    if |parts| <= 1 then (if parts == [] then "" else parts[0])
    else parts[0] + [sep] + Join(parts[1..], sep)
  }

  /** `split` is undone by joining with the separator, and no piece contains it. */
  lemma {:induction false} SplitJoin(s: string, sep: char)
    ensures Join(Split(s, sep), sep) == s
    ensures forall k :: 0 <= k < |Split(s, sep)| ==> sep !in Split(s, sep)[k]
    decreases |s|, 1
  {
    var i := IndexOf(s, [sep], 0);
    if i == -1 {
      SplitJoinNone(s, sep);
    } else {
      SplitJoinSome(s, sep, i);
    }
  }

  /** `SplitJoin` when `s` holds no separator: it is its only piece. */
  lemma SplitJoinNone(s: string, sep: char)
    requires IndexOf(s, [sep], 0) == -1
    ensures Join(Split(s, sep), sep) == s
    ensures forall k :: 0 <= k < |Split(s, sep)| ==> sep !in Split(s, sep)[k]
  {
    IndexOfSpec(s, [sep], 0);
    forall k | 0 <= k < |s| ensures s[k] != sep {
      assert !OccursAt(s, [sep], k);
      assert s[k..k + 1] == [s[k]];
    }
    assert Split(s, sep) == [s];
  }

  /** `SplitJoin` when the first separator of `s` is at `i`, by induction
      on the text after it. */
  lemma {:induction false} SplitJoinSome(s: string, sep: char, i: int)
    requires i == IndexOf(s, [sep], 0) && i != -1
    ensures Join(Split(s, sep), sep) == s
    ensures forall k :: 0 <= k < |Split(s, sep)| ==> sep !in Split(s, sep)[k]
    decreases |s|, 0
  {
    FirstSeparator(s, sep, i);
    var after := s[i + 1..];
    SplitJoin(after, sep);
    JoinCons(s[..i], Split(after, sep), Split(s, sep), sep, after, s);
  }

  /** The first separator of `s`: the text before it holds none, and `s`
      splits there. */
  lemma FirstSeparator(s: string, sep: char, i: int)
    requires i == IndexOf(s, [sep], 0) && i != -1
    ensures 0 <= i < |s| && s == s[..i] + [sep] + s[i + 1..] && sep !in s[..i]
    ensures Split(s, sep) == [s[..i]] + Split(s[i + 1..], sep)
  {
    IndexOfSpec(s, [sep], 0);
    assert s[i..i + 1] == [sep];
    forall k | 0 <= k < i ensures s[k] != sep {
      assert !OccursAt(s, [sep], k);
      assert s[k..k + 1] == [s[k]];
    }
    assert s == s[..i] + [sep] + s[i + 1..];
  }

  /** Joining a first piece and the rest. */
  lemma JoinCons(x: string, rest: seq<string>, parts: seq<string>, sep: char, after: string, s: string)
    requires parts == [x] + rest && |rest| >= 1 && Join(rest, sep) == after && s == x + [sep] + after
    requires sep !in x && forall k :: 0 <= k < |rest| ==> sep !in rest[k]
    ensures Join(parts, sep) == s
    ensures forall k :: 0 <= k < |parts| ==> sep !in parts[k]
  {
    assert parts[1..] == rest;
    forall k | 0 < k < |parts| ensures sep !in parts[k] {
      assert parts[k] == rest[k - 1];
    }
  }

  /** Concatenation of a sequence of strings, in order. */
  function Concat(parts: seq<string>): string
  {
    if parts == [] then "" else Concat(parts[..|parts| - 1]) + parts[|parts| - 1]
  }

  lemma ConcatSmall(x: string, y: string)
    ensures Concat([]) == "" && Concat([x]) == x && Concat([x, y]) == x + y
  {
    assert [x, y][..1] == [x];
  }

  lemma {:induction false} ConcatAppend(a: seq<string>, b: seq<string>)
    ensures Concat(a + b) == Concat(a) + Concat(b)
    decreases |b|
  {
    if b == [] {
      assert a + b == a;
    } else {
      var init, last := b[..|b| - 1], b[|b| - 1];
      ConcatAppend(a, init);
      AppendInit(a, b, init, last);
      Associative(Concat(a), Concat(init), last);
    }
  }

  /** The last element of `a + b`, for a non-empty `b`, and the ones before it. */
  lemma AppendInit<T>(a: seq<T>, b: seq<T>, init: seq<T>, last: T)
    requires b != [] && init == b[..|b| - 1] && last == b[|b| - 1]
    ensures a + b != [] && (a + b)[..|a + b| - 1] == a + init && (a + b)[|a + b| - 1] == last
  {
    assert (a + b)[..|a + b| - 1] == a + init;
  }

  /** Decimal rendering of a natural number, as JavaScript's `String(n)`. */
  function NatToString(n: nat): (r: string)
    ensures |r| >= 1
    ensures forall i :: 0 <= i < |r| ==> '0' <= r[i] <= '9'
  {
    if n < 10 then ["0123456789"[n]] else NatToString(n / 10) + ["0123456789"[n % 10]]
  }
}
