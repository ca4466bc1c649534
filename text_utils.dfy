/** The string helpers of lib/utils.js. A JavaScript argument that may be
    `null` or `undefined` is an `Option<string>`; `None` and `Some("")` are the
    falsy inputs. */
module TextUtils {
  import opened Wrappers
  import opened Strings

  /** Every whitespace character of `s` is a plain space. */
  predicate OnlyPlainSpaces(s: string)
  {
    forall i :: 0 <= i < |s| ==> IsSpace(s[i]) ==> s[i] == ' '
  }

  /** No two whitespace characters of `s` are adjacent. */
  predicate NoDoubleSpace(s: string)
  {
    forall i :: 0 <= i < |s| - 1 ==> !(IsSpace(s[i]) && IsSpace(s[i + 1]))
  }

  /** No whitespace at either end of `s`. */
  predicate Trimmed(s: string)
  {
    s == [] || (!IsSpace(s[0]) && !IsSpace(s[|s| - 1]))
  }

  /** `s.replace(/\s+/g, " ")`: every maximal run of whitespace becomes one space. */
  function CollapseSpaces(s: string): (r: string)
    ensures r == [] <==> s == []
    ensures s != [] ==> (IsSpace(r[0]) <==> IsSpace(s[0]))
    ensures s != [] ==> (IsSpace(r[|r| - 1]) <==> IsSpace(s[|s| - 1]))
    ensures OnlyPlainSpaces(r) && NoDoubleSpace(r)
    decreases |s|
  {
    if s == [] then []
    else if IsSpace(s[0]) then
      var rest := TrimStart(s);
      TrimStartDropsSpace(s);
      [' '] + CollapseSpaces(rest)
    else
      var tail := CollapseSpaces(s[1..]);
      assert s[1..] != [] ==> s[|s| - 1] == s[1..][|s[1..]| - 1];
      [s[0]] + tail
  }

  /** `cleanText` (lib/utils.js:13-23). */
  function CleanText(text: Option<string>): (r: string)
    ensures text == None || text == Some("") ==> r == ""
    ensures Trimmed(r) && NoDoubleSpace(r) && OnlyPlainSpaces(r)
  {
    if text == None || text.value == "" then ""
    else
      var collapsed := CollapseSpaces(text.value);
      TrimSpec(collapsed);
      SliceKeepsSpacing(collapsed, Trim(collapsed));
      Trim(collapsed)
  }

  /** A contiguous piece of a well-spaced string is well spaced. */
  lemma SliceKeepsSpacing(s: string, t: string)
    requires OnlyPlainSpaces(s) && NoDoubleSpace(s)
    requires exists i, j :: 0 <= i <= j <= |s| && t == s[i..j]
    ensures OnlyPlainSpaces(t) && NoDoubleSpace(t)
  {
    var i, j :| 0 <= i <= j <= |s| && t == s[i..j];
    assert forall k :: 0 <= k < |t| ==> t[k] == s[i + k];
  }

  /** Collapsing whitespace leaves a well-spaced string unchanged. */
  lemma {:induction false} CollapseFixed(s: string)
    requires OnlyPlainSpaces(s) && NoDoubleSpace(s)
    ensures CollapseSpaces(s) == s
    decreases |s|
  {
    if s != [] {
      var tail := s[1..];
      TailSpaced(s, tail);
      CollapseFixed(tail);
      CollapseCons(s, tail);
    }
  }

  /** The tail of a well-spaced string is well spaced, and a space at its
      head is a plain one followed by no other. */
  lemma TailSpaced(s: string, tail: string)
    requires OnlyPlainSpaces(s) && NoDoubleSpace(s) && s != [] && tail == s[1..]
    ensures OnlyPlainSpaces(tail) && NoDoubleSpace(tail)
    ensures IsSpace(s[0]) ==> s[0] == ' ' && (tail == [] || !IsSpace(tail[0]))
  {
    assert forall k :: 0 <= k < |tail| ==> tail[k] == s[k + 1];
  }

  /** Collapsing a string whose tail collapses to itself. */
  lemma CollapseCons(s: string, tail: string)
    requires s != [] && tail == s[1..] && CollapseSpaces(tail) == tail
    requires IsSpace(s[0]) ==> s[0] == ' ' && (tail == [] || !IsSpace(tail[0]))
    ensures CollapseSpaces(s) == s
  {
    if IsSpace(s[0]) {
      assert TrimStart(s) == tail;
    }
    assert s == [s[0]] + tail;
  }

  /** `cleanText` is idempotent. */
  lemma CleanTextIdempotent(text: Option<string>)
    ensures CleanText(Some(CleanText(text))) == CleanText(text)
  {
    var c := CleanText(text);
    if c != "" {
      CollapseFixed(c);
      TrimUnchanged(c);
    }
  }

  /** The non-whitespace characters of `s`, in order. */
  function Visible(s: string): string
  {
    if s == [] then [] else (if IsSpace(s[0]) then [] else [s[0]]) + Visible(s[1..])
  }

  /** `cleanText` keeps every non-whitespace character of its input, in
      order: it only replaces and removes whitespace. */
  lemma CleanTextKeepsText(t: string)
    ensures Visible(CleanText(Some(t))) == Visible(t)
  {
    if t != "" {
      CollapseKeepsText(t);
      TrimKeepsText(CollapseSpaces(t));
    }
  }

  /** Collapsing whitespace runs keeps the other characters, in order. */
  lemma {:induction false} CollapseKeepsText(s: string)
    ensures Visible(CollapseSpaces(s)) == Visible(s)
    decreases |s|
  {
    if s != [] {
      if IsSpace(s[0]) {
        var rest := TrimStart(s);
        TrimStartDropsSpace(s);
        var k := |s| - |rest|;
        assert k >= 1;
        CollapseKeepsText(rest);
        assert s == s[..k] + rest;
        VisibleAppend(s[..k], rest);
        VisibleOfSpaces(s[..k]);
        VisibleAppend([' '], CollapseSpaces(rest));
      } else {
        CollapseKeepsText(s[1..]);
        VisibleAppend([s[0]], CollapseSpaces(s[1..]));
      }
    }
  }

  /** Trimming keeps the non-whitespace characters, in order. */
  lemma TrimKeepsText(s: string)
    ensures Visible(Trim(s)) == Visible(s)
  {
    var i, j := TrimBounds(s);
    var front, mid, back := s[..i], s[i..j], s[j..];
    assert s == front + mid + back;
    assert forall k :: 0 <= k < |back| ==> back[k] == s[j + k];
    VisibleAppend(front + mid, back);
    VisibleAppend(front, mid);
    VisibleOfSpaces(front);
    VisibleOfSpaces(back);
  }

  lemma {:induction false} VisibleAppend(a: string, b: string)
    ensures Visible(a + b) == Visible(a) + Visible(b)
    decreases |a|
  {
    if a == [] {
      assert a + b == b;
    } else {
      var ab := a + b;
      var head := if IsSpace(a[0]) then [] else [a[0]];
      assert ab != [] && ab[0] == a[0] && ab[1..] == a[1..] + b;
      assert Visible(ab) == head + Visible(a[1..] + b);
      assert Visible(a) == head + Visible(a[1..]);
      VisibleAppend(a[1..], b);
      Associative(head, Visible(a[1..]), Visible(b));
    }
  }

  lemma {:induction false} VisibleOfSpaces(s: string)
    requires forall k :: 0 <= k < |s| ==> IsSpace(s[k])
    ensures Visible(s) == []
    decreases |s|
  {
    if s != [] {
      assert forall k :: 0 <= k < |s[1..]| ==> s[1..][k] == s[k + 1];
      VisibleOfSpaces(s[1..]);
    }
  }

  /** The words of `s`: its maximal runs of non-whitespace characters, in
      order. Built one character at a time: a non-whitespace character
      followed by another joins the first word after it. */
  function Words(s: string): (r: seq<string>)
    ensures s != [] && !IsSpace(s[0]) ==> r != []
    decreases |s|
  {
    if s == [] then []
    else
      var rest := Words(s[1..]);
      if IsSpace(s[0]) then rest
      else if |s| > 1 && !IsSpace(s[1]) then [[s[0]] + rest[0]] + rest[1..]
      else [[s[0]]] + rest
  }

  /** `cleanText` keeps the words of its input, all of them and in order:
      with `Trimmed`, `NoDoubleSpace` and `OnlyPlainSpaces`, every run of
      whitespace between two words became exactly one space. */
  lemma CleanTextKeepsWords(t: string)
    ensures Words(CleanText(Some(t))) == Words(t)
  {
    if t != "" {
      CollapseKeepsWords(t);
      TrimKeepsWords(CollapseSpaces(t));
    }
  }

  /** `cleanText` in one line: the words of the input joined by single
      spaces. */
  lemma CleanTextIsJoinedWords(t: string)
    ensures CleanText(Some(t)) == Join(Words(t), ' ')
  {
    var c := CleanText(Some(t));
    CleanTextKeepsWords(t);
    if c != "" {
      WellSpacedIsJoin(c);
    }
  }

  /** A well-spaced string with no whitespace at its ends is its words
      joined by single spaces. */
  lemma {:induction false} WellSpacedIsJoin(s: string)
    requires s != [] && Trimmed(s) && NoDoubleSpace(s) && OnlyPlainSpaces(s)
    ensures s == Join(Words(s), ' ')
    decreases |s|
  {
    if |s| > 1 {
      var tail := s[1..];
      assert forall k :: 0 <= k < |tail| ==> tail[k] == s[k + 1];
      if !IsSpace(s[1]) {
        WellSpacedIsJoin(tail);
        JoinJoinsHead(s[0], Words(tail), ' ');
        assert s == [s[0]] + tail;
      } else {
        var rest := s[2..];
        assert |s| > 2 && s[1] == ' ' && !IsSpace(s[2]);
        assert forall k :: 0 <= k < |rest| ==> rest[k] == s[k + 2];
        WellSpacedIsJoin(rest);
        assert tail[1..] == rest && IsSpace(tail[0]);
        assert Words(tail) == Words(rest);
        JoinStartsWord(s[0], Words(rest), ' ');
        assert s == [s[0]] + [' '] + rest;
      }
    }
  }

  /** A character glued to the first word is glued to the joined text. */
  lemma JoinJoinsHead(c: char, parts: seq<string>, sep: char)
    requires parts != []
    ensures Join([[c] + parts[0]] + parts[1..], sep) == [c] + Join(parts, sep)
  {
    var glued := [[c] + parts[0]] + parts[1..];
    assert glued[0] == [c] + parts[0] && glued[1..] == parts[1..];
    if |parts| > 1 {
      Associative([c], parts[0], [sep] + Join(parts[1..], sep));
      assert Join(parts, sep) == parts[0] + ([sep] + Join(parts[1..], sep));
      assert Join(glued, sep) == ([c] + parts[0]) + ([sep] + Join(parts[1..], sep));
    }
  }

  /** A one-character word in front of the others. */
  lemma JoinStartsWord(c: char, parts: seq<string>, sep: char)
    requires parts != []
    ensures Join([[c]] + parts, sep) == [c] + [sep] + Join(parts, sep)
  {
    assert ([[c]] + parts)[1..] == parts;
  }

  /** Collapsing whitespace runs keeps the words. */
  lemma {:induction false} CollapseKeepsWords(s: string)
    ensures Words(CollapseSpaces(s)) == Words(s)
    decreases |s|
  {
    if s != [] {
      var c := CollapseSpaces(s);
      if IsSpace(s[0]) {
        var rest := TrimStart(s);
        TrimStartDropsSpace(s);
        assert |s| - |rest| >= 1;
        assert c == [' '] + CollapseSpaces(rest) && c[1..] == CollapseSpaces(rest);
        CollapseKeepsWords(rest);
        WordsSkipSpaces(s);
      } else {
        var tail := s[1..];
        assert c == [s[0]] + CollapseSpaces(tail) && c[1..] == CollapseSpaces(tail);
        CollapseKeepsWords(tail);
        assert |c| > 1 <==> |s| > 1;
        assert |s| > 1 ==> (IsSpace(c[1]) <==> IsSpace(s[1]));
      }
    }
  }

  /** Leading whitespace holds no word. */
  lemma {:induction false} WordsSkipSpaces(s: string)
    ensures Words(TrimStart(s)) == Words(s)
    decreases |s|
  {
    if s != [] && IsSpace(s[0]) {
      WordsSkipSpaces(s[1..]);
      assert TrimStart(s) == TrimStart(s[1..]);
    }
  }

  /** Trailing whitespace holds no word. */
  lemma {:induction false} WordsPadded(a: string, pad: string)
    requires forall k :: 0 <= k < |pad| ==> IsSpace(pad[k])
    ensures Words(a + pad) == Words(a)
    decreases |a|
  {
    if a == [] {
      assert a + pad == pad;
      WordsOfSpaces(pad);
    } else {
      var w := a + pad;
      assert w[0] == a[0] && w[1..] == a[1..] + pad;
      WordsPadded(a[1..], pad);
      assert |a| == 1 && |w| > 1 ==> w[1] == pad[0];
      assert |a| > 1 ==> w[1] == a[1];
    }
  }

  lemma {:induction false} WordsOfSpaces(s: string)
    requires forall k :: 0 <= k < |s| ==> IsSpace(s[k])
    ensures Words(s) == []
    decreases |s|
  {
    if s != [] {
      assert forall k :: 0 <= k < |s[1..]| ==> s[1..][k] == s[k + 1];
      WordsOfSpaces(s[1..]);
    }
  }

  /** Trimming keeps the words. */
  lemma TrimKeepsWords(s: string)
    ensures Words(Trim(s)) == Words(s)
  {
    var t := TrimStart(s);
    WordsSkipSpaces(s);
    var r := TrimEnd(t);
    TrimEndDropsSpace(t);
    var pad := t[|r|..];
    assert t == r + pad;
    assert forall k :: 0 <= k < |pad| ==> pad[k] == t[|r| + k];
    WordsPadded(r, pad);
  }

  /** `countCharacters` (lib/utils.js:30-32). */
  function CountCharacters(text: Option<string>): (n: nat)
    ensures text.Some? ==> n == |text.value|
    ensures text == None ==> n == 0
  {
    if text == None || text.value == "" then 0 else |text.value|
  }

  /** `isWithinCharLimit` (lib/utils.js:40-42). */
  function IsWithinCharLimit(text: Option<string>, limit: int): (ok: bool)
    ensures ok <==> (if text.Some? then |text.value| else 0) <= limit
  {
    CountCharacters(text) <= limit
  }

  /** The length `truncateText` uses when the caller gives none. */
  const DefaultTruncateLength: int := 100

  /** `truncateText` (lib/utils.js:65-70). `substring(0, n)` treats a
      negative `n` as 0. */
  function TruncateText(text: Option<string>, length: int): (r: string)
    ensures text == None || text == Some("") ==> r == ""
    ensures text.Some? && |text.value| <= length ==> r == text.value
    ensures text.Some? && text.value != "" && |text.value| > length ==>
              var keep := if length < 0 then 0 else length;
              |r| == keep + 3 && r[..keep] == text.value[..keep] && r[keep..] == "..."
  {
    if text == None || text.value == "" then ""
    else if |text.value| <= length then text.value
    else text.value[..if length < 0 then 0 else length] + "..."
  }

  /** `truncateText(text)` called without a length: at most 100 characters
      are kept before the ellipsis. */
  function TruncateTextDefault(text: Option<string>): (r: string)
    ensures text == None || text == Some("") ==> r == ""
    ensures text.Some? && |text.value| <= 100 ==> r == text.value
    ensures text.Some? && |text.value| > 100 ==>
              |r| == 103 && r[..100] == text.value[..100] && r[100..] == "..."
  {
    TruncateText(text, DefaultTruncateLength)
  }
}
