/** The fence extractor of app/api/generate-mermaid/route.js: a three-state
    machine over a buffer of not-yet-classified text that finds the first
    fenced block and releases its interior as soon as it arrives. */
module Fence {
  import opened Strings

  datatype Mode = Search | Collect | Done

  /** Modes only move forward: Search, then Collect, then Done. */
  function Rank(m: Mode): nat
  {
    match m
    case Search => 2
    case Collect => 1
    case Done => 0
  }

  const FenceMark: string := "```"
  const MermaidMark: string := "```mermaid"

  /** The opener position chosen in search mode: the tagged fence when it
      occurs at or before the bare one, else the bare fence, else -1. */
  function OpenerIndex(p: string): int
  {
    var idxMer := IndexOf(p, MermaidMark, 0);
    var idxFence := IndexOf(p, FenceMark, 0);
    if idxMer != -1 && (idxFence == -1 || idxMer <= idxFence) then idxMer
    else if idxFence != -1 then idxFence
    else -1
  }

  /** The tie-break never matters: the chosen opener is always the first bare fence. */
  lemma OpenerIsFirstFence(p: string)
    ensures OpenerIndex(p) == IndexOf(p, FenceMark, 0)
  {
    var idxMer := IndexOf(p, MermaidMark, 0);
    if idxMer != -1 {
      IndexOfSpec(p, MermaidMark, 0);
      IndexOfSpec(p, FenceMark, 0);
      assert p[idxMer..idxMer + 3] == p[idxMer..idxMer + 10][..3];
      assert OccursAt(p, FenceMark, idxMer);
    }
  }

  /** What one call of the extractor leaves behind: the mode, the buffer and
      the increments released, in order. */
  datatype Extracted = Extracted(mode: Mode, pending: string, out: seq<string>)

  /** The extractor's loop run to quiescence from mode `m` over buffer `p`
      (the buffer already holds the newly arrived text). */
  function Advance(m: Mode, p: string): Extracted
    decreases Rank(m)
  {
    match m
    case Search =>
      var idx := OpenerIndex(p);
      if idx == -1 then Extracted(Search, p, [])
      else
        var nl := IndexOf(p, "\n", idx);
        if nl == -1 then Extracted(Search, p, [])
        else Advance(Collect, p[nl + 1..])
    case Collect =>
      var closeIdx := IndexOf(p, FenceMark, 0);
      if closeIdx == -1 then Extracted(Collect, "", if |p| > 0 then [p] else [])
      else Extracted(Done, p[closeIdx + 3..], [p[..closeIdx]])
    case Done => Extracted(Done, p, [])
  }

  /** One call `processIncoming(text)` from mode `m` and buffer `p`. */
  function Feed(m: Mode, p: string, text: string): Extracted
  {
    Advance(m, p + text)
  }

  /** Search mode waits while the buffer holds no fence, or no newline at or
      after the first fence: nothing is released and the text is kept. */
  lemma SearchWaits(p: string, text: string)
    requires var w := p + text;
             IndexOf(w, FenceMark, 0) == -1 || IndexOf(w, "\n", IndexOf(w, FenceMark, 0)) == -1
    ensures Feed(Search, p, text) == Extracted(Search, p + text, [])
  {
    SearchIdle(p + text);
  }

  /** `SearchWaits` on the whole buffer. */
  lemma SearchIdle(w: string)
    requires IndexOf(w, FenceMark, 0) == -1 || IndexOf(w, "\n", IndexOf(w, FenceMark, 0)) == -1
    ensures Advance(Search, w) == Extracted(Search, w, [])
  {
    OpenerIsFirstFence(w);
  }

  /** Leaving search mode drops everything up to and including the newline
      that ends the first fence's line, then collects from there. */
  lemma SearchOpens(w: string)
    requires IndexOf(w, FenceMark, 0) != -1 && IndexOf(w, "\n", IndexOf(w, FenceMark, 0)) != -1
    ensures var nl := IndexOf(w, "\n", IndexOf(w, FenceMark, 0));
            Advance(Search, w) == Advance(Collect, w[nl + 1..])
  {
    OpenerIsFirstFence(w);
  }

  /** Collect mode without a closing fence releases the whole buffer as one
      increment (none when it is empty) and empties the buffer. */
  lemma CollectFlushes(p: string)
    requires IndexOf(p, FenceMark, 0) == -1
    ensures Advance(Collect, p) == Extracted(Collect, "", if p == "" then [] else [p])
  {
  }

  /** Collect mode with a closing fence releases the text before it, keeps
      what follows the fence and stops. */
  lemma CollectCloses(p: string)
    requires IndexOf(p, FenceMark, 0) != -1
    ensures var c := IndexOf(p, FenceMark, 0);
            Advance(Collect, p) == Extracted(Done, p[c + 3..], [p[..c]])
  {
  }

  /** The text released before a closing fence holds no fence. */
  lemma ClosedPrefixFenceFree(p: string)
    requires IndexOf(p, FenceMark, 0) != -1
    ensures !Contains(p[..IndexOf(p, FenceMark, 0)], FenceMark)
  {
    var c := IndexOf(p, FenceMark, 0);
    IndexOfSpec(p, FenceMark, 0);
    forall k | 0 <= k
      ensures !OccursAt(p[..c], FenceMark, k)
    {
      if k + 3 <= c {
        assert p[..c][k..k + 3] == p[k..k + 3];
        assert !OccursAt(p, FenceMark, k);
      }
    }
    IndexOfSpec(p[..c], FenceMark, 0);
  }

  /** Done absorbs all further input and releases nothing. */
  lemma DoneAbsorbs(p: string, text: string)
    ensures Feed(Done, p, text) == Extracted(Done, p + text, [])
  {
  }

  /** A call never moves the mode backwards. */
  lemma {:induction false} ModeMonotone(m: Mode, p: string)
    ensures Rank(Advance(m, p).mode) <= Rank(m)
    decreases Rank(m)
  {
    if m == Search {
      var idx := OpenerIndex(p);
      if idx != -1 && IndexOf(p, "\n", idx) != -1 {
        ModeMonotone(Collect, p[IndexOf(p, "\n", idx) + 1..]);
      }
    }
  }

  /** Nothing is released before a complete opening fence line has been
      seen: a call in search mode releases nothing unless the buffer holds a
      fence followed by a newline. */
  lemma NothingBeforeOpener(p: string)
    requires Advance(Search, p).out != []
    ensures IndexOf(p, FenceMark, 0) != -1 && IndexOf(p, "\n", IndexOf(p, FenceMark, 0)) != -1
  {
    OpenerIsFirstFence(p);
  }

  /** No released increment ever contains a fence. */
  lemma {:induction false} IncrementsFenceFree(m: Mode, p: string)
    ensures forall k :: 0 <= k < |Advance(m, p).out| ==> !Contains(Advance(m, p).out[k], FenceMark)
    decreases Rank(m)
  {
    match m
    case Search =>
      var idx := OpenerIndex(p);
      if idx != -1 && IndexOf(p, "\n", idx) != -1 {
        IncrementsFenceFree(Collect, p[IndexOf(p, "\n", idx) + 1..]);
      }
    case Collect =>
      if IndexOf(p, FenceMark, 0) != -1 {
        ClosedPrefixFenceFree(p);
      }
    case Done =>
  }

  /** `pat` does not start at the last two positions of `a` in `a + b`: no
      fence is split between the two pieces. */
  predicate NoFenceStraddle(a: string, b: string)
  {
    !OccursAt(a + b, FenceMark, |a| - 2) && !OccursAt(a + b, FenceMark, |a| - 1)
  }

  /** With no fence split at the seam, the first fence of `a + b` lies in `b`
      exactly when `a` has none. */
  lemma FenceAfterSeam(a: string, b: string)
    requires IndexOf(a, FenceMark, 0) == -1 && NoFenceStraddle(a, b)
    ensures var cb := IndexOf(b, FenceMark, 0);
            IndexOf(a + b, FenceMark, 0) == if cb == -1 then -1 else |a| + cb
  {
    NoFenceInLeft(a, b);
    var cb := IndexOf(b, FenceMark, 0);
    if cb != -1 {
      FirstFenceInRight(a, b, cb);
    } else {
      NoFenceInRight(a, b);
    }
  }

  /** No fence of `a + b` starts inside `a` when `a` has none and none is
      split at the seam. */
  lemma NoFenceInLeft(a: string, b: string)
    requires IndexOf(a, FenceMark, 0) == -1 && NoFenceStraddle(a, b)
    ensures forall j :: 0 <= j < |a| ==> !OccursAt(a + b, FenceMark, j)
  {
    IndexOfSpec(a, FenceMark, 0);
    forall j | 0 <= j < |a|
      ensures !OccursAt(a + b, FenceMark, j)
    {
      if j + 3 <= |a| {
        OccursAtLeft(a, b, FenceMark, j);
      } else if j == |a| - 2 {
      } else {
        assert j == |a| - 1;
      }
    }
  }

  /** With none starting inside `a`, the first fence of `a + b` is the first of `b`. */
  lemma FirstFenceInRight(a: string, b: string, cb: int)
    requires forall j :: 0 <= j < |a| ==> !OccursAt(a + b, FenceMark, j)
    requires cb == IndexOf(b, FenceMark, 0) && cb != -1
    ensures IndexOf(a + b, FenceMark, 0) == |a| + cb
  {
    var w := a + b;
    IndexOfSpec(b, FenceMark, 0);
    forall j | |a| <= j < |a| + cb
      ensures !OccursAt(w, FenceMark, j)
    {
      OccursAtRight(a, b, FenceMark, j);
    }
    OccursAtRight(a, b, FenceMark, |a| + cb);
    IndexOfIsFirst(w, FenceMark, 0, |a| + cb);
  }

  /** With none starting inside `a` and none in `b`, `a + b` has no fence. */
  lemma NoFenceInRight(a: string, b: string)
    requires forall j :: 0 <= j < |a| ==> !OccursAt(a + b, FenceMark, j)
    requires IndexOf(b, FenceMark, 0) == -1
    ensures IndexOf(a + b, FenceMark, 0) == -1
  {
    var w := a + b;
    IndexOfSpec(b, FenceMark, 0);
    forall j | |a| <= j
      ensures !OccursAt(w, FenceMark, j)
    {
      OccursAtRight(a, b, FenceMark, j);
    }
    IndexOfSpec(w, FenceMark, 0);
  }

  /** Two calls `r1`, `r2` agree with the single call `one`: same final
      mode and buffer, same released text. */
  predicate SplitAgrees(r1: Extracted, r2: Extracted, one: Extracted)
  {
    r2.mode == one.mode && r2.pending == one.pending && Concat(r1.out + r2.out) == Concat(one.out)
  }

  /** The increments of one collect-mode call spell out the text it consumed. */
  lemma ConcatCollected(p: string)
    ensures IndexOf(p, FenceMark, 0) == -1 ==> Concat(Advance(Collect, p).out) == p
    ensures IndexOf(p, FenceMark, 0) != -1 ==>
              Concat(Advance(Collect, p).out) == p[..IndexOf(p, FenceMark, 0)]
  {
    var out := Advance(Collect, p).out;
    if out != [] {
      assert out[..0] == [];
    }
  }

  /** Collect mode, when the first piece already holds the closing fence. */
  lemma CollectSplitClosed(a: string, b: string)
    requires IndexOf(a, FenceMark, 0) != -1
    ensures var r1 := Advance(Collect, a);
            SplitAgrees(r1, Advance(r1.mode, r1.pending + b), Advance(Collect, a + b))
  {
    var c1 := IndexOf(a, FenceMark, 0);
    IndexOfPrefix(a, b, FenceMark, 0);
    var r1 := Advance(Collect, a);
    var one := Advance(Collect, a + b);
    assert (a + b)[c1 + 3..] == a[c1 + 3..] + b;
    assert (a + b)[..c1] == a[..c1];
    assert r1.out + [] == r1.out;
    ConcatCollected(a);
    ConcatCollected(a + b);
  }

  /** Collect mode over `a + b` when only `b` holds a closing fence, at `cb`. */
  lemma CollectClosesInRight(a: string, b: string, cb: int)
    requires IndexOf(a + b, FenceMark, 0) == |a| + cb
    requires cb == IndexOf(b, FenceMark, 0) && cb != -1
    ensures Advance(Collect, a + b) == Extracted(Done, b[cb + 3..], [a + b[..cb]])
  {
    CollectCloses(a + b);
    assert (a + b)[|a| + cb + 3..] == b[cb + 3..];
    assert (a + b)[..|a| + cb] == a + b[..cb];
  }

  /** Collect mode, when the first piece holds no fence. */
  lemma CollectSplitOpen(a: string, b: string)
    requires IndexOf(a, FenceMark, 0) == -1 && NoFenceStraddle(a, b)
    ensures var r1 := Advance(Collect, a);
            SplitAgrees(r1, Advance(r1.mode, r1.pending + b), Advance(Collect, a + b))
  {
    FenceAfterSeam(a, b);
    var cb := IndexOf(b, FenceMark, 0);
    if cb == -1 {
      CollectSplitUnclosed(a, b);
    } else {
      CollectSplitClosesInRight(a, b, cb);
    }
  }

  /** Collect mode split with no fence in either piece: both pieces are
      released whole. */
  lemma CollectSplitUnclosed(a: string, b: string)
    requires IndexOf(a, FenceMark, 0) == -1 && IndexOf(b, FenceMark, 0) == -1
    requires IndexOf(a + b, FenceMark, 0) == -1
    ensures var r1 := Advance(Collect, a);
            SplitAgrees(r1, Advance(r1.mode, r1.pending + b), Advance(Collect, a + b))
  {
    CollectFlushes(a);
    var r1 := Extracted(Collect, "", if a == "" then [] else [a]);
    assert r1.pending + b == b;
    CollectFlushes(b);
    CollectFlushes(a + b);
    var r2 := Extracted(Collect, "", if b == "" then [] else [b]);
    var one := Extracted(Collect, "", if a + b == "" then [] else [a + b]);
    ConcatSmall(a, b);
    assert Concat(r1.out + r2.out) == a + b by {
      if a == "" {
        assert r1.out + r2.out == r2.out;
        assert a + b == b;
      } else if b == "" {
        assert r1.out + r2.out == r1.out;
        assert a + b == a;
      } else {
        assert r1.out + r2.out == [a, b];
      }
    }
    assert SplitAgrees(r1, r2, one);
  }

  /** Collect mode split with the first closing fence in the second piece,
      at `cb`. */
  lemma CollectSplitClosesInRight(a: string, b: string, cb: int)
    requires IndexOf(a, FenceMark, 0) == -1 && cb == IndexOf(b, FenceMark, 0) && cb != -1
    requires IndexOf(a + b, FenceMark, 0) == |a| + cb
    ensures var r1 := Advance(Collect, a);
            SplitAgrees(r1, Advance(r1.mode, r1.pending + b), Advance(Collect, a + b))
  {
    CollectFlushes(a);
    var r1 := Extracted(Collect, "", if a == "" then [] else [a]);
    assert r1.pending + b == b;
    CollectCloses(b);
    CollectClosesInRight(a, b, cb);
    var r2 := Extracted(Done, b[cb + 3..], [b[..cb]]);
    var one := Extracted(Done, b[cb + 3..], [a + b[..cb]]);
    ConcatSmall(a, b[..cb]);
    ConcatSmall(a + b[..cb], "");
    assert Concat(r1.out + r2.out) == a + b[..cb] by {
      if a == "" {
        assert r1.out + r2.out == r2.out;
        assert a + b[..cb] == b[..cb];
      } else {
        assert r1.out + r2.out == [a, b[..cb]];
      }
    }
    assert SplitAgrees(r1, r2, one);
  }

  /** Collect mode does not care where the input is split, as long as no
      fence is split. */
  lemma CollectSplit(a: string, b: string)
    requires NoFenceStraddle(a, b)
    ensures var r1 := Advance(Collect, a);
            SplitAgrees(r1, Advance(r1.mode, r1.pending + b), Advance(Collect, a + b))
  {
    if IndexOf(a, FenceMark, 0) != -1 {
      CollectSplitClosed(a, b);
    } else {
      CollectSplitOpen(a, b);
    }
  }

  /** The seam between `a[k..]` and `b` sits where the seam between `a`
      and `b` sat, so a fence not split there is not split here either. */
  lemma NoFenceStraddleSuffix(a: string, b: string, k: nat)
    requires k <= |a| && NoFenceStraddle(a, b)
    ensures NoFenceStraddle(a[k..], b)
  {
    var rest := a[k..];
    DropAppend(a, b, k);
    SeamShift(a + b, rest + b, k, |rest|, |a|);
  }

  /** No fence across the seam at `m` of `w` means none across the seam at
      `n` of its suffix `t` from `k`, where `m == n + k`. */
  lemma SeamShift(w: string, t: string, k: nat, n: int, m: int)
    requires k <= |w| && t == w[k..] && m == n + k
    requires !OccursAt(w, FenceMark, m - 2) && !OccursAt(w, FenceMark, m - 1)
    ensures !OccursAt(t, FenceMark, n - 2) && !OccursAt(t, FenceMark, n - 1)
  {
    OccursAtShift(w, t, FenceMark, k, n - 2);
    OccursAtShift(w, t, FenceMark, k, n - 1);
  }

  /** The first fence of `a` and the newline after it are those of `a + b`. */
  lemma FenceLineInPrefix(a: string, b: string) returns (idx: int, nl: int)
    requires IndexOf(a, FenceMark, 0) != -1 && IndexOf(a, "\n", IndexOf(a, FenceMark, 0)) != -1
    ensures idx == IndexOf(a, FenceMark, 0) && nl == IndexOf(a, "\n", idx) && 0 <= idx <= nl < |a|
    ensures idx == IndexOf(a + b, FenceMark, 0) && nl == IndexOf(a + b, "\n", idx)
  {
    idx := IndexOf(a, FenceMark, 0);
    nl := IndexOf(a, "\n", idx);
    IndexOfPrefix(a, b, FenceMark, 0);
    IndexOfPrefix(a, b, "\n", idx);
  }

  /** `SearchOpens`, with the fence and the newline found at `idx` and `nl`. */
  lemma SearchOpensAt(w: string, idx: int, nl: int)
    requires idx == IndexOf(w, FenceMark, 0) && idx != -1
    requires nl == IndexOf(w, "\n", idx) && nl != -1
    ensures 0 <= nl < |w| && Advance(Search, w) == Advance(Collect, w[nl + 1..])
  {
    SearchOpens(w);
  }

  /** Collecting from inside `a` continues into `b`. */
  lemma CollectAfterPrefix(a: string, b: string, nl: int)
    requires 0 <= nl < |a|
    ensures Advance(Collect, (a + b)[nl + 1..]) == Advance(Collect, a[nl + 1..] + b)
  {
    DropAppend(a, b, nl + 1);
  }

  /** Search mode, when the first piece completes the opening fence line. */
  lemma SearchSplitOpened(a: string, b: string)
    requires NoFenceStraddle(a, b)
    requires IndexOf(a, FenceMark, 0) != -1 && IndexOf(a, "\n", IndexOf(a, FenceMark, 0)) != -1
    ensures var r1 := Advance(Search, a);
            SplitAgrees(r1, Advance(r1.mode, r1.pending + b), Advance(Search, a + b))
  {
    var rest := OpenedRest(a, b);
    CollectSplit(rest, b);
    AgreesRewritten(Advance(Search, a), Advance(Collect, rest), Advance(Search, a + b), Advance(Collect, rest + b), b);
  }

  /** The text left to collect once the opening fence line of `a` is dropped,
      with or without `b` after it. */
  lemma OpenedRest(a: string, b: string) returns (rest: string)
    requires NoFenceStraddle(a, b)
    requires IndexOf(a, FenceMark, 0) != -1 && IndexOf(a, "\n", IndexOf(a, FenceMark, 0)) != -1
    ensures Advance(Search, a) == Advance(Collect, rest)
    ensures Advance(Search, a + b) == Advance(Collect, rest + b)
    ensures NoFenceStraddle(rest, b)
  {
    var nl := OpenedAt(a, b);
    rest := a[nl + 1..];
    NoFenceStraddleSuffix(a, b, nl + 1);
  }

  /** The newline ending the opening fence line of `a`, after which both `a`
      and `a + b` are collected. */
  lemma OpenedAt(a: string, b: string) returns (nl: int)
    requires IndexOf(a, FenceMark, 0) != -1 && IndexOf(a, "\n", IndexOf(a, FenceMark, 0)) != -1
    ensures 0 <= nl < |a|
    ensures Advance(Search, a) == Advance(Collect, a[nl + 1..])
    ensures Advance(Search, a + b) == Advance(Collect, a[nl + 1..] + b)
  {
    var idx;
    idx, nl := FenceLineInPrefix(a, b);
    SearchOpensAt(a, idx, nl);
    SearchOpensAt(a + b, idx, nl);
    CollectAfterPrefix(a, b, nl);
  }

  /** `SplitAgrees` carried over equal results. */
  lemma AgreesRewritten(r1: Extracted, c1: Extracted, one: Extracted, c: Extracted, b: string)
    requires r1 == c1 && one == c && SplitAgrees(c1, Advance(c1.mode, c1.pending + b), c)
    ensures SplitAgrees(r1, Advance(r1.mode, r1.pending + b), one)
  {
  }

  /** Chunk-boundary independence: feeding `t1` then `t2` ends in the same
      mode and buffer, and releases the same text, as feeding `t1 + t2` at
      once, provided no fence is split between the two deliveries. */
  lemma FeedSplit(m: Mode, p: string, t1: string, t2: string)
    requires NoFenceStraddle(p + t1, t2)
    ensures var r1 := Feed(m, p, t1);
            SplitAgrees(r1, Feed(r1.mode, r1.pending, t2), Feed(m, p, t1 + t2))
  {
    Associative(p, t1, t2);
    AdvanceSplit(m, p + t1, t2);
  }

  /** `FeedSplit` on the buffer once the first text is appended. */
  lemma AdvanceSplit(m: Mode, a: string, b: string)
    requires NoFenceStraddle(a, b)
    ensures var r1 := Advance(m, a);
            SplitAgrees(r1, Advance(r1.mode, r1.pending + b), Advance(m, a + b))
  {
    match m
    case Done =>
      DoneSplit(a, b);
    case Collect =>
      CollectSplit(a, b);
    case Search =>
      var idx := IndexOf(a, FenceMark, 0);
      if idx == -1 || IndexOf(a, "\n", idx) == -1 {
        SearchSplitWaiting(a, b);
      } else {
        SearchSplitOpened(a, b);
      }
  }

  /** Done mode, split anywhere. */
  lemma DoneSplit(a: string, b: string)
    ensures var r1 := Advance(Done, a);
            SplitAgrees(r1, Advance(r1.mode, r1.pending + b), Advance(Done, a + b))
  {
    var r1 := Advance(Done, a);
    assert r1.out + [] == r1.out;
  }

  /** Search mode, when the first piece does not complete an opening fence line. */
  lemma SearchSplitWaiting(a: string, b: string)
    requires IndexOf(a, FenceMark, 0) == -1 || IndexOf(a, "\n", IndexOf(a, FenceMark, 0)) == -1
    ensures var r1 := Advance(Search, a);
            SplitAgrees(r1, Advance(r1.mode, r1.pending + b), Advance(Search, a + b))
  {
    SearchIdle(a);
    var one := Advance(Search, a + b);
    assert [] + one.out == one.out;
  }

  /** A buffer starting with a fence line of `k` characters before its
      newline (the fence itself included) goes straight to collecting. */
  lemma OpensAtStart(w: string, nl: nat)
    requires 3 <= nl < |w| && w[..3] == FenceMark && w[nl] == '\n'
    requires forall j :: 0 <= j < nl ==> w[j] != '\n'
    ensures IndexOf(w, FenceMark, 0) == 0 && IndexOf(w, "\n", 0) == nl
  {
    assert OccursAt(w, FenceMark, 0);
    IndexOfIsFirst(w, FenceMark, 0, 0);
    assert w[nl..nl + 1] == "\n";
    forall j | 0 <= j < nl ensures !OccursAt(w, "\n", j) {
      assert w[j..j + 1] == [w[j]];
    }
    IndexOfIsFirst(w, "\n", 0, nl);
  }

  lemma StraddledFirstDelivery()
    ensures Feed(Search, "", "```\nAB`") == Extracted(Collect, "", ["AB`"])
  {
    var w := "```\nAB`";
    assert "" + w == w;
    OpensFenceLine(w, "", "AB`");
    MismatchAt("AB`", FenceMark, 0, 0);
    CollectFlushes("AB`");
  }

  /** A buffer in collect mode holding a backtick-free body and then the
      closing fence releases the body and stops. */
  lemma ClosesAfter(body: string, p: string)
    requires '`' !in body && p == body + FenceMark
    ensures Advance(Collect, p) == Extracted(Done, "", [body])
  {
    forall j | 0 <= j < |body|
      ensures !OccursAt(p, FenceMark, j)
    {
      assert p[j] == body[j];
      MismatchAt(p, FenceMark, j, 0);
    }
    assert p[|body|..|body| + 3] == FenceMark;
    IndexOfIsFirst(p, FenceMark, 0, |body|);
    CollectCloses(p);
    assert p[..|body|] == body && p[|body| + 3..] == "";
  }

  lemma StraddledWholeDelivery()
    ensures Feed(Search, "", "```\nAB```") == Extracted(Done, "", ["AB"])
  {
    var w := "```\nAB```";
    assert "" + w == w;
    OpensFenceLine(w, "", "AB```");
    ClosesAfterAB();
  }

  lemma ClosesAfterAB()
    ensures Advance(Collect, "AB```") == Extracted(Done, "", ["AB"])
  {
    var rest := "AB```";
    MismatchAt(rest, FenceMark, 0, 0);
    MismatchAt(rest, FenceMark, 1, 0);
    assert rest[2..5] == FenceMark;
    IndexOfIsFirst(rest, FenceMark, 0, 2);
    CollectCloses(rest);
    assert rest[..2] == "AB" && rest[5..] == "";
  }

  /** A whole reply `FENCE tag \n body FENCE` in one buffer: the body,
      free of backticks, is released in one increment and collection stops. */
  lemma FencedDelivery(tag: string, body: string, w: string)
    requires '\n' !in tag && '`' !in tag && '`' !in body
    requires w == FenceMark + tag + "\n" + body + FenceMark
    ensures Feed(Search, "", w) == Extracted(Done, "", [body])
  {
    var rest := body + FenceMark;
    assert w == FenceMark + tag + "\n" + rest;
    assert "" + w == w;
    OpensFenceLine(w, tag, rest);
    ClosesAfter(body, rest);
  }

  /** A buffer without a backtick holds no fence: search mode keeps it all
      and releases nothing. */
  lemma NoBacktickWaits(w: string)
    requires '`' !in w
    ensures Advance(Search, w) == Extracted(Search, w, [])
  {
    forall j | 0 <= j
      ensures !OccursAt(w, FenceMark, j)
    {
      if j < |w| {
        MismatchAt(w, FenceMark, j, 0);
      }
    }
    IndexOfNone(w, FenceMark, 0);
    SearchIdle(w);
  }

  /** A buffer that starts with a fence line, the fence followed by a tag
      such as `mermaid`, goes to collecting what follows that line. */
  lemma OpensFenceLine(w: string, tag: string, rest: string)
    requires '\n' !in tag && '`' !in tag
    requires w == FenceMark + tag + "\n" + rest
    ensures Advance(Search, w) == Advance(Collect, rest)
  {
    var nl := 3 + |tag|;
    assert w[..3] == FenceMark && w[nl] == '\n';
    assert forall j :: 3 <= j < nl ==> w[j] == tag[j - 3];
    OpensAtStart(w, nl);
    SearchOpens(w);
    assert w[nl + 1..] == rest;
  }

  /** Without the side condition the property fails: a closing fence split as
      "AB`" then "``" is released as diagram text, and collecting goes on
      past it, where the reply in one piece stops at that fence. */
  lemma StraddledCloserIsMissed()
    ensures var r1 := Feed(Search, "", "```\nAB`");
            var r2 := Feed(r1.mode, r1.pending, "``");
            var one := Feed(Search, "", "```\nAB```");
            Concat(r1.out + r2.out) == "AB```" && r2.mode == Collect
            && Concat(one.out) == "AB" && one.mode == Done
  {
    StraddledFirstDelivery();
    StraddledWholeDelivery();
    assert "" + "``" == "``";
    assert IndexOf("``", FenceMark, 0) == -1;
    CollectFlushes("``");
    ConcatSmall("AB`", "``");
    ConcatSmall("AB", "");
    assert ["AB`"] + ["``"] == ["AB`", "``"];
  }

  /** One pass of search mode, with the opener found at `idx`. */
  lemma SearchStep(p: string, idx: int)
    requires idx == OpenerIndex(p)
    ensures idx == -1 ==> Advance(Search, p) == Extracted(Search, p, [])
    ensures idx != -1 ==> 0 <= idx <= |p|
    ensures idx != -1 && IndexOf(p, "\n", idx) == -1 ==> Advance(Search, p) == Extracted(Search, p, [])
    ensures idx != -1 && IndexOf(p, "\n", idx) != -1 ==>
              Advance(Search, p) == Advance(Collect, p[IndexOf(p, "\n", idx) + 1..])
  {
  }

  /** The fence extractor as the source keeps it: a buffer and a mode that
      persist between calls. */
  class FenceExtractor {
    var pending: string
    var mode: Mode

    constructor ()
      ensures pending == "" && mode == Search
    {
      pending := "";
      mode := Search;
    }

    /** `processIncoming(text)` (route.js:121-161). */
    method Process(text: string) returns (out: seq<string>)
      modifies this
      ensures var r := Feed(old(mode), old(pending), text);
              mode == r.mode && pending == r.pending && out == r.out
      ensures Rank(mode) <= Rank(old(mode))
    {
      out := [];
      pending := pending + text;
      ghost var goal := Advance(mode, pending);
      ghost var start := mode;
      while true
        invariant Rank(mode) <= Rank(start)
        invariant Advance(mode, pending).mode == goal.mode
        invariant Advance(mode, pending).pending == goal.pending
        invariant out + Advance(mode, pending).out == goal.out
        decreases Rank(mode)
      {
        if mode == Search {
          var idxMer := IndexOf(pending, MermaidMark, 0);
          var idxFence := IndexOf(pending, FenceMark, 0);
          var idx := -1;
          if idxMer != -1 && (idxFence == -1 || idxMer <= idxFence) {
            idx := idxMer;
          } else if idxFence != -1 {
            idx := idxFence;
          }
          SearchStep(pending, idx);
          if idx == -1 {
            break;
          }
          var nlIdx := IndexOf(pending, "\n", idx);
          if nlIdx == -1 {
            break;
          }
          pending := pending[nlIdx + 1..];
          mode := Collect;
        } else if mode == Collect {
          var closeIdx := IndexOf(pending, FenceMark, 0);
          if closeIdx == -1 {
            CollectFlushes(pending);
            if |pending| > 0 {
              out := out + [pending];
              pending := "";
            }
            break;
          }
          CollectCloses(pending);
          out := out + [pending[..closeIdx]];
          pending := pending[closeIdx + 3..];
          mode := Done;
        } else {
          break;
        }
      }
    }
  }
}
