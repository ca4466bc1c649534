/** The syntax advisory of app/api/generate-mermaid/route.js
    (`validateMermaidSyntax`): a linter over the assembled diagram text that
    reports unbalanced brackets and lines that seem to define several nodes
    without an edge between them. Warnings are values here; `Render` gives
    the text the source logs for each. */
module Advisory {
  import opened Strings

  datatype Bracket = Square | Curly | Round

  function Open(k: Bracket): char
  {
    match k
    case Square => '['
    case Curly => '{'
    case Round => '('
  }

  function Close(k: Bracket): char
  {
    match k
    case Square => ']'
    case Curly => '}'
    case Round => ')'
  }

  datatype Warning =
    | MultiNode(line: nat)                  // 1-based line number
    | Imbalance(kind: Bracket, net: int)    // opened minus closed, never 0

  /** A line that takes part in the checks: non-blank once trimmed and not a
      `%%` comment (route.js:230-231). */
  predicate Counted(line: string)
  {
    var t := Trim(line);
    t != "" && !StartsWith(t, "%%")
  }

  /** Net count of one bracket kind over `s`: openings minus closings. */
  function Net(s: string, k: Bracket): int
  {
    if s == [] then 0
    else
      var c := s[|s| - 1];
      Net(s[..|s| - 1], k) + (if c == Open(k) then 1 else if c == Close(k) then -1 else 0)
  }

  /** The number of matches of `/\w+\[/g` in `s`. A match ends at a `[`
      right after a word character, and every such `[` ends exactly one
      match: `\w+` is greedy and matches cannot overlap, so each run of word
      characters followed by `[` is matched once, from its first character. */
  function NodeOpeners(s: string): nat
  {
    if |s| < 2 then 0
    else NodeOpeners(s[..|s| - 1]) + (if s[|s| - 1] == '[' && IsWordChar(s[|s| - 2]) then 1 else 0)
  }

  /** A trimmed line with two or more node openers and none of the edge
      arrows `-->`, `-.->`, `==>` (route.js:244-250). */
  predicate MultiNodeLine(t: string)
  {
    NodeOpeners(t) > 1 && !Contains(t, "-->") && !Contains(t, "-.->") && !Contains(t, "==>")
  }

  /** Net count of one bracket kind over the counted lines. */
  function LinesNet(lines: seq<string>, k: Bracket): int
  {
    if lines == [] then 0
    else
      var last := lines[|lines| - 1];
      LinesNet(lines[..|lines| - 1], k) + (if Counted(last) then Net(Trim(last), k) else 0)
  }

  /** The multi-node warnings of `lines`, in line order. */
  function LineWarnings(lines: seq<string>): seq<Warning>
  {
    if lines == [] then []
    else
      var last := lines[|lines| - 1];
      LineWarnings(lines[..|lines| - 1])
      + (if Counted(last) && MultiNodeLine(Trim(last)) then [MultiNode(|lines|)] else [])
  }

  /** The imbalance warnings for the three net counts, square first. */
  function Imbalances(square: int, curly: int, round: int): seq<Warning>
  {
    (if square != 0 then [Imbalance(Square, square)] else [])
    + (if curly != 0 then [Imbalance(Curly, curly)] else [])
    + (if round != 0 then [Imbalance(Round, round)] else [])
  }

  /** Everything the advisory reports for `code`, in the order reported. */
  function Advise(code: string): seq<Warning>
  {
    var lines := Split(code, '\n');
    LineWarnings(lines)
    + Imbalances(LinesNet(lines, Square), LinesNet(lines, Curly), LinesNet(lines, Round))
  }

  /** `validateMermaidSyntax(code)` (route.js:220-265). */
  method ValidateMermaidSyntax(code: string) returns (warnings: seq<Warning>)
    ensures warnings == Advise(code)
  {
    warnings := [];
    var lines := Split(code, '\n');
    var squareBrackets, curlyBrackets, parentheses := 0, 0, 0;
    for i := 0 to |lines|
      invariant squareBrackets == LinesNet(lines[..i], Square)
      invariant curlyBrackets == LinesNet(lines[..i], Curly)
      invariant parentheses == LinesNet(lines[..i], Round)
      invariant warnings == LineWarnings(lines[..i])
    {
      NextLine(lines, i);
      var line := Trim(lines[i]);
      if line == [] || StartsWith(line, "%%") {
        continue;
      }
      var square, curly, round := CountBrackets(line);
      squareBrackets, curlyBrackets, parentheses := squareBrackets + square, curlyBrackets + curly, parentheses + round;
      var nodeMatches := NodeOpeners(line);
      if nodeMatches > 1 {
        if !Contains(line, "-->") && !Contains(line, "-.->") && !Contains(line, "==>") {
          warnings := warnings + [MultiNode(i + 1)];
        }
      }
    }
    assert lines[..|lines|] == lines;
    warnings := AppendImbalances(warnings, squareBrackets, curlyBrackets, parentheses);
  }

  /** The bracket tally of one line (route.js:234-241): the net count of
      each kind over its characters. */
  method CountBrackets(line: string) returns (square: int, curly: int, round: int)
    ensures square == Net(line, Square) && curly == Net(line, Curly) && round == Net(line, Round)
  {
    square, curly, round := 0, 0, 0;
    for j := 0 to |line|
      invariant square == Net(line[..j], Square)
      invariant curly == Net(line[..j], Curly)
      invariant round == Net(line[..j], Round)
    {
      NetStep(line, j);
      var ch := line[j];
      if ch == '[' {
        square := square + 1;
      } else if ch == ']' {
        square := square - 1;
      } else if ch == '{' {
        curly := curly + 1;
      } else if ch == '}' {
        curly := curly - 1;
      } else if ch == '(' {
        round := round + 1;
      } else if ch == ')' {
        round := round - 1;
      }
    }
    assert line[..|line|] == line;
  }

  /** The closing part of the advisory (route.js:254-262): one warning per
      bracket kind whose net count is non-zero, square first. */
  method AppendImbalances(perLine: seq<Warning>, square: int, curly: int, round: int)
    returns (warnings: seq<Warning>)
    ensures warnings == perLine + Imbalances(square, curly, round)
  {
    warnings := perLine;
    if square != 0 {
      warnings := warnings + [Imbalance(Square, square)];
    }
    if curly != 0 {
      warnings := warnings + [Imbalance(Curly, curly)];
    }
    if round != 0 {
      warnings := warnings + [Imbalance(Round, round)];
    }
  }

  /** One more character of a line, for each bracket kind. */
  lemma NetStep(s: string, j: nat)
    requires j < |s|
    ensures forall k :: Net(s[..j + 1], k) == Net(s[..j], k)
              + (if s[j] == Open(k) then 1 else if s[j] == Close(k) then -1 else 0)
  {
    assert s[..j + 1][..j] == s[..j];
  }

  /** One more line of the input, for the counts and the line warnings. */
  lemma NextLine(lines: seq<string>, i: nat)
    requires i < |lines|
    ensures forall k :: LinesNet(lines[..i + 1], k) == LinesNet(lines[..i], k)
              + (if Counted(lines[i]) then Net(Trim(lines[i]), k) else 0)
    ensures LineWarnings(lines[..i + 1]) == LineWarnings(lines[..i])
              + (if Counted(lines[i]) && MultiNodeLine(Trim(lines[i])) then [MultiNode(i + 1)] else [])
  {
    assert lines[..i + 1][..i] == lines[..i];
  }

  /** The net count of `kind` that the advisory tallies for `code`. */
  function CodeNet(code: string, k: Bracket): int
  {
    LinesNet(Split(code, '\n'), k)
  }

  /** An imbalance of a bracket kind is reported exactly when that kind's net
      count over the counted lines is non-zero, and then with that count. */
  lemma ImbalanceReported(code: string, k: Bracket)
    ensures Imbalance(k, CodeNet(code, k)) in Advise(code) <==> CodeNet(code, k) != 0
    ensures forall w :: w in Advise(code) && w.Imbalance? && w.kind == k ==> w.net == CodeNet(code, k)
  {
    var lines := Split(code, '\n');
    LineWarningsAreMultiNode(lines);
    var sq, cu, ro := LinesNet(lines, Square), LinesNet(lines, Curly), LinesNet(lines, Round);
    var imb := Imbalances(sq, cu, ro);
    ImbalancesExact(sq, cu, ro);
    assert Advise(code) == LineWarnings(lines) + imb;
    assert forall w :: w in Advise(code) <==> w in LineWarnings(lines) || w in imb;
  }

  /** Each imbalance warning carries its own kind's count, and is present
      exactly when that count is non-zero. */
  lemma ImbalancesExact(sq: int, cu: int, ro: int)
    ensures forall w :: w in Imbalances(sq, cu, ro) ==> w.Imbalance?
    ensures forall w :: w in Imbalances(sq, cu, ro) ==>
              w.net == (match w.kind case Square => sq case Curly => cu case Round => ro)
    ensures Imbalance(Square, sq) in Imbalances(sq, cu, ro) <==> sq != 0
    ensures Imbalance(Curly, cu) in Imbalances(sq, cu, ro) <==> cu != 0
    ensures Imbalance(Round, ro) in Imbalances(sq, cu, ro) <==> ro != 0
    ensures |Imbalances(sq, cu, ro)| <= 3
  {
  }

  /** Every warning raised per line is a multi-node warning, for a line of
      the input that is counted and flagged, and every such line raises one. */
  lemma LineWarningsAreMultiNode(lines: seq<string>)
    ensures forall w :: w in LineWarnings(lines) ==> w.MultiNode?
    ensures forall n: nat :: MultiNode(n) in LineWarnings(lines) <==>
              1 <= n <= |lines| && Counted(lines[n - 1]) && MultiNodeLine(Trim(lines[n - 1]))
  {
    LineWarningsKind(lines);
    forall n: nat
      ensures MultiNode(n) in LineWarnings(lines) <==>
              1 <= n <= |lines| && Counted(lines[n - 1]) && MultiNodeLine(Trim(lines[n - 1]))
    {
      MultiNodeAt(lines, n);
    }
  }

  /** Every warning raised per line is a multi-node warning. */
  lemma {:induction false} LineWarningsKind(lines: seq<string>)
    ensures forall w :: w in LineWarnings(lines) ==> w.MultiNode?
  {
    if lines != [] {
      LineWarningsKind(lines[..|lines| - 1]);
    }
  }

  /** Line `n` raises a multi-node warning exactly when it is counted and flagged. */
  lemma {:induction false} MultiNodeAt(lines: seq<string>, n: nat)
    ensures MultiNode(n) in LineWarnings(lines) <==>
              1 <= n <= |lines| && Counted(lines[n - 1]) && MultiNodeLine(Trim(lines[n - 1]))
  {
    if lines != [] {
      var init, last := lines[..|lines| - 1], lines[|lines| - 1];
      MultiNodeAt(init, n);
      var flagged := Counted(last) && MultiNodeLine(Trim(last));
      var tail := if flagged then [MultiNode(|lines|)] else [];
      assert LineWarnings(lines) == LineWarnings(init) + tail;
      if n == |lines| {
        assert lines[n - 1] == last;
      } else if 1 <= n <= |init| {
        assert lines[n - 1] == init[n - 1];
        assert MultiNode(n) !in tail;
      }
    }
  }

  /** Warnings come per line first, then at most three imbalance warnings,
      one per bracket kind, in the order square, curly, round. */
  lemma AdviseShape(code: string)
    ensures var lines := Split(code, '\n');
            var imb := Advise(code)[|LineWarnings(lines)|..];
            Advise(code)[..|LineWarnings(lines)|] == LineWarnings(lines)
            && |imb| <= 3 && (forall w :: w in imb ==> w.Imbalance?)
  {
    var lines := Split(code, '\n');
    LineWarningsAreMultiNode(lines);
  }

  /** A line with several node definitions and no edge arrow is reported,
      with its 1-based line number, and only such lines are. */
  lemma MultiNodeReported(code: string, n: nat)
    ensures var lines := Split(code, '\n');
            MultiNode(n) in Advise(code) <==>
              1 <= n <= |lines| && Counted(lines[n - 1]) && MultiNodeLine(Trim(lines[n - 1]))
  {
    var lines := Split(code, '\n');
    LineWarningsAreMultiNode(lines);
    var imb := Imbalances(LinesNet(lines, Square), LinesNet(lines, Curly), LinesNet(lines, Round));
    assert MultiNode(n) !in imb;
  }

  function Label(k: Bracket): string
  {
    match k
    case Square => "方括号不配对："
    case Curly => "花括号不配对："
    case Round => "圆括号不配对："
  }

  /** The text the source logs for a warning. */
  function Render(w: Warning): string
  {
    match w
    case MultiNode(n) => "Line " + NatToString(n) + ": 检测到可能的多节点连写"
    case Imbalance(k, net) =>
      var count := if net > 0 then net else -net;
      Label(k) + (if net > 0 then "缺少" else "多余") + NatToString(count) + "个" + [Close(k)]
  }

  /** `A[x` opens one square bracket and never closes it: the advisory
      reports exactly that, as "missing one `]`". */
  lemma UnclosedSquareExample()
    ensures Advise("A[x") == [Imbalance(Square, 1)]
    ensures Render(Imbalance(Square, 1)) == "方括号不配对：缺少1个]"
  {
    var s := "A[x";
    ExampleLine(s);
    OneLineAdvise(s);
    assert !MultiNodeLine(s);
    assert Imbalances(1, 0, 0) == [Imbalance(Square, 1)];
    MissingOneRendered();
  }

  lemma MissingOneRendered()
    ensures Render(Imbalance(Square, 1)) == "方括号不配对：缺少1个]"
  {
    assert NatToString(1) == "1";
  }

  /** The counts of the example line `A[x`. */
  lemma ExampleLine(s: string)
    requires s == "A[x"
    ensures '\n' !in s && Counted(s) && Trim(s) == s
    ensures Net(s, Square) == 1 && Net(s, Curly) == 0 && Net(s, Round) == 0
    ensures NodeOpeners(s) == 1
  {
    assert s[0] == 'A' && s[|s| - 1] == 'x';
    TrimUnchanged(s);
    var s2 := s[..2];
    assert s2 == "A[";
    var s1 := s2[..1];
    assert s1 == "A";
    assert s1[..0] == "";
    assert Net(s1, Square) == 0 && Net(s1, Curly) == 0 && Net(s1, Round) == 0;
    assert Net(s2, Square) == 1 && Net(s2, Curly) == 0 && Net(s2, Round) == 0;
    assert NodeOpeners(s2) == NodeOpeners(s1) + 1;
  }

  /** The advisory of a single counted line, left as it is by trimming. */
  lemma OneLineAdvise(s: string)
    requires '\n' !in s && Counted(s) && Trim(s) == s
    ensures Advise(s) == (if MultiNodeLine(s) then [MultiNode(1)] else [])
                         + Imbalances(Net(s, Square), Net(s, Curly), Net(s, Round))
  {
    SplitWithout(s, '\n');
    OneLine(s);
  }

  /** The warnings and counts of a single line. */
  lemma OneLine(s: string)
    ensures LineWarnings([s]) == if Counted(s) && MultiNodeLine(Trim(s)) then [MultiNode(1)] else []
    ensures forall k :: LinesNet([s], k) == if Counted(s) then Net(Trim(s), k) else 0
  {
    assert [s][..0] == [];
  }
}
