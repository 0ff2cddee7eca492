/** Greedy word wrap (sketch.js, `drawWrappedText` and its line-counting twin
    in `draw`). The text is split on single spaces; words are added to the
    current line, each followed by one space, and the line is committed as soon
    as the next word would make it wider than the limit — except for the very
    first word, which always stays on the first line.

    Font metrics are a parameter `width: string -> int` standing for p5's
    `textWidth`. The wrap is specified by a functional reference, `Greedy`,
    that groups the words into lines; `IsGreedyLayout` characterises it without
    reference to any algorithm, and the two loops of the source are proved to
    compute it. */
module Wrap {
  import opened Strings

  const Space: char := ' '
  const LineHeight: int := 20

  /** How a group of words is written on a line: each word followed by a space. */
  function Render(group: seq<string>): string
    decreases |group|
  {
    if |group| == 0 then "" else Render(group[..|group| - 1]) + group[|group| - 1] + [Space]
  }

  /** The lines of a sequence of groups, one per group. */
  function RenderAll(groups: seq<seq<string>>): seq<string>
    decreases |groups|
  {
    if |groups| == 0 then [] else [Render(groups[0])] + RenderAll(groups[1..])
  }

  /** The words of all groups, in order. */
  function Flatten(groups: seq<seq<string>>): seq<string>
    decreases |groups|
  {
    if |groups| == 0 then [] else groups[0] + Flatten(groups[1..])
  }

  /** The greedy decision, continued from a current line `cur` with the words
      `rest` still to place. */
  function GreedyFrom(width: string -> int, maxWidth: int, cur: seq<string>, rest: seq<string>)
    : seq<seq<string>>
    decreases |rest|
  {
    if |rest| == 0 then [cur]
    else if width(Render(cur) + rest[0] + [Space]) > maxWidth then
      [cur] + GreedyFrom(width, maxWidth, [rest[0]], rest[1..])
    else
      GreedyFrom(width, maxWidth, cur + [rest[0]], rest[1..])
  }

  /** The lines the source produces for a non-empty list of words, as groups. */
  function Greedy(width: string -> int, maxWidth: int, words: seq<string>): seq<seq<string>>
    requires |words| >= 1
  {
    GreedyFrom(width, maxWidth, [words[0]], words[1..])
  }

  /** The wrapped lines of `text`, as `drawWrappedText` writes them. */
  function WrapText(width: string -> int, maxWidth: int, text: string): seq<string> {
    RenderAll(Greedy(width, maxWidth, Split(text, Space)))
  }

  // ---------------------------------------------------------------------
  // An algorithm-free description of the greedy layout
  // ---------------------------------------------------------------------

  /** The line `group` had just after its word at position `j` was added. */
  function LineThrough(group: seq<string>, j: nat): string
    requires j < |group|
  {
    Render(group[..j + 1])
  }

  /** Every word of `group` from position `from` on fitted when it was added. */
  ghost predicate FitsFrom(width: string -> int, maxWidth: int, group: seq<string>, from: nat) {
    forall j :: from <= j < |group| ==> width(LineThrough(group, j)) <= maxWidth
  }

  /** Group `k` is a proper later line: it is non-empty, every word after its
      first fitted when added, and its first word did not fit after group
      `k - 1`. */
  ghost predicate GreedyBreak(width: string -> int, maxWidth: int, groups: seq<seq<string>>, k: nat)
    requires 1 <= k < |groups|
  {
    && |groups[k]| >= 1
    && FitsFrom(width, maxWidth, groups[k], 1)
    && width(Render(groups[k - 1]) + groups[k][0] + [Space]) > maxWidth
  }

  /** Every line after the first is a proper later line. */
  ghost predicate LaterGroupsGreedy(width: string -> int, maxWidth: int, groups: seq<seq<string>>) {
    forall k :: 1 <= k < |groups| ==> GreedyBreak(width, maxWidth, groups, k)
  }

  /** `groups` is a greedy layout of `words`: the words in order, split into
      non-empty lines, where every word after the first of its line fitted
      when added and every line after the first starts with a word that did
      not fit on the line before. */
  ghost predicate IsGreedyLayout(width: string -> int, maxWidth: int, words: seq<string>, groups: seq<seq<string>>) {
    && |groups| >= 1
    && Flatten(groups) == words
    && |groups[0]| >= 1
    && FitsFrom(width, maxWidth, groups[0], 1)
    && LaterGroupsGreedy(width, maxWidth, groups)
  }

  /** The same description for the continuation from a current line `cur`. */
  ghost predicate GreedyAfter(width: string -> int, maxWidth: int, cur: seq<string>, groups: seq<seq<string>>) {
    && |cur| >= 1
    && |groups| >= 1
    && |groups[0]| >= |cur| && groups[0][..|cur|] == cur
    && FitsFrom(width, maxWidth, groups[0], |cur|)
    && LaterGroupsGreedy(width, maxWidth, groups)
  }

  // ---------------------------------------------------------------------
  // Lemmas
  // ---------------------------------------------------------------------

  lemma RenderSnoc(group: seq<string>, w: string)
    ensures Render(group + [w]) == Render(group) + w + [Space]
  {
    assert (group + [w])[..|group|] == group;
  }

  lemma {:induction false} RenderAppend(a: seq<string>, b: seq<string>)
    ensures Render(a + b) == Render(a) + Render(b)
    decreases |b|
  {
    if |b| == 0 {
      assert a + b == a;
    } else {
      var b', x := b[..|b| - 1], b[|b| - 1];
      assert a + b == (a + b') + [x];
      RenderSnoc(a + b', x);
      RenderAppend(a, b');
      assert Render(b) == Render(b') + x + [Space];
      assert Render(a) + Render(b') + x + [Space] == Render(a) + (Render(b') + x + [Space]);
    }
  }

  lemma FlattenCons(g: seq<string>, groups: seq<seq<string>>)
    ensures Flatten([g] + groups) == g + Flatten(groups)
  {
    assert ([g] + groups)[1..] == groups;
  }

  /** Flattening never has fewer words than there are non-empty groups. */
  lemma {:induction false} LengthFlatten(groups: seq<seq<string>>)
    requires forall k :: 0 <= k < |groups| ==> |groups[k]| >= 1
    ensures |Flatten(groups)| >= |groups|
    decreases |groups|
  {
    if |groups| > 0 {
      LengthFlatten(groups[1..]);
    }
  }

  /** There is one rendered line per group, and line `k` renders group `k`. */
  lemma {:induction false} RenderAllIndex(groups: seq<seq<string>>)
    ensures |RenderAll(groups)| == |groups|
    ensures forall k :: 0 <= k < |groups| ==> RenderAll(groups)[k] == Render(groups[k])
    decreases |groups|
  {
    if |groups| > 0 {
      RenderAllIndex(groups[1..]);
      assert forall k :: 1 <= k < |groups| ==> groups[1..][k - 1] == groups[k];
    }
  }

  lemma {:induction false} RenderAllSnoc(groups: seq<seq<string>>, g: seq<string>)
    ensures RenderAll(groups + [g]) == RenderAll(groups) + [Render(g)]
    decreases |groups|
  {
    if |groups| == 0 {
      assert groups + [g] == [g];
    } else {
      RenderAllSnoc(groups[1..], g);
      assert (groups + [g])[1..] == groups[1..] + [g];
    }
  }

  /** The rendered lines, written one after the other, are the rendering of
      all the words. */
  lemma {:induction false} ConcatRenderAll(groups: seq<seq<string>>)
    ensures Concat(RenderAll(groups)) == Render(Flatten(groups))
    decreases |groups|
  {
    if |groups| > 0 {
      ConcatRenderAll(groups[1..]);
      ConcatAppend([Render(groups[0])], RenderAll(groups[1..]));
      assert Concat([Render(groups[0])]) == Render(groups[0]) by {
        assert [Render(groups[0])][..0] == [];
      }
      RenderAppend(groups[0], Flatten(groups[1..]));
    }
  }

  /** Rendering the words of a split gives the text back with one trailing space. */
  lemma {:induction false} RenderJoin(words: seq<string>)
    requires |words| >= 1
    ensures Render(words) == Join(words, Space) + [Space]
    decreases |words|
  {
    if |words| == 1 {
      assert words == [] + [words[0]];
      RenderSnoc([], words[0]);
    } else {
      RenderJoin(words[1..]);
      RenderAppend([words[0]], words[1..]);
      assert words == [words[0]] + words[1..];
      assert Render([words[0]]) == words[0] + [Space] by {
        RenderSnoc([], words[0]);
        assert [] + [words[0]] == [words[0]];
      }
    }
  }

  /** The greedy continuation loses no word and changes no order. */
  lemma {:induction false} GreedyFromFlatten(width: string -> int, maxWidth: int, cur: seq<string>, rest: seq<string>)
    ensures Flatten(GreedyFrom(width, maxWidth, cur, rest)) == cur + rest
    decreases |rest|
  {
    if |rest| == 0 {
      assert Flatten([cur]) == cur + Flatten([]) by { FlattenCons(cur, []); }
    } else if width(Render(cur) + rest[0] + [Space]) > maxWidth {
      GreedyFromFlatten(width, maxWidth, [rest[0]], rest[1..]);
      FlattenCons(cur, GreedyFrom(width, maxWidth, [rest[0]], rest[1..]));
      assert [rest[0]] + rest[1..] == rest;
    } else {
      GreedyFromFlatten(width, maxWidth, cur + [rest[0]], rest[1..]);
      assert cur + [rest[0]] + rest[1..] == cur + rest;
    }
  }

  /** A line put in front of a layout moves each later line one place down. */
  lemma ShiftBreak(width: string -> int, maxWidth: int, cur: seq<string>, next: seq<seq<string>>, k: nat)
    requires 2 <= k < |next| + 1
    requires GreedyBreak(width, maxWidth, next, k - 1)
    ensures GreedyBreak(width, maxWidth, [cur] + next, k)
  {
    var g := [cur] + next;
    assert g[k] == next[k - 1];
    assert g[k - 1] == next[k - 2];
  }

  /** Every later line of `next` stays a proper later line one place down. */
  lemma ShiftBreaks(width: string -> int, maxWidth: int, cur: seq<string>, next: seq<seq<string>>)
    requires LaterGroupsGreedy(width, maxWidth, next)
    ensures forall k :: 2 <= k < |next| + 1 ==> GreedyBreak(width, maxWidth, [cur] + next, k)
  {
    forall k | 2 <= k < |next| + 1
      ensures GreedyBreak(width, maxWidth, [cur] + next, k)
    {
      ShiftBreak(width, maxWidth, cur, next, k);
    }
  }

  /** A word that does not fit after `cur` opens a proper second line. */
  lemma FirstBreak(width: string -> int, maxWidth: int, cur: seq<string>, w: string, next: seq<seq<string>>)
    requires GreedyAfter(width, maxWidth, [w], next)
    requires width(Render(cur) + w + [Space]) > maxWidth
    ensures GreedyBreak(width, maxWidth, [cur] + next, 1)
  {
    var g := [cur] + next;
    assert g[0] == cur && g[1] == next[0];
    assert next[0][0] == w;
  }

  /** A forced break in front of a greedy continuation keeps the greedy shape. */
  lemma BreakKeepsShape(width: string -> int, maxWidth: int, cur: seq<string>, w: string, next: seq<seq<string>>)
    requires |cur| >= 1
    requires GreedyAfter(width, maxWidth, [w], next)
    requires width(Render(cur) + w + [Space]) > maxWidth
    ensures GreedyAfter(width, maxWidth, cur, [cur] + next)
  {
    var g := [cur] + next;
    FirstBreak(width, maxWidth, cur, w, next);
    ShiftBreaks(width, maxWidth, cur, next);
    LaterFromParts(width, maxWidth, g);
    CompleteLine(width, maxWidth, g);
  }

  /** A layout whose first group is complete and whose later groups are
      greedy continues greedily from that first group. */
  lemma CompleteLine(width: string -> int, maxWidth: int, g: seq<seq<string>>)
    requires |g| >= 1 && |g[0]| >= 1
    requires LaterGroupsGreedy(width, maxWidth, g)
    ensures GreedyAfter(width, maxWidth, g[0], g)
  {
    assert g[0][..|g[0]|] == g[0];
  }

  lemma LaterFromParts(width: string -> int, maxWidth: int, g: seq<seq<string>>)
    requires |g| >= 2
    requires GreedyBreak(width, maxWidth, g, 1)
    requires forall k :: 2 <= k < |g| ==> GreedyBreak(width, maxWidth, g, k)
    ensures LaterGroupsGreedy(width, maxWidth, g)
  {
  }

  /** A word that fitted, put in front of a greedy continuation, keeps the
      greedy shape. */
  lemma FitKeepsShape(width: string -> int, maxWidth: int, cur: seq<string>, w: string, g: seq<seq<string>>)
    requires |cur| >= 1
    requires GreedyAfter(width, maxWidth, cur + [w], g)
    requires width(Render(cur) + w + [Space]) <= maxWidth
    ensures GreedyAfter(width, maxWidth, cur, g)
  {
    var g0 := g[0];
    var n := |cur|;
    assert g0[..n + 1] == cur + [w];
    assert g0[..n] == cur by {
      assert g0[..n] == g0[..n + 1][..n];
    }
    LineThroughFits(width, maxWidth, cur, w, g0);
    FitsFromExtend(width, maxWidth, g0, n);
  }

  lemma LineThroughFits(width: string -> int, maxWidth: int, cur: seq<string>, w: string, g0: seq<string>)
    requires |g0| >= |cur| + 1 && g0[..|cur| + 1] == cur + [w]
    requires width(Render(cur) + w + [Space]) <= maxWidth
    ensures width(LineThrough(g0, |cur|)) <= maxWidth
  {
    RenderSnoc(cur, w);
  }

  lemma FitsFromExtend(width: string -> int, maxWidth: int, g0: seq<string>, n: nat)
    requires n < |g0|
    requires FitsFrom(width, maxWidth, g0, n + 1)
    requires width(LineThrough(g0, n)) <= maxWidth
    ensures FitsFrom(width, maxWidth, g0, n)
  {
  }

  /** The greedy continuation has the greedy shape. */
  lemma {:induction false} GreedyFromShape(width: string -> int, maxWidth: int, cur: seq<string>, rest: seq<string>)
    requires |cur| >= 1
    ensures GreedyAfter(width, maxWidth, cur, GreedyFrom(width, maxWidth, cur, rest))
    decreases |rest|
  {
    if |rest| == 0 {
    } else if width(Render(cur) + rest[0] + [Space]) > maxWidth {
      GreedyFromShape(width, maxWidth, [rest[0]], rest[1..]);
      BreakKeepsShape(width, maxWidth, cur, rest[0], GreedyFrom(width, maxWidth, [rest[0]], rest[1..]));
    } else {
      GreedyFromShape(width, maxWidth, cur + [rest[0]], rest[1..]);
      FitKeepsShape(width, maxWidth, cur, rest[0], GreedyFrom(width, maxWidth, cur + [rest[0]], rest[1..]));
    }
  }

  /** Dropping the first line of a greedy layout leaves a greedy continuation
      from the first word of the second line. */
  lemma DropFirstLine(width: string -> int, maxWidth: int, groups: seq<seq<string>>)
    requires |groups| >= 2
    requires LaterGroupsGreedy(width, maxWidth, groups)
    ensures |groups[1]| >= 1
    ensures GreedyAfter(width, maxWidth, [groups[1][0]], groups[1..])
  {
    var more := groups[1..];
    assert GreedyBreak(width, maxWidth, groups, 1);
    forall k | 1 <= k < |more|
      ensures GreedyBreak(width, maxWidth, more, k)
    {
      assert more[k] == groups[k + 1];
      assert more[k - 1] == groups[k];
      assert GreedyBreak(width, maxWidth, groups, k + 1);
    }
  }

  /** In a layout with the greedy shape covering `cur + rest`, a first line
      that holds exactly `cur` is followed by a line opening with the next word. */
  lemma LineEndsAtCur(width: string -> int, maxWidth: int, cur: seq<string>, rest: seq<string>,
                      groups: seq<seq<string>>)
    requires GreedyAfter(width, maxWidth, cur, groups)
    requires Flatten(groups) == cur + rest
    requires |rest| >= 1 && |groups[0]| == |cur|
    ensures groups[0] == cur && |groups| >= 2 && |groups[1]| >= 1 && groups[1][0] == rest[0]
    ensures Flatten(groups[1..]) == rest
    ensures width(Render(cur) + rest[0] + [Space]) > maxWidth
  {
    var g0, more := groups[0], groups[1..];
    assert groups == [g0] + more;
    FlattenCons(g0, more);
    assert g0 == cur;
    assert (cur + rest)[|cur|..] == rest;
    assert Flatten(more) == rest;
    assert |more| >= 1;
    assert GreedyBreak(width, maxWidth, groups, 1);
    FlattenCons(more[0], more[1..]);
    assert more == [more[0]] + more[1..];
    assert more[0][0] == rest[0];
  }

  /** In a layout with the greedy shape covering `cur + rest`, a first line
      longer than `cur` continues with the next word, which fitted. */
  lemma LineGoesOn(width: string -> int, maxWidth: int, cur: seq<string>, rest: seq<string>,
                   groups: seq<seq<string>>)
    requires GreedyAfter(width, maxWidth, cur, groups)
    requires Flatten(groups) == cur + rest
    requires |rest| >= 1 && |groups[0]| > |cur|
    ensures groups[0][..|cur| + 1] == cur + [rest[0]]
    ensures width(Render(cur) + rest[0] + [Space]) <= maxWidth
  {
    var g0, more := groups[0], groups[1..];
    assert groups == [g0] + more;
    FlattenCons(g0, more);
    assert g0 == (cur + rest)[..|g0|];
    assert g0[..|cur|] == cur;
    assert g0[|cur|] == rest[0];
    assert g0[..|cur| + 1] == cur + [rest[0]];
    assert width(LineThrough(g0, |cur|)) <= maxWidth;
    RenderSnoc(cur, rest[0]);
  }

  /** Every layout with the greedy shape that covers `cur + rest` is the
      greedy continuation. */
  lemma {:induction false} GreedyFromUnique(width: string -> int, maxWidth: int, cur: seq<string>, rest: seq<string>,
                                            groups: seq<seq<string>>)
    requires GreedyAfter(width, maxWidth, cur, groups)
    requires Flatten(groups) == cur + rest
    ensures groups == GreedyFrom(width, maxWidth, cur, rest)
    decreases |rest|
  {
    var g0, more := groups[0], groups[1..];
    assert groups == [g0] + more;
    FlattenCons(g0, more);
    assert g0 == (cur + rest)[..|g0|];
    if |rest| == 0 {
      assert g0 == cur;
      forall k | 0 <= k < |more| ensures |more[k]| >= 1 {
        assert GreedyBreak(width, maxWidth, groups, k + 1);
      }
      LengthFlatten(more);
      assert groups == [cur];
    } else {
      var w := rest[0];
      if |g0| == |cur| {
        LineEndsAtCur(width, maxWidth, cur, rest, groups);
        DropFirstLine(width, maxWidth, groups);
        assert Flatten(more) == [w] + rest[1..];
        GreedyFromUnique(width, maxWidth, [w], rest[1..], more);
      } else {
        LineGoesOn(width, maxWidth, cur, rest, groups);
        var cur' := cur + [w];
        assert g0[..|cur'|] == cur';
        assert cur' + rest[1..] == cur + rest;
        GreedyFromUnique(width, maxWidth, cur', rest[1..], groups);
      }
    }
  }

  /** `Greedy` is the one and only greedy layout of the words. */
  lemma GreedyCharacterised(width: string -> int, maxWidth: int, words: seq<string>, groups: seq<seq<string>>)
    requires |words| >= 1
    ensures IsGreedyLayout(width, maxWidth, words, groups) <==> groups == Greedy(width, maxWidth, words)
  {
    var cur := [words[0]];
    assert cur + words[1..] == words;
    if groups == Greedy(width, maxWidth, words) {
      GreedyFromShape(width, maxWidth, cur, words[1..]);
      GreedyFromFlatten(width, maxWidth, cur, words[1..]);
    }
    if IsGreedyLayout(width, maxWidth, words, groups) {
      FlattenCons(groups[0], groups[1..]);
      assert groups == [groups[0]] + groups[1..];
      assert groups[0][0] == words[0];
      GreedyFromUnique(width, maxWidth, cur, words[1..], groups);
    }
  }

  /** The groups of `Greedy` as the algorithm-free description gives them. */
  lemma GreedyShape(width: string -> int, maxWidth: int, words: seq<string>)
    requires |words| >= 1
    ensures IsGreedyLayout(width, maxWidth, words, Greedy(width, maxWidth, words))
  {
    GreedyCharacterised(width, maxWidth, words, Greedy(width, maxWidth, words));
  }

  /** A line that holds exactly one word: its only space is the trailing one. */
  predicate IsSingleWord(line: string) {
    |line| >= 1 && line[|line| - 1] == Space && Space !in line[..|line| - 1]
  }

  /** A line of a greedy layout of space-free words fits, or holds one word. */
  lemma GroupLineFits(width: string -> int, maxWidth: int, words: seq<string>, groups: seq<seq<string>>, k: nat)
    requires IsGreedyLayout(width, maxWidth, words, groups)
    requires forall i :: 0 <= i < |words| ==> Space !in words[i]
    requires k < |groups|
    ensures width(Render(groups[k])) <= maxWidth || IsSingleWord(Render(groups[k]))
  {
    var g := groups[k];
    if k > 0 {
      assert GreedyBreak(width, maxWidth, groups, k);
    }
    if |g| >= 2 {
      assert g[..|g| - 1 + 1] == g;
      assert width(LineThrough(g, |g| - 1)) <= maxWidth;
    } else {
      assert g == [] + [g[0]];
      RenderSnoc([], g[0]);
      WordOfGroup(groups, k, 0, words);
      var line := Render(g);
      assert line[..|line| - 1] == g[0];
    }
  }

  /** No wrapped line is wider than the limit unless it holds a single word. */
  lemma WrapLinesFit(width: string -> int, maxWidth: int, text: string)
    ensures var lines := WrapText(width, maxWidth, text);
            forall k :: 0 <= k < |lines| ==> width(lines[k]) <= maxWidth || IsSingleWord(lines[k])
  {
    var words := Split(text, Space);
    var groups := Greedy(width, maxWidth, words);
    var lines := WrapText(width, maxWidth, text);
    GreedyShape(width, maxWidth, words);
    SplitPiecesLackSep(text, Space);
    RenderAllIndex(groups);
    forall k | 0 <= k < |lines|
      ensures width(lines[k]) <= maxWidth || IsSingleWord(lines[k])
    {
      GroupLineFits(width, maxWidth, words, groups, k);
    }
  }

  /** The first word of the text always opens the first line. */
  lemma WrapKeepsFirstWord(width: string -> int, maxWidth: int, text: string)
    ensures |WrapText(width, maxWidth, text)| >= 1
    ensures StartsWith(WrapText(width, maxWidth, text)[0], Split(text, Space)[0] + [Space])
  {
    var words := Split(text, Space);
    var groups := Greedy(width, maxWidth, words);
    GreedyShape(width, maxWidth, words);
    FlattenCons(groups[0], groups[1..]);
    assert groups == [groups[0]] + groups[1..];
    RenderAllIndex(groups);
    var g0 := groups[0];
    assert g0 == [words[0]] + g0[1..];
    RenderAppend([words[0]], g0[1..]);
    RenderSnoc([], words[0]);
    assert [] + [words[0]] == [words[0]];
  }

  /** The wrap loses nothing: its lines, written one after the other, are the
      text with one trailing space, and there is at least one line. */
  lemma WrapLosesNothing(width: string -> int, maxWidth: int, text: string)
    ensures |WrapText(width, maxWidth, text)| >= 1
    ensures Concat(WrapText(width, maxWidth, text)) == text + [Space]
  {
    var words := Split(text, Space);
    var groups := Greedy(width, maxWidth, words);
    GreedyShape(width, maxWidth, words);
    ConcatRenderAll(groups);
    RenderJoin(words);
    JoinSplit(text, Space);
  }

  /** A word of any group is one of the split's words, so it holds no space. */
  lemma {:induction false} WordOfGroup(groups: seq<seq<string>>, k: nat, j: nat, words: seq<string>)
    requires k < |groups| && j < |groups[k]|
    requires Flatten(groups) == words
    requires forall i :: 0 <= i < |words| ==> Space !in words[i]
    ensures Space !in groups[k][j]
    decreases k
  {
    FlattenCons(groups[0], groups[1..]);
    assert groups == [groups[0]] + groups[1..];
    if k == 0 {
      assert groups[0][j] == words[j];
    } else {
      var tail := Flatten(groups[1..]);
      assert tail == words[|groups[0]|..];
      WordOfGroup(groups[1..], k - 1, j, tail);
    }
  }

  // ---------------------------------------------------------------------
  // The two loops of the source
  // ---------------------------------------------------------------------

  /** The current line is committed when the next word does not fit. */
  lemma BreakStep(width: string -> int, maxWidth: int, cur: seq<string>, words: seq<string>, i: nat)
    requires i < |words|
    requires width(Render(cur) + words[i] + [Space]) > maxWidth
    ensures GreedyFrom(width, maxWidth, cur, words[i..])
         == [cur] + GreedyFrom(width, maxWidth, [words[i]], words[i + 1..])
  {
    assert words[i..][0] == words[i] && words[i..][1..] == words[i + 1..];
  }

  /** The next word joins the current line when it fits. */
  lemma FitStep(width: string -> int, maxWidth: int, cur: seq<string>, words: seq<string>, i: nat)
    requires i < |words|
    requires width(Render(cur) + words[i] + [Space]) <= maxWidth
    ensures GreedyFrom(width, maxWidth, cur, words[i..])
         == GreedyFrom(width, maxWidth, cur + [words[i]], words[i + 1..])
  {
    assert words[i..][0] == words[i] && words[i..][1..] == words[i + 1..];
  }

  lemma RenderSingle(w: string)
    ensures Render([w]) == w + [Space]
  {
    RenderSnoc([], w);
    assert [] + [w] == [w];
  }

  /** The greedy groups of a whole word list end with those of the last
      line once no words are left. */
  lemma GreedyDone(width: string -> int, maxWidth: int, cur: seq<string>, words: seq<string>)
    ensures GreedyFrom(width, maxWidth, cur, words[|words|..]) == [cur]
  {
  }

  /** One pass of the word loop, on groups: the decision the source takes
      for word `i` keeps the greedy groups of the whole text equal to the
      committed groups followed by the greedy continuation of the current
      line. */
  lemma WordStep(width: string -> int, maxWidth: int, words: seq<string>, i: nat,
                 done: seq<seq<string>>, cur: seq<string>)
    returns (done': seq<seq<string>>, cur': seq<string>)
    requires i < |words|
    requires i == 0 ==> cur == [] && done == []
    requires i > 0 ==> |cur| >= 1 && Greedy(width, maxWidth, words) == done + GreedyFrom(width, maxWidth, cur, words[i..])
    ensures |cur'| >= 1
    ensures Greedy(width, maxWidth, words) == done' + GreedyFrom(width, maxWidth, cur', words[i + 1..])
    ensures if width(Render(cur) + words[i] + [Space]) > maxWidth && i > 0
            then done' == done + [cur] && cur' == [words[i]]
            else done' == done && cur' == cur + [words[i]]
  {
    if width(Render(cur) + words[i] + [Space]) > maxWidth && i > 0 {
      BreakStep(width, maxWidth, cur, words, i);
      done', cur' := done + [cur], [words[i]];
    } else {
      if i > 0 {
        FitStep(width, maxWidth, cur, words, i);
      } else {
        assert cur + [words[i]] == [words[i]];
      }
      done', cur' := done, cur + [words[i]];
    }
  }

  /** `drawWrappedText(txt, x, y, maxWidth)`: writes the wrapped lines of
      `text` top to bottom from `y`, one every `LineHeight`, and returns the y
      just below the last one. */
  method DrawWrappedText(width: string -> int, text: string, y: int, maxWidth: int)
    returns (lines: seq<string>, yEnd: int)
    ensures lines == WrapText(width, maxWidth, text)
    ensures |lines| >= 1
    ensures yEnd == y + LineHeight * |lines|
  {
    lines, yEnd := DrawWords(width, Split(text, Space), y, maxWidth);
  }

  /** The word loop of `drawWrappedText`. */
  method DrawWords(width: string -> int, words: seq<string>, y: int, maxWidth: int)
    returns (lines: seq<string>, yEnd: int)
    requires |words| >= 1
    ensures lines == RenderAll(Greedy(width, maxWidth, words))
    ensures |lines| >= 1
    ensures yEnd == y + LineHeight * |lines|
  {
    var line := "";
    var yLine := y;
    lines := [];
    ghost var done: seq<seq<string>> := [];
    ghost var cur: seq<string> := [];
    var i := 0;
    while i < |words|
      invariant 0 <= i <= |words|
      invariant line == Render(cur)
      invariant lines == RenderAll(done)
      invariant yLine == y + LineHeight * |lines|
      invariant i == 0 ==> cur == [] && done == []
      invariant i > 0 ==>
        |cur| >= 1 &&
        Greedy(width, maxWidth, words) == done + GreedyFrom(width, maxWidth, cur, words[i..])
    {
      var testLine := line + words[i] + [Space];
      ghost var done', cur' := WordStep(width, maxWidth, words, i, done, cur);
      if width(testLine) > maxWidth && i > 0 {
        RenderAllSnoc(done, cur);
        RenderSingle(words[i]);
        lines := lines + [line];
        line := words[i] + [Space];
        yLine := yLine + LineHeight;
      } else {
        RenderSnoc(cur, words[i]);
        line := testLine;
      }
      done, cur := done', cur';
      i := i + 1;
    }
    GreedyDone(width, maxWidth, cur, words);
    RenderAllSnoc(done, cur);
    lines := lines + [line];
    yEnd := yLine + LineHeight;
  }

  /** The line-counting twin of `drawWrappedText` in `draw`'s height pre-pass:
      the same loop, counting commits instead of drawing. */
  method CountLines(width: string -> int, text: string, maxWidth: int) returns (count: nat)
    ensures count == |WrapText(width, maxWidth, text)|
    ensures count >= 1
  {
    count := CountWords(width, Split(text, Space), maxWidth);
    RenderAllIndex(Greedy(width, maxWidth, Split(text, Space)));
  }

  /** The word loop of the line count. */
  method CountWords(width: string -> int, words: seq<string>, maxWidth: int) returns (count: nat)
    requires |words| >= 1
    ensures count == |Greedy(width, maxWidth, words)|
    ensures count >= 1
  {
    var line := "";
    count := 0;
    ghost var done: seq<seq<string>> := [];
    ghost var cur: seq<string> := [];
    var i := 0;
    while i < |words|
      invariant 0 <= i <= |words|
      invariant line == Render(cur)
      invariant count == |done|
      invariant i == 0 ==> cur == [] && done == []
      invariant i > 0 ==>
        |cur| >= 1 &&
        Greedy(width, maxWidth, words) == done + GreedyFrom(width, maxWidth, cur, words[i..])
    {
      var testLine := line + words[i] + [Space];
      ghost var done', cur' := WordStep(width, maxWidth, words, i, done, cur);
      if width(testLine) > maxWidth && i > 0 {
        RenderSingle(words[i]);
        count := count + 1;
        line := words[i] + [Space];
      } else {
        RenderSnoc(cur, words[i]);
        line := testLine;
      }
      done, cur := done', cur';
      i := i + 1;
    }
    GreedyDone(width, maxWidth, cur, words);
    count := count + 1;
  }
}
