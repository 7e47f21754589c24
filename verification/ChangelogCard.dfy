/** Two-column layout of the changelog card (tools/changelog_card.py).

    Headings and items are laid out in two columns; `columns` tries every place to
    split them and keeps the one whose taller column is lowest, repeating the
    heading of a group that is cut in two.  Text widths are arbitrary non-negative
    numbers. */
module ChangelogCard {
  import opened Options

  const HEAD_LINE: int := 30
  const HEAD_ABOVE: int := 22
  const HEAD_BELOW: int := 8
  const ITEM_LINE: int := 25
  const ITEM_GAP: int := 7

  // ----- wrapping a line of words -----

  datatype Token = Token(word: string, bold: bool, space: bool)
  datatype Placed = Placed(word: string, bold: bool, gap: real)

  /** The fonts: the width of a word, and of the space before it. */
  datatype Fonts = Fonts(word: (string, bool) -> real, space: real)

  function GapBefore(f: Fonts, t: Token): real { if t.space then f.space else 0.0 }

  /** Tokens from..to as one row: the first starts at the margin. */
  function RowOf(f: Fonts, tokens: seq<Token>, from: nat, to: nat): seq<Placed>
    requires from <= to <= |tokens|
  {
    seq(to - from, i requires 0 <= i < to - from =>
      var t := tokens[from + i];
      Placed(t.word, t.bold, if i == 0 then 0.0 else GapBefore(f, t)))
  }

  function RowWidth(f: Fonts, tokens: seq<Token>, from: nat, to: nat): real
    requires from <= to <= |tokens|
  {
    if from == to then 0.0
    else
      var t := tokens[to - 1];
      RowWidth(f, tokens, from, to - 1) + (if to - 1 == from then 0.0 else GapBefore(f, t)) + f.word(t.word, t.bold)
  }

  /** Row r of a wrapped line ends where the next one starts. */
  function RowEnd(starts: seq<nat>, r: nat, n: nat): nat
    requires r < |starts|
  {
    if r + 1 < |starts| then starts[r + 1] else n
  }

  /** Token i may stay on the row that starts at `from`: it is glued to the word
      before it, or the row up to it is not too wide. */
  predicate Stays(f: Fonts, tokens: seq<Token>, width: real, from: nat, i: nat)
    requires from <= i < |tokens|
  {
    i == from || !tokens[i].space || RowWidth(f, tokens, from, i + 1) <= width
  }

  /** Row r holds the tokens from its start to the next row's, none of which had to
      leave it, and the next row's first token did have to. */
  ghost predicate GreedyRow(f: Fonts, tokens: seq<Token>, width: real, rows: seq<seq<Placed>>,
                            starts: seq<nat>, n: nat, r: nat)
    requires r < |starts| == |rows| && n <= |tokens|
  {
    var (from, to) := (starts[r], RowEnd(starts, r, n));
    && from <= to <= n
    && rows[r] == RowOf(f, tokens, from, to)
    && (forall i :: from <= i < to ==> Stays(f, tokens, width, from, i))
    && (r + 1 < |starts| ==> from < to < n && !Stays(f, tokens, width, from, to))
  }

  /** The first n tokens, wrapped: rows are broken where and only where a word after
      a space does not fit. */
  ghost predicate Wrapped(f: Fonts, tokens: seq<Token>, width: real, rows: seq<seq<Placed>>,
                          starts: seq<nat>, n: nat)
    requires n <= |tokens|
  {
    && |rows| == |starts| > 0 && starts[0] == 0 && starts[|starts| - 1] <= n
    && forall r :: 0 <= r < |starts| ==> GreedyRow(f, tokens, width, rows, starts, n, r)
  }

  /** The rows of a whole line: some division at the places where a word did not fit. */
  ghost predicate WrappedLine(f: Fonts, tokens: seq<Token>, width: real, rows: seq<seq<Placed>>) {
    exists starts :: Wrapped(f, tokens, width, rows, starts, |tokens|)
  }

  lemma OneMoreToken(f: Fonts, tokens: seq<Token>, width: real, rows: seq<seq<Placed>>, starts: seq<nat>, n: nat)
    requires n < |tokens| && Wrapped(f, tokens, width, rows, starts, n)
    requires Stays(f, tokens, width, starts[|starts| - 1], n)
    ensures
      var (k, t) := (|starts| - 1, tokens[n]);
      var gap := if n == starts[k] then 0.0 else GapBefore(f, t);
      Wrapped(f, tokens, width, rows[k := rows[k] + [Placed(t.word, t.bold, gap)]], starts, n + 1)
  {
    var (k, t) := (|starts| - 1, tokens[n]);
    var gap := if n == starts[k] then 0.0 else GapBefore(f, t);
    var after := rows[k := rows[k] + [Placed(t.word, t.bold, gap)]];
    var m := n + 1;
    forall r | 0 <= r < |starts|
      ensures GreedyRow(f, tokens, width, after, starts, m, r)
    {
      assert GreedyRow(f, tokens, width, rows, starts, n, r);
      if r == k {
        assert after[k] == RowOf(f, tokens, starts[k], n + 1);
      }
    }
  }

  lemma NewRow(f: Fonts, tokens: seq<Token>, width: real, rows: seq<seq<Placed>>, starts: seq<nat>, n: nat)
    requires n < |tokens| && Wrapped(f, tokens, width, rows, starts, n)
    requires starts[|starts| - 1] < n && !Stays(f, tokens, width, starts[|starts| - 1], n)
    ensures
      var t := tokens[n];
      Wrapped(f, tokens, width, rows + [[Placed(t.word, t.bold, 0.0)]], starts + [n], n + 1)
  {
    var t := tokens[n];
    var (after, cuts) := (rows + [[Placed(t.word, t.bold, 0.0)]], starts + [n]);
    var m := n + 1;
    forall r | 0 <= r < |cuts|
      ensures GreedyRow(f, tokens, width, after, cuts, m, r)
    {
      if r < |starts| {
        assert GreedyRow(f, tokens, width, rows, starts, n, r);
      }
    }
  }

  method Wrap(f: Fonts, tokens: seq<Token>, width: real) returns (rows: seq<seq<Placed>>)
    requires tokens != [] ==> !tokens[0].space
    ensures WrappedLine(f, tokens, width, rows)
  {
    rows := [[]];
    ghost var starts: seq<nat> := [0];
    var x := 0.0;
    for i := 0 to |tokens|
      invariant Wrapped(f, tokens, width, rows, starts, i)
      invariant i == starts[|starts| - 1] ==> i == 0
      invariant x == RowWidth(f, tokens, starts[|starts| - 1], i)
    {
      var t := tokens[i];
      var w := f.word(t.word, t.bold);
      var gap := if t.space then f.space else 0.0;
      var k := |rows| - 1;
      assert GreedyRow(f, tokens, width, rows, starts, i, k);
      assert |rows[k]| == i - starts[k];
      if rows[k] != [] && t.space && x + gap + w > width {
        NewRow(f, tokens, width, rows, starts, i);
        rows, starts := rows + [[Placed(t.word, t.bold, 0.0)]], starts + [i];
        x := w;
      } else {
        assert Stays(f, tokens, width, starts[k], i);
        assert gap == if i == starts[k] then 0.0 else GapBefore(f, t);
        OneMoreToken(f, tokens, width, rows, starts, i);
        rows := rows[k := rows[k] + [Placed(t.word, t.bold, gap)]];
        x := x + gap + w;
      }
    }
    assert Wrapped(f, tokens, width, rows, starts, |tokens|);
  }

  /** The width of a row as it is drawn. */
  function DrawnWidth(f: Fonts, row: seq<Placed>): real {
    if row == [] then 0.0
    else
      var p := row[|row| - 1];
      DrawnWidth(f, row[..|row| - 1]) + p.gap + f.word(p.word, p.bold)
  }

  lemma {:induction false} DrawnRow(f: Fonts, tokens: seq<Token>, from: nat, to: nat)
    requires from <= to <= |tokens|
    ensures DrawnWidth(f, RowOf(f, tokens, from, to)) == RowWidth(f, tokens, from, to)
  {
    if from == to {
      assert RowOf(f, tokens, from, to) == [];
    } else {
      DrawnRow(f, tokens, from, to - 1);
      var row := RowOf(f, tokens, from, to);
      assert row[..|row| - 1] == RowOf(f, tokens, from, to - 1);
    }
  }

  /** A row fits up to its last word that follows a space: what makes it too wide is
      its first word, or text glued on after that word. */
  lemma FitsUpToLastSpace(f: Fonts, tokens: seq<Token>, width: real, rows: seq<seq<Placed>>, starts: seq<nat>,
                          r: nat, i: nat)
    requires Wrapped(f, tokens, width, rows, starts, |tokens|) && r < |starts|
    requires starts[r] < i < RowEnd(starts, r, |tokens|) && i < |tokens| && tokens[i].space
    ensures i - starts[r] < |rows[r]| && DrawnWidth(f, rows[r][..i - starts[r] + 1]) <= width
  {
    assert GreedyRow(f, tokens, width, rows, starts, |tokens|, r);
    assert Stays(f, tokens, width, starts[r], i);
    assert rows[r][..i - starts[r] + 1] == RowOf(f, tokens, starts[r], i + 1);
    DrawnRow(f, tokens, starts[r], i + 1);
  }

  /** Where every word but the first follows a space, a row that is too wide is one word. */
  lemma PlainRowsFit(f: Fonts, tokens: seq<Token>, width: real, rows: seq<seq<Placed>>, r: nat)
    requires WrappedLine(f, tokens, width, rows) && r < |rows|
    requires forall i :: 1 <= i < |tokens| ==> tokens[i].space
    ensures |rows[r]| >= 2 ==> DrawnWidth(f, rows[r]) <= width
  {
    var starts :| Wrapped(f, tokens, width, rows, starts, |tokens|);
    assert GreedyRow(f, tokens, width, rows, starts, |tokens|, r);
    var last := RowEnd(starts, r, |tokens|) - 1;
    if |rows[r]| >= 2 {
      FitsUpToLastSpace(f, tokens, width, rows, starts, r, last);
      assert rows[r][..last - starts[r] + 1] == rows[r];
    }
  }

  /** Glued text can make a row of several words too wide: "a b" and a glued "c", each
      one wide like the space, in three. */
  lemma GluedTextOverflows()
    ensures
      var f := Fonts((word: string, bold: bool) => 1.0, 1.0);
      var tokens := [Token("a", false, false), Token("b", true, true), Token("c", false, false)];
      exists rows :: WrappedLine(f, tokens, 3.0, rows) && |rows| == 1 && DrawnWidth(f, rows[0]) == 4.0
  {
    var f := Fonts((word: string, bold: bool) => 1.0, 1.0);
    var tokens := [Token("a", false, false), Token("b", true, true), Token("c", false, false)];
    var row := RowOf(f, tokens, 0, 3);
    assert RowWidth(f, tokens, 0, 1) == 1.0;
    assert RowWidth(f, tokens, 0, 2) == 3.0;
    assert RowWidth(f, tokens, 0, 3) == 4.0;
    DrawnRow(f, tokens, 0, 3);
    assert forall i :: 0 <= i < 3 ==> Stays(f, tokens, 3.0, 0, i);
    assert GreedyRow(f, tokens, 3.0, [row], [0], 3, 0);
    assert Wrapped(f, tokens, 3.0, [row], [0], |tokens|);
    assert WrappedLine(f, tokens, 3.0, [row]);
  }

  // ----- the elements of a card -----

  datatype Subcat = Subcat(key: Option<string>, lines: seq<string>)
  datatype Group = Group(heading: string, subcats: seq<Subcat>)
  datatype Element = Heading(group: string) | Item(group: string, marker: Option<string>, line: string)

  function SubcatElements(heading: string, sub: Subcat): seq<Element> {
    seq(|sub.lines|, i requires 0 <= i < |sub.lines| => Item(heading, sub.key, sub.lines[i]))
  }

  function ItemsOf(heading: string, subs: seq<Subcat>): seq<Element> {
    if subs == [] then [] else ItemsOf(heading, subs[..|subs| - 1]) + SubcatElements(heading, subs[|subs| - 1])
  }

  function ElementsOf(groups: seq<Group>): seq<Element> {
    if groups == [] then []
    else
      var g := groups[|groups| - 1];
      ElementsOf(groups[..|groups| - 1]) + [Heading(g.heading)] + ItemsOf(g.heading, g.subcats)
  }

  method Elements(groups: seq<Group>) returns (elements: seq<Element>)
    ensures elements == ElementsOf(groups)
  {
    elements := [];
    for g := 0 to |groups|
      invariant elements == ElementsOf(groups[..g])
    {
      var group := groups[g];
      ghost var before := elements;
      elements := elements + [Heading(group.heading)];
      for s := 0 to |group.subcats|
        invariant elements == before + [Heading(group.heading)] + ItemsOf(group.heading, group.subcats[..s])
      {
        var sub := group.subcats[s];
        ghost var start := elements;
        for i := 0 to |sub.lines|
          invariant elements == start + SubcatElements(group.heading, sub)[..i]
        {
          elements := elements + [Item(group.heading, sub.key, sub.lines[i])];
        }
        assert group.subcats[..s + 1][..s] == group.subcats[..s];
      }
      assert group.subcats[..|group.subcats|] == group.subcats;
      assert groups[..g + 1][..g] == groups[..g];
    }
    assert groups[..|groups|] == groups;
  }

  lemma Regrouped(a: seq<Element>, b: seq<Element>, c: seq<Element>, d: seq<Element>)
    ensures a + b + c + d == a + b + (c + d)
  {}

  lemma LastSplits<T>(a: seq<T>, x: T, b: seq<T>)
    requires b != []
    ensures
      var all := a + [x] + b;
      all[..|all| - 1] == a + [x] + b[..|b| - 1] && all[|all| - 1] == b[|b| - 1]
  {}

  lemma OnlySplits<T>(a: seq<T>, x: T)
    ensures a + [x] + [] == a + [x] && (a + [x])[..|a|] == a
  {}

  lemma {:induction false} ItemsInOrder(heading: string, a: seq<Subcat>, sub: Subcat, b: seq<Subcat>)
    ensures
      ItemsOf(heading, a + [sub] + b)
      == ItemsOf(heading, a) + seq(|sub.lines|, i requires 0 <= i < |sub.lines| => Item(heading, sub.key, sub.lines[i]))
         + ItemsOf(heading, b)
  {
    if b == [] {
      OnlySplits(a, sub);
    } else {
      var (front, last) := (b[..|b| - 1], b[|b| - 1]);
      ItemsInOrder(heading, a, sub, front);
      LastSplits(a, sub, b);
      Regrouped(ItemsOf(heading, a), SubcatElements(heading, sub), ItemsOf(heading, front), SubcatElements(heading, last));
    }
  }

  function GroupElements(g: Group): seq<Element> { [Heading(g.heading)] + ItemsOf(g.heading, g.subcats) }

  lemma OneGroupMore(groups: seq<Group>)
    requires groups != []
    ensures ElementsOf(groups) == ElementsOf(groups[..|groups| - 1]) + GroupElements(groups[|groups| - 1])
  {
    var g := groups[|groups| - 1];
    Regrouped(ElementsOf(groups[..|groups| - 1]), [Heading(g.heading)], ItemsOf(g.heading, g.subcats), []);
  }

  /** A group between others: its heading and then its lines, category by category, stand
      once between the elements of the groups before and after it. */
  lemma {:induction false} ElementsInOrder(a: seq<Group>, g: Group, b: seq<Group>)
    ensures
      ElementsOf(a + [g] + b) == ElementsOf(a) + ([Heading(g.heading)] + ItemsOf(g.heading, g.subcats)) + ElementsOf(b)
  {
    OneGroupMore(a + [g] + b);
    if b == [] {
      OnlySplits(a, g);
    } else {
      ElementsInOrder(a, g, b[..|b| - 1]);
      OneGroupMore(b);
      LastSplits(a, g, b);
      Regrouped(ElementsOf(a), GroupElements(g), ElementsOf(b[..|b| - 1]), GroupElements(b[|b| - 1]));
    }
  }

  /** Every item comes after its own group's heading, with only items of the same
      group in between; in particular the first element is a heading. */
  ghost predicate Grouped(elements: seq<Element>) {
    forall i :: 0 <= i < |elements| && elements[i].Item? ==>
      i > 0 && elements[i - 1].group == elements[i].group
  }

  lemma {:induction false} ItemsAreItems(heading: string, subs: seq<Subcat>)
    ensures forall i :: 0 <= i < |ItemsOf(heading, subs)| ==>
      ItemsOf(heading, subs)[i].Item? && ItemsOf(heading, subs)[i].group == heading
  {
    if subs != [] {
      ItemsAreItems(heading, subs[..|subs| - 1]);
    }
  }

  lemma {:induction false} ElementsAreGrouped(groups: seq<Group>)
    ensures Grouped(ElementsOf(groups))
  {
    if groups != [] {
      var g := groups[|groups| - 1];
      ElementsAreGrouped(groups[..|groups| - 1]);
      ItemsAreItems(g.heading, g.subcats);
    }
  }

  // ----- heights -----

  /** A card: its elements, and the number of wrapped rows of each item. */
  datatype Card = Card(elements: seq<Element>, rows: seq<nat>)

  predicate ValidCard(c: Card) { |c.rows| == |c.elements| }

  function ElementHeight(c: Card, index: nat, first: bool): int
    requires ValidCard(c) && index < |c.elements|
  {
    if c.elements[index].Heading? then (if first then 0 else HEAD_ABOVE) + HEAD_LINE + HEAD_BELOW
    else c.rows[index] * ITEM_LINE + ITEM_GAP
  }

  predicate InCard(c: Card, indices: seq<nat>) { forall i :: 0 <= i < |indices| ==> indices[i] < |c.elements| }

  function ColumnHeight(c: Card, indices: seq<nat>): int
    requires ValidCard(c) && InCard(c, indices)
  {
    if indices == [] then 0
    else
      var n := |indices| - 1;
      ColumnHeight(c, indices[..n]) + ElementHeight(c, indices[n], n == 0)
  }

  /** `draw_column` moves down exactly by the height `columns` planned with, so the
      drawing ends inside the picture that was sized from it. */
  method DrawColumn(c: Card, indices: seq<nat>, top: int) returns (y: int)
    requires ValidCard(c) && InCard(c, indices)
    ensures y == top + ColumnHeight(c, indices)
  {
    y := top;
    for n := 0 to |indices|
      invariant y == top + ColumnHeight(c, indices[..n])
    {
      assert indices[..n + 1][..n] == indices[..n];
      var index := indices[n];
      if c.elements[index].Heading? {
        if n > 0 {
          y := y + HEAD_ABOVE;
        }
        y := y + (HEAD_LINE + HEAD_BELOW);
        continue;
      }
      ghost var before := y;
      for row := 0 to c.rows[index]
        invariant y == before + row * ITEM_LINE
      {
        y := y + ITEM_LINE;
      }
      y := y + ITEM_GAP;
    }
    assert indices[..|indices|] == indices;
  }

  // ----- columns -----

  /** The nearest heading at or before an element: its own group's heading. */
  function HeadingOf(c: Card, index: nat): (h: nat)
    requires index < |c.elements|
    ensures h <= index
  {
    if index == 0 || c.elements[index].Heading? then index else HeadingOf(c, index - 1)
  }

  lemma {:induction false} HeadingOfOwnGroup(c: Card, index: nat)
    requires index < |c.elements| && Grouped(c.elements)
    ensures
      var h := HeadingOf(c, index);
      && c.elements[h] == Heading(c.elements[index].group)
      && forall i :: h < i <= index ==> c.elements[i].Item? && c.elements[i].group == c.elements[index].group
    decreases index
  {
    if c.elements[index].Item? {
      HeadingOfOwnGroup(c, index - 1);
    }
  }

  method HeadingIndex(c: Card, start: nat) returns (index: nat)
    requires start < |c.elements| && Grouped(c.elements)
    ensures index == HeadingOf(c, start)
  {
    index := start;
    while !c.elements[index].Heading?
      invariant index < |c.elements| && HeadingOf(c, index) == HeadingOf(c, start)
      decreases index
    {
      index := index - 1;
    }
  }

  function Range(from: nat, to: nat): (r: seq<nat>)
    requires from <= to
    ensures |r| == to - from && forall i :: 0 <= i < |r| ==> r[i] == from + i
  {
    seq(to - from, i requires 0 <= i < to - from => from + i)
  }

  /** The places where a card may be split: after an item. */
  predicate Admissible(c: Card, split: int) {
    1 <= split <= |c.elements| && c.elements[split - 1].Item?
  }

  function LeftOf(c: Card, split: nat): seq<nat> { Range(0, split) }

  /** The right column of a split: the rest, under a repeated heading when the split
      cuts a group in two. */
  function RightOf(c: Card, split: nat): seq<nat>
    requires split <= |c.elements|
  {
    var rest := Range(split, |c.elements|);
    if split == |c.elements| || c.elements[split].Heading? then rest else [HeadingOf(c, split)] + rest
  }

  /** The height of the card's taller column. */
  function CardHeight(c: Card, split: nat): int
    requires ValidCard(c) && split <= |c.elements|
  {
    var (left, right) := (ColumnHeight(c, LeftOf(c, split)), ColumnHeight(c, RightOf(c, split)));
    if left >= right then left else right
  }

  function Heights(c: Card): seq<int>
    requires ValidCard(c)
  {
    seq(|c.elements| + 1, s requires 0 <= s <= |c.elements| => CardHeight(c, s))
  }

  function Admissibles(c: Card): seq<bool> {
    seq(|c.elements| + 1, s => Admissible(c, s))
  }

  /** The split chosen below `bound`: the lowest card over all admissible splits, the
      earliest one among equals; 0 when none is admissible. */
  ghost predicate Chosen(heights: seq<int>, admissible: seq<bool>, split: nat, bound: int)
    requires |heights| == |admissible| && split < |heights| && bound <= |heights|
  {
    if split == 0 then forall s :: 1 <= s < bound ==> !admissible[s]
    else
      && admissible[split] && split < bound
      && forall s :: 1 <= s < bound && admissible[s] ==>
           heights[split] < heights[s] || (heights[split] == heights[s] && split <= s)
  }

  lemma OneMoreSplit(heights: seq<int>, admissible: seq<bool>, best: nat, split: nat)
    requires |heights| == |admissible| && best < |heights| && 1 <= split < |heights|
    requires Chosen(heights, admissible, best, split)
    ensures
      if !admissible[split] then Chosen(heights, admissible, best, split + 1)
      else if best == 0 || heights[split] < heights[best] then Chosen(heights, admissible, split, split + 1)
      else Chosen(heights, admissible, best, split + 1)
  {}

  method ColumnsAt(c: Card, split: nat) returns (left: seq<nat>, right: seq<nat>, height: int)
    requires ValidCard(c) && Grouped(c.elements) && split <= |c.elements|
    ensures left == LeftOf(c, split) && right == RightOf(c, split) && height == CardHeight(c, split)
  {
    left, right := Range(0, split), Range(split, |c.elements|);
    if right != [] && !c.elements[split].Heading? {
      var h := HeadingIndex(c, split);
      right := [h] + right;
    }
    var (a, b) := (ColumnHeight(c, left), ColumnHeight(c, right));
    height := if a >= b then a else b;
  }

  method Columns(c: Card) returns (left: seq<nat>, right: seq<nat>)
    requires ValidCard(c) && Grouped(c.elements)
    ensures |left| <= |c.elements| && Chosen(Heights(c), Admissibles(c), |left|, |c.elements| + 1)
    ensures if left == [] then right == [] else left == LeftOf(c, |left|) && right == RightOf(c, |left|)
  {
    var count := |c.elements|;
    ghost var (heights, admissible) := (Heights(c), Admissibles(c));
    var best := 0;
    left, right := [], [];
    for split := 1 to count + 1
      invariant |left| <= count && Chosen(heights, admissible, |left|, split)
      invariant if left == [] then right == [] else left == LeftOf(c, |left|) && right == RightOf(c, |left|)
      invariant left != [] ==> best == heights[|left|]
    {
      OneMoreSplit(heights, admissible, |left|, split);
      if c.elements[split - 1].Heading? {
        continue;
      }
      var l, r, height := ColumnsAt(c, split);
      if left == [] || height < best {
        best, left, right := height, l, r;
      }
    }
  }

  /** What a split means: read one column after the other and nothing is missing,
      doubled or out of order, except one heading repeated on top of the right
      column; the left column never ends in a heading, and the right column starts
      with the heading of the group its first item belongs to. */
  lemma SplitKeepsEverything(c: Card, split: nat)
    requires Grouped(c.elements) && Admissible(c, split)
    ensures
      var (left, right) := (LeftOf(c, split), RightOf(c, split));
      && c.elements[left[|left| - 1]].Item?
      && (right == [] || right[0] == split ==> left + right == Range(0, |c.elements|))
      && (right != [] && right[0] != split ==>
            && right[0] in left && left + right[1..] == Range(0, |c.elements|)
            && |right| > 1 && c.elements[right[0]] == Heading(c.elements[right[1]].group))
      && (right != [] ==> c.elements[right[0]].Heading?)
  {
    if split < |c.elements| && c.elements[split].Item? {
      HeadingOfOwnGroup(c, split);
      assert LeftOf(c, split)[HeadingOf(c, split)] == HeadingOf(c, split);
    }
  }

  /** Neither column of the chosen split is higher than the taller one of any other
      admissible split, and of an earlier split one column is higher than both. */
  lemma ChosenIsLowest(c: Card, split: nat, other: nat)
    requires ValidCard(c) && 1 <= split <= |c.elements| && Admissible(c, other)
    requires Chosen(Heights(c), Admissibles(c), split, |c.elements| + 1)
    ensures Admissible(c, split)
    ensures
      var (left, right) := (ColumnHeight(c, LeftOf(c, split)), ColumnHeight(c, RightOf(c, split)));
      var (l, r) := (ColumnHeight(c, LeftOf(c, other)), ColumnHeight(c, RightOf(c, other)));
      && ((left <= l && right <= l) || (left <= r && right <= r))
      && (other < split ==> (left < l && right < l) || (left < r && right < r))
  {
    assert Admissibles(c)[split] && Admissibles(c)[other];
    assert Heights(c)[split] == CardHeight(c, split) && Heights(c)[other] == CardHeight(c, other);
  }
}
