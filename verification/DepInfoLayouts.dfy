/** Every way of laying out dep-info: blanks, tabs, comments, empty lines, and the spellings of each byte. */
module DepInfoLayouts {
  import opened Wrappers
  import opened Bytes
  import opened DepInfo
  import opened DepInfoLaws

  /** How a byte of a word is written. */
  datatype Spelled =
    | Plain(b: Byte)         // as itself
    | Escaped(b: Byte)       // after a backslash
    | Doubled                // `$$`
    | Lone                   // a `$` that no other follows

  function Meant(s: Spelled): Byte {
    match s
    case Plain(b) => b
    case Escaped(b) => b
    case Doubled => 36
    case Lone => 36
  }

  function Spell(s: Spelled): seq<Byte> {
    match s
    case Plain(b) => [b]
    case Escaped(b) => [92, b]
    case Doubled => [36, 36]
    case Lone => [36]
  }

  /** White space, line ends, `#`, `$` and the backslash are never plain, nor is a colon in a target; and what
      follows must not join on: no `$` after a lone one, no line feed after a carriage return. */
  predicate Spellable(s: Spelled, inTarget: bool, next: seq<Byte>) {
    match s
    case Plain(b) => b !in {9, 10, 13, 32, 35, 36, 92} && !(inTarget && b == 58)
    case Escaped(b) => b != 10 && (b == 13 && next != [] ==> next[0] != 10)
    case Doubled => true
    case Lone => next != [] ==> next[0] != 36
  }

  function Spelling(w: seq<Spelled>): seq<Byte> {
    if w == [] then [] else Spell(w[0]) + Spelling(w[1..])
  }

  function Value(w: seq<Spelled>): Word {
    if w == [] then [] else [Meant(w[0])] + Value(w[1..])
  }

  predicate WordOk(w: seq<Spelled>, inTarget: bool, rest: seq<Byte>) {
    w == [] || (Spellable(w[0], inTarget, Spelling(w[1..]) + rest) && WordOk(w[1..], inTarget, rest))
  }

  predicate Blanks(gap: seq<Byte>) {
    forall i :: 0 <= i < |gap| ==> gap[i] in {9, 13, 32}
  }

  /** A word and the blanks before it. */
  datatype Item = Item(gap: seq<Byte>, word: seq<Spelled>)

  datatype Line =
    | Rule(targets: seq<Item>, beforeColon: seq<Byte>, prerequisites: seq<Item>, tail: seq<Byte>,
           comment: Option<seq<Byte>>)
    | Remark(tail: seq<Byte>, comment: Option<seq<Byte>>)

  function ItemsText(items: seq<Item>): seq<Byte> {
    if items == [] then [] else items[0].gap + (Spelling(items[0].word) + ItemsText(items[1..]))
  }

  function CommentText(comment: Option<seq<Byte>>): seq<Byte> {
    if comment.Some? then [35] + comment.value else []
  }

  /** What ends a line: blanks, a comment, a line feed. */
  function EndText(line: Line): seq<Byte> {
    line.tail + (CommentText(line.comment) + [10])
  }

  function LineText(line: Line): seq<Byte> {
    if line.Remark? then EndText(line)
    else ItemsText(line.targets) + (line.beforeColon + ([58] + (ItemsText(line.prerequisites) + EndText(line))))
  }

  function Text(lines: seq<Line>): seq<Byte> {
    if lines == [] then [] else LineText(lines[0]) + Text(lines[1..])
  }

  /** Prerequisites are set apart by blanks and are not empty. */
  predicate ItemsOk(items: seq<Item>, inTarget: bool, rest: seq<Byte>) {
    items == [] ||
    (&& Blanks(items[0].gap) && (!inTarget ==> items[0].gap != [] && items[0].word != [])
     && WordOk(items[0].word, inTarget, ItemsText(items[1..]) + rest)
     && ItemsOk(items[1..], inTarget, rest))
  }

  predicate LineOk(line: Line, more: seq<Byte>) {
    && Blanks(line.tail) && (line.comment.Some? ==> OneLine(line.comment.value))
    && (line.Rule? ==>
          && Blanks(line.beforeColon)
          && ItemsOk(line.targets, true,
                     line.beforeColon + ([58] + (ItemsText(line.prerequisites) + (EndText(line) + more))))
          && ItemsOk(line.prerequisites, false, EndText(line) + more))
  }

  predicate LinesOk(lines: seq<Line>) {
    lines == [] || (LineOk(lines[0], Text(lines[1..])) && LinesOk(lines[1..]))
  }

  function Values(items: seq<Item>): seq<Word> {
    if items == [] then [] else [Value(items[0].word)] + Values(items[1..])
  }

  /** The prerequisites that the lines spell, in order. */
  function Spelt(lines: seq<Line>): seq<Word> {
    if lines == [] then [] else (if lines[0].Rule? then Values(lines[0].prerequisites) else []) + Spelt(lines[1..])
  }

  // ----- words

  lemma SpelledIsToken(s: Spelled, next: seq<Byte>, st: State)
    requires Spellable(s, !st.inPrerequisites, next)
    ensures Run(Spell(s) + next, st) == Run(next, st.Push(Meant(s)))
  {
    var all := Spell(s) + next;
    assert all[0] == Spell(s)[0];
    assert |Spell(s)| == 2 ==> all[1] == Spell(s)[1];
    assert next != [] ==> all[|Spell(s)|] == next[0];
    OneToken(Spell(s), next, st);
  }

  lemma {:induction false} SpelledReadsBack(w: seq<Spelled>, rest: seq<Byte>, st: State)
    requires WordOk(w, !st.inPrerequisites, rest)
    ensures Run(Spelling(w) + rest, st) == Run(rest, st.(word := st.word + Value(w)))
    decreases |w|
  {
    if w == [] {
      assert Spelling(w) + rest == rest && st.word + Value(w) == st.word;
    } else {
      SpellingSplits(w, rest);
      SpelledIsToken(w[0], Spelling(w[1..]) + rest, st);
      SpelledReadsBack(w[1..], rest, st.Push(Meant(w[0])));
      PushValue(st, w);
    }
  }

  lemma SpellingSplits(w: seq<Spelled>, rest: seq<Byte>)
    requires w != []
    ensures Spelling(w) + rest == Spell(w[0]) + (Spelling(w[1..]) + rest)
  {
    Regroup(Spell(w[0]), Spelling(w[1..]), rest);
  }

  lemma PushValue(st: State, w: seq<Spelled>)
    requires w != []
    ensures var pushed :=
            st.Push(Meant(w[0])); pushed.(word := pushed.word + Value(w[1..])) == st.(word := st.word + Value(w))
  {
    Regroup(st.word, [Meant(w[0])], Value(w[1..]));
  }

  lemma Regroup(a: seq<Byte>, b: seq<Byte>, c: seq<Byte>)
    ensures a + b + c == a + (b + c)
  {
  }

  // ----- blanks and comments

  lemma BlankReadsBack(b: Byte, rest: seq<Byte>, st: State)
    requires b in {9, 13, 32}
    ensures Run([b] + rest, st) == Run(rest, st.Finish())
  {
    OneToken([b], rest, st);
  }

  lemma {:induction false} GapReadsBack(gap: seq<Byte>, rest: seq<Byte>, st: State)
    requires Blanks(gap)
    ensures Run(gap + rest, st) == if gap == [] then Run(rest, st) else Run(rest, st.Finish())
    decreases |gap|
  {
    if gap == [] {
      assert gap + rest == rest;
    } else {
      assert gap + rest == [gap[0]] + (gap[1..] + rest);
      BlankReadsBack(gap[0], gap[1..] + rest, st);
      GapReadsBack(gap[1..], rest, st.Finish());
      assert st.Finish().Finish() == st.Finish();
    }
  }

  lemma CommentReadsBack(text: seq<Byte>, rest: seq<Byte>, st: State)
    requires OneLine(text) && rest != [] && rest[0] == 10
    ensures Run([35] + text + rest, st) == Run(rest, st.Finish().(inPrerequisites := false))
  {
    var token := [35] + text;
    assert OneLine(token);
    LineLengthPrefix(token, rest);
    OneToken(token, rest, st);
  }

  lemma NewLineReadsBack(comment: Option<seq<Byte>>, more: seq<Byte>, st: State)
    requires comment.Some? ==> OneLine(comment.value)
    ensures Run(CommentText(comment) + ([10] + more), st) == Run(more, st.Finish().(inPrerequisites := false))
  {
    var rest := [10] + more;
    if comment.Some? {
      CommentReadsBack(comment.value, rest, st);
      OneToken([10], more, st.Finish().(inPrerequisites := false));
    } else {
      assert CommentText(comment) + rest == rest;
      OneToken([10], more, st);
    }
  }

  lemma EndSplits(line: Line, more: seq<Byte>)
    ensures EndText(line) + more == line.tail + (CommentText(line.comment) + ([10] + more))
  {
    Regroup(line.tail, CommentText(line.comment) + [10], more);
    Regroup(CommentText(line.comment), [10], more);
  }

  /** The end of a line finishes the word in hand and goes back to targets. */
  lemma EndReadsBack(line: Line, more: seq<Byte>, st: State)
    requires Blanks(line.tail) && (line.comment.Some? ==> OneLine(line.comment.value))
    ensures Run(EndText(line) + more, st) == Run(more, st.Finish().(inPrerequisites := false))
  {
    EndSplits(line, more);
    GapReadsBack(line.tail, CommentText(line.comment) + ([10] + more), st);
    NewLineReadsBack(line.comment, more, if line.tail == [] then st else st.Finish());
  }

  // ----- items

  lemma {:induction false} TargetsAreDropped(items: seq<Item>, rest: seq<Byte>, word: Word, output: seq<Word>)
    returns (word': Word)
    requires ItemsOk(items, true, rest)
    ensures Run(ItemsText(items) + rest, State(word, false, output)) == Run(rest, State(word', false, output))
    decreases |items|
  {
    if items == [] {
      word' := word;
      assert ItemsText(items) + rest == rest;
    } else {
      var item, more := items[0], ItemsText(items[1..]) + rest;
      ItemsSplit(items, rest);
      GapReadsBack(item.gap, Spelling(item.word) + more, State(word, false, output));
      var kept := if item.gap == [] then word else [];
      SpelledReadsBack(item.word, more, State(kept, false, output));
      word' := TargetsAreDropped(items[1..], rest, kept + Value(item.word), output);
    }
  }

  lemma ItemsSplit(items: seq<Item>, rest: seq<Byte>)
    requires items != []
    ensures ItemsText(items) + rest == items[0].gap + (Spelling(items[0].word) + (ItemsText(items[1..]) + rest))
  {
    Regroup(items[0].gap, Spelling(items[0].word) + ItemsText(items[1..]), rest);
    Regroup(Spelling(items[0].word), ItemsText(items[1..]), rest);
  }

  lemma {:induction false} ItemsReadBack(items: seq<Item>, rest: seq<Byte>, st: State)
    requires st.inPrerequisites && ItemsOk(items, false, rest)
    ensures Run(ItemsText(items) + rest, st) == Run(rest, Holding(Values(items), st))
    decreases |items|
  {
    if items == [] {
      assert ItemsText(items) + rest == rest;
    } else {
      var item, more := items[0], ItemsText(items[1..]) + rest;
      ItemsSplit(items, rest);
      GapReadsBack(item.gap, Spelling(item.word) + more, st);
      SpelledReadsBack(item.word, more, st.Finish());
      FinishedWord(st, Value(item.word));
      ItemsReadBack(items[1..], rest, st.Finish().(word := Value(item.word)));
    }
  }

  lemma {:induction false} ValuesAreProper(items: seq<Item>, rest: seq<Byte>)
    requires ItemsOk(items, false, rest)
    ensures forall i :: 0 <= i < |Values(items)| ==> Values(items)[i] != []
    decreases |items|
  {
    if items != [] {
      ValuesAreProper(items[1..], rest);
    }
  }

  // ----- lines

  lemma LineReadsBack(line: Line, more: seq<Byte>, output: seq<Word>)
    requires LineOk(line, more)
    ensures Run(LineText(line) + more, State([], false, output)) ==
            Run(more, State([], false, output + if line.Rule? then Values(line.prerequisites) else []))
  {
    if line.Remark? {
      EndReadsBack(line, more, State([], false, output));
      assert output + [] == output;
    } else {
      var ps, end := Values(line.prerequisites), EndText(line) + more;
      var after := ItemsText(line.prerequisites) + end;
      RuleSplits(line, more);
      var word := TargetsAreDropped(line.targets, line.beforeColon + ([58] + after), [], output);
      GapReadsBack(line.beforeColon, [58] + after, State(word, false, output));
      SeparatorReadsBack(58, after, State(if line.beforeColon == [] then word else [], false, output));
      ItemsReadBack(line.prerequisites, end, State([], true, output));
      EndReadsBack(line, more, Holding(ps, State([], true, output)));
      ValuesAreProper(line.prerequisites, end);
      HoldingFinishes(ps, State([], true, output));
    }
  }

  lemma RuleSplits(line: Line, more: seq<Byte>)
    requires line.Rule?
    ensures LineText(line) + more ==
            ItemsText(line.targets) +
              (line.beforeColon + ([58] + (ItemsText(line.prerequisites) + (EndText(line) + more))))
  {
    var t, b, p, e := ItemsText(line.targets), line.beforeColon, ItemsText(line.prerequisites), EndText(line);
    Regroup(t, b + ([58] + (p + e)), more);
    Regroup(b, [58] + (p + e), more);
    Regroup([58], p + e, more);
    Regroup(p, e, more);
  }

  lemma {:induction false} LinesReadBack(lines: seq<Line>, output: seq<Word>)
    requires LinesOk(lines)
    ensures Run(Text(lines), State([], false, output)) == State([], false, output + Spelt(lines))
    decreases |lines|
  {
    if lines == [] {
      assert output + Spelt(lines) == output;
    } else {
      var own := if lines[0].Rule? then Values(lines[0].prerequisites) else [];
      LineReadsBack(lines[0], Text(lines[1..]), output);
      LinesReadBack(lines[1..], output + own);
      RegroupWords(output, own, Spelt(lines[1..]));
    }
  }

  lemma RegroupWords(a: seq<Word>, b: seq<Word>, c: seq<Word>)
    ensures a + b + c == a + (b + c)
  {
  }

  /** However the rules are laid out and their bytes are spelled, with comments and empty lines between them, they
      parse to the prerequisites that they spell. */
  lemma AnyLayoutParses(lines: seq<Line>)
    requires LinesOk(lines)
    ensures Parse(Text(lines)) == Spelt(lines)
  {
    LinesReadBack(lines, []);
    assert [] + Spelt(lines) == Spelt(lines);
  }
}
