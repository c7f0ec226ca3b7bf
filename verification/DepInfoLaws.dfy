/** Printing and parsing dep-info, and line continuations. */
module DepInfoLaws {
  import opened Bytes
  import opened DepInfo

  datatype Rule = Rule(targets: seq<Word>, prerequisites: seq<Word>)

  function Escape(b: Byte, inTarget: bool): seq<Byte> {
    if b in {SPACE, TAB, CR, HASH, BACKSLASH} || (inTarget && b == COLON) then [BACKSLASH, b]
    else if b == DOLLAR then [DOLLAR, DOLLAR]
    else [b]
  }

  function EscapeWord(w: Word, inTarget: bool): seq<Byte> {
    if w == [] then [] else Escape(w[0], inTarget) + EscapeWord(w[1..], inTarget)
  }

  function PrintTargets(ts: seq<Word>): seq<Byte> {
    if ts == [] then []
    else if |ts| == 1 then EscapeWord(ts[0], true)
    else EscapeWord(ts[0], true) + [SPACE] + PrintTargets(ts[1..])
  }

  function PrintPrerequisites(ps: seq<Word>): seq<Byte> {
    if ps == [] then [] else [SPACE] + EscapeWord(ps[0], false) + PrintPrerequisites(ps[1..])
  }

  function PrintRule(rule: Rule): seq<Byte> {
    PrintTargets(rule.targets) + [COLON] + PrintPrerequisites(rule.prerequisites) + [LF]
  }

  function Print(rules: seq<Rule>): seq<Byte> {
    if rules == [] then [] else PrintRule(rules[0]) + Print(rules[1..])
  }

  function Prerequisites(rules: seq<Rule>): seq<Word> {
    if rules == [] then [] else rules[0].prerequisites + Prerequisites(rules[1..])
  }

  predicate OneLine(w: Word) {
    forall i :: 0 <= i < |w| ==> w[i] != LF
  }

  /** A carriage return at the very end of a line would join with the line feed after it. */
  predicate EndsInCr(w: Word) {
    w != [] && w[|w| - 1] == CR
  }

  predicate Printable(rule: Rule) {
    && (forall i :: 0 <= i < |rule.targets| ==> OneLine(rule.targets[i]))
    && (forall i :: 0 <= i < |rule.prerequisites| ==> rule.prerequisites[i] != [] && OneLine(rule.prerequisites[i]))
    && (rule.prerequisites != [] ==> !EndsInCr(rule.prerequisites[|rule.prerequisites| - 1]))
  }

  // ----- reading back what was printed

  lemma OneToken(token: seq<Byte>, rest: seq<Byte>, st: State)
    requires token != [] && TokenLength(token + rest) == |token|
    ensures Run(token + rest, st) == Run(rest, Step(token + rest, st))
  {
    assert (token + rest)[|token|..] == rest;
  }

  lemma EscapedByteIsToken(b: Byte, more: seq<Byte>, st: State)
    requires b != LF && (b == CR && more != [] ==> more[0] != LF)
    ensures var token := Escape(b, !st.inPrerequisites);
            TokenLength(token + more) == |token| && Step(token + more, st) == st.Push(b)
  {
    var all := Escape(b, !st.inPrerequisites) + more;
    assert all[0] == Escape(b, !st.inPrerequisites)[0];
    assert |Escape(b, !st.inPrerequisites)| == 2 ==> all[1] == Escape(b, !st.inPrerequisites)[1];
    assert |Escape(b, !st.inPrerequisites)| == 2 && |all| > 2 ==> all[2] == more[0];
  }

  lemma EscapedByteReadsBack(b: Byte, more: seq<Byte>, st: State)
    requires b != LF && (b == CR && more != [] ==> more[0] != LF)
    ensures Run(Escape(b, !st.inPrerequisites) + more, st) == Run(more, st.Push(b))
  {
    EscapedByteIsToken(b, more, st);
    OneToken(Escape(b, !st.inPrerequisites), more, st);
  }

  lemma EscapeSplits(w: Word, rest: seq<Byte>, inTarget: bool)
    requires w != []
    ensures EscapeWord(w, inTarget) + rest == Escape(w[0], inTarget) + (EscapeWord(w[1..], inTarget) + rest)
  {
  }

  lemma PushWord(st: State, w: Word)
    requires w != []
    ensures st.Push(w[0]).(word := st.Push(w[0]).word + w[1..]) == st.(word := st.word + w)
  {
    assert st.word + [w[0]] + w[1..] == st.word + w;
  }

  /** An escaped word is read back byte for byte. */
  lemma {:induction false} WordReadsBack(w: Word, rest: seq<Byte>, st: State)
    requires OneLine(w) && (EndsInCr(w) && rest != [] ==> rest[0] != LF)
    ensures Run(EscapeWord(w, !st.inPrerequisites) + rest, st) == Run(rest, st.(word := st.word + w))
    decreases |w|
  {
    if w == [] {
      assert EscapeWord(w, !st.inPrerequisites) + rest == rest;
      assert st.word + w == st.word;
    } else {
      var more := EscapeWord(w[1..], !st.inPrerequisites) + rest;
      EscapeSplits(w, rest, !st.inPrerequisites);
      NoLineFeedFirst(w[1..], rest, !st.inPrerequisites);
      EscapedByteReadsBack(w[0], more, st);
      WordReadsBack(w[1..], rest, st.Push(w[0]));
      PushWord(st, w);
    }
  }

  lemma NoLineFeedFirst(w: Word, rest: seq<Byte>, inTarget: bool)
    requires OneLine(w)
    ensures w != [] ==> (EscapeWord(w, inTarget) + rest)[0] != LF
    ensures w == [] ==> EscapeWord(w, inTarget) + rest == rest
  {
  }

  lemma SeparatorReadsBack(b: Byte, more: seq<Byte>, st: State)
    requires b == SPACE || b == LF || (b == COLON && !st.inPrerequisites)
    ensures Run([b] + more, st) ==
            Run(more, if b == COLON then State([], true, st.output)
                      else if b == SPACE then st.Finish() else st.Finish().(inPrerequisites := false))
  {
    OneToken([b], more, st);
  }

  lemma TargetsSplit(ts: seq<Word>, rest: seq<Byte>)
    requires ts != []
    ensures PrintTargets(ts) + [COLON] + rest ==
            EscapeWord(ts[0], true) +
            if |ts| == 1 then [COLON] + rest else [SPACE] + (PrintTargets(ts[1..]) + [COLON] + rest)
  {
    if |ts| == 1 {
      Regroup3(EscapeWord(ts[0], true), [COLON], rest);
    } else {
      Regroup5(EscapeWord(ts[0], true), [SPACE], PrintTargets(ts[1..]), [COLON], rest);
    }
  }

  lemma Regroup3(a: seq<Byte>, b: seq<Byte>, c: seq<Byte>)
    ensures a + b + c == a + (b + c)
  {
  }

  lemma Regroup5(a: seq<Byte>, b: seq<Byte>, c: seq<Byte>, d: seq<Byte>, e: seq<Byte>)
    ensures a + b + c + d + e == a + (b + (c + d + e))
  {
    Regroup3(a, b, c + d + e);
    Regroup3(a + b, c, d);
    Regroup3(a + b, c + d, e);
  }

  lemma {:induction false} TargetsReadBack(ts: seq<Word>, rest: seq<Byte>, word: Word, output: seq<Word>)
    requires forall i :: 0 <= i < |ts| ==> OneLine(ts[i])
    ensures Run(PrintTargets(ts) + [COLON] + rest, State(word, false, output)) == Run(rest, State([], true, output))
    decreases |ts|
  {
    if ts == [] {
      assert PrintTargets(ts) + [COLON] + rest == [COLON] + rest;
      SeparatorReadsBack(COLON, rest, State(word, false, output));
    } else {
      TargetsSplit(ts, rest);
      var st := State(word, false, output);
      if |ts| == 1 {
        WordReadsBack(ts[0], [COLON] + rest, st);
        SeparatorReadsBack(COLON, rest, State(word + ts[0], false, output));
      } else {
        var more := PrintTargets(ts[1..]) + [COLON] + rest;
        WordReadsBack(ts[0], [SPACE] + more, st);
        SeparatorReadsBack(SPACE, more, State(word + ts[0], false, output));
        TargetsReadBack(ts[1..], rest, [], output);
      }
    }
  }

  /** The parser's state after the prerequisites `ps`: all but the last are finished, the last is in hand. */
  function Holding(ps: seq<Word>, st: State): State {
    if ps == [] then st else Holding(ps[1..], st.Finish().(word := ps[0]))
  }

  lemma PrerequisitesSplit(ps: seq<Word>, rest: seq<Byte>)
    requires ps != []
    ensures PrintPrerequisites(ps) + rest == [SPACE] + (EscapeWord(ps[0], false) + (PrintPrerequisites(ps[1..]) + rest))
  {
  }

  lemma NextPrerequisite(ps: seq<Word>, rest: seq<Byte>)
    ensures if ps == [] then PrintPrerequisites(ps) + rest == rest else (PrintPrerequisites(ps) + rest)[0] == SPACE
  {
  }

  lemma {:induction false} PrerequisitesReadBack(ps: seq<Word>, rest: seq<Byte>, st: State)
    requires st.inPrerequisites && forall i :: 0 <= i < |ps| ==> OneLine(ps[i])
    requires ps != [] && EndsInCr(ps[|ps| - 1]) && rest != [] ==> rest[0] != LF
    ensures Run(PrintPrerequisites(ps) + rest, st) == Run(rest, Holding(ps, st))
    decreases |ps|
  {
    if ps == [] {
      assert PrintPrerequisites(ps) + rest == rest;
    } else {
      var more := PrintPrerequisites(ps[1..]) + rest;
      PrerequisitesSplit(ps, rest);
      NextPrerequisite(ps[1..], rest);
      SeparatorReadsBack(SPACE, EscapeWord(ps[0], false) + more, st);
      WordReadsBack(ps[0], more, st.Finish());
      FinishedWord(st, ps[0]);
      PrerequisitesReadBack(ps[1..], rest, st.Finish().(word := ps[0]));
    }
  }

  lemma FinishedWord(st: State, w: Word)
    ensures var f := st.Finish(); f.(word := f.word + w) == f.(word := w)
  {
    assert [] + w == w;
  }

  lemma {:induction false} HoldingFinishes(ps: seq<Word>, st: State)
    requires st.inPrerequisites && forall i :: 0 <= i < |ps| ==> ps[i] != []
    ensures Holding(ps, st).Finish() == State([], true, st.Finish().output + ps)
    decreases |ps|
  {
    if ps == [] {
      assert st.Finish().output + ps == st.Finish().output;
    } else {
      var next := st.Finish().(word := ps[0]);
      HoldingFinishes(ps[1..], next);
      assert st.Finish().output + [ps[0]] + ps[1..] == st.Finish().output + ps;
    }
  }

  lemma RuleSplits(rule: Rule, rest: seq<Byte>)
    ensures PrintRule(rule) + rest ==
            PrintTargets(rule.targets) + [COLON] + (PrintPrerequisites(rule.prerequisites) + ([LF] + rest))
  {
  }

  lemma RuleReadsBack(rule: Rule, rest: seq<Byte>, output: seq<Word>)
    requires Printable(rule)
    ensures Run(PrintRule(rule) + rest, State([], false, output)) ==
            Run(rest, State([], false, output + rule.prerequisites))
  {
    var ps, line := rule.prerequisites, [LF] + rest;
    RuleSplits(rule, rest);
    TargetsReadBack(rule.targets, PrintPrerequisites(ps) + line, [], output);
    PrerequisitesReadBack(ps, line, State([], true, output));
    SeparatorReadsBack(LF, rest, Holding(ps, State([], true, output)));
    HoldingFinishes(ps, State([], true, output));
  }

  lemma {:induction false} RulesReadBack(rules: seq<Rule>, output: seq<Word>)
    requires forall i :: 0 <= i < |rules| ==> Printable(rules[i])
    ensures Run(Print(rules), State([], false, output)) == State([], false, output + Prerequisites(rules))
    decreases |rules|
  {
    if rules == [] {
      assert output + Prerequisites(rules) == output;
    } else {
      RuleReadsBack(rules[0], Print(rules[1..]), output);
      RulesReadBack(rules[1..], output + rules[0].prerequisites);
      Regroup(output, rules);
    }
  }

  lemma Regroup(output: seq<Word>, rules: seq<Rule>)
    requires rules != []
    ensures output + rules[0].prerequisites + Prerequisites(rules[1..]) == output + Prerequisites(rules)
  {
  }

  /** Parsing what was printed gives back exactly the prerequisites, in order. */
  lemma RoundTrip(rules: seq<Rule>)
    requires forall i :: 0 <= i < |rules| ==> Printable(rules[i])
    ensures Parse(Print(rules)) == Prerequisites(rules)
  {
    RulesReadBack(rules, []);
    assert [] + Prerequisites(rules) == Prerequisites(rules);
  }

  // ----- what can be parsed at all

  predicate AllProper(words: seq<Word>) {
    forall i :: 0 <= i < |words| ==> words[i] != [] && OneLine(words[i])
  }

  lemma {:induction false} RunGivesProperWords(rest: seq<Byte>, st: State)
    requires AllProper(st.output) && OneLine(st.word)
    ensures AllProper(Run(rest, st).output) && OneLine(Run(rest, st).word)
    decreases |rest|
  {
    if rest != [] {
      RunGivesProperWords(rest[TokenLength(rest)..], Step(rest, st));
    }
  }

  /** The lists that some dep-info parses to are exactly those of non-empty words without line feeds. */
  lemma ParsesToExactly(words: seq<Word>)
    ensures (exists content :: Parse(content) == words) <==> AllProper(words)
  {
    if exists content :: Parse(content) == words {
      var content :| Parse(content) == words;
      RunGivesProperWords(content, START);
    }
    if AllProper(words) {
      var tail := PrintPrerequisites(words);
      TargetsReadBack([], tail, [], []);
      PrerequisitesReadBack(words, [], State([], true, []));
      HoldingFinishes(words, State([], true, []));
      assert tail + [] == tail;
      assert [] + [COLON] + tail == [COLON] + tail;
      assert Parse([COLON] + tail) == words;
    }
  }

  // ----- continuations

  /** Positions at which a token starts, and the end of the content. */
  predicate IsBoundary(content: seq<Byte>, i: nat)
    decreases |content|
  {
    i == 0 ||
    (content != [] && TokenLength(content) <= i
      && IsBoundary(content[TokenLength(content)..], i - TokenLength(content)))
  }

  predicate IsContinuation(c: seq<Byte>) {
    c == [BACKSLASH, LF] || c == [BACKSLASH, CR, LF]
  }

  function InsertAt(content: seq<Byte>, i: nat, c: seq<Byte>): seq<Byte>
    requires i <= |content|
  {
    content[..i] + c + content[i..]
  }

  lemma {:induction false} BoundaryInside(content: seq<Byte>, i: nat)
    requires IsBoundary(content, i)
    ensures i <= |content|
    decreases |content|
  {
    if i > 0 {
      BoundaryInside(content[TokenLength(content)..], i - TokenLength(content));
    }
  }

  lemma ContinuationIsNothing(c: seq<Byte>, rest: seq<Byte>, st: State)
    requires IsContinuation(c)
    ensures Run(c + rest, st) == Run(rest, st)
  {
    OneToken(c, rest, st);
  }

  lemma ContinuationFirst(content: seq<Byte>, c: seq<Byte>, st: State)
    requires IsContinuation(c)
    ensures Run(InsertAt(content, 0, c), st) == Run(content, st)
  {
    assert InsertAt(content, 0, c) == c + content;
    ContinuationIsNothing(c, content, st);
  }

  lemma {:induction false} LineLengthPrefix(line: seq<Byte>, rest: seq<Byte>)
    requires OneLine(line)
    ensures LineLength(line + rest) == |line| + LineLength(rest)
  {
    if line == [] {
      assert line + rest == rest;
    } else {
      assert (line + rest)[1..] == line[1..] + rest;
      LineLengthPrefix(line[1..], rest);
    }
  }

  /** After a comment, which runs to the end of its line, a continuation only makes that line longer. */
  lemma AfterComment(content: seq<Byte>, c: seq<Byte>, st: State)
    requires content != [] && content[0] == HASH && IsContinuation(c)
    ensures Run(InsertAt(content, TokenLength(content), c), st) == Run(content, st)
  {
    var n := TokenLength(content);
    var line, rest := content[..n] + c[..|c| - 1], [LF] + content[n..];
    assert InsertAt(content, n, c) == line + rest;
    LineLengthPrefix(line, rest);
    OneToken(line, rest, st);
    OneToken([LF], content[n..], Step(line + rest, st));
  }

  /** A lone backslash at the end stands for itself, with or without a continuation after it. */
  lemma AfterLoneBackslash(content: seq<Byte>, i: nat, c: seq<Byte>, st: State)
    requires content == [BACKSLASH] && i == 1 && IsContinuation(c)
    ensures Run(InsertAt(content, i, c), st).Finish().output == Run(content, st).Finish().output
  {
    assert InsertAt(content, i, c) == [BACKSLASH] + c;
    var pushed := st.Push(BACKSLASH);
    if c == [BACKSLASH, LF] {
      assert [BACKSLASH] + c == [BACKSLASH, BACKSLASH] + [LF];
      OneToken([BACKSLASH, BACKSLASH], [LF], st);
    } else {
      assert [BACKSLASH] + c == [BACKSLASH, BACKSLASH] + ([CR] + [LF]);
      OneToken([BACKSLASH, BACKSLASH], [CR] + [LF], st);
      OneToken([CR], [LF], pushed);
    }
  }

  /** Any other token is the same token when a continuation is inserted at its end or later. */
  lemma TokenUnchanged(content: seq<Byte>, i: nat, c: seq<Byte>, st: State)
    requires content != [] && IsContinuation(c) && TokenLength(content) <= i <= |content|
    requires content[0] == HASH ==> TokenLength(content) < i
    requires !(content == [BACKSLASH])
    ensures TokenLength(InsertAt(content, i, c)) == TokenLength(content)
    ensures Step(InsertAt(content, i, c), st) == Step(content, st)
  {
    if content[0] == HASH {
      var n := TokenLength(content);
      assert InsertAt(content, i, c) == content[..n] + InsertAt(content, i, c)[n..];
      LineLengthPrefix(content[..n], InsertAt(content, i, c)[n..]);
    }
  }

  lemma InsertLater(content: seq<Byte>, n: nat, i: nat, c: seq<Byte>)
    requires n <= i <= |content|
    ensures InsertAt(content, i, c)[n..] == InsertAt(content[n..], i - n, c)
  {
  }

  lemma RunsOn(content: seq<Byte>, i: nat, c: seq<Byte>, st: State)
    requires content != [] && IsContinuation(c) && TokenLength(content) <= i <= |content|
    requires content[0] == HASH ==> TokenLength(content) < i
    requires content != [BACKSLASH]
    ensures var n := TokenLength(content);
            Run(InsertAt(content, i, c), st) == Run(InsertAt(content[n..], i - n, c), Step(content, st))
  {
    TokenUnchanged(content, i, c, st);
    InsertLater(content, TokenLength(content), i, c);
  }

  lemma {:induction false} RunIgnoresContinuation(content: seq<Byte>, i: nat, c: seq<Byte>, st: State)
    requires IsBoundary(content, i) && i <= |content| && IsContinuation(c)
    ensures Run(InsertAt(content, i, c), st).Finish().output == Run(content, st).Finish().output
    decreases |content|
  {
    if i == 0 {
      ContinuationFirst(content, c, st);
    } else if content[0] == HASH && TokenLength(content) == i {
      AfterComment(content, c, st);
    } else if content == [BACKSLASH] {
      AfterLoneBackslash(content, i, c, st);
    } else {
      var n := TokenLength(content);
      RunsOn(content, i, c, st);
      RunIgnoresContinuation(content[n..], i - n, c, Step(content, st));
    }
  }

  /** A line continuation between any two tokens, or at either end, never changes what is parsed. */
  lemma ContinuationIsTransparent(content: seq<Byte>, i: nat, c: seq<Byte>)
    requires IsBoundary(content, i) && IsContinuation(c)
    ensures i <= |content| && Parse(InsertAt(content, i, c)) == Parse(content)
  {
    BoundaryInside(content, i);
    RunIgnoresContinuation(content, i, c, START);
  }
}
