/** Cargo's Makefile-style dep-info: the parser of its prerequisites, and the printer it undoes. */
module DepInfo {
  import opened Bytes

  type Word = seq<Byte>

  const TAB: Byte := 9
  const LF: Byte := 10
  const CR: Byte := 13
  const SPACE: Byte := 32
  const HASH: Byte := 35
  const DOLLAR: Byte := 36
  const COLON: Byte := 58
  const BACKSLASH: Byte := 92

  /** The parser between two tokens. */
  datatype State = State(word: Word, inPrerequisites: bool, output: seq<Word>) {
    function Push(b: Byte): State {
      this.(word := word + [b])
    }

    function Finish(): State {
      this.(word := [], output := if inPrerequisites && word != [] then output + [word] else output)
    }
  }

  const START := State([], false, [])

  /** Bytes up to the next line feed, which a comment does not consume. */
  function LineLength(rest: seq<Byte>): (n: nat)
    ensures n <= |rest| && (n < |rest| ==> rest[n] == LF) && forall i :: 0 <= i < n ==> rest[i] != LF
  {
    if rest == [] || rest[0] == LF then 0 else 1 + LineLength(rest[1..])
  }

  function TokenLength(rest: seq<Byte>): (n: nat)
    requires rest != []
    ensures 0 < n <= |rest|
  {
    if rest[0] == BACKSLASH then
      if |rest| == 1 then 1
      else if rest[1] == CR && |rest| > 2 && rest[2] == LF then 3
      else 2
    else if rest[0] == DOLLAR && |rest| > 1 && rest[1] == DOLLAR then 2
    else if rest[0] == HASH then LineLength(rest)
    else 1
  }

  /** What the token at the head of `rest` does. */
  function Step(rest: seq<Byte>, st: State): State
    requires rest != []
  {
    var b := rest[0];
    if b == BACKSLASH then
      if |rest| == 1 then st.Push(BACKSLASH)
      else if rest[1] == LF || TokenLength(rest) == 3 then st
      else st.Push(rest[1])
    else if b == DOLLAR then st.Push(DOLLAR)
    else if b == COLON && !st.inPrerequisites then st.(word := [], inPrerequisites := true)
    else if b == SPACE || b == TAB || b == CR then st.Finish()
    else if b == LF || b == HASH then st.Finish().(inPrerequisites := false)
    else st.Push(b)
  }

  function Run(rest: seq<Byte>, st: State): State
    decreases |rest|
  {
    if rest == [] then st else Run(rest[TokenLength(rest)..], Step(rest, st))
  }

  function Parse(content: seq<Byte>): seq<Word> {
    Run(content, START).Finish().output
  }

  /** `parse_dep_info_prerequisites`. */
  method ParseDepInfoPrerequisites(content: seq<Byte>) returns (prerequisites: seq<Word>)
    ensures prerequisites == Parse(content)
  {
    prerequisites := [];
    var word: Word, inPrerequisites, index := [], false, 0;
    while index < |content|
      invariant 0 <= index <= |content|
      invariant Run(content[index..], State(word, inPrerequisites, prerequisites)) == Run(content, START)
      decreases |content| - index
    {
      ghost var rest, st, from := content[index..], State(word, inPrerequisites, prerequisites), index;
      if content[index] == BACKSLASH {
        if index + 1 >= |content| {
          word := word + [BACKSLASH];
          index := index + 1;
        } else if content[index + 1] == LF {
          index := index + 2;
        } else if content[index + 1] == CR && index + 2 < |content| && content[index + 2] == LF {
          index := index + 3;
        } else {
          word := word + [content[index + 1]];
          index := index + 2;
        }
      } else if content[index] == DOLLAR && index + 1 < |content| && content[index + 1] == DOLLAR {
        word := word + [DOLLAR];
        index := index + 2;
      } else if content[index] == COLON && !inPrerequisites {
        word := [];
        inPrerequisites := true;
        index := index + 1;
      } else if content[index] == SPACE || content[index] == TAB || content[index] == CR || content[index] == LF {
        word, prerequisites := FinishWord(word, inPrerequisites, prerequisites);
        if content[index] == LF {
          inPrerequisites := false;
        }
        index := index + 1;
      } else if content[index] == HASH {
        word, prerequisites := FinishWord(word, inPrerequisites, prerequisites);
        inPrerequisites := false;
        index := SkipLine(content, index);
      } else {
        word := word + [content[index]];
        index := index + 1;
      }
      assert index == from + TokenLength(rest);
      assert rest[TokenLength(rest)..] == content[index..];
      assert State(word, inPrerequisites, prerequisites) == Step(rest, st);
    }
    word, prerequisites := FinishWord(word, inPrerequisites, prerequisites);
  }

  /** The inner loop, which runs over a comment to the end of its line. */
  method SkipLine(content: seq<Byte>, from: nat) returns (index: nat)
    requires from <= |content|
    ensures index == from + LineLength(content[from..]) && index <= |content|
  {
    index := from;
    while index < |content| && content[index] != LF
      invariant from <= index <= |content|
      invariant index - from + LineLength(content[index..]) == LineLength(content[from..])
    {
      assert content[index..][1..] == content[index + 1..];
      index := index + 1;
    }
  }

  method FinishWord(word: Word, inPrerequisites: bool, output: seq<Word>) returns (word': Word, output': seq<Word>)
    ensures var done := State(word, inPrerequisites, output).Finish(); word' == done.word && output' == done.output
  {
    output' := output;
    if inPrerequisites && |word| != 0 {
      output' := output' + [word];
    }
    word' := [];
  }
}
