/** Reading answers from standard input. */
module Input {
  import opened Text

  /** The line without carriage returns and line feeds. */
  function StripLineBreaks(line: string): (r: string)
    ensures '\r' !in r && '\n' !in r
    ensures ('\r' !in line && '\n' !in line) ==> r == line
  {
    RemoveCharKeeps(RemoveChar(line, '\r'), '\n', '\r');
    RemoveChar(RemoveChar(line, '\r'), '\n')
  }

  /** The answer `askForInput` makes of a raw line: no `\r`, no `\n`, and no white space at
      either end. */
  function Normalize(line: string): (r: string)
    ensures '\r' !in r && '\n' !in r
    ensures r != [] ==> !IsSpace(r[0]) && !IsSpace(r[|r| - 1])
  {
    TrimSpaceKeeps(StripLineBreaks(line));
    TrimSpace(StripLineBreaks(line))
  }

  /** The answer is a slice of the line with its line breaks taken out, the other
      characters in their order, with only white space cut from its ends. */
  lemma NormalizeKeepsOrder(line: string)
    ensures exists i, j :: 0 <= i <= j <= |StripLineBreaks(line)| && Normalize(line) == StripLineBreaks(line)[i..j]
                        && (forall k :: 0 <= k < i ==> IsSpace(StripLineBreaks(line)[k]))
                        && (forall k :: j <= k < |StripLineBreaks(line)| ==> IsSpace(StripLineBreaks(line)[k]))
  {
    TrimSpaceSlice(StripLineBreaks(line));
  }

  /** Normalising an answer again changes nothing. */
  lemma NormalizeIdempotent(line: string)
    ensures Normalize(Normalize(line)) == Normalize(line)
  {
    var r := Normalize(line);
    assert StripLineBreaks(r) == r;
    TrimSpaceNoop(r);
  }

  /** Standard input, as the lines still to come; each raw line keeps its terminator. */
  class Console {
    var lines: seq<string>

    constructor (lines: seq<string>)
      ensures this.lines == lines
    {
      this.lines := lines;
    }

    predicate Exhausted() reads this { lines == [] }

    /** `askForInput`: reads one line (at end of input, the empty answer) and normalises it. */
    method AskForInput() returns (answer: string)
      modifies this
      ensures old(lines) == [] ==> answer == "" && lines == []
      ensures old(lines) != [] ==> answer == Normalize(old(lines)[0]) && lines == old(lines)[1..]
    {
      if lines == [] {
        answer := "";
      } else {
        answer := Normalize(lines[0]);
        lines := lines[1..];
      }
    }
  }
}
