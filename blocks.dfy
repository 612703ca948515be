/** Journal text cut into entries, as `train_from_ledger.py`,
    `ledger2python.py` and `scripts/journal.py` each do it: blocks
    separated by a blank line, and the lines of a block without blank
    lines and `;` comments. */
module Blocks {
  import opened Text

  /** `journal.split('\n\n')`. */
  function BlockTexts(journal: string): seq<string> {
    Split(journal, "\n\n")
  }

  /** Joining the blocks with a blank line gives back the journal, and no
      block holds a blank line of its own. */
  lemma BlockTextsJoin(journal: string)
    ensures Join(BlockTexts(journal), "\n\n") == journal
    ensures forall i :: 0 <= i < |BlockTexts(journal)| ==> !Occurs(BlockTexts(journal)[i], "\n\n")
  {
    JoinSplit(journal, "\n\n");
    SplitPieces(journal, "\n\n");
    forall i | 0 <= i < |BlockTexts(journal)|
      ensures !Occurs(BlockTexts(journal)[i], "\n\n")
    {
      FindOccurs(BlockTexts(journal)[i], "\n\n");
    }
  }

  /** A line that survives cleaning: not empty and not a comment. */
  predicate KeepLine(line: string) {
    line != "" && !StartsWith(line, ";")
  }

  /** `[x for x in lines if x != '' and not x.startswith(';')]`. */
  function CleanLines(lines: seq<string>): (r: seq<string>)
    ensures |r| <= |lines|
    ensures forall i :: 0 <= i < |r| ==> KeepLine(r[i])
    ensures forall x :: x in r <==> x in lines && KeepLine(x)
  {
    if |lines| == 0 then []
    else (if KeepLine(lines[0]) then [lines[0]] else []) + CleanLines(lines[1..])
  }

  /** Cleaning works line by line: the kept lines stay in their order. */
  lemma {:induction false} CleanLinesAppend(a: seq<string>, b: seq<string>)
    ensures CleanLines(a + b) == CleanLines(a) + CleanLines(b)
  {
    if |a| > 0 {
      assert (a + b)[1..] == a[1..] + b;
      CleanLinesAppend(a[1..], b);
    } else {
      assert a + b == b;
    }
  }

  /** Cleaning twice is cleaning once. */
  lemma {:induction false} CleanLinesIdempotent(lines: seq<string>)
    ensures CleanLines(CleanLines(lines)) == CleanLines(lines)
  {
    if |lines| > 0 {
      var head := if KeepLine(lines[0]) then [lines[0]] else [];
      CleanLinesAppend(head, CleanLines(lines[1..]));
      CleanLinesIdempotent(lines[1..]);
      assert CleanLines(head) == head by {
        if KeepLine(lines[0]) {
          assert head[1..] == [];
        }
      }
    }
  }

  /** The cleaned lines of one block. */
  function CleanBlock(block: string): seq<string> {
    CleanLines(Split(block, "\n"))
  }
}
