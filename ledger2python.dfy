/** `pyledgertools/ledger2python.py`: a journal cut into blocks, each
    block cleaned of blank lines and comments and classified by the first
    character of its first remaining line. The four `process_*` handlers
    only announce themselves, so an entry is modelled as the kind of the
    block together with its cleaned lines. */
module Ledger2Python {
  import opened Wrappers
  import opened Text
  import opened Numbers
  import opened Blocks

  /** The kinds of journal entry the importer tells apart. */
  datatype Kind = TransactionEntry | CommodityPrice | BudgetEntry | AutomatedEntry

  /** A classified block: its kind and its cleaned lines. */
  datatype Entry = Entry(kind: Kind, lines: seq<string>)

  /** The tests applied to the first line, in order: a leading digit, `P`,
      `~`, then `=`. Any other line is no entry. */
  function Classify(first: string): Option<Kind> {
    if |first| > 0 && IsDigit(first[0]) then Some(TransactionEntry)
    else if StartsWith(first, "P") then Some(CommodityPrice)
    else if StartsWith(first, "~") then Some(BudgetEntry)
    else if StartsWith(first, "=") then Some(AutomatedEntry)
    else None
  }

  /** Each kind is chosen by exactly one leading character class. */
  lemma ClassifyByFirst(first: string)
    ensures Classify(first) == Some(TransactionEntry) <==> |first| > 0 && IsDigit(first[0])
    ensures Classify(first) == Some(CommodityPrice) <==> |first| > 0 && first[0] == 'P'
    ensures Classify(first) == Some(BudgetEntry) <==> |first| > 0 && first[0] == '~'
    ensures Classify(first) == Some(AutomatedEntry) <==> |first| > 0 && first[0] == '='
  {
    if |first| > 0 {
      assert StartsWith(first, "P") <==> first[0] == 'P' by {
        assert first[..1] == [first[0]];
      }
      assert StartsWith(first, "~") <==> first[0] == '~' by {
        assert first[..1] == [first[0]];
      }
      assert StartsWith(first, "=") <==> first[0] == '=' by {
        assert first[..1] == [first[0]];
      }
    }
  }

  /** What the loop of `import_journal` collects from the blocks: a block
      that is empty once cleaned raises IndexError when its first line is
      read; a block of no known kind adds nothing. */
  function ImportBlocks(blocks: seq<string>): Result<seq<Entry>, Exception> {
    if |blocks| == 0 then Success([])
    else
      var lines := CleanBlock(blocks[0]);
      if |lines| == 0 then Failure(IndexError)
      else
        Prepend(EntriesOf(lines), ImportBlocks(blocks[1..]))
  }

  /** The entry a cleaned block makes: one of its kind, or none. */
  function EntriesOf(lines: seq<string>): seq<Entry>
    requires |lines| > 0
  {
    match Classify(lines[0])
    case Some(k) => [Entry(k, lines)]
    case None => []
  }

  /** The loop's step: the outcome from block `idx` on, in terms of that
      block and the outcome from the next one. */
  lemma ImportBlocksStep(blocks: seq<string>, idx: int)
    requires 0 <= idx < |blocks|
    ensures var lines := CleanBlock(blocks[idx]);
      ImportBlocks(blocks[idx..]) ==
      if |lines| == 0 then Failure(IndexError) else Prepend(EntriesOf(lines), ImportBlocks(blocks[idx + 1..]))
  {
    assert blocks[idx..][1..] == blocks[idx + 1..];
  }

  /** `import_journal` as intended: the entries of the journal in block
      order. The cleaned lines are written back into the block list, as
      the source does. */
  method ImportJournal(journal: string) returns (r: Result<seq<Entry>, Exception>)
    ensures r == ImportBlocks(BlockTexts(journal))
  {
    var texts := BlockTexts(journal);
    var blocks := new seq<string>[|texts|];
    var entries: seq<Entry> := [];
    assert texts[0..] == texts;
    PrependEmpty(ImportBlocks(texts));
    for idx := 0 to |texts|
      invariant ImportBlocks(texts) == Prepend(entries, ImportBlocks(texts[idx..]))
      invariant forall k :: 0 <= k < idx ==> blocks[k] == CleanBlock(texts[k])
    {
      ImportBlocksStep(texts, idx);
      blocks[idx] := CleanBlock(texts[idx]);
      if |blocks[idx]| == 0 {
        return Failure(IndexError);
      }
      var head := EntriesOf(blocks[idx]);
      PrependTwice(entries, head, ImportBlocks(texts[idx + 1..]));
      entries := entries + head;
    }
    assert entries + [] == entries;
    return Success(entries);
  }

  /** `import_journal` as written: it has no return statement, so all a
      caller gets is None, or the IndexError of an empty block. */
  method ImportJournalAsWritten(journal: string) returns (r: Outcome<Exception>)
    ensures r == Pass <==> ImportBlocks(BlockTexts(journal)).Success?
    ensures r.Fail? ==> r.error == IndexError
  {
    var entries := ImportJournal(journal);
    ImportBlocksError(BlockTexts(journal));
    r := if entries.Failure? then Fail(entries.error) else Pass;
  }

  /** Importing fails exactly when some block is empty once cleaned, and
      then with IndexError. */
  lemma {:induction false} ImportBlocksError(blocks: seq<string>)
    ensures ImportBlocks(blocks).Success? <==> forall i :: 0 <= i < |blocks| ==> |CleanBlock(blocks[i])| > 0
    ensures ImportBlocks(blocks).Failure? ==> ImportBlocks(blocks).error == IndexError
  {
    if |blocks| > 0 {
      ImportBlocksError(blocks[1..]);
      assert forall i :: 1 <= i < |blocks| ==> blocks[i] == blocks[1..][i - 1];
    }
  }

  /** Every entry holds the cleaned lines of a block, starting with the
      line its kind was read from. */
  lemma {:induction false} ImportBlocksEntries(blocks: seq<string>)
    requires ImportBlocks(blocks).Success?
    ensures |ImportBlocks(blocks).value| <= |blocks|
    ensures forall e :: e in ImportBlocks(blocks).value ==>
      |e.lines| > 0 && Classify(e.lines[0]) == Some(e.kind) &&
      (forall line :: line in e.lines ==> KeepLine(line)) &&
      exists i :: 0 <= i < |blocks| && e.lines == CleanBlock(blocks[i])
  {
    if |blocks| > 0 {
      ImportBlocksEntries(blocks[1..]);
      assert forall i :: 1 <= i < |blocks| ==> blocks[i] == blocks[1..][i - 1];
    }
  }

  /** Blocks are imported one after another: the entries of a journal are
      those of its first blocks followed by those of the rest. */
  lemma {:induction false} ImportBlocksAppend(a: seq<string>, b: seq<string>)
    requires ImportBlocks(a).Success?
    ensures ImportBlocks(a + b) == Prepend(ImportBlocks(a).value, ImportBlocks(b))
  {
    if |a| == 0 {
      assert a + b == b;
      PrependEmpty(ImportBlocks(b));
    } else {
      assert (a + b)[1..] == a[1..] + b;
      assert (a + b)[0] == a[0];
      var head := EntriesOf(CleanBlock(a[0]));
      ImportBlocksAppend(a[1..], b);
      PrependTwice(head, ImportBlocks(a[1..]).value, ImportBlocks(b));
    }
  }
}
