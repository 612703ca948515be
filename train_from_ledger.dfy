/** `pyledgertools/train_from_ledger.py`: training samples read from the
    postings of a journal, grouped by account, each group with the
    greatest common divisor of its amounts. The two regular expressions
    are parameters: `header` gives the payee `TRANS_REGEX` finds in the
    first line of a block, `allocs` every match of `ALLOC_REGEX` in the
    rest of the block. */
module TrainFromLedger {
  import opened Wrappers
  import opened Text
  import opened Numbers
  import opened Functions
  import opened Blocks

  /** One match of `ALLOC_REGEX`: account, commodity and amount text. */
  datatype AllocMatch = AllocMatch(account: string, commodity: string, amount: string)

  /** `[payee, account, commodity, amount]`. */
  datatype Sample = Sample(payee: string, account: string, commodity: string, amount: real)

  /** `[account, samples, divisor]`. */
  datatype Group = Group(account: string, samples: seq<Sample>, divisor: real)

  /** The payee in force after the first line of a block: the one the
      header names, or else the one from an earlier block. */
  function NextPayee(first: string, payee: Option<string>, header: string -> Option<string>): Option<string> {
    if header(first).Some? then header(first) else payee
  }

  /** What one block adds, given the payee in force after its header:
      nothing without an allocation match; otherwise the last match, its
      amount read by `float` (ValueError when it is no number) and its
      account stripped, under the payee (UnboundLocalError when no header
      has named one yet). */
  function BlockSample(rest: seq<string>, payee: Option<string>, allocs: string -> seq<AllocMatch>): Result<seq<Sample>, Exception> {
    var found := allocs(Join(rest, " "));
    if |found| == 0 then Success([])
    else
      var last := found[|found| - 1];
      match ParseNumber(last.amount)
      case None => Failure(ValueError(last.amount))
      case Some(v) =>
        if payee.None? then Failure(UnboundLocalError("payee"))
        else Success([Sample(payee.value, Strip(last.account), last.commodity, v)])
  }

  /** The samples of the loop of `train_journal`, from a payee in force
      before the first block. Blocks empty once cleaned are skipped. */
  function TrainBlocks(blocks: seq<string>, payee: Option<string>,
                       header: string -> Option<string>, allocs: string -> seq<AllocMatch>): Result<seq<Sample>, Exception>
  {
    if |blocks| == 0 then Success([])
    else
      var tran := CleanBlock(blocks[0]);
      if |tran| == 0 then TrainBlocks(blocks[1..], payee, header, allocs)
      else
        var next := NextPayee(tran[0], payee, header);
        match BlockSample(tran[1..], next, allocs)
        case Failure(e) => Failure(e)
        case Success(s) => Prepend(s, TrainBlocks(blocks[1..], next, header, allocs))
  }

  /** The loop of `train_journal`, building the training data. */
  method CollectSamples(journal: string, header: string -> Option<string>, allocs: string -> seq<AllocMatch>)
    returns (r: Result<seq<Sample>, Exception>)
    ensures r == TrainBlocks(BlockTexts(journal), None, header, allocs)
  {
    var blocks := BlockTexts(journal);
    var data: seq<Sample> := [];
    var payee: Option<string> := None;
    assert blocks[0..] == blocks;
    PrependEmpty(TrainBlocks(blocks, None, header, allocs));
    for i := 0 to |blocks|
      invariant TrainBlocks(blocks, None, header, allocs) == Prepend(data, TrainBlocks(blocks[i..], payee, header, allocs))
    {
      var error;
      data, payee, error := VisitBlock(blocks, i, data, payee, header, allocs);
      if error.Some? {
        return Failure(error.value);
      }
    }
    assert data + [] == data;
    return Success(data);
  }

  /** One pass of the loop: the block's lines cleaned, the payee its
      header names taken up, and its sample added, or the error that ends
      the loop. */
  method VisitBlock(blocks: seq<string>, i: int, data: seq<Sample>, payee: Option<string>,
                    header: string -> Option<string>, allocs: string -> seq<AllocMatch>)
    returns (data': seq<Sample>, payee': Option<string>, error: Option<Exception>)
    requires 0 <= i < |blocks|
    ensures error.None? ==>
      Prepend(data, TrainBlocks(blocks[i..], payee, header, allocs)) ==
      Prepend(data', TrainBlocks(blocks[i + 1..], payee', header, allocs))
    ensures error.Some? ==> Prepend(data, TrainBlocks(blocks[i..], payee, header, allocs)) == Failure(error.value)
  {
    TrainBlocksStep(blocks, i, payee, header, allocs);
    data', payee', error := data, payee, None;
    var tran := CleanBlock(blocks[i]);
    if |tran| > 0 {
      payee' := NextPayee(tran[0], payee, header);
      var here := BlockSample(tran[1..], payee', allocs);
      if here.Failure? {
        return data, payee, Some(here.error);
      }
      PrependTwice(data, here.value, TrainBlocks(blocks[i + 1..], payee', header, allocs));
      data' := data + here.value;
    }
  }

  /** The loop's step: the outcome from block `i` on, in terms of that
      block and the outcome from the next one. */
  lemma TrainBlocksStep(blocks: seq<string>, i: int, payee: Option<string>,
                        header: string -> Option<string>, allocs: string -> seq<AllocMatch>)
    requires 0 <= i < |blocks|
    ensures var tran := CleanBlock(blocks[i]);
      TrainBlocks(blocks[i..], payee, header, allocs) ==
      if |tran| == 0 then TrainBlocks(blocks[i + 1..], payee, header, allocs)
      else
        var next := NextPayee(tran[0], payee, header);
        var here := BlockSample(tran[1..], next, allocs);
        if here.Failure? then Failure(here.error)
        else Prepend(here.value, TrainBlocks(blocks[i + 1..], next, header, allocs))
  {
    assert blocks[i..][1..] == blocks[i + 1..];
  }

  /** The payee in force after one block: its header may name a new one;
      a block empty once cleaned changes nothing. */
  function BlockPayee(block: string, payee: Option<string>, header: string -> Option<string>): Option<string> {
    var tran := CleanBlock(block);
    if |tran| == 0 then payee else NextPayee(tran[0], payee, header)
  }

  /** The payee in force after some blocks. */
  function PayeeAfter(blocks: seq<string>, payee: Option<string>, header: string -> Option<string>): Option<string> {
    if |blocks| == 0 then payee else PayeeAfter(blocks[1..], BlockPayee(blocks[0], payee, header), header)
  }

  /** Some non-empty block leaves `name` as the payee in force after its
      header. */
  ghost predicate InForceAt(blocks: seq<string>, payee: Option<string>, header: string -> Option<string>, name: string) {
    exists i :: 0 <= i < |blocks| && |CleanBlock(blocks[i])| > 0 && PayeeAfter(blocks[..i + 1], payee, header) == Some(name)
  }

  lemma InForceAtTail(blocks: seq<string>, payee: Option<string>, header: string -> Option<string>, name: string)
    requires |blocks| > 0 && InForceAt(blocks[1..], BlockPayee(blocks[0], payee, header), header, name)
    ensures InForceAt(blocks, payee, header, name)
  {
    var j :| 0 <= j < |blocks[1..]| && |CleanBlock(blocks[1..][j])| > 0 &&
      PayeeAfter(blocks[1..][..j + 1], BlockPayee(blocks[0], payee, header), header) == Some(name);
    PayeeAfterCons(blocks, j + 2, payee, header);
    assert blocks[1..][j] == blocks[j + 1];
  }

  /** Reading the first `k` blocks is reading the first one, then the
      next `k - 1`. */
  lemma PayeeAfterCons(blocks: seq<string>, k: int, payee: Option<string>, header: string -> Option<string>)
    requires 0 < k <= |blocks|
    ensures PayeeAfter(blocks[..k], payee, header) == PayeeAfter(blocks[1..][..k - 1], BlockPayee(blocks[0], payee, header), header)
  {
    assert blocks[..k][0] == blocks[0] && blocks[..k][1..] == blocks[1..][..k - 1];
  }

  lemma InForceAtHead(blocks: seq<string>, payee: Option<string>, header: string -> Option<string>, name: string)
    requires |blocks| > 0 && |CleanBlock(blocks[0])| > 0 && BlockPayee(blocks[0], payee, header) == Some(name)
    ensures InForceAt(blocks, payee, header, name)
  {
    var first := blocks[..1];
    assert first[0] == blocks[0] && first[1..] == [];
    assert PayeeAfter(first, payee, header) == Some(name);
  }

  /** At most one sample per block, and each sample's payee is one that
      some non-empty block leaves in force. Which block it is, is said by
      `TrainBlocksAt`. */
  lemma {:induction false} TrainBlocksPayees(blocks: seq<string>, payee: Option<string>,
                                             header: string -> Option<string>, allocs: string -> seq<AllocMatch>)
    requires TrainBlocks(blocks, payee, header, allocs).Success?
    ensures var samples := TrainBlocks(blocks, payee, header, allocs).value;
      |samples| <= |blocks| && forall x :: x in samples ==> InForceAt(blocks, payee, header, x.payee)
  {
    if |blocks| > 0 {
      var tran := CleanBlock(blocks[0]);
      var next := BlockPayee(blocks[0], payee, header);
      var samples := TrainBlocks(blocks, payee, header, allocs).value;
      var rest := TrainBlocks(blocks[1..], next, header, allocs);
      TrainBlocksPayees(blocks[1..], next, header, allocs);
      forall x | x in rest.value
        ensures InForceAt(blocks, payee, header, x.payee)
      {
        InForceAtTail(blocks, payee, header, x.payee);
      }
      if |tran| > 0 {
        var here := BlockSample(tran[1..], next, allocs);
        BlockSamplePayee(tran[1..], next, allocs);
        assert samples == here.value + rest.value;
        forall x | x in here.value
          ensures InForceAt(blocks, payee, header, x.payee)
        {
          InForceAtHead(blocks, payee, header, x.payee);
        }
      }
    }
  }

  /** The payee in force after one more block is that block's effect on
      the payee in force before it. */
  lemma {:induction false} PayeeAfterSnoc(blocks: seq<string>, block: string, payee: Option<string>, header: string -> Option<string>)
    ensures PayeeAfter(blocks + [block], payee, header) == BlockPayee(block, PayeeAfter(blocks, payee, header), header)
  {
    if |blocks| == 0 {
      assert blocks + [block] == [block];
      assert [block][1..] == [];
    } else {
      assert (blocks + [block])[1..] == blocks[1..] + [block];
      PayeeAfterSnoc(blocks[1..], block, BlockPayee(blocks[0], payee, header), header);
    }
  }

  lemma SeqAssoc<T>(a: seq<T>, b: seq<T>, c: seq<T>)
    ensures a + (b + c) == a + b + c
  {
  }

  lemma PayeeAfterNext(blocks: seq<string>, i: int, payee: Option<string>, header: string -> Option<string>)
    requires 0 <= i < |blocks|
    ensures PayeeAfter(blocks[..i + 1], payee, header) == BlockPayee(blocks[i], PayeeAfter(blocks[..i], payee, header), header)
  {
    assert blocks[..i + 1] == blocks[..i] + [blocks[i]];
    PayeeAfterSnoc(blocks[..i], blocks[i], payee, header);
  }

  /** The blocks are visited one after another: an error in the first
      blocks ends the loop there; otherwise their samples come first and
      the rest of the journal is read under the payee they leave in
      force. */
  lemma {:induction false} TrainBlocksAppend(a: seq<string>, b: seq<string>, payee: Option<string>,
                                             header: string -> Option<string>, allocs: string -> seq<AllocMatch>)
    ensures TrainBlocks(a, payee, header, allocs).Failure? ==>
      TrainBlocks(a + b, payee, header, allocs) == TrainBlocks(a, payee, header, allocs)
    ensures TrainBlocks(a, payee, header, allocs).Success? ==>
      TrainBlocks(a + b, payee, header, allocs) ==
      Prepend(TrainBlocks(a, payee, header, allocs).value, TrainBlocks(b, PayeeAfter(a, payee, header), header, allocs))
  {
    if |a| == 0 {
      assert a + b == b;
      PrependEmpty(TrainBlocks(b, payee, header, allocs));
    } else {
      assert (a + b)[0] == a[0] && (a + b)[1..] == a[1..] + b;
      var tran := CleanBlock(a[0]);
      var next := BlockPayee(a[0], payee, header);
      TrainBlocksAppend(a[1..], b, next, header, allocs);
      if |tran| > 0 {
        var here := BlockSample(tran[1..], next, allocs);
        if here.Success? {
          var restA := TrainBlocks(a[1..], next, header, allocs);
          if restA.Success? {
            PrependTwice(here.value, restA.value, TrainBlocks(b, PayeeAfter(a[1..], next, header), header, allocs));
          }
        }
      }
    }
  }

  /** What one block adds to the samples, given the payee in force after
      its header: nothing when it is empty once cleaned, otherwise the
      sample of its last allocation match. */
  function BlockContribution(block: string, inForce: Option<string>, allocs: string -> seq<AllocMatch>): Result<seq<Sample>, Exception> {
    var tran := CleanBlock(block);
    if |tran| == 0 then Success([]) else BlockSample(tran[1..], inForce, allocs)
  }

  /** Block `i` adds its contribution under the payee in force after its
      header, and the blocks after it are read under that payee. */
  lemma TrainBlocksHead(blocks: seq<string>, i: int, payee: Option<string>,
                        header: string -> Option<string>, allocs: string -> seq<AllocMatch>)
    requires 0 <= i < |blocks| && TrainBlocks(blocks[i..], payee, header, allocs).Success?
    ensures var inForce := BlockPayee(blocks[i], payee, header);
      var here := BlockContribution(blocks[i], inForce, allocs);
      var after := TrainBlocks(blocks[i + 1..], inForce, header, allocs);
      here.Success? && after.Success? &&
      TrainBlocks(blocks[i..], payee, header, allocs).value == here.value + after.value
  {
    assert blocks[i..][0] == blocks[i] && blocks[i..][1..] == blocks[i + 1..];
    if |CleanBlock(blocks[i])| == 0 {
      assert [] + TrainBlocks(blocks[i + 1..], payee, header, allocs).value == TrainBlocks(blocks[i + 1..], payee, header, allocs).value;
    }
  }

  /** A block adds at most one sample, under the payee in force after its
      header. */
  lemma ContributionPayee(block: string, inForce: Option<string>, allocs: string -> seq<AllocMatch>)
    requires BlockContribution(block, inForce, allocs).Success?
    ensures |BlockContribution(block, inForce, allocs).value| <= 1
    ensures forall x :: x in BlockContribution(block, inForce, allocs).value ==> inForce == Some(x.payee)
  {
    var tran := CleanBlock(block);
    if |tran| > 0 {
      BlockSamplePayee(tran[1..], inForce, allocs);
    }
  }

  /** A successful read of the journal, cut before block `i`: the blocks
      before it succeed, and the rest is read under the payee they leave
      in force. */
  lemma TrainBlocksSplit(blocks: seq<string>, i: int, payee: Option<string>,
                         header: string -> Option<string>, allocs: string -> seq<AllocMatch>)
    requires 0 <= i <= |blocks| && TrainBlocks(blocks, payee, header, allocs).Success?
    ensures var prior := TrainBlocks(blocks[..i], payee, header, allocs);
      var later := TrainBlocks(blocks[i..], PayeeAfter(blocks[..i], payee, header), header, allocs);
      prior.Success? && later.Success? &&
      TrainBlocks(blocks, payee, header, allocs).value == prior.value + later.value
  {
    assert blocks == blocks[..i] + blocks[i..];
    TrainBlocksAppend(blocks[..i], blocks[i..], payee, header, allocs);
  }

  /** The samples of a journal, cut at any block: those of the blocks
      before it, then the at most one sample block `i` adds, carrying the
      payee in force after block `i`'s own header, then those of the
      blocks after it, read under that payee. */
  lemma TrainBlocksAt(blocks: seq<string>, i: int, payee: Option<string>,
                      header: string -> Option<string>, allocs: string -> seq<AllocMatch>)
    requires 0 <= i < |blocks| && TrainBlocks(blocks, payee, header, allocs).Success?
    ensures var inForce := PayeeAfter(blocks[..i + 1], payee, header);
      var here := BlockContribution(blocks[i], inForce, allocs);
      TrainBlocks(blocks[..i], payee, header, allocs).Success? &&
      here.Success? && |here.value| <= 1 &&
      (forall x :: x in here.value ==> inForce == Some(x.payee)) &&
      TrainBlocks(blocks[i + 1..], inForce, header, allocs).Success? &&
      TrainBlocks(blocks, payee, header, allocs).value ==
        TrainBlocks(blocks[..i], payee, header, allocs).value + here.value +
        TrainBlocks(blocks[i + 1..], inForce, header, allocs).value
  {
    var p := PayeeAfter(blocks[..i], payee, header);
    var inForce := PayeeAfter(blocks[..i + 1], payee, header);
    var prior := TrainBlocks(blocks[..i], payee, header, allocs);
    var later := TrainBlocks(blocks[i..], p, header, allocs);
    var here := BlockContribution(blocks[i], inForce, allocs);
    var after := TrainBlocks(blocks[i + 1..], inForce, header, allocs);
    assert prior.Success? && later.Success? && TrainBlocks(blocks, payee, header, allocs).value == prior.value + later.value by {
      TrainBlocksSplit(blocks, i, payee, header, allocs);
    }
    assert inForce == BlockPayee(blocks[i], p, header) by {
      PayeeAfterNext(blocks, i, payee, header);
    }
    assert here.Success? && after.Success? && later.value == here.value + after.value by {
      TrainBlocksHead(blocks, i, p, header, allocs);
    }
    assert |here.value| <= 1 && forall x :: x in here.value ==> inForce == Some(x.payee) by {
      ContributionPayee(blocks[i], inForce, allocs);
    }
    SeqAssoc(prior.value, here.value, after.value);
  }

  /** The payee in force after some blocks is the one in force before
      them, or one a header among them names. */
  lemma {:induction false} PayeeAfterNamed(blocks: seq<string>, payee: Option<string>, header: string -> Option<string>, name: string)
    requires PayeeAfter(blocks, payee, header) == Some(name)
    ensures payee == Some(name) || HeaderNames(blocks, name, header)
  {
    if |blocks| > 0 {
      var next := BlockPayee(blocks[0], payee, header);
      PayeeAfterNamed(blocks[1..], next, header, name);
      HeaderNamesTail(blocks, header);
    }
  }

  /** The sample of a block carries the payee in force. */
  lemma BlockSamplePayee(rest: seq<string>, payee: Option<string>, allocs: string -> seq<AllocMatch>)
    requires BlockSample(rest, payee, allocs).Success?
    ensures |BlockSample(rest, payee, allocs).value| <= 1
    ensures forall x :: x in BlockSample(rest, payee, allocs).value ==> payee == Some(x.payee)
  {
  }

  /** Some block's first cleaned line names `name` as its payee. */
  ghost predicate HeaderNames(blocks: seq<string>, name: string, header: string -> Option<string>) {
    exists i :: 0 <= i < |blocks| && |CleanBlock(blocks[i])| > 0 && header(CleanBlock(blocks[i])[0]) == Some(name)
  }

  lemma HeaderNamesTail(blocks: seq<string>, header: string -> Option<string>)
    requires |blocks| > 0
    ensures forall name :: HeaderNames(blocks[1..], name, header) ==> HeaderNames(blocks, name, header)
  {
    forall name | HeaderNames(blocks[1..], name, header)
      ensures HeaderNames(blocks, name, header)
    {
      var i :| 0 <= i < |blocks[1..]| && |CleanBlock(blocks[1..][i])| > 0 && header(CleanBlock(blocks[1..][i])[0]) == Some(name);
      assert blocks[1..][i] == blocks[i + 1];
    }
  }

  /** Without any header naming a payee, the first posting found raises
      UnboundLocalError, unless its amount is no number. */
  lemma {:induction false} NoPayeeNoSamples(blocks: seq<string>, header: string -> Option<string>, allocs: string -> seq<AllocMatch>)
    requires forall x :: header(x).None?
    ensures TrainBlocks(blocks, None, header, allocs).Success? ==> TrainBlocks(blocks, None, header, allocs).value == []
    ensures TrainBlocks(blocks, None, header, allocs).Failure? ==>
      TrainBlocks(blocks, None, header, allocs).error.ValueError? ||
      TrainBlocks(blocks, None, header, allocs).error == UnboundLocalError("payee")
  {
    if |blocks| > 0 {
      NoPayeeNoSamples(blocks[1..], header, allocs);
      var tran := CleanBlock(blocks[0]);
      if |tran| > 0 {
        assert NextPayee(tran[0], None, header) == None;
        var here := BlockSample(tran[1..], None, allocs);
        BlockSampleNoPayee(tran[1..], allocs);
        if here.Success? {
          PrependEmpty(TrainBlocks(blocks[1..], None, header, allocs));
        }
      }
    }
  }

  lemma BlockSampleNoPayee(rest: seq<string>, allocs: string -> seq<AllocMatch>)
    ensures BlockSample(rest, None, allocs).Success? ==> BlockSample(rest, None, allocs).value == []
    ensures BlockSample(rest, None, allocs).Failure? ==>
      BlockSample(rest, None, allocs).error.ValueError? ||
      BlockSample(rest, None, allocs).error == UnboundLocalError("payee")
  {
  }

  /** `itemgetter(1)`: two samples in account order. */
  predicate AccountLe(a: Sample, b: Sample) {
    LexLe(a.account, b.account)
  }

  /** Samples in ascending account order. */
  predicate SortedByAccount(s: seq<Sample>) {
    forall i, j :: 0 <= i < j < |s| ==> AccountLe(s[i], s[j])
  }

  /** The samples of one account, in their order. */
  function Filter(s: seq<Sample>, account: string): (r: seq<Sample>)
    ensures |r| <= |s|
  {
    if |s| == 0 then [] else Keep(s[0], account) + Filter(s[1..], account)
  }

  /** A sample on its own if it is of the account, else nothing. */
  function Keep(x: Sample, account: string): seq<Sample> {
    if x.account == account then [x] else []
  }

  /** `e` placed before the first sample whose account is not below its
      own, so that it stays ahead of the samples of its account. */
  function InsertSample(e: Sample, s: seq<Sample>): (r: seq<Sample>)
    ensures |r| == |s| + 1
  {
    if |s| == 0 || AccountLe(e, s[0]) then [e] + s
    else [s[0]] + InsertSample(e, s[1..])
  }

  /** `sorted(training_data, key=itemgetter(1))`, the stable sort by
      account, as insertion of each sample in front of the sorted rest. */
  function SortSamples(s: seq<Sample>): (r: seq<Sample>)
    ensures |r| == |s|
  {
    if |s| == 0 then [] else InsertSample(s[0], SortSamples(s[1..]))
  }

  lemma {:induction false} InsertSamplePerm(e: Sample, s: seq<Sample>)
    ensures multiset(InsertSample(e, s)) == multiset(s) + multiset{e}
  {
    if |s| > 0 && !AccountLe(e, s[0]) {
      InsertSamplePerm(e, s[1..]);
      assert s == [s[0]] + s[1..];
    }
  }

  /** The sort keeps the same samples. */
  lemma {:induction false} SortSamplesPerm(s: seq<Sample>)
    ensures multiset(SortSamples(s)) == multiset(s)
  {
    if |s| > 0 {
      SortSamplesPerm(s[1..]);
      InsertSamplePerm(s[0], SortSamples(s[1..]));
      assert s == [s[0]] + s[1..];
    }
  }

  lemma {:induction false} InsertSampleSorted(e: Sample, s: seq<Sample>)
    requires SortedByAccount(s)
    ensures SortedByAccount(InsertSample(e, s))
  {
    if |s| > 0 && !AccountLe(e, s[0]) {
      InsertSampleSorted(e, s[1..]);
      var r := InsertSample(e, s[1..]);
      LexLeTotal(e.account, s[0].account);
      forall j | 0 <= j < |r|
        ensures AccountLe(s[0], r[j])
      {
        InsertSamplePerm(e, s[1..]);
        assert r[j] in multiset(s[1..]) + multiset{e};
        if r[j] != e {
          assert r[j] in s[1..];
        }
      }
    } else if |s| > 0 {
      forall j | 0 <= j < |s|
        ensures AccountLe(e, s[j])
      {
        if j > 0 {
          LexLeTransitive(e.account, s[0].account, s[j].account);
        }
      }
    }
  }

  /** Inserting leaves the samples of every account in their order, the
      new one ahead of the others of its account. */
  lemma {:induction false} InsertSampleFilter(e: Sample, s: seq<Sample>, account: string)
    ensures Filter(InsertSample(e, s), account) == Keep(e, account) + Filter(s, account)
  {
    if |s| == 0 || AccountLe(e, s[0]) {
      assert ([e] + s)[0] == e && ([e] + s)[1..] == s;
    } else {
      InsertSampleFilter(e, s[1..], account);
      var r := InsertSample(e, s[1..]);
      var f := Filter(s[1..], account);
      assert ([s[0]] + r)[0] == s[0] && ([s[0]] + r)[1..] == r;
      assert Filter(InsertSample(e, s), account) == Keep(s[0], account) + (Keep(e, account) + f);
      assert Filter(s, account) == Keep(s[0], account) + f;
      if e.account == account {
        LexLeReflexive(e.account);
      }
      KeepSwap(s[0], e, f, account);
    }
  }

  /** Two samples of which at most one is of the account can be kept in
      either order. */
  lemma KeepSwap(x: Sample, e: Sample, f: seq<Sample>, account: string)
    requires x.account != account || e.account != account
    ensures Keep(x, account) + (Keep(e, account) + f) == Keep(e, account) + (Keep(x, account) + f)
  {
    if x.account == account {
      assert Keep(e, account) == [];
    } else {
      assert Keep(x, account) == [];
    }
  }

  /** The sort orders by account, keeps the same samples, and is stable:
      the samples of each account keep the journal's order. */
  lemma {:induction false} SortSamplesSpec(s: seq<Sample>)
    ensures SortedByAccount(SortSamples(s))
    ensures multiset(SortSamples(s)) == multiset(s)
    ensures forall account :: Filter(SortSamples(s), account) == Filter(s, account)
  {
    SortSamplesPerm(s);
    if |s| > 0 {
      SortSamplesSpec(s[1..]);
      InsertSampleSorted(s[0], SortSamples(s[1..]));
      forall account
        ensures Filter(SortSamples(s), account) == Filter(s, account)
      {
        InsertSampleFilter(s[0], SortSamples(s[1..]), account);
      }
    }
  }

  /** One group of `groupby`: the account and its run of samples. */
  datatype Run = Run(account: string, samples: seq<Sample>)

  /** A sample put in front of some runs: it joins the first run when that
      run has its account, and starts a run of its own otherwise. */
  function AddFront(x: Sample, rest: seq<Run>): (r: seq<Run>)
    ensures |r| > 0 && r[0].account == x.account && |r[0].samples| > 0
  {
    if |rest| > 0 && rest[0].account == x.account
    then [Run(x.account, [x] + rest[0].samples)] + rest[1..]
    else [Run(x.account, [x])] + rest
  }

  /** `groupby(sorted_data, itemgetter(1))`: maximal runs of consecutive
      samples with the same account. */
  function Runs(s: seq<Sample>): (r: seq<Run>)
    ensures |s| > 0 <==> |r| > 0
    ensures forall i :: 0 <= i < |r| ==> |r[i].samples| > 0
  {
    if |s| == 0 then [] else AddFront(s[0], Runs(s[1..]))
  }

  /** The runs laid end to end. */
  function Flatten(runs: seq<Run>): seq<Sample> {
    if |runs| == 0 then [] else runs[0].samples + Flatten(runs[1..])
  }

  /** Every run is non-empty and holds only samples of its account. */
  predicate WellFormed(runs: seq<Run>) {
    forall i :: 0 <= i < |runs| ==>
      |runs[i].samples| > 0 && forall x :: x in runs[i].samples ==> x.account == runs[i].account
  }

  /** The accounts of the runs are strictly ascending. */
  predicate Ascending(runs: seq<Run>) {
    forall i, j :: 0 <= i < j < |runs| ==> LexLt(runs[i].account, runs[j].account)
  }

  lemma AddFrontSpec(x: Sample, rest: seq<Run>)
    requires WellFormed(rest)
    ensures WellFormed(AddFront(x, rest))
    ensures Flatten(AddFront(x, rest)) == [x] + Flatten(rest)
  {
    var r := AddFront(x, rest);
    if |rest| > 0 && rest[0].account == x.account {
      assert r[1..] == rest[1..];
      assert [x] + rest[0].samples + Flatten(rest[1..]) == [x] + (rest[0].samples + Flatten(rest[1..]));
    } else {
      assert r[1..] == rest;
    }
  }

  /** The runs are well formed and hold the samples in their order. */
  lemma {:induction false} RunsSpec(s: seq<Sample>)
    ensures WellFormed(Runs(s))
    ensures Flatten(Runs(s)) == s
  {
    if |s| > 0 {
      RunsSpec(s[1..]);
      AddFrontSpec(s[0], Runs(s[1..]));
      assert s == [s[0]] + s[1..];
    }
  }

  /** `b <= a < c` on strings gives `b < c`. */
  lemma LexLeLt(b: string, a: string, c: string)
    requires LexLe(b, a) && LexLt(a, c)
    ensures LexLt(b, c)
  {
    if LexLe(c, b) {
      LexLeTransitive(c, b, a);
    }
  }

  /** A sample no greater than every sample of ascending runs keeps them
      ascending when put in front. */
  lemma AddFrontAscending(x: Sample, rest: seq<Run>)
    requires WellFormed(rest) && Ascending(rest)
    requires forall y :: y in Flatten(rest) ==> AccountLe(x, y)
    ensures Ascending(AddFront(x, rest))
  {
    var r := AddFront(x, rest);
    AddFrontFirst(x, rest);
    forall i, j | 0 < i < j < |r|
      ensures LexLt(r[i].account, r[j].account)
    {
      if |rest| > 0 && rest[0].account == x.account {
        assert r[i].account == rest[i].account && r[j].account == rest[j].account;
      } else {
        assert r[i] == rest[i - 1] && r[j] == rest[j - 1];
      }
    }
  }

  /** The run in front has the least account. */
  lemma AddFrontFirst(x: Sample, rest: seq<Run>)
    requires WellFormed(rest) && Ascending(rest)
    requires forall y :: y in Flatten(rest) ==> AccountLe(x, y)
    ensures var r := AddFront(x, rest);
      forall j :: 0 < j < |r| ==> LexLt(r[0].account, r[j].account)
  {
    var r := AddFront(x, rest);
    var merged := |rest| > 0 && rest[0].account == x.account;
    if |rest| > 0 {
      RunFirstIn(rest, 0);
      assert LexLe(x.account, rest[0].account);
    }
    forall j | 0 < j < |r|
      ensures LexLt(r[0].account, r[j].account)
    {
      var k := if merged then j else j - 1;
      assert r[j].account == rest[k].account;
      if k > 0 {
        LexLeLt(x.account, rest[0].account, rest[k].account);
      } else {
        LexLtIsStrict(x.account, rest[0].account);
      }
    }
  }

  /** On samples sorted by account the runs have strictly ascending
      accounts: each account forms exactly one group. */
  lemma {:induction false} RunsAscending(s: seq<Sample>)
    requires SortedByAccount(s)
    ensures Ascending(Runs(s))
  {
    if |s| > 0 {
      RunsAscending(s[1..]);
      RunsSpec(s[1..]);
      forall y | y in Flatten(Runs(s[1..]))
        ensures AccountLe(s[0], y)
      {
        var m :| 0 <= m < |s[1..]| && s[1..][m] == y;
        assert s[m + 1] == y;
      }
      AddFrontAscending(s[0], Runs(s[1..]));
    }
  }

  /** Some sample of the k-th run occurs among the flattened samples. */
  lemma RunFirstIn(runs: seq<Run>, k: int)
    requires 0 <= k < |runs| && WellFormed(runs)
    ensures runs[k].samples[0] in Flatten(runs)
    ensures exists x :: x in runs[k].samples && x in Flatten(runs)
  {
    FlattenHas(runs, k, 0);
  }

  lemma {:induction false} FlattenHas(runs: seq<Run>, k: int, m: int)
    requires 0 <= k < |runs| && 0 <= m < |runs[k].samples|
    ensures runs[k].samples[m] in Flatten(runs)
  {
    if k > 0 {
      FlattenHas(runs[1..], k - 1, m);
    }
  }

  /** The samples of one account among the runs are those of its own run,
      when accounts do not repeat. */
  lemma {:induction false} FilterFlatten(runs: seq<Run>, k: int)
    requires WellFormed(runs) && Ascending(runs)
    requires 0 <= k < |runs|
    ensures Filter(Flatten(runs), runs[k].account) == runs[k].samples
  {
    var account := runs[k].account;
    FilterAppend(runs[0].samples, Flatten(runs[1..]), account);
    if k == 0 {
      FilterAll(runs[0].samples, account);
      forall i | 0 <= i < |runs[1..]|
        ensures runs[1..][i].account != account
      {
        LexLtIsStrict(runs[0].account, runs[i + 1].account);
      }
      FilterNone(runs[1..], account);
    } else {
      LexLtIsStrict(runs[0].account, runs[k].account);
      FilterOther(runs[0].samples, runs[0].account, account);
      assert runs[1..][k - 1] == runs[k];
      FilterFlatten(runs[1..], k - 1);
    }
  }

  lemma {:induction false} FilterAppend(a: seq<Sample>, b: seq<Sample>, account: string)
    ensures Filter(a + b, account) == Filter(a, account) + Filter(b, account)
  {
    if |a| == 0 {
      assert a + b == b;
    } else {
      var head := Keep(a[0], account);
      assert (a + b)[0] == a[0];
      assert (a + b)[1..] == a[1..] + b;
      FilterAppend(a[1..], b, account);
      assert Filter(a + b, account) == head + (Filter(a[1..], account) + Filter(b, account));
      assert head + (Filter(a[1..], account) + Filter(b, account)) == (head + Filter(a[1..], account)) + Filter(b, account);
    }
  }

  lemma {:induction false} FilterAll(s: seq<Sample>, account: string)
    requires forall x :: x in s ==> x.account == account
    ensures Filter(s, account) == s
  {
    if |s| > 0 {
      FilterAll(s[1..], account);
      assert s == [s[0]] + s[1..];
    }
  }

  lemma {:induction false} FilterOther(s: seq<Sample>, other: string, account: string)
    requires forall x :: x in s ==> x.account == other
    requires other != account
    ensures Filter(s, account) == []
  {
    if |s| > 0 {
      FilterOther(s[1..], other, account);
    }
  }

  /** No run after the first holds a sample of the first run's account. */
  lemma {:induction false} FilterNone(runs: seq<Run>, account: string)
    requires WellFormed(runs)
    requires forall i :: 0 <= i < |runs| ==> runs[i].account != account
    ensures Filter(Flatten(runs), account) == []
  {
    if |runs| > 0 {
      FilterAppend(runs[0].samples, Flatten(runs[1..]), account);
      FilterOther(runs[0].samples, runs[0].account, account);
      assert forall i :: 0 <= i < |runs[1..]| ==> runs[1..][i] == runs[i + 1];
      FilterNone(runs[1..], account);
    }
  }

  /** The amounts of some samples. */
  function Amounts(s: seq<Sample>): (r: seq<real>)
    ensures |r| == |s|
    ensures forall i :: 0 <= i < |s| ==> r[i] == s[i].amount
  {
    seq(|s|, i requires 0 <= i < |s| => s[i].amount)
  }

  /** The runs of the samples once sorted by account. */
  function SortedRuns(samples: seq<Sample>): seq<Run> {
    Runs(SortSamples(samples))
  }

  /** The group `train_journal` makes of one run: its account, its
      samples and `GCD` of their amounts. */
  function GroupOf(run: Run): Group
    requires |run.samples| > 0
  {
    Group(run.account, run.samples, FoldGcd(CentsOf(Amounts(run.samples))) as real / 100.0)
  }

  /** The groups `train_journal` returns for some samples. */
  function GroupsOf(samples: seq<Sample>): seq<Group> {
    var runs := SortedRuns(samples);
    seq(|runs|, i requires 0 <= i < |runs| => GroupOf(runs[i]))
  }

  /** What `train_journal` returns for a journal. */
  function Train(journal: string, header: string -> Option<string>, allocs: string -> seq<AllocMatch>): Result<seq<Group>, Exception> {
    var samples :- TrainBlocks(BlockTexts(journal), None, header, allocs);
    Success(GroupsOf(samples))
  }

  /** `train_journal`: the samples collected, sorted and grouped, and the
      divisor of each group computed by `GCD`. */
  method TrainJournal(journal: string, header: string -> Option<string>, allocs: string -> seq<AllocMatch>)
    returns (r: Result<seq<Group>, Exception>)
    ensures r == Train(journal, header, allocs)
  {
    var data := CollectSamples(journal, header, allocs);
    if data.Failure? {
      return Failure(data.error);
    }
    var groups := GroupSamples(data.value);
    return Success(groups);
  }

  /** The grouping loop of `train_journal`, after the sort. */
  method GroupSamples(samples: seq<Sample>) returns (groups: seq<Group>)
    ensures groups == GroupsOf(samples)
  {
    var runs := SortedRuns(samples);
    groups := [];
    for i := 0 to |runs|
      invariant |groups| == i
      invariant forall k :: 0 <= k < i ==> groups[k] == GroupOf(runs[k])
    {
      var divisor := GCD(Amounts(runs[i].samples));
      GroupOfDivisor(runs[i]);
      groups := groups + [Group(runs[i].account, runs[i].samples, divisor.value)];
    }
  }

  lemma GroupOfDivisor(run: Run)
    requires |run.samples| > 0
    ensures GcdOf(Amounts(run.samples)) == Success(GroupOf(run).divisor)
  {
  }

  /** The groups have strictly ascending accounts: each account has one
      group. */
  lemma GroupsAscending(samples: seq<Sample>)
    ensures var g := GroupsOf(samples);
      forall i, j :: 0 <= i < j < |g| ==> LexLt(g[i].account, g[j].account)
  {
    SortSamplesSpec(samples);
    RunsAscending(SortSamples(samples));
  }

  /** Each group holds every sample of its account, in journal order. */
  lemma GroupsFilter(samples: seq<Sample>)
    ensures var g := GroupsOf(samples);
      forall i :: 0 <= i < |g| ==> g[i].samples == Filter(samples, g[i].account)
  {
    var sorted := SortSamples(samples);
    var runs := Runs(sorted);
    SortSamplesSpec(samples);
    RunsSpec(sorted);
    RunsAscending(sorted);
    forall i | 0 <= i < |runs|
      ensures runs[i].samples == Filter(samples, runs[i].account)
    {
      FilterFlatten(runs, i);
    }
  }

  /** Every sample's account has a group. */
  lemma GroupsCover(samples: seq<Sample>)
    ensures var g := GroupsOf(samples);
      forall x :: x in samples ==> exists i :: 0 <= i < |g| && g[i].account == x.account
  {
    var sorted := SortSamples(samples);
    var runs := Runs(sorted);
    var g := GroupsOf(samples);
    RunsSpec(sorted);
    forall x | x in samples
      ensures exists i :: 0 <= i < |g| && g[i].account == x.account
    {
      SortSamplesPerm(samples);
      assert x in multiset(sorted);
      FlattenMember(runs, x);
      var i :| 0 <= i < |runs| && runs[i].account == x.account;
      assert g[i].account == x.account;
    }
  }

  /** A sample among the flattened runs lies in one of them, and so has
      its account. */
  lemma {:induction false} FlattenMember(runs: seq<Run>, x: Sample)
    requires WellFormed(runs)
    requires x in Flatten(runs)
    ensures exists i :: 0 <= i < |runs| && runs[i].account == x.account
  {
    if x in runs[0].samples {
      assert runs[0].account == x.account;
    } else {
      FlattenMember(runs[1..], x);
      var i :| 0 <= i < |runs[1..]| && runs[1..][i].account == x.account;
      assert runs[i + 1].account == x.account;
    }
  }

  /** The divisor of a group divides each of its amounts in cents and is
      divided by every common divisor of them: the `GCD` of
      `train_from_ledger.py` is that of `functions.py`. */
  lemma GroupDivisor(run: Run, d: int)
    requires |run.samples| > 0
    ensures var g := GroupOf(run);
      var c := FoldGcd(CentsOf(Amounts(g.samples)));
      GcdOf(Amounts(g.samples)) == Success(g.divisor) &&
      g.divisor == c as real / 100.0 &&
      (forall x :: x in g.samples ==> Divides(c, Cents(x.amount))) &&
      ((forall x :: x in g.samples ==> Divides(d, Cents(x.amount))) ==> Divides(d, c))
  {
    var samples := run.samples;
    var amounts := Amounts(samples);
    var c := FoldGcd(CentsOf(amounts));
    GcdOfSpec(amounts, d);
    forall x | x in samples
      ensures Divides(c, Cents(x.amount))
    {
      var k :| 0 <= k < |samples| && samples[k] == x;
      assert amounts[k] == x.amount;
    }
    if forall x :: x in samples ==> Divides(d, Cents(x.amount)) {
      forall k | 0 <= k < |amounts|
        ensures Divides(d, Cents(amounts[k]))
      {
        assert samples[k] in samples;
      }
    }
  }
}
