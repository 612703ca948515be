/** `pyledgertools/scripts/journal.py`: the blocks of a journal sorted as
    strings and written out one after another, each followed by a blank
    line. */
module SortJournal {
  import opened Text
  import opened Blocks

  /** Every block is at most each block after it. */
  predicate Sorted(s: seq<string>) {
    forall i, j :: 0 <= i < j < |s| ==> LexLe(s[i], s[j])
  }

  /** The first `n` blocks are in order. */
  predicate SortedPrefix(a: seq<string>, n: int)
    requires 0 <= n <= |a|
  {
    forall p, q :: 0 <= p < q < n ==> LexLe(a[p], a[q])
  }

  /** The first `n` blocks are in order except at position `j`, and
      dropping `a[j]` leaves the neighbours on either side in order. */
  predicate SortedBut(a: seq<string>, n: int, j: int)
    requires 0 <= j < n <= |a|
  {
    (forall p, q :: 0 <= p < q < n && p != j && q != j ==> LexLe(a[p], a[q])) &&
    (0 < j < n - 1 ==> LexLe(a[j - 1], a[j + 1]))
  }

  /** `a[j]` is at most every block after it up to `n`. */
  predicate LeastAfter(a: seq<string>, n: int, j: int)
    requires 0 <= j < n <= |a|
  {
    forall q :: j < q < n ==> LexLe(a[j], a[q])
  }

  /** One pass of insertion: `a[i]` moves down into the sorted prefix
      `a[..i]` by swaps until the block before it is not greater. */
  method Insert(a: array<string>, i: int)
    requires 0 <= i < a.Length
    requires SortedPrefix(a[..], i)
    modifies a
    ensures SortedPrefix(a[..], i + 1)
    ensures forall k :: i < k < a.Length ==> a[k] == old(a[k])
    ensures multiset(a[..]) == multiset(old(a[..]))
  {
    var j := i;
    InsertStart(a[..], i);
    while j > 0 && !LexLe(a[j - 1], a[j])
      invariant 0 <= j <= i
      invariant Inserting(a[..], old(a[..]), i + 1, j)
      decreases j
    {
      InsertStep(a[..], old(a[..]), i + 1, j);
      Swap(a, j);
      j := j - 1;
    }
    InsertEnd(a[..], old(a[..]), i + 1, j);
  }

  /** The invariant of the insertion pass: the first `n` blocks are in
      order but for the hole at `j`, the blocks from `n` on are untouched,
      and the blocks are those of `orig`. */
  predicate Inserting(a: seq<string>, orig: seq<string>, n: int, j: int) {
    0 <= j < n <= |a| == |orig| &&
    SortedBut(a, n, j) && LeastAfter(a, n, j) &&
    a[n..] == orig[n..] && multiset(a) == multiset(orig)
  }

  lemma InsertStart(a: seq<string>, i: int)
    requires 0 <= i < |a| && SortedPrefix(a, i)
    ensures Inserting(a, a, i + 1, i)
  {
  }

  lemma InsertStep(a: seq<string>, orig: seq<string>, n: int, j: int)
    requires Inserting(a, orig, n, j) && j > 0 && !LexLe(a[j - 1], a[j])
    ensures Inserting(a[j - 1 := a[j]][j := a[j - 1]], orig, n, j - 1)
  {
    LexLeTotal(a[j - 1], a[j]);
    SwapDown(a, n, j);
    SwapMultiset(a, j);
    var b := a[j - 1 := a[j]][j := a[j - 1]];
    assert b[n..] == a[n..];
  }

  lemma InsertEnd(a: seq<string>, orig: seq<string>, n: int, j: int)
    requires Inserting(a, orig, n, j) && (j > 0 ==> LexLe(a[j - 1], a[j]))
    ensures SortedPrefix(a, n)
    ensures forall k :: n <= k < |a| ==> a[k] == orig[k]
    ensures multiset(a) == multiset(orig)
  {
    InsertDone(a, n, j);
    forall k | n <= k < |a|
      ensures a[k] == orig[k]
    {
      assert a[k] == a[n..][k - n];
    }
  }

  /** Exchanges `a[j - 1]` and `a[j]`. */
  method Swap(a: array<string>, j: int)
    requires 0 < j < a.Length
    modifies a
    ensures a[..] == old(a[..])[j - 1 := old(a[j])][j := old(a[j - 1])]
  {
    a[j - 1], a[j] := a[j], a[j - 1];
  }

  /** Swapping two neighbours keeps the same blocks. */
  lemma SwapMultiset(a: seq<string>, j: int)
    requires 0 < j < |a|
    ensures multiset(a[j - 1 := a[j]][j := a[j - 1]]) == multiset(a)
  {
    var b := a[j - 1 := a[j]][j := a[j - 1]];
    assert a == a[..j - 1] + [a[j - 1], a[j]] + a[j + 1..];
    assert b == a[..j - 1] + [a[j], a[j - 1]] + a[j + 1..];
    PairSwap(a[..j - 1], a[j - 1], a[j], a[j + 1..]);
  }

  lemma PairSwap(p: seq<string>, x: string, y: string, q: seq<string>)
    ensures multiset(p + [x, y] + q) == multiset(p + [y, x] + q)
  {
    assert multiset([x, y]) == multiset([y, x]);
  }

  /** The hole has reached a block not greater than it, or the front: the
      prefix is sorted. */
  lemma InsertDone(a: seq<string>, n: int, j: int)
    requires 0 <= j < n <= |a|
    requires SortedBut(a, n, j) && LeastAfter(a, n, j)
    requires j > 0 ==> LexLe(a[j - 1], a[j])
    ensures SortedPrefix(a, n)
  {
    if j > 0 {
      forall p | 0 <= p < j - 1
        ensures LexLe(a[p], a[j])
      {
        LexLeTransitive(a[p], a[j - 1], a[j]);
      }
    }
  }

  /** Swapping `a[j - 1]` and `a[j]` when the first is the greater moves
      the hole of the invariant one place down. */
  lemma SwapDown(a: seq<string>, n: int, j: int)
    requires 0 < j < n <= |a|
    requires SortedBut(a, n, j) && LeastAfter(a, n, j)
    requires LexLe(a[j], a[j - 1])
    ensures var b := a[j - 1 := a[j]][j := a[j - 1]];
      SortedBut(b, n, j - 1) && LeastAfter(b, n, j - 1)
  {
    var b := a[j - 1 := a[j]][j := a[j - 1]];
    forall q | j - 1 < q < n
      ensures LexLe(b[j - 1], b[q])
    {
      if q > j {
        assert LexLe(a[j], a[q]);
      }
    }
    if 0 < j - 1 {
      assert LexLe(b[j - 2], b[j]);
    }
  }

  /** `blocks.sort()`: the blocks in place, sorted and with the same
      blocks as before. */
  method SortBlocks(a: array<string>)
    modifies a
    ensures Sorted(a[..])
    ensures multiset(a[..]) == multiset(old(a[..]))
  {
    if a.Length == 0 {
      return;
    }
    for i := 1 to a.Length
      invariant SortedPrefix(a[..], i)
      invariant multiset(a[..]) == multiset(old(a[..]))
    {
      Insert(a, i);
    }
  }

  /** The first block of a sorted sequence is at most every block in it. */
  lemma SortedFirstLeast(s: seq<string>, x: string)
    requires Sorted(s) && x in multiset(s)
    ensures LexLe(s[0], x)
  {
    var k :| 0 <= k < |s| && s[k] == x;
    if k == 0 {
      LexLeReflexive(x);
    }
  }

  lemma MultisetTail(s: seq<string>)
    requires |s| > 0
    ensures multiset(s[1..]) == multiset(s) - multiset{s[0]}
  {
    assert s == [s[0]] + s[1..];
    assert multiset(s) == multiset{s[0]} + multiset(s[1..]);
  }

  /** Two sorted orderings of the same blocks are the same sequence: the
      sorted result is determined by the blocks alone. */
  lemma {:induction false} SortedUnique(s: seq<string>, t: seq<string>)
    requires Sorted(s) && Sorted(t)
    requires multiset(s) == multiset(t)
    ensures s == t
  {
    assert |s| == |multiset(s)| == |multiset(t)| == |t|;
    if |s| > 0 {
      assert s[0] == t[0] by {
        assert s[0] in multiset(t) && t[0] in multiset(s);
        SortedFirstLeast(t, s[0]);
        SortedFirstLeast(s, t[0]);
        LexLeAntisymmetric(s[0], t[0]);
      }
      assert multiset(s[1..]) == multiset(t[1..]) by {
        MultisetTail(s);
        MultisetTail(t);
      }
      SortedTail(s);
      SortedTail(t);
      SortedUnique(s[1..], t[1..]);
      assert s == [s[0]] + s[1..] && t == [t[0]] + t[1..];
    }
  }

  lemma SortedTail(s: seq<string>)
    requires Sorted(s) && |s| > 0
    ensures Sorted(s[1..])
  {
  }

  /** Sorting a sorted array leaves it unchanged. */
  lemma SortIdempotent(before: seq<string>, after: seq<string>)
    requires Sorted(before)
    requires Sorted(after) && multiset(after) == multiset(before)
    ensures after == before
  {
    SortedUnique(after, before);
  }

  /** What the output loop prints: each block followed by the newline it
      is given and the newline `print` adds. */
  function Render(blocks: seq<string>): string {
    if |blocks| == 0 then "" else blocks[0] + "\n\n" + Render(blocks[1..])
  }

  /** The output is the blocks joined by a blank line, with a blank line
      after the last. */
  lemma {:induction false} RenderJoin(blocks: seq<string>)
    requires |blocks| > 0
    ensures Render(blocks) == Join(blocks, "\n\n") + "\n\n"
  {
    if |blocks| > 1 {
      RenderJoin(blocks[1..]);
    }
  }

  /** `sort_journal`: the blocks of the journal sorted in place, and the
      text printed for them. */
  method SortJournal(journal: string) returns (blocks: seq<string>, out: string)
    ensures Sorted(blocks)
    ensures multiset(blocks) == multiset(BlockTexts(journal))
    ensures out == Render(blocks)
  {
    var texts := BlockTexts(journal);
    var a := new string[|texts|](i requires 0 <= i < |texts| => texts[i]);
    assert a[..] == texts;
    SortBlocks(a);
    blocks := a[..];
    out := WriteBlocks(blocks);
  }

  /** The output loop of `sort_journal`. */
  method WriteBlocks(blocks: seq<string>) returns (out: string)
    ensures out == Render(blocks)
  {
    out := "";
    assert blocks[0..] == blocks;
    for k := 0 to |blocks|
      invariant Render(blocks) == out + Render(blocks[k..])
    {
      WriteStep(blocks, k, out);
      out := out + blocks[k] + "\n\n";
    }
  }

  lemma WriteStep(blocks: seq<string>, k: int, out: string)
    requires 0 <= k < |blocks|
    ensures out + Render(blocks[k..]) == (out + blocks[k] + "\n\n") + Render(blocks[k + 1..])
  {
    assert blocks[k..][1..] == blocks[k + 1..];
    var tail := Render(blocks[k + 1..]);
    assert out + (blocks[k] + "\n\n" + tail) == (out + blocks[k] + "\n\n") + tail;
  }

  /** A journal whose blocks are already in order comes out as it went
      in, with a blank line added at the end. */
  lemma SortedJournalUnchanged(journal: string, blocks: seq<string>)
    requires Sorted(BlockTexts(journal))
    requires Sorted(blocks) && multiset(blocks) == multiset(BlockTexts(journal))
    ensures Render(blocks) == journal + "\n\n"
  {
    SortedUnique(blocks, BlockTexts(journal));
    BlockTextsJoin(journal);
    RenderJoin(blocks);
  }
}
