/** The ledger-cli journal text of `pyledgertools/journal.py`: tag and
    metadata comment lines, postings whose amounts line up on the decimal
    point, and transactions made of a header line, comment lines and their
    postings. Amounts are held in integer cents. */
module Journal {
  import opened Wrappers
  import opened Text
  import opened Numbers

  /** One posting of a transaction, with the constructor's defaults:
      currency `$`, no balance assertion, no tags and no metadata. */
  datatype Posting = Posting(
    account: string,
    amount: int,
    currency: string := "$",
    assertion: bool := false,
    tags: seq<string> := [],
    metadata: seq<(string, string)> := [])

  /** Text without a line break in it. */
  predicate OneLine(s: string) {
    '\n' !in s
  }

  /** `make_tag_string`: the indent, a comment mark, and the tags each
      closed by a colon. */
  function TagString(tags: seq<string>, indent: string): string {
    indent + "; :" + Join(tags, ":") + ":"
  }

  /** A tag line starts with the indent and the comment mark, ends with a
      colon, and what lies between splits back into the tags. */
  lemma TagStringTags(tags: seq<string>, indent: string)
    requires |tags| > 0
    requires forall i :: 0 <= i < |tags| ==> ':' !in tags[i]
    ensures var r := TagString(tags, indent);
      StartsWith(r, indent + "; :") && EndsWith(r, ":") &&
      Split(r[|indent| + 3..|r| - 1], ":") == tags
  {
    var r := TagString(tags, indent);
    assert r[|indent| + 3..|r| - 1] == Join(tags, ":");
    assert r[..|indent + "; :"|] == indent + "; :";
    SplitJoin(tags, ":");
  }

  /** An empty tag list still gives a line, with two colons. */
  lemma TagStringEmpty(indent: string)
    ensures TagString([], indent) == indent + "; ::"
  {
  }

  /** One line of `make_meta_string`. */
  function MetaLine(indent: string, key: string, value: string): string {
    indent + "; " + key + ": " + value
  }

  /** The lines of `make_meta_string`, one per pair, in order. */
  function MetaLines(metadata: seq<(string, string)>, indent: string): seq<string> {
    seq(|metadata|, i requires 0 <= i < |metadata| => MetaLine(indent, metadata[i].0, metadata[i].1))
  }

  /** `make_meta_string`: the metadata lines joined by line breaks. */
  function MetaString(metadata: seq<(string, string)>, indent: string): string {
    Join(MetaLines(metadata, indent), "\n")
  }

  /** The loop of `make_meta_string`, which collects one line per pair and
      joins them. */
  method MakeMetaString(metadata: seq<(string, string)>, indent: string) returns (r: string)
    ensures r == MetaString(metadata, indent)
  {
    var m: seq<string> := [];
    for i := 0 to |metadata|
      invariant m == MetaLines(metadata[..i], indent)
    {
      m := m + [MetaLine(indent, metadata[i].0, metadata[i].1)];
    }
    assert metadata[..|metadata|] == metadata;
    r := Join(m, "\n");
  }

  /** The example in the documentation of `make_meta_string`. */
  lemma MetaStringExample()
    ensures MetaString([("key1", "value1"), ("key2", "value2")], "  ")
      == "  ; key1: value1\n  ; key2: value2"
  {
    var lines := MetaLines([("key1", "value1"), ("key2", "value2")], "  ");
    assert |lines| == 2;
    assert lines[0] == "  ; key1: value1";
    assert lines[1] == "  ; key2: value2";
    assert Join(lines[1..], "\n") == lines[1];
  }

  /** Metadata is read back line by line: as many lines as pairs, the
      i-th one holding the i-th key and value, and no trailing break. */
  lemma MetaStringLines(metadata: seq<(string, string)>, indent: string)
    requires |metadata| > 0 && OneLine(indent)
    requires forall i :: 0 <= i < |metadata| ==> OneLine(metadata[i].0) && OneLine(metadata[i].1)
    ensures var lines := Split(MetaString(metadata, indent), "\n");
      |lines| == |metadata| &&
      forall i :: 0 <= i < |metadata| ==>
        lines[i] == indent + "; " + metadata[i].0 + ": " + metadata[i].1
  {
    SplitJoin(MetaLines(metadata, indent), "\n");
  }

  /** No metadata, no text. */
  lemma MetaStringEmpty(indent: string)
    ensures MetaString([], indent) == ""
  {
  }

  /** The amount column: `= ` for a balance assertion, the currency, a
      space and the amount with two decimals. */
  function AmountField(p: Posting): string {
    (if p.assertion then "= " else "") + p.currency + " " + FormatCents(p.amount)
  }

  /** The amount column ends in a space and the formatted amount, which
      reads back as the amount. */
  lemma AmountFieldReadsBack(p: Posting)
    ensures var amt := AmountField(p);
      EndsWith(amt, " " + FormatCents(p.amount)) &&
      ParseNumber(amt[|amt| - |FormatCents(p.amount)|..]) == Some(Dollars(p.amount))
  {
    var amt := AmountField(p);
    var f := FormatCents(p.amount);
    assert amt[|amt| - |f|..] == f;
    assert amt[|amt| - |f| - 1..] == " " + f;
    ParseNumberFormatCents(p.amount);
  }

  /** The number of spaces `Posting.to_string` puts between the account
      and the amount: the width less the indent, the account, the amount
      up to its first point, and the point with two decimals. */
  function PostingFill(p: Posting, width: int, indent: int): int {
    width - |p.account + Split(AmountField(p), ".")[0] + Spaces(indent)| - 3
  }

  /** The first line of a posting: indent, account, fill, amount. */
  function FirstLine(p: Posting, width: int, indent: int): string {
    Spaces(indent) + p.account + Spaces(PostingFill(p, width, indent)) + AmountField(p)
  }

  /** The optional comment lines under a header: the tag line when there
      are tags, then the metadata text when there is metadata. */
  function Comments(tags: seq<string>, metadata: seq<(string, string)>, indent: string): seq<string> {
    (if |tags| > 0 then [TagString(tags, indent)] else []) +
    (if |metadata| > 0 then [MetaString(metadata, indent)] else [])
  }

  /** The same comment lines with the metadata text cut into its lines. */
  function CommentLines(tags: seq<string>, metadata: seq<(string, string)>, indent: string): seq<string> {
    (if |tags| > 0 then [TagString(tags, indent)] else []) + MetaLines(metadata, indent)
  }

  /** `Posting.to_string`: the first line, then the comment lines at
      twice the indent, joined by line breaks. */
  function PostingText(p: Posting, width: int, indent: int): string {
    var ind := Spaces(indent);
    Join([FirstLine(p, width, indent)] + Comments(p.tags, p.metadata, ind + ind), "\n")
  }

  /** The lines of a posting's text. */
  function PostingLines(p: Posting, width: int, indent: int): seq<string> {
    var ind := Spaces(indent);
    [FirstLine(p, width, indent)] + CommentLines(p.tags, p.metadata, ind + ind)
  }

  /** With no currency point in the way, the amount up to its point is all
      of it but the point and the two decimals. */
  lemma AmountBeforePoint(p: Posting)
    requires '.' !in p.currency
    ensures var amt := AmountField(p);
      Split(amt, ".")[0] == amt[..|amt| - 3]
  {
    var amt := AmountField(p);
    var f := FormatCents(p.amount);
    var head := (if p.assertion then "= " else "") + p.currency + " ";
    assert amt == head + f;
    assert amt[..|amt| - 3] == head + f[..|f| - 3];
    assert amt == amt[..|amt| - 3] + "." + amt[|amt| - 2..];
    SplitFirst(amt[..|amt| - 3], ".", amt[|amt| - 2..]);
  }

  /** When the fill is not negative, the first posting line is exactly
      `width` characters long, with the decimal point at `width - 3` and
      two digits after it. */
  lemma PostingAligned(p: Posting, width: int, indent: int)
    requires '.' !in p.currency
    requires PostingFill(p, width, indent) >= 0
    ensures var line := FirstLine(p, width, indent);
      |line| == width && line[width - 3] == '.' &&
      IsDigit(line[width - 2]) && IsDigit(line[width - 1])
  {
    AmountBeforePoint(p);
    var amt := AmountField(p);
    var f := FormatCents(p.amount);
    assert amt[|amt| - 3..] == f[|f| - 3..];
  }

  /** When the fill is negative no space is added, and the line runs past
      `width`. */
  lemma PostingOverflow(p: Posting, width: int, indent: int)
    requires '.' !in p.currency
    requires PostingFill(p, width, indent) < 0
    ensures var line := FirstLine(p, width, indent);
      line == Spaces(indent) + p.account + AmountField(p) && |line| > width
  {
    AmountBeforePoint(p);
  }

  /** Cutting the metadata text into its lines does not change the joined
      text. */
  lemma {:induction false} CommentsJoin(head: string, tags: seq<string>, metadata: seq<(string, string)>, indent: string)
    ensures Join([head] + Comments(tags, metadata, indent), "\n")
         == Join([head] + CommentLines(tags, metadata, indent), "\n")
  {
    var front := [head] + (if |tags| > 0 then [TagString(tags, indent)] else []);
    var lines := MetaLines(metadata, indent);
    if |metadata| == 0 {
      assert [head] + Comments(tags, metadata, indent) == front;
      assert [head] + CommentLines(tags, metadata, indent) == front;
    } else {
      assert [head] + Comments(tags, metadata, indent) == front + [Join(lines, "\n")];
      assert [head] + CommentLines(tags, metadata, indent) == front + lines;
      JoinAppend(front, [Join(lines, "\n")], "\n");
      JoinAppend(front, lines, "\n");
    }
  }

  /** A posting's text is its lines joined by line breaks. */
  lemma PostingTextJoin(p: Posting, width: int, indent: int)
    ensures PostingText(p, width, indent) == Join(PostingLines(p, width, indent), "\n")
  {
    var ind := Spaces(indent);
    CommentsJoin(FirstLine(p, width, indent), p.tags, p.metadata, ind + ind);
  }

  /** Every part of a posting is on one line. */
  predicate PlainPosting(p: Posting) {
    OneLine(p.account) && OneLine(p.currency) &&
    (forall i :: 0 <= i < |p.tags| ==> OneLine(p.tags[i])) &&
    (forall i :: 0 <= i < |p.metadata| ==> OneLine(p.metadata[i].0) && OneLine(p.metadata[i].1))
  }

  lemma CommentLinesOneLine(tags: seq<string>, metadata: seq<(string, string)>, indent: string)
    requires OneLine(indent)
    requires forall i :: 0 <= i < |tags| ==> OneLine(tags[i])
    requires forall i :: 0 <= i < |metadata| ==> OneLine(metadata[i].0) && OneLine(metadata[i].1)
    ensures forall i :: 0 <= i < |CommentLines(tags, metadata, indent)| ==>
      OneLine(CommentLines(tags, metadata, indent)[i])
  {
    if |tags| > 0 {
      JoinOneLine(tags, ":");
    }
  }

  lemma {:induction false} JoinOneLine(xs: seq<string>, sep: string)
    requires OneLine(sep)
    requires forall i :: 0 <= i < |xs| ==> OneLine(xs[i])
    ensures OneLine(Join(xs, sep))
    decreases |xs|
  {
    if |xs| > 1 {
      JoinOneLine(xs[1..], sep);
    }
  }

  lemma PostingLinesOneLine(p: Posting, width: int, indent: int)
    requires PlainPosting(p)
    ensures forall i :: 0 <= i < |PostingLines(p, width, indent)| ==>
      OneLine(PostingLines(p, width, indent)[i])
  {
    var ind := Spaces(indent);
    CommentLinesOneLine(p.tags, p.metadata, ind + ind);
    RowOneLine(p, indent, PostingFill(p, width, indent));
  }

  /** A line followed by comment lines, every part on one line, reads
      back as that line, the tag line when there are tags, and one line
      per metadata pair. */
  lemma CommentedLines(head: string, tags: seq<string>, metadata: seq<(string, string)>, indent: string)
    requires OneLine(head) && OneLine(indent)
    requires forall i :: 0 <= i < |tags| ==> OneLine(tags[i])
    requires forall i :: 0 <= i < |metadata| ==> OneLine(metadata[i].0) && OneLine(metadata[i].1)
    ensures Split(Join([head] + Comments(tags, metadata, indent), "\n"), "\n") ==
      [head] + (if |tags| > 0 then [TagString(tags, indent)] else []) + MetaLines(metadata, indent)
  {
    CommentsJoin(head, tags, metadata, indent);
    CommentLinesOneLine(tags, metadata, indent);
    assert [head] + CommentLines(tags, metadata, indent) ==
      [head] + (if |tags| > 0 then [TagString(tags, indent)] else []) + MetaLines(metadata, indent);
    SplitJoin([head] + CommentLines(tags, metadata, indent), "\n");
  }

  /** A posting reads back line by line: its first line, the tag line when
      it has tags, then one line per metadata pair at twice the indent. */
  lemma PostingTextLines(p: Posting, width: int, indent: int)
    requires PlainPosting(p)
    ensures Split(PostingText(p, width, indent), "\n") ==
      [FirstLine(p, width, indent)] +
      (if |p.tags| > 0 then [TagString(p.tags, Spaces(2 * indent))] else []) +
      MetaLines(p.metadata, Spaces(2 * indent))
  {
    var ind := Spaces(indent);
    var head := FirstLine(p, width, indent);
    calc {
      Split(PostingText(p, width, indent), "\n");
      Split(Join([head] + Comments(p.tags, p.metadata, ind + ind), "\n"), "\n");
      { RowOneLine(p, indent, PostingFill(p, width, indent));
        CommentedLines(head, p.tags, p.metadata, ind + ind); }
      [head] + (if |p.tags| > 0 then [TagString(p.tags, ind + ind)] else []) + MetaLines(p.metadata, ind + ind);
      { SpacesTwice(indent); }
      [head] + (if |p.tags| > 0 then [TagString(p.tags, Spaces(2 * indent))] else []) +
      MetaLines(p.metadata, Spaces(2 * indent));
    }
  }

  /** The first line of a posting, at any fill, is one line. */
  lemma RowOneLine(p: Posting, indent: int, fill: int)
    requires PlainPosting(p)
    ensures OneLine(Spaces(indent) + p.account + Spaces(fill) + AmountField(p))
  {
    FormatCentsPlain(p.amount);
  }

  lemma SpacesTwice(n: int)
    ensures Spaces(n) + Spaces(n) == Spaces(2 * n)
    ensures OneLine(Spaces(n) + Spaces(n))
  {
    var s := Spaces(n) + Spaces(n);
    assert forall i :: 0 <= i < |s| ==> s[i] == ' ';
    assert s == Spaces(2 * n);
  }

  /** The postings of a transaction, each rendered at the default width of
      80 and the transaction's indent. */
  function PostingTexts(postings: seq<Posting>, indent: int): seq<string> {
    seq(|postings|, i requires 0 <= i < |postings| => PostingText(postings[i], 80, indent))
  }

  /** The lines of each posting of a transaction. */
  function PostingLineLists(postings: seq<Posting>, indent: int): seq<seq<string>> {
    seq(|postings|, i requires 0 <= i < |postings| => PostingLines(postings[i], 80, indent))
  }

  /** Lists of lines, one after another. */
  function Concat(xss: seq<seq<string>>): seq<string> {
    if |xss| == 0 then [] else xss[0] + Concat(xss[1..])
  }

  /** Joining texts that are themselves joins of non-empty line lists is
      joining all the lines. */
  lemma {:induction false} JoinConcat(texts: seq<string>, xss: seq<seq<string>>)
    requires |texts| == |xss| > 0
    requires forall i :: 0 <= i < |xss| ==> |xss[i]| > 0 && texts[i] == Join(xss[i], "\n")
    ensures Join(texts, "\n") == Join(Concat(xss), "\n")
    decreases |xss|
  {
    if |xss| == 1 {
      assert Concat(xss[1..]) == [];
      assert Concat(xss) == xss[0];
    } else {
      JoinConcat(texts[1..], xss[1..]);
      assert texts == [texts[0]] + texts[1..];
      JoinCons(texts[0], texts[1..], "\n");
      assert Concat(xss[1..]) == xss[1..][0] + Concat(xss[2..]);
      JoinAppend(xss[0], Concat(xss[1..]), "\n");
    }
  }

  lemma {:induction false} ConcatOneLine(xss: seq<seq<string>>)
    requires forall i, j :: 0 <= i < |xss| && 0 <= j < |xss[i]| ==> OneLine(xss[i][j])
    ensures forall k :: 0 <= k < |Concat(xss)| ==> OneLine(Concat(xss)[k])
    decreases |xss|
  {
    if |xss| > 0 {
      ConcatOneLine(xss[1..]);
      forall k | 0 <= k < |Concat(xss)|
        ensures OneLine(Concat(xss)[k])
      {
        if k >= |xss[0]| {
          assert Concat(xss)[k] == Concat(xss[1..])[k - |xss[0]|];
        }
      }
    }
  }

  /** The postings of a transaction read back as all their lines, one
      posting after another. */
  lemma PostingTextsLines(postings: seq<Posting>, indent: int)
    requires |postings| > 0
    requires forall i :: 0 <= i < |postings| ==> PlainPosting(postings[i])
    ensures Join(PostingTexts(postings, indent), "\n") == Join(Concat(PostingLineLists(postings, indent)), "\n")
    ensures forall k :: 0 <= k < |Concat(PostingLineLists(postings, indent))| ==>
      OneLine(Concat(PostingLineLists(postings, indent))[k])
  {
    var texts := PostingTexts(postings, indent);
    var xss := PostingLineLists(postings, indent);
    forall i | 0 <= i < |postings|
      ensures texts[i] == Join(xss[i], "\n")
      ensures forall j :: 0 <= j < |xss[i]| ==> OneLine(xss[i][j])
    {
      PostingTextJoin(postings[i], 80, indent);
      PostingLinesOneLine(postings[i], 80, indent);
    }
    JoinConcat(texts, xss);
    ConcatOneLine(xss);
  }

  /** The text of a transaction: the header line, the comment lines at the
      indent, and the postings' text, joined by line breaks. With no
      postings the last part is empty, so the text ends in a line break. */
  function EntryText(header: string, tags: seq<string>, metadata: seq<(string, string)>,
                     postings: seq<string>, indent: string): string
  {
    Join([header] + Comments(tags, metadata, indent) + [Join(postings, "\n")], "\n")
  }

  /** An entry whose parts are each on one line reads back as its header,
      its comment lines and then the given lines of its postings. */
  lemma EntryTextLines(header: string, tags: seq<string>, metadata: seq<(string, string)>,
                       postings: seq<string>, lines: seq<string>, indent: string)
    requires OneLine(header) && OneLine(indent)
    requires forall i :: 0 <= i < |tags| ==> OneLine(tags[i])
    requires forall i :: 0 <= i < |metadata| ==> OneLine(metadata[i].0) && OneLine(metadata[i].1)
    requires |lines| > 0 && Join(postings, "\n") == Join(lines, "\n")
    requires forall i :: 0 <= i < |lines| ==> OneLine(lines[i])
    ensures Split(EntryText(header, tags, metadata, postings, indent), "\n")
      == [header] + CommentLines(tags, metadata, indent) + lines
  {
    var front := [header] + Comments(tags, metadata, indent);
    var cut := [header] + CommentLines(tags, metadata, indent);
    JoinAppend(front, [Join(postings, "\n")], "\n");
    CommentsJoin(header, tags, metadata, indent);
    JoinAppend(cut, lines, "\n");
    CommentLinesOneLine(tags, metadata, indent);
    SplitJoin(cut + lines, "\n");
  }

  /** Whatever follows it, the first line of an entry is its header when
      the header is on one line. */
  lemma EntryTextFirstLine(header: string, tags: seq<string>, metadata: seq<(string, string)>,
                           postings: seq<string>, indent: string)
    requires OneLine(header)
    ensures Split(EntryText(header, tags, metadata, postings, indent), "\n")[0] == header
  {
    var rest := Comments(tags, metadata, indent) + [Join(postings, "\n")];
    assert [header] + Comments(tags, metadata, indent) + [Join(postings, "\n")] == [header] + rest;
    JoinCons(header, rest, "\n");
    SplitFirst(header, "\n", Join(rest, "\n"));
  }

  /** An entry with no postings ends in a line break. */
  lemma EntryTextNoPostings(header: string, tags: seq<string>, metadata: seq<(string, string)>, indent: string)
    ensures EndsWith(EntryText(header, tags, metadata, [], indent), "\n")
  {
    var front := [header] + Comments(tags, metadata, indent);
    JoinAppend(front, [""], "\n");
  }

  /** A transaction of `pyledgertools/journal.py`; `add` updates its
      postings in place. */
  class Transaction {
    var date: string
    var flag: string
    var payee: string
    var tags: seq<string>
    var metadata: seq<(string, string)>
    var postings: seq<Posting>
    var bankid: Option<string>
    var acctid: Option<string>
    var account: string

    /** Date and payee are required; the flag defaults to one space, the
        lists to empty, the identifiers to none and the account to empty. */
    constructor(date: string, payee: string, flag: string := " ",
                tags: seq<string> := [], metadata: seq<(string, string)> := [],
                postings: seq<Posting> := [], bankid: Option<string> := None,
                acctid: Option<string> := None, account: string := "")
      ensures this.date == date && this.payee == payee && this.flag == flag
      ensures this.tags == tags && this.metadata == metadata && this.postings == postings
      ensures this.bankid == bankid && this.acctid == acctid && this.account == account
    {
      this.date := date;
      this.flag := flag;
      this.payee := payee;
      this.tags := tags;
      this.metadata := metadata;
      this.postings := postings;
      this.bankid := bankid;
      this.acctid := acctid;
      this.account := account;
    }

    /** `to_string`: the header is date, flag and payee with nothing in
        between; postings use the indent but always the width 80, so
        `width` has no effect. */
    function ToString(width: int := 80, indent: int := 4): string
      reads this
    {
      EntryText(date + flag + payee, tags, metadata, PostingTexts(postings, indent), Spaces(indent))
    }

    /** `add` as intended: one new posting with the given account, amount
        and currency at the end, everything else as it was. */
    method Add(account: string, amount: int, currency: string)
      modifies this
      ensures postings == old(postings) + [Posting(account, amount, currency)]
      ensures date == old(date) && flag == old(flag) && payee == old(payee)
      ensures tags == old(tags) && metadata == old(metadata)
      ensures bankid == old(bankid) && acctid == old(acctid) && this.account == old(this.account)
    {
      postings := postings + [Posting(account, amount, currency)];
    }

    /** `add` as written: it appends to an `allocations` attribute that the
        constructor never sets, so it raises AttributeError and the
        transaction is left as it was. */
    method AddAsWritten(account: string, amount: int, currency: string) returns (r: Outcome<Exception>)
      ensures r == Fail(AttributeError("allocations"))
      ensures postings == old(postings)
    {
      r := Fail(AttributeError("allocations"));
    }
  }

  /** A transaction reads back line by line: the header, its tag line and
      metadata lines at the indent, then every line of every posting in
      order. */
  lemma TransactionLines(t: Transaction, indent: int)
    requires OneLine(t.date + t.flag + t.payee)
    requires forall i :: 0 <= i < |t.tags| ==> OneLine(t.tags[i])
    requires forall i :: 0 <= i < |t.metadata| ==> OneLine(t.metadata[i].0) && OneLine(t.metadata[i].1)
    requires |t.postings| > 0
    requires forall i :: 0 <= i < |t.postings| ==> PlainPosting(t.postings[i])
    ensures Split(t.ToString(80, indent), "\n") ==
      [t.date + t.flag + t.payee] + CommentLines(t.tags, t.metadata, Spaces(indent)) +
      Concat(PostingLineLists(t.postings, indent))
  {
    PostingTextsLines(t.postings, indent);
    assert |Concat(PostingLineLists(t.postings, indent))| > 0 by {
      assert Concat(PostingLineLists(t.postings, indent))[0] == FirstLine(t.postings[0], 80, indent);
    }
    EntryTextLines(t.date + t.flag + t.payee, t.tags, t.metadata,
      PostingTexts(t.postings, indent), Concat(PostingLineLists(t.postings, indent)), Spaces(indent));
  }

  /** A transaction with no postings renders with a trailing line break. */
  lemma TransactionNoPostings(t: Transaction, width: int, indent: int)
    requires |t.postings| == 0
    ensures EndsWith(t.ToString(width, indent), "\n")
  {
    assert PostingTexts(t.postings, indent) == [];
    EntryTextNoPostings(t.date + t.flag + t.payee, t.tags, t.metadata, Spaces(indent));
  }
}
