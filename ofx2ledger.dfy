/** The older journal writer and the rule-matching driver of
    `ofx2ledger/ofx2ledger.py`: allocations whose amounts end at the
    right margin, transactions whose header spaces out date, flag and
    payee, the first-match search over the rule mapping, the search of the
    account configuration, and what `process_ofx` does with a match. */
module Ofx2Ledger {
  import opened Wrappers
  import opened Text
  import opened Numbers
  import opened RuleParser
  import opened Journal

  // ---------------------------------------------------------------------
  // Allocations and transactions of the older writer
  // ---------------------------------------------------------------------

  /** An `Allocation` has the attributes and defaults of a Posting. */
  type Allocation = Posting

  /** The spaces between account and amount: the width less the indent,
      the account and the whole amount column. */
  function AllocationFill(a: Allocation, width: int, indent: int): int {
    width - |a.account + AmountField(a) + Spaces(indent)|
  }

  function AllocationFirstLine(a: Allocation, width: int, indent: int): string {
    Spaces(indent) + a.account + Spaces(AllocationFill(a, width, indent)) + AmountField(a)
  }

  /** `Allocation.to_string`: the first line, then the tag line and the
      metadata at twice the indent. */
  function AllocationText(a: Allocation, width: int, indent: int): string {
    var ind := Spaces(indent);
    Join([AllocationFirstLine(a, width, indent)] + Comments(a.tags, a.metadata, ind + ind), "\n")
  }

  /** When the fill is not negative, the amount column ends exactly at
      `width`: the line is `width` long and ends in the amount. */
  lemma AllocationAligned(a: Allocation, width: int, indent: int)
    requires AllocationFill(a, width, indent) >= 0
    ensures var line := AllocationFirstLine(a, width, indent);
      |line| == width && EndsWith(line, AmountField(a)) && line[width - 3] == '.'
  {
    var line := AllocationFirstLine(a, width, indent);
    var amt := AmountField(a);
    var f := FormatCents(a.amount);
    assert line[|line| - |amt|..] == amt;
    assert amt[|amt| - 3..] == f[|f| - 3..];
  }

  /** When the fill is negative no space is added and the line runs past
      `width`. */
  lemma AllocationOverflow(a: Allocation, width: int, indent: int)
    requires AllocationFill(a, width, indent) < 0
    ensures var line := AllocationFirstLine(a, width, indent);
      line == Spaces(indent) + a.account + AmountField(a) && |line| > width
  {
  }

  /** An allocation reads back line by line: its first line, the tag line
      when it has tags, then one line per metadata pair at twice the
      indent. */
  lemma AllocationTextLines(a: Allocation, width: int, indent: int)
    requires PlainPosting(a)
    ensures Split(AllocationText(a, width, indent), "\n") ==
      [AllocationFirstLine(a, width, indent)] +
      (if |a.tags| > 0 then [TagString(a.tags, Spaces(2 * indent))] else []) +
      MetaLines(a.metadata, Spaces(2 * indent))
  {
    var ind := Spaces(indent);
    var head := AllocationFirstLine(a, width, indent);
    calc {
      Split(AllocationText(a, width, indent), "\n");
      Split(Join([head] + Comments(a.tags, a.metadata, ind + ind), "\n"), "\n");
      { RowOneLine(a, indent, AllocationFill(a, width, indent));
        CommentedLines(head, a.tags, a.metadata, ind + ind); }
      [head] + (if |a.tags| > 0 then [TagString(a.tags, ind + ind)] else []) + MetaLines(a.metadata, ind + ind);
      { SpacesTwice(indent); }
      [head] + (if |a.tags| > 0 then [TagString(a.tags, Spaces(2 * indent))] else []) +
      MetaLines(a.metadata, Spaces(2 * indent));
    }
  }

  /** A transaction of the older writer, with its constructor's defaults:
      a flag of one space, no tags, metadata or allocations, and no bank
      or account identifier. */
  datatype LegacyTransaction = LegacyTransaction(
    date: string,
    payee: string,
    flag: string := " ",
    tags: seq<string> := [],
    metadata: seq<(string, string)> := [],
    allocations: seq<Allocation> := [],
    bankid: Option<string> := None,
    acctid: Option<string> := None)

  /** The header: date, flag and payee separated by single spaces. */
  function LegacyHeader(t: LegacyTransaction): string {
    t.date + " " + t.flag + " " + t.payee
  }

  /** The allocations of a transaction, each rendered at the default
      width of 80 and the transaction's indent. */
  function AllocationTexts(allocations: seq<Allocation>, indent: int): seq<string> {
    seq(|allocations|, i requires 0 <= i < |allocations| => AllocationText(allocations[i], 80, indent))
  }

  /** The lines of an allocation's text. */
  function AllocationLines(a: Allocation, width: int, indent: int): seq<string> {
    var ind := Spaces(indent);
    [AllocationFirstLine(a, width, indent)] + CommentLines(a.tags, a.metadata, ind + ind)
  }

  function AllocationLineLists(allocations: seq<Allocation>, indent: int): seq<seq<string>> {
    seq(|allocations|, i requires 0 <= i < |allocations| => AllocationLines(allocations[i], 80, indent))
  }

  /** `Transaction.to_string`: the header, the comment lines at the indent
      and the allocations. */
  function LegacyText(t: LegacyTransaction, width: int, indent: int): string {
    EntryText(LegacyHeader(t), t.tags, t.metadata, AllocationTexts(t.allocations, indent), Spaces(indent))
  }

  /** The first line of the text is the header; with the default flag the
      date and payee are three spaces apart. */
  lemma LegacyHeaderLine(t: LegacyTransaction, width: int, indent: int)
    requires OneLine(t.date) && OneLine(t.flag) && OneLine(t.payee)
    ensures Split(LegacyText(t, width, indent), "\n")[0] == LegacyHeader(t)
    ensures t.flag == " " ==> LegacyHeader(t) == t.date + "   " + t.payee
  {
    calc {
      Split(LegacyText(t, width, indent), "\n")[0];
      Split(EntryText(LegacyHeader(t), t.tags, t.metadata, AllocationTexts(t.allocations, indent), Spaces(indent)), "\n")[0];
      { LegacyHeaderOneLine(t);
        EntryTextFirstLine(LegacyHeader(t), t.tags, t.metadata, AllocationTexts(t.allocations, indent), Spaces(indent)); }
      LegacyHeader(t);
    }
    if t.flag == " " {
      DefaultFlagHeader(t);
    }
  }

  /** With the default flag of one space, date and payee are three spaces
      apart. */
  lemma DefaultFlagHeader(t: LegacyTransaction)
    requires t.flag == " "
    ensures LegacyHeader(t) == t.date + "   " + t.payee
  {
    calc {
      LegacyHeader(t);
      t.date + " " + " " + " " + t.payee;
      { assert " " + " " + " " == "   "; }
      t.date + "   " + t.payee;
    }
  }

  /** A header made of one-line parts is itself one line. */
  lemma LegacyHeaderOneLine(t: LegacyTransaction)
    requires OneLine(t.date) && OneLine(t.flag) && OneLine(t.payee)
    ensures OneLine(LegacyHeader(t))
  {
  }

  lemma AllocationTextJoin(a: Allocation, width: int, indent: int)
    requires PlainPosting(a)
    ensures AllocationText(a, width, indent) == Join(AllocationLines(a, width, indent), "\n")
    ensures forall j :: 0 <= j < |AllocationLines(a, width, indent)| ==> OneLine(AllocationLines(a, width, indent)[j])
  {
    var ind := Spaces(indent);
    CommentsJoin(AllocationFirstLine(a, width, indent), a.tags, a.metadata, ind + ind);
    CommentLinesOneLine(a.tags, a.metadata, ind + ind);
    RowOneLine(a, indent, AllocationFill(a, width, indent));
  }

  lemma AllocationTextsLines(allocations: seq<Allocation>, indent: int)
    requires |allocations| > 0
    requires forall i :: 0 <= i < |allocations| ==> PlainPosting(allocations[i])
    ensures Join(AllocationTexts(allocations, indent), "\n") == Join(Concat(AllocationLineLists(allocations, indent)), "\n")
    ensures forall k :: 0 <= k < |Concat(AllocationLineLists(allocations, indent))| ==>
      OneLine(Concat(AllocationLineLists(allocations, indent))[k])
    ensures |Concat(AllocationLineLists(allocations, indent))| > 0
  {
    var texts := AllocationTexts(allocations, indent);
    var xss := AllocationLineLists(allocations, indent);
    forall i | 0 <= i < |allocations|
      ensures texts[i] == Join(xss[i], "\n")
      ensures forall j :: 0 <= j < |xss[i]| ==> OneLine(xss[i][j])
    {
      AllocationTextJoin(allocations[i], 80, indent);
    }
    JoinConcat(texts, xss);
    ConcatOneLine(xss);
    assert Concat(xss)[0] == xss[0][0];
  }

  /** A transaction whose parts are each on one line reads back as its
      header, its tag and metadata lines at the indent, then every line of
      every allocation in order. */
  lemma LegacyTextLines(t: LegacyTransaction, width: int, indent: int)
    requires OneLine(LegacyHeader(t))
    requires forall i :: 0 <= i < |t.tags| ==> OneLine(t.tags[i])
    requires forall i :: 0 <= i < |t.metadata| ==> OneLine(t.metadata[i].0) && OneLine(t.metadata[i].1)
    requires |t.allocations| > 0
    requires forall i :: 0 <= i < |t.allocations| ==> PlainPosting(t.allocations[i])
    ensures Split(LegacyText(t, width, indent), "\n") ==
      [LegacyHeader(t)] + CommentLines(t.tags, t.metadata, Spaces(indent)) +
      Concat(AllocationLineLists(t.allocations, indent))
  {
    AllocationTextsLines(t.allocations, indent);
    EntryTextLines(LegacyHeader(t), t.tags, t.metadata, AllocationTexts(t.allocations, indent),
      Concat(AllocationLineLists(t.allocations, indent)), Spaces(indent));
  }

  // ---------------------------------------------------------------------
  // Matching transactions against the rules
  // ---------------------------------------------------------------------

  /** Where `check_transactions` finds the date, payee, amount and hash in
      a parsed transaction. */
  const FIELDS: map<string, nat> := map["PAYEE" := 1, "HASH" := 3, "AMOUNT" := 2, "DATE" := 0]

  /** The `trans_dict` built for every transaction. */
  datatype TransDict = TransDict(date: string, payee: string, hash: string, amount: string)

  /** Each entry is read from its FIELDS position; a transaction too short
      for it gives the empty string. */
  function MakeTransDict(trans: seq<string>): TransDict {
    TransDict(
      FieldValue(FIELDS, trans, "DATE"),
      FieldValue(FIELDS, trans, "PAYEE"),
      FieldValue(FIELDS, trans, "HASH"),
      FieldValue(FIELDS, trans, "AMOUNT"))
  }

  /** Date, payee, amount and hash come from positions 0, 1, 2 and 3, and a
      missing position gives the empty string. */
  lemma TransDictPositions(trans: seq<string>)
    ensures var d := MakeTransDict(trans);
      d.date == (if |trans| > 0 then trans[0] else "") &&
      d.payee == (if |trans| > 1 then trans[1] else "") &&
      d.amount == (if |trans| > 2 then trans[2] else "") &&
      d.hash == (if |trans| > 3 then trans[3] else "")
  {
  }

  /** `check_condition` as written looks fields up in a FIELDS table that
      `rule_parser.py` never defines, and its bare `except` turns the
      NameError into the empty string: with no table every leaf compares
      against "". The rule made for the payee "ABC" then misses a
      transaction whose payee is "ABC". */
  lemma UndefinedFieldsMissPayee(account: string, trans: seq<string>)
    requires |trans| > 1 && trans[1] == "ABC"
    ensures MakeRule("ABC", account).Success?
    ensures var root := MakeRule("ABC", account).value.conditions[0];
      WalkRules(root.children, root.op, map[], trans) == Success(false)
  {
    assert Sanitize("ABC") == "ABC" by {
      assert forall i :: 0 <= i < |"ABC"| ==> Kept("ABC"[i]);
      SanitizeFixed("ABC");
    }
    assert RStrip("ABC") == "ABC";
    MakeRuleMatches("ABC", account, map[], trans);
    assert !Occurs(Lower(""), Lower("ABC")) by {
      assert |Lower("")| == 0 && |Lower("ABC")| == 3;
    }
  }

  /** Looked up in the FIELDS table of `check_transactions`, the payee is
      found, and the rule made for a one-line payee of kept characters
      matches a transaction with that payee. */
  lemma FieldsMatchPayee(payee: string, account: string, trans: seq<string>)
    requires forall i :: 0 <= i < |payee| ==> Kept(payee[i])
    requires |trans| > 1 && trans[1] == payee
    ensures '\n' !in payee ==> MakeRule(payee, account).Success?
    ensures '\n' !in payee ==>
      var root := MakeRule(payee, account).value.conditions[0];
      WalkRules(root.children, root.op, FIELDS, trans) == Success(true)
  {
    MakeRuleMatchesOwnPayee(payee, account, FIELDS, trans);
  }

  /** What `match` holds after the search: a rule's name, or the false
      result of the last rule tried. */
  datatype Match = Matched(name: string) | NoMatch

  /** Evaluating a rule's root condition: the first entry of its
      `Conditions` must be a one-key mapping from a combinator name to its
      children. An empty list raises IndexError; a string or any other
      value has no `items` and raises AttributeError. */
  function RootMatches(rule: Rule, fields: map<string, nat>, trans: seq<string>): Result<bool, Exception> {
    if |rule.conditions| == 0 then Failure(IndexError)
    else match rule.conditions[0]
      case Group(op, children) => WalkRules(children, op, fields, trans)
      case _ => Failure(AttributeError("items"))
  }

  /** The rule loop of `check_transactions`, from the rules still to try
      and what `match` holds so far (None while it is unbound). */
  function FirstMatchFrom(rules: seq<(string, Rule)>, last: Option<bool>, fields: map<string, nat>, trans: seq<string>): Result<Match, Exception>
  {
    if |rules| == 0 then
      if last.None? then Failure(UnboundLocalError("match")) else Success(NoMatch)
    else
      var m :- RootMatches(rules[0].1, fields, trans);
      if m then Success(Matched(rules[0].0))
      else FirstMatchFrom(rules[1..], Some(false), fields, trans)
  }

  /** The rule a transaction matches, trying the rules in mapping order. */
  function FirstMatch(rules: seq<(string, Rule)>, fields: map<string, nat>, trans: seq<string>): Result<Match, Exception> {
    FirstMatchFrom(rules, None, fields, trans)
  }

  /** The rule loop, as written: tries each rule's root and stops at the
      first that holds. */
  method MatchRules(rules: seq<(string, Rule)>, fields: map<string, nat>, trans: seq<string>) returns (r: Result<Match, Exception>)
    ensures r == FirstMatch(rules, fields, trans)
  {
    var last: Option<bool> := None;
    var i := 0;
    while i < |rules|
      invariant 0 <= i <= |rules|
      invariant last == if i == 0 then None else Some(false)
      invariant FirstMatch(rules, fields, trans) == FirstMatchFrom(rules[i..], last, fields, trans)
    {
      var outcome := TryRule(rules, i, last, fields, trans);
      if outcome.Some? {
        return outcome.value;
      }
      last := Some(false);
      i := i + 1;
    }
    FirstMatchEnd(rules, last, fields, trans);
    if last.None? {
      return Failure(UnboundLocalError("match"));
    }
    return Success(NoMatch);
  }

  /** Past the last rule, `match` is read: unbound when no rule was tried,
      otherwise the false result of the last one. */
  lemma FirstMatchEnd(rules: seq<(string, Rule)>, last: Option<bool>, fields: map<string, nat>, trans: seq<string>)
    ensures FirstMatchFrom(rules[|rules|..], last, fields, trans) ==
      if last.None? then Failure(UnboundLocalError("match")) else Success(NoMatch)
  {
    assert |rules[|rules|..]| == 0;
  }

  /** One pass of the rule loop: the root of rule `i` evaluated, and the
      outcome of the search when that ends it. */
  method TryRule(rules: seq<(string, Rule)>, i: int, last: Option<bool>, fields: map<string, nat>, trans: seq<string>)
    returns (outcome: Option<Result<Match, Exception>>)
    requires 0 <= i < |rules|
    ensures outcome.Some? ==> FirstMatchFrom(rules[i..], last, fields, trans) == outcome.value
    ensures outcome.None? ==>
      FirstMatchFrom(rules[i..], last, fields, trans) == FirstMatchFrom(rules[i + 1..], Some(false), fields, trans)
  {
    var root := RootMatches(rules[i].1, fields, trans);
    FirstMatchStep(rules, i, last, fields, trans);
    if root.Failure? {
      return Some(Failure(root.error));
    }
    if root.value {
      return Some(Success(Matched(rules[i].0)));
    }
    return None;
  }

  /** The loop's step at rule `i`: an error ends the search, a root that
      holds names the rule, and one that does not moves on to the next. */
  lemma FirstMatchStep(rules: seq<(string, Rule)>, i: int, last: Option<bool>, fields: map<string, nat>, trans: seq<string>)
    requires 0 <= i < |rules|
    ensures var root := RootMatches(rules[i].1, fields, trans);
      FirstMatchFrom(rules[i..], last, fields, trans) ==
      if root.Failure? then Failure(root.error)
      else if root.value then Success(Matched(rules[i].0))
      else FirstMatchFrom(rules[i + 1..], Some(false), fields, trans)
  {
    assert rules[i..][1..] == rules[i + 1..];
  }

  /** The first rule whose root holds, after roots that all failed to
      hold, is the one yielded. */
  lemma {:induction false} FirstMatchAt(rules: seq<(string, Rule)>, k: nat, last: Option<bool>, fields: map<string, nat>, trans: seq<string>)
    requires k < |rules|
    requires forall j :: 0 <= j < k ==> RootMatches(rules[j].1, fields, trans) == Success(false)
    requires RootMatches(rules[k].1, fields, trans) == Success(true)
    ensures FirstMatchFrom(rules, last, fields, trans) == Success(Matched(rules[k].0))
    decreases k
  {
    if k > 0 {
      FirstMatchAt(rules[1..], k - 1, Some(false), fields, trans);
    }
  }

  /** A yielded name is that of the first rule whose root holds. */
  lemma {:induction false} FirstMatchMatched(rules: seq<(string, Rule)>, last: Option<bool>, fields: map<string, nat>, trans: seq<string>, name: string)
    requires FirstMatchFrom(rules, last, fields, trans) == Success(Matched(name))
    ensures exists k :: (0 <= k < |rules| && rules[k].0 == name &&
      RootMatches(rules[k].1, fields, trans) == Success(true) &&
      forall j :: 0 <= j < k ==> RootMatches(rules[j].1, fields, trans) == Success(false))
    decreases |rules|
  {
    if RootMatches(rules[0].1, fields, trans) != Success(true) {
      FirstMatchMatched(rules[1..], Some(false), fields, trans, name);
      var k :| 0 <= k < |rules[1..]| && rules[1..][k].0 == name &&
        RootMatches(rules[1..][k].1, fields, trans) == Success(true) &&
        forall j :: 0 <= j < k ==> RootMatches(rules[1..][j].1, fields, trans) == Success(false);
      assert rules[k + 1] == rules[1..][k];
      assert forall j :: 1 <= j < k + 1 ==> rules[j] == rules[1..][j - 1];
    }
  }

  /** Nothing is matched exactly when there is some rule and every root
      evaluates to false. */
  lemma {:induction false} FirstMatchNone(rules: seq<(string, Rule)>, last: Option<bool>, fields: map<string, nat>, trans: seq<string>)
    ensures FirstMatchFrom(rules, last, fields, trans) == Success(NoMatch) <==>
      (|rules| > 0 || last.Some?) &&
      forall j :: 0 <= j < |rules| ==> RootMatches(rules[j].1, fields, trans) == Success(false)
    decreases |rules|
  {
    if |rules| > 0 {
      FirstMatchNone(rules[1..], Some(false), fields, trans);
      assert forall j :: 1 <= j < |rules| ==> rules[j] == rules[1..][j - 1];
    }
  }

  /** With no rules at all `match` is never bound, and yielding it raises. */
  lemma FirstMatchNoRules(fields: map<string, nat>, trans: seq<string>)
    ensures FirstMatch([], fields, trans) == Failure(UnboundLocalError("match"))
  {
  }

  /** An error is that of the first root that raised, after roots that all
      evaluated to false. */
  lemma {:induction false} FirstMatchError(rules: seq<(string, Rule)>, last: Option<bool>, fields: map<string, nat>, trans: seq<string>)
    requires FirstMatchFrom(rules, last, fields, trans).Failure?
    ensures (|rules| == 0 && last.None? &&
             FirstMatchFrom(rules, last, fields, trans).error == UnboundLocalError("match")) ||
      exists k :: 0 <= k < |rules| &&
        RootMatches(rules[k].1, fields, trans) == Failure(FirstMatchFrom(rules, last, fields, trans).error) &&
        forall j :: 0 <= j < k ==> RootMatches(rules[j].1, fields, trans) == Success(false)
    decreases |rules|
  {
    if |rules| > 0 && RootMatches(rules[0].1, fields, trans) == Success(false) {
      FirstMatchError(rules[1..], Some(false), fields, trans);
      var e := FirstMatchFrom(rules, last, fields, trans).error;
      var k :| 0 <= k < |rules[1..]| &&
        RootMatches(rules[1..][k].1, fields, trans) == Failure(e) &&
        forall j :: 0 <= j < k ==> RootMatches(rules[1..][j].1, fields, trans) == Success(false);
      assert rules[k + 1] == rules[1..][k];
      assert forall j :: 1 <= j < k + 1 ==> rules[j] == rules[1..][j - 1];
    }
  }

  /** `check_transactions`: for every transaction in order, the match and
      its `trans_dict`. It is a generator, so an error in the rule search
      ends it after the pairs already yielded. */
  method CheckTransactions(transactions: seq<seq<string>>, rules: seq<(string, Rule)>, fields: map<string, nat>)
    returns (yielded: seq<(Match, TransDict)>, error: Option<Exception>)
    ensures |yielded| <= |transactions|
    ensures forall i :: 0 <= i < |yielded| ==>
      FirstMatch(rules, fields, transactions[i]) == Success(yielded[i].0) &&
      yielded[i].1 == MakeTransDict(transactions[i])
    ensures error.None? <==> |yielded| == |transactions|
    ensures error.Some? ==> FirstMatch(rules, fields, transactions[|yielded|]) == Failure(error.value)
  {
    yielded := [];
    for i := 0 to |transactions|
      invariant |yielded| == i
      invariant forall k :: 0 <= k < i ==>
        FirstMatch(rules, fields, transactions[k]) == Success(yielded[k].0) &&
        yielded[k].1 == MakeTransDict(transactions[k])
    {
      var transDict := MakeTransDict(transactions[i]);
      var m := MatchRules(rules, fields, transactions[i]);
      if m.Failure? {
        return yielded, Some(m.error);
      }
      yielded := yielded + [(m.value, transDict)];
    }
    error := None;
  }

  // ---------------------------------------------------------------------
  // The account configuration
  // ---------------------------------------------------------------------

  /** `find_in_config`: the first item whose `key` entry equals `value`,
      or None when there is none. An item without the key raises
      KeyError. */
  method FindInConfig(configList: seq<map<string, string>>, key: string, value: string)
    returns (r: Result<Option<map<string, string>>, Exception>)
    ensures r.Success? && r.value.Some? ==>
      exists k :: 0 <= k < |configList| && configList[k] == r.value.value &&
        key in configList[k] && configList[k][key] == value &&
        forall j :: 0 <= j < k ==> key in configList[j] && configList[j][key] != value
    ensures r == Success(None) <==>
      forall j :: 0 <= j < |configList| ==> key in configList[j] && configList[j][key] != value
    ensures r.Failure? ==> (r.error == KeyError(key) &&
      exists k :: 0 <= k < |configList| && key !in configList[k] &&
        forall j :: 0 <= j < k ==> key in configList[j] && configList[j][key] != value)
  {
    for i := 0 to |configList|
      invariant forall j :: 0 <= j < i ==> key in configList[j] && configList[j][key] != value
    {
      var item := configList[i];
      if key !in item {
        return Failure(KeyError(key));
      }
      if item[key] == value {
        return Success(Some(item));
      }
    }
    return Success(None);
  }

  // ---------------------------------------------------------------------
  // What process_ofx does with a match
  // ---------------------------------------------------------------------

  /** Where a transaction goes: nowhere, to the account's journal with the
      matched rule, or to both the account's journal and the unmatched
      journal with a rule made for its payee. */
  datatype Disposition = Skipped | WriteMatched(ruleName: string) | WriteNew(newRule: Rule)

  /** The rule entry a match names, if the mapping has it. */
  function Entry(m: Match, ruleDict: map<string, Rule>): Option<Rule> {
    if m.Matched? && m.name in ruleDict then Some(ruleDict[m.name]) else None
  }

  /** `skip`: the rule's `Ignore` value, or false when the lookup fails. */
  function Skip(m: Match, ruleDict: map<string, Rule>): Scalar {
    match Entry(m, ruleDict)
    case Some(rule) => if rule.ignore.Some? then rule.ignore.value else Bool(false)
    case None => Bool(false)
  }

  /** The payee after the `Change_Payee` test: the rule name when the value
      is the string `True`, and also when the lookup raises KeyError and a
      rule matched. */
  function NewPayee(m: Match, ruleDict: map<string, Rule>, payee: string): string {
    match Entry(m, ruleDict)
    case Some(rule) =>
      if rule.changePayee == Some(Str("True")) || rule.changePayee.None? then m.name else payee
    case None => if m.Matched? then m.name else payee
  }

  /** The decision of `process_ofx` for one yielded pair; `account` is the
      configured default account for new rules. Making a new rule can
      raise, which ends `process_ofx`. */
  function Decide(m: Match, ruleDict: map<string, Rule>, transDict: TransDict, account: string): (TransDict, Result<Disposition, Exception>) {
    var skip := Truthy(Skip(m, ruleDict));
    var d := transDict.(payee := NewPayee(m, ruleDict, transDict.payee));
    var matched := m.Matched? && |m.name| > 0;
    if matched && !skip then (d, Success(WriteMatched(m.name)))
    else if !skip then (d, WriteNewRule(d.payee, account))
    else (d, Success(Skipped))
  }

  /** `make_rule(payee, default_account)` for a transaction no rule took. */
  function WriteNewRule(payee: string, account: string): Result<Disposition, Exception> {
    var rule :- MakeRule(payee, account);
    Success(WriteNew(rule))
  }

  /** An unmatched transaction keeps its payee and is written with the rule
      made for that payee; a payee whose sanitised form keeps a newline
      makes the YAML load raise. */
  lemma DecideUnmatched(ruleDict: map<string, Rule>, transDict: TransDict, account: string)
    ensures Decide(NoMatch, ruleDict, transDict, account).0 == transDict
    ensures '\n' !in Sanitize(transDict.payee) ==>
      Decide(NoMatch, ruleDict, transDict, account).1 == Success(WriteNew(MakeRule(transDict.payee, account).value))
    ensures '\n' in Sanitize(transDict.payee) ==>
      Decide(NoMatch, ruleDict, transDict, account).1 == Failure(YAMLError)
  {
  }

  /** A matched rule whose `Ignore` value is truthy writes nothing. */
  lemma DecideIgnored(name: string, ruleDict: map<string, Rule>, transDict: TransDict, account: string)
    requires name in ruleDict && ruleDict[name].ignore.Some? && Truthy(ruleDict[name].ignore.value)
    ensures Decide(Matched(name), ruleDict, transDict, account).1 == Success(Skipped)
  {
  }

  /** A matched rule with a non-empty name and no truthy `Ignore` writes
      the transaction with that rule. */
  lemma DecideMatched(name: string, ruleDict: map<string, Rule>, transDict: TransDict, account: string)
    requires |name| > 0
    requires name in ruleDict ==> ruleDict[name].ignore.None? || !Truthy(ruleDict[name].ignore.value)
    ensures Decide(Matched(name), ruleDict, transDict, account).1 == Success(WriteMatched(name))
  {
  }

  /** After a match the payee becomes the rule's name exactly when the
      rule has no `Change_Payee` key or it holds the string `True`; a YAML
      boolean true does not rename. */
  lemma DecidePayee(name: string, ruleDict: map<string, Rule>, transDict: TransDict, account: string)
    requires name in ruleDict
    ensures var p := Decide(Matched(name), ruleDict, transDict, account).0.payee;
      (ruleDict[name].changePayee.None? || ruleDict[name].changePayee == Some(Str("True")) ==> p == name) &&
      (ruleDict[name].changePayee.Some? && ruleDict[name].changePayee != Some(Str("True")) ==> p == transDict.payee)
  {
  }

  /** Only the payee of the transaction changes. */
  lemma DecideKeepsFields(m: Match, ruleDict: map<string, Rule>, transDict: TransDict, account: string)
    ensures var d := Decide(m, ruleDict, transDict, account).0;
      d.date == transDict.date && d.hash == transDict.hash && d.amount == transDict.amount
  {
  }
}
