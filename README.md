# pyledgertools in Dafny

pyledgertools turns bank statements into ledger-cli plain-text journals.
This project models the parts of it that have real semantics, and proves
properties of that model:

- **The rule engine** (`pyledgertools/rule_parser.py`): the comparators
  CONTAINS, STARTS_WITH, ENDS_WITH, EQUALS, GT, GE, LT, LE and MOD; the
  combinators AND, OR, NAND, NOR and XOR; `check_condition`, which reads a
  leaf `"<field> <COMPARATOR> <value>"`; `walk_rules`, which evaluates a
  condition tree; and the payee sanitiser of `make_rule`. The first-match
  loop of `check_transactions`, `find_in_config`, the `FIELDS` table and
  the payee/ignore decision of `process_ofx` come from
  `ofx2ledger/ofx2ledger.py` (module `Ofx2Ledger`).
- **The journal writers**: `Posting` and `Transaction` of
  `pyledgertools/journal.py` (module `Journal`), where the decimal point
  is aligned. The older `Allocation` and `Transaction` of
  `ofx2ledger/ofx2ledger.py` are also modelled; there the whole amount is
  right-aligned.
- **The journal utilities**: `amount_group` and `GCD` of
  `pyledgertools/functions.py` (module `Functions`); `train_journal` of
  `pyledgertools/train_from_ledger.py` (module `TrainFromLedger`);
  `import_journal` of `pyledgertools/ledger2python.py` (module
  `Ledger2Python`); and `sort_journal` of `pyledgertools/scripts/journal.py`
  (module `SortJournal`).

The shared helpers live in their own modules:

- `Wrappers`: Option, Result and the Python exceptions raised on the
  modelled paths.
- `Text`: `lower`, `strip`, `find`, `split`, `join` and Python's string
  order.
- `Numbers`: `str` of a natural number, `'{:.2f}'` of an amount in cents,
  and the `float()` of plain decimal literals.
- `Blocks`: splitting a journal on blank lines and dropping blank and `;`
  lines.

An error the source raises is a `Failure` carrying the exception. Examples
are the IndexError of a leaf without a space, the AttributeError of
`.lower()` on a float, and the UnboundLocalError of a `match` that was
never bound.

Notes on the code's behaviour, which the model follows:

- The header of `journal.py` has no separators, and the flag defaults to
  one space, not two.
- EQUALS, GT, GE, LT and LE raise when only the rule value is a number.
- A group has no default combinator.
- A child of a condition list that is neither a mapping nor a string
  re-appends the previous result, or raises when there is none.
- No module of pyledgertools implements an allocation splitter
  (PERCENT / DOLLARS / REMAINDER) or de-duplication by fingerprint.

## Model

| member | source | states |
|---|---|---|
| RuleParser.Contains | pyledgertools/rule_parser.py:4-11 | CONTAINS holds iff the lowered rule value occurs in the lowered transaction value; neither value is stripped |
| RuleParser.TextTestsIgnoreCase | pyledgertools/rule_parser.py:4-33 | lowering either value beforehand changes none of CONTAINS, STARTS_WITH, ENDS_WITH: all three ignore case |
| RuleParser.PaddingIgnored | pyledgertools/rule_parser.py:14-50 | whitespace around the transaction value changes neither STARTS_WITH, ENDS_WITH nor EQUALS (they strip it) |
| RuleParser.ContainsExtended | pyledgertools/rule_parser.py:4-11 | a CONTAINS that holds still holds when text is added on either side of the transaction value |
| RuleParser.Equals | pyledgertools/rule_parser.py:36-50 | EQUALS raises exactly when the rule value reads as a number and the transaction value does not, and then with AttributeError from `lower`; on two numbers it answers whether they are equal; when the rule value is no number it answers whether the lowered rule value equals the lowered, stripped transaction value |
| RuleParser.EqualsNumberExample | pyledgertools/rule_parser.py:41-44 | EQUALS("100", "100.00") is true: both read as the same number |
| RuleParser.EqualsTextExample | pyledgertools/rule_parser.py:45-50 | EQUALS("ABC", " abc ") is true: text fallback lowers both and strips the transaction value |
| RuleParser.EqualsMixedExample | pyledgertools/rule_parser.py:41-47 | EQUALS("100", "abc") raises AttributeError (`lower` on a float) |
| RuleParser.Ordered | pyledgertools/rule_parser.py:53-94 | GT, GE, LT and LE raise exactly when only the rule value reads as a number, with AttributeError |
| RuleParser.OrderedNumbers | pyledgertools/rule_parser.py:53-94 | on two numbers GT holds iff the rule value is below the transaction value, GE iff at most, LT iff above, LE iff at least |
| RuleParser.OrderedText | pyledgertools/rule_parser.py:53-94 | when the rule value is no number, GT, GE, LT and LE compare the lowered values in Python's string order, rule value first |
| RuleParser.GreaterExample | pyledgertools/rule_parser.py:53-94 | GT("50", "100") is true and LT("50", "100") is false |
| RuleParser.OrderComplements | pyledgertools/rule_parser.py:53-94 | GT and LE succeed or raise together and give opposite answers; GE and LT give opposite answers when GE succeeds |
| RuleParser.OrderAntisymmetric | pyledgertools/rule_parser.py:64-94 | GE and LE both true means the values are the same number, or the same lowered text |
| RuleParser.OrderSwap | pyledgertools/rule_parser.py:53-94 | when both or neither value is a number, GT(a, b) is LT(b, a) and GE(a, b) is LE(b, a) |
| RuleParser.Mod | pyledgertools/rule_parser.py:97-103 | MOD reads the transaction value first: ValueError on it when it is no number, else ValueError on the rule value when that is no number, ZeroDivisionError exactly when both are numbers and the rule value is zero, and an answer exactly when both are numbers and the rule value is not zero |
| RuleParser.ModMultiple | pyledgertools/rule_parser.py:97-103 | when MOD succeeds it holds iff the transaction value is a whole multiple of the rule value |
| RuleParser.And | pyledgertools/rule_parser.py:107-112 | AND is true iff every result is true (so an empty list gives true) |
| RuleParser.Or | pyledgertools/rule_parser.py:115-120 | OR is true iff some result is true (so an empty list gives false) |
| RuleParser.Nand | pyledgertools/rule_parser.py:123-124 | NAND is true iff some result is false |
| RuleParser.Nor | pyledgertools/rule_parser.py:127-128 | NOR is true iff every result is false |
| RuleParser.CountTrue | pyledgertools/rule_parser.py:137 | the count XOR tests is the number of `true` occurrences in the list |
| RuleParser.XorAppend | pyledgertools/rule_parser.py:131-140 | XOR of two lists run together is the XOR of their XORs |
| RuleParser.XorAllTrue | pyledgertools/rule_parser.py:131-140 | XOR of n true results holds iff n is odd ([true, true, true] is true, [true, true] false) |
| RuleParser.LookupComparator | pyledgertools/rule_parser.py:195 | `getattr` finds each comparator under its own name and only there |
| RuleParser.LookupCombinator | pyledgertools/rule_parser.py:218 | `getattr` finds each combinator under its own name and only there |
| RuleParser.ParseConditionShape | pyledgertools/rule_parser.py:187-191 | a leaf raises IndexError iff it has no space; otherwise field and comparator are space-free and the value is the text after the second space, or empty when there is no second space |
| RuleParser.ParseConditionOf | pyledgertools/rule_parser.py:187-191 | a space-free field and comparator followed by any value read back as themselves (round trip) |
| RuleParser.ParseLeafExample | pyledgertools/rule_parser.py:187-191 | "PAYEE CONTAINS x" reads as field PAYEE, comparator CONTAINS, value x |
| RuleParser.ShortLeafExample | pyledgertools/rule_parser.py:187-190 | the leaf "PAYEE" raises IndexError |
| RuleParser.FalseLeafExample | pyledgertools/rule_parser.py:197-202 | with no field table the field value is "" and "PAYEE CONTAINS x" is false |
| RuleParser.PayeeLeaf | pyledgertools/rule_parser.py:183-202 | a leaf "PAYEE CONTAINS p" is CONTAINS of p against the PAYEE field value |
| RuleParser.EvalChildrenResults | pyledgertools/rule_parser.py:205-215 | a successful walk gives one result per child, in child order, each that child's own value |
| RuleParser.EvalChildrenError | pyledgertools/rule_parser.py:208-215 | no short cut: the first child that raises makes the list raise that error, whatever came before or after |
| RuleParser.AllHoldChildren | pyledgertools/rule_parser.py:205-219 | the walk succeeds with no false result iff every child evaluates to true |
| RuleParser.AndGroup | pyledgertools/rule_parser.py:205-221 | an AND group holds iff every child evaluates and holds |
| RuleParser.GroupRaisesAfterFalse | pyledgertools/rule_parser.py:208-219 | a child that raises after a false child makes the group raise |
| RuleParser.NoShortCircuitExample | pyledgertools/rule_parser.py:205-221 | AND of a false leaf and a leaf without a space raises IndexError |
| RuleParser.SingleChildGroup | pyledgertools/rule_parser.py:205-221 | an AND or OR group of one child answers what the child answers |
| RuleParser.Sanitize | pyledgertools/rule_parser.py:161 | the sanitised payee holds only letters, digits, space, newline, `.` and `,` |
| RuleParser.SanitizeAppend | pyledgertools/rule_parser.py:161 | the sanitiser works character by character, keeping order |
| RuleParser.SanitizeCounts | pyledgertools/rule_parser.py:161 | each kept character survives as often as it occurs; every other character is removed |
| RuleParser.SanitizeFixed | pyledgertools/rule_parser.py:161 | text is left unchanged iff it is made only of kept characters |
| RuleParser.SanitizeIdempotent | pyledgertools/rule_parser.py:161 | sanitising twice is sanitising once |
| RuleParser.SanitizeExample | pyledgertools/rule_parser.py:161 | "AB*C" is sanitised to "ABC" |
| RuleParser.MakeRule | pyledgertools/rule_parser.py:160-180 | loading the rule text fails with a YAML error iff the sanitised payee holds a line break (the quoted key then spans two lines) |
| RuleParser.ParseConditionBare | pyledgertools/rule_parser.py:187-191 | a leaf of a field and a comparator alone tests the empty value |
| RuleParser.MadeLeaf | pyledgertools/rule_parser.py:168 | the made leaf, its trailing whitespace dropped by the YAML load, tests CONTAINS of the payee without its trailing whitespace |
| RuleParser.MakeRuleMatches | pyledgertools/rule_parser.py:160-180 | when the rule text loads, the root of the rule made for a payee holds iff the transaction's PAYEE value contains the sanitised payee without trailing whitespace, ignoring case |
| RuleParser.TrailingSpaceExample | pyledgertools/rule_parser.py:160-180 | the rule made for "ABC " matches a transaction whose payee is "ABC" |
| RuleParser.MakeRuleMatchesOwnPayee | pyledgertools/rule_parser.py:160-180 | for a payee of kept characters, making its rule fails iff it holds a line break; otherwise its own rule matches it |
| RuleParser.MakeRuleMissesOwnPayee | pyledgertools/rule_parser.py:160-180 | the rule made for "AB*C" does not match the payee "AB*C" |
| Journal.TagStringTags | pyledgertools/journal.py:21-23 | a tag line starts with the indent and "; :", ends with ":", and what lies between splits back into the tags |
| Journal.TagStringEmpty | pyledgertools/journal.py:21-23 | no tags still give the line indent + "; ::" |
| Journal.MakeMetaString | pyledgertools/journal.py:26-43 | the loop yields the metadata lines joined by line breaks |
| Journal.MetaStringExample | pyledgertools/journal.py:36-37 | the documented example: "  ; key1: value1\n  ; key2: value2" |
| Journal.MetaStringLines | pyledgertools/journal.py:39-43 | the metadata text splits into one line per pair, in order, each `indent; key: value`, with no trailing break |
| Journal.MetaStringEmpty | pyledgertools/journal.py:39-43 | no metadata gives the empty text |
| Journal.AmountFieldReadsBack | pyledgertools/journal.py:100-103 | the amount field ends in a space and the two-decimal amount, which reads back as the amount |
| Journal.AmountBeforePoint | pyledgertools/journal.py:106 | with a currency without a point, the amount up to its first point is all but the point and two decimals |
| Journal.PostingAligned | pyledgertools/journal.py:105-109 | with a non-negative fill the first line is exactly `width` long with the point at `width - 3` and two digits after it |
| Journal.PostingOverflow | pyledgertools/journal.py:105-109 | with a negative fill no space is added and the line runs past `width` |
| Journal.PostingTextJoin | pyledgertools/journal.py:108-117 | a posting's text is its lines joined by line breaks |
| Journal.PostingTextLines | pyledgertools/journal.py:108-117 | a posting splits back into its first line, the tag line if any, then one line per metadata pair, at twice the indent |
| Journal.PostingTextsLines | pyledgertools/journal.py:186-187 | the postings' texts joined are all their lines, posting after posting, each on one line |
| Journal.EntryTextLines | pyledgertools/journal.py:175-189 | an entry splits back into its header, its comment lines and the lines of its postings |
| Journal.EntryTextFirstLine | pyledgertools/journal.py:177-178 | the first line of an entry is its header |
| Journal.EntryTextNoPostings | pyledgertools/journal.py:186-189 | an entry with no postings ends in a line break |
| Journal.Transaction.constructor | pyledgertools/journal.py:152-160 | every field is set from its argument; flag defaults to one space, lists to empty, identifiers to none, account to "" |
| Journal.Transaction.Add | pyledgertools/journal.py:191-205 | (as intended) the postings gain one Posting(account, amount, currency) at the end and nothing else changes |
| Journal.Transaction.AddAsWritten | pyledgertools/journal.py:205 | (as written) raises AttributeError for `allocations` and leaves the postings as they were |
| Journal.TransactionLines | pyledgertools/journal.py:162-189 | a transaction splits back into `date + flag + payee`, its tag and metadata lines at the indent, then every posting line in order |
| Journal.TransactionNoPostings | pyledgertools/journal.py:186-189 | a transaction with no postings renders with a trailing line break |
| Ofx2Ledger.AllocationAligned | ofx2ledger/ofx2ledger.py:101-111 | with a non-negative fill the whole amount ends exactly at column `width` |
| Ofx2Ledger.AllocationOverflow | ofx2ledger/ofx2ledger.py:108-111 | with a negative fill no space is added and the line runs past `width` |
| Ofx2Ledger.AllocationTextJoin | ofx2ledger/ofx2ledger.py:110-119 | an allocation's text is its lines joined, each on one line |
| Ofx2Ledger.AllocationTextLines | ofx2ledger/ofx2ledger.py:108-119 | an allocation splits back into its first line, its tag line if any and its metadata lines, at twice the indent |
| Ofx2Ledger.AllocationTextsLines | ofx2ledger/ofx2ledger.py:155-156 | the allocations' texts joined are all their lines in order |
| Ofx2Ledger.LegacyHeaderLine | ofx2ledger/ofx2ledger.py:135-147 | the first line is `date flag payee`; with the default flag date and payee are three spaces apart |
| Ofx2Ledger.DefaultFlagHeader | ofx2ledger/ofx2ledger.py:141-145 | with the default flag of one space the header is date, three spaces, payee |
| Ofx2Ledger.LegacyTextLines | ofx2ledger/ofx2ledger.py:135-158 | a transaction splits back into header, comment lines at the indent, then every allocation line in order |
| Ofx2Ledger.TransDictPositions | ofx2ledger/ofx2ledger.py:333-354 | trans_dict takes date, payee, amount and hash from positions 0, 1, 2, 3; a missing position gives "" |
| Ofx2Ledger.UndefinedFieldsMissPayee | pyledgertools/rule_parser.py:197-200 | (as written) with no field table the rule for "ABC" is made, and misses a transaction whose payee is "ABC" |
| Ofx2Ledger.FieldsMatchPayee | ofx2ledger/ofx2ledger.py:59-64 | (as intended) with the FIELDS table the rule made for a payee without a line break loads and matches a transaction with that payee |
| Ofx2Ledger.MatchRules | ofx2ledger/ofx2ledger.py:356-365 | the rule loop returns the first-match outcome FirstMatch |
| Ofx2Ledger.TryRule | ofx2ledger/ofx2ledger.py:357-365 | one pass either ends the search with its outcome, or leaves it to the next rule after a false root |
| Ofx2Ledger.FirstMatchStep | ofx2ledger/ofx2ledger.py:356-365 | at each rule: an error ends the search, a true root names the rule, a false root moves on |
| Ofx2Ledger.FirstMatchEnd | ofx2ledger/ofx2ledger.py:356-367 | past the last rule `match` is unbound if no rule was tried, else the false result |
| Ofx2Ledger.FirstMatchAt | ofx2ledger/ofx2ledger.py:356-365 | the first rule whose root holds, after roots that were all false, is the one yielded (the earlier rule wins) |
| Ofx2Ledger.FirstMatchMatched | ofx2ledger/ofx2ledger.py:356-365 | a yielded name is that of the first rule whose root holds |
| Ofx2Ledger.FirstMatchNone | ofx2ledger/ofx2ledger.py:356-367 | nothing matches iff some rule was tried and every root is false |
| Ofx2Ledger.FirstMatchNoRules | ofx2ledger/ofx2ledger.py:356-367 | with no rules yielding `match` raises UnboundLocalError |
| Ofx2Ledger.FirstMatchError | ofx2ledger/ofx2ledger.py:358-361 | an error is that of the first root that raised, after roots that were all false |
| Ofx2Ledger.CheckTransactions | ofx2ledger/ofx2ledger.py:331-367 | one pair per transaction in input order, each the first match and its trans_dict; an error ends the generator at that transaction |
| Ofx2Ledger.FindInConfig | ofx2ledger/ofx2ledger.py:235-240 | the first item whose key equals the value, None iff no item has it, KeyError at the first item without the key |
| Ofx2Ledger.DecideUnmatched | ofx2ledger/ofx2ledger.py:268-303 | an unmatched transaction keeps its payee and is written with the rule `make_rule` builds for that payee, or raises the YAML error when the sanitised payee holds a line break |
| Ofx2Ledger.DecideIgnored | ofx2ledger/ofx2ledger.py:268-281 | a matched rule with a truthy `Ignore` writes nothing |
| Ofx2Ledger.DecideMatched | ofx2ledger/ofx2ledger.py:268-290 | a matched, named rule without a truthy `Ignore` writes the transaction with that rule |
| Ofx2Ledger.DecidePayee | ofx2ledger/ofx2ledger.py:273-278 | the payee becomes the rule name iff `Change_Payee` is absent or the string `True` |
| Ofx2Ledger.DecideKeepsFields | ofx2ledger/ofx2ledger.py:273-278 | only the payee of trans_dict changes |
| Functions.Truncated | pyledgertools/functions.py:17-21 | `int(a / size) * size` is a multiple of size with g <= a < g + size |
| Functions.AmountGroupBucket | pyledgertools/functions.py:9-23 | the group is `n` or `p` by sign, then digits of a bucket multiple g with g <= abs(v) < g + size |
| Functions.AmountGroupExamples | pyledgertools/functions.py:20-23 | 0 maps to "p0" and -9.99 to "n0" |
| Functions.GcdSpec | pyledgertools/functions.py:41 | `gcd` divides both numbers and every common divisor divides it |
| Functions.FoldGcdDivides | pyledgertools/functions.py:38-41 | the folded gcd divides every amount in cents |
| Functions.FoldGcdGreatest | pyledgertools/functions.py:38-41 | every common divisor of the amounts divides the folded gcd |
| Functions.FoldGcdSign | pyledgertools/functions.py:38-41 | with two or more amounts the result is not negative; one amount comes back as it is |
| Functions.GCD | pyledgertools/functions.py:26-43 | the loop computes the folded gcd of the truncated cents divided by 100; an empty list raises IndexError |
| Functions.GcdOfSpec | pyledgertools/functions.py:26-43 | the result times 100 divides every amount in cents and is divided by every common divisor |
| Functions.GcdOfSingle | pyledgertools/functions.py:36-43 | a single amount with at most two decimals comes back unchanged |
| Blocks.BlockTextsJoin | pyledgertools/ledger2python.py:36 | the blocks joined by a blank line give back the journal, and no block holds a blank line |
| Blocks.CleanLines | pyledgertools/train_from_ledger.py:37 | the cleaned lines are exactly the input lines that are non-empty and not `;` comments |
| Blocks.CleanLinesAppend | pyledgertools/train_from_ledger.py:37 | cleaning works line by line and keeps order |
| Blocks.CleanLinesIdempotent | pyledgertools/ledger2python.py:45 | cleaning twice is cleaning once |
| Ledger2Python.ClassifyByFirst | pyledgertools/ledger2python.py:50-60 | each kind is chosen iff the first line starts with its character class (digit, `P`, `~`, `=`) |
| Ledger2Python.ImportBlocksStep | pyledgertools/ledger2python.py:43-60 | one block either raises IndexError (empty once cleaned) or adds its entry in front of the rest |
| Ledger2Python.ImportJournal | pyledgertools/ledger2python.py:26-60 | (as intended) the loop returns the entries of the journal's blocks in block order |
| Ledger2Python.ImportJournalAsWritten | pyledgertools/ledger2python.py:26-60 | (as written) the caller gets None, or the IndexError of an empty block |
| Ledger2Python.ImportBlocksError | pyledgertools/ledger2python.py:45-50 | importing fails iff some block is empty once cleaned, and then with IndexError |
| Ledger2Python.ImportBlocksEntries | pyledgertools/ledger2python.py:43-60 | at most one entry per block; each holds a block's cleaned lines whose first line gives its kind |
| Ledger2Python.ImportBlocksAppend | pyledgertools/ledger2python.py:43-60 | the entries of a journal are those of its first blocks followed by those of the rest |
| SortJournal.Insert | pyledgertools/scripts/journal.py:22 | one insertion pass extends the sorted prefix by one, keeping the same blocks |
| SortJournal.SortBlocks | pyledgertools/scripts/journal.py:22 | the array ends sorted and a permutation of what it held |
| SortJournal.SortedUnique | pyledgertools/scripts/journal.py:22 | two sorted orderings of the same blocks are the same sequence |
| SortJournal.SortIdempotent | pyledgertools/scripts/journal.py:22 | sorting blocks that are already sorted leaves them unchanged |
| SortJournal.RenderJoin | pyledgertools/scripts/journal.py:24-25 | the output is the blocks joined by a blank line, with a blank line after the last |
| SortJournal.WriteBlocks | pyledgertools/scripts/journal.py:24-25 | the output loop writes every block followed by two line breaks |
| SortJournal.SortJournal | pyledgertools/scripts/journal.py:20-25 | the blocks come out sorted, as a permutation of the journal's blocks, and the output is their rendering |
| SortJournal.SortedJournalUnchanged | pyledgertools/scripts/journal.py:20-25 | a journal whose blocks are already in order comes out as it went in, plus a blank line |
| TrainFromLedger.CollectSamples | pyledgertools/train_from_ledger.py:32-51 | the loop gives the samples of TrainBlocks over the journal's blocks, or its error |
| TrainFromLedger.VisitBlock | pyledgertools/train_from_ledger.py:37-51 | one pass keeps the outcome: its sample and payee carried forward, or the error that ends the loop |
| TrainFromLedger.TrainBlocksStep | pyledgertools/train_from_ledger.py:36-51 | a block empty once cleaned adds nothing; else its header may name the payee and its last allocation adds a sample |
| TrainFromLedger.TrainBlocksPayees | pyledgertools/train_from_ledger.py:40-51 | at most one sample per block; each sample's payee is the payee some non-empty block leaves in force (which block is stated by TrainBlocksAt) |
| TrainFromLedger.TrainBlocksAppend | pyledgertools/train_from_ledger.py:36-51 | blocks are read in order: an error in the first blocks ends the loop; otherwise their samples come first and the rest is read under the payee they leave in force |
| TrainFromLedger.PayeeAfterSnoc | pyledgertools/train_from_ledger.py:40-43 | the payee in force after one more block is what that block's header makes of the payee in force before it |
| TrainFromLedger.TrainBlocksAt | pyledgertools/train_from_ledger.py:36-51 | cut at any block i, the samples are those of the blocks before it, then the at most one sample of block i, carrying the payee in force after block i's own header, then those of the blocks after it |
| TrainFromLedger.PayeeAfterNamed | pyledgertools/train_from_ledger.py:40-43 | the payee in force after some blocks is the one before them or one that a header among those blocks names |
| TrainFromLedger.BlockSamplePayee | pyledgertools/train_from_ledger.py:44-51 | a block adds at most one sample, under the payee in force |
| TrainFromLedger.NoPayeeNoSamples | pyledgertools/train_from_ledger.py:40-51 | with no header ever naming a payee there are no samples: a posting raises UnboundLocalError or ValueError |
| TrainFromLedger.SortSamplesSpec | pyledgertools/train_from_ledger.py:53 | the sort orders by account, keeps the same samples, and keeps each account's samples in journal order |
| TrainFromLedger.InsertSampleFilter | pyledgertools/train_from_ledger.py:53 | inserting keeps the samples of every account in their order |
| TrainFromLedger.RunsSpec | pyledgertools/train_from_ledger.py:54 | `groupby` gives non-empty runs of one account each that hold the samples in order |
| TrainFromLedger.RunsAscending | pyledgertools/train_from_ledger.py:53-54 | on sorted samples the run accounts are strictly ascending |
| TrainFromLedger.TrainJournal | pyledgertools/train_from_ledger.py:29-61 | the result is the samples collected, sorted, grouped, each group with its GCD, or the loop's error |
| TrainFromLedger.GroupSamples | pyledgertools/train_from_ledger.py:56-59 | the grouping loop makes one group per run with the GCD of its amounts |
| TrainFromLedger.GroupsAscending | pyledgertools/train_from_ledger.py:53-59 | group accounts are strictly ascending, so distinct |
| TrainFromLedger.GroupsFilter | pyledgertools/train_from_ledger.py:53-59 | each group holds exactly the samples of its account, in journal order |
| TrainFromLedger.GroupsCover | pyledgertools/train_from_ledger.py:53-59 | every sample's account has a group |
| TrainFromLedger.GroupDivisor | pyledgertools/train_from_ledger.py:15-26 | a group's divisor is `GCD` of its amounts: it divides each amount in cents and every common divisor divides it |
| Numbers.NatToString | pyledgertools/functions.py:17 | `str` of a natural number is digits without a leading zero that read back as the number |
| Numbers.FormatCents | pyledgertools/journal.py:101-103 | `{:.2f}` gives no point before the last three characters, then a point and two digits |
| Numbers.ParseNumberFormatCents | pyledgertools/journal.py:101-103 | `float` of an amount written with two decimals is the amount exactly |
| Text.FindOccurs | pyledgertools/rule_parser.py:11 | `find(...) >= 0` iff the text occurs |
| Text.StripPadded | pyledgertools/rule_parser.py:21 | `strip` removes any surrounding whitespace |
| Text.LowerIdempotent | pyledgertools/rule_parser.py:8-9 | lowering twice is lowering once |
| Text.JoinSplit | pyledgertools/rule_parser.py:187-191 | joining the pieces of a split with the separator gives back the text |
| Text.SplitJoin | pyledgertools/journal.py:43 | splitting a join of pieces free of a one-character separator gives back the pieces |
| Text.LexLeTotal | pyledgertools/scripts/journal.py:22 | Python's string order is total |
| Text.LexLeAntisymmetric | pyledgertools/scripts/journal.py:22 | Python's string order is antisymmetric |
| Text.LexLeTransitive | pyledgertools/scripts/journal.py:22 | Python's string order is transitive |

## Left out

- YAML loading: `build_rules` is left out; the rule mapping is a sequence of (name, Rule) pairs in mapping order. For the YAML load in `make_rule`, the model covers the two effects the template can have: the plain scalar of the leaf and of the allocation loses its trailing whitespace, and a payee with a line break makes the quoted key span two lines, which the load rejects.
- RuleParser.MakeRule: the account is taken to be a one-line plain scalar (no `: `, no ` #`, no line break); its trailing whitespace is dropped like the payee's. The load is `yaml.load` without a Loader, as PyYAML before 6.0 accepts.
- RuleParser.Lookup: only the fourteen comparator and combinator names are modelled. `getattr` on the module would also find `walk_rules`, `check_condition`, `make_rule`, `build_rules`, the imported modules and the dunder names; a rule naming one of those is treated as naming nothing (AttributeError).
- RuleParser.Condition: a mapping child is modelled with exactly one key, and a `children` value is always a list. An empty or multi-key mapping, or a `children` string (whose characters Python would iterate as leaves), is not represented.
- Ledger2Python.ClassifyByFirst: the digit class is ASCII `0`-`9`; Python's `\d` in `ledger2python.py:50` also matches other Unicode decimal digits, which the model does not recognise.
- `build_journal`, the OFX download and parse in `process_ofx`, and `print_transaction` are not part of this model. They parse OFX through ofxtools, write files, and call functions the file does not define. Only the decision `process_ofx` makes for each yielded pair is modelled, as `Ofx2Ledger.Decide`.
- The md5 fingerprint, command-line parsing, the `__main__` blocks, and every file read and write are left out. The journal text is a parameter. The text `sort_journal` prints is returned as a string.
- The regular expressions of `train_journal` are left out: `TRANS_REGEX` and `ALLOC_REGEX` become the function parameters `header` and `allocs`. The patterns of `import_journal` are written out: a leading digit, `P`, `~` or `=`.
- The four `process_*` handlers of `ledger2python.py` only print. An entry is modelled as its kind together with the block's cleaned lines.
- Floating point is left out. Amounts are exact: integer cents for postings, exact reals for `float()`. Rounding in `{:.2f}` and drift in `int(d * 100)` are not modelled.
- `float()` is modelled for plain decimal literals only, with surrounding whitespace and an optional sign. Exponents, `inf`, `nan`, underscores and non-ASCII digits are read as a ValueError.
- `lower` and `strip` work on ASCII only; there is no Unicode case mapping.
- The `fractions.gcd` fallback of older Pythons is left out. Its sign follows the second argument; the model uses `math.gcd`, which is never negative.
- Posting and Allocation are values: nothing updates them after construction. Only `Transaction.add` changes an object in place.
- `rule_parser.py` as shown imports nothing (`sys`, `re`, `os`, `yaml`). The model assumes those imports are present.
- Condition leaves are kept as text and read on every evaluation, as `check_condition` does.
- `check_transactions` is a generator. It is modelled as the list of pairs yielded before the first error, plus that error.
- The allocation splitter (PERCENT / DOLLARS / REMAINDER) and de-duplication by fingerprint are left out: no module of pyledgertools implements them.
- Journal.PostingAligned: stated only for a currency without a `.`; with a point in the currency, `split('.')[0]` stops early and the line is shorter than `width`.
- Journal.TransactionLines: stated only when every part is on one line; a part with a line break of its own makes the lines ambiguous.
- Ofx2Ledger.LegacyTextLines: stated only when every part is on one line, for the same reason.

## Findings

| source | as written | input that shows it | evidently intended | confidence | as-written member | corrected member |
|---|---|---|---|---|---|---|
| pyledgertools/journal.py:205 | `add` appends to `self.allocations`, which the constructor never sets (it sets `self.postings`) | any call of `add` on a new Transaction raises AttributeError | append the new Posting to `self.postings` | not executed | Journal.Transaction.AddAsWritten | Journal.Transaction.Add |
| pyledgertools/ledger2python.py:26-60 | `import_journal` has no return statement, and every handler returns None | any journal: the caller gets None, not the list of entries a test expects | return the classified entries in block order | not executed | Ledger2Python.ImportJournalAsWritten | Ledger2Python.ImportJournal |
| pyledgertools/rule_parser.py:197-200 | FIELDS is not defined in `rule_parser.py`; the bare `except` turns the NameError into "" | the rule made for payee "ABC" against a transaction whose payee is "ABC" is false | look the field up in the FIELDS table of `ofx2ledger.py` | not executed | Ofx2Ledger.UndefinedFieldsMissPayee | Ofx2Ledger.FieldsMatchPayee |
