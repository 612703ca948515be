/** The rule engine: the comparators a leaf condition names, the
    combinators a group names, the reading of a leaf condition
    `"<field> <COMPARATOR> <value>"`, the evaluation of a condition tree
    against one transaction, and the payee sanitiser used when a rule is
    made for an unmatched payee (pyledgertools/rule_parser.py). */
module RuleParser {
  import opened Wrappers
  import opened Text
  import opened Numbers

  // ---------------------------------------------------------------------
  // Comparators: each takes the value written in the rule and the value
  // taken from the transaction, and returns a truth value or raises.
  // ---------------------------------------------------------------------

  datatype Comparator = CONTAINS | STARTS_WITH | ENDS_WITH | EQUALS | GT | GE | LT | LE | MOD {
    predicate IsOrder() {
      this == GT || this == GE || this == LT || this == LE
    }
  }

  /** CONTAINS: the rule value occurs in the transaction value, ignoring
      case; whitespace is kept on both sides. */
  function Contains(ruleValue: string, tranValue: string): (r: bool)
    ensures r <==> Occurs(Lower(tranValue), Lower(ruleValue))
  {
    FindOccurs(Lower(tranValue), Lower(ruleValue));
    Find(Lower(tranValue), Lower(ruleValue)) >= 0
  }

  /** STARTS_WITH: the transaction value, lowered and stripped, begins
      with the lowered rule value. */
  function StartsWithValue(ruleValue: string, tranValue: string): bool {
    StartsWith(Strip(Lower(tranValue)), Lower(ruleValue))
  }

  /** ENDS_WITH: the transaction value, lowered and stripped, ends with
      the lowered rule value. */
  function EndsWithValue(ruleValue: string, tranValue: string): bool {
    EndsWith(Strip(Lower(tranValue)), Lower(ruleValue))
  }

  /** EQUALS: numeric equality when both values read as numbers; text
      equality of the lowered rule value and the lowered, stripped
      transaction value when the rule value is not a number; and when only
      the rule value is a number, the fallback calls `lower` on a float. */
  function Equals(ruleValue: string, tranValue: string): (r: Result<bool, Exception>)
    ensures r.Failure? <==> ParseNumber(ruleValue).Some? && ParseNumber(tranValue).None?
    ensures r.Failure? ==> r.error == AttributeError("lower")
    ensures ParseNumber(ruleValue).Some? && ParseNumber(tranValue).Some? ==>
      r == Success(ParseNumber(ruleValue).value == ParseNumber(tranValue).value)
    ensures ParseNumber(ruleValue).None? ==> r == Success(Lower(ruleValue) == Strip(Lower(tranValue)))
  {
    match ParseNumber(ruleValue)
    case None => Success(Lower(ruleValue) == Strip(Lower(tranValue)))
    case Some(x) =>
      match ParseNumber(tranValue)
      case None => Failure(AttributeError("lower"))
      case Some(y) => Success(x == y)
  }

  /** The numeric test of an ordering comparator, the rule value first:
      GT holds when the rule value is below the transaction value. */
  function NumberOrder(c: Comparator, x: real, y: real): bool
    requires c.IsOrder()
  {
    match c
    case GT => x < y
    case GE => x <= y
    case LT => x > y
    case LE => x >= y
  }

  /** The textual test of an ordering comparator, Python's string order. */
  function TextOrder(c: Comparator, a: string, b: string): bool
    requires c.IsOrder()
  {
    match c
    case GT => LexLt(a, b)
    case GE => LexLe(a, b)
    case LT => LexLt(b, a)
    case LE => LexLe(b, a)
  }

  /** GT, GE, LT and LE: like EQUALS, but the textual fallback lowers both
      values and strips neither. */
  function Ordered(c: Comparator, ruleValue: string, tranValue: string): (r: Result<bool, Exception>)
    requires c.IsOrder()
    ensures r.Failure? <==> ParseNumber(ruleValue).Some? && ParseNumber(tranValue).None?
    ensures r.Failure? ==> r.error == AttributeError("lower")
  {
    OrderOf(c, ParseNumber(ruleValue), ParseNumber(tranValue), Lower(ruleValue), Lower(tranValue))
  }

  /** On two numbers each ordering comparator puts the rule value first:
      GT holds when the rule value is below the transaction value, LT when
      it is above. */
  lemma OrderedNumbers(ruleValue: string, tranValue: string)
    requires ParseNumber(ruleValue).Some? && ParseNumber(tranValue).Some?
    ensures var x, y := ParseNumber(ruleValue).value, ParseNumber(tranValue).value;
      Ordered(GT, ruleValue, tranValue) == Success(x < y) &&
      Ordered(GE, ruleValue, tranValue) == Success(x <= y) &&
      Ordered(LT, ruleValue, tranValue) == Success(y < x) &&
      Ordered(LE, ruleValue, tranValue) == Success(y <= x)
  {
    OrderOfNumbers(ParseNumber(ruleValue).value, ParseNumber(tranValue).value, Lower(ruleValue), Lower(tranValue));
  }

  lemma OrderOfNumbers(x: real, y: real, a: string, b: string)
    ensures OrderOf(GT, Some(x), Some(y), a, b) == Success(x < y)
    ensures OrderOf(GE, Some(x), Some(y), a, b) == Success(x <= y)
    ensures OrderOf(LT, Some(x), Some(y), a, b) == Success(y < x)
    ensures OrderOf(LE, Some(x), Some(y), a, b) == Success(y <= x)
  {
  }

  /** When the rule value is not a number, the comparators compare the
      lowered values in Python's string order, the rule value first. */
  lemma OrderedText(ruleValue: string, tranValue: string)
    requires ParseNumber(ruleValue).None?
    ensures var a, b := Lower(ruleValue), Lower(tranValue);
      Ordered(GT, ruleValue, tranValue) == Success(LexLt(a, b)) &&
      Ordered(GE, ruleValue, tranValue) == Success(LexLe(a, b)) &&
      Ordered(LT, ruleValue, tranValue) == Success(LexLt(b, a)) &&
      Ordered(LE, ruleValue, tranValue) == Success(LexLe(b, a))
  {
    OrderOfText(ParseNumber(tranValue), Lower(ruleValue), Lower(tranValue));
  }

  lemma OrderOfText(y: Option<real>, a: string, b: string)
    ensures OrderOf(GT, None, y, a, b) == Success(LexLt(a, b))
    ensures OrderOf(GE, None, y, a, b) == Success(LexLe(a, b))
    ensures OrderOf(LT, None, y, a, b) == Success(LexLt(b, a))
    ensures OrderOf(LE, None, y, a, b) == Success(LexLe(b, a))
  {
  }

  /** An ordering comparator given what `float` made of both values and
      the lowered values for the textual fallback. */
  function OrderOf(c: Comparator, x: Option<real>, y: Option<real>, a: string, b: string): Result<bool, Exception>
    requires c.IsOrder()
  {
    match x
    case None => Success(TextOrder(c, a, b))
    case Some(xv) =>
      match y
      case None => Failure(AttributeError("lower"))
      case Some(yv) => Success(NumberOrder(c, xv, yv))
  }

  /** `t` is a whole multiple of `r`: `t % r == 0` on exact numbers. */
  predicate IsMultiple(t: real, r: real)
    requires r != 0.0
  {
    (t / r).Floor as real == t / r
  }

  function Times(k: int, r: real): real {
    k as real * r
  }

  /** MOD: the transaction value is read first, then the rule value; a
      zero modulus raises. */
  function Mod(ruleValue: string, tranValue: string): (r: Result<bool, Exception>)
    ensures ParseNumber(tranValue).None? ==> r == Failure(ValueError(tranValue))
    ensures r == Failure(ZeroDivisionError) <==> ParseNumber(tranValue).Some? && ParseNumber(ruleValue) == Some(0.0)
    ensures ParseNumber(tranValue).Some? && ParseNumber(ruleValue).None? ==> r == Failure(ValueError(ruleValue))
    ensures r.Success? <==> ParseNumber(tranValue).Some? && ParseNumber(ruleValue).Some? && ParseNumber(ruleValue) != Some(0.0)
  {
    match ParseNumber(tranValue)
    case None => Failure(ValueError(tranValue))
    case Some(t) =>
      match ParseNumber(ruleValue)
      case None => Failure(ValueError(ruleValue))
      case Some(m) => if m == 0.0 then Failure(ZeroDivisionError) else Success(IsMultiple(t, m))
  }

  /** The comparator a leaf names, applied to the rule value and the
      transaction value. */
  function Compare(c: Comparator, ruleValue: string, tranValue: string): Result<bool, Exception> {
    match c
    case CONTAINS => Success(Contains(ruleValue, tranValue))
    case STARTS_WITH => Success(StartsWithValue(ruleValue, tranValue))
    case ENDS_WITH => Success(EndsWithValue(ruleValue, tranValue))
    case EQUALS => Equals(ruleValue, tranValue)
    case MOD => Mod(ruleValue, tranValue)
    case _ => Ordered(c, ruleValue, tranValue)
  }

  // ---------------------------------------------------------------------
  // Combinators: each folds the list of its children's results.
  // ---------------------------------------------------------------------

  datatype Combinator = AND | OR | NAND | NOR | XOR

  /** AND: no result is false (so an empty list gives true). */
  function And(bools: seq<bool>): (r: bool)
    ensures r <==> forall i :: 0 <= i < |bools| ==> bools[i]
  {
    false !in bools
  }

  /** OR: some result is true (so an empty list gives false). */
  function Or(bools: seq<bool>): (r: bool)
    ensures r <==> exists i :: 0 <= i < |bools| && bools[i]
  {
    true in bools
  }

  function Nand(bools: seq<bool>): (r: bool)
    ensures r <==> exists i :: 0 <= i < |bools| && !bools[i]
  {
    !And(bools)
  }

  function Nor(bools: seq<bool>): (r: bool)
    ensures r <==> forall i :: 0 <= i < |bools| ==> !bools[i]
  {
    !Or(bools)
  }

  /** The number of true results: how often `true` occurs in the list. */
  function CountTrue(bools: seq<bool>): (n: nat)
    ensures n == multiset(bools)[true]
  {
    if |bools| == 0 then 0
    else
      var init := bools[..|bools| - 1];
      assert bools == init + [bools[|bools| - 1]];
      CountTrue(init) + if bools[|bools| - 1] then 1 else 0
  }

  /** XOR: an odd number of results are true. */
  function Xor(bools: seq<bool>): bool {
    CountTrue(bools) % 2 != 0
  }

  function Combine(l: Combinator, bools: seq<bool>): bool {
    match l
    case AND => And(bools)
    case OR => Or(bools)
    case NAND => Nand(bools)
    case NOR => Nor(bools)
    case XOR => Xor(bools)
  }

  /** XOR of two lists run one after the other is the XOR of their XORs. */
  lemma XorAppend(a: seq<bool>, b: seq<bool>)
    ensures Xor(a + b) == (Xor(a) != Xor(b))
  {
    assert multiset(a + b) == multiset(a) + multiset(b);
  }

  /** XOR of `n` true results holds exactly when `n` is odd. */
  lemma {:induction false} XorAllTrue(bools: seq<bool>)
    requires forall i :: 0 <= i < |bools| ==> bools[i]
    ensures Xor(bools) <==> |bools| % 2 == 1
  {
    if |bools| > 0 {
      var init := bools[..|bools| - 1];
      XorAllTrue(init);
      XorAppend(init, [true]);
      assert bools == init + [true];
    }
  }

  // ---------------------------------------------------------------------
  // Looking a function up by the name a rule gives
  // ---------------------------------------------------------------------

  function ComparatorName(c: Comparator): string {
    match c
    case CONTAINS => "CONTAINS"
    case STARTS_WITH => "STARTS_WITH"
    case ENDS_WITH => "ENDS_WITH"
    case EQUALS => "EQUALS"
    case GT => "GT"
    case GE => "GE"
    case LT => "LT"
    case LE => "LE"
    case MOD => "MOD"
  }

  function CombinatorName(l: Combinator): string {
    match l
    case AND => "AND"
    case OR => "OR"
    case NAND => "NAND"
    case NOR => "NOR"
    case XOR => "XOR"
  }

  /** A module-level function of the rule engine that a rule can name. */
  datatype Callable = Comparison(c: Comparator) | Combination(l: Combinator)

  /** `getattr(module, name)` restricted to the fourteen comparator and
      combinator names. The module's other attributes (`walk_rules`,
      `check_condition`, `make_rule`, `build_rules`, the imported modules
      and the dunder names) are not modelled: the model treats every name
      outside the fourteen as not found. */
  function Lookup(name: string): Option<Callable> {
    if name == "CONTAINS" then Some(Comparison(CONTAINS))
    else if name == "STARTS_WITH" then Some(Comparison(STARTS_WITH))
    else if name == "ENDS_WITH" then Some(Comparison(ENDS_WITH))
    else if name == "EQUALS" then Some(Comparison(EQUALS))
    else if name == "GT" then Some(Comparison(GT))
    else if name == "GE" then Some(Comparison(GE))
    else if name == "LT" then Some(Comparison(LT))
    else if name == "LE" then Some(Comparison(LE))
    else if name == "MOD" then Some(Comparison(MOD))
    else if name == "AND" then Some(Combination(AND))
    else if name == "OR" then Some(Combination(OR))
    else if name == "NAND" then Some(Combination(NAND))
    else if name == "NOR" then Some(Combination(NOR))
    else if name == "XOR" then Some(Combination(XOR))
    else None
  }

  /** Every comparator and combinator is found under its own name, and
      only there. */
  lemma LookupByName(name: string, c: Comparator, l: Combinator)
    ensures Lookup(ComparatorName(c)) == Some(Comparison(c))
    ensures Lookup(CombinatorName(l)) == Some(Combination(l))
    ensures Lookup(name) == Some(Comparison(c)) ==> name == ComparatorName(c)
    ensures Lookup(name) == Some(Combination(l)) ==> name == CombinatorName(l)
  {
    LookupComparator(name, c);
    LookupCombinator(name, l);
  }

  lemma LookupComparator(name: string, c: Comparator)
    ensures Lookup(ComparatorName(c)) == Some(Comparison(c))
    ensures Lookup(name) == Some(Comparison(c)) ==> name == ComparatorName(c)
  {
  }

  lemma LookupCombinator(name: string, l: Combinator)
    ensures Lookup(CombinatorName(l)) == Some(Combination(l))
    ensures Lookup(name) == Some(Combination(l)) ==> name == CombinatorName(l)
  {
  }

  // ---------------------------------------------------------------------
  // Properties of the comparators
  // ---------------------------------------------------------------------

  /** MOD holds exactly when the transaction value is a whole multiple of
      the rule value. */
  lemma ModMultiple(ruleValue: string, tranValue: string)
    requires Mod(ruleValue, tranValue).Success?
    ensures var t, m := ParseNumber(tranValue).value, ParseNumber(ruleValue).value;
      Mod(ruleValue, tranValue).value <==> exists k: int :: t == Times(k, m)
  {
    MultipleIff(ParseNumber(tranValue).value, ParseNumber(ruleValue).value);
  }

  lemma MultipleIff(t: real, m: real)
    requires m != 0.0
    ensures IsMultiple(t, m) <==> exists k: int :: t == Times(k, m)
  {
    var q := t / m;
    assert t == q * m;
    if q.Floor as real == q {
      assert t == Times(q.Floor, m);
    }
    if k: int :| t == Times(k, m) {
      assert q == k as real;
    }
  }

  /** GT and LE answer opposite questions: whenever one of them succeeds,
      so does the other, with the opposite answer; likewise GE and LT. */
  lemma OrderComplements(ruleValue: string, tranValue: string)
    ensures Ordered(GT, ruleValue, tranValue).Success? == Ordered(LE, ruleValue, tranValue).Success?
    ensures Ordered(GT, ruleValue, tranValue).Success? ==>
      Ordered(GT, ruleValue, tranValue).value == !Ordered(LE, ruleValue, tranValue).value
    ensures Ordered(GE, ruleValue, tranValue).Success? ==>
      Ordered(GE, ruleValue, tranValue).value == !Ordered(LT, ruleValue, tranValue).value
  {
    OrderOfComplements(ParseNumber(ruleValue), ParseNumber(tranValue), Lower(ruleValue), Lower(tranValue));
  }

  lemma OrderOfComplements(x: Option<real>, y: Option<real>, a: string, b: string)
    ensures OrderOf(GT, x, y, a, b).Success? == OrderOf(LE, x, y, a, b).Success?
    ensures OrderOf(GT, x, y, a, b).Success? ==> OrderOf(GT, x, y, a, b).value == !OrderOf(LE, x, y, a, b).value
    ensures OrderOf(GE, x, y, a, b).Success? ==> OrderOf(GE, x, y, a, b).value == !OrderOf(LT, x, y, a, b).value
  {
  }

  /** GE and LE both holding means the values are equal: as numbers, or
      as lowered text. */
  lemma OrderAntisymmetric(ruleValue: string, tranValue: string)
    requires Ordered(GE, ruleValue, tranValue) == Success(true)
    requires Ordered(LE, ruleValue, tranValue) == Success(true)
    ensures ParseNumber(ruleValue).Some? ==> ParseNumber(ruleValue) == ParseNumber(tranValue)
    ensures ParseNumber(ruleValue).None? ==> Lower(ruleValue) == Lower(tranValue)
  {
    var x, y := ParseNumber(ruleValue), ParseNumber(tranValue);
    var a, b := Lower(ruleValue), Lower(tranValue);
    assert OrderOf(GE, x, y, a, b) == Success(true) && OrderOf(LE, x, y, a, b) == Success(true);
    if x.None? {
      LexLeAntisymmetric(a, b);
    }
  }

  /** Swapping the two values turns GT into LT when both values read as
      numbers or neither does. */
  lemma OrderSwap(a: string, b: string)
    requires ParseNumber(a).Some? == ParseNumber(b).Some?
    ensures Ordered(GT, a, b) == Ordered(LT, b, a)
    ensures Ordered(GE, a, b) == Ordered(LE, b, a)
  {
    OrderOfSwap(ParseNumber(a), ParseNumber(b), Lower(a), Lower(b));
  }

  lemma OrderOfSwap(x: Option<real>, y: Option<real>, a: string, b: string)
    requires x.Some? == y.Some?
    ensures OrderOf(GT, x, y, a, b) == OrderOf(LT, y, x, b, a)
    ensures OrderOf(GE, x, y, a, b) == OrderOf(LE, y, x, b, a)
  {
  }

  /** Lowering either value beforehand changes none of the text tests. */
  lemma TextTestsIgnoreCase(ruleValue: string, tranValue: string)
    ensures Contains(Lower(ruleValue), Lower(tranValue)) == Contains(ruleValue, tranValue)
    ensures StartsWithValue(Lower(ruleValue), Lower(tranValue)) == StartsWithValue(ruleValue, tranValue)
    ensures EndsWithValue(Lower(ruleValue), Lower(tranValue)) == EndsWithValue(ruleValue, tranValue)
  {
    LowerIdempotent(ruleValue);
    LowerIdempotent(tranValue);
  }

  predicate AllSpace(s: string) {
    forall i :: 0 <= i < |s| ==> IsSpace(s[i])
  }

  lemma LowerPadded(s: string, left: string, right: string)
    requires AllSpace(left) && AllSpace(right)
    ensures Lower(left + s + right) == Lower(left) + Lower(s) + Lower(right)
    ensures AllSpace(Lower(left)) && AllSpace(Lower(right))
  {
    assert Lower(left + s + right) == Lower(left) + Lower(s) + Lower(right);
  }

  /** Whitespace around the transaction value changes neither
      STARTS_WITH, ENDS_WITH nor EQUALS. */
  lemma PaddingIgnored(ruleValue: string, tranValue: string, left: string, right: string)
    requires AllSpace(left) && AllSpace(right)
    ensures StartsWithValue(ruleValue, left + tranValue + right) == StartsWithValue(ruleValue, tranValue)
    ensures EndsWithValue(ruleValue, left + tranValue + right) == EndsWithValue(ruleValue, tranValue)
    ensures Equals(ruleValue, left + tranValue + right) == Equals(ruleValue, tranValue)
  {
    LowerPadded(tranValue, left, right);
    StripPadded(Lower(tranValue), Lower(left), Lower(right));
    StripPadded(tranValue, left, right);
    ParseNumberPadded(tranValue, left, right);
  }

  lemma ParseNumberPadded(s: string, left: string, right: string)
    requires AllSpace(left) && AllSpace(right)
    ensures ParseNumber(left + s + right) == ParseNumber(s)
  {
    StripPadded(s, left, right);
    assert ParseDecimal(left + s + right) == ParseDecimal(s);
  }

  /** CONTAINS keeps whatever it finds when text is added around the
      transaction value. */
  lemma ContainsExtended(ruleValue: string, tranValue: string, left: string, right: string)
    requires Contains(ruleValue, tranValue)
    ensures Contains(ruleValue, left + tranValue + right)
  {
    var s, sub := Lower(tranValue), Lower(ruleValue);
    var k :| OccursAt(s, sub, k);
    LowerAppend(left, tranValue);
    LowerAppend(left + tranValue, right);
    OccursAtExtend(s, sub, k, Lower(left), Lower(right));
  }

  lemma HundredDigits()
    ensures AllDigits("100") && DigitsValue("100") == 100
    ensures AllDigits("00") && DigitsValue("00") == 0
  {
    DigitsValueSnoc("", '1');
    DigitsValueSnoc("1", '0');
    DigitsValueSnoc("10", '0');
    assert "" + ['1'] == "1" && "1" + ['0'] == "10" && "10" + ['0'] == "100";
    DigitsValueSnoc("", '0');
    DigitsValueSnoc("0", '0');
    assert "" + ['0'] == "0" && "0" + ['0'] == "00";
  }

  lemma HundredWhole()
    ensures ParseNumber("100") == Some(100.0)
  {
    HundredDigits();
    ParseWhole("100");
    ValueWhole(100);
  }

  lemma FiftyDigits()
    ensures AllDigits("50") && DigitsValue("50") == 50
  {
    DigitsValueSnoc("", '5');
    DigitsValueSnoc("5", '0');
    assert "" + ['5'] == "5" && "5" + ['0'] == "50";
  }

  lemma FiftyWhole()
    ensures ParseNumber("50") == Some(50.0)
  {
    FiftyDigits();
    ParseWhole("50");
    ValueWhole(50);
  }

  /** GT("50", "100") holds: 50 is below 100, so the transaction value is
      greater than the rule value. */
  lemma GreaterExample()
    ensures Ordered(GT, "50", "100") == Success(true)
    ensures Ordered(LT, "50", "100") == Success(false)
  {
    FiftyWhole();
    HundredWhole();
    OrderedNumbers("50", "100");
  }

  lemma HundredCentsUnsigned()
    ensures ParseUnsigned("100.00") == Some(Decimal(10000, 2))
  {
    HundredDigits();
    ParseUnsignedSplit("100", "00");
    DigitsValueTwoMore("100", "00");
    var s := "100" + "." + "00";
    assert s == "100.00";
    assert ParseUnsigned(s) == Some(Decimal(10000, 2));
  }

  lemma HundredCents()
    ensures ParseDecimal("100.00") == Some(Decimal(10000, 2))
  {
    HundredCentsUnsigned();
    ParseDigitBounded("100.00");
  }

  lemma NumberExamples()
    ensures ParseNumber("100") == Some(100.0)
    ensures ParseNumber("100.00") == Some(100.0)
  {
    HundredWhole();
    HundredCents();
    CentsValue(10000);
  }

  /** EQUALS reads "100" and "100.00" as the same number. */
  lemma EqualsNumberExample()
    ensures Equals("100", "100.00") == Success(true)
  {
    NumberExamples();
  }

  lemma LowerExamples()
    ensures Lower("ABC") == "abc" && Lower(" abc ") == " abc "
  {
  }

  lemma StripExample()
    ensures Strip(" abc ") == "abc"
  {
    assert " abc "[1..] == "abc ";
    assert !IsSpace('a');
    assert LStrip(" abc ") == "abc ";
    assert "abc "[..3] == "abc";
    assert RStrip("abc ") == "abc";
  }

  /** EQUALS falls back to text, ignoring case and the transaction value's
      surrounding whitespace. */
  lemma EqualsTextExample()
    ensures Equals("ABC", " abc ") == Success(true)
  {
    ParseLetterStart("ABC");
    LowerExamples();
    StripExample();
  }

  lemma LetterNotNumber()
    ensures ParseNumber("abc") == None
  {
    ParseLetterStart("abc");
  }

  /** A numeric rule value against a transaction value that is not a
      number raises. */
  lemma EqualsMixedExample()
    ensures Equals("100", "abc") == Failure(AttributeError("lower"))
  {
    HundredWhole();
    LetterNotNumber();
  }

  // ---------------------------------------------------------------------
  // Leaf conditions and condition trees
  // ---------------------------------------------------------------------

  /** A node of a rule's condition tree as loaded from YAML: a string leaf,
      a one-key mapping from a combinator name to its children, or any
      other value. */
  datatype Condition = Leaf(text: string) | Group(op: string, children: seq<Condition>) | Other

  /** The three parts of a leaf: field name, comparator name, rule value. */
  datatype Test = Test(field: string, comparator: string, value: string)

  /** `condition.split(' ')`: the first token names the field, the second
      the comparator, and the rest joined back with spaces is the value;
      fewer than two tokens raise IndexError. */
  function ParseCondition(text: string): Result<Test, Exception> {
    var toks := Split(text, " ");
    if |toks| < 2 then Failure(IndexError)
    else Success(Test(toks[0], toks[1], Join(toks[2..], " ")))
  }

  lemma NoSpaceFound(s: string)
    requires Find(s, " ") < 0
    ensures ' ' !in s
  {
    FindSpec(s, " ");
    forall k | 0 <= k < |s|
      ensures s[k] != ' '
    {
      assert !OccursAt(s, " ", k);
      assert s[k..k + 1] == [s[k]];
    }
  }

  /** A leaf reads as its first two space-free tokens and exactly the
      text after the second space; text without a space raises. */
  lemma ParseConditionShape(text: string)
    ensures ParseCondition(text).Failure? <==> ' ' !in text
    ensures ParseCondition(text).Failure? ==> ParseCondition(text).error == IndexError
    ensures ParseCondition(text).Success? ==>
      var t := ParseCondition(text).value;
      ' ' !in t.field && ' ' !in t.comparator &&
      (text == t.field + " " + t.comparator + " " + t.value ||
       (t.value == "" && text == t.field + " " + t.comparator))
  {
    var toks := Split(text, " ");
    if |toks| < 2 {
      SplitOnePiece(text);
    } else {
      SplitTwoPieces(text);
      var value := Join(toks[2..], " ");
      if |toks| > 2 {
        calc {
          text;
          toks[0] + " " + toks[1] + (" " + value);
          toks[0] + " " + toks[1] + " " + value;
        }
      } else {
        assert toks[2..] == [];
      }
    }
  }

  /** Text that splits into one piece has no space. */
  lemma SplitOnePiece(text: string)
    requires |Split(text, " ")| < 2
    ensures ' ' !in text
  {
    JoinSplit(text, " ");
    SplitPieces(text, " ");
    assert Split(text, " ") == [text];
    NoSpaceFound(text);
  }

  /** Text that splits into two or more pieces has a space, its first two
      pieces have none, and it is those pieces with the rest joined on. */
  lemma SplitTwoPieces(text: string)
    requires |Split(text, " ")| >= 2
    ensures var toks := Split(text, " ");
      ' ' in text && ' ' !in toks[0] && ' ' !in toks[1] &&
      text == toks[0] + " " + toks[1] + (if |toks| > 2 then " " + Join(toks[2..], " ") else "")
  {
    var toks := Split(text, " ");
    JoinSplit(text, " ");
    SplitPieces(text, " ");
    NoSpaceFound(toks[0]);
    NoSpaceFound(toks[1]);
    JoinFirstTwo(toks, " ");
    assert text[|toks[0]|] == ' ';
  }

  /** Conversely, a field and a comparator without spaces followed by any
      value read back as themselves. */
  lemma ParseConditionOf(field: string, comparator: string, value: string)
    requires ' ' !in field && ' ' !in comparator
    ensures ParseCondition(field + " " + comparator + " " + value) == Success(Test(field, comparator, value))
  {
    var text := field + " " + comparator + " " + value;
    var vs := Split(value, " ");
    SplitFirstTwo(field, comparator, value, " ");
    var toks := Split(text, " ");
    assert toks[0] == field && toks[1] == comparator && toks[2..] == vs;
    JoinSplit(value, " ");
  }

  /** The transaction value a field names: the entry at the field's
      position, or the empty string when the field is unknown or the
      transaction is too short (the bare `except` of the lookup). */
  function FieldValue(fields: map<string, nat>, trans: seq<string>, field: string): string {
    if field in fields && fields[field] < |trans| then trans[fields[field]] else ""
  }

  /** `check_condition`: read the leaf, find its comparator, look the
      field up and compare. Naming a combinator raises TypeError (it takes
      one argument, not two); a name outside the fourteen modelled ones
      raises AttributeError. */
  function CheckCondition(text: string, fields: map<string, nat>, trans: seq<string>): Result<bool, Exception> {
    var t :- ParseCondition(text);
    match Lookup(t.comparator)
    case None => Failure(AttributeError(t.comparator))
    case Some(Combination(_)) => Failure(TypeError(t.comparator))
    case Some(Comparison(c)) => Compare(c, t.value, FieldValue(fields, trans, t.field))
  }

  /** `walk_rules(children, trans, op)`: evaluate every child in order,
      then apply the combinator `op` names to their results. Naming a
      comparator raises TypeError (it takes two arguments, not one); a
      name outside the fourteen modelled ones raises AttributeError. */
  function WalkRules(children: seq<Condition>, op: string, fields: map<string, nat>, trans: seq<string>): Result<bool, Exception>
    decreases children, 1
  {
    var results :- EvalChildren(children, None, fields, trans);
    match Lookup(op)
    case None => Failure(AttributeError(op))
    case Some(Comparison(_)) => Failure(TypeError(op))
    case Some(Combination(l)) => Success(Combine(l, results))
  }

  /** The loop of `walk_rules`: `prev` is the value `res` holds from the
      previous child, which a child that is neither a mapping nor a string
      appends again. */
  function EvalChildren(children: seq<Condition>, prev: Option<bool>, fields: map<string, nat>, trans: seq<string>): Result<seq<bool>, Exception>
    decreases children, 0
  {
    if |children| == 0 then Success([])
    else
      var res :- EvalOne(children[0], prev, fields, trans);
      var rest :- EvalChildren(children[1..], Some(res), fields, trans);
      Success([res] + rest)
  }

  function EvalOne(c: Condition, prev: Option<bool>, fields: map<string, nat>, trans: seq<string>): Result<bool, Exception>
    decreases c
  {
    match c
    case Leaf(text) => CheckCondition(text, fields, trans)
    case Group(op, children) => WalkRules(children, op, fields, trans)
    case Other => if prev.Some? then Success(prev.value) else Failure(UnboundLocalError("res"))
  }

  /** The value `res` holds after the results `rs`: the last of them, or
      what it held before when there are none. */
  function LastOr(prev: Option<bool>, rs: seq<bool>): Option<bool> {
    if |rs| == 0 then prev else Some(rs[|rs| - 1])
  }

  /** One result per child, in child order, each the child's own value. */
  lemma {:induction false} EvalChildrenResults(children: seq<Condition>, prev: Option<bool>, fields: map<string, nat>, trans: seq<string>)
    requires EvalChildren(children, prev, fields, trans).Success?
    ensures var rs := EvalChildren(children, prev, fields, trans).value;
      |rs| == |children| &&
      forall i :: 0 <= i < |children| ==> EvalOne(children[i], LastOr(prev, rs[..i]), fields, trans) == Success(rs[i])
  {
    if |children| > 0 {
      var res := EvalOne(children[0], prev, fields, trans).value;
      EvalChildrenResults(children[1..], Some(res), fields, trans);
      var rest := EvalChildren(children[1..], Some(res), fields, trans).value;
      var rs := EvalChildren(children, prev, fields, trans).value;
      assert rs == [res] + rest;
      forall i | 0 <= i < |children|
        ensures EvalOne(children[i], LastOr(prev, rs[..i]), fields, trans) == Success(rs[i])
      {
        if i > 0 {
          assert rs[..i] == [res] + rest[..i - 1];
          assert LastOr(prev, rs[..i]) == LastOr(Some(res), rest[..i - 1]);
          assert children[i] == children[1..][i - 1] && rs[i] == rest[i - 1];
        }
      }
    }
  }

  /** No short cut: when the children before `c` succeed and `c` raises,
      the whole list raises that error, whatever the earlier children
      answered and whatever follows. */
  lemma {:induction false} EvalChildrenError(before: seq<Condition>, c: Condition, after: seq<Condition>, prev: Option<bool>, fields: map<string, nat>, trans: seq<string>)
    requires EvalChildren(before, prev, fields, trans).Success?
    requires EvalOne(c, LastOr(prev, EvalChildren(before, prev, fields, trans).value), fields, trans).Failure?
    ensures EvalChildren(before + [c] + after, prev, fields, trans) ==
      Failure(EvalOne(c, LastOr(prev, EvalChildren(before, prev, fields, trans).value), fields, trans).error)
    decreases |before|
  {
    if |before| == 0 {
      assert before + [c] + after == [c] + after;
    } else {
      var res := EvalOne(before[0], prev, fields, trans).value;
      assert (before + [c] + after)[1..] == before[1..] + [c] + after;
      EvalChildrenError(before[1..], c, after, Some(res), fields, trans);
      var rest := EvalChildren(before[1..], Some(res), fields, trans).value;
      assert LastOr(prev, [res] + rest) == LastOr(Some(res), rest);
    }
  }

  /** Every child evaluates to true, the first with `prev` as the value
      `res` held before it and each later one after a true result. */
  predicate AllHold(children: seq<Condition>, prev: Option<bool>, fields: map<string, nat>, trans: seq<string>) {
    forall i :: 0 <= i < |children| ==>
      EvalOne(children[i], if i == 0 then prev else Some(true), fields, trans) == Success(true)
  }

  lemma {:induction false} AllHoldChildren(children: seq<Condition>, prev: Option<bool>, fields: map<string, nat>, trans: seq<string>)
    ensures (EvalChildren(children, prev, fields, trans).Success? && false !in EvalChildren(children, prev, fields, trans).value)
      <==> AllHold(children, prev, fields, trans)
  {
    if |children| > 0 {
      AllHoldChildren(children[1..], Some(true), fields, trans);
      var first := EvalOne(children[0], prev, fields, trans);
      if AllHold(children, prev, fields, trans) {
        assert first == Success(true);
        assert AllHold(children[1..], Some(true), fields, trans) by {
          forall i | 0 <= i < |children[1..]|
            ensures EvalOne(children[1..][i], if i == 0 then Some(true) else Some(true), fields, trans) == Success(true)
          {
            assert children[1..][i] == children[i + 1];
          }
        }
      }
      if EvalChildren(children, prev, fields, trans).Success? && false !in EvalChildren(children, prev, fields, trans).value {
        var rs := EvalChildren(children, prev, fields, trans).value;
        assert first == Success(rs[0]);
        assert rs[0] in rs;
        var rest := EvalChildren(children[1..], Some(true), fields, trans);
        assert rest.Success? && rs == [true] + rest.value;
        assert forall b :: b in rest.value ==> b in rs;
        forall i | 0 <= i < |children|
          ensures EvalOne(children[i], if i == 0 then prev else Some(true), fields, trans) == Success(true)
        {
          if i > 0 {
            assert children[i] == children[1..][i - 1];
          }
        }
      }
    }
  }

  /** An AND group holds exactly when every child evaluates and holds. */
  lemma AndGroup(children: seq<Condition>, fields: map<string, nat>, trans: seq<string>)
    ensures WalkRules(children, "AND", fields, trans) == Success(true) <==> AllHold(children, None, fields, trans)
  {
    AllHoldChildren(children, None, fields, trans);
  }

  lemma ParseLeafExample()
    ensures ParseCondition("PAYEE CONTAINS x") == Success(Test("PAYEE", "CONTAINS", "x"))
  {
    ParseConditionOf("PAYEE", "CONTAINS", "x");
    assert "PAYEE" + " " + "CONTAINS" + " " + "x" == "PAYEE CONTAINS x";
  }

  lemma FalseLeafExample(trans: seq<string>)
    ensures CheckCondition("PAYEE CONTAINS x", map[], trans) == Success(false)
  {
    ParseLeafExample();
    assert Compare(CONTAINS, "x", "") == Success(false) by {
      assert Find(Lower(""), Lower("x")) == -1;
    }
  }

  lemma ShortLeafExample(trans: seq<string>)
    ensures CheckCondition("PAYEE", map[], trans) == Failure(IndexError)
  {
    ParseConditionShape("PAYEE");
  }

  /** No short cut in a group: a later child that raises makes the group
      raise even when an earlier child has already decided the answer. */
  lemma GroupRaisesAfterFalse(first: Condition, second: Condition, op: string, fields: map<string, nat>, trans: seq<string>)
    requires EvalOne(first, None, fields, trans) == Success(false)
    requires EvalOne(second, Some(false), fields, trans).Failure?
    ensures WalkRules([first, second], op, fields, trans) == Failure(EvalOne(second, Some(false), fields, trans).error)
  {
    assert EvalChildren([first], None, fields, trans) == Success([false]) by {
      assert [first][0] == first && [first][1..] == [];
      assert EvalChildren([], Some(false), fields, trans) == Success([]);
      assert [false] + [] == [false];
    }
    EvalChildrenError([first], second, [], None, fields, trans);
    assert [first] + [second] + [] == [first, second];
  }

  /** For instance, a leaf without a space after a false leaf. */
  lemma NoShortCircuitExample(trans: seq<string>)
    ensures WalkRules([Leaf("PAYEE CONTAINS x"), Leaf("PAYEE")], "AND", map[], trans) == Failure(IndexError)
  {
    FalseLeafExample(trans);
    ShortLeafExample(trans);
    GroupRaisesAfterFalse(Leaf("PAYEE CONTAINS x"), Leaf("PAYEE"), "AND", map[], trans);
  }

  // ---------------------------------------------------------------------
  // Rules and the rule made for an unmatched payee
  // ---------------------------------------------------------------------

  /** A YAML scalar as a rule's optional keys hold it. */
  datatype Scalar = Str(s: string) | Bool(b: bool) | Number(x: real) | Null

  /** Python truthiness of a scalar. */
  predicate Truthy(v: Scalar) {
    match v
    case Str(s) => |s| > 0
    case Bool(b) => b
    case Number(x) => x != 0.0
    case Null => false
  }

  /** One entry of the rule mapping: its `Conditions` list, its optional
      `Ignore` and `Change_Payee` values, and its allocation lines. */
  datatype Rule = Rule(conditions: seq<Condition>, ignore: Option<Scalar>, changePayee: Option<Scalar>, allocations: seq<string>)

  /** The characters the sanitiser keeps: ASCII letters and digits, space,
      newline, full stop and comma. */
  predicate Kept(c: char) {
    'a' <= c <= 'z' || 'A' <= c <= 'Z' || '0' <= c <= '9' || c == ' ' || c == '\n' || c == '.' || c == ','
  }

  /** `re.sub('[^a-zA-Z0-9 \n\.,]', '', payee)`. */
  function Sanitize(s: string): (r: string)
    ensures forall i :: 0 <= i < |r| ==> Kept(r[i])
  {
    if |s| == 0 then ""
    else if Kept(s[0]) then [s[0]] + Sanitize(s[1..])
    else Sanitize(s[1..])
  }

  /** The sanitiser works character by character, in order. */
  lemma {:induction false} SanitizeAppend(a: string, b: string)
    ensures Sanitize(a + b) == Sanitize(a) + Sanitize(b)
  {
    if |a| > 0 {
      assert (a + b)[0] == a[0] && (a + b)[1..] == a[1..] + b;
      SanitizeAppend(a[1..], b);
    } else {
      assert a + b == b;
    }
  }

  /** Every kept character survives as often as it occurs, and nothing
      else does. */
  lemma {:induction false} SanitizeCounts(s: string, c: char)
    ensures multiset(Sanitize(s))[c] == if Kept(c) then multiset(s)[c] else 0
  {
    if |s| > 0 {
      SanitizeCounts(s[1..], c);
      assert s == [s[0]] + s[1..];
    }
  }

  /** Text made only of kept characters is left as it is, and only such
      text. */
  lemma {:induction false} SanitizeFixed(s: string)
    ensures Sanitize(s) == s <==> forall i :: 0 <= i < |s| ==> Kept(s[i])
  {
    if |s| > 0 {
      SanitizeFixed(s[1..]);
      if !Kept(s[0]) {
        SanitizeCounts(s, s[0]);
        assert s[0] in multiset(s);
      } else if Sanitize(s[1..]) != s[1..] {
        assert Sanitize(s)[1..] == Sanitize(s[1..]);
      }
    }
  }

  lemma SanitizeIdempotent(s: string)
    ensures Sanitize(Sanitize(s)) == Sanitize(s)
  {
    SanitizeFixed(Sanitize(s));
  }

  /** `make_rule(payee, account)`: the rule template filled in with the
      sanitised payee and loaded as YAML. The leaf `- PAYEE CONTAINS
      {payee}` and the allocation `- 100 PERCENT {account}` are plain
      scalars, which lose their trailing whitespace. A newline the
      sanitiser keeps splits the quoted key `'{name}':` over two lines,
      and the YAML scanner rejects a key that is not on one line. */
  function MakeRule(payee: string, account: string): (r: Result<Rule, Exception>)
    ensures r.Failure? <==> '\n' in Sanitize(payee)
    ensures r.Failure? ==> r.error == YAMLError
  {
    var name := Sanitize(payee);
    if '\n' in name then Failure(YAMLError)
    else Success(Rule([Group("AND", [Leaf(RStrip("PAYEE CONTAINS " + name))])], None, Some(Bool(false)),
                      [RStrip("100 PERCENT " + account)]))
  }

  /** A group of one child answers what that child answers. */
  lemma SingleChildGroup(c: Condition, fields: map<string, nat>, trans: seq<string>)
    requires EvalOne(c, None, fields, trans).Success?
    ensures WalkRules([c], "AND", fields, trans) == EvalOne(c, None, fields, trans)
    ensures WalkRules([c], "OR", fields, trans) == EvalOne(c, None, fields, trans)
  {
    var b := EvalOne(c, None, fields, trans).value;
    assert EvalChildren([c], None, fields, trans) == Success([b]) by {
      assert [c][0] == c && [c][1..] == [];
      assert EvalChildren([], Some(b), fields, trans) == Success([]);
      assert [b] + [] == [b];
    }
  }

  lemma PayeeLeaf(p: string, fields: map<string, nat>, trans: seq<string>)
    ensures CheckCondition("PAYEE CONTAINS " + p, fields, trans) == Success(Contains(p, FieldValue(fields, trans, "PAYEE")))
  {
    assert "PAYEE" + " " + "CONTAINS" + " " == "PAYEE CONTAINS ";
    ParseConditionOf("PAYEE", "CONTAINS", p);
    LookupComparator("CONTAINS", CONTAINS);
  }

  /** A leaf whose value is empty after YAML dropped the trailing space
      still reads as CONTAINS with the empty value. */
  lemma BarePayeeLeaf(fields: map<string, nat>, trans: seq<string>)
    ensures CheckCondition("PAYEE CONTAINS", fields, trans) == Success(Contains("", FieldValue(fields, trans, "PAYEE")))
  {
    assert "PAYEE CONTAINS" == "PAYEE" + " " + "CONTAINS";
    ParseConditionBare("PAYEE", "CONTAINS");
    LookupComparator("CONTAINS", CONTAINS);
  }

  /** A field and a comparator with nothing after them read as a test of
      the empty value. */
  lemma ParseConditionBare(field: string, comparator: string)
    requires ' ' !in field && ' ' !in comparator
    ensures ParseCondition(field + " " + comparator) == Success(Test(field, comparator, ""))
  {
    SplitFirst(field, " ", comparator);
    FindSingleCharAbsent(comparator, " ");
    assert Split(comparator, " ") == [comparator];
    assert Split(field + " " + comparator, " ") == [field, comparator];
  }

  /** The leaf of a made rule, `PAYEE CONTAINS {payee}` with its trailing
      whitespace dropped, tests CONTAINS of the payee without its trailing
      whitespace. */
  lemma MadeLeaf(name: string, fields: map<string, nat>, trans: seq<string>)
    ensures CheckCondition(RStrip("PAYEE CONTAINS " + name), fields, trans) ==
      Success(Contains(RStrip(name), FieldValue(fields, trans, "PAYEE")))
  {
    RStripAppend("PAYEE CONTAINS ", name);
    if |RStrip(name)| > 0 {
      PayeeLeaf(RStrip(name), fields, trans);
    } else {
      assert RStrip("PAYEE CONTAINS ") == "PAYEE CONTAINS" by {
        assert "PAYEE CONTAINS "[..14] == "PAYEE CONTAINS";
      }
      BarePayeeLeaf(fields, trans);
    }
  }

  /** When the YAML loads, the rule made for a payee holds for a
      transaction exactly when the transaction's payee contains the
      sanitised payee without its trailing spaces, ignoring case. */
  lemma MakeRuleMatches(payee: string, account: string, fields: map<string, nat>, trans: seq<string>)
    ensures MakeRule(payee, account).Success? ==>
      var root := MakeRule(payee, account).value.conditions[0];
      root.Group? &&
      WalkRules(root.children, root.op, fields, trans) == Success(Contains(RStrip(Sanitize(payee)), FieldValue(fields, trans, "PAYEE")))
  {
    if MakeRule(payee, account).Success? {
      var leaf := Leaf(RStrip("PAYEE CONTAINS " + Sanitize(payee)));
      MadeLeaf(Sanitize(payee), fields, trans);
      SingleChildGroup(leaf, fields, trans);
    }
  }

  /** A payee with trailing spaces is matched by a transaction payee
      without them: "ABC " matches "ABC". */
  lemma TrailingSpaceExample(account: string, fields: map<string, nat>, trans: seq<string>)
    requires "PAYEE" in fields && fields["PAYEE"] < |trans| && trans[fields["PAYEE"]] == "ABC"
    ensures MakeRule("ABC ", account).Success?
    ensures var root := MakeRule("ABC ", account).value.conditions[0];
      WalkRules(root.children, root.op, fields, trans) == Success(true)
  {
    assert Sanitize("ABC ") == "ABC " by {
      assert forall i :: 0 <= i < |"ABC "| ==> Kept("ABC "[i]);
      SanitizeFixed("ABC ");
    }
    assert RStrip("ABC ") == "ABC" by {
      assert "ABC "[..3] == "ABC";
    }
    MakeRuleMatches("ABC ", account, fields, trans);
    OccursSelf(Lower("ABC"));
  }

  lemma OccursSelf(s: string)
    ensures Occurs(s, s)
  {
    assert OccursAt(s, s, 0) by {
      assert s[0..|s|] == s;
    }
  }

  /** A payee made only of kept characters is matched by its own rule. */
  lemma MakeRuleMatchesOwnPayee(payee: string, account: string, fields: map<string, nat>, trans: seq<string>)
    requires forall i :: 0 <= i < |payee| ==> Kept(payee[i])
    requires "PAYEE" in fields && fields["PAYEE"] < |trans| && trans[fields["PAYEE"]] == payee
    ensures '\n' in payee <==> MakeRule(payee, account).Failure?
    ensures '\n' !in payee ==>
      var root := MakeRule(payee, account).value.conditions[0];
      WalkRules(root.children, root.op, fields, trans) == Success(true)
  {
    SanitizeFixed(payee);
    if '\n' !in payee {
      MakeRuleMatches(payee, account, fields, trans);
      PrefixOccurs(payee, RStrip(payee));
    }
  }

  /** A prefix of a text occurs in it, also after lowering. */
  lemma PrefixOccurs(s: string, p: string)
    requires |p| <= |s| && p == s[..|p|]
    ensures Occurs(Lower(s), Lower(p))
  {
    assert OccursAt(Lower(s), Lower(p), 0) by {
      assert Lower(s)[0..|p|] == Lower(p);
    }
  }

  /** A payee with a dropped character need not match its own rule: the
      rule for "AB*C" looks for "ABC", which "AB*C" does not contain. */
  lemma MakeRuleMissesOwnPayee(account: string, fields: map<string, nat>, trans: seq<string>)
    requires "PAYEE" in fields && fields["PAYEE"] < |trans| && trans[fields["PAYEE"]] == "AB*C"
    ensures MakeRule("AB*C", account).Success?
    ensures var root := MakeRule("AB*C", account).value.conditions[0];
      WalkRules(root.children, root.op, fields, trans) == Success(false)
  {
    SanitizeExample();
    assert RStrip("ABC") == "ABC";
    MakeRuleMatches("AB*C", account, fields, trans);
    LowerExample();
    NotOccursExample();
  }

  lemma SanitizeExample()
    ensures Sanitize("AB*C") == "ABC"
  {
    assert "AB*C"[1..] == "B*C" && "B*C"[1..] == "*C" && "*C"[1..] == "C" && "C"[1..] == "";
  }

  lemma LowerExample()
    ensures Lower("AB*C") == "ab*c" && Lower("ABC") == "abc"
  {
  }

  lemma NotOccursExample()
    ensures !Occurs("ab*c", "abc")
  {
    forall k ensures !OccursAt("ab*c", "abc", k) {
      if 0 <= k <= 1 {
        assert "ab*c"[k + 2] != 'c' || "ab*c"[k + 1] != 'b';
        assert "ab*c"[k..k + 3][1] == "ab*c"[k + 1];
        assert "ab*c"[k..k + 3][2] == "ab*c"[k + 2];
      }
    }
  }
}
