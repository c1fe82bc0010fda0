/**
 * Amounts in words, Indian style. The quotation template reads a whole number
 * through hundreds, thousands, lakhs (10^5) and crores (10^7); the quotation page
 * reads rupees and paise through a two-digit rule only.
 */
module Words {
  import opened Wrappers
  import opened Numbers

  const Ones: seq<string> := [
    "", "One", "Two", "Three", "Four", "Five", "Six", "Seven", "Eight", "Nine",
    "Ten", "Eleven", "Twelve", "Thirteen", "Fourteen", "Fifteen",
    "Sixteen", "Seventeen", "Eighteen", "Nineteen"]

  const Tens: seq<string> := [
    "", "", "Twenty", "Thirty", "Forty", "Fifty", "Sixty", "Seventy", "Eighty", "Ninety"]

  /** An array read: JavaScript gives `undefined` past the end, which concatenates as "undefined". */
  function Lookup(table: seq<string>, k: nat): string {
    if k < |table| then table[k] else "undefined"
  }

  /**
   * The two-digit rule both pages share: the ones table below twenty, else the
   * tens word followed by the ones word when the last digit is nonzero. Applied
   * to 100 or more it reads past the tens table.
   */
  function TwoDigitWords(n: nat): (r: string)
    ensures n < 100 ==> (r == "" <==> n == 0)
    ensures 100 <= n ==> |r| >= 9 && r[..9] == "undefined"
  {
    if n < 20 then Ones[n]
    else Lookup(Tens, n / 10) + (if n % 10 != 0 then " " + Ones[n % 10] else "")
  }

  /** `(k ? ' ' + words : '')`: a nonzero remainder's words after a separating space. */
  function Remainder(k: nat, words: string): string {
    if k != 0 then " " + words else ""
  }

  /** `numToWords` of the quotation template. */
  function NumToWords(n: nat): (r: string)
    ensures r == "" <==> n == 0
    decreases n
  {
    if n < 100 then TwoDigitWords(n)
    else if n < 1000 then Ones[n / 100] + " Hundred" + Remainder(n % 100, NumToWords(n % 100))
    else if n < 100000 then NumToWords(n / 1000) + " Thousand" + Remainder(n % 1000, NumToWords(n % 1000))
    else if n < 10000000 then NumToWords(n / 100000) + " Lakh" + Remainder(n % 100000, NumToWords(n % 100000))
    else NumToWords(n / 10000000) + " Crore" + Remainder(n % 10000000, NumToWords(n % 10000000))
  }

  /** `numberToWords` of the quotation template, for whole amounts. */
  function NumberToWords(num: nat): (r: string)
    ensures num == 0 ==> r == "Zero Rupees Only"
    ensures num > 0 ==> |r| > 12 && r[|r| - 12..] == " Rupees Only"
    ensures num > 0 ==> WellSpaced(r[..|r| - 12]) && r[..|r| - 12] == Grouped(num)
  {
    if num == 0 then "Zero Rupees Only"
    else
      var w := NumToWords(num);
      NumToWordsWellSpaced(num);
      NumToWordsIsGrouped(num);
      assert (w + " Rupees Only")[..|w|] == w;
      w + " Rupees Only"
  }

  // ---------------------------------------------------------------------------
  // Spacing

  /** Non-empty, no space at either end, and never two spaces in a row. */
  predicate WellSpaced(s: string) {
    && |s| > 0 && s[0] != ' ' && s[|s| - 1] != ' '
    && forall i :: 0 < i < |s| && s[i] == ' ' ==> s[i - 1] != ' '
  }

  /** Joining two well-spaced texts with one space gives a well-spaced text. */
  lemma SpacedJoin(a: string, b: string)
    requires WellSpaced(a) && WellSpaced(b)
    ensures WellSpaced(a + (" " + b))
  {
    var s := a + (" " + b);
    forall i | 0 < i < |s| && s[i] == ' ' ensures s[i - 1] != ' ' {
      if i < |a| {
        assert s[i] == a[i] && s[i - 1] == a[i - 1];
      } else if i == |a| {
        assert s[i - 1] == a[|a| - 1];
      } else if i > |a| + 1 {
        assert s[i] == b[i - |a| - 1] && s[i - 1] == b[i - |a| - 2];
      }
    }
  }

  /** Every table word but the empty ones is a single word. */
  lemma TableWords(k: nat)
    ensures 1 <= k < 20 ==> WellSpaced(Ones[k])
    ensures 2 <= k < 10 ==> WellSpaced(Tens[k])
  {
  }

  lemma OneWord(s: string)
    requires |s| > 0 && ' ' !in s
    ensures WellSpaced(s)
  {
    assert s[0] in s && s[|s| - 1] in s;
  }

  /** `x + " Name" + Remainder(k, w)` is well spaced when its parts are. */
  lemma NamedGroup(x: string, name: string, k: nat, w: string)
    requires WellSpaced(x) && WellSpaced(name)
    requires k != 0 ==> WellSpaced(w)
    ensures WellSpaced(x + " " + name + Remainder(k, w))
  {
    SpacedJoin(x, name);
    assert x + " " + name == x + (" " + name);
    if k != 0 {
      SpacedJoin(x + (" " + name), w);
      assert x + " " + name + (" " + w) == x + (" " + name) + (" " + w);
    } else {
      assert x + " " + name + "" == x + (" " + name);
    }
  }

  /** Below one hundred the words are well spaced. */
  lemma TwoDigitWellSpaced(n: nat)
    requires 0 < n < 100
    ensures WellSpaced(TwoDigitWords(n))
  {
    TableWords(n);
    TableWords(n / 10);
    TableWords(n % 10);
    if 20 <= n && n % 10 != 0 {
      SpacedJoin(Tens[n / 10], Ones[n % 10]);
    } else if 20 <= n {
      assert TwoDigitWords(n) == Tens[n / 10];
    }
  }

  /** The unit of the leading group of a number from 100 on, and its name. */
  function Unit(n: nat): (u: nat)
    ensures u >= 100
  {
    if n < 1000 then 100 else if n < 100000 then 1000 else if n < 10000000 then 100000 else 10000000
  }

  function UnitName(n: nat): string {
    if n < 1000 then "Hundred" else if n < 100000 then "Thousand" else if n < 10000000 then "Lakh" else "Crore"
  }

  /** The words for the count of leading units: one table word for hundreds, a full reading otherwise. */
  function Leading(n: nat): string
    requires 100 <= n
    decreases n, 1
  {
    if n < 1000 then Ones[n / 100] else NumToWords(n / Unit(n))
  }

  lemma HundredsShape(n: nat)
    requires 100 <= n < 1000
    ensures NumToWords(n) == Ones[n / 100] + " Hundred" + Remainder(n % 100, NumToWords(n % 100))
    ensures NumToWords(n) == Ones[n / 100] + " " + "Hundred" + Remainder(n % 100, NumToWords(n % 100))
  {
    var a, b := Ones[n / 100], Remainder(n % 100, NumToWords(n % 100));
    assert a + " " + "Hundred" + b == a + (" " + "Hundred") + b;
    assert " " + "Hundred" == " Hundred";
  }

  lemma ThousandsShape(n: nat)
    requires 1000 <= n < 100000
    ensures NumToWords(n) == NumToWords(n / 1000) + " Thousand" + Remainder(n % 1000, NumToWords(n % 1000))
    ensures NumToWords(n) == NumToWords(n / 1000) + " " + "Thousand" + Remainder(n % 1000, NumToWords(n % 1000))
  {
    var a, b := NumToWords(n / 1000), Remainder(n % 1000, NumToWords(n % 1000));
    assert a + " " + "Thousand" + b == a + (" " + "Thousand") + b;
    assert " " + "Thousand" == " Thousand";
  }

  lemma LakhsShape(n: nat)
    requires 100000 <= n < 10000000
    ensures NumToWords(n) == NumToWords(n / 100000) + " Lakh" + Remainder(n % 100000, NumToWords(n % 100000))
    ensures NumToWords(n) == NumToWords(n / 100000) + " " + "Lakh" + Remainder(n % 100000, NumToWords(n % 100000))
  {
    var a, b := NumToWords(n / 100000), Remainder(n % 100000, NumToWords(n % 100000));
    assert a + " " + "Lakh" + b == a + (" " + "Lakh") + b;
    assert " " + "Lakh" == " Lakh";
  }

  lemma CroresShape(n: nat)
    requires 10000000 <= n
    ensures NumToWords(n) == NumToWords(n / 10000000) + " Crore" + Remainder(n % 10000000, NumToWords(n % 10000000))
    ensures NumToWords(n) == NumToWords(n / 10000000) + " " + "Crore" + Remainder(n % 10000000, NumToWords(n % 10000000))
  {
    var a, b := NumToWords(n / 10000000), Remainder(n % 10000000, NumToWords(n % 10000000));
    assert a + " " + "Crore" + b == a + (" " + "Crore") + b;
    assert " " + "Crore" == " Crore";
  }

  /** The unit, its name and the leading count in each range. */
  lemma UnitFacts(n: nat)
    requires 100 <= n
    ensures n < 1000 ==> Unit(n) == 100 && UnitName(n) == "Hundred" && Leading(n) == Ones[n / 100]
    ensures 1000 <= n < 100000 ==> Unit(n) == 1000 && UnitName(n) == "Thousand" && Leading(n) == NumToWords(n / 1000)
    ensures 100000 <= n < 10000000 ==>
      Unit(n) == 100000 && UnitName(n) == "Lakh" && Leading(n) == NumToWords(n / 100000)
    ensures 10000000 <= n ==> Unit(n) == 10000000 && UnitName(n) == "Crore" && Leading(n) == NumToWords(n / 10000000)
  {
  }

  /** From 100 on, the words are the leading count, the unit's name and the remainder's words. */
  lemma NumToWordsShape(n: nat)
    requires 100 <= n
    ensures NumToWords(n) == Leading(n) + " " + UnitName(n) + Remainder(n % Unit(n), NumToWords(n % Unit(n)))
  {
    UnitFacts(n);
    if n < 1000 {
      HundredsShape(n);
    } else if n < 100000 {
      ThousandsShape(n);
    } else if n < 10000000 {
      LakhsShape(n);
    } else {
      CroresShape(n);
    }
  }

  /** The words of a positive number never start or end with a space and never hold two in a row. */
  lemma {:induction false} NumToWordsWellSpaced(n: nat)
    requires 0 < n
    ensures WellSpaced(NumToWords(n))
    decreases n
  {
    if n < 100 {
      TwoDigitWellSpaced(n);
    } else {
      var u := Unit(n);
      if n < 1000 {
        TableWords(n / 100);
      } else {
        NumToWordsWellSpaced(n / u);
      }
      if n % u != 0 {
        NumToWordsWellSpaced(n % u);
      }
      OneWord(UnitName(n));
      NamedGroup(Leading(n), UnitName(n), n % u, NumToWords(n % u));
      NumToWordsShape(n);
    }
  }

  // ---------------------------------------------------------------------------
  // Reading by digit groups

  /** Two readings one after the other, separated by a space when both are present. */
  function Join2(a: string, b: string): string {
    if a == "" then b else if b == "" then a else a + " " + b
  }

  /** A group's words followed by its name, or nothing for an empty group. */
  function Named(count: string, name: string): string {
    if count == "" then "" else count + " " + name
  }

  /** The reading of the digits below one crore: two of lakhs, two of thousands, one of hundreds and the last two. */
  function BelowCrore(n: nat): string {
    Join2(Named(TwoDigitWords(n / 100000 % 100), "Lakh"),
      Join2(Named(TwoDigitWords(n / 1000 % 100), "Thousand"),
        Join2(Named(Ones[n / 100 % 10], "Hundred"), TwoDigitWords(n % 100))))
  }

  /**
   * The Indian reading of `n` assembled from its digit groups, left to right:
   * the crores (read the same way), then the groups below one crore, each group
   * with its name and left out when it is zero.
   */
  function Grouped(n: nat): string
    decreases n
  {
    Join2(Named(if n / 10000000 == 0 then "" else Grouped(n / 10000000), "Crore"), BelowCrore(n))
  }

  /** `x + " " + name + Remainder(k, w)` is the named group joined with `w`. */
  lemma JoinNamed(x: string, name: string, k: nat, w: string)
    requires x != ""
    requires w == "" <==> k == 0
    ensures x + " " + name + Remainder(k, w) == Join2(Named(x, name), w)
  {
    if k == 0 {
      assert x + " " + name + "" == x + " " + name;
    }
  }

  /** The digit groups of a number and of its part below `u`, for each unit `u`. */
  lemma HundredsDigits(n: nat)
    requires 100 <= n < 1000
    ensures n / 10000000 == 0 && n / 100000 % 100 == 0 && n / 1000 % 100 == 0 && n / 100 % 10 == n / 100
    ensures var m := n % 100;
      m / 10000000 == 0 && m / 100000 % 100 == 0 && m / 1000 % 100 == 0 && m / 100 % 10 == 0 && m % 100 == m
  {
  }

  lemma ThousandsDigits(n: nat)
    requires 1000 <= n < 100000
    ensures n / 10000000 == 0 && n / 100000 % 100 == 0 && n / 1000 % 100 == n / 1000
    ensures var m := n % 1000;
      m / 10000000 == 0 && m / 100000 % 100 == 0 && m / 1000 % 100 == 0
      && m / 100 % 10 == n / 100 % 10 && m % 100 == n % 100
  {
    var q := n / 1000;
    var m := n % 1000;
    assert n == 1000 * q + m;
    assert n / 100 == 10 * q + m / 100 by {
      assert n == 100 * (10 * q + m / 100) + m % 100;
    }
    assert (10 * q + m / 100) % 10 == m / 100 % 10;
  }

  lemma LakhsDigits(n: nat)
    requires 100000 <= n < 10000000
    ensures n / 10000000 == 0 && n / 100000 % 100 == n / 100000
    ensures var m := n % 100000;
      m / 10000000 == 0 && m / 100000 % 100 == 0 && m / 1000 % 100 == n / 1000 % 100
      && m / 100 % 10 == n / 100 % 10 && m % 100 == n % 100
  {
    var q := n / 100000;
    var m := n % 100000;
    assert n == 100000 * q + m;
    assert n / 1000 == 100 * q + m / 1000 by {
      assert n == 1000 * (100 * q + m / 1000) + m % 1000;
    }
    assert n / 100 == 1000 * q + m / 100 by {
      assert n == 100 * (1000 * q + m / 100) + m % 100;
    }
    MultipleVanishes(q, m / 1000, 100);
    MultipleVanishes(100 * q, m / 100, 10);
    assert 1000 * q == 10 * (100 * q);
  }

  /** A number and its part below one crore share every digit group below the crores. */
  lemma CroresDigits(n: nat)
    ensures var m := n % 10000000;
      m / 10000000 == 0 && m / 100000 % 100 == n / 100000 % 100 && m / 1000 % 100 == n / 1000 % 100
      && m / 100 % 10 == n / 100 % 10 && m % 100 == n % 100
  {
    var q := n / 10000000;
    var m := n % 10000000;
    assert n == 10000000 * q + m;
    DigitGroupBelowCrores(q, m, 100000, 100, 100);
    DigitGroupBelowCrores(q, m, 1000, 10000, 100);
    DigitGroupBelowCrores(q, m, 100, 100000, 10);
    DigitGroupBelowCrores(q, m, 1, 10000000, 100);
  }

  /** A digit group below the crores does not depend on the crores. */
  lemma DigitGroupBelowCrores(q: nat, m: nat, unit: nat, k: nat, base: nat)
    requires 0 < unit && unit * k == 10000000 && 0 < base && k % base == 0
    ensures (10000000 * q + m) / unit % base == m / unit % base
  {
    ShiftedDigits(q, m, unit, k);
    MultipleVanishes(k / base * q, m / unit, base);
    assert k * q == base * (k / base * q);
  }

  /** Adding a multiple of `base` does not change the remainder. */
  lemma MultipleVanishes(c: nat, x: nat, base: nat)
    requires 0 < base
    ensures (base * c + x) % base == x % base
  {
    var y := base * c + x;
    var k := c + x / base - y / base;
    assert x == base * (x / base) + x % base;
    assert y == base * (y / base) + y % base;
    assert base * k == base * c + base * (x / base) - base * (y / base);
    assert base * k == y % base - x % base;
  }

  /** Dividing `unit * (k * q) + m` by `unit` shifts `q` up by `k` places. */
  lemma ShiftedDigits(q: nat, m: nat, unit: nat, k: nat)
    requires 0 < unit && unit * k == 10000000
    ensures (10000000 * q + m) / unit == k * q + m / unit
  {
    var n := 10000000 * q + m;
    assert n == unit * (k * q + m / unit) + m % unit;
  }

  lemma SmallDigits(n: nat)
    requires n < 100
    ensures n / 10000000 == 0 && n / 100000 % 100 == 0 && n / 1000 % 100 == 0 && n / 100 % 10 == 0 && n % 100 == n
  {
  }

  lemma HundredsGrouped(n: nat)
    requires 100 <= n < 1000
    ensures Grouped(n) == Join2(Named(Ones[n / 100], "Hundred"), Grouped(n % 100))
  {
    HundredsDigits(n);
  }

  lemma ThousandsGrouped(n: nat)
    requires 1000 <= n < 100000
    ensures Grouped(n) == Join2(Named(TwoDigitWords(n / 1000), "Thousand"), Grouped(n % 1000))
  {
    ThousandsDigits(n);
  }

  lemma LakhsGrouped(n: nat)
    requires 100000 <= n < 10000000
    ensures Grouped(n) == Join2(Named(TwoDigitWords(n / 100000), "Lakh"), Grouped(n % 100000))
  {
    LakhsDigits(n);
  }

  lemma CroresGrouped(n: nat)
    requires 10000000 <= n
    ensures Grouped(n) == Join2(Named(Grouped(n / 10000000), "Crore"), Grouped(n % 10000000))
  {
    CroresDigits(n);
    assert BelowCrore(n % 10000000) == BelowCrore(n);
  }

  /** The recursive reading and the digit-group reading agree on every number. */
  lemma {:induction false} NumToWordsIsGrouped(n: nat)
    ensures NumToWords(n) == Grouped(n)
    decreases n
  {
    if n < 100 {
      SmallDigits(n);
    } else {
      var u := Unit(n);
      NumToWordsShape(n);
      NumToWordsIsGrouped(n % u);
      if n < 1000 {
        TableWords(n / 100);
        HundredsGrouped(n);
      } else if n < 100000 {
        ThousandsGrouped(n);
      } else if n < 10000000 {
        LakhsGrouped(n);
      } else {
        NumToWordsIsGrouped(n / u);
        CroresGrouped(n);
      }
      JoinNamed(Leading(n), UnitName(n), n % u, NumToWords(n % u));
    }
  }

  lemma SampleLakh()
    ensures NumToWords(100000) == "One Lakh"
  {
    NumToWordsShape(100000);
  }

  lemma SampleHundreds()
    ensures NumToWords(360) == "Three Hundred Sixty"
  {
    HundredsShape(360);
    assert 360 / 100 == 3 && 360 % 100 == 60;
    assert NumToWords(60) == "Sixty";
  }

  lemma SampleThousands()
    ensures NumToWords(2360) == "Two Thousand Three Hundred Sixty"
  {
    var two, rest := NumToWords(2), NumToWords(360);
    ThousandsShape(2360);
    assert 2360 / 1000 == 2 && 2360 % 1000 == 360;
    SampleHundreds();
    assert two == "Two";
    assert NumToWords(2360) == two + " Thousand" + " " + rest;
    ThousandsText();
  }

  /** The pieces of the 2360 reading, joined. */
  lemma ThousandsText()
    ensures "Two" + " Thousand" + " " + "Three Hundred Sixty" == "Two Thousand Three Hundred Sixty"
  {
  }

  // ---------------------------------------------------------------------------
  // The quotation page's `convertNumberToWords`

  /** `Math.round`: the nearest integer, halves rounded up. */
  function Round(x: real): (r: int)
    ensures x - 0.5 < r as real <= x + 0.5
  {
    (x + 0.5).Floor
  }

  /** The paise the page computes: the fraction of a rupee in hundredths, rounded. It can reach 100. */
  function PaiseOf(amount: real): (p: nat)
    ensures p <= 100
  {
    var fraction := amount - amount.Floor as real;
    Round(fraction * 100.0)
  }

  /** What the script engine raises when `rupees %= ...` assigns to the `const` declared for it. */
  const ConstAssignment: string := "TypeError: Assignment to constant variable."

  /**
   * `convertNumberToWords` as written. Zero has its own text. Otherwise any amount
   * of 100 rupees or more reaches a `rupees %= ...` on a `const` and throws; below
   * that, the rupees and the paise each go through the two-digit rule.
   */
  function ConvertNumberToWords(amount: real): (r: Result<string>)
    ensures amount == 0.0 ==> r == Ok("Zero Rupees Only")
    ensures amount != 0.0 && amount.Floor >= 100 ==> r == Err(ConstAssignment)
    ensures amount.Floor < 100 ==> r.Ok?
    ensures 0.0 < amount && amount.Floor < 100 && PaiseOf(amount) < 100 ==>
      r == Ok(InWords(amount.Floor, PaiseOf(amount)))
    ensures 0.0 < amount && amount.Floor < 100 && PaiseOf(amount) == 100 ==>
      r == Ok("INR " + RupeesPart(amount.Floor) + " And undefined Paise Only.")
  {
    if amount == 0.0 then Ok("Zero Rupees Only")
    else
      var rupees := amount.Floor;
      var paise := PaiseOf(amount);
      if rupees >= 100 then Err(ConstAssignment)
      else
        var words := if rupees > 0 then TwoDigitWords(rupees) + " Rupees" else "";
        var words' := if paise > 0 then words + " And " + TwoDigitWords(paise) + " Paise" else words;
        if 0 <= rupees then
          PageReading(rupees, paise, words, words');
          Ok("INR " + words' + " Only.")
        else Ok("INR " + words' + " Only.")
  }

  /**
   * The reading of whole rupees and paise in the page's own words, with the
   * figures in the digit-group reading: "INR", the rupees with "Rupees" when there
   * are any, "And" and the paise with "Paise" when there are any, and "Only.".
   */
  function InWords(rupees: nat, paise: nat): string {
    "INR " + RupeesPart(rupees) + (if paise > 0 then " And " + Grouped(paise) + " Paise" else "") + " Only."
  }

  /** The rupees in words followed by "Rupees", or nothing when there are none. */
  function RupeesPart(rupees: nat): string {
    if rupees > 0 then Grouped(rupees) + " Rupees" else ""
  }

  /** Below one hundred the two-digit rule is the digit-group reading. */
  lemma {:induction false} TwoDigitIsGrouped(n: nat)
    requires n < 100
    ensures TwoDigitWords(n) == Grouped(n)
  {
    NumToWordsIsGrouped(n);
  }

  /** The page's text for rupees below one hundred, in terms of the digit-group reading. */
  lemma {:induction false} PageReading(rupees: nat, paise: nat, words: string, words': string)
    requires rupees < 100 && paise <= 100
    requires words == if rupees > 0 then TwoDigitWords(rupees) + " Rupees" else ""
    requires words' == if paise > 0 then words + " And " + TwoDigitWords(paise) + " Paise" else words
    ensures paise < 100 ==> "INR " + words' + " Only." == InWords(rupees, paise)
    ensures paise == 100 ==> "INR " + words' + " Only." == "INR " + RupeesPart(rupees) + " And undefined Paise Only."
  {
    TwoDigitIsGrouped(rupees);
    if paise < 100 {
      TwoDigitIsGrouped(paise);
    } else {
      assert TwoDigitWords(100) == "undefined";
    }
    Reading(rupees, paise, TwoDigitWords(rupees), TwoDigitWords(paise), words, words');
  }

  /** The text "INR", words, "Only." once the figures' words are known. */
  lemma Reading(rupees: nat, paise: nat, rw: string, pw: string, words: string, words': string)
    requires paise <= 100
    requires rupees > 0 ==> rw == Grouped(rupees)
    requires 0 < paise < 100 ==> pw == Grouped(paise)
    requires paise == 100 ==> pw == "undefined"
    requires words == if rupees > 0 then rw + " Rupees" else ""
    requires words' == if paise > 0 then words + " And " + pw + " Paise" else words
    ensures paise < 100 ==> "INR " + words' + " Only." == InWords(rupees, paise)
    ensures paise == 100 ==> "INR " + words' + " Only." == "INR " + RupeesPart(rupees) + " And undefined Paise Only."
  {
    assert words == RupeesPart(rupees);
    if paise == 100 {
      AndPaiseText("INR ", words);
    } else if paise > 0 {
      InWordsWithPaise(rupees, paise, words, pw);
      AndPaise("INR ", words, pw);
    } else {
      InWordsNoPaise(rupees, words);
    }
  }

  lemma InWordsWithPaise(rupees: nat, paise: nat, r: string, p: string)
    requires 0 < paise && r == RupeesPart(rupees) && p == Grouped(paise)
    ensures InWords(rupees, paise) == "INR " + r + (" And " + p + " Paise") + " Only."
  {
  }

  lemma InWordsNoPaise(rupees: nat, r: string)
    requires r == RupeesPart(rupees)
    ensures InWords(rupees, 0) == "INR " + r + " Only."
  {
    assert InWords(rupees, 0) == "INR " + r + "" + " Only.";
  }

  lemma AndPaise(a: string, w: string, p: string)
    ensures a + (w + " And " + p + " Paise") + " Only." == a + w + (" And " + p + " Paise") + " Only."
  {
  }

  lemma AndPaiseText(a: string, w: string)
    ensures a + (w + " And " + "undefined" + " Paise") + " Only." == a + w + " And undefined Paise Only."
  {
    UndefinedPaiseText();
  }

  /** The pieces of the overflowing paise text, joined. */
  lemma UndefinedPaiseText()
    ensures " And " + "undefined" + " Paise" + " Only." == " And undefined Paise Only."
  {
  }

  /** Every amount from 100 rupees on fails. */
  lemma ConvertFailsFromHundred(amount: real)
    requires 100.0 <= amount
    ensures ConvertNumberToWords(amount).Err?
  {
  }

  /** 1.999 rounds to 100 paise, read past the tens table. */
  lemma ConvertPaiseOverflow()
    ensures PaiseOf(1.999) == 100
    ensures ConvertNumberToWords(1.999) == Ok("INR One Rupees And undefined Paise Only.")
  {
    assert (1.999).Floor == 1;
    assert PaiseOf(1.999) == 100;
    assert TwoDigitWords(100) == "undefined";
    assert TwoDigitWords(1) == "One";
    var words := "One" + " Rupees";
    assert ConvertNumberToWords(1.999) == Ok("INR " + (words + " And " + "undefined" + " Paise") + " Only.");
    OverflowText();
  }

  /** The pieces of the 1.999 text, joined. */
  lemma OverflowText()
    ensures "INR " + ("One" + " Rupees" + " And " + "undefined" + " Paise") + " Only." == "INR One Rupees And undefined Paise Only."
  {
  }

  /**
   * The page's reading of an amount as evidently intended: the amount is first
   * rounded to whole paise, so the paise figure stays below 100, and the rupees are
   * read through the full Indian grouping, so no amount fails. The text around the
   * figures is the page's own.
   */
  function AmountInWords(amount: real): (r: string)
    requires 0.0 <= amount
    ensures amount == 0.0 ==> r == "Zero Rupees Only"
    ensures 1.0 <= amount ==> |r| > 10 && r[..4] == "INR " && r[|r| - 6..] == " Only." && WellSpaced(r[4..|r| - 6])
    ensures 0.0 < amount ==> var total := Round(amount * 100.0); total >= 0 && r == InWords(total / 100, total % 100)
  {
    if amount == 0.0 then "Zero Rupees Only"
    else
      var total := Round(amount * 100.0);
      assert 0 <= total;
      RupeesAndPaise(total / 100, total % 100)
  }

  /** "INR", the rupees and the paise in words, and "Only.". */
  function RupeesAndPaise(rupees: nat, paise: nat): (r: string)
    requires paise < 100
    ensures 0 < rupees ==> |r| > 10 && r[..4] == "INR " && r[|r| - 6..] == " Only." && WellSpaced(r[4..|r| - 6])
    ensures r == InWords(rupees, paise)
  {
    var words := if rupees > 0 then NumToWords(rupees) + " Rupees" else "";
    var words' := if paise > 0 then words + " And " + NumToWords(paise) + " Paise" else words;
    NumToWordsIsGrouped(rupees);
    NumToWordsIsGrouped(paise);
    Reading(rupees, paise, NumToWords(rupees), NumToWords(paise), words, words');
    Framed(words');
    if 0 < rupees then
      PhraseWellSpaced(rupees, paise);
      "INR " + words' + " Only."
    else "INR " + words' + " Only."
  }

  /** The words between "INR " and " Only." are recovered by slicing. */
  lemma Framed(w: string)
    ensures var r := "INR " + w + " Only.";
      |r| == |w| + 10 && r[..4] == "INR " && r[|r| - 6..] == " Only." && r[4..|r| - 6] == w
  {
  }

  /** A well-spaced text followed by more well-spaced words stays well spaced. */
  lemma ThenWord(a: string, b: string)
    requires WellSpaced(a) && WellSpaced(b)
    ensures WellSpaced(a + " " + b)
  {
    SpacedJoin(a, b);
    assert a + " " + b == a + (" " + b);
  }

  /** The figures and their unit names, with "And" between rupees and paise, are well spaced. */
  lemma PhraseWellSpaced(rupees: nat, paise: nat)
    requires 0 < rupees && paise < 100
    ensures var words := NumToWords(rupees) + " Rupees";
      WellSpaced(words)
      && (paise > 0 ==> WellSpaced(words + " And " + NumToWords(paise) + " Paise"))
  {
    var w := NumToWords(rupees);
    NumToWordsWellSpaced(rupees);
    RupeesWellSpaced(w);
    if paise > 0 {
      NumToWordsWellSpaced(paise);
      PaisePhraseWellSpaced(w + " Rupees", NumToWords(paise));
    }
  }

  lemma RupeesWellSpaced(w: string)
    requires WellSpaced(w)
    ensures WellSpaced(w + " Rupees")
  {
    OneWord("Rupees");
    ThenWord(w, "Rupees");
    assert w + " " + "Rupees" == w + " Rupees";
  }

  lemma PaisePhraseWellSpaced(words: string, p: string)
    requires WellSpaced(words) && WellSpaced(p)
    ensures WellSpaced(words + " And " + p + " Paise")
  {
    OneWord("And");
    OneWord("Paise");
    ThenWord(words, "And");
    ThenWord(words + " " + "And", p);
    ThenWord(words + " " + "And" + " " + p, "Paise");
    assert words + " And " + p + " Paise" == words + " " + "And" + " " + p + " " + "Paise";
  }

  /** Rounding an amount to whole paise splits it into its whole rupees and the page's paise, when those stay below 100. */
  lemma RoundToPaise(amount: real)
    requires 0.0 <= amount && PaiseOf(amount) < 100
    ensures Round(amount * 100.0) == 100 * amount.Floor + PaiseOf(amount)
  {
    var f := amount.Floor;
    var fraction := amount - f as real;
    assert amount * 100.0 + 0.5 == (100 * f) as real + (fraction * 100.0 + 0.5);
  }

  /** Wherever the page's reading neither fails nor overflows the paise, the intended reading gives the same text. */
  lemma AmountInWordsAgrees(amount: real)
    requires 0.0 <= amount && amount.Floor < 100 && PaiseOf(amount) < 100
    ensures ConvertNumberToWords(amount) == Ok(AmountInWords(amount))
  {
    if amount != 0.0 {
      RoundToPaise(amount);
      var total := Round(amount * 100.0);
      assert total / 100 == amount.Floor && total % 100 == PaiseOf(amount);
    }
  }

  /** The intended reading of the amount whose paise the page overflows. */
  lemma AmountInWordsRoundsUp()
    ensures AmountInWords(1.999) == "INR Two Rupees Only."
  {
    RoundsToTwoRupees();
    TwoRupees();
  }

  lemma RoundsToTwoRupees()
    ensures AmountInWords(1.999) == RupeesAndPaise(2, 0)
  {
    assert Round(199.9) == 200;
  }

  lemma TwoRupees()
    ensures RupeesAndPaise(2, 0) == "INR Two Rupees Only."
  {
    assert NumToWords(2) == "Two";
    assert RupeesAndPaise(2, 0) == "INR " + ("Two" + " Rupees") + " Only.";
    TwoRupeesText();
  }

  /** The pieces of the two-rupee text, joined. */
  lemma TwoRupeesText()
    ensures "INR " + ("Two" + " Rupees") + " Only." == "INR Two Rupees Only."
  {
  }

  /** The intended reading of an amount the page fails on. */
  lemma AmountInWordsHundreds()
    ensures AmountInWords(150.0) == "INR One Hundred Fifty Rupees Only."
  {
    HundredfoldRounds(150);
    HundredFiftyRupees();
  }

  lemma HundredfoldRounds(n: nat)
    ensures Round(n as real * 100.0) == 100 * n
    ensures (100 * n) / 100 == n && (100 * n) % 100 == 0
  {
    assert n as real * 100.0 == (100 * n) as real;
  }

  lemma HundredFiftyRupees()
    ensures RupeesAndPaise(150, 0) == "INR One Hundred Fifty Rupees Only."
  {
    HundredsFifty();
    assert RupeesAndPaise(150, 0) == "INR " + ("One Hundred Fifty" + " Rupees") + " Only.";
    HundredFiftyText();
  }

  /** The pieces of the 150-rupee text, joined. */
  lemma HundredFiftyText()
    ensures "INR " + ("One Hundred Fifty" + " Rupees") + " Only." == "INR One Hundred Fifty Rupees Only."
  {
  }

  lemma HundredsFifty()
    ensures NumToWords(150) == "One Hundred Fifty"
  {
    HundredsShape(150);
    assert NumToWords(50) == "Fifty";
    assert Ones[1] == "One";
  }
}
