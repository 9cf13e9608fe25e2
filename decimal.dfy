/** The numeric text the loader accepts (the part of Python's float() used on
    CSV values: an optional sign, digits, an optional fraction) and the two
    renderings of whole numbers that it reads back: plain digits and digits
    grouped in threes by commas, as Python's format(n, ',') writes them. */
module Decimal {
  import opened Wrappers
  import Strings

  predicate IsDigit(c: char) {
    '0' <= c <= '9'
  }

  predicate AllDigits(s: string) {
    forall i :: 0 <= i < |s| ==> IsDigit(s[i])
  }

  function DigitValue(c: char): nat
    requires IsDigit(c)
  {
    (c as int) - ('0' as int)
  }

  function DigitChar(d: nat): (c: char)
    requires d < 10
    ensures IsDigit(c) && DigitValue(c) == d
  {
    ('0' as int + d) as char
  }

  function Pow10(k: nat): (r: nat)
    ensures r >= 1
  {
    if k == 0 then 1 else 10 * Pow10(k - 1)
  }

  /** The whole number a run of digits denotes, most significant digit first;
      k digits denote less than 10^k. */
  function DigitsValue(s: string): (n: nat)
    requires AllDigits(s)
    ensures n < Pow10(|s|)
  {
    if s == [] then 0 else DigitsValue(s[..|s| - 1]) * 10 + DigitValue(s[|s| - 1])
  }

  /** Writing b after a shifts a's value by |b| decimal places. */
  lemma {:induction false} DigitsValueAppend(a: string, b: string)
    requires AllDigits(a) && AllDigits(b)
    ensures AllDigits(a + b)
    ensures DigitsValue(a + b) == DigitsValue(a) * Pow10(|b|) + DigitsValue(b)
  {
    assert AllDigits(a + b);
    if b == [] {
      assert a + b == a;
    } else {
      var b' := b[..|b| - 1];
      assert (a + b)[..|a + b| - 1] == a + b';
      DigitsValueAppend(a, b');
      ShiftOne(DigitsValue(a), Pow10(|b'|), DigitsValue(b'), DigitValue(b[|b| - 1]));
    }
  }

  /** One more digit on the right: (x p + y) 10 + d = x (10 p) + (10 y + d). */
  lemma ShiftOne(x: int, p: int, y: int, d: int)
    ensures (x * p + y) * 10 + d == x * (10 * p) + (y * 10 + d)
  {
  }

  /** Position of the first '.', or |s| when there is none. */
  function FindDot(s: string): (i: nat)
    ensures i <= |s|
    ensures i < |s| ==> s[i] == '.'
    ensures forall k :: 0 <= k < i ==> s[k] != '.'
  {
    if s == [] then 0 else if s[0] == '.' then 0 else 1 + FindDot(s[1..])
  }

  /** Unsigned decimal: digits, optionally followed by '.' and more digits, with
      at least one digit overall ("12", "12.", ".5", "12.50"). */
  function ParseUnsigned(s: string): (r: Option<real>)
    ensures r.Some? ==> r.value >= 0.0
    ensures r.Some? ==> forall i :: 0 <= i < |s| ==> IsDigit(s[i]) || s[i] == '.'
  {
    var d := FindDot(s);
    var whole := s[..d];
    var frac := if d < |s| then s[d + 1..] else [];
    if AllDigits(whole) && AllDigits(frac) && (|whole| > 0 || |frac| > 0) then
      assert forall i :: d < i < |s| ==> s[i] == frac[i - d - 1];
      Some(DigitsValue(whole) as real + DigitsValue(frac) as real / Pow10(|frac|) as real)
    else
      None
  }

  /** The number a CSV value denotes when Python's float() accepts it without
      help: an optional '+' or '-' in front of an unsigned decimal. Text that
      parses holds no comma. */
  function ParseDecimal(s: string): (r: Option<real>)
    ensures r.Some? ==> forall i :: 0 <= i < |s| ==> s[i] != ','
  {
    if |s| > 0 && s[0] == '-' then
      match ParseUnsigned(s[1..])
      case Some(x) => Some(-x)
      case None => None
    else if |s| > 0 && s[0] == '+' then
      ParseUnsigned(s[1..])
    else
      ParseUnsigned(s)
  }

  /** A whole number in plain decimal digits, as Python's str() writes it. */
  function Render(n: nat): (s: string)
    ensures |s| > 0 && AllDigits(s)
    ensures DigitsValue(s) == n
  {
    if n < 10 then [DigitChar(n)]
    else
      var s := Render(n / 10) + [DigitChar(n % 10)];
      assert s[..|s| - 1] == Render(n / 10);
      s
  }

  /** A run of digits, with or without a minus sign in front, parses as the
      number it denotes. */
  lemma {:induction false} ParseDigits(s: string)
    requires |s| > 0 && AllDigits(s)
    ensures ParseDecimal(s) == Some(DigitsValue(s) as real)
    ensures ParseDecimal("-" + s) == Some(-(DigitsValue(s) as real))
  {
    assert FindDot(s) == |s|;
    assert s[..|s|] == s;
    assert ("-" + s)[1..] == s;
  }

  /** The grammar ParseUnsigned accepts: only digits and '.', at most one '.',
      and at least one digit. */
  predicate UnsignedText(s: string) {
    && (forall i :: 0 <= i < |s| ==> IsDigit(s[i]) || s[i] == '.')
    && (forall i, j :: 0 <= i < j < |s| && s[i] == '.' ==> s[j] != '.')
    && (exists i :: 0 <= i < |s| && IsDigit(s[i]))
  }

  /** An unsigned decimal parses exactly when its text follows that grammar. */
  lemma {:induction false} ParseUnsignedSyntax(s: string)
    ensures ParseUnsigned(s).Some? <==> UnsignedText(s)
  {
    var d := FindDot(s);
    var whole := s[..d];
    var frac := if d < |s| then s[d + 1..] else [];
    if ParseUnsigned(s).Some? {
      assert AllDigits(whole) && AllDigits(frac) && (|whole| > 0 || |frac| > 0);
      forall i, j | 0 <= i < j < |s| && s[i] == '.'
        ensures s[j] != '.'
      {
        assert s[j] == frac[j - d - 1];
      }
      if |whole| > 0 {
        assert s[0] == whole[0];
      } else {
        assert s[d + 1] == frac[0];
      }
    }
    if UnsignedText(s) {
      assert forall k :: 0 <= k < d ==> whole[k] == s[k];
      if d < |s| {
        forall k | 0 <= k < |frac|
          ensures IsDigit(frac[k])
        {
          assert frac[k] == s[d + 1 + k];
        }
      }
      var i :| 0 <= i < |s| && IsDigit(s[i]);
      if i < d {
        assert whole[i] == s[i];
      } else {
        assert frac[i - d - 1] == s[i];
      }
    }
  }

  /** Dividing by a power of ten splits off the whole part: (x p + y) / p = x + y / p. */
  lemma SplitFraction(n: int, x: int, p: int, y: int)
    requires p > 0 && n == x * p + y
    ensures n as real / p as real == x as real + y as real / p as real
  {
    assert n as real == x as real * p as real + y as real;
  }

  /** Digits, a '.', and digits (with at least one digit in all) parse as
      the whole part plus the fraction. */
  lemma {:induction false} ParseUnsignedFraction(a: string, b: string)
    requires AllDigits(a) && AllDigits(b) && |a| + |b| > 0
    ensures ParseUnsigned(a + "." + b)
      == Some(DigitsValue(a) as real + DigitsValue(b) as real / Pow10(|b|) as real)
  {
    var s := a + "." + b;
    var d := FindDot(s);
    assert s[|a|] == '.';
    assert d == |a|;
    assert s[..d] == a;
    assert s[d + 1..] == b;
  }

  /** The number a run of digits denotes with a decimal point `places` digits
      from its right end. */
  function ShiftedValue(digits: string, places: nat): real
    requires AllDigits(digits)
  {
    DigitsValue(digits) as real / Pow10(places) as real
  }

  /** The same value read as all the digits shifted by the length of the fraction. */
  lemma {:induction false} UnsignedFractionValue(a: string, b: string)
    requires AllDigits(a) && AllDigits(b) && |a| + |b| > 0
    ensures AllDigits(a + b)
    ensures ParseUnsigned(a + "." + b) == Some(ShiftedValue(a + b, |b|))
  {
    ParseUnsignedFraction(a, b);
    DigitsValueAppend(a, b);
    SplitFraction(DigitsValue(a + b), DigitsValue(a), Pow10(|b|), DigitsValue(b));
  }

  /** Text that parses unsigned parses as it is, and unchanged after a '+'. */
  lemma Signed(s: string, x: real)
    requires ParseUnsigned(s) == Some(x)
    ensures ParseDecimal(s) == Some(x)
    ensures ParseDecimal("+" + s) == Some(x)
  {
    assert ("+" + s)[1..] == s;
  }

  /** After a '-', text that parses unsigned parses as the negated number. */
  lemma Negated(s: string, x: real)
    requires ParseUnsigned(s) == Some(x)
    ensures ParseDecimal("-" + s) == Some(-x)
  {
    assert ("-" + s)[1..] == s;
  }

  /** Digits, a '.' and digits, with at least one digit in all, parse as the
      number the digits denote shifted by the length of the fraction. */
  lemma {:induction false} ParseFraction(a: string, b: string)
    requires AllDigits(a) && AllDigits(b) && |a| + |b| > 0
    ensures AllDigits(a + b)
    ensures ParseDecimal(a + "." + b) == Some(ShiftedValue(a + b, |b|))
  {
    UnsignedFractionValue(a, b);
    Signed(a + "." + b, ShiftedValue(a + b, |b|));
  }

  /** The grammar of the signed parser: an unsigned decimal, alone or after one
      '-' or '+'. A text outside it, such as "-abc", "+1.2.3" or "1e3", fails. */
  lemma {:induction false} ParseDecimalSyntax(s: string)
    ensures ParseDecimal(s).Some? <==>
      UnsignedText(s) || (|s| > 0 && (s[0] == '-' || s[0] == '+') && UnsignedText(s[1..]))
  {
    ParseUnsignedSyntax(s);
    if |s| > 0 {
      ParseUnsignedSyntax(s[1..]);
    }
    if UnsignedText(s) && |s| > 0 {
      assert IsDigit(s[0]) || s[0] == '.';
    }
  }

  /** A lone '.', two dots, two signs and the empty text do not parse. */
  lemma RejectSamples()
    ensures ParseDecimal(".") == None
    ensures ParseDecimal("1.2.3") == None
    ensures ParseDecimal("+-1") == None
    ensures ParseDecimal("") == None
  {
    ParseUnsignedSyntax(".");
    ParseUnsignedSyntax("1.2.3");
    assert "1.2.3"[1] == '.' && "1.2.3"[3] == '.';
    ParseUnsignedSyntax("-1");
    assert "+-1"[1..] == "-1";
    ParseUnsignedSyntax("");
  }

  /** Plain digits read back as the number they were written from. */
  lemma ParseRender(n: nat)
    ensures ParseDecimal(Render(n)) == Some(n as real)
    ensures ParseDecimal("-" + Render(n)) == Some(-(n as real))
  {
    ParseDigits(Render(n));
  }

  /** Three digits, with leading zeros: the groups after the first comma. */
  function Pad3(k: nat): (s: string)
    requires k < 1000
    ensures |s| == 3 && AllDigits(s) && DigitsValue(s) == k
  {
    var h, r := k / 100, k % 100;
    var t, u := r / 10, r % 10;
    assert k == h * 100 + t * 10 + u;
    var s := [DigitChar(h), DigitChar(t), DigitChar(u)];
    var s1, s2 := [DigitChar(h)], [DigitChar(h), DigitChar(t)];
    assert s1[..0] == [] && s2[..1] == s1 && s[..2] == s2;
    assert DigitsValue(s1) == h;
    assert DigitsValue(s2) == h * 10 + t;
    assert DigitsValue(s) == (h * 10 + t) * 10 + u;
    s
  }

  /** A whole number with its digits grouped in threes, as format(n, ',') writes it. */
  function Grouped(n: nat): string
  {
    if n < 1000 then Render(n) else Grouped(n / 1000) + "," + Pad3(n % 1000)
  }

  /** Format(i, ','): a minus sign in front of the grouped magnitude when i < 0. */
  function GroupedInt(i: int): string
  {
    if i < 0 then "-" + Grouped(-i) else Grouped(i)
  }

  /** A grouped number of 1000 or more, commas removed, is its leading groups
      with commas removed followed by the last three digits. */
  lemma StrippedGroupedStep(n: nat)
    requires n >= 1000
    ensures Strings.StripCommas(Grouped(n)) == Strings.StripCommas(Grouped(n / 1000)) + Pad3(n % 1000)
  {
    var g, p := Grouped(n / 1000), Pad3(n % 1000);
    Strings.StripCommasAppend(g + ",", p);
    Strings.StripCommasAppend(g, ",");
    assert Strings.StripCommas(",") == [];
  }

  /** Removing the commas of a grouped number leaves the digits of that number. */
  lemma {:induction false} StrippedGrouped(n: nat)
    ensures var s := Strings.StripCommas(Grouped(n));
      |s| > 0 && AllDigits(s) && DigitsValue(s) == n
  {
    if n >= 1000 {
      var q, m := n / 1000, n % 1000;
      StrippedGrouped(q);
      StrippedGroupedStep(n);
      var a, p := Strings.StripCommas(Grouped(q)), Pad3(m);
      DigitsValueAppend(a, p);
      assert Pow10(3) == 1000;
      assert DigitsValue(a + p) == q * 1000 + m;
    }
  }

  /** Commas only ever separate digits in a grouped number, so a number that
      needs grouping (1000 or more) does not parse until they are removed. */
  lemma {:induction false} GroupedParses(n: nat)
    ensures ParseDecimal(Strings.StripCommas(Grouped(n))) == Some(n as real)
    ensures n >= 1000 <==> ParseDecimal(Grouped(n)).None?
  {
    StrippedGrouped(n);
    ParseDigits(Strings.StripCommas(Grouped(n)));
    if n < 1000 {
      ParseRender(n);
    } else {
      var g := Grouped(n / 1000);
      assert Grouped(n)[|g|] == ',';
    }
  }

  /** Text whose comma-free form is a run of digits still parses, negated,
      with a minus sign in front. */
  lemma {:induction false} NegatedParses(g: string)
    requires var s := Strings.StripCommas(g); |s| > 0 && AllDigits(s)
    ensures var s := Strings.StripCommas(g);
      ParseDecimal(Strings.StripCommas("-" + g)) == Some(-(DigitsValue(s) as real))
  {
    Strings.StripCommasAppend("-", g);
    assert Strings.StripCommas("-") == "-";
    ParseDigits(Strings.StripCommas(g));
  }

  /** The same for a signed grouped number. */
  lemma {:induction false} GroupedIntParses(i: int)
    ensures ParseDecimal(Strings.StripCommas(GroupedInt(i))) == Some(i as real)
  {
    if i < 0 {
      var n: nat := -i;
      var g := Grouped(n);
      assert GroupedInt(i) == "-" + g;
      StrippedGrouped(n);
      NegatedParses(g);
      assert -(n as real) == i as real;
    } else {
      GroupedParses(i);
    }
  }

  /** A signed grouped number fails the first parse exactly when its magnitude
      is 1000 or more, that is, when it holds a comma. */
  lemma {:induction false} GroupedIntNeedsStripping(i: int)
    ensures i <= -1000 || i >= 1000 <==> ParseDecimal(GroupedInt(i)).None?
  {
    if i < 0 {
      var n: nat := -i;
      assert GroupedInt(i) == "-" + Grouped(n);
      if n < 1000 {
        ParseRender(n);
      } else {
        var g := Grouped(n / 1000);
        assert Grouped(n)[|g|] == ',';
        assert GroupedInt(i)[|g| + 1] == ',';
      }
    } else {
      GroupedParses(i);
    }
  }

  /** One million, grouped, is "1,000,000". */
  lemma GroupedMillion()
    ensures GroupedInt(1000000) == "1,000,000"
  {
  }

  /** Python's int() of a float: truncation toward zero. */
  function Trunc(x: real): (r: int)
    ensures x >= 0.0 ==> 0 <= r && r as real <= x < r as real + 1.0
    ensures x < 0.0 ==> r <= 0 && r as real - 1.0 < x <= r as real
  {
    if x >= 0.0 then x.Floor else -((-x).Floor)
  }

  /** Truncation keeps order and leaves whole numbers alone. */
  lemma TruncMonotone(x: real, y: real)
    requires x <= y
    ensures Trunc(x) <= Trunc(y)
    ensures Trunc(Trunc(x) as real) == Trunc(x)
  {
  }
}
