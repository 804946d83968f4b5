// The ATM's input checks: amounts, PINs, names and dates of birth, each a
// regular expression or a number test on the typed text.
module AtmValidation {
  import opened Wrappers
  import opened Text

  /** ParseAmount: the trimmed text must parse as a number above zero.
      `parseFloat` stands for strconv.ParseFloat, None on a syntax error. */
  function ParseAmount(text: string, parseFloat: string -> Option<real>): (r: Option<real>)
    ensures r.Some? <==> parseFloat(TrimSpace(text)).Some? && parseFloat(TrimSpace(text)).value > 0.0
    ensures r.Some? ==> r.value > 0.0 && r == parseFloat(TrimSpace(text))
  {
    var parsed := parseFloat(TrimSpace(text));
    if parsed.None? then None
    else if parsed.value <= 0.0 then None
    else parsed
  }

  /** ValidatePIN: `^\d{6}$`. */
  predicate ValidatePIN(pin: string)
  {
    DigitField(pin, 6, 6)
  }

  /** `x` with `n` zeros written after it. */
  function Shift(x: nat, n: nat): nat
  {
    if n == 0 then x else 10 * Shift(x, n - 1)
  }

  lemma ShiftTwo(x: nat)
    ensures Shift(x, 2) == 100 * x
  {
    assert Shift(x, 1) == 10 * x;
  }

  /** The value of digits written after others. */
  lemma {:induction false} DecimalAppend(a: string, b: string)
    requires AllDigits(a) && AllDigits(b)
    ensures AllDigits(a + b)
    ensures Decimal(a + b) == Shift(Decimal(a), |b|) + Decimal(b)
    decreases |b|
  {
    var ab := a + b;
    DigitsAppend(a, b);
    if |b| == 0 {
      assert ab == a;
    } else {
      var init := b[..|b| - 1];
      assert AllDigits(init);
      assert ab[..|ab| - 1] == a + init;
      assert ab[|ab| - 1] == b[|b| - 1];
      DecimalAppend(a, init);
    }
  }

  /** Digits written after digits are digits. */
  lemma DigitsAppend(a: string, b: string)
    requires AllDigits(a) && AllDigits(b)
    ensures AllDigits(a + b)
  {
    var ab := a + b;
    forall i | 0 <= i < |ab| ensures IsAsciiDigit(ab[i]) {
      if i >= |a| { assert ab[i] == b[i - |a|]; }
    }
  }

  /** A number below a million written with six digits, leading zeros
      included. */
  function SixDigits(n: nat): string
    requires n < 1000000
  {
    TwoDigitText(n / 10000) + TwoDigitText(n / 100 % 100) + TwoDigitText(n % 100)
  }

  /** Every six-digit PIN, leading zeros included, is accepted and stands
      for its number. */
  lemma {:induction false} SixDigitPinsValid(n: nat)
    requires n < 1000000
    ensures ValidatePIN(SixDigits(n)) && Decimal(SixDigits(n)) == n
  {
    var high, mid, low := n / 10000, n / 100 % 100, n % 100;
    SixDigitSplit(n);
    var a, b, c := TwoDigitText(high), TwoDigitText(mid), TwoDigitText(low);
    assert |a| == 2 && |b| == 2 && |c| == 2;
    DecimalAppend(a, b);
    ShiftTwo(high);
    assert Decimal(a + b) == high * 100 + mid;
    DecimalAppend(a + b, c);
    ShiftTwo(high * 100 + mid);
    assert Decimal(a + b + c) == (high * 100 + mid) * 100 + low;
    assert a + b + c == SixDigits(n);
  }

  /** A number below a million is its three two-digit groups. */
  lemma SixDigitSplit(n: nat)
    requires n < 1000000
    ensures n / 10000 < 100
    ensures n == (n / 10000 * 100 + n / 100 % 100) * 100 + n % 100
  {
    var q := n / 100;
    assert n == q * 100 + n % 100;
    assert q == q / 100 * 100 + q % 100;
    assert q / 100 == n / 10000;
  }

  /** RE2's `\s`: tab, newline, form feed, carriage return and space. */
  predicate IsRegexSpace(c: char)
  {
    c == '\t' || c == '\n' || c == '\U{C}' || c == '\r' || c == ' '
  }

  /** ValidateName: `^[A-Za-z\s]+$`. */
  predicate ValidateName(name: string)
  {
    |name| > 0 && forall i :: 0 <= i < |name| ==> IsAsciiLetter(name[i]) || IsRegexSpace(name[i])
  }

  /** Names joined by a space are names; a name with a digit or a hyphen
      is not. */
  lemma {:induction false} NamesCompose(first: string, last: string, bad: string, k: nat)
    requires ValidateName(first) && ValidateName(last)
    requires k < |bad| && (IsAsciiDigit(bad[k]) || bad[k] == '-')
    ensures ValidateName(first + " " + last)
    ensures !ValidateName(bad)
  {
    var full := first + " " + last;
    forall i | 0 <= i < |full| ensures IsAsciiLetter(full[i]) || IsRegexSpace(full[i]) {
      if i < |first| {
        assert full[i] == first[i];
      } else if i > |first| {
        assert full[i] == last[i - |first| - 1];
      }
    }
  }

  /** `0[1-9]|1[0-2]`. */
  predicate MonthField(s: string)
  {
    DigitField(s, 2, 2) && 1 <= Decimal(s) <= 12
  }

  /** `0[1-9]|[12]\d|3[01]`. */
  predicate DayField(s: string)
  {
    DigitField(s, 2, 2) && 1 <= Decimal(s) <= 31
  }

  /** ValidateDate: `^(0[1-9]|1[0-2])/(0[1-9]|[12]\d|3[01])/\d{2,4}$`, read
      as three slash-separated fields. */
  predicate ValidateDate(date: string)
  {
    var parts := Split(date, '/');
    |parts| == 3 && MonthField(parts[0]) && DayField(parts[1]) && DigitField(parts[2], 2, 4)
  }

  /** MM/DD/YY or MM/DD/YYYY. */
  function FormatDate(month: nat, day: nat, year: string): string
    requires month < 100 && day < 100
  {
    Join([TwoDigitText(month), TwoDigitText(day), year], '/')
  }

  /** A date is accepted exactly when it is some month 1-12 and day 1-31
      followed by a 2-4 digit year; there is no calendar check, so the
      31st of February passes. */
  lemma {:induction false} DateAcceptedIff(month: nat, day: nat, year: string)
    requires month < 100 && day < 100 && forall i :: 0 <= i < |year| ==> year[i] != '/'
    ensures ValidateDate(FormatDate(month, day, year)) <==>
      1 <= month <= 12 && 1 <= day <= 31 && DigitField(year, 2, 4)
  {
    SplitJoin([TwoDigitText(month), TwoDigitText(day), year], '/');
  }

  /** Every accepted date is written that way. */
  lemma {:induction false} ValidDateIsFormatted(date: string)
    requires ValidateDate(date)
    ensures var parts := Split(date, '/');
      date == FormatDate(Decimal(parts[0]), Decimal(parts[1]), parts[2])
  {
    var parts := Split(date, '/');
    TwoDigitTextInverse(parts[0]);
    TwoDigitTextInverse(parts[1]);
    JoinSplit(date, '/');
    assert parts == [TwoDigitText(Decimal(parts[0])), TwoDigitText(Decimal(parts[1])), parts[2]];
  }

  /** Two digits are the two-digit text of their value. */
  lemma TwoDigitTextInverse(s: string)
    requires DigitField(s, 2, 2)
    ensures Decimal(s) < 100 && TwoDigitText(Decimal(s)) == s
  {
    DecimalOfTwoDigits(s);
    assert s[..1][..0] == [];
    var t := TwoDigitText(Decimal(s));
    assert t[0] == s[0] && t[1] == s[1];
  }

  /** The 31st of February, 2024. */
  lemma ImpossibleDateAccepted()
    ensures ValidateDate(FormatDate(2, 31, "2024"))
  {
    var year := "2024";
    assert forall i :: 0 <= i < |year| ==> year[i] != '/' && IsAsciiDigit(year[i]);
    assert DigitField(year, 2, 4);
    DateAcceptedIff(2, 31, year);
  }
}
