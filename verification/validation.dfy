/** The string validators and formatters of the report form: a phone check
    by digit count, a phone formatter, an e-mail shape check and an
    inclusive numeric range check. */
module Validation {
  import opened FormValues

  predicate IsDigit(c: char)
  {
    '0' <= c <= '9'
  }

  predicate AllDigits(s: string)
  {
    forall i | 0 <= i < |s| :: IsDigit(s[i])
  }

  /** `s.replace(/\D/g, '')`: the digit characters of `s`, in order. */
  function Digits(s: string): (r: string)
    ensures AllDigits(r)
    ensures |r| <= |s|
    decreases |s|
  {
    if s == [] then []
    else if IsDigit(s[0]) then [s[0]] + Digits(s[1..])
    else Digits(s[1..])
  }

  lemma {:induction false} DigitsAppend(a: string, b: string)
    ensures Digits(a + b) == Digits(a) + Digits(b)
    decreases |a|
  {
    if a != [] {
      assert (a + b)[1..] == a[1..] + b;
      DigitsAppend(a[1..], b);
    } else {
      assert a + b == b;
    }
  }

  lemma {:induction false} DigitsOfDigits(s: string)
    requires AllDigits(s)
    ensures Digits(s) == s
    decreases |s|
  {
    if s != [] {
      DigitsOfDigits(s[1..]);
    }
  }

  lemma {:induction false} DigitsOfNonDigits(s: string)
    requires forall i | 0 <= i < |s| :: !IsDigit(s[i])
    ensures Digits(s) == []
    decreases |s|
  {
    if s != [] {
      DigitsOfNonDigits(s[1..]);
    }
  }

  /** `validatePhoneNumber`: false for empty input, otherwise whether the
      string carries 10 or 11 digits. */
  function ValidatePhoneNumber(phone: string): bool
  {
    if phone == "" then false
    else
      var digitsOnly := Digits(phone);
      |digitsOnly| == 10 || |digitsOnly| == 11
  }

  /** Validity depends on nothing but the digit count: the point of this
      lemma is that the early `false` for the empty string can be dropped,
      because the empty string has no digits and the count test rejects it
      too. */
  lemma PhoneValidIff(phone: string)
    ensures ValidatePhoneNumber(phone) <==> |Digits(phone)| == 10 || |Digits(phone)| == 11
  {
  }

  /** Inserting a non-digit character anywhere never changes validity. */
  lemma PhoneIgnoresNonDigits(a: string, c: char, b: string)
    requires !IsDigit(c)
    ensures Digits(a + [c] + b) == Digits(a + b)
    ensures ValidatePhoneNumber(a + [c] + b) == ValidatePhoneNumber(a + b)
  {
    DigitsAppend(a + [c], b);
    DigitsAppend(a, [c]);
    DigitsAppend(a, b);
    assert Digits([c]) == [];
    PhoneValidIff(a + [c] + b);
    PhoneValidIff(a + b);
  }

  /** `formatPhoneNumber`: `(ddd) ddd-dddd` for 10 digits,
      `+d (ddd) ddd-dddd` for 11, the input unchanged otherwise. */
  function FormatPhoneNumber(phone: string): string
  {
    if phone == "" then ""
    else
      var d := Digits(phone);
      if |d| == 10 then "(" + d[..3] + ") " + d[3..6] + "-" + d[6..]
      else if |d| == 11 then "+" + [d[0]] + " (" + d[1..4] + ") " + d[4..7] + "-" + d[7..]
      else phone
  }

  /** Ten digits are laid out as `(ddd) ddd-dddd`. */
  lemma FormatTenDigits(phone: string)
    requires |Digits(phone)| == 10
    ensures var r, d := FormatPhoneNumber(phone), Digits(phone);
            && |r| == 14
            && r[0] == '(' && r[1..4] == d[..3] && r[4..6] == ") "
            && r[6..9] == d[3..6] && r[9] == '-' && r[10..] == d[6..]
  {
  }

  /** Eleven digits are laid out as `+d (ddd) ddd-dddd`. */
  lemma FormatElevenDigits(phone: string)
    requires |Digits(phone)| == 11
    ensures var r, d := FormatPhoneNumber(phone), Digits(phone);
            && |r| == 17
            && r[0] == '+' && r[1] == d[0] && r[2..4] == " ("
            && r[4..7] == d[1..4] && r[7..9] == ") " && r[9..12] == d[4..7]
            && r[12] == '-' && r[13..] == d[7..]
  {
  }

  /** Any other digit count leaves the input as it was. */
  lemma FormatOtherCounts(phone: string)
    requires |Digits(phone)| != 10 && |Digits(phone)| != 11
    ensures FormatPhoneNumber(phone) == phone
  {
  }

  /** Non-digit separators between two pieces contribute no digits. */
  lemma {:induction false} DigitsAround(a: string, sep: string, b: string)
    requires forall i | 0 <= i < |sep| :: !IsDigit(sep[i])
    ensures Digits(a + sep + b) == Digits(a) + Digits(b)
  {
    DigitsAppend(a + sep, b);
    DigitsAppend(a, sep);
    DigitsOfNonDigits(sep);
  }

  lemma {:induction false} DigitsOfTenLayout(p1: string, p2: string, p3: string)
    requires AllDigits(p1) && AllDigits(p2) && AllDigits(p3)
    ensures Digits("(" + p1 + ") " + p2 + "-" + p3) == p1 + p2 + p3
  {
    DigitsOfDigits(p1); DigitsOfDigits(p2); DigitsOfDigits(p3);
    DigitsAround("", "(", p1);
    assert "" + "(" + p1 == "(" + p1;
    DigitsAround("(" + p1, ") ", p2);
    DigitsAround("(" + p1 + ") " + p2, "-", p3);
  }

  lemma {:induction false} DigitsOfElevenLayout(p0: string, p1: string, p2: string, p3: string)
    requires AllDigits(p0) && AllDigits(p1) && AllDigits(p2) && AllDigits(p3)
    ensures Digits("+" + p0 + " (" + p1 + ") " + p2 + "-" + p3) == p0 + p1 + p2 + p3
  {
    DigitsOfDigits(p0); DigitsOfDigits(p1); DigitsOfDigits(p2); DigitsOfDigits(p3);
    DigitsAround("", "+", p0);
    assert "" + "+" + p0 == "+" + p0;
    DigitsAround("+" + p0, " (", p1);
    DigitsAround("+" + p0 + " (" + p1, ") ", p2);
    DigitsAround("+" + p0 + " (" + p1 + ") " + p2, "-", p3);
  }

  lemma {:induction false} DigitsOfDashed(p1: string, p2: string, p3: string)
    requires AllDigits(p1) && AllDigits(p2) && AllDigits(p3)
    ensures Digits(p1 + "-" + p2 + "-" + p3) == p1 + p2 + p3
  {
    DigitsOfDigits(p1); DigitsOfDigits(p2); DigitsOfDigits(p3);
    DigitsAround(p1, "-", p2);
    DigitsAround(p1 + "-" + p2, "-", p3);
  }

  lemma DashedExample()
    ensures ValidatePhoneNumber("555-123-4567")
  {
    assert "555-123-4567" == "555" + "-" + "123" + "-" + "4567";
    DigitsOfDashed("555", "123", "4567");
  }

  lemma PlainExample()
    ensures ValidatePhoneNumber("5551234567")
  {
    DigitsOfDigits("5551234567");
  }

  lemma ShortExample()
    ensures !ValidatePhoneNumber("12345")
  {
    DigitsOfDigits("12345");
  }

  /** The formats named in the source's own comment pass, and a short
      number fails. */
  lemma PhoneExamples()
    ensures ValidatePhoneNumber("555-123-4567")
    ensures ValidatePhoneNumber("5551234567")
    ensures !ValidatePhoneNumber("12345")
  {
    DashedExample();
    PlainExample();
    ShortExample();
  }

  /** Formatting keeps exactly the digits of its input. */
  lemma FormatKeepsDigits(phone: string)
    ensures Digits(FormatPhoneNumber(phone)) == Digits(phone)
  {
    if phone != "" {
      var d := Digits(phone);
      if |d| == 10 {
        DigitsOfTenLayout(d[..3], d[3..6], d[6..]);
        assert d[..3] + d[3..6] + d[6..] == d;
      } else if |d| == 11 {
        DigitsOfElevenLayout([d[0]], d[1..4], d[4..7], d[7..]);
        assert [d[0]] + d[1..4] + d[4..7] + d[7..] == d;
      }
    }
  }

  /** Formatting never turns a valid number into an invalid one or back. */
  lemma FormatPreservesValidity(phone: string)
    ensures ValidatePhoneNumber(FormatPhoneNumber(phone)) == ValidatePhoneNumber(phone)
  {
    FormatKeepsDigits(phone);
    PhoneValidIff(phone);
    PhoneValidIff(FormatPhoneNumber(phone));
  }

  /** Formatting an already formatted number changes nothing. */
  lemma FormatIdempotent(phone: string)
    ensures FormatPhoneNumber(FormatPhoneNumber(phone)) == FormatPhoneNumber(phone)
  {
    var r := FormatPhoneNumber(phone);
    FormatKeepsDigits(phone);
    if phone != "" && (|Digits(phone)| == 10 || |Digits(phone)| == 11) {
      assert r != "" by { assert |Digits(r)| >= 10; }
    }
  }

  /** A character allowed in each part of an address: `[^\s@]`. */
  predicate IsEmailPartChar(c: char)
  {
    !IsWhitespace(c) && c != '@'
  }

  /** `[^\s@]+` */
  predicate IsEmailPart(s: string)
  {
    |s| > 0 && forall i | 0 <= i < |s| :: IsEmailPartChar(s[i])
  }

  /** The language of `^[^\s@]+@[^\s@]+\.[^\s@]+$`: some `@` at `i` and
      some `.` at `j` split the string into three non-empty parts free of
      whitespace and `@`. */
  ghost predicate EmailShaped(s: string)
  {
    exists i, j | 0 <= i < j < |s| ::
      s[i] == '@' && s[j] == '.'
      && IsEmailPart(s[..i]) && IsEmailPart(s[i + 1..j]) && IsEmailPart(s[j + 1..])
  }

  /** Index of the first `c` in `s`, or `|s|` when there is none. */
  function IndexOf(s: string, c: char): (k: nat)
    ensures k <= |s|
    ensures k < |s| ==> s[k] == c
    ensures forall i | 0 <= i < k :: s[i] != c
    decreases |s|
  {
    if s == [] then 0
    else if s[0] == c then 0
    else 1 + IndexOf(s[1..], c)
  }

  /** `validateEmail`: the local part runs up to the first `@`; the rest must
      be free of whitespace and `@` and hold a `.` that is neither its first
      nor its last character. */
  function ValidateEmail(email: string): bool
  {
    if email == "" then false
    else
      var at := IndexOf(email, '@');
      if at == |email| then false
      else
        var domain := email[at + 1..];
        && IsEmailPart(email[..at])
        && (forall k | 0 <= k < |domain| :: IsEmailPartChar(domain[k]))
        && (exists k | 0 < k < |domain| - 1 :: domain[k] == '.')
  }

  lemma ValidEmailIsShaped(email: string)
    requires ValidateEmail(email)
    ensures EmailShaped(email)
  {
    var at := IndexOf(email, '@');
    var domain := email[at + 1..];
    var k :| 0 < k < |domain| - 1 && domain[k] == '.';
    var j := at + 1 + k;
    assert email[at + 1..j] == domain[..k];
    assert email[j + 1..] == domain[k + 1..];
    assert email[j] == '.';
    assert IsEmailPart(email[at + 1..j]);
    assert IsEmailPart(email[j + 1..]);
  }

  lemma ShapedEmailIsValid(email: string, i: nat, j: nat)
    requires 0 <= i < j < |email| && email[i] == '@' && email[j] == '.'
    requires IsEmailPart(email[..i]) && IsEmailPart(email[i + 1..j]) && IsEmailPart(email[j + 1..])
    ensures ValidateEmail(email)
  {
    var at := IndexOf(email, '@');
    assert at == i;
    var domain := email[i + 1..];
    var left, right := email[i + 1..j], email[j + 1..];
    assert domain == left + ['.'] + right;
    assert domain[j - i - 1] == '.';
    forall k | 0 <= k < |domain| ensures IsEmailPartChar(domain[k]) {
      if k < |left| {
        assert domain[k] == left[k];
      } else if k > |left| {
        assert domain[k] == right[k - |left| - 1];
      }
    }
  }

  /** `validateEmail` accepts exactly the strings the regular expression
      matches (the empty string among the rejected ones). */
  lemma ValidateEmailIff(email: string)
    ensures ValidateEmail(email) <==> EmailShaped(email)
  {
    if ValidateEmail(email) {
      ValidEmailIsShaped(email);
    }
    if EmailShaped(email) {
      var i, j :| 0 <= i < j < |email| && email[i] == '@' && email[j] == '.'
        && IsEmailPart(email[..i]) && IsEmailPart(email[i + 1..j]) && IsEmailPart(email[j + 1..]);
      ShapedEmailIsValid(email, i, j);
    }
  }

  /** `validateNumberRange` over an already-parsed number: an absent bound
      imposes nothing, a present one is inclusive. */
  function ValidateNumberRange(num: int, min: Option<int>, max: Option<int>): bool
  {
    if min.Some? && num < min.value then false
    else if max.Some? && num > max.value then false
    else true
  }

  /** The bounds are inclusive and an absent bound imposes no constraint. */
  lemma NumberRangeIff(num: int, min: Option<int>, max: Option<int>)
    ensures ValidateNumberRange(num, min, max)
            <==> (min.None? || min.value <= num) && (max.None? || num <= max.value)
  {
  }

  /** A lower bound `lo'` is at most as strict as `lo` (an absent bound is
      the least strict). */
  predicate LowerLooser(lo': Option<int>, lo: Option<int>)
  {
    lo'.None? || (lo.Some? && lo'.value <= lo.value)
  }

  /** An upper bound `hi'` is at most as strict as `hi`. */
  predicate UpperLooser(hi': Option<int>, hi: Option<int>)
  {
    hi'.None? || (hi.Some? && hi.value <= hi'.value)
  }

  /** Loosening either bound never rejects a number that was accepted;
      with both bounds absent every number is accepted. */
  lemma NumberRangeWidening(num: int, min: Option<int>, max: Option<int>, min': Option<int>, max': Option<int>)
    requires LowerLooser(min', min) && UpperLooser(max', max)
    ensures ValidateNumberRange(num, min, max) ==> ValidateNumberRange(num, min', max')
    ensures ValidateNumberRange(num, None, None)
  {
    NumberRangeIff(num, min, max);
    NumberRangeIff(num, min', max');
  }

  /** Between two accepted numbers every number is accepted. */
  lemma {:induction false} NumberRangeConvex(a: int, b: int, c: int, min: Option<int>, max: Option<int>)
    requires a <= b <= c
    requires ValidateNumberRange(a, min, max) && ValidateNumberRange(c, min, max)
    ensures ValidateNumberRange(b, min, max)
  {
    NumberRangeIff(a, min, max);
    NumberRangeIff(c, min, max);
    NumberRangeIff(b, min, max);
  }
}
