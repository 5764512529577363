/** The status panel's smart reminders: a fixed, ordered list of rules, each
    a condition on the form data with a severity and a message, of which the
    panel shows those whose condition holds; and the "all fields completed"
    note under the progress bar. */
module FormStatusPanel {
  import opened FormValues
  import opened FormSchema
  import opened FormValidation

  // ---------------------------------------------------------------------
  // `parseInt` on a stored value
  // ---------------------------------------------------------------------

  /** `String(value)`: `undefined` prints as "undefined", an array as its
      items joined with commas. */
  function ToJsString(v: Value): string
  {
    match v
    case Undefined => "undefined"
    case Str(s) => s
    case List(items) => Join(items, ",")
  }

  /** The value of a digit in the given radix (10 or 16), if it is one. */
  function DigitValue(c: char, radix: nat): Option<nat>
  {
    if '0' <= c <= '9' then Some(c as nat - '0' as nat)
    else if radix == 16 && 'a' <= c <= 'f' then Some(c as nat - 'a' as nat + 10)
    else if radix == 16 && 'A' <= c <= 'F' then Some(c as nat - 'A' as nat + 10)
    else None
  }

  /** The length of the longest prefix of `s` made of digits. */
  function LeadingDigits(s: string, radix: nat): (k: nat)
    ensures k <= |s|
    ensures forall i | 0 <= i < k :: DigitValue(s[i], radix).Some?
    ensures k < |s| ==> DigitValue(s[k], radix).None?
  {
    if s == [] || DigitValue(s[0], radix).None? then 0 else 1 + LeadingDigits(s[1..], radix)
  }

  /** The number a string of digits denotes, most significant first. */
  function DigitsValue(s: string, radix: nat): nat
    requires forall i | 0 <= i < |s| :: DigitValue(s[i], radix).Some?
  {
    if s == [] then 0
    else DigitsValue(s[..|s| - 1], radix) * radix + DigitValue(s[|s| - 1], radix).value
  }

  /** The digits after the sign: a "0x"/"0X" prefix switches to
      hexadecimal, and the longest digit prefix is the number; no digits at
      all gives `NaN` (`None`). */
  function ParseUnsigned(u: string): Option<nat>
  {
    var hex := |u| >= 2 && u[0] == '0' && (u[1] == 'x' || u[1] == 'X');
    var radix := if hex then 16 else 10;
    var w := if hex then u[2..] else u;
    var k := LeadingDigits(w, radix);
    if k == 0 then None else Some(DigitsValue(w[..k], radix))
  }

  /** `parseInt(s)` without a radix: leading whitespace is skipped and one
      sign is read before the digits. */
  function ParseInt(s: string): Option<int>
  {
    var t := TrimStart(s);
    var negative := t != [] && t[0] == '-';
    var u := if t != [] && (t[0] == '-' || t[0] == '+') then t[1..] else t;
    match ParseUnsigned(u)
    case None => None
    case Some(n) => Some(if negative then -(n as int) else n)
  }

  /** The decimal numeral of `n`, without leading zeros. */
  function NatToDecimal(n: nat): (s: string)
    ensures s != []
    ensures forall i | 0 <= i < |s| :: '0' <= s[i] <= '9'
    ensures |s| > 1 ==> s[0] != '0'
  {
    if n < 10 then ['0' + n as char]
    else NatToDecimal(n / 10) + ['0' + (n % 10) as char]
  }

  lemma {:induction false} DecimalValue(n: nat)
    ensures forall i | 0 <= i < |NatToDecimal(n)| :: DigitValue(NatToDecimal(n)[i], 10).Some?
    ensures DigitsValue(NatToDecimal(n), 10) == n
    decreases n
  {
    var s := NatToDecimal(n);
    if n >= 10 {
      DecimalValue(n / 10);
      assert s[..|s| - 1] == NatToDecimal(n / 10);
    }
  }

  lemma {:induction false} LeadingDigitsAll(s: string, rest: string, radix: nat)
    requires forall i | 0 <= i < |s| :: DigitValue(s[i], radix).Some?
    requires rest == [] || DigitValue(rest[0], radix).None?
    ensures LeadingDigits(s + rest, radix) == |s|
    decreases |s|
  {
    if s != [] {
      assert (s + rest)[1..] == s[1..] + rest;
      LeadingDigitsAll(s[1..], rest, radix);
    }
  }

  /** What may follow a numeral without changing how it reads: nothing, or
      a character that is neither a decimal digit nor the "x" of a
      hexadecimal prefix ("0x1" reads as 1, not 0). */
  predicate NumeralEnd(rest: string)
  {
    rest == [] || (!('0' <= rest[0] <= '9') && rest[0] != 'x' && rest[0] != 'X')
  }

  lemma ParseUnsignedDecimal(n: nat, rest: string)
    requires NumeralEnd(rest)
    ensures ParseUnsigned(NatToDecimal(n) + rest) == Some(n)
  {
    var s := NatToDecimal(n);
    var w := s + rest;
    DecimalValue(n);
    LeadingDigitsAll(s, rest, 10);
    assert w[..|s|] == s;
    assert !(|w| >= 2 && w[0] == '0' && (w[1] == 'x' || w[1] == 'X')) by {
      if |s| == 1 && |w| >= 2 {
        assert w[1] == rest[0];
      }
    }
  }

  /** `parseInt` reads back a decimal numeral and ignores whatever follows
      its digits ("17 years" is 17). */
  lemma ParseDecimal(n: nat, rest: string)
    requires NumeralEnd(rest)
    ensures ParseInt(NatToDecimal(n) + rest) == Some(n)
  {
    var s := NatToDecimal(n);
    var w := s + rest;
    ParseUnsignedDecimal(n, rest);
    assert w[0] == s[0];
    ParseUnsignedAsInt(w, n);
  }

  /** Text that starts with a digit is read without a sign. */
  lemma ParseUnsignedAsInt(w: string, n: nat)
    requires w != [] && '0' <= w[0] <= '9'
    requires ParseUnsigned(w) == Some(n)
    ensures ParseInt(w) == Some(n)
  {
    assert !IsWhitespace(w[0]);
    assert TrimStart(w) == w;
  }

  /** A minus sign in front negates the number. */
  lemma ParseMinus(w: string, n: nat)
    requires ParseUnsigned(w) == Some(n)
    ensures ParseInt("-" + w) == Some(-(n as int))
  {
    var m := "-" + w;
    assert m[1..] == w;
    assert TrimStart(m) == m by {
      assert !IsWhitespace(m[0]);
    }
  }

  /** A minus sign in front of a decimal numeral negates it. */
  lemma ParseNegativeDecimal(n: nat, rest: string)
    requires NumeralEnd(rest)
    ensures ParseInt("-" + NatToDecimal(n) + rest) == Some(-(n as int))
  {
    var w := NatToDecimal(n) + rest;
    assert "-" + NatToDecimal(n) + rest == "-" + w;
    ParseUnsignedDecimal(n, rest);
    ParseMinus(w, n);
  }

  /** A hexadecimal prefix switches the radix: "0x1F" reads as 31. */
  lemma ParseHexExample()
    ensures ParseInt("0x1F") == Some(31)
  {
    assert ParseUnsigned("0x1F") == Some(31) by {
      assert "0x1F"[2..] == "1F";
      assert LeadingDigits("1F", 16) == 2;
      assert "1F"[..2] == "1F";
      assert DigitsValue("1", 16) == 1;
    }
    ParseUnsignedAsInt("0x1F", 31);
  }

  /** Text that does not start, after whitespace and a sign, with a digit
      is not a number, so "undefined" and "" are `NaN`. */
  lemma ParseNoDigits()
    ensures ParseInt("") == None
    ensures ParseInt("undefined") == None
    ensures ParseInt("unknown") == None
  {
  }

  // ---------------------------------------------------------------------
  // The rules
  // ---------------------------------------------------------------------

  datatype Severity = Warning | Alert

  datatype RuleKind = MinorPatient | HeadInjury | StaffInjury | StaffInvolvedHeadInjury | SevereInjury

  /** A reminder: its id, which condition it checks, its text and type. */
  datatype ReminderRule = ReminderRule(id: string, kind: RuleKind, message: string, severity: Severity)

  /** `parseInt(formData.patientAge)` is a number below 18. */
  predicate IsMinor(formData: FormData)
  {
    var age := ParseInt(ToJsString(Get(formData, "patientAge")));
    age.Some? && age.value < 18
  }

  /** `injuryTypes` is an array holding "head". */
  predicate HasHeadInjury(formData: FormData)
  {
    var v := Get(formData, "injuryTypes");
    Truthy(v) && v.List? && "head" in v.items
  }

  /** `guestType` is "staff" or "staff-off-duty". */
  predicate IsStaff(formData: FormData)
  {
    Get(formData, "guestType") == Str("staff") || Get(formData, "guestType") == Str("staff-off-duty")
  }

  /** The condition of each rule, written as the rule states it. */
  predicate Condition(kind: RuleKind, formData: FormData)
  {
    match kind
    case MinorPatient => IsMinor(formData)
    case HeadInjury => HasHeadInjury(formData)
    case StaffInjury => IsStaff(formData)
    case StaffInvolvedHeadInjury =>
      var isStaff := Get(formData, "guestType") == Str("staff") || Get(formData, "guestType") == Str("staff-off-duty");
      var injuryTypes := Get(formData, "injuryTypes");
      var hasHeadInjury := Truthy(injuryTypes) && injuryTypes.List? && "head" in injuryTypes.items;
      isStaff && hasHeadInjury
    case SevereInjury => Get(formData, "injurySeverity") == Str("severe")
  }

  /** `REMINDER_RULES`, in declaration order. */
  const ReminderRules: seq<ReminderRule> := [
    ReminderRule("minor_patient", MinorPatient,
      "\U{26A0}\U{FE0F} Patient is a minor - Remember to contact parent/guardian", Warning),
    ReminderRule("head_injury", HeadInjury,
      "\U{26A0}\U{FE0F} Head injury reported - Provide concussion information card", Warning),
    ReminderRule("staff_injury", StaffInjury,
      "\U{26A0}\U{FE0F} Staff injury reported - Notify supervisor", Warning),
    ReminderRule("staff_involved_head_injury", StaffInvolvedHeadInjury,
      "\U{1F6A8} Staff member with head injury - Notify supervisor and Liz", Alert),
    ReminderRule("severe_injury", SevereInjury,
      "\U{1F6A8} Severe injury - Ensure emergency services have been contacted", Alert)
  ]

  /** `REMINDER_RULES.filter(rule => rule.condition(formData))` */
  function ActiveReminders(rules: seq<ReminderRule>, formData: FormData): seq<ReminderRule>
  {
    if rules == [] then []
    else if Condition(rules[0].kind, formData) then [rules[0]] + ActiveReminders(rules[1..], formData)
    else ActiveReminders(rules[1..], formData)
  }

  /** The active reminders are the rules whose condition holds, in
      declaration order (not sorted by severity). */
  lemma {:induction false} ActiveRemindersSpec(rules: seq<ReminderRule>, formData: FormData)
    ensures IsSubsequence(ActiveReminders(rules, formData), rules)
    ensures forall r :: r in ActiveReminders(rules, formData) <==> r in rules && Condition(r.kind, formData)
    decreases |rules|
  {
    if rules != [] {
      ActiveRemindersSpec(rules[1..], formData);
      assert forall r :: r in rules <==> r == rules[0] || r in rules[1..];
    }
  }

  /** The rule list: five distinct ids in this order, the last two alerts
      and the first three warnings. */
  lemma ReminderRulesShape()
    ensures |ReminderRules| == 5
    ensures forall i, j | 0 <= i < j < 5 :: ReminderRules[i].id != ReminderRules[j].id
    ensures forall k | 0 <= k < 5 :: ReminderRules[k].severity == Alert <==> k >= 3
    ensures ReminderRules[0].kind == MinorPatient && ReminderRules[1].kind == HeadInjury
    ensures ReminderRules[2].kind == StaffInjury && ReminderRules[3].kind == StaffInvolvedHeadInjury
    ensures ReminderRules[4].kind == SevereInjury
  {
  }

  /** A decimal age fires the minor reminder exactly when it is below 18,
      trailing text after the digits notwithstanding. */
  lemma MinorAge(formData: FormData, n: nat, rest: string)
    requires NumeralEnd(rest)
    requires Get(formData, "patientAge") == Str(NatToDecimal(n) + rest)
    ensures Condition(MinorPatient, formData) <==> n < 18
  {
    ParseDecimal(n, rest);
  }

  /** What `parseInt` reads its digits from: the text after leading
      whitespace and at most one sign. */
  function AfterSign(s: string): string
  {
    var t := TrimStart(s);
    if t != [] && (t[0] == '-' || t[0] == '+') then t[1..] else t
  }

  /** Text whose first character after whitespace and a sign is not a
      decimal digit (or that ends there) is `NaN`. */
  lemma ParseNoLeadingDigit(s: string)
    requires AfterSign(s) == [] || !('0' <= AfterSign(s)[0] <= '9')
    ensures ParseInt(s) == None
  {
    var u := AfterSign(s);
    assert !(|u| >= 2 && u[0] == '0');
    assert LeadingDigits(u, 10) == 0;
  }

  /** An age whose text, after whitespace and a sign, does not start with
      a digit parses to `NaN` and never fires the minor reminder; this
      covers an absent age ("undefined"), an empty one and any word. */
  lemma MinorUnparsable(formData: FormData)
    requires var u := AfterSign(ToJsString(Get(formData, "patientAge")));
      u == [] || !('0' <= u[0] <= '9')
    ensures !Condition(MinorPatient, formData)
  {
    ParseNoLeadingDigit(ToJsString(Get(formData, "patientAge")));
  }

  /** Instances: an absent age, an empty one, "unknown", "N/A" and a
      checkbox-like array `["x"]`. */
  lemma MinorUnparsableExamples(formData: FormData)
    requires Get(formData, "patientAge") in {Undefined, Str(""), Str("unknown"), Str("N/A"), List(["x"])}
    ensures !Condition(MinorPatient, formData)
  {
    var v := Get(formData, "patientAge");
    var s := ToJsString(v);
    assert s in {"undefined", "", "unknown", "N/A", "x"};
    assert s != [] ==> !IsWhitespace(s[0]) && s[0] != '-' && s[0] != '+';
    assert AfterSign(s) == s;
    MinorUnparsable(formData);
  }

  /** The head-injury rule reads only an array `injuryTypes`: a string that
      merely says "head" does not fire it. */
  lemma HeadInjuryNeedsArray(formData: FormData)
    ensures Condition(HeadInjury, formData)
            <==> Get(formData, "injuryTypes").List? && "head" in Get(formData, "injuryTypes").items
    ensures Get(formData, "injuryTypes") == Str("head") ==> !Condition(HeadInjury, formData)
  {
  }

  /** The combined rule fires exactly when both the staff rule and the head
      injury rule fire. */
  lemma StaffHeadInjuryIsBoth(formData: FormData)
    ensures Condition(StaffInvolvedHeadInjury, formData)
            <==> Condition(StaffInjury, formData) && Condition(HeadInjury, formData)
  {
  }

  /** When every rule of a list fires, the filter keeps the whole list. */
  lemma {:induction false} AllFire(rules: seq<ReminderRule>, formData: FormData)
    requires forall k | 0 <= k < |rules| :: Condition(rules[k].kind, formData)
    ensures ActiveReminders(rules, formData) == rules
    decreases |rules|
  {
    if rules != [] {
      AllFire(rules[1..], formData);
    }
  }

  /** An adult staff member with a severe head injury sees the last four
      reminders, in declaration order. */
  lemma StaffHeadInjuryReminders(formData: FormData, n: nat)
    requires 18 <= n && Get(formData, "patientAge") == Str(NatToDecimal(n))
    requires IsStaff(formData) && HasHeadInjury(formData)
    requires Get(formData, "injurySeverity") == Str("severe")
    ensures ActiveReminders(ReminderRules, formData) == ReminderRules[1..]
  {
    assert NatToDecimal(n) + [] == NatToDecimal(n);
    MinorAge(formData, n, []);
    ReminderRulesShape();
    AllButFirstFire(ReminderRules, formData);
  }

  /** When the first rule of a list stays silent and the rest fire, the
      filter keeps the rest. */
  lemma AllButFirstFire(rules: seq<ReminderRule>, formData: FormData)
    requires rules != [] && !Condition(rules[0].kind, formData)
    requires forall k | 1 <= k < |rules| :: Condition(rules[k].kind, formData)
    ensures ActiveReminders(rules, formData) == rules[1..]
  {
    var rest := rules[1..];
    assert forall k | 0 <= k < |rest| :: rest[k] == rules[k + 1];
    AllFire(rest, formData);
  }

  /** The same for a 30-year-old staff member with a fracture and a head
      injury. */
  lemma StaffHeadInjuryExample()
    ensures ActiveReminders(ReminderRules, map[
              "patientAge" := Str("30"), "guestType" := Str("staff"),
              "injuryTypes" := List(["fracture", "head"]), "injurySeverity" := Str("severe")])
            == ReminderRules[1..]
  {
    var d := map[
      "patientAge" := Str("30"), "guestType" := Str("staff"),
      "injuryTypes" := List(["fracture", "head"]), "injurySeverity" := Str("severe")];
    assert NatToDecimal(30) == "30";
    assert "head" in d["injuryTypes"].items;
    StaffHeadInjuryReminders(d, 30);
  }

  /** The "All fields completed" note is shown when the overall percentage
      is exactly 100. */
  predicate ShowsAllCompleted(m: Metrics)
  {
    m.overallPercentage == Pct(100)
  }

  /** On the accident report the note appears exactly when every one of its
      27 fields is filled in or marked unavailable. */
  lemma AllCompletedNote(formData: FormData, unavailable: seq<string>)
    ensures ShowsAllCompleted(CalculateCompletion(AccidentReportSchema, formData, unavailable))
            <==> forall n | n in SchemaNames :: IsCompleted(formData, unavailable, n)
  {
    SchemaNamesDistinct();
    SchemaFieldNames();
    OverallFullIff(AccidentReportSchema, formData, unavailable);
  }
}
