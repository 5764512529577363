/** The validation and completion engine of the accident report: per-field
    validation, the whole-form error map and its single-key blur update, the
    two-tier completion metrics and the list of incomplete patient-required
    fields. */
module FormValidation {
  import opened FormValues
  import opened Validation
  import opened FormSchema

  /** A field's `validation.custom(value, formData)` hook, selected by the
      field's name; the empty string stands for every falsy answer. */
  type CustomCheck = (string, Value, FormData) -> string

  /** The hooks of a schema that defines none. */
  function NoCustom(name: string, value: Value, formData: FormData): string
  {
    ""
  }

  const DefaultPhoneMessage := "Please enter a valid phone number"

  /** `validatePhoneNumber(value)` on a stored value. */
  predicate PhoneValueValid(v: Value)
  {
    v.Str? && ValidatePhoneNumber(v.s)
  }

  /** `validateField(fieldName, value)`: the error text for one field, or
      none. A name the schema does not know never errors; a "phone" field
      errors on a non-empty value that is not a phone number; a custom hook
      errors when it answers with a non-empty text. No other descriptor
      (a "required" one included) is enforced. */
  function ValidateField(schema: Schema, formData: FormData, custom: CustomCheck, name: string, value: Value)
    : (r: Option<string>)
    ensures r.Some? ==> r.value != ""
    ensures (forall f | f in AllFields(schema) :: f.name != name) ==> r.None?
  {
    match FindField(AllFields(schema), name)
    case None => None
    case Some(f) =>
      if f.validation.Some? && f.validation.value.kind == "phone" && Truthy(value) && !PhoneValueValid(value) then
        Some(if f.validation.value.message != "" then f.validation.value.message else DefaultPhoneMessage)
      else if f.validation.Some? && f.validation.value.hasCustom && custom(name, value, formData) != "" then
        Some(custom(name, value, formData))
      else
        None
  }

  /** A "phone" field without a custom hook: an absent or empty value never
      errors; a non-empty text errors exactly when it does not carry 10 or
      11 digits, and the error is the configured message or the default. */
  lemma PhoneFieldRule(schema: Schema, formData: FormData, custom: CustomCheck, name: string, value: Value, f: FieldDef)
    requires FindField(AllFields(schema), name) == Some(f)
    requires f.validation.Some? && f.validation.value.kind == "phone" && !f.validation.value.hasCustom
    ensures !Truthy(value) ==> ValidateField(schema, formData, custom, name, value) == None
    ensures value.Str? && value.s != "" ==>
      (ValidateField(schema, formData, custom, name, value).Some?
       <==> |Digits(value.s)| != 10 && |Digits(value.s)| != 11)
    ensures ValidateField(schema, formData, custom, name, value).Some? ==>
      ValidateField(schema, formData, custom, name, value).value
      == (if f.validation.value.message != "" then f.validation.value.message else DefaultPhoneMessage)
  {
    if value.Str? {
      PhoneValidIff(value.s);
    }
  }

  /** A descriptor of any other type (such as "required") without a custom
      hook is not enforced: every value, the empty one included, passes. */
  lemma OtherRulesNotEnforced(schema: Schema, formData: FormData, custom: CustomCheck, name: string, value: Value, f: FieldDef)
    requires FindField(AllFields(schema), name) == Some(f)
    requires f.validation.Some? ==> f.validation.value.kind != "phone" && !f.validation.value.hasCustom
    ensures ValidateField(schema, formData, custom, name, value) == None
  {
  }

  /** A field with a custom hook: when its phone test fires, the phone
      message wins and the hook is not consulted; otherwise a non-empty
      answer of the hook is the error, and an empty one means no error. */
  lemma CustomRule(schema: Schema, formData: FormData, custom: CustomCheck, name: string, value: Value, f: FieldDef)
    requires FindField(AllFields(schema), name) == Some(f)
    requires f.validation.Some? && f.validation.value.hasCustom
    ensures var phoneFails := f.validation.value.kind == "phone" && Truthy(value) && !PhoneValueValid(value);
      && (phoneFails ==> ValidateField(schema, formData, custom, name, value)
                         == Some(if f.validation.value.message != "" then f.validation.value.message
                                 else DefaultPhoneMessage))
      && (!phoneFails && custom(name, value, formData) != "" ==>
            ValidateField(schema, formData, custom, name, value) == Some(custom(name, value, formData)))
      && (!phoneFails && custom(name, value, formData) == "" ==>
            ValidateField(schema, formData, custom, name, value) == None)
  {
  }

  /** A phone field with a custom hook, given a number that passes the
      phone test, reports exactly the hook's non-empty answer; given one
      that fails, reports the phone message whatever the hook says. */
  lemma CustomAfterPhone(schema: Schema, formData: FormData, custom: CustomCheck, name: string, s: string, f: FieldDef)
    requires FindField(AllFields(schema), name) == Some(f)
    requires f.validation == Some(Rule("phone", "", true))
    requires s != ""
    ensures |Digits(s)| == 10 || |Digits(s)| == 11 ==>
      ValidateField(schema, formData, custom, name, Str(s))
      == (if custom(name, Str(s), formData) != "" then Some(custom(name, Str(s), formData)) else None)
    ensures |Digits(s)| != 10 && |Digits(s)| != 11 ==>
      ValidateField(schema, formData, custom, name, Str(s)) == Some(DefaultPhoneMessage)
  {
    PhoneValidIff(s);
    CustomRule(schema, formData, custom, name, Str(s), f);
  }

  /** The phone examples on the accident report: a formatted ten-digit
      number passes, five digits fail with the default message, and the
      empty string passes; `location` passes even when empty. */
  lemma AccidentReportFieldExamples(formData: FormData, custom: CustomCheck)
    ensures ValidateField(AccidentReportSchema, formData, custom, "patientPhoneNumber", Str("555-123-4567")) == None
    ensures ValidateField(AccidentReportSchema, formData, custom, "patientPhoneNumber", Str("12345"))
            == Some(DefaultPhoneMessage)
    ensures ValidateField(AccidentReportSchema, formData, custom, "patientPhoneNumber", Str("")) == None
    ensures ValidateField(AccidentReportSchema, formData, custom, "location", Str("")) == None
  {
    var phone, location := PatientInfo.fields[3], IncidentDetails.fields[1];
    LocationRuleField();
    LocationRule();
    PhoneRuleField();
    PhoneRule();
    PhoneExamples();
    PhoneFieldRule(AccidentReportSchema, formData, custom, "patientPhoneNumber", Str("555-123-4567"), phone);
    PhoneFieldRule(AccidentReportSchema, formData, custom, "patientPhoneNumber", Str("12345"), phone);
    PhoneFieldRule(AccidentReportSchema, formData, custom, "patientPhoneNumber", Str(""), phone);
    OtherRulesNotEnforced(AccidentReportSchema, formData, custom, "location", Str(""), location);
  }

  // ---------------------------------------------------------------------
  // The whole-form error map and its blur update
  // ---------------------------------------------------------------------

  /** `validateField` as the hook hands it out: a callback closed over the
      schema, the form data and the custom checks. */
  type FieldCheck = (string, Value) -> Option<string>

  function Validator(schema: Schema, formData: FormData, custom: CustomCheck): FieldCheck
  {
    (name: string, value: Value) => ValidateField(schema, formData, custom, name, value)
  }

  /** The map `validate` has built after walking the fields `visited`:
      each failing field stores its message under its name. */
  function ErrorsOf(visited: seq<FieldDef>, formData: FormData, validateField: FieldCheck): map<string, string>
    decreases |visited|
  {
    if visited == [] then map[]
    else
      var before := ErrorsOf(visited[..|visited| - 1], formData, validateField);
      var f := visited[|visited| - 1];
      match validateField(f.name, Get(formData, f.name))
      case Some(e) => before[f.name := e]
      case None => before
  }

  /** Visiting one more field adds its error, if it has one. */
  lemma ErrorsOfSnoc(visited: seq<FieldDef>, f: FieldDef, formData: FormData, validateField: FieldCheck)
    ensures ErrorsOf(visited + [f], formData, validateField)
            == (match validateField(f.name, Get(formData, f.name))
                case Some(e) => ErrorsOf(visited, formData, validateField)[f.name := e]
                case None => ErrorsOf(visited, formData, validateField))
  {
    assert (visited + [f])[..|visited|] == visited;
  }

  /** Every stored message is the error of a visited field, and every
      visited field that fails has an entry. */
  lemma {:induction false} ErrorsOfSpec(visited: seq<FieldDef>, formData: FormData, validateField: FieldCheck)
    ensures var m := ErrorsOf(visited, formData, validateField);
      && (forall n | n in m :: n in Names(visited) && validateField(n, Get(formData, n)) == Some(m[n]))
      && (forall n | n in Names(visited) :: validateField(n, Get(formData, n)).Some? ==> n in m)
    decreases |visited|
  {
    if visited != [] {
      var init, f := visited[..|visited| - 1], visited[|visited| - 1];
      assert visited == init + [f];
      ErrorsOfSpec(init, formData, validateField);
      NamesAppend(init, [f]);
      assert Names(visited) == Names(init) + [f.name];
    }
  }

  /** The error map `validate` stores: one entry per schema field whose
      validation fails, and no other. */
  function ErrorMap(schema: Schema, formData: FormData, custom: CustomCheck): (r: map<string, string>)
    ensures forall n | n in r ::
      (n in Names(AllFields(schema)) && r[n] != ""
       && ValidateField(schema, formData, custom, n, Get(formData, n)) == Some(r[n]))
    ensures forall n | n in Names(AllFields(schema)) ::
      ValidateField(schema, formData, custom, n, Get(formData, n)).Some? ==> n in r
  {
    ErrorsOfSpec(AllFields(schema), formData, Validator(schema, formData, custom));
    ErrorsOf(AllFields(schema), formData, Validator(schema, formData, custom))
  }

  /** `section.fields.forEach(...)` inside `validate`: walking one
      section's fields extends the map built so far with their errors. */
  method CollectSectionErrors(formData: FormData, validateField: FieldCheck,
                              ghost done: seq<FieldDef>, fields: seq<FieldDef>, before: map<string, string>)
    returns (errors: map<string, string>)
    requires before == ErrorsOf(done, formData, validateField)
    ensures errors == ErrorsOf(done + fields, formData, validateField)
  {
    errors := before;
    assert done + fields[..0] == done;
    var j := 0;
    while j < |fields|
      invariant 0 <= j <= |fields|
      invariant errors == ErrorsOf(done + fields[..j], formData, validateField)
    {
      var name := fields[j].name;
      var error := validateField(name, Get(formData, name));
      ErrorsOfSnoc(done + fields[..j], fields[j], formData, validateField);
      if error.Some? {
        errors := errors[name := error.value];
      }
      assert done + fields[..j + 1] == done + fields[..j] + [fields[j]];
      j := j + 1;
    }
    assert fields[..j] == fields;
  }

  /** `validate`'s nested walk over sections and fields, building the error
      map and reporting whether it is empty. */
  method CollectErrors(schema: Schema, formData: FormData, custom: CustomCheck)
    returns (errors: map<string, string>, ok: bool)
    ensures errors == ErrorMap(schema, formData, custom)
    ensures ok <==> errors == map[]
  {
    var validateField := Validator(schema, formData, custom);
    errors := map[];
    var i := 0;
    while i < |schema.sections|
      invariant 0 <= i <= |schema.sections|
      invariant errors == ErrorsOf(Flatten(schema.sections[..i]), formData, validateField)
    {
      errors := CollectSectionErrors(formData, validateField, Flatten(schema.sections[..i]),
                                     schema.sections[i].fields, errors);
      FlattenPrefix(schema.sections, i);
      i := i + 1;
    }
    assert schema.sections[..i] == schema.sections;
    ok := |errors.Keys| == 0;
    assert ok ==> errors == map[] by {
      if ok {
        assert errors.Keys == {};
      }
    }
  }

  /** `validateOnBlur`'s update of the stored errors: set or remove the
      entry of `name`, leaving every other entry as it was. */
  function BlurUpdate(errors: map<string, string>, name: string, error: Option<string>): (r: map<string, string>)
    ensures forall k | k != name :: (k in r <==> k in errors)
    ensures forall k | k != name && k in r :: r[k] == errors[k]
    ensures error.Some? ==> name in r && r[name] == error.value
    ensures error.None? ==> name !in r
  {
    match error
    case Some(e) => errors[name := e]
    case None => errors - {name}
  }

  /** The blur update leaves a map alone when it already records exactly
      the field's error. */
  lemma BlurFixed(errors: map<string, string>, name: string, error: Option<string>)
    requires error.Some? ==> name in errors && errors[name] == error.value
    requires error.None? ==> name !in errors
    ensures BlurUpdate(errors, name, error) == errors
  {
  }

  /** Blurring any field right after a full validation changes nothing:
      the single-field update agrees with the whole-form map. */
  lemma BlurAfterValidate(schema: Schema, formData: FormData, custom: CustomCheck, name: string)
    ensures BlurUpdate(ErrorMap(schema, formData, custom), name,
                       ValidateField(schema, formData, custom, name, Get(formData, name)))
            == ErrorMap(schema, formData, custom)
  {
    var m := ErrorMap(schema, formData, custom);
    var e := ValidateField(schema, formData, custom, name, Get(formData, name));
    if e.Some? {
      assert name in Names(AllFields(schema)) by {
        FindFieldNames(AllFields(schema), name);
      }
    }
    BlurFixed(m, name, e);
  }

  /** Under `OnlyListedRules`, an error can only sit on `patientPhoneNumber`
      once `location`'s descriptor is not a phone one. */
  lemma ErrorKeysListed(schema: Schema, formData: FormData, custom: CustomCheck, location: FieldDef)
    requires OnlyListedRules(AllFields(schema))
    requires FindField(AllFields(schema), "location") == Some(location)
    requires location.validation.Some? ==> location.validation.value.kind != "phone"
    ensures forall n | n in ErrorMap(schema, formData, custom) :: n == "patientPhoneNumber"
  {
    var fs := AllFields(schema);
    forall n | n in ErrorMap(schema, formData, custom) ensures n == "patientPhoneNumber" {
      var f := FindField(fs, n).value;
      var k :| 0 <= k < |fs| && fs[k] == f;
    }
  }

  /** A map whose only possible key is `k` is determined by that key's
      entry. */
  lemma SingleKeyMap(m: map<string, string>, k: string, e: Option<string>)
    requires forall n | n in m :: n == k
    requires k in m <==> e.Some?
    requires e.Some? ==> m[k] == e.value
    ensures m == (if e.Some? then map[k := e.value] else map[])
  {
  }

  /** The error map of a schema whose only descriptors are a non-phone one
      on `location` and the default phone one on `patientPhoneNumber`. */
  lemma PhoneOnlyErrors(schema: Schema, formData: FormData, custom: CustomCheck, location: FieldDef, phone: FieldDef)
    requires OnlyListedRules(AllFields(schema))
    requires FindField(AllFields(schema), "location") == Some(location)
    requires location.validation.Some? ==> location.validation.value.kind != "phone"
    requires FindField(AllFields(schema), "patientPhoneNumber") == Some(phone)
    requires phone.validation == Some(Rule("phone", DefaultPhoneMessage, false))
    ensures ErrorMap(schema, formData, custom)
            == (var v := Get(formData, "patientPhoneNumber");
                if Truthy(v) && !PhoneValueValid(v) then map["patientPhoneNumber" := DefaultPhoneMessage]
                else map[])
  {
    var fs := AllFields(schema);
    var m := ErrorMap(schema, formData, custom);
    var v := Get(formData, "patientPhoneNumber");
    var e := ValidateField(schema, formData, custom, "patientPhoneNumber", v);
    assert e == (if Truthy(v) && !PhoneValueValid(v) then Some(DefaultPhoneMessage) else None);
    ErrorKeysListed(schema, formData, custom, location);
    FindFieldNames(fs, "patientPhoneNumber");
    SingleKeyMap(m, "patientPhoneNumber", e);
  }

  /** On the accident report, the only field that can ever carry an error
      is the patient's phone number. */
  lemma AccidentReportErrors(formData: FormData, custom: CustomCheck)
    ensures ErrorMap(AccidentReportSchema, formData, custom)
            == (var v := Get(formData, "patientPhoneNumber");
                if Truthy(v) && !PhoneValueValid(v) then map["patientPhoneNumber" := DefaultPhoneMessage]
                else map[])
  {
    SchemaRulesListed();
    LocationRuleField();
    LocationRule();
    PhoneRuleField();
    PhoneRule();
    PhoneOnlyErrors(AccidentReportSchema, formData, custom, IncidentDetails.fields[1], PatientInfo.fields[3]);
  }

  /** The stored error map of the form: `validate` replaces it, a blur
      updates one entry. */
  class ErrorStore {
    var errors: map<string, string>

    constructor()
      ensures errors == map[]
    {
      errors := map[];
    }

    /** `validate()`: replace the errors and report whether there are none. */
    method Validate(schema: Schema, formData: FormData, custom: CustomCheck) returns (ok: bool)
      modifies this
      ensures errors == ErrorMap(schema, formData, custom)
      ensures ok <==> errors == map[]
    {
      var newErrors;
      newErrors, ok := CollectErrors(schema, formData, custom);
      errors := newErrors;
    }

    /** `validateOnBlur(fieldName)` */
    method ValidateOnBlur(schema: Schema, formData: FormData, custom: CustomCheck, name: string)
      modifies this
      ensures errors == BlurUpdate(old(errors), name, ValidateField(schema, formData, custom, name, Get(formData, name)))
    {
      var error := ValidateField(schema, formData, custom, name, Get(formData, name));
      errors := BlurUpdate(errors, name, error);
    }
  }

  // ---------------------------------------------------------------------
  // Completion metrics
  // ---------------------------------------------------------------------

  /** A field counts as completed when it is marked unavailable or its value
      is not empty. */
  predicate IsCompleted(formData: FormData, unavailable: seq<string>, name: string)
  {
    name in unavailable || !IsEmpty(Get(formData, name))
  }

  /** `names.filter(n => completed)` */
  function CompletedNames(names: seq<string>, formData: FormData, unavailable: seq<string>): seq<string>
  {
    if names == [] then []
    else if IsCompleted(formData, unavailable, names[0]) then [names[0]] + CompletedNames(names[1..], formData, unavailable)
    else CompletedNames(names[1..], formData, unavailable)
  }

  /** `names.filter(n => !completed)`, the filter of `getIncompleteFields` */
  function IncompleteNames(names: seq<string>, formData: FormData, unavailable: seq<string>): seq<string>
  {
    if names == [] then []
    else if IsCompleted(formData, unavailable, names[0]) then IncompleteNames(names[1..], formData, unavailable)
    else [names[0]] + IncompleteNames(names[1..], formData, unavailable)
  }

  /** The completed and the incomplete names split the list: each keeps the
      list's order, holds exactly the names on its side, and together they
      account for every entry. */
  lemma {:induction false} CompletionSplit(names: seq<string>, formData: FormData, unavailable: seq<string>)
    ensures IsSubsequence(CompletedNames(names, formData, unavailable), names)
    ensures IsSubsequence(IncompleteNames(names, formData, unavailable), names)
    ensures forall n :: n in CompletedNames(names, formData, unavailable)
                        <==> n in names && IsCompleted(formData, unavailable, n)
    ensures forall n :: n in IncompleteNames(names, formData, unavailable)
                        <==> n in names && !IsCompleted(formData, unavailable, n)
    ensures |CompletedNames(names, formData, unavailable)| + |IncompleteNames(names, formData, unavailable)| == |names|
    decreases |names|
  {
    if names != [] {
      CompletionSplit(names[1..], formData, unavailable);
      assert forall n :: n in names <==> n == names[0] || n in names[1..];
    }
  }

  /** Marking more fields unavailable never lowers a completed count. */
  lemma {:induction false} CompletedMonotone(names: seq<string>, formData: FormData, unavailable: seq<string>, more: seq<string>)
    ensures |CompletedNames(names, formData, unavailable)| <= |CompletedNames(names, formData, unavailable + more)|
    decreases |names|
  {
    if names != [] {
      CompletedMonotone(names[1..], formData, unavailable, more);
    }
  }

  /** `allFields.filter(n => !requiredByPatientFields.includes(n))` */
  function NotIn(names: seq<string>, excluded: seq<string>): seq<string>
  {
    if names == [] then []
    else if names[0] in excluded then NotIn(names[1..], excluded)
    else [names[0]] + NotIn(names[1..], excluded)
  }

  lemma {:induction false} NotInSpec(names: seq<string>, excluded: seq<string>)
    ensures IsSubsequence(NotIn(names, excluded), names)
    ensures forall n :: n in NotIn(names, excluded) <==> n in names && n !in excluded
    decreases |names|
  {
    if names != [] {
      NotInSpec(names[1..], excluded);
      assert forall n :: n in names <==> n == names[0] || n in names[1..];
    }
  }

  lemma {:induction false} NotInCongruent(names: seq<string>, e1: seq<string>, e2: seq<string>)
    requires forall k | 0 <= k < |names| :: (names[k] in e1 <==> names[k] in e2)
    ensures NotIn(names, e1) == NotIn(names, e2)
    decreases |names|
  {
    if names != [] {
      NotInCongruent(names[1..], e1, e2);
    }
  }

  predicate Distinct(names: seq<string>)
  {
    forall i, j | 0 <= i < j < |names| :: names[i] != names[j]
  }

  /** Removing a subsequence of a list of distinct names leaves exactly the
      other names: the two counts add up to the whole. */
  lemma {:induction false} NotInCount(all: seq<string>, excluded: seq<string>)
    requires IsSubsequence(excluded, all)
    requires Distinct(all)
    ensures |NotIn(all, excluded)| + |excluded| == |all|
    decreases |all|
  {
    if all != [] {
      var rest := all[1..];
      assert Distinct(rest) by {
        forall i, j | 0 <= i < j < |rest| ensures rest[i] != rest[j] {
          assert rest[i] == all[i + 1] && rest[j] == all[j + 1];
        }
      }
      assert all[0] !in rest by {
        forall k | 0 <= k < |rest| ensures rest[k] != all[0] {
          assert rest[k] == all[k + 1];
        }
      }
      if excluded != [] && excluded[0] == all[0] && IsSubsequence(excluded[1..], rest) {
        NotInCount(rest, excluded[1..]);
        forall k | 0 <= k < |rest| ensures rest[k] in excluded <==> rest[k] in excluded[1..] {
          assert rest[k] != excluded[0];
          assert forall x :: x in excluded <==> x == excluded[0] || x in excluded[1..];
        }
        NotInCongruent(rest, excluded, excluded[1..]);
      } else {
        NotInCount(rest, excluded);
        SubsequenceMembers(excluded, rest);
      }
    }
  }

  /** `Math.round(count / total * 100)`: not a number when `total` is 0,
      otherwise the whole number nearest to the percentage, halves upward. */
  datatype Percent = NaN | Pct(p: int)

  function RoundPercent(count: nat, total: nat): (r: Percent)
    ensures total == 0 <==> r.NaN?
    ensures total > 0 ==> 2 * total * r.p <= 200 * count + total < 2 * total * r.p + 2 * total
  {
    if total == 0 then NaN else Pct((200 * count + total) / (2 * total))
  }

  lemma Scale(k: int, a: int, b: int)
    requires k >= 0
    ensures a <= b ==> k * a <= k * b
  {
    assert k * b - k * a == k * (b - a);
  }

  /** A share of the total rounds to a percentage between 0 and 100. */
  lemma PercentBounds(count: nat, total: nat)
    requires 0 < total && count <= total
    ensures 0 <= RoundPercent(count, total).p <= 100
  {
    var p := RoundPercent(count, total).p;
    Scale(2 * total, 101, p);
    Scale(2 * total, p, -1);
  }

  /** Below 200 fields, the percentage is 100 exactly when the whole count
      is reached. */
  lemma FullPercentIff(count: nat, total: nat)
    requires 0 < total < 200 && count <= total
    ensures RoundPercent(count, total) == Pct(100) <==> count == total
  {
    var p := RoundPercent(count, total).p;
    Scale(2 * total, 100, p);
    Scale(2 * total, 101, p);
    Scale(2 * total, p, 99);
  }

  /** With 200 fields, 199 completed fields already round to 100 percent. */
  lemma FullPercentEarly()
    ensures RoundPercent(199, 200) == Pct(100)
  {
  }

  /** Rounding the two tiers separately drifts from the rounded sum by at
      most one point. */
  lemma SplitPercentDrift(a: nat, b: nat, total: nat)
    requires 0 < total
    ensures -1 <= RoundPercent(a, total).p + RoundPercent(b, total).p - RoundPercent(a + b, total).p <= 1
  {
    var pa, pb, p := RoundPercent(a, total).p, RoundPercent(b, total).p, RoundPercent(a + b, total).p;
    var k := 2 * total;
    assert k * (pa + pb) == k * pa + k * pb;
    assert k * (p + 2) == k * p + 2 * k;
    assert k * (p - 2) == k * p - 2 * k;
    Scale(k, p + 2, pa + pb);
    Scale(k, pa + pb, p - 2);
  }

  /** `calculateCompletion()`'s record. */
  datatype Metrics = Metrics(
    overallPercentage: Percent,
    requiredPercentage: Percent,
    nonRequiredPercentage: Percent,
    requiredThresholdPercentage: Percent,
    completedRequired: nat,
    totalRequired: nat,
    completedNonRequired: nat,
    totalNonRequired: nat,
    totalCompleted: nat,
    totalFields: nat)

  /** `calculateCompletion()`: the patient-required names and the rest are
      counted separately; every percentage is a share of all fields. */
  function CalculateCompletion(schema: Schema, formData: FormData, unavailable: seq<string>): (m: Metrics)
    ensures m.completedRequired <= m.totalRequired
    ensures m.completedNonRequired <= m.totalNonRequired
    ensures m.totalCompleted == m.completedRequired + m.completedNonRequired
    ensures m.totalFields == |AllFields(schema)|
    ensures m.overallPercentage == RoundPercent(m.totalCompleted, m.totalFields)
    ensures m.requiredPercentage == RoundPercent(m.completedRequired, m.totalFields)
    ensures m.nonRequiredPercentage == RoundPercent(m.completedNonRequired, m.totalFields)
    ensures m.requiredThresholdPercentage == RoundPercent(m.totalRequired, m.totalFields)
  {
    var required := RequiredByPatientNames(AllFields(schema));
    var all := Names(AllFields(schema));
    var nonRequired := NotIn(all, required);
    CompletionSplit(required, formData, unavailable);
    CompletionSplit(nonRequired, formData, unavailable);
    var completedRequired := |CompletedNames(required, formData, unavailable)|;
    var completedNonRequired := |CompletedNames(nonRequired, formData, unavailable)|;
    var totalCompleted := completedRequired + completedNonRequired;
    Metrics(
      RoundPercent(totalCompleted, |all|),
      RoundPercent(completedRequired, |all|),
      RoundPercent(completedNonRequired, |all|),
      RoundPercent(|required|, |all|),
      completedRequired, |required|, completedNonRequired, |nonRequired|,
      totalCompleted, |all|)
  }

  lemma {:induction false} DistinctNamesOf(fields: seq<FieldDef>)
    requires DistinctNames(fields)
    ensures Distinct(Names(fields))
  {
  }

  /** With distinct field names, the patient-required names and the rest
      partition all fields, so no count exceeds the field total. */
  lemma CompletionPartition(schema: Schema, formData: FormData, unavailable: seq<string>)
    requires DistinctNames(AllFields(schema))
    ensures var m := CalculateCompletion(schema, formData, unavailable);
      m.totalRequired + m.totalNonRequired == m.totalFields && m.totalCompleted <= m.totalFields
  {
    var fields := AllFields(schema);
    RequiredByPatientNamesSpec(fields);
    DistinctNamesOf(fields);
    NotInCount(Names(fields), RequiredByPatientNames(fields));
  }

  /** Every percentage lies between 0 and 100 once the schema has a field,
      and the two tiers drift from the overall figure by at most a point. */
  lemma CompletionPercentages(schema: Schema, formData: FormData, unavailable: seq<string>)
    requires DistinctNames(AllFields(schema)) && AllFields(schema) != []
    ensures var m := CalculateCompletion(schema, formData, unavailable);
      && 0 <= m.overallPercentage.p <= 100
      && 0 <= m.requiredPercentage.p <= 100
      && 0 <= m.nonRequiredPercentage.p <= 100
      && 0 <= m.requiredThresholdPercentage.p <= 100
      && -1 <= m.requiredPercentage.p + m.nonRequiredPercentage.p - m.overallPercentage.p <= 1
  {
    var m := CalculateCompletion(schema, formData, unavailable);
    CompletionPartition(schema, formData, unavailable);
    PercentBounds(m.totalCompleted, m.totalFields);
    PercentBounds(m.completedRequired, m.totalFields);
    PercentBounds(m.completedNonRequired, m.totalFields);
    PercentBounds(m.totalRequired, m.totalFields);
    SplitPercentDrift(m.completedRequired, m.completedNonRequired, m.totalFields);
  }

  /** A schema without fields gives `NaN` percentages (0 / 0). */
  lemma EmptySchemaPercentages(schema: Schema, formData: FormData, unavailable: seq<string>)
    requires AllFields(schema) == []
    ensures var m := CalculateCompletion(schema, formData, unavailable);
      m.overallPercentage == NaN && m.requiredThresholdPercentage == NaN
  {
  }

  /** The marker position depends on the schema alone. */
  lemma ThresholdIndependent(schema: Schema, d1: FormData, u1: seq<string>, d2: FormData, u2: seq<string>)
    ensures CalculateCompletion(schema, d1, u1).requiredThresholdPercentage
            == CalculateCompletion(schema, d2, u2).requiredThresholdPercentage
    ensures CalculateCompletion(schema, d1, u1).totalRequired == CalculateCompletion(schema, d2, u2).totalRequired
  {
  }

  /** Marking more fields unavailable never lowers either completed count. */
  lemma UnavailableMonotone(schema: Schema, formData: FormData, unavailable: seq<string>, more: seq<string>)
    ensures CalculateCompletion(schema, formData, unavailable).completedRequired
            <= CalculateCompletion(schema, formData, unavailable + more).completedRequired
    ensures CalculateCompletion(schema, formData, unavailable).completedNonRequired
            <= CalculateCompletion(schema, formData, unavailable + more).completedNonRequired
  {
    var fields := AllFields(schema);
    CompletedMonotone(RequiredByPatientNames(fields), formData, unavailable, more);
    CompletedMonotone(NotIn(Names(fields), RequiredByPatientNames(fields)), formData, unavailable, more);
  }

  /** A list's completed count reaches its length exactly when every entry
      is completed. */
  lemma AllCompletedIff(names: seq<string>, formData: FormData, unavailable: seq<string>)
    ensures |CompletedNames(names, formData, unavailable)| == |names|
            <==> forall n | n in names :: IsCompleted(formData, unavailable, n)
  {
    CompletionSplit(names, formData, unavailable);
    if |CompletedNames(names, formData, unavailable)| != |names| {
      var x := IncompleteNames(names, formData, unavailable)[0];
      assert x in IncompleteNames(names, formData, unavailable);
    }
  }

  /** Below 200 fields, the overall percentage is 100 exactly when every
      field is filled in or marked unavailable. */
  lemma OverallFullIff(schema: Schema, formData: FormData, unavailable: seq<string>)
    requires DistinctNames(AllFields(schema)) && 0 < |AllFields(schema)| < 200
    ensures CalculateCompletion(schema, formData, unavailable).overallPercentage == Pct(100)
            <==> forall n | n in Names(AllFields(schema)) :: IsCompleted(formData, unavailable, n)
  {
    var m := CalculateCompletion(schema, formData, unavailable);
    var fields := AllFields(schema);
    var required := RequiredByPatientNames(fields);
    var nonRequired := NotIn(Names(fields), required);
    CompletionPartition(schema, formData, unavailable);
    FullPercentIff(m.totalCompleted, m.totalFields);
    AllCompletedIff(required, formData, unavailable);
    AllCompletedIff(nonRequired, formData, unavailable);
    RequiredByPatientNamesSpec(fields);
    SubsequenceMembers(required, Names(fields));
    NotInSpec(Names(fields), required);
    assert (forall n | n in Names(fields) :: IsCompleted(formData, unavailable, n))
           <==> (forall n | n in required :: IsCompleted(formData, unavailable, n))
                && (forall n | n in nonRequired :: IsCompleted(formData, unavailable, n));
  }

  /** The accident report has 27 fields, 13 of them patient-required, so
      the marker sits at 48 percent whatever the data. */
  lemma AccidentReportTotals(formData: FormData, unavailable: seq<string>)
    ensures var m := CalculateCompletion(AccidentReportSchema, formData, unavailable);
      && m.totalFields == 27 && m.totalRequired == 13 && m.totalNonRequired == 14
      && m.requiredThresholdPercentage == Pct(48)
  {
    SchemaNamesDistinct();
    RequiredByPatientFieldsListed();
    CompletionPartition(AccidentReportSchema, formData, unavailable);
  }

  /** Two patient-required fields and one other; one required field and the
      other field are filled in. */
  const ExampleSchema := Schema([Section("example", "Example", "EXAMPLE", [
    Field("first", Text, "First", true), Field("second", Text, "Second", true), Field("notes", Text, "Notes", false)])])

  lemma ExampleCompletion()
    ensures CalculateCompletion(ExampleSchema, map["first" := Str("a"), "notes" := Str("b")], [])
            == Metrics(Pct(67), Pct(33), Pct(33), Pct(67), 1, 2, 1, 1, 2, 3)
  {
    var d := map["first" := Str("a"), "notes" := Str("b")];
    ExampleSchemaNames();
    ExampleCounts(d);
    var cr := |CompletedNames(["first", "second"], d, [])|;
    var cn := |CompletedNames(["notes"], d, [])|;
    assert RoundPercent(cr + cn, 3) == Pct(67);
    assert RoundPercent(cr, 3) == Pct(33);
    assert RoundPercent(cn, 3) == Pct(33);
    assert RoundPercent(2, 3) == Pct(67);
  }

  /** The example's names and its patient-required names. */
  lemma ExampleSchemaNames()
    ensures Names(AllFields(ExampleSchema)) == ["first", "second", "notes"]
    ensures RequiredByPatientNames(AllFields(ExampleSchema)) == ["first", "second"]
    ensures NotIn(["first", "second", "notes"], ["first", "second"]) == ["notes"]
  {
    var fields := AllFields(ExampleSchema);
    assert fields == ExampleSchema.sections[0].fields;
  }

  /** Which of the example's fields the example data completes. */
  lemma ExampleCounts(d: FormData)
    requires d == map["first" := Str("a"), "notes" := Str("b")]
    ensures CompletedNames(["first", "second"], d, []) == ["first"]
    ensures CompletedNames(["notes"], d, []) == ["notes"]
  {
    assert IsCompleted(d, [], "first") by { assert Trim("a") == "a"; }
    assert !IsCompleted(d, [], "second") by { assert Get(d, "second") == Undefined; }
    assert IsCompleted(d, [], "notes") by { assert Trim("b") == "b"; }
    var fs: seq<string> := ["first", "second"];
    assert fs[1..] == ["second"];
    assert CompletedNames(["second"], d, []) == [];
    assert CompletedNames(fs, d, []) == ["first"] + CompletedNames(["second"], d, []);
    assert ["notes"][1..] == [];
  }

  // ---------------------------------------------------------------------
  // Incomplete patient-required fields
  // ---------------------------------------------------------------------

  /** One entry of `getIncompleteFields()`: `{ name, label }`. */
  datatype Incomplete = Incomplete(name: string, labelText: string)

  /** `field?.label || fieldName` */
  function LabelOf(fields: seq<FieldDef>, name: string): (r: string)
    ensures name != "" ==> r != ""
    ensures r == name || exists f | f in fields :: f.name == name && f.labelText == r
  {
    match FindField(fields, name)
    case Some(f) => if f.labelText != "" then f.labelText else name
    case None => name
  }

  function WithLabels(names: seq<string>, fields: seq<FieldDef>): (r: seq<Incomplete>)
    ensures |r| == |names|
    ensures forall k | 0 <= k < |names| :: r[k] == Incomplete(names[k], LabelOf(fields, names[k]))
  {
    if names == [] then [] else [Incomplete(names[0], LabelOf(fields, names[0]))] + WithLabels(names[1..], fields)
  }

  /** `getIncompleteFields()` */
  function GetIncompleteFields(schema: Schema, formData: FormData, unavailable: seq<string>): seq<Incomplete>
  {
    var fields := AllFields(schema);
    WithLabels(IncompleteNames(RequiredByPatientNames(fields), formData, unavailable), fields)
  }

  /** The names of a list of entries. */
  function EntryNames(entries: seq<Incomplete>): (r: seq<string>)
    ensures |r| == |entries|
    ensures forall k | 0 <= k < |entries| :: r[k] == entries[k].name
  {
    if entries == [] then [] else [entries[0].name] + EntryNames(entries[1..])
  }

  /** The incomplete list keeps the patient-required order, names exactly
      the patient-required fields that are neither filled in nor
      unavailable, and is as long as the required total less the required
      completed count. */
  lemma IncompleteFieldsSpec(schema: Schema, formData: FormData, unavailable: seq<string>)
    ensures var r, required := GetIncompleteFields(schema, formData, unavailable), RequiredByPatientNames(AllFields(schema));
      && IsSubsequence(EntryNames(r), required)
      && (forall n :: n in EntryNames(r) <==> n in required && !IsCompleted(formData, unavailable, n))
      && |r| == CalculateCompletion(schema, formData, unavailable).totalRequired
                - CalculateCompletion(schema, formData, unavailable).completedRequired
  {
    var fields := AllFields(schema);
    var required := RequiredByPatientNames(fields);
    var names := IncompleteNames(required, formData, unavailable);
    var r := GetIncompleteFields(schema, formData, unavailable);
    assert EntryNames(r) == names;
    CompletionSplit(required, formData, unavailable);
  }

  /** Each entry is labelled with its field's label, or with its own name
      when that label is empty. */
  lemma IncompleteLabels(schema: Schema, formData: FormData, unavailable: seq<string>, k: nat)
    requires k < |GetIncompleteFields(schema, formData, unavailable)|
    ensures var e := GetIncompleteFields(schema, formData, unavailable)[k];
      exists f | f in AllFields(schema) ::
        f.name == e.name && e.labelText == (if f.labelText != "" then f.labelText else e.name)
  {
    var fields := AllFields(schema);
    var required := RequiredByPatientNames(fields);
    var e := GetIncompleteFields(schema, formData, unavailable)[k];
    CompletionSplit(required, formData, unavailable);
    RequiredByPatientNamesSpec(fields);
    assert e.name in IncompleteNames(required, formData, unavailable);
    var f := FindField(fields, e.name).value;
    assert f in fields;
  }
}
