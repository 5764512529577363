# Ski-patrol accident report: form engine model

This project is a Dafny model of the form engine behind a ski-patrol
accident-report application. The engine covers:

- the report schema: five sections and 27 fields, with the patient-required
  subset and the lookup helpers;
- field validation: the phone rule, an optional custom check, whole-form
  validation and validation on blur;
- completion metrics: the counts and rounded percentages behind the stacked
  progress bar, the list of incomplete patient-required fields, and the
  "All fields completed" note;
- the smart reminder rules of the status panel;
- the form-data store with its touched map;
- the checkbox-group toggle;
- the on-screen field layout with its derived props;
- the printable report;
- the label/highlight wrapper of a field.

Modules follow the source files:

| module | file |
|---|---|
| `FormValues` | values shared by every module: JavaScript truthiness, `trim`, the "empty field" rule, `join`, order-preserving subsequences |
| `Validation` | `src/utils/validation.js` |
| `FormSchema` | `src/config/formSchema.js` |
| `FormValidation` | `src/hooks/useFormValidation.js` |
| `FormDataStore` | `src/hooks/useFormData.js` |
| `FormStatusPanel` | reminder rules and completion note of `src/components/report/FormStatusPanel.jsx` |
| `CheckboxGroupField` | toggle logic of `src/components/report/fields/CheckboxGroupField.jsx` |
| `FormRenderer` | `src/components/report/FormRenderer.jsx` |
| `PrintField` | `src/components/report/print/PrintField.jsx` |
| `PrintRenderer` | `src/components/report/print/PrintRenderer.jsx` |
| `FieldWrapper` | `src/components/report/shared/FieldWrapper.jsx` |

How the state is modelled:

- **Form values.** A form value is `Undefined`, a string `Str`, or a string array `List`. The form data maps field names to values.
- **React state.** The state hooks become classes whose methods reassign their fields: `FormDataStore.Store` holds `formData` and `touched`, and `FormValidation.ErrorStore` holds `errors`.
- **Whole-form validation.** It is a loop-based method, `CollectErrors`. It is proved equal to a declarative error map `ErrorMap`.
- **Rendering.** Rendering functions return plain datatypes that describe what is shown: controls, cells, labels and the em-dash placeholder.

## Model

| member | source | states |
|---|---|---|
| `FormValues.TrimBlankIff` | src/hooks/useFormValidation.js:93 | `s.trim() === ""` holds exactly when every character of `s` is ECMAScript whitespace |
| `FormValues.IsEmptyIff` | src/hooks/useFormValidation.js:92-94 | the emptiness rule, case by case: a missing value is empty; a string is empty iff it is all whitespace; an array is empty iff it has no items |
| `FormValues.JoinSnoc` | src/components/report/print/PrintField.jsx:14 | joining `items + [x]` appends one separator and `x`, so items print in stored order |
| `FormValues.SubsequenceMembers` | src/hooks/useFormValidation.js:85-117 | a filtered list holds only members of the list it was filtered from and is no longer than it |
| `Validation.Digits` | src/utils/validation.js:11 | the digits-only string contains only digits and is no longer than its input |
| `Validation.DigitsOfDigits` | src/utils/validation.js:11 | stripping non-digits from a string that is all digits leaves it unchanged |
| `Validation.PhoneValidIff` | src/utils/validation.js:7-15 | a phone number is valid exactly when it has 10 or 11 digits |
| `Validation.PhoneIgnoresNonDigits` | src/utils/validation.js:11-14 | inserting a non-digit character anywhere changes neither the digits nor validity |
| `Validation.DigitsOfDashed` | src/utils/validation.js:11 | stripping the dashes of a dashed number leaves its three digit groups joined |
| `Validation.DashedExample` | src/utils/validation.js:3-15 | "555-123-4567" is a valid phone number |
| `Validation.PlainExample` | src/utils/validation.js:3-15 | "5551234567" is a valid phone number |
| `Validation.ShortExample` | src/utils/validation.js:3-15 | "12345" is not a valid phone number |
| `Validation.PhoneExamples` | src/utils/validation.js:3-15 | the three examples above together |
| `Validation.FormatTenDigits` | src/utils/validation.js:25-27 | 10 digits are laid out as `(ddd) ddd-dddd` from the digits in order |
| `Validation.FormatElevenDigits` | src/utils/validation.js:29-31 | 11 digits are laid out as `+d (ddd) ddd-dddd` from the digits in order |
| `Validation.FormatOtherCounts` | src/utils/validation.js:21-33 | any other digit count, including the empty input, returns the input unchanged |
| `Validation.DigitsAround` | src/utils/validation.js:26-30 | separators without digits add no digits between two pieces |
| `Validation.FormatKeepsDigits` | src/utils/validation.js:20-34 | formatting keeps exactly the digits of its input, in order |
| `Validation.FormatPreservesValidity` | src/utils/validation.js:7-34 | a formatted number is valid exactly when its input was |
| `Validation.FormatIdempotent` | src/utils/validation.js:20-34 | formatting an already formatted number changes nothing |
| `Validation.ValidEmailIsShaped` | src/utils/validation.js:39-44 | every accepted address matches `^[^\s@]+@[^\s@]+\.[^\s@]+$` |
| `Validation.ShapedEmailIsValid` | src/utils/validation.js:39-44 | every split into local part, `@`, domain, `.` and suffix, each non-empty with no whitespace and no `@`, is accepted |
| `Validation.ValidateEmailIff` | src/utils/validation.js:39-44 | `validateEmail` accepts exactly the language of the regular expression |
| `Validation.NumberRangeWidening` | src/utils/validation.js:62-71 | loosening either bound never rejects an accepted number; with no bounds every number is accepted |
| `Validation.NumberRangeConvex` | src/utils/validation.js:67-70 | every number between two accepted numbers is accepted, so the accepted numbers form an interval |
| `FormSchema.Names` | src/hooks/useFormValidation.js:76-80 | the name projection has one entry per field, in field order |
| `FormSchema.FlattenPrefix` | src/hooks/useFormValidation.js:61-62 | visiting sections one at a time covers the flattened fields, in order |
| `FormSchema.RequiredByPatientNamesSpec` | src/hooks/useFormValidation.js:8-13 | the patient-required names keep schema order and are exactly the names of fields flagged `requiredByPatient` |
| `FormSchema.FindIndex` | src/hooks/useFormValidation.js:18-20 | the index found is the first field with that name, or the length when there is none |
| `FormSchema.FindField` | src/hooks/useFormValidation.js:18-22 | a found field has that name and belongs to the list; nothing is found iff no field has that name |
| `FormSchema.FindIndexAppend` | src/config/formSchema.js:333-337 | searching `a + b` finds the first match in `a`, or else the first match in `b` shifted by the length of `a` |
| `FormSchema.FindInSectionsIsFlatFind` | src/config/formSchema.js:332-338 | searching section by section finds the same field as searching the flattened list |
| `FormSchema.SchemaFieldNames` | src/config/formSchema.js:3-321 | the schema's fields, in section-then-field order, are the 27 names listed in `SchemaNames` |
| `FormSchema.SchemaNamesDistinct` | src/config/formSchema.js:3-321 | the schema has 27 fields with pairwise distinct names |
| `FormSchema.SchemaFieldsFlat` | src/config/formSchema.js:3-321 | the flattened fields are the five sections' fields, concatenated in section order |
| `FormSchema.IncidentDetailsNames` | src/config/formSchema.js:5-45 | Incident Details has the fields `reportId`, `location`, `dateOfIncident`, `timeOfIncident`, in this order |
| `FormSchema.PatientInfoNames` | src/config/formSchema.js:46-164 | Patient Information has its eleven fields, from `patientName` to `patientSignature`, in order |
| `FormSchema.InjuriesNames` | src/config/formSchema.js:165-229 | Patient Injuries has its five fields, from `injuryTypes` to `treatmentProvided`, in order |
| `FormSchema.ConditionsNames` | src/config/formSchema.js:230-288 | Ski Conditions has its four fields, from `weatherConditions` to `trailDifficulty`, in order |
| `FormSchema.PatrollerInfoNames` | src/config/formSchema.js:289-319 | Patroller Information has `patrollerName`, `signature`, `signatureDate`, in order |
| `FormSchema.SchemaNamesLiteralDistinct` | src/config/formSchema.js:3-321 | the 27 listed names are pairwise distinct |
| `FormSchema.FindAt` | src/config/formSchema.js:332-338 | with distinct names, a lookup of the name of the field at any position finds that field |
| `FormSchema.FindFieldNames` | src/hooks/useFormValidation.js:18-22 | the lookup fails exactly for a name that is not among the fields' names |
| `FormSchema.LookupInSchema` | src/config/formSchema.js:332-338 | looking up section by section agrees with the flattened lookup, fails exactly for names outside the schema, and a found field has the name and belongs to the schema |
| `FormSchema.FindDistinct` | src/config/formSchema.js:332-338 | when names are distinct, looking up a field's name finds that very field |
| `FormSchema.IncidentDetailsRequired` | src/config/formSchema.js:5-45 | in Incident Details only `timeOfIncident` is patient-required |
| `FormSchema.PatientInfoRequired` | src/config/formSchema.js:46-164 | every Patient Information field is patient-required |
| `FormSchema.InjuriesRequired` | src/config/formSchema.js:165-229 | in Patient Injuries only `injuryDescription` is patient-required |
| `FormSchema.ConditionsRequired` | src/config/formSchema.js:230-288 | no Ski Conditions field is patient-required |
| `FormSchema.PatrollerInfoRequired` | src/config/formSchema.js:289-319 | no Patroller Information field is patient-required |
| `FormSchema.SchemaChoicesWellFormed` | src/config/formSchema.js:93-97 | every radio or checkbox field has a non-empty list of options with distinct values |
| `FormSchema.IncidentDetailsChoices` | src/config/formSchema.js:5-45 | Incident Details has no radio or checkbox field without distinct options |
| `FormSchema.PatientInfoChoices` | src/config/formSchema.js:46-164 | the gender, guest-type and signature-type choices are non-empty and distinct |
| `FormSchema.InjuriesChoices` | src/config/formSchema.js:165-229 | the injury-type and severity choices are non-empty and distinct |
| `FormSchema.ConditionsChoices` | src/config/formSchema.js:230-288 | the weather, snow, visibility and trail choices are non-empty and distinct |
| `FormSchema.PatrollerInfoChoices` | src/config/formSchema.js:289-319 | Patroller Information has no radio or checkbox field without distinct options |
| `FormSchema.ChoicesAppend` | src/config/formSchema.js:3-321 | well-formed choices are kept when field lists are concatenated |
| `FormSchema.RequiredByPatientFieldsListed` | src/config/formSchema.js:324-329 | `getRequiredByPatientFields` returns 13 names, listed in order |
| `FormSchema.GetFieldByName` | src/config/formSchema.js:332-338 | the result is `null` iff the name is not one of the 27; otherwise it is the first field with that name in flattened order, so it carries the requested name and belongs to the schema |
| `FormSchema.GetInitialFormData` | src/config/formSchema.js:341-350 | the keys are the override keys plus the three defaults; overrides win; otherwise the date is today, the location is "Chicopee Ski Club" and `injuryTypes` is `[]` |
| `FormSchema.SchemaRulesListed` | src/config/formSchema.js:25-28 | no field has a custom check, and only `location` and `patientPhoneNumber` carry a validation descriptor |
| `FormSchema.IncidentDetailsRules` | src/config/formSchema.js:25-28 | in Incident Details only `location` carries a descriptor, without a custom check |
| `FormSchema.PatientInfoRules` | src/config/formSchema.js:83-86 | in Patient Information only `patientPhoneNumber` carries a descriptor, without a custom check |
| `FormSchema.InjuriesRules` | src/config/formSchema.js:165-229 | no Patient Injuries field carries a descriptor |
| `FormSchema.ConditionsRules` | src/config/formSchema.js:230-288 | no Ski Conditions field carries a descriptor |
| `FormSchema.PatrollerInfoRules` | src/config/formSchema.js:289-319 | no Patroller Information field carries a descriptor |
| `FormSchema.RuleFieldPositions` | src/config/formSchema.js:3-87 | `location` is the 2nd and `patientPhoneNumber` the 8th field of the flattened schema |
| `FormSchema.LocationRuleField` | src/config/formSchema.js:17-29 | looking up `location` finds the Incident Details field that carries the descriptor |
| `FormSchema.LocationRule` | src/config/formSchema.js:25-28 | the `location` field's descriptor is type `required` with the message "Location is required" and no custom check |
| `FormSchema.PhoneRuleField` | src/config/formSchema.js:75-87 | looking up `patientPhoneNumber` finds the Patient Information field that carries the descriptor |
| `FormSchema.PhoneRule` | src/config/formSchema.js:83-86 | the phone field's descriptor is type `phone` with the message "Please enter a valid phone number" and no custom check |
| `FormValidation.ValidateField` | src/hooks/useFormValidation.js:16-55 | an error message is never empty, and a name that matches no field yields `null`; the branch-by-branch behaviour is stated by `PhoneFieldRule`, `CustomRule` and `OtherRulesNotEnforced` |
| `FormValidation.PhoneFieldRule` | src/hooks/useFormValidation.js:38-44 | under a phone rule: a falsy value gives no error; a non-empty string gives an error iff it is not a valid phone number; the error is the rule's message, or the default when that is empty |
| `FormValidation.CustomRule` | src/hooks/useFormValidation.js:38-49 | with a custom hook: a failing phone test gives the phone message and the hook is not consulted; otherwise a non-empty answer of the hook is the error and an empty one means none |
| `FormValidation.CustomAfterPhone` | src/hooks/useFormValidation.js:38-49 | a phone field with a hook reports the hook's non-empty answer for a valid number, and the default phone message for an invalid one whatever the hook says |
| `FormValidation.OtherRulesNotEnforced` | src/hooks/useFormValidation.js:24-50 | any rule other than phone and custom (the `required` rule included) never produces an error |
| `FormValidation.AccidentReportFieldExamples` | src/hooks/useFormValidation.js:38-44 | on the schema, "555-123-4567" passes, "12345" fails with the phone message, and an empty phone or location passes |
| `FormValidation.ErrorMap` | src/hooks/useFormValidation.js:58-73 | each stored message is non-empty and is `validateField`'s result for that name; every schema field that fails has an entry |
| `FormValidation.ErrorsOfSnoc` | src/hooks/useFormValidation.js:62-67 | visiting one more field adds its error exactly when it has one |
| `FormValidation.ErrorsOfSpec` | src/hooks/useFormValidation.js:61-69 | every stored entry belongs to a visited name and is that field's error; every visited field that fails has an entry |
| `FormValidation.SingleKeyMap` | src/hooks/useFormValidation.js:58-73 | a map whose only possible key is `k` is empty or the single entry for `k` |
| `FormValidation.CollectSectionErrors` | src/hooks/useFormValidation.js:62-68 | walking one section's fields extends the map built so far with exactly those fields' errors |
| `FormValidation.CollectErrors` | src/hooks/useFormValidation.js:58-73 | the two nested loops build exactly `ErrorMap`, and the result is true iff no entry was stored |
| `FormValidation.BlurUpdate` | src/hooks/useFormValidation.js:182-189 | other entries are kept unchanged; the field's entry is set to its error, or removed when there is none |
| `FormValidation.BlurAfterValidate` | src/hooks/useFormValidation.js:177-192 | validating one field on blur after `validate` changes nothing |
| `FormValidation.BlurFixed` | src/hooks/useFormValidation.js:182-189 | a blur update that writes what is already stored, or removes what is absent, leaves the map unchanged |
| `FormValidation.ErrorKeysListed` | src/hooks/useFormValidation.js:58-73 | when only the listed rules exist and `location` is not a phone rule, only `patientPhoneNumber` can hold an error |
| `FormValidation.PhoneOnlyErrors` | src/hooks/useFormValidation.js:58-73 | under those rules the error map is empty, or holds just the phone message, exactly as the phone value is valid or not |
| `FormValidation.AccidentReportErrors` | src/hooks/useFormValidation.js:58-73 | for the accident-report schema, `validate` fails exactly on a truthy phone value that is not a valid phone number |
| `FormValidation.ErrorStore.constructor` | src/hooks/useFormValidation.js:5 | the error map starts empty |
| `FormValidation.ErrorStore.Validate` | src/hooks/useFormValidation.js:58-73 | the stored errors become `ErrorMap`, and the result is true iff there are none |
| `FormValidation.ErrorStore.ValidateOnBlur` | src/hooks/useFormValidation.js:177-192 | the stored errors are updated by `BlurUpdate` with the field's current error |
| `FormValidation.CompletionSplit` | src/hooks/useFormValidation.js:85-97 | the completed and incomplete filters each keep input order, hold exactly the names meeting or failing the completion rule, and together have the input's length |
| `FormValidation.CompletedMonotone` | src/hooks/useFormValidation.js:87 | marking more fields unavailable never lowers a completed count |
| `FormValidation.NotInSpec` | src/hooks/useFormValidation.js:100-102 | the non-required filter keeps order and holds exactly the names that are not required |
| `FormValidation.NotInCongruent` | src/hooks/useFormValidation.js:100-102 | the filter depends only on membership in the excluded list |
| `FormValidation.NotInCount` | src/hooks/useFormValidation.js:100-102 | when names are distinct, the non-required count plus the required count is the total |
| `FormValidation.RoundPercent` | src/hooks/useFormValidation.js:121-134 | `Math.round(count/total*100)` is NaN iff the total is 0; otherwise it is the integer nearest `100*count/total`, with halves rounded up |
| `FormValidation.PercentBounds` | src/hooks/useFormValidation.js:121-134 | a count no larger than the total rounds to a value between 0 and 100 |
| `FormValidation.FullPercentIff` | src/hooks/useFormValidation.js:121 | for fewer than 200 fields, the percentage reaches 100 exactly when every field counts |
| `FormValidation.FullPercentEarly` | src/hooks/useFormValidation.js:121 | 199 of 200 already rounds to 100 |
| `FormValidation.SplitPercentDrift` | src/hooks/useFormValidation.js:121-129 | the two tier percentages add up to the overall one to within one point |
| `FormValidation.CalculateCompletion` | src/hooks/useFormValidation.js:83-148 | completed counts never exceed their totals; the total completed is the sum of the tiers; the total is the field count; each percentage is the rounded share of its count |
| `FormValidation.CompletionPartition` | src/hooks/useFormValidation.js:99-146 | with distinct names, required plus non-required is the field total, and no more fields are completed than exist |
| `FormValidation.CompletionPercentages` | src/hooks/useFormValidation.js:119-134 | on a non-empty schema all four percentages lie in 0..100, and the tiers add up to the overall figure to within a point |
| `FormValidation.EmptySchemaPercentages` | src/hooks/useFormValidation.js:119-134 | on a schema with no fields every percentage is NaN |
| `FormValidation.ThresholdIndependent` | src/hooks/useFormValidation.js:131-134 | the threshold and the required total do not depend on the form data or on the unavailable list |
| `FormValidation.UnavailableMonotone` | src/hooks/useFormValidation.js:86-107 | marking more fields unavailable never lowers either completed count |
| `FormValidation.AllCompletedIff` | src/hooks/useFormValidation.js:85-117 | the completed count equals the number of names exactly when every name is completed |
| `FormValidation.OverallFullIff` | src/hooks/useFormValidation.js:119-121 | with distinct names and 1 to 199 fields, the overall figure is 100 exactly when every field is completed |
| `FormValidation.AccidentReportTotals` | src/hooks/useFormValidation.js:119-146 | on the schema the totals are 27 fields, 13 required and 14 not, with a threshold of 48 |
| `FormValidation.ExampleCompletion` | src/hooks/useFormValidation.js:83-148 | a three-field schema with two of three filled gives the metrics 67/33/33/67, 1/2, 1/1, 2/3 |
| `FormValidation.LabelOf` | src/hooks/useFormValidation.js:166-171 | the label is never empty for a non-empty name; it is the name itself, or the label of a field with that name |
| `FormValidation.WithLabels` | src/hooks/useFormValidation.js:165-173 | one entry per name, in order, each carrying its name and looked-up label |
| `FormValidation.IncompleteFieldsSpec` | src/hooks/useFormValidation.js:151-174 | the list keeps required order, names exactly the required fields that are neither filled nor unavailable, and is as long as the required total minus the completed required count |
| `FormValidation.IncompleteLabels` | src/hooks/useFormValidation.js:165-173 | each entry shows its field's label, or its own name when that label is empty |
| `FormDataStore.Assign` | src/hooks/useFormData.js:10-13 | the spread update adds the key, sets its value and keeps every other entry |
| `FormDataStore.Touch` | src/hooks/useFormData.js:17-20 | the key is set to true and every other entry is kept |
| `FormDataStore.TouchIdempotent` | src/hooks/useFormData.js:16-21 | blurring the same field twice is the same as once |
| `FormDataStore.AssignKeepsOthers` | src/hooks/useFormData.js:7-14 | after a change, reading the changed field gives the new value and reading any other field gives its old value |
| `FormDataStore.AllTouched` | src/hooks/useFormData.js:36-40 | the loop builds a map with exactly the given keys, all true |
| `FormDataStore.Store.constructor` | src/hooks/useFormData.js:3-5 | the store starts with the initial data and an empty touched map |
| `FormDataStore.Store.HandleChange` | src/hooks/useFormData.js:7-14 | the event's value is stored under its name and touched is unchanged |
| `FormDataStore.Store.HandleBlur` | src/hooks/useFormData.js:16-21 | the field is marked touched and the data is unchanged |
| `FormDataStore.Store.SetFieldValue` | src/hooks/useFormData.js:23-28 | the value is stored under the name and touched is unchanged |
| `FormDataStore.Store.ResetForm` | src/hooks/useFormData.js:30-33 | the data is replaced and touched is cleared |
| `FormDataStore.Store.MarkAllTouched` | src/hooks/useFormData.js:35-42 | touched gets exactly the current data's keys, all true, and the data is unchanged |
| `FormStatusPanel.NatToDecimal` | src/components/report/FormStatusPanel.jsx:6 | a decimal numeral is non-empty, made only of digits, and has no leading zero |
| `FormStatusPanel.DecimalValue` | src/components/report/FormStatusPanel.jsx:6 | a numeral reads back as the number it was written from |
| `FormStatusPanel.LeadingDigits` | src/components/report/FormStatusPanel.jsx:6 | `parseInt` consumes the longest prefix of digits of the radix |
| `FormStatusPanel.ParseUnsignedDecimal` | src/components/report/FormStatusPanel.jsx:6 | an unsigned decimal numeral followed by a non-digit parses to its value |
| `FormStatusPanel.ParseDecimal` | src/components/report/FormStatusPanel.jsx:6 | `parseInt` of a numeral followed by text that cannot extend it gives the numeral's value |
| `FormStatusPanel.ParseMinus` | src/components/report/FormStatusPanel.jsx:6 | a leading minus negates the parsed value |
| `FormStatusPanel.ParseUnsignedAsInt` | src/components/report/FormStatusPanel.jsx:6 | text starting with a digit is read with no sign and no skipped whitespace |
| `FormStatusPanel.ParseNegativeDecimal` | src/components/report/FormStatusPanel.jsx:6 | `-n` followed by a terminator parses to `-n` |
| `FormStatusPanel.ParseHexExample` | src/components/report/FormStatusPanel.jsx:6 | `parseInt("0x1F")` is 31, because a hex prefix switches the radix |
| `FormStatusPanel.ParseNoDigits` | src/components/report/FormStatusPanel.jsx:6-7 | `""`, `"undefined"` and `"unknown"` parse to NaN |
| `FormStatusPanel.ActiveRemindersSpec` | src/components/report/FormStatusPanel.jsx:70-72 | the active reminders keep declaration order and are exactly the rules whose condition holds |
| `FormStatusPanel.ReminderRulesShape` | src/components/report/FormStatusPanel.jsx:2-58 | there are five rules with distinct ids, in the source's order; the last two are alerts and the first three warnings |
| `FormStatusPanel.MinorAge` | src/components/report/FormStatusPanel.jsx:5-8 | for an age written as a numeral (optionally followed by a terminator), the minor reminder fires exactly when the age is under 18 |
| `FormStatusPanel.ParseNoLeadingDigit` | src/components/report/FormStatusPanel.jsx:6 | `parseInt` gives `NaN` for any text whose first character after leading whitespace and one sign is not a decimal digit, or that has no such character |
| `FormStatusPanel.MinorUnparsable` | src/components/report/FormStatusPanel.jsx:5-8 | an age whose text, after whitespace and a sign, does not start with a digit never fires the minor reminder |
| `FormStatusPanel.MinorUnparsableExamples` | src/components/report/FormStatusPanel.jsx:5-8 | an absent age, "", "unknown", "N/A" and the array `["x"]` never fire the minor reminder |
| `FormStatusPanel.HeadInjuryNeedsArray` | src/components/report/FormStatusPanel.jsx:14-20 | the head-injury reminder fires exactly when `injuryTypes` is an array containing "head"; the string "head" does not fire it |
| `FormStatusPanel.StaffHeadInjuryIsBoth` | src/components/report/FormStatusPanel.jsx:36-46 | the combined rule fires exactly when both the staff rule and the head-injury rule fire |
| `FormStatusPanel.AllFire` | src/components/report/FormStatusPanel.jsx:70-72 | when every rule of a list fires, the filter keeps the whole list in order |
| `FormStatusPanel.AllButFirstFire` | src/components/report/FormStatusPanel.jsx:70-72 | when the first rule is silent and the rest fire, the filter keeps exactly the rest |
| `FormStatusPanel.StaffHeadInjuryReminders` | src/components/report/FormStatusPanel.jsx:2-72 | an adult staff member with a head injury recorded in the array and a severe injury gets exactly the last four reminders, in order |
| `FormStatusPanel.StaffHeadInjuryExample` | src/components/report/FormStatusPanel.jsx:2-72 | an adult staff member with a severe head injury gets the last four reminders, in order |
| `FormStatusPanel.AllCompletedNote` | src/components/report/FormStatusPanel.jsx:173-177 | on the 27-field schema, "All fields completed" shows exactly when every field is filled or unavailable |
| `CheckboxGroupField.RemoveAll` | src/components/report/fields/CheckboxGroupField.jsx:20 | after filtering, the option is absent and the list is no longer |
| `CheckboxGroupField.RemoveAllSpec` | src/components/report/fields/CheckboxGroupField.jsx:20 | the filter keeps order; it removes every copy of the option and nothing else, with the multiplicities of other values kept |
| `CheckboxGroupField.RemoveAbsent` | src/components/report/fields/CheckboxGroupField.jsx:20 | filtering out an absent option changes nothing |
| `CheckboxGroupField.ToggleSpec` | src/components/report/fields/CheckboxGroupField.jsx:18-21 | an unchecked option is appended at the end; a checked one is removed entirely |
| `CheckboxGroupField.ToggleTwice` | src/components/report/fields/CheckboxGroupField.jsx:19-21 | clicking an unchecked option twice restores the list |
| `CheckboxGroupField.RemoveAllAppend` | src/components/report/fields/CheckboxGroupField.jsx:19-21 | removing an option after appending it gives the same result as removing it first |
| `CheckboxGroupField.HandleCheckboxChange` | src/components/report/fields/CheckboxGroupField.jsx:24-32 | the synthetic event carries the field name, type "checkbox" and the current selection (an empty one when the value is not an array) with the clicked option toggled, so that option is selected afterwards exactly when it was not before |
| `CheckboxGroupField.ClickFlipsOne` | src/components/report/fields/CheckboxGroupField.jsx:17-42 | a click flips the clicked option's checked state and leaves every other option's state as it was |
| `CheckboxGroupField.NonArrayClick` | src/components/report/fields/CheckboxGroupField.jsx:18 | a non-array value counts as no selection, so a click yields just the clicked option |
| `CheckboxGroupField.InjuryTypesExample` | src/components/report/fields/CheckboxGroupField.jsx:17-32 | clicking "head" on ["fracture"] gives ["fracture","head"], and clicking "fracture" then gives ["head"] |
| `FormRenderer.ControlValue` | src/components/report/FormRenderer.jsx:36 | a truthy stored value reaches the control unchanged; a falsy one becomes `[]` for a checkbox field and `""` otherwise; so the control value is never undefined and is empty exactly when the stored value is |
| `FormRenderer.PropsSpec` | src/components/report/FormRenderer.jsx:23-48 | the props are disabled iff read-only or unavailable; show the error iff touched with a non-empty error; treat a field as completed iff unavailable or not empty; are in the completed state iff the status is "completed"; and bind the toggle to the field's name |
| `FormRenderer.DefaultStatus` | src/components/report/FormRenderer.jsx:20 | with the default status "in progress" no field is in the completed state |
| `FormRenderer.StoredErrorShown` | src/components/report/FormRenderer.jsx:41 | an error stored by `validate` is shown once its field is touched |
| `FormRenderer.RenderFieldSpec` | src/components/report/FormRenderer.jsx:50-110 | a read-only field shows its label and its value or "—"; an unknown type renders nothing; every other type gets its own control with the shared props, and radio and checkbox controls get the field's options |
| `FormRenderer.RenderCells` | src/components/report/FormRenderer.jsx:118-125 | one cell per field of a section |
| `FormRenderer.RenderSections` | src/components/report/FormRenderer.jsx:115-128 | one rendered section per schema section, in order, each with that section's `title` and the cells of that section's fields |
| `FormRenderer.RenderedTitles` | src/components/report/FormRenderer.jsx:115-128 | each on-screen section has its schema section's `title`, the same title as the printed block, and one cell per field of that section, keyed by the field's name |
| `FormRenderer.CellsOfSections` | src/components/report/FormRenderer.jsx:113-129 | the cells of all sections, in order, are the cells of the flattened fields |
| `FormRenderer.RenderedCells` | src/components/report/FormRenderer.jsx:113-129 | the form has one cell per schema field, in schema order; each is keyed by its field, spans the full row iff the field is full-width, and holds that field's control |
| `FormRenderer.ScreenMatchesPrint` | src/components/report/FormRenderer.jsx:118-125 | the screen form and the print view have the same cells, with the same keys and full-width spans, in the same order |
| `PrintField.EmDashIff` | src/components/report/print/PrintField.jsx:3-9 | the placeholder "—" is printed exactly for an unavailable field, a falsy value or an empty array |
| `PrintField.PrintsByType` | src/components/report/print/PrintField.jsx:11-28 | a present value prints as a comma-joined list for checkbox arrays, an image for signatures, a text block for text areas, and the raw value otherwise |
| `PrintField.JoinedOrder` | src/components/report/print/PrintField.jsx:12-14 | a checkbox selection prints its items in stored order, separated by ", " |
| `PrintField.BlankTextPrints` | src/components/report/print/PrintField.jsx:7-9 | a whitespace-only string counts as empty on screen, but prints as itself, not "—" |
| `PrintField.PrintLabel` | src/components/report/print/PrintField.jsx:33-38 | the label line is the label, followed by " (NA)" exactly when the field is unavailable |
| `PrintField.PrintFieldCell` | src/components/report/print/PrintField.jsx:1-41 | the unavailable style is applied exactly when the field is unavailable; an unavailable field prints "—" with "(NA)" after its label |
| `PrintRenderer.HeaderMissesReportId` | src/components/report/print/PrintRenderer.jsx:10 | as written, a report whose `reportId` is "R-1" prints "Report #—", because `reportNumber` is not a schema field |
| `PrintRenderer.ReportHeader` | src/components/report/print/PrintRenderer.jsx:10 | the corrected header shows the report id when it is present and "—" otherwise |
| `PrintRenderer.HeaderShowsReportId` | src/components/report/print/PrintRenderer.jsx:10 | with the correction, the schema's `reportId` field is the one shown |
| `PrintRenderer.PrintCells` | src/components/report/print/PrintRenderer.jsx:17-28 | one cell per field of a section, each printed from that field |
| `PrintRenderer.PrintSections` | src/components/report/print/PrintRenderer.jsx:14-31 | one printed block per schema section, with its title and its fields' cells |
| `PrintRenderer.CellsOfSections` | src/components/report/print/PrintRenderer.jsx:14-31 | the cells of all blocks, in order, are the cells of the flattened fields |
| `PrintRenderer.PrintedCells` | src/components/report/print/PrintRenderer.jsx:14-31 | the print has one cell per schema field, in order, with nothing filtered by `printable`; each has its key, full-width flag, plain label and value printed by type |
| `PrintRenderer.CorrectionOnlyInHeader` | src/components/report/print/PrintRenderer.jsx:9-31 | the corrected report prints the same blocks as the report as written; for data with a `reportId` and no `reportNumber`, the header as written shows "—" where the corrected one shows the identifier |
| `PrintRenderer.PrintedTitles` | src/components/report/print/PrintRenderer.jsx:15 | each block carries its section's `title`, not `printTitle` |
| `PrintRenderer.UnavailableStillPrinted` | src/components/report/print/PrintRenderer.jsx:22-26 | the print is never told which fields are unavailable, so a filled field always shows its value |
| `FieldWrapper.HighlightIff` | src/components/report/shared/FieldWrapper.jsx:13 | a field is highlighted exactly when the report is completed and the field is empty and available; `required` plays no part |
| `FieldWrapper.LabelState` | src/components/report/shared/FieldWrapper.jsx:19-36 | the label is struck through exactly when the field is unavailable; its tooltip offers the opposite toggle; the star shows iff the field is required and available |
| `FieldWrapper.UnavailableQuiet` | src/components/report/shared/FieldWrapper.jsx:13-35 | an unavailable field is never highlighted and never starred |

## Left out

- **Rendering.** JSX markup, CSS classes and React re-rendering are not modelled. Callbacks (`onChange`, `onBlur`, `onToggleAvailability`, the print, delete and status buttons) are not modelled either. Rendering is described by the datatypes the functions return.
- **Field components.** The per-type components that `FormRenderer` renders are not part of this model: text, text area, number, date, time, radio and signature. The same goes for `FormSection`, `PrintSection` and `ValidationMessage`. The text, text area, number, date and signature components, and the checkbox group, receive `isEmpty` and `isCompleted` but do not pass them on to `FieldWrapper`, so the highlight of `FieldWrapper.HighlightIff` is not seen on screen for those fields. The radio group forwards both props (src/components/report/fields/RadioGroupField.jsx:34-35), so radio fields do show it. The checkbox group and the signature field also give `FieldWrapper` only `label`, `required` and `name` (src/components/report/fields/CheckboxGroupField.jsx:45, src/components/report/fields/SignatureField.jsx:125). They drop `isUnavailable` and `onToggleAvailability` too, so the label states of `FieldWrapper.LabelState` and `FieldWrapper.UnavailableQuiet` never appear for those fields: no strike-through, no tooltip, and a star that is not hidden when the field is unavailable. Their labels offer no availability toggle either.
- **The checkbox blur.** `CheckboxGroupField` calls `onBlur` through `setTimeout(…, 0)` after a change. This timer is left out because it is scheduling, not data.
- **`validateDateNotFuture`.** This function reads the clock and no schema field uses it, so it is left out.
- **Other inputs.** `getInitialFormData` takes today's date as a parameter instead of reading the clock. The print footer's timestamp is left out.
- **Custom checks.** Custom validation hooks are a function parameter (`CustomCheck`) of type field name, value and form data to message, where `""` stands for no error. No schema field defines one.
- **Number parsing.** `validateNumberRange` takes an already-parsed integer. `Number(value)` and its NaN case are not modelled, and no caller uses the function.
- **`console.warn`.** The warning that `FormRenderer` logs for an unknown field type is left out; the model renders nothing for that field.
- **State hooks.** `setFormData`, `setTouched` and `setErrors` are exposed by the hooks and not modelled: they are raw state setters. React's batching and stale closures are not modelled; each method sees the current state.
- `FormValidation.ValidateField`: for a phone rule whose value is an array, the source throws a `TypeError`, because `replace` does not exist on arrays. The model reports the phone error instead.
- `FormValidation.RoundPercent`: `Math.round` of a floating-point quotient is modelled by exact rational rounding. Floating-point error is not modelled; with 27 fields no quotient lands on a half.
- `FormValidation.RoundPercent`: a zero total gives NaN, as the code computes it, although the documentation describes the value as 0.
- `FormValidation.OverallFullIff`: "100% iff every field is done" is proved only for fewer than 200 fields, because 199 of 200 already rounds to 100 (`FormValidation.FullPercentEarly`).
- `FormValidation.CompletionPartition`: the totals add up only when field names are distinct. This is required here and proved for the accident-report schema.
- `FormStatusPanel.MinorAge`: stated for ages written as a decimal numeral followed by nothing or a non-digit. Other inputs are covered by the `ParseInt` model and the examples, not by this lemma.
- `FieldWrapper.HighlightIff`: the source's highlight has no `requiredByPatient` condition, although the documentation describes one. The model follows the code.

## Findings

| source | as written | input that shows it | evidently intended | confidence | as-written member | corrected member |
|---|---|---|---|---|---|---|
| src/components/report/print/PrintRenderer.jsx:10 | the header reads `formData.reportNumber`, a key that no schema field or other code writes | form data `{ reportId: "R-1" }` prints "Report #—" | show the schema's `reportId` field | medium, not executed | `PrintRenderer.HeaderMissesReportId`, `PrintRenderer.CorrectionOnlyInHeader` | `PrintRenderer.HeaderShowsReportId` |
