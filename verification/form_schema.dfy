/** The accident-report schema: sections of field definitions, the single
    source of truth for both renderers and the validation engine, with its
    lookups and derived views. */
module FormSchema {
  import opened FormValues

  /** The closed set of field types; `Unknown` stands for any other tag a
      schema might carry. */
  datatype FieldType =
    | Text | TextArea | Number | Date | Time | Radio | Checkbox | Signature | Readonly
    | Unknown(tag: string)

  /** An `{ value, label }` option of a radio or checkbox group. */
  datatype Choice = Choice(value: string, labelText: string)

  /** A `validation` descriptor: its `type` ("phone", "required", ...), its
      `message` ("" when absent) and whether it carries a `custom` hook. */
  datatype Rule = Rule(kind: string, message: string, hasCustom: bool)

  /** A field definition; optional attributes are `None`, or "" for text. */
  datatype FieldDef = FieldDef(
    name: string,
    ftype: FieldType,
    labelText: string,
    requiredByPatient: bool,
    options: seq<Choice>,
    validation: Option<Rule>,
    maxLength: Option<nat>,
    placeholder: string,
    rows: Option<nat>,
    min: Option<int>,
    max: Option<int>,
    fullWidth: bool,
    printable: bool)

  datatype Section = Section(id: string, title: string, printTitle: string, fields: seq<FieldDef>)

  datatype Schema = Schema(sections: seq<Section>)

  /** A field with every optional attribute absent and `printable` set. */
  function Field(name: string, ftype: FieldType, labelText: string, requiredByPatient: bool): FieldDef
  {
    FieldDef(name, ftype, labelText, requiredByPatient, [], None, None, "", None, None, None, false, true)
  }

  /** `sections.flatMap(s => s.fields)` */
  function Flatten(sections: seq<Section>): seq<FieldDef>
  {
    if sections == [] then [] else sections[0].fields + Flatten(sections[1..])
  }

  /** Every field of the schema, section by section. */
  function AllFields(schema: Schema): seq<FieldDef>
  {
    Flatten(schema.sections)
  }

  lemma {:induction false} FlattenAppend(a: seq<Section>, b: seq<Section>)
    ensures Flatten(a + b) == Flatten(a) + Flatten(b)
    decreases |a|
  {
    if a == [] {
      assert a + b == b;
    } else {
      assert (a + b)[1..] == a[1..] + b;
      FlattenAppend(a[1..], b);
    }
  }

  /** Walking the sections one at a time covers the flattened fields. */
  lemma FlattenPrefix(sections: seq<Section>, i: nat)
    requires i < |sections|
    ensures Flatten(sections[..i + 1]) == Flatten(sections[..i]) + sections[i].fields
  {
    assert sections[..i + 1] == sections[..i] + [sections[i]];
    FlattenAppend(sections[..i], [sections[i]]);
  }

  /** `fields.map(f => f.name)` */
  function Names(fields: seq<FieldDef>): (r: seq<string>)
    ensures |r| == |fields|
    ensures forall k | 0 <= k < |fields| :: r[k] == fields[k].name
  {
    if fields == [] then [] else [fields[0].name] + Names(fields[1..])
  }

  /** `fields.filter(f => f.requiredByPatient).map(f => f.name)` */
  function RequiredByPatientNames(fields: seq<FieldDef>): seq<string>
  {
    if fields == [] then []
    else if fields[0].requiredByPatient then [fields[0].name] + RequiredByPatientNames(fields[1..])
    else RequiredByPatientNames(fields[1..])
  }

  /** The patient-required projection keeps, in schema order, exactly the
      names of the fields flagged `requiredByPatient`. */
  lemma {:induction false} RequiredByPatientNamesSpec(fields: seq<FieldDef>)
    ensures IsSubsequence(RequiredByPatientNames(fields), Names(fields))
    ensures forall n :: n in RequiredByPatientNames(fields)
                        <==> exists f | f in fields :: f.requiredByPatient && f.name == n
    decreases |fields|
  {
    if fields != [] {
      RequiredByPatientNamesSpec(fields[1..]);
      assert Names(fields)[1..] == Names(fields[1..]);
      assert forall f :: f in fields <==> f == fields[0] || f in fields[1..];
    }
  }

  /** Names are pairwise distinct (the schema's uniqueness assumption). */
  predicate DistinctNames(fields: seq<FieldDef>)
  {
    forall i, j | 0 <= i < j < |fields| :: fields[i].name != fields[j].name
  }

  /** Index of the first field named `name`, or `|fields|` when there is
      none: `fields.find(f => f.name === name)`. */
  function FindIndex(fields: seq<FieldDef>, name: string): (k: nat)
    ensures k <= |fields|
    ensures k < |fields| ==> fields[k].name == name
    ensures forall j | 0 <= j < k :: fields[j].name != name
  {
    if fields == [] then 0
    else if fields[0].name == name then 0
    else 1 + FindIndex(fields[1..], name)
  }

  /** The first field named `name`, if any. */
  function FindField(fields: seq<FieldDef>, name: string): (r: Option<FieldDef>)
    ensures r.Some? ==> r.value.name == name && r.value in fields
    ensures r.None? <==> forall f | f in fields :: f.name != name
  {
    var k := FindIndex(fields, name);
    if k < |fields| then Some(fields[k]) else None
  }

  lemma {:induction false} FindIndexAppend(a: seq<FieldDef>, b: seq<FieldDef>, name: string)
    ensures FindIndex(a + b, name)
            == if FindIndex(a, name) < |a| then FindIndex(a, name) else |a| + FindIndex(b, name)
    decreases |a|
  {
    if a == [] {
      assert a + b == b;
    } else {
      assert (a + b)[1..] == a[1..] + b;
      FindIndexAppend(a[1..], b, name);
    }
  }

  /** `getFieldByName`'s loop over sections: the first section holding a
      field named `name` answers. */
  function FindInSections(sections: seq<Section>, name: string): Option<FieldDef>
  {
    if sections == [] then None
    else
      match FindField(sections[0].fields, name)
      case Some(f) => Some(f)
      case None => FindInSections(sections[1..], name)
  }

  /** Searching section by section finds the same field as searching the
      flattened list, so both lookups of the source agree. */
  lemma {:induction false} FindInSectionsIsFlatFind(sections: seq<Section>, name: string)
    ensures FindInSections(sections, name) == FindField(Flatten(sections), name)
    decreases |sections|
  {
    if sections != [] {
      var fs := sections[0].fields;
      FindIndexAppend(fs, Flatten(sections[1..]), name);
      FindInSectionsIsFlatFind(sections[1..], name);
      var k := FindIndex(fs, name);
      if k < |fs| {
        assert (fs + Flatten(sections[1..]))[k] == fs[k];
      } else {
        var rest := Flatten(sections[1..]);
        var k2 := FindIndex(rest, name);
        if k2 < |rest| {
          assert (fs + rest)[|fs| + k2] == rest[k2];
        }
      }
    }
  }

  /** A radio or checkbox field offers options whose values differ. */
  predicate ChoicesOk(f: FieldDef)
  {
    (f.ftype == Radio || f.ftype == Checkbox) ==>
      |f.options| > 0
      && forall i, j | 0 <= i < j < |f.options| :: f.options[i].value != f.options[j].value
  }

  predicate ChoicesWellFormed(fields: seq<FieldDef>)
  {
    forall k | 0 <= k < |fields| :: ChoicesOk(fields[k])
  }

  const IncidentDetails := Section("incident-details", "Incident Details", "INCIDENT DETAILS", [
    Field("reportId", Readonly, "Report ID", false),
    Field("location", Text, "Location", false).(
      placeholder := "e.g., Main Street Run, Lift 3", maxLength := Some(100),
      validation := Some(Rule("required", "Location is required", false))),
    Field("dateOfIncident", Date, "Date of Incident", false),
    Field("timeOfIncident", Time, "Time of Incident", true)
  ])

  const PatientInfo := Section("patient-info", "Patient Information", "PATIENT INFORMATION", [
    Field("patientName", Text, "Patient Name", true).(placeholder := "Full name", maxLength := Some(100)),
    Field("patientBirthdate", Date, "Date of Birth", true),
    Field("patientAge", Number, "Age", true).(placeholder := "Age"),
    Field("patientPhoneNumber", Text, "Phone Number", true).(
      placeholder := "(555) 123-4567", maxLength := Some(20),
      validation := Some(Rule("phone", "Please enter a valid phone number", false))),
    Field("patientGender", Radio, "Gender", true).(options := [
      Choice("male", "Male"), Choice("female", "Female"), Choice("non-binary", "Non-Binary")]),
    Field("patientWeight", Number, "Weight (lbs)", true).(placeholder := "Weight"),
    Field("patientHeight", Text, "Height", true).(placeholder := "e.g., 5'10\"", maxLength := Some(20)),
    Field("guestType", Radio, "Guest Type", true).(options := [
      Choice("day-ticket", "Day Ticket"), Choice("season-pass", "Season Pass"), Choice("card-holder", "Card Holder"),
      Choice("staff", "Staff"), Choice("staff-off-duty", "Staff (Off Duty)"), Choice("other", "Other")]),
    Field("patientDescription", TextArea, "Patient Description", true).(
      placeholder := "Patient description of the incident.", maxLength := Some(500),
      rows := Some(4), fullWidth := true),
    Field("signatureType", Radio, "Signed By", true).(options := [
      Choice("patient", "Patient"), Choice("guardian", "Guardian"), Choice("other", "Other")]),
    Field("patientSignature", Signature, "Signature", true)
  ])

  const Injuries := Section("injuries", "Patient Injuries", "INJURIES & TREATMENT", [
    Field("injuryTypes", Checkbox, "Injury Type(s)", false).(options := [
      Choice("fracture", "Fracture"), Choice("sprain", "Sprain/Strain"), Choice("laceration", "Laceration"),
      Choice("head", "Head Injury"), Choice("other", "Other")]),
    Field("bodyPart", Text, "Body Part Affected", false).(
      placeholder := "e.g., Left knee, Right wrist", maxLength := Some(100)),
    Field("injurySeverity", Radio, "Severity", false).(options := [
      Choice("minor", "Minor"), Choice("moderate", "Moderate"), Choice("severe", "Severe")]),
    Field("injuryDescription", TextArea, "Injury Description", true).(
      placeholder := "Detailed description of the injury and how it occurred...",
      maxLength := Some(500), rows := Some(4), fullWidth := true),
    Field("treatmentProvided", TextArea, "Treatment Provided", false).(
      placeholder := "First aid and treatment provided...", maxLength := Some(500),
      rows := Some(3), fullWidth := true)
  ])

  const Conditions := Section("conditions", "Ski Conditions", "SKI CONDITIONS", [
    Field("weatherConditions", Radio, "Weather", false).(options := [
      Choice("clear", "Clear"), Choice("cloudy", "Cloudy"), Choice("snowing", "Snowing"), Choice("fog", "Fog")]),
    Field("snowConditions", Radio, "Snow Conditions", false).(options := [
      Choice("powder", "Powder"), Choice("packed", "Packed"), Choice("icy", "Icy"), Choice("slushy", "Slushy")]),
    Field("visibility", Radio, "Visibility", false).(options := [
      Choice("excellent", "Excellent"), Choice("good", "Good"), Choice("fair", "Fair"), Choice("poor", "Poor")]),
    Field("trailDifficulty", Radio, "Trail Difficulty", false).(options := [
      Choice("green", "Green Circle (Beginner)"), Choice("blue", "Blue Square (Intermediate)"),
      Choice("black", "Black Diamond (Advanced)"), Choice("double-black", "Double Black Diamond (Expert)")])
  ])

  const PatrollerInfo := Section("patroller-info", "Patroller Information", "PATROLLER SIGNATURE", [
    Field("patrollerName", Text, "Patroller Name", false).(placeholder := "Full name", maxLength := Some(100)),
    Field("signature", Signature, "Signature", false).(fullWidth := true),
    Field("signatureDate", Readonly, "Signature Date", false)
  ])

  /** `ACCIDENT_REPORT_SCHEMA` */
  const AccidentReportSchema := Schema([IncidentDetails, PatientInfo, Injuries, Conditions, PatrollerInfo])

  lemma {:induction false} NamesAppend(a: seq<FieldDef>, b: seq<FieldDef>)
    ensures Names(a + b) == Names(a) + Names(b)
  {
    assert |Names(a + b)| == |Names(a) + Names(b)|;
    forall k | 0 <= k < |a| + |b| ensures Names(a + b)[k] == (Names(a) + Names(b))[k] {
      if k < |a| { assert (a + b)[k] == a[k]; } else { assert (a + b)[k] == b[k - |a|]; }
    }
  }

  lemma IncidentDetailsNames()
    ensures Names(IncidentDetails.fields) == ["reportId", "location", "dateOfIncident", "timeOfIncident"]
  {
  }

  lemma PatientInfoNames()
    ensures Names(PatientInfo.fields) == [
      "patientName", "patientBirthdate", "patientAge", "patientPhoneNumber", "patientGender",
      "patientWeight", "patientHeight", "guestType", "patientDescription", "signatureType",
      "patientSignature"]
  {
  }

  lemma InjuriesNames()
    ensures Names(Injuries.fields) == [
      "injuryTypes", "bodyPart", "injurySeverity", "injuryDescription", "treatmentProvided"]
  {
  }

  lemma ConditionsNames()
    ensures Names(Conditions.fields) == ["weatherConditions", "snowConditions", "visibility", "trailDifficulty"]
  {
  }

  lemma PatrollerInfoNames()
    ensures Names(PatrollerInfo.fields) == ["patrollerName", "signature", "signatureDate"]
  {
  }

  /** The schema's fields, written out section by section. */
  lemma SchemaFieldsFlat()
    ensures AllFields(AccidentReportSchema)
            == IncidentDetails.fields + PatientInfo.fields + Injuries.fields + Conditions.fields + PatrollerInfo.fields
  {
    var ss := AccidentReportSchema.sections;
    assert Flatten(ss[4..]) == PatrollerInfo.fields;
    assert Flatten(ss[3..]) == Conditions.fields + PatrollerInfo.fields;
    assert Flatten(ss[2..]) == Injuries.fields + (Conditions.fields + PatrollerInfo.fields);
    assert Flatten(ss[1..]) == PatientInfo.fields + (Injuries.fields + (Conditions.fields + PatrollerInfo.fields));
  }

  lemma {:induction false} NamesOfFive(a: seq<FieldDef>, b: seq<FieldDef>, c: seq<FieldDef>, d: seq<FieldDef>, e: seq<FieldDef>)
    ensures Names(a + b + c + d + e) == Names(a) + Names(b) + Names(c) + Names(d) + Names(e)
  {
    NamesAppend(a + b + c + d, e);
    NamesAppend(a + b + c, d);
    NamesAppend(a + b, c);
    NamesAppend(a, b);
  }

  lemma NamesLiteralConcat(a: seq<string>, b: seq<string>, c: seq<string>, d: seq<string>, e: seq<string>)
    requires a == ["reportId", "location", "dateOfIncident", "timeOfIncident"]
    requires b == [
      "patientName", "patientBirthdate", "patientAge", "patientPhoneNumber", "patientGender",
      "patientWeight", "patientHeight", "guestType", "patientDescription", "signatureType",
      "patientSignature"]
    requires c == ["injuryTypes", "bodyPart", "injurySeverity", "injuryDescription", "treatmentProvided"]
    requires d == ["weatherConditions", "snowConditions", "visibility", "trailDifficulty"]
    requires e == ["patrollerName", "signature", "signatureDate"]
    ensures a + b + c + d + e == SchemaNames
  {
  }

  /** The 27 field names of the schema, in section-then-field order. */
  const SchemaNames: seq<string> := [
      "reportId", "location", "dateOfIncident", "timeOfIncident",
      "patientName", "patientBirthdate", "patientAge", "patientPhoneNumber", "patientGender",
      "patientWeight", "patientHeight", "guestType", "patientDescription", "signatureType",
      "patientSignature",
      "injuryTypes", "bodyPart", "injurySeverity", "injuryDescription", "treatmentProvided",
      "weatherConditions", "snowConditions", "visibility", "trailDifficulty",
      "patrollerName", "signature", "signatureDate"]

  lemma SchemaFieldNames()
    ensures Names(AllFields(AccidentReportSchema)) == SchemaNames
  {
    var a, b, c, d, e := IncidentDetails.fields, PatientInfo.fields, Injuries.fields, Conditions.fields, PatrollerInfo.fields;
    var fs := AllFields(AccidentReportSchema);
    assert fs == a + b + c + d + e by { SchemaFieldsFlat(); }
    assert Names(fs) == Names(a) + Names(b) + Names(c) + Names(d) + Names(e) by { NamesOfFive(a, b, c, d, e); }
    IncidentDetailsNames(); PatientInfoNames(); InjuriesNames(); ConditionsNames(); PatrollerInfoNames();
    NamesLiteralConcat(Names(a), Names(b), Names(c), Names(d), Names(e));
  }

  lemma SchemaNamesLiteralDistinct()
    ensures forall i, j | 0 <= i < j < |SchemaNames| :: SchemaNames[i] != SchemaNames[j]
  {
  }

  /** All 27 field names of the schema are pairwise distinct. */
  lemma SchemaNamesDistinct()
    ensures |AllFields(AccidentReportSchema)| == 27
    ensures DistinctNames(AllFields(AccidentReportSchema))
  {
    SchemaFieldNames();
    SchemaNamesLiteralDistinct();
  }

  /** With distinct names, looking a field's name up finds that field. */
  lemma FindDistinct(fields: seq<FieldDef>, k: nat)
    requires DistinctNames(fields) && k < |fields|
    ensures FindField(fields, fields[k].name) == Some(fields[k])
  {
  }

  /** `FindDistinct`, for a field and name known only through equations. */
  lemma FindAt(fields: seq<FieldDef>, k: nat, f: FieldDef, name: string)
    requires DistinctNames(fields) && k < |fields| && fields[k] == f && f.name == name
    ensures FindField(fields, name) == Some(f)
  {
    FindDistinct(fields, k);
  }

  lemma {:induction false} RequiredAppend(a: seq<FieldDef>, b: seq<FieldDef>)
    ensures RequiredByPatientNames(a + b) == RequiredByPatientNames(a) + RequiredByPatientNames(b)
    decreases |a|
  {
    if a == [] {
      assert a + b == b;
    } else {
      assert (a + b)[1..] == a[1..] + b;
      RequiredAppend(a[1..], b);
    }
  }

  lemma {:induction false} RequiredNone(fields: seq<FieldDef>)
    requires forall k | 0 <= k < |fields| :: !fields[k].requiredByPatient
    ensures RequiredByPatientNames(fields) == []
    decreases |fields|
  {
    if fields != [] {
      RequiredNone(fields[1..]);
    }
  }

  lemma {:induction false} RequiredAll(fields: seq<FieldDef>)
    requires forall k | 0 <= k < |fields| :: fields[k].requiredByPatient
    ensures RequiredByPatientNames(fields) == Names(fields)
    decreases |fields|
  {
    if fields != [] {
      RequiredAll(fields[1..]);
    }
  }

  lemma IncidentDetailsRequired()
    ensures RequiredByPatientNames(IncidentDetails.fields) == ["timeOfIncident"]
  {
    var a := IncidentDetails.fields;
    assert a == a[..3] + a[3..];
    RequiredNone(a[..3]);
    RequiredAll(a[3..]);
    RequiredAppend(a[..3], a[3..]);
  }

  lemma PatientInfoRequired()
    ensures RequiredByPatientNames(PatientInfo.fields) == Names(PatientInfo.fields)
  {
    RequiredAll(PatientInfo.fields);
  }

  lemma InjuriesRequired()
    ensures RequiredByPatientNames(Injuries.fields) == ["injuryDescription"]
  {
    var c := Injuries.fields;
    assert c == c[..3] + c[3..4] + c[4..];
    RequiredNone(c[..3]);
    RequiredAll(c[3..4]);
    RequiredNone(c[4..]);
    RequiredAppend(c[..3] + c[3..4], c[4..]);
    RequiredAppend(c[..3], c[3..4]);
  }

  lemma ConditionsRequired()
    ensures RequiredByPatientNames(Conditions.fields) == []
  {
    RequiredNone(Conditions.fields);
  }

  lemma PatrollerInfoRequired()
    ensures RequiredByPatientNames(PatrollerInfo.fields) == []
  {
    RequiredNone(PatrollerInfo.fields);
  }

  lemma IncidentDetailsChoices()
    ensures ChoicesWellFormed(IncidentDetails.fields)
  {
  }

  lemma InjuriesChoices()
    ensures ChoicesWellFormed(Injuries.fields)
  {
    var fs := Injuries.fields;
    assert ChoicesOk(fs[0]);
    assert ChoicesOk(fs[2]);
  }

  lemma ConditionsChoices()
    ensures ChoicesWellFormed(Conditions.fields)
  {
  }

  lemma PatrollerInfoChoices()
    ensures ChoicesWellFormed(PatrollerInfo.fields)
  {
  }

  lemma PatientInfoChoices()
    ensures ChoicesWellFormed(PatientInfo.fields)
  {
  }

  lemma {:induction false} ChoicesAppend(a: seq<FieldDef>, b: seq<FieldDef>)
    requires ChoicesWellFormed(a) && ChoicesWellFormed(b)
    ensures ChoicesWellFormed(a + b)
  {
    forall k | 0 <= k < |a + b| ensures ChoicesOk((a + b)[k]) {
      if k < |a| { assert (a + b)[k] == a[k]; } else { assert (a + b)[k] == b[k - |a|]; }
    }
  }

  /** Every radio and checkbox field of the schema carries a non-empty list
      of options with distinct values. */
  lemma SchemaChoicesWellFormed()
    ensures ChoicesWellFormed(AllFields(AccidentReportSchema))
  {
    var a, b, c, d, e := IncidentDetails.fields, PatientInfo.fields, Injuries.fields, Conditions.fields, PatrollerInfo.fields;
    assert AllFields(AccidentReportSchema) == a + b + c + d + e by { SchemaFieldsFlat(); }
    IncidentDetailsChoices();
    PatientInfoChoices();
    InjuriesChoices();
    ConditionsChoices();
    PatrollerInfoChoices();
    ChoicesAppend(a, b);
    ChoicesAppend(a + b, c);
    ChoicesAppend(a + b + c, d);
    ChoicesAppend(a + b + c + d, e);
  }

  /** `getRequiredByPatientFields` */
  function GetRequiredByPatientFields(): seq<string>
  {
    RequiredByPatientNames(AllFields(AccidentReportSchema))
  }

  lemma {:induction false} RequiredOfFive(a: seq<FieldDef>, b: seq<FieldDef>, c: seq<FieldDef>, d: seq<FieldDef>, e: seq<FieldDef>)
    ensures RequiredByPatientNames(a + b + c + d + e)
            == RequiredByPatientNames(a) + RequiredByPatientNames(b) + RequiredByPatientNames(c)
               + RequiredByPatientNames(d) + RequiredByPatientNames(e)
  {
    RequiredAppend(a + b + c + d, e);
    RequiredAppend(a + b + c, d);
    RequiredAppend(a + b, c);
    RequiredAppend(a, b);
  }

  /** The 13 patient-required names, in section-then-field order. */
  lemma RequiredByPatientFieldsListed()
    ensures GetRequiredByPatientFields() == [
      "timeOfIncident",
      "patientName", "patientBirthdate", "patientAge", "patientPhoneNumber", "patientGender",
      "patientWeight", "patientHeight", "guestType", "patientDescription", "signatureType",
      "patientSignature",
      "injuryDescription"]
    ensures |GetRequiredByPatientFields()| == 13
  {
    var a, b, c, d, e := IncidentDetails.fields, PatientInfo.fields, Injuries.fields, Conditions.fields, PatrollerInfo.fields;
    assert AllFields(AccidentReportSchema) == a + b + c + d + e by { SchemaFieldsFlat(); }
    RequiredOfFive(a, b, c, d, e);
    var ra, rb, rc, rd, re := RequiredByPatientNames(a), RequiredByPatientNames(b), RequiredByPatientNames(c),
                              RequiredByPatientNames(d), RequiredByPatientNames(e);
    IncidentDetailsRequired();
    InjuriesRequired();
    ConditionsRequired();
    PatrollerInfoRequired();
    assert rb == [
      "patientName", "patientBirthdate", "patientAge", "patientPhoneNumber", "patientGender",
      "patientWeight", "patientHeight", "guestType", "patientDescription", "signatureType",
      "patientSignature"] by {
      PatientInfoRequired();
      PatientInfoNames();
    }
  }

  /** The lookup fails exactly for a name no field carries. */
  lemma {:induction false} FindFieldNames(fields: seq<FieldDef>, name: string)
    ensures FindField(fields, name).None? <==> name !in Names(fields)
  {
    if FindField(fields, name).Some? {
      var k := FindIndex(fields, name);
      assert Names(fields)[k] == name;
    }
  }

  /** Looking a name up section by section, in a schema whose field names
      are `names`: it finds the flattened lookup's field, and fails exactly
      for a name outside `names`. */
  lemma LookupInSchema(schema: Schema, names: seq<string>, name: string)
    requires Names(AllFields(schema)) == names
    ensures FindInSections(schema.sections, name) == FindField(AllFields(schema), name)
    ensures FindInSections(schema.sections, name).None? <==> name !in names
    ensures FindInSections(schema.sections, name).Some? ==>
      FindInSections(schema.sections, name).value.name == name
      && FindInSections(schema.sections, name).value in AllFields(schema)
  {
    FindInSectionsIsFlatFind(schema.sections, name);
    FindFieldNames(AllFields(schema), name);
  }

  /** `getFieldByName`: the first field named `name`, section by section,
      or none; it is the field the flattened `find` of the validation
      engine sees. */
  function GetFieldByName(name: string): (r: Option<FieldDef>)
    ensures r.None? <==> name !in SchemaNames
    ensures r == FindField(AllFields(AccidentReportSchema), name)
  {
    SchemaFieldNames();
    LookupInSchema(AccidentReportSchema, SchemaNames, name);
    FindInSections(AccidentReportSchema.sections, name)
  }

  /** `getInitialFormData`, with today's date passed in: the defaults for
      `dateOfIncident`, `location` and `injuryTypes`, overridden by every
      entry of `overrides`. */
  function GetInitialFormData(today: string, overrides: FormData): (r: FormData)
    ensures r.Keys == overrides.Keys + {"dateOfIncident", "location", "injuryTypes"}
    ensures forall k | k in overrides :: r[k] == overrides[k]
    ensures "dateOfIncident" !in overrides ==> r["dateOfIncident"] == Str(today)
    ensures "location" !in overrides ==> r["location"] == Str("Chicopee Ski Club")
    ensures "injuryTypes" !in overrides ==> r["injuryTypes"] == List([])
  {
    map["dateOfIncident" := Str(today), "location" := Str("Chicopee Ski Club"), "injuryTypes" := List([])]
      + overrides
  }

  /** Only `location` and `patientPhoneNumber` carry a validation
      descriptor, and none defines a custom check. */
  predicate OnlyListedRules(fields: seq<FieldDef>)
  {
    forall k | 0 <= k < |fields| :: fields[k].validation.Some? ==>
      !fields[k].validation.value.hasCustom
      && (fields[k].name == "location" || fields[k].name == "patientPhoneNumber")
  }

  lemma {:induction false} ListedRulesAppend(a: seq<FieldDef>, b: seq<FieldDef>)
    requires OnlyListedRules(a) && OnlyListedRules(b)
    ensures OnlyListedRules(a + b)
  {
    forall k | 0 <= k < |a + b| && (a + b)[k].validation.Some?
      ensures !(a + b)[k].validation.value.hasCustom
      ensures (a + b)[k].name == "location" || (a + b)[k].name == "patientPhoneNumber"
    {
      if k < |a| { assert (a + b)[k] == a[k]; } else { assert (a + b)[k] == b[k - |a|]; }
    }
  }

  lemma IncidentDetailsRules()
    ensures OnlyListedRules(IncidentDetails.fields)
  {
  }

  lemma PatientInfoRules()
    ensures OnlyListedRules(PatientInfo.fields)
  {
  }

  lemma InjuriesRules()
    ensures OnlyListedRules(Injuries.fields)
  {
  }

  lemma ConditionsRules()
    ensures OnlyListedRules(Conditions.fields)
  {
  }

  lemma PatrollerInfoRules()
    ensures OnlyListedRules(PatrollerInfo.fields)
  {
  }

  /** No field of the schema defines a custom check, and only `location`
      and `patientPhoneNumber` carry a validation descriptor. */
  lemma SchemaRulesListed()
    ensures OnlyListedRules(AllFields(AccidentReportSchema))
  {
    var a, b, c, d, e := IncidentDetails.fields, PatientInfo.fields, Injuries.fields, Conditions.fields, PatrollerInfo.fields;
    assert AllFields(AccidentReportSchema) == a + b + c + d + e by { SchemaFieldsFlat(); }
    IncidentDetailsRules();
    PatientInfoRules();
    InjuriesRules();
    ConditionsRules();
    PatrollerInfoRules();
    ListedRulesAppend(a, b);
    ListedRulesAppend(a + b, c);
    ListedRulesAppend(a + b + c, d);
    ListedRulesAppend(a + b + c + d, e);
  }

  /** The second and eighth fields of the flattened schema are `location`
      and `patientPhoneNumber`. */
  lemma RuleFieldPositions()
    ensures |AllFields(AccidentReportSchema)| > 7
    ensures AllFields(AccidentReportSchema)[1] == IncidentDetails.fields[1]
    ensures AllFields(AccidentReportSchema)[7] == PatientInfo.fields[3]
  {
    var a, b, c, d, e := IncidentDetails.fields, PatientInfo.fields, Injuries.fields, Conditions.fields, PatrollerInfo.fields;
    SchemaFieldsFlat();
    assert |a| == 4 && |b| == 11;
    assert (a + b + c + d + e)[7] == b[3];
  }

  /** The lookup of `location` finds the field carrying the `required`
      descriptor. */
  lemma LocationRuleField()
    ensures FindField(AllFields(AccidentReportSchema), "location") == Some(IncidentDetails.fields[1])
  {
    RuleFieldPositions();
    SchemaNamesDistinct();
    LocationRule();
    FindAt(AllFields(AccidentReportSchema), 1, IncidentDetails.fields[1], "location");
  }

  lemma LocationRule()
    ensures IncidentDetails.fields[1].name == "location"
    ensures IncidentDetails.fields[1].validation == Some(Rule("required", "Location is required", false))
  {
  }

  /** The lookup of `patientPhoneNumber` finds the field carrying the phone
      descriptor. */
  lemma PhoneRuleField()
    ensures FindField(AllFields(AccidentReportSchema), "patientPhoneNumber") == Some(PatientInfo.fields[3])
  {
    RuleFieldPositions();
    SchemaNamesDistinct();
    PhoneRule();
    FindAt(AllFields(AccidentReportSchema), 7, PatientInfo.fields[3], "patientPhoneNumber");
  }

  lemma PhoneRule()
    ensures PatientInfo.fields[3].name == "patientPhoneNumber"
    ensures PatientInfo.fields[3].validation == Some(Rule("phone", "Please enter a valid phone number", false))
  {
  }
}
