/**
 * `process_resume` (process_resumes.py:471-516): the text is cleaned, every
 * extractor runs on the cleaned text, and a cleanup loop strips and
 * single-spaces every string value of the record.  `extract_name` (a named
 * entity recogniser) and the name-based gender guess are outside this model
 * and come in as parameters, and so does the current date.
 */
module Record {
  import opened Text
  import opened Clean
  import opened Experience
  import opened Sections
  import opened Contacts
  import opened Skills

  /** A JSON value of the record: every field is a string except the id. */
  datatype Value = Str(s: string) | Num(n: int)

  /** The keys of the record. */
  datatype Field =
    | Summary | EducationCategory | ExperienceYears | Gender | FieldOfActivity
    | LastPosition | Languages | WorkSchedule | Salary | PersonalQualities
    | SoftSkills | HardSkills | Certifications | Id | FullName | Phone | Email

  /** The key as it is written to the JSON file. */
  function KeyName(f: Field): string {
    match f
    case Summary => "Summary"
    case EducationCategory => "Категория образования"
    case ExperienceYears => "Стаж работы (лет)"
    case Gender => "Пол"
    case FieldOfActivity => "Направление деятельности"
    case LastPosition => "Последняя должность"
    case Languages => "Владение языками"
    case WorkSchedule => "График работы"
    case Salary => "Заработная плата"
    case PersonalQualities => "Личностные качества"
    case SoftSkills => "Soft Skills"
    case HardSkills => "Hard Skills"
    case Certifications => "Сертификации"
    case Id => "id"
    case FullName => "ФИО"
    case Phone => "Телефон"
    case Email => "Email"
  }

  /** A Python dict: its keys in insertion order, and its contents. */
  datatype Dict = Dict(keys: seq<Field>, fields: map<Field, Value>)

  /** The keys of `resume_data` in the order the literal lists them. */
  const InitialKeys: seq<Field> := [
    Summary, EducationCategory, ExperienceYears, Gender, FieldOfActivity, LastPosition,
    Languages, WorkSchedule, Salary, PersonalQualities, SoftSkills, HardSkills,
    Certifications, Id, FullName
  ]

  /** The keys of the finished record: the two contact keys are added last. */
  const RecordKeys: seq<Field> := InitialKeys + [Phone, Email]

  predicate Distinct(keys: seq<Field>) {
    forall i, j :: 0 <= i < j < |keys| ==> keys[i] != keys[j]
  }

  /** What the extractors find in the cleaned text `c`. */
  datatype Extraction = Extraction(
    summary: string, educationCategory: string, experienceYears: string, gender: string,
    fieldOfActivity: string, lastPosition: string, languages: string, workSchedule: string,
    salary: string, personalQualities: string, softSkills: string, hardSkills: string,
    certifications: string, phone: string, email: string)

  /** Every extractor run on `c`; the experience and skills extractors are
      methods, described here by the functions that specify them. */
  function Extract(c: string, guess: NameGender, now: Date): Extraction {
    Extraction(
      ExtractSummary(c), ExtractEducationCategory(c),
      YearsText(TotalMonths(FindRanges(LowerStr(c), 0), now)), ExtractGender(c, guess),
      ExtractFieldOfActivity(c), ExtractLastPosition(c), ExtractLanguages(c), ExtractWorkSchedule(c),
      ExtractDesiredSalary(c), ExtractPersonalQualities(c),
      Join(SoftOf(SkillTokens(c)), ", "), Join(HardOf(SkillTokens(c)), ", "),
      ExtractCertifications(c), ExtractPhone(c), ExtractEmail(c))
  }

  /** What key `f` holds once the extractors have run, before the cleanup. */
  function FieldValue(x: Extraction, candidateId: int, name: string, f: Field): (v: Value)
    ensures f == Id <==> v.Num?
    ensures f == Id ==> v == Num(candidateId)
  {
    match f
    case Summary => Str(x.summary)
    case EducationCategory => Str(x.educationCategory)
    case ExperienceYears => Str(x.experienceYears)
    case Gender => Str(x.gender)
    case FieldOfActivity => Str(x.fieldOfActivity)
    case LastPosition => Str(x.lastPosition)
    case Languages => Str(x.languages)
    case WorkSchedule => Str(x.workSchedule)
    case Salary => Str(x.salary)
    case PersonalQualities => Str(x.personalQualities)
    case SoftSkills => Str(x.softSkills)
    case HardSkills => Str(x.hardSkills)
    case Certifications => Str(x.certifications)
    case Id => Num(candidateId)
    case FullName => Str(name)
    case Phone => Str(x.phone)
    case Email => Str(x.email)
  }

  /** The record before the cleanup. */
  function ExtractedFields(x: Extraction, candidateId: int, name: string): map<Field, Value> {
    map f | f in RecordKeys :: FieldValue(x, candidateId, name, f)
  }

  /** Every key of the record is one of the seventeen. */
  lemma EveryFieldIsAKey(f: Field)
    ensures f in RecordKeys
  {
    match f
    case Summary => assert RecordKeys[0] == f;
    case EducationCategory => assert RecordKeys[1] == f;
    case ExperienceYears => assert RecordKeys[2] == f;
    case Gender => assert RecordKeys[3] == f;
    case FieldOfActivity => assert RecordKeys[4] == f;
    case LastPosition => assert RecordKeys[5] == f;
    case Languages => assert RecordKeys[6] == f;
    case WorkSchedule => assert RecordKeys[7] == f;
    case Salary => assert RecordKeys[8] == f;
    case PersonalQualities => assert RecordKeys[9] == f;
    case SoftSkills => assert RecordKeys[10] == f;
    case HardSkills => assert RecordKeys[11] == f;
    case Certifications => assert RecordKeys[12] == f;
    case Id => assert RecordKeys[13] == f;
    case FullName => assert RecordKeys[14] == f;
    case Phone => assert RecordKeys[15] == f;
    case Email => assert RecordKeys[16] == f;
  }

  /** One pass of the cleanup loop: `re.sub(r'\s+', ' ', v.strip())` on strings. */
  function CleanValue(v: Value): (w: Value)
    ensures w.Str? <==> v.Str?
    ensures w.Str? ==> IsNormalized(w.s)
    ensures w.Num? ==> w == v
  {
    if v.Str? then Str(Squish(v.s)) else v
  }

  /** The record `process_resume` returns, as a function of its inputs. */
  function ResumeRecord(resumeText: string, candidateId: int, name: string, guess: NameGender, now: Date): (r: Dict)
    ensures r.keys == RecordKeys
    ensures Id in r.fields && r.fields[Id] == Num(candidateId)
  {
    RecordShape(Extract(CleanText(resumeText), guess, now), candidateId, name);
    RecordOf(Extract(CleanText(resumeText), guess, now), candidateId, name)
  }

  /** The cleaned record for what the extractors found. */
  function RecordOf(x: Extraction, candidateId: int, name: string): Dict {
    var raw := ExtractedFields(x, candidateId, name);
    Dict(RecordKeys, map k | k in raw :: CleanValue(raw[k]))
  }

  /** The cleanup loop: every string value of `d` is stripped and single-spaced. */
  method CleanupRecord(d: Dict) returns (r: Dict)
    requires Distinct(d.keys)
    requires forall k :: k in d.fields <==> k in d.keys
    ensures r.keys == d.keys
    ensures r.fields == map k | k in d.fields :: CleanValue(d.fields[k])
  {
    var fields := d.fields;
    var i := 0;
    while i < |d.keys|
      invariant 0 <= i <= |d.keys|
      invariant fields.Keys == d.fields.Keys
      invariant forall j :: 0 <= j < i ==> fields[d.keys[j]] == CleanValue(d.fields[d.keys[j]])
      invariant forall j :: i <= j < |d.keys| ==> fields[d.keys[j]] == d.fields[d.keys[j]]
    {
      var key := d.keys[i];
      assert forall j :: 0 <= j < |d.keys| && j != i ==> d.keys[j] != key;
      var v := fields[key];
      if v.Str? {
        var stripped := Strip(v.s);
        fields := fields[key := Str(Collapse(stripped))];
      }
      i := i + 1;
    }
    r := Dict(d.keys, fields);
    forall k | k in d.fields
      ensures fields[k] == CleanValue(d.fields[k])
    {
      var j :| 0 <= j < |d.keys| && d.keys[j] == k;
    }
  }

  /** The position of each key in `RecordKeys`. */
  function KeyIndex(f: Field): nat {
    match f
    case Summary => 0 case EducationCategory => 1 case ExperienceYears => 2 case Gender => 3
    case FieldOfActivity => 4 case LastPosition => 5 case Languages => 6 case WorkSchedule => 7
    case Salary => 8 case PersonalQualities => 9 case SoftSkills => 10 case HardSkills => 11
    case Certifications => 12 case Id => 13 case FullName => 14 case Phone => 15 case Email => 16
  }

  lemma RecordKeysDistinct()
    ensures Distinct(RecordKeys) && |RecordKeys| == 17
  {
    assert forall i | 0 <= i < |RecordKeys| :: KeyIndex(RecordKeys[i]) == i;
  }

  /** The `resume_data` literal: every key empty except the id. */
  function InitialFields(candidateId: int): (m: map<Field, Value>)
    ensures forall k :: k in m <==> k in InitialKeys
  {
    map[
      Summary := Str(""), EducationCategory := Str(""), ExperienceYears := Str(""), Gender := Str(""),
      FieldOfActivity := Str(""), LastPosition := Str(""), Languages := Str(""), WorkSchedule := Str(""),
      Salary := Str(""), PersonalQualities := Str(""), SoftSkills := Str(""), HardSkills := Str(""),
      Certifications := Str(""), Id := Num(candidateId), FullName := Str("")
    ]
  }

  /** The map after the assignments of `process_resume`, in the order it
      makes them: the name, the contacts and the first extractors ... */
  function EarlyFields(x: Extraction, candidateId: int, name: string): map<Field, Value> {
    InitialFields(candidateId)[FullName := Str(name)][Phone := Str(x.phone)][Email := Str(x.email)]
      [Gender := Str(x.gender)][ExperienceYears := Str(x.experienceYears)]
      [EducationCategory := Str(x.educationCategory)][Languages := Str(x.languages)]
      [LastPosition := Str(x.lastPosition)]
  }

  /** ... then the remaining extractors. */
  function AssignedFields(x: Extraction, candidateId: int, name: string): map<Field, Value> {
    EarlyFields(x, candidateId, name)
      [SoftSkills := Str(x.softSkills)][HardSkills := Str(x.hardSkills)]
      [Certifications := Str(x.certifications)][PersonalQualities := Str(x.personalQualities)]
      [Summary := Str(x.summary)][Salary := Str(x.salary)][WorkSchedule := Str(x.workSchedule)]
      [FieldOfActivity := Str(x.fieldOfActivity)]
  }

  /** The keys the remaining extractors assign. */
  predicate IsLateField(f: Field) {
    f.SoftSkills? || f.HardSkills? || f.Certifications? || f.PersonalQualities?
    || f.Summary? || f.Salary? || f.WorkSchedule? || f.FieldOfActivity?
  }

  lemma EarlyFieldValue(x: Extraction, candidateId: int, name: string, f: Field)
    requires !IsLateField(f)
    ensures f in EarlyFields(x, candidateId, name)
    ensures EarlyFields(x, candidateId, name)[f] == FieldValue(x, candidateId, name, f)
  {
    match f
    case ExperienceYears => case Gender => case LastPosition => case Languages =>
    case EducationCategory => case Id => case FullName => case Phone => case Email =>
  }

  lemma AssignedFieldValue(x: Extraction, candidateId: int, name: string, f: Field)
    ensures f in AssignedFields(x, candidateId, name)
    ensures AssignedFields(x, candidateId, name)[f] == FieldValue(x, candidateId, name, f)
  {
    match f
    case SoftSkills => case HardSkills => case Certifications => case PersonalQualities =>
    case Summary => case Salary => case WorkSchedule => case FieldOfActivity =>
    case _ => EarlyFieldValue(x, candidateId, name, f);
  }

  /** The assignments fill every key of the record, each with what its
      extractor found: no key keeps its initial empty value. */
  lemma SourceOrderFillsRecord(x: Extraction, candidateId: int, name: string)
    ensures AssignedFields(x, candidateId, name) == ExtractedFields(x, candidateId, name)
  {
    var m := AssignedFields(x, candidateId, name);
    var e := ExtractedFields(x, candidateId, name);
    forall f: Field
      ensures f in m && f in e && m[f] == e[f]
    {
      EveryFieldIsAKey(f);
      AssignedFieldValue(x, candidateId, name, f);
    }
    assert m.Keys == e.Keys;
  }

  /** `process_resume(resume_text, candidate_id)`, with the name found in the
      text, the name-based gender guess and today's date as parameters. */
  method ProcessResume(resumeText: string, candidateId: int, name: string, guess: NameGender, now: Date)
    returns (record: Dict)
    ensures record == ResumeRecord(resumeText, candidateId, name, guess, now)
  {
    var c := CleanText(resumeText);
    var fields := AssignEarly(c, candidateId, name, guess, now);
    fields := AssignLate(fields, c, candidateId, name, guess, now);
    var x := Extract(c, guess, now);
    CleanupGivesRecord(x, candidateId, name, fields);
    record := CleanupRecord(Dict(RecordKeys, fields));
  }

  /** The literal and the assignments of `process_resume` up to the last
      position. */
  method AssignEarly(c: string, candidateId: int, name: string, guess: NameGender, now: Date)
    returns (fields: map<Field, Value>)
    ensures fields == EarlyFields(Extract(c, guess, now), candidateId, name)
  {
    fields := InitialFields(candidateId);
    fields := fields[FullName := Str(name)];
    var phone := ExtractPhone(c);
    fields := fields[Phone := Str(phone)];
    var email := ExtractEmail(c);
    fields := fields[Email := Str(email)];
    var gender := ExtractGender(c, guess);
    fields := fields[Gender := Str(gender)];
    var years := ExtractExperienceYears(c, now);
    fields := fields[ExperienceYears := Str(years)];
    var education := ExtractEducationCategory(c);
    fields := fields[EducationCategory := Str(education)];
    var languages := ExtractLanguages(c);
    fields := fields[Languages := Str(languages)];
    var lastPosition := ExtractLastPosition(c);
    fields := fields[LastPosition := Str(lastPosition)];
  }

  /** The remaining assignments of `process_resume`, from the skills on. */
  method AssignLate(early: map<Field, Value>, c: string, candidateId: int, name: string, guess: NameGender, now: Date)
    returns (fields: map<Field, Value>)
    requires early == EarlyFields(Extract(c, guess, now), candidateId, name)
    ensures fields == AssignedFields(Extract(c, guess, now), candidateId, name)
  {
    fields := early;
    var skills := ExtractSkills(c);
    fields := fields[SoftSkills := Str(skills.soft)];
    fields := fields[HardSkills := Str(skills.hard)];
    var certifications := ExtractCertifications(c);
    fields := fields[Certifications := Str(certifications)];
    var qualities := ExtractPersonalQualities(c);
    fields := fields[PersonalQualities := Str(qualities)];
    var summary := ExtractSummary(c);
    fields := fields[Summary := Str(summary)];
    var salary := ExtractDesiredSalary(c);
    fields := fields[Salary := Str(salary)];
    var schedule := ExtractWorkSchedule(c);
    fields := fields[WorkSchedule := Str(schedule)];
    var field := ExtractFieldOfActivity(c);
    fields := fields[FieldOfActivity := Str(field)];
  }

  /** The assigned map is a valid input to the cleanup loop, and cleaning it
      gives the record. */
  lemma CleanupGivesRecord(x: Extraction, candidateId: int, name: string, fields: map<Field, Value>)
    requires fields == AssignedFields(x, candidateId, name)
    ensures Distinct(RecordKeys)
    ensures forall k :: k in fields <==> k in RecordKeys
    ensures RecordOf(x, candidateId, name) == Dict(RecordKeys, map k | k in fields :: CleanValue(fields[k]))
  {
    SourceOrderFillsRecord(x, candidateId, name);
    RecordKeysDistinct();
  }

  // ---------------------------------------------------------------------
  // Properties of the record
  // ---------------------------------------------------------------------

  /** Whatever the extractors find, the record holds exactly the seventeen
      keys, its id is the candidate id, and every other value is a trimmed,
      single-spaced string. */
  lemma RecordShape(x: Extraction, candidateId: int, name: string)
    ensures var r := RecordOf(x, candidateId, name);
      r.keys == RecordKeys
      && (forall k :: k in r.fields <==> k in RecordKeys)
      && r.fields[Id] == Num(candidateId)
      && (forall k | k in r.fields && k != Id :: r.fields[k].Str? && IsNormalized(r.fields[k].s))
  {
    var r := RecordOf(x, candidateId, name);
    forall k: Field
      ensures k in r.fields && k in RecordKeys
      ensures r.fields[k] == CleanValue(FieldValue(x, candidateId, name, k))
    {
      RecordOfField(x, candidateId, name, k);
      EveryFieldIsAKey(k);
    }
  }

  /** Because the text is cleaned first, it holds no newline, so the last
      position, whose pattern needs one, is always empty in the record built
      from what the extractors find (`x`). */
  lemma LastPositionAlwaysEmpty(resumeText: string, x: Extraction, candidateId: int, name: string)
    requires x.lastPosition == ExtractLastPosition(CleanText(resumeText))
    ensures var f := RecordOf(x, candidateId, name).fields;
      LastPosition in f && f[LastPosition] == Str("")
  {
    LastPositionOnOneLine(CleanText(resumeText));
    assert x.lastPosition == "";
    Squished("");
    CleanupKeepsNormalized(x, candidateId, name, LastPosition);
  }

  /** For the same reason a labelled section such as the languages runs from
      its header to the end of the whole cleaned text `c`. */
  lemma LanguagesRunToEnd(resumeText: string, c: string)
    requires c == CleanText(resumeText)
    requires FindHeader(c, LanguageHeaders, 0).Some?
    ensures ExtractLanguages(c) == Squish(c[BodyStart(c, LanguageHeaders, FindHeader(c, LanguageHeaders, 0).value)..])
  {
    SectionTextOnOneLine(c, LanguageHeaders);
  }

  /** A value that is already a normalised string passes the cleanup unchanged. */
  lemma CleanupKeepsNormalized(x: Extraction, candidateId: int, name: string, f: Field)
    requires FieldValue(x, candidateId, name, f).Str? && IsNormalized(FieldValue(x, candidateId, name, f).s)
    ensures f in RecordOf(x, candidateId, name).fields
    ensures RecordOf(x, candidateId, name).fields[f] == FieldValue(x, candidateId, name, f)
  {
    RecordOfField(x, candidateId, name, f);
    Squished(FieldValue(x, candidateId, name, f).s);
  }

  /** The value of key `f` in the record is the cleaned value found for it. */
  lemma RecordOfField(x: Extraction, candidateId: int, name: string, f: Field)
    ensures f in RecordOf(x, candidateId, name).fields
    ensures RecordOf(x, candidateId, name).fields[f] == CleanValue(FieldValue(x, candidateId, name, f))
  {
    EveryFieldIsAKey(f);
  }

  lemma Squished(s: string)
    requires IsNormalized(s)
    ensures Squish(s) == s
  {
    StripNormalized(s);
    CollapseSingleSpaced(s);
  }
}
