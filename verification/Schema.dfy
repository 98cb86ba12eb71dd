/** The validation schema of the resume form (src/schema/schema.ts, repeated
    verbatim in src/components/ResumeForm.tsx) as a validity predicate over
    the form's record. The validation library's e-mail and URL formats are
    not defined here: they are the two parameters in `Formats`. */
module Schema {
  import opened Wrappers
  import opened Helper
  import opened ResumeData

  /** The e-mail and URL formats the validation library checks. */
  datatype Formats = Formats(isEmail: string -> bool, isUrl: string -> bool)

  /** `string().required()`: present and not the empty string. */
  predicate Required(s: string) {
    s != ""
  }

  /** `string().email()`: the empty string is not tested. */
  predicate EmailOk(s: string, f: Formats) {
    s == "" || f.isEmail(s)
  }

  /** `string().url()`: the empty string is not tested. */
  predicate UrlOk(s: string, f: Formats) {
    s == "" || f.isUrl(s)
  }

  /** An optional URL: a missing value is not tested. */
  predicate OptionalUrlOk(o: Option<string>, f: Formats) {
    o.None? || UrlOk(o.value, f)
  }

  /** The phone character class `[0-9\-\+]`. */
  predicate IsPhoneChar(c: char) {
    IsDigit(c) || c == '-' || c == '+'
  }

  /** `string().matches(/^[0-9\-\+]+$/)`: a missing value is not tested, a
      present one (the empty string included) must match. */
  predicate PhoneOk(o: Option<string>) {
    o.None? || (o.value != "" && forall i :: 0 <= i < |o.value| ==> IsPhoneChar(o.value[i]))
  }

  predicate PersonalValid(p: Personal, f: Formats) {
    && Required(p.name)
    && Required(p.email) && EmailOk(p.email, f)
    && UrlOk(p.website.link, f)
  }

  predicate SocialsValid(s: SocialUrls, f: Formats) {
    OptionalUrlOk(s.linkedIn, f) && OptionalUrlOk(s.github, f) && OptionalUrlOk(s.twitter, f)
  }

  predicate ExperienceValid(e: Experience) {
    Required(e.title) && Required(e.company) && Required(e.startDate)
  }

  predicate EducationValid(e: Education) {
    Required(e.degree) && Required(e.institution) && Required(e.startDate)
  }

  predicate AwardValid(a: Award) {
    Required(a.title) && Required(a.date)
  }

  predicate CertificationValid(c: Certification) {
    Required(c.name) && Required(c.issuingOrganization) && Required(c.date)
  }

  predicate ProjectValid(p: Project) {
    Required(p.title)
  }

  predicate ReferenceValid(r: Reference, f: Formats) {
    && Required(r.name) && Required(r.title) && Required(r.company)
    && Required(r.email) && EmailOk(r.email, f)
    && PhoneOk(r.phone)
  }

  /** The custom "min-length" test, run on the value after `stringToArray`. */
  predicate ProgrammingLanguagesValid(v: Field) {
    |StringToArray(v)| > 0
  }

  /** `array().of(entry)`: every entry passes. */
  predicate AllValid<T>(xs: seq<T>, valid: T -> bool) {
    forall i :: 0 <= i < |xs| ==> valid(xs[i])
  }

  /** The whole schema. Keywords, spoken languages, interests, the summary,
      the headline and the location carry no test. */
  predicate Valid(r: FormResume, f: Formats) {
    && PersonalValid(r.personal, f)
    && SocialsValid(r.socials, f)
    && AllValid(r.experience, ExperienceValid)
    && AllValid(r.education, EducationValid)
    && ProgrammingLanguagesValid(r.skills.programmingLanguages)
    && AllValid(r.awards, AwardValid)
    && AllValid(r.certifications, CertificationValid)
    && AllValid(r.projects, ProjectValid)
    && AllValid(r.references, (x: Reference) => ReferenceValid(x, f))
  }

  // ---------------------------------------------------------------------
  // Properties

  /** A record without a name or without an e-mail address is rejected,
      whatever the e-mail and URL formats are. */
  lemma NameAndEmailRequired(r: FormResume, f: Formats)
    requires r.personal.name == "" || r.personal.email == ""
    ensures !Valid(r, f)
  {
  }

  /** The optional members of the record never decide validity. */
  lemma OptionalMembersIgnored(r: FormResume, f: Formats, headline: Option<string>, location: Option<string>,
                               summary: Option<string>, keywords: Field, languages: Field, interests: Field)
    ensures Valid(r, f) <==>
            Valid(r.(personal := r.personal.(headline := headline, location := location),
                     summary := summary,
                     skills := r.skills.(keywords := keywords),
                     languages := languages,
                     interests := interests), f)
  {
  }

  /** The optional members of the entries never decide validity. */
  lemma OptionalEntryMembersIgnored(e: Experience, d: Education, a: Award, p: Project,
                                    endDate: Option<string>, description: Option<string>, technologies: Field)
    ensures ExperienceValid(e) <==> ExperienceValid(e.(endDate := endDate, description := description))
    ensures EducationValid(d) <==> EducationValid(d.(endDate := endDate))
    ensures AwardValid(a) <==> AwardValid(a.(description := description))
    ensures ProjectValid(p) <==> ProjectValid(p.(description := description, technologies := technologies))
  {
  }

  /** Each required member of an entry rejects the entry when it is empty. */
  lemma RequiredEntryMembers(e: Experience, d: Education, a: Award, c: Certification, p: Project,
                             r: Reference, f: Formats)
    ensures e.title == "" || e.company == "" || e.startDate == "" ==> !ExperienceValid(e)
    ensures d.degree == "" || d.institution == "" || d.startDate == "" ==> !EducationValid(d)
    ensures a.title == "" || a.date == "" ==> !AwardValid(a)
    ensures c.name == "" || c.issuingOrganization == "" || c.date == "" ==> !CertificationValid(c)
    ensures p.title == "" ==> !ProjectValid(p)
    ensures r.name == "" || r.title == "" || r.company == "" || r.email == "" ==> !ReferenceValid(r, f)
  {
  }

  /** A list section is valid exactly when both of its parts are: an empty
      section is valid, and appending or removing entries of a valid section
      keeps it valid. */
  lemma {:induction false} AllValidAppend<T>(xs: seq<T>, ys: seq<T>, valid: T -> bool)
    ensures AllValid([], valid)
    ensures AllValid(xs + ys, valid) <==> AllValid(xs, valid) && AllValid(ys, valid)
  {
    if AllValid(xs + ys, valid) {
      forall i | 0 <= i < |xs| ensures valid(xs[i]) {
        assert xs[i] == (xs + ys)[i];
      }
      forall i | 0 <= i < |ys| ensures valid(ys[i]) {
        assert ys[i] == (xs + ys)[|xs| + i];
      }
    }
    if AllValid(xs, valid) && AllValid(ys, valid) {
      forall i | 0 <= i < |xs + ys| ensures valid((xs + ys)[i]) {
        if i < |xs| {
          assert (xs + ys)[i] == xs[i];
        } else {
          assert (xs + ys)[i] == ys[i - |xs|];
        }
      }
    }
  }

  lemma AllValidRemove<T>(xs: seq<T>, k: nat, valid: T -> bool)
    requires k < |xs| && AllValid(xs, valid)
    ensures AllValid(xs[..k] + xs[k + 1..], valid)
  {
    var ys := xs[..k] + xs[k + 1..];
    forall i | 0 <= i < |ys| ensures valid(ys[i]) {
      if i < k {
        assert ys[i] == xs[i];
      } else {
        assert ys[i] == xs[i + 1];
      }
    }
  }

  /** A present phone number is accepted exactly when it is non-empty and
      made of digits, `-` and `+`. */
  lemma PhoneExamples()
    ensures PhoneOk(None)
    ensures !PhoneOk(Some(""))
    ensures PhoneOk(Some("+1-555-0100"))
    ensures !PhoneOk(Some("555 0100"))
  {
    assert !IsPhoneChar(' ');
    assert "555 0100"[3] == ' ';
  }

  /** Typed programming languages are accepted exactly when the text holds a
      character that is neither white space nor a comma, while a list is
      accepted as soon as it has an entry. */
  lemma ProgrammingLanguagesRule(s: string, xs: seq<string>)
    ensures ProgrammingLanguagesValid(Text(s)) <==> HasContent(s)
    ensures ProgrammingLanguagesValid(Items(xs)) <==> |xs| > 0
    ensures !ProgrammingLanguagesValid(Absent)
  {
    ParseNonEmpty(s);
  }

  /** Only blanks and commas: `" , ,"` is rejected. */
  lemma BlankLanguagesRejected()
    ensures !ProgrammingLanguagesValid(Text(" , ,"))
  {
    var blank := " , ,";
    assert forall k :: 0 <= k < |blank| ==> IsSpace(blank[k]) || blank[k] == ',';
    ParseBlank(blank);
  }
}
