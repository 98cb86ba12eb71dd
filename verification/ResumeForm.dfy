/** The resume form (src/components/ResumeForm.tsx): its default values, the
    blank entries its "Add" buttons append to the list sections, the removal
    of an entry, and the normalisation `handleSubmitForm` applies before
    handing the record on. */
module ResumeForm {
  import opened Wrappers
  import opened Helper
  import opened ResumeData
  import opened Schema

  /** The form's `defaultValues`: every string empty, every list empty. */
  function DefaultValues(): (r: FormResume)
    ensures r.personal.name == "" && r.personal.email == ""
    ensures r.personal.headline == Some("") && r.personal.location == Some("")
    ensures r.personal.website == Website("", "")
    ensures r.socials == SocialUrls(Some(""), Some(""), Some(""))
    ensures r.summary == Some("")
    ensures r.skills == FormSkills(Items([]), Items([]))
    ensures r.languages == Items([]) && r.interests == Items([])
    ensures r.experience == [] && r.education == [] && r.awards == [] && r.certifications == []
    ensures r.projects == [] && r.references == []
    ensures StringToArray(r.skills.programmingLanguages) == []
  {
    FormResume(
      Personal("", Some(""), "", Website("", ""), Some("")),
      SocialUrls(Some(""), Some(""), Some("")),
      Some(""),
      [], [],
      FormSkills(Items([]), Items([])),
      Items([]),
      [], [],
      Items([]),
      [], [])
  }

  // The entries the "Add" buttons append.

  const BlankExperience: Experience := Experience("", "", "", Some(""), Some(""))
  const BlankEducation: Education := Education("", "", "", Some(""))
  const BlankProject: Project := Project("", Some(""), Items([]))
  const BlankAward: Award := Award("", "", Some(""))
  const BlankCertification: Certification := Certification("", "", "")
  const BlankReference: Reference := Reference("", "", "", "", Some(""))

  /** The default values are rejected: the name is empty and no programming
      language is given. */
  lemma DefaultValuesInvalid(f: Formats)
    ensures !PersonalValid(DefaultValues().personal, f)
    ensures !ProgrammingLanguagesValid(DefaultValues().skills.programmingLanguages)
    ensures !Valid(DefaultValues(), f)
  {
  }

  /** Every blank entry fails its section's required checks, so a record
      holding one is rejected until the entry is filled in. */
  lemma BlankEntriesInvalid(f: Formats)
    ensures !ExperienceValid(BlankExperience)
    ensures !EducationValid(BlankEducation)
    ensures !ProjectValid(BlankProject)
    ensures !AwardValid(BlankAward)
    ensures !CertificationValid(BlankCertification)
    ensures !ReferenceValid(BlankReference, f)
    ensures !PhoneOk(BlankReference.phone)
  {
  }

  /** A blank entry at the end of a section makes the section invalid. */
  lemma BlankAtEndInvalid<T>(xs: seq<T>, blank: T, valid: T -> bool)
    requires !valid(blank)
    ensures !AllValid(xs + [blank], valid)
  {
    assert (xs + [blank])[|xs|] == blank;
  }

  // ---------------------------------------------------------------------
  // Submission

  /** One project as `handleSubmitForm` rewrites it: typed technologies are
      split at commas, trimmed and the empty ones dropped, a list is kept and
      a missing value becomes the empty list. */
  function ProcessProject(p: Project): (q: Project)
    ensures q.title == p.title && q.description == p.description
    ensures q.technologies == Items(StringToArray(p.technologies))
    ensures q.technologies.Items?
    ensures p.technologies.Items? ==> q.technologies == p.technologies
    ensures p.technologies.Absent? ==> q.technologies == Items([])
    ensures p.technologies.Text? ==>
              forall i :: 0 <= i < |q.technologies.xs| ==> IsItem(q.technologies.xs[i])
  {
    p.(technologies := Items(StringToArray(p.technologies)))
  }

  /** `handleSubmitForm`: only the projects change, each in place, and the
      technologies of each are those `stringToArray` gives. */
  function HandleSubmitForm(data: FormResume): (r: FormResume)
    ensures r == data.(projects := r.projects)
    ensures |r.projects| == |data.projects|
    ensures forall i :: 0 <= i < |r.projects| ==>
              && r.projects[i].title == data.projects[i].title
              && r.projects[i].description == data.projects[i].description
              && r.projects[i].technologies == Items(StringToArray(data.projects[i].technologies))
  {
    data.(projects := seq(|data.projects|, i requires 0 <= i < |data.projects| => ProcessProject(data.projects[i])))
  }

  /** Submitting an already submitted record changes nothing. */
  lemma SubmitIdempotent(data: FormResume)
    ensures HandleSubmitForm(HandleSubmitForm(data)) == HandleSubmitForm(data)
  {
    var once := HandleSubmitForm(data);
    var twice := HandleSubmitForm(once);
    assert twice.projects == once.projects;
  }

  /** The normalisation neither makes a record valid nor invalid. */
  lemma SubmitKeepsValidity(data: FormResume, f: Formats)
    ensures Valid(HandleSubmitForm(data), f) <==> Valid(data, f)
  {
    var r := HandleSubmitForm(data);
    assert AllValid(r.projects, ProjectValid) <==> AllValid(data.projects, ProjectValid) by {
      assert forall i :: 0 <= i < |r.projects| ==> (ProjectValid(r.projects[i]) <==> ProjectValid(data.projects[i]));
    }
  }

  // ---------------------------------------------------------------------
  // The schema's cast

  /** What `mixed().transform(stringToArray)` makes of a value when the
      schema casts it: a missing value is left missing (the transform is
      not run on it), anything else becomes the list it parses to. */
  function CastField(v: Field): (w: Field)
    ensures w.Absent? <==> v.Absent?
    ensures !w.Text?
    ensures StringToArray(w) == StringToArray(v)
  {
    if v.Absent? then Absent else Items(StringToArray(v))
  }

  /** The record the schema hands on after validating it: programming
      languages, keywords, spoken languages, interests and each project's
      technologies are cast, everything else is kept. */
  function Cast(data: FormResume): (r: FormResume)
    ensures r.skills == FormSkills(CastField(data.skills.programmingLanguages), CastField(data.skills.keywords))
    ensures r.languages == CastField(data.languages) && r.interests == CastField(data.interests)
    ensures |r.projects| == |data.projects|
    ensures forall i :: 0 <= i < |r.projects| ==>
              r.projects[i] == data.projects[i].(technologies := CastField(data.projects[i].technologies))
    ensures r == data.(skills := r.skills, languages := r.languages, interests := r.interests,
                       projects := r.projects)
  {
    data.(skills := FormSkills(CastField(data.skills.programmingLanguages), CastField(data.skills.keywords)),
          languages := CastField(data.languages),
          interests := CastField(data.interests),
          projects := seq(|data.projects|, i requires 0 <= i < |data.projects| =>
                        data.projects[i].(technologies := CastField(data.projects[i].technologies))))
  }

  /** Casting changes no verdict of the schema. */
  lemma CastKeepsValidity(data: FormResume, f: Formats)
    ensures Valid(Cast(data), f) <==> Valid(data, f)
  {
    var r := Cast(data);
    CastKeepsChecked(data);
    assert ProgrammingLanguagesValid(r.skills.programmingLanguages)
        == ProgrammingLanguagesValid(data.skills.programmingLanguages);
    assert AllValid(r.projects, ProjectValid) == AllValid(data.projects, ProjectValid) by {
      assert forall i :: 0 <= i < |r.projects| ==> ProjectValid(r.projects[i]) == ProjectValid(data.projects[i]);
    }
  }

  /** What the schema checks is the same before and after the cast. */
  lemma CastKeepsChecked(data: FormResume)
    ensures var r := Cast(data);
            && r.personal == data.personal && r.socials == data.socials
            && r.experience == data.experience && r.education == data.education
            && r.awards == data.awards && r.certifications == data.certifications
            && r.references == data.references
            && StringToArray(r.skills.programmingLanguages) == StringToArray(data.skills.programmingLanguages)
            && |r.projects| == |data.projects|
            && forall i :: 0 <= i < |r.projects| ==> r.projects[i].title == data.projects[i].title
  {
  }

  /** Casting a cast record changes nothing. */
  lemma CastIdempotent(data: FormResume)
    ensures Cast(Cast(data)) == Cast(data)
  {
    var once := Cast(data);
    var twice := Cast(once);
    assert twice.projects == once.projects;
  }

  /** The cast does not change the technologies `handleSubmitForm` produces:
      submitting the cast record gives what submitting the raw one would. */
  lemma SubmitOfCast(data: FormResume)
    ensures HandleSubmitForm(Cast(data)).projects == HandleSubmitForm(data).projects
  {
    var a := HandleSubmitForm(Cast(data)).projects;
    var b := HandleSubmitForm(data).projects;
    assert |a| == |b|;
    forall i | 0 <= i < |a| ensures a[i] == b[i] {
      var p, q := Cast(data).projects[i], data.projects[i];
      assert p == q.(technologies := CastField(q.technologies));
      assert a[i] == ProcessProject(p) && b[i] == ProcessProject(q);
      assert StringToArray(p.technologies) == StringToArray(q.technologies);
    }
  }

  // ---------------------------------------------------------------------
  // The form's state

  /** The values the form holds while it is edited. */
  class ResumeFormState {
    var values: FormResume

    constructor ()
      ensures values == DefaultValues()
    {
      values := DefaultValues();
    }

    /** What `handleSubmit(handleSubmitForm)` hands on: when the values pass
        the schema, the schema's cast of them normalised by
        `handleSubmitForm`; nothing otherwise. */
    method Submit(f: Formats) returns (out: Option<FormResume>)
      ensures out == if Valid(values, f) then Some(HandleSubmitForm(Cast(values))) else None
      ensures out.Some? ==> Valid(out.value, f) && out.value.experience == values.experience
      ensures out.Some? ==> !out.value.languages.Text? && !out.value.interests.Text?
      ensures out.Some? ==> (values.languages.Absent? || out.value.languages.Items?)
      ensures out.Some? ==> (values.interests.Absent? || out.value.interests.Items?)
      ensures out.Some? ==> forall i :: 0 <= i < |out.value.projects| ==> out.value.projects[i].technologies.Items?
    {
      if Valid(values, f) {
        CastKeepsValidity(values, f);
        SubmitKeepsValidity(Cast(values), f);
        out := Some(HandleSubmitForm(Cast(values)));
      } else {
        out := None;
      }
    }

    method AppendExperience()
      modifies this
      ensures values == old(values).(experience := old(values).experience + [BlankExperience])
      ensures forall f :: !Valid(values, f)
    {
      values := values.(experience := values.experience + [BlankExperience]);
      BlankAtEndInvalid(old(values).experience, BlankExperience, ExperienceValid);
    }

    method AppendEducation()
      modifies this
      ensures values == old(values).(education := old(values).education + [BlankEducation])
      ensures forall f :: !Valid(values, f)
    {
      values := values.(education := values.education + [BlankEducation]);
      BlankAtEndInvalid(old(values).education, BlankEducation, EducationValid);
    }

    method AppendProject()
      modifies this
      ensures values == old(values).(projects := old(values).projects + [BlankProject])
      ensures forall f :: !Valid(values, f)
    {
      values := values.(projects := values.projects + [BlankProject]);
      BlankAtEndInvalid(old(values).projects, BlankProject, ProjectValid);
    }

    method AppendAward()
      modifies this
      ensures values == old(values).(awards := old(values).awards + [BlankAward])
      ensures forall f :: !Valid(values, f)
    {
      values := values.(awards := values.awards + [BlankAward]);
      BlankAtEndInvalid(old(values).awards, BlankAward, AwardValid);
    }

    method AppendCertification()
      modifies this
      ensures values == old(values).(certifications := old(values).certifications + [BlankCertification])
      ensures forall f :: !Valid(values, f)
    {
      values := values.(certifications := values.certifications + [BlankCertification]);
      BlankAtEndInvalid(old(values).certifications, BlankCertification, CertificationValid);
    }

    method AppendReference()
      modifies this
      ensures values == old(values).(references := old(values).references + [BlankReference])
      ensures forall f :: !Valid(values, f)
    {
      values := values.(references := values.references + [BlankReference]);
      forall f: Formats ensures !Valid(values, f) {
        BlankAtEndInvalid(old(values).references, BlankReference, (x: Reference) => ReferenceValid(x, f));
      }
    }

    method RemoveExperience(k: nat)
      requires k < |values.experience|
      modifies this
      ensures values == old(values).(experience := old(values).experience[..k] + old(values).experience[k + 1..])
      ensures forall f :: Valid(old(values), f) ==> Valid(values, f)
    {
      if AllValid(values.experience, ExperienceValid) {
        AllValidRemove(values.experience, k, ExperienceValid);
      }
      values := values.(experience := values.experience[..k] + values.experience[k + 1..]);
    }

    method RemoveEducation(k: nat)
      requires k < |values.education|
      modifies this
      ensures values == old(values).(education := old(values).education[..k] + old(values).education[k + 1..])
      ensures forall f :: Valid(old(values), f) ==> Valid(values, f)
    {
      if AllValid(values.education, EducationValid) {
        AllValidRemove(values.education, k, EducationValid);
      }
      values := values.(education := values.education[..k] + values.education[k + 1..]);
    }

    method RemoveProject(k: nat)
      requires k < |values.projects|
      modifies this
      ensures values == old(values).(projects := old(values).projects[..k] + old(values).projects[k + 1..])
      ensures forall f :: Valid(old(values), f) ==> Valid(values, f)
    {
      if AllValid(values.projects, ProjectValid) {
        AllValidRemove(values.projects, k, ProjectValid);
      }
      values := values.(projects := values.projects[..k] + values.projects[k + 1..]);
    }

    method RemoveAward(k: nat)
      requires k < |values.awards|
      modifies this
      ensures values == old(values).(awards := old(values).awards[..k] + old(values).awards[k + 1..])
      ensures forall f :: Valid(old(values), f) ==> Valid(values, f)
    {
      if AllValid(values.awards, AwardValid) {
        AllValidRemove(values.awards, k, AwardValid);
      }
      values := values.(awards := values.awards[..k] + values.awards[k + 1..]);
    }

    method RemoveCertification(k: nat)
      requires k < |values.certifications|
      modifies this
      ensures values == old(values).(certifications := old(values).certifications[..k] + old(values).certifications[k + 1..])
      ensures forall f :: Valid(old(values), f) ==> Valid(values, f)
    {
      if AllValid(values.certifications, CertificationValid) {
        AllValidRemove(values.certifications, k, CertificationValid);
      }
      values := values.(certifications := values.certifications[..k] + values.certifications[k + 1..]);
    }

    method RemoveReference(k: nat)
      requires k < |values.references|
      modifies this
      ensures values == old(values).(references := old(values).references[..k] + old(values).references[k + 1..])
      ensures forall f :: Valid(old(values), f) ==> Valid(values, f)
    {
      forall f: Formats | Valid(values, f)
        ensures AllValid(values.references[..k] + values.references[k + 1..], (x: Reference) => ReferenceValid(x, f))
      {
        AllValidRemove(values.references, k, (x: Reference) => ReferenceValid(x, f));
      }
      values := values.(references := values.references[..k] + values.references[k + 1..]);
    }
  }
}
