/** The resume record in its two shapes. The form (src/components/ResumeForm.tsx)
    keeps social links as three named URLs, skills as two comma lists, and
    spoken languages, interests and project technologies as whatever the text
    inputs hold; the shared interface (src/types/interface.resume-form-data.ts),
    which the templates read, keeps social links and skill categories as lists.
    The entries of the list sections are the same in both. Optional members of
    the source's types are `Option`s. */
module ResumeData {
  import opened Wrappers
  import opened Helper

  datatype Website = Website(name: string, link: string)

  datatype Personal = Personal(
    name: string,
    headline: Option<string>,
    email: string,
    website: Website,
    location: Option<string>)

  datatype Experience = Experience(
    title: string,
    company: string,
    startDate: string,
    endDate: Option<string>,
    description: Option<string>)

  datatype Education = Education(
    degree: string,
    institution: string,
    startDate: string,
    endDate: Option<string>)

  datatype Award = Award(title: string, date: string, description: Option<string>)

  datatype Certification = Certification(name: string, issuingOrganization: string, date: string)

  /** `technologies` is whatever the form input holds until submission
      turns it into a list. */
  datatype Project = Project(title: string, description: Option<string>, technologies: Field)

  /** `phone` may be missing from a stored record; the schema only checks it
      when it is there. */
  datatype Reference = Reference(
    name: string,
    title: string,
    company: string,
    email: string,
    phone: Option<string>)

  // The form's shape.

  datatype SocialUrls = SocialUrls(linkedIn: Option<string>, github: Option<string>, twitter: Option<string>)

  datatype FormSkills = FormSkills(programmingLanguages: Field, keywords: Field)

  datatype FormResume = FormResume(
    personal: Personal,
    socials: SocialUrls,
    summary: Option<string>,
    experience: seq<Experience>,
    education: seq<Education>,
    skills: FormSkills,
    languages: Field,
    awards: seq<Award>,
    certifications: seq<Certification>,
    interests: Field,
    projects: seq<Project>,
    references: seq<Reference>)

  // The shape the templates render.

  datatype Social = Social(name: string, link: string, slug: string)

  datatype SkillCategory = SkillCategory(name: string, keywords: seq<string>)

  datatype Resume = Resume(
    personal: Personal,
    socials: seq<Social>,
    summary: Option<string>,
    experience: seq<Experience>,
    education: seq<Education>,
    skills: seq<SkillCategory>,
    languages: Option<seq<string>>,
    awards: seq<Award>,
    certifications: seq<Certification>,
    interests: Option<seq<string>>,
    projects: seq<Project>,
    references: seq<Reference>)
}
