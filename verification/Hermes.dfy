/** The Hermes template (src/components/templates/greek/hermes.tsx): which
    sections it shows and in which of its two columns, and the small
    text rules inside the sections. */
module Hermes {
  import opened Wrappers
  import opened Helper
  import opened ResumeData

  datatype Section =
    | ExperienceSection | InterestsSection | ProjectsSection | ReferencesSection
    | SkillsSection | CertificatesSection | EducationSection | AwardsSection | LanguagesSection

  /** `xs && xs.length >= 1` for an optional list. */
  predicate Filled(xs: Option<seq<string>>) {
    xs.Some? && |xs.value| >= 1
  }

  /** The section has something to show. */
  predicate HasEntries(r: Resume, s: Section) {
    match s
    case ExperienceSection => |r.experience| >= 1
    case InterestsSection => Filled(r.interests)
    case ProjectsSection => |r.projects| >= 1
    case ReferencesSection => |r.references| >= 1
    case SkillsSection => |r.skills| >= 1
    case CertificatesSection => |r.certifications| >= 1
    case EducationSection => |r.education| >= 1
    case AwardsSection => |r.awards| >= 1
    case LanguagesSection => Filled(r.languages)
  }

  /** The fixed order of each column. */
  const LeftOrder: seq<Section> := [ExperienceSection, InterestsSection, ProjectsSection, ReferencesSection]
  const RightOrder: seq<Section> :=
    [SkillsSection, CertificatesSection, EducationSection, ProjectsSection, AwardsSection,
     LanguagesSection, ReferencesSection]

  /** The placement rule of the left column: experience and interests when
      they have entries; projects and references when they have entries and
      there are fewer than three experience entries. */
  predicate InLeft(r: Resume, s: Section) {
    match s
    case ExperienceSection => |r.experience| >= 1
    case InterestsSection => Filled(r.interests)
    case ProjectsSection => |r.experience| < 3 && |r.projects| >= 1
    case ReferencesSection => |r.experience| < 3 && |r.references| >= 1
    case _ => false
  }

  /** The placement rule of the right column: skills, certificates,
      education, awards and languages when they have entries; projects and
      references when they have entries and there are three experience
      entries or more. */
  predicate InRight(r: Resume, s: Section) {
    match s
    case SkillsSection => |r.skills| >= 1
    case CertificatesSection => |r.certifications| >= 1
    case EducationSection => |r.education| >= 1
    case ProjectsSection => |r.experience| > 2 && |r.projects| >= 1
    case AwardsSection => |r.awards| >= 1
    case LanguagesSection => Filled(r.languages)
    case ReferencesSection => |r.experience| > 2 && |r.references| >= 1
    case _ => false
  }

  predicate InColumn(r: Resume, s: Section, left: bool) {
    if left then InLeft(r, s) else InRight(r, s)
  }

  /** The sections of `order` that the rule places in the column, in the
      order of `order`. */
  function Placed(r: Resume, order: seq<Section>, left: bool): seq<Section> {
    if order == [] then []
    else (if InColumn(r, order[0], left) then [order[0]] else []) + Placed(r, order[1..], left)
  }

  function When(c: bool, s: Section): seq<Section> {
    if c then [s] else []
  }

  /** The left column of the template, top to bottom. */
  function LeftColumn(r: Resume): seq<Section> {
    When(|r.experience| >= 1, ExperienceSection)
    + When(Filled(r.interests), InterestsSection)
    + (if |r.experience| < 3 then
         When(|r.projects| >= 1, ProjectsSection) + When(|r.references| >= 1, ReferencesSection)
       else [])
  }

  /** The right column of the template, top to bottom. */
  function RightColumn(r: Resume): seq<Section> {
    When(|r.skills| >= 1, SkillsSection)
    + (When(|r.certifications| >= 1, CertificatesSection)
    + (When(|r.education| >= 1, EducationSection)
    + ((if |r.experience| > 2 then When(|r.projects| >= 1, ProjectsSection) else [])
    + (When(|r.awards| >= 1, AwardsSection)
    + (When(Filled(r.languages), LanguagesSection)
    + (if |r.experience| > 2 then When(|r.references| >= 1, ReferencesSection) else []))))))
  }

  lemma PlacedCons(r: Resume, s: Section, rest: seq<Section>, left: bool)
    ensures Placed(r, [s] + rest, left) == When(InColumn(r, s, left), s) + Placed(r, rest, left)
  {
    assert ([s] + rest)[1..] == rest;
  }

  /** The sections the placement rule puts in the left column from the
      projects slot on, in order. */
  lemma LeftColumnTail(r: Resume)
    ensures Placed(r, LeftOrder[2..], true)
         == (if |r.experience| < 3 then
               When(|r.projects| >= 1, ProjectsSection) + When(|r.references| >= 1, ReferencesSection)
             else [])
  {
    var t3 := [ReferencesSection];
    assert LeftOrder[2..] == [ProjectsSection] + t3;
    assert t3 == [ReferencesSection] + [];
    PlacedCons(r, ReferencesSection, [], true);
    PlacedCons(r, ProjectsSection, t3, true);
  }

  /** The left column is its fixed order cut down to the sections the
      placement rule puts there. */
  lemma LeftColumnSpec(r: Resume)
    ensures LeftColumn(r) == Placed(r, LeftOrder, true)
  {
    var t2 := LeftOrder[2..];
    var t1 := [InterestsSection] + t2;
    assert LeftOrder == [ExperienceSection] + t1;
    LeftColumnTail(r);
    PlacedCons(r, InterestsSection, t2, true);
    PlacedCons(r, ExperienceSection, t1, true);
    var e, i, p := When(|r.experience| >= 1, ExperienceSection),
                   When(Filled(r.interests), InterestsSection), Placed(r, t2, true);
    assert e + (i + p) == e + i + p;
  }

  /** The sections the placement rule puts in the right column from the
      projects slot on, in order. */
  lemma RightColumnTail(r: Resume)
    ensures Placed(r, RightOrder[3..], false)
         == (if |r.experience| > 2 then When(|r.projects| >= 1, ProjectsSection) else [])
            + (When(|r.awards| >= 1, AwardsSection)
            + (When(Filled(r.languages), LanguagesSection)
            + (if |r.experience| > 2 then When(|r.references| >= 1, ReferencesSection) else [])))
  {
    var t6 := [ReferencesSection];
    var t5 := [LanguagesSection] + t6;
    var t4 := [AwardsSection] + t5;
    assert RightOrder[3..] == [ProjectsSection] + t4;
    assert t6 == [ReferencesSection] + [];
    PlacedCons(r, ReferencesSection, [], false);
    PlacedCons(r, LanguagesSection, t6, false);
    PlacedCons(r, AwardsSection, t5, false);
    PlacedCons(r, ProjectsSection, t4, false);
  }

  /** The right column is its fixed order cut down to the sections the
      placement rule puts there. */
  lemma RightColumnSpec(r: Resume)
    ensures RightColumn(r) == Placed(r, RightOrder, false)
  {
    var t3 := RightOrder[3..];
    var t2 := [EducationSection] + t3;
    var t1 := [CertificatesSection] + t2;
    assert RightOrder == [SkillsSection] + t1;
    RightColumnTail(r);
    PlacedCons(r, EducationSection, t3, false);
    PlacedCons(r, CertificatesSection, t2, false);
    PlacedCons(r, SkillsSection, t1, false);
  }

  /** A section is in what `Placed` gives exactly when it is in the order
      and the rule places it. */
  lemma {:induction false} PlacedMembers(r: Resume, order: seq<Section>, left: bool, s: Section)
    ensures s in Placed(r, order, left) <==> s in order && InColumn(r, s, left)
    decreases |order|
  {
    if order != [] {
      PlacedMembers(r, order[1..], left, s);
      assert order == [order[0]] + order[1..];
    }
  }

  /** No section twice. */
  predicate Distinct(xs: seq<Section>) {
    forall i, j :: 0 <= i < j < |xs| ==> xs[i] != xs[j]
  }

  /** Cutting down an order keeps its sections distinct. */
  lemma {:induction false} PlacedDistinct(r: Resume, order: seq<Section>, left: bool)
    requires Distinct(order)
    ensures Distinct(Placed(r, order, left))
    decreases |order|
  {
    if order != [] {
      PlacedDistinct(r, order[1..], left);
      var rest := Placed(r, order[1..], left);
      var p := Placed(r, order, left);
      if InColumn(r, order[0], left) {
        PlacedMembers(r, order[1..], left, order[0]);
        assert order[0] !in order[1..] by {
          forall k | 0 <= k < |order[1..]| ensures order[1..][k] != order[0] {
            assert order[1..][k] == order[k + 1];
          }
        }
        forall i, j | 0 <= i < j < |p| ensures p[i] != p[j] {
          assert p[j] == rest[j - 1];
          if i > 0 {
            assert p[i] == rest[i - 1];
          } else {
            assert rest[j - 1] in rest;
          }
        }
      } else {
        assert p == rest;
      }
    }
  }

  /** Each column shows exactly the sections its rule places there, in the
      column's fixed order, each once. */
  lemma Columns(r: Resume)
    ensures forall s :: s in LeftColumn(r) <==> InLeft(r, s)
    ensures forall s :: s in RightColumn(r) <==> InRight(r, s)
    ensures Distinct(LeftColumn(r)) && Distinct(RightColumn(r))
  {
    LeftColumnSpec(r);
    RightColumnSpec(r);
    forall s ensures s in LeftColumn(r) <==> InLeft(r, s) {
      PlacedMembers(r, LeftOrder, true, s);
    }
    forall s ensures s in RightColumn(r) <==> InRight(r, s) {
      PlacedMembers(r, RightOrder, false, s);
    }
    OrdersDistinct();
    PlacedDistinct(r, LeftOrder, true);
    PlacedDistinct(r, RightOrder, false);
  }

  lemma OrdersDistinct()
    ensures Distinct(LeftOrder) && Distinct(RightOrder)
  {
  }

  /** The two columns together show every section that has entries exactly
      once, and nothing else. */
  lemma LayoutPartition(r: Resume, s: Section)
    ensures !(s in LeftColumn(r) && s in RightColumn(r))
    ensures s in LeftColumn(r) || s in RightColumn(r) <==> HasEntries(r, s)
  {
    Columns(r);
  }

  /** Projects and references move between the columns on the number of
      experience entries. */
  lemma MovingSections(r: Resume)
    ensures ProjectsSection in LeftColumn(r) <==> |r.projects| >= 1 && |r.experience| < 3
    ensures ProjectsSection in RightColumn(r) <==> |r.projects| >= 1 && |r.experience| > 2
    ensures ReferencesSection in LeftColumn(r) <==> |r.references| >= 1 && |r.experience| < 3
    ensures ReferencesSection in RightColumn(r) <==> |r.references| >= 1 && |r.experience| > 2
  {
    Columns(r);
  }

  // ---------------------------------------------------------------------
  // Text inside the sections

  /** `start - end` of an experience or education entry, each date through
      `parseMonthYear` (whose locale part is `render`); a missing or empty
      end date reads "Present". */
  function DateRange(start: string, end: Option<string>, render: string -> Option<string>): (t: string)
    ensures end.None? || end == Some("") ==> t == ParseMonthYear(start, render) + " - Present"
    ensures end.None? || end == Some("") ==> EndsWith(t, " - Present")
    ensures end.Some? && end.value != "" ==>
              t == ParseMonthYear(start, render) + " - " + ParseMonthYear(end.value, render)
  {
    var shown := if end.Some? && end.value != "" then ParseMonthYear(end.value, render) else "Present";
    var t := ParseMonthYear(start, render) + " - " + shown;
    assert t[|t| - |" - Present"|..] == " - Present" <== shown == "Present";
    t
  }

  /** The paragraphs of an experience description: one per line, in order,
      none holding a line break; no description shows none. */
  function DescriptionLines(description: Option<string>): (lines: seq<string>)
    ensures description.None? ==> lines == []
    ensures description.Some? ==>
              |lines| >= 1 && Join(lines, '\n') == description.value
              && forall i :: 0 <= i < |lines| ==> '\n' !in lines[i]
  {
    match description
    case None => []
    case Some(d) => Split(d, '\n')
  }

  /** The tags of the skills section: the keywords of every category, one
      category after the other. */
  function SkillTags(skills: seq<SkillCategory>): seq<string> {
    if skills == [] then [] else skills[0].keywords + SkillTags(skills[1..])
  }

  /** The skill tags of two runs of categories are those of the first run
      followed by those of the second, and one category shows its own
      keywords: together these fix the tags and their order. */
  lemma {:induction false} SkillTagsAppend(a: seq<SkillCategory>, b: seq<SkillCategory>)
    ensures SkillTags(a + b) == SkillTags(a) + SkillTags(b)
    ensures |a| == 1 ==> SkillTags(a) == a[0].keywords
    decreases |a|
  {
    if a != [] {
      var k, x, y := a[0].keywords, SkillTags(a[1..]), SkillTags(b);
      assert SkillTags(a + b) == k + SkillTags(a[1..] + b) by {
        assert (a + b)[0] == a[0];
        assert (a + b)[1..] == a[1..] + b;
      }
      assert SkillTags(a[1..] + b) == x + y by {
        SkillTagsAppend(a[1..], b);
      }
      assert k + (x + y) == (k + x) + y;
      if |a| == 1 {
        assert x == [] && k + x == k;
      }
    } else {
      assert a + b == b;
    }
  }

  /** The contact line of a reference: the e-mail address and the phone
      number, "-" in place of either when it is missing or empty. */
  datatype Contact = Contact(email: string, phone: string)

  function ReferenceContact(ref: Reference): (c: Contact)
    ensures c.email != "" && c.phone != ""
    ensures ref.email != "" ==> c.email == ref.email
    ensures ref.email == "" ==> c.email == "-"
    ensures ref.phone.Some? && ref.phone.value != "" ==> c.phone == ref.phone.value
    ensures ref.phone.None? || ref.phone == Some("") ==> c.phone == "-"
  {
    Contact(if ref.email != "" then ref.email else "-",
            if ref.phone.Some? && ref.phone.value != "" then ref.phone.value else "-")
  }
}
