/** The preview page (src/pages/Preview.tsx): which template it renders,
    the name of the exported file, and the record it starts from. */
module Preview {
  import opened Wrappers
  import opened Helper
  import opened ResumeData
  import Hermes

  /** The template ids the page accepts. */
  const ValidTemplates: seq<string> :=
    ["cigar", "andromeda", "comet", "milky_way", "zeus", "athena", "apollo", "artemis"]

  const DefaultTemplate: string := "cigar"

  /** `localStorage.getItem("template") || 'cigar'`: a missing or empty
      stored value falls back to the default id. */
  function TemplateParam(stored: Option<string>): (id: string)
    ensures id != ""
    ensures stored.Some? && stored.value != "" ==> id == stored.value
    ensures stored.None? || stored == Some("") ==> id == DefaultTemplate
  {
    if stored.Some? && stored.value != "" then stored.value else DefaultTemplate
  }

  /** The template the page uses: the stored id when it is one of the
      accepted ids, the default when nothing is stored, and none otherwise. */
  function SelectedTemplate(stored: Option<string>): (t: Option<string>)
    ensures t.Some? ==> t.value in ValidTemplates
    ensures stored.None? || stored == Some("") ==> t == Some(DefaultTemplate)
    ensures forall s :: stored == Some(s) && s != "" ==> (t == Some(s) <==> s in ValidTemplates)
    ensures forall s :: stored == Some(s) && s != "" ==> (t.None? <==> s !in ValidTemplates)
  {
    var p := TemplateParam(stored);
    if p in ValidTemplates then Some(p) else None
  }

  // ---------------------------------------------------------------------
  // The export file name

  /** `toLowerCase` on the ASCII letters: an upper-case letter becomes its
      lower-case letter, every other character is kept. */
  function LowerChar(c: char): (d: char)
    ensures 'A' <= c <= 'Z' ==> 'a' <= d <= 'z' && d as int == c as int + 32
    ensures !('A' <= c <= 'Z') ==> d == c
    ensures IsSpace(d) <==> IsSpace(c)
    ensures !('A' <= d <= 'Z')
  {
    if 'A' <= c <= 'Z' then (c as int - 'A' as int + 'a' as int) as char else c
  }

  function Lower(s: string): (t: string)
    ensures |t| == |s|
    ensures forall i :: 0 <= i < |s| ==> t[i] == LowerChar(s[i])
  {
    if s == [] then [] else [LowerChar(s[0])] + Lower(s[1..])
  }

  /** What one character contributes to `replace(/\s+/g, '-')`: white space
      that starts a run becomes `-`, white space inside a run (`inRun`)
      is dropped, and any other character is copied. */
  function Emit(c: char, inRun: bool): string {
    if !IsSpace(c) then [c] else if inRun then [] else "-"
  }

  /** `replace(/\s+/g, '-')`, scanning left to right. */
  function Collapse(s: string, inRun: bool): string
  {
    if s == [] then [] else Emit(s[0], inRun) + Collapse(s[1..], IsSpace(s[0]))
  }

  function DashRuns(s: string): string {
    Collapse(s, false)
  }

  const ExportSuffix: string := "-resume.pdf"

  /** The name of the exported PDF: the lower-cased name with every
      white-space run made one `-`, then `-resume.pdf`. */
  function ExportFileName(name: string): (f: string)
    ensures f == DashRuns(Lower(name)) + ExportSuffix
    ensures EndsWith(f, ExportSuffix)
    ensures forall i :: 0 <= i < |f| ==> !IsSpace(f[i])
  {
    var stem := DashRuns(Lower(name));
    CollapseNoSpace(Lower(name), false);
    SuffixNoSpace();
    var f := stem + ExportSuffix;
    assert f[|stem|..] == ExportSuffix;
    assert forall i :: |stem| <= i < |f| ==> f[i] == ExportSuffix[i - |stem|];
    f
  }

  lemma SuffixNoSpace()
    ensures forall i :: 0 <= i < |ExportSuffix| ==> !IsSpace(ExportSuffix[i])
  {
  }

  /** No white space survives. */
  lemma {:induction false} CollapseNoSpace(s: string, inRun: bool)
    ensures forall i :: 0 <= i < |Collapse(s, inRun)| ==> !IsSpace(Collapse(s, inRun)[i])
  {
    if s != [] {
      CollapseNoSpace(s[1..], IsSpace(s[0]));
    }
  }

  /** Text without white space is left as it is. */
  lemma {:induction false} DashRunsOfPlain(s: string)
    requires forall i :: 0 <= i < |s| ==> !IsSpace(s[i])
    ensures DashRuns(s) == s
  {
    if s != [] {
      DashRunsOfPlain(s[1..]);
      assert [s[0]] + s[1..] == s;
    }
  }

  /** Scanning a concatenation scans the second part in the state the
      first part ends in. */
  lemma {:induction false} CollapseAppend(a: string, y: string, inRun: bool)
    requires a != []
    ensures Collapse(a + y, inRun) == Collapse(a, inRun) + Collapse(y, IsSpace(a[|a| - 1]))
  {
    var c, t := a[0], a[1..];
    var e := Emit(c, inRun);
    assert Collapse(a + y, inRun) == e + Collapse(t + y, IsSpace(c)) by {
      assert a + y == [c] + (t + y);
      CollapseCons(c, t + y, inRun);
    }
    assert Collapse(a, inRun) == e + Collapse(t, IsSpace(c)) by {
      assert a == [c] + t;
      CollapseCons(c, t, inRun);
    }
    if t == [] {
      assert t + y == y;
    } else {
      var x, z := Collapse(t, IsSpace(c)), Collapse(y, IsSpace(a[|a| - 1]));
      assert Collapse(t + y, IsSpace(c)) == x + z by {
        CollapseAppend(t, y, IsSpace(c));
        assert t[|t| - 1] == a[|a| - 1];
      }
      assert e + (x + z) == (e + x) + z;
    }
  }

  lemma CollapseCons(c: char, t: string, inRun: bool)
    ensures Collapse([c] + t, inRun) == Emit(c, inRun) + Collapse(t, IsSpace(c))
  {
    assert ([c] + t)[0] == c;
    assert ([c] + t)[1..] == t;
  }

  /** A whole run of white space before content yields at most one `-`. */
  lemma {:induction false} CollapseRun(w: string, b: string, inRun: bool)
    requires AllSpace(w) && w != []
    requires b == [] || !IsSpace(b[0])
    ensures Collapse(w + b, inRun) == (if inRun then [] else "-") + Collapse(b, false)
  {
    assert (w + b)[0] == w[0];
    assert (w + b)[1..] == w[1..] + b;
    if w[1..] == [] {
      assert w[1..] + b == b;
    } else {
      CollapseRun(w[1..], b, true);
    }
  }

  /** A run of white space between a piece that does not end in white space
      and one that does not start with it becomes exactly one `-`. With
      `DashRunsOfPlain` this fixes the result for every input. */
  lemma {:induction false} DashRunsJoin(a: string, w: string, b: string)
    requires a == [] || !IsSpace(a[|a| - 1])
    requires AllSpace(w) && w != []
    requires b == [] || !IsSpace(b[0])
    ensures DashRuns(a + w + b) == DashRuns(a) + "-" + DashRuns(b)
  {
    assert Collapse(w + b, false) == "-" + Collapse(b, false) by {
      CollapseRun(w, b, false);
    }
    if a == [] {
      assert a + w + b == w + b;
      assert DashRuns(a) == [];
    } else {
      var x, z := Collapse(a, false), Collapse(b, false);
      assert Collapse(a + w + b, false) == x + ("-" + z) by {
        assert a + w + b == a + (w + b);
        CollapseAppend(a, w + b, false);
      }
      assert x + ("-" + z) == x + "-" + z;
    }
  }

  /** The name stays readable: lower case, one `-` per gap. */
  lemma ExportFileNameExample()
    ensures ExportFileName("Jo  Li") == "jo-li-resume.pdf"
  {
    LowerExample();
    DashRunsExample();
  }

  lemma LowerExample()
    ensures Lower("Jo  Li") == "jo  li"
  {
  }

  lemma DashRunsExample()
    ensures DashRuns("jo  li") == "jo-li"
  {
    DashRunsOfPlain("jo");
    DashRunsOfPlain("li");
    assert "jo  li" == "jo" + "  " + "li";
    DashRunsJoin("jo", "  ", "li");
  }

  // ---------------------------------------------------------------------
  // The record the page starts from

  /** The state the page holds before the form is first submitted. */
  function InitialResumeData(): (r: Resume)
    ensures r.personal.name == "" && r.personal.email == ""
    ensures r.personal.headline == Some("") && r.personal.location == Some("")
    ensures r.personal.website == Website("", "")
    ensures r.summary == Some("")
    ensures r.socials == [] && r.experience == [] && r.education == [] && r.skills == []
    ensures r.languages == Some([]) && r.interests == Some([])
    ensures r.awards == [] && r.certifications == [] && r.projects == [] && r.references == []
  {
    Resume(
      Personal("", Some(""), "", Website("", ""), Some("")),
      [], Some(""), [], [], [], Some([]), [], [], Some([]), [], [])
  }

  /** Rendered with the two-column template, the starting record shows no
      section at all. */
  lemma InitialLayoutEmpty()
    ensures Hermes.LeftColumn(InitialResumeData()) == []
    ensures Hermes.RightColumn(InitialResumeData()) == []
  {
    var r := InitialResumeData();
  }
}
