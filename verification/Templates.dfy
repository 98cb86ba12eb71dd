/** The template gallery page (src/pages/Templates.tsx): the four gallery
    entries, the category buttons derived from them, the filter those
    buttons drive, and where choosing a template leads. */
module Templates {
  import opened Wrappers
  import Preview

  datatype Template = Template(
    id: string,
    name: string,
    description: string,
    preview: Option<string>,
    features: seq<string>,
    category: string,
    color: string)

  /** The gallery, in display order. */
  const Gallery: seq<Template> := [Classic, Modern, Minimal, Creative]

  const Classic: Template :=
    Template("classic", "Executive Classic",
             "A sophisticated template designed for senior professionals and executives seeking timeless elegance.",
             None,
             ["Executive-level formatting", "Professional typography",
              "Clean organizational structure", "ATS-optimized layout"],
             "Professional", "from-slate-600 to-slate-800")

  const Modern: Template :=
    Template("modern", "Modern Professional",
             "Modern design that balances innovation with professionalism for today's dynamic workplace.",
             None,
             ["Modern visual hierarchy", "Strategic white space usage",
              "Professional accent elements", "Mobile-responsive design"],
             "Modern", "from-blue-600 to-blue-800")

  const Minimal: Template :=
    Template("minimal", "Executive Minimal",
             "Refined minimalism that lets your achievements speak loudly through sophisticated simplicity.",
             None,
             ["Sophisticated simplicity", "Premium typography",
              "Strategic content focus", "Elegant spacing"],
             "Minimalist", "from-gray-700 to-gray-900")

  const Creative: Template :=
    Template("creative", "Creative Professional",
             "Innovative design that showcases creativity while maintaining the professionalism employers expect.",
             None,
             ["Creative visual elements", "Professional presentation",
              "Unique layout design", "Industry-appropriate styling"],
             "Creative", "from-purple-600 to-purple-800")

  /** The button that shows every template. */
  const AllCategories: string := "All"

  // ---------------------------------------------------------------------
  // Categories

  predicate NoDuplicates(xs: seq<string>) {
    forall i, j :: 0 <= i < j < |xs| ==> xs[i] != xs[j]
  }

  /** Where `x` first occurs in `xs`. */
  function FirstIndex(xs: seq<string>, x: string): (k: nat)
    requires x in xs
    ensures k < |xs| && xs[k] == x && x !in xs[..k]
  {
    if xs[0] == x then 0 else 1 + FirstIndex(xs[1..], x)
  }

  /** `Array.from(new Set(xs))`: each value once, where it first occurs. */
  function Dedupe(xs: seq<string>): (r: seq<string>)
    ensures forall x :: x in r <==> x in xs
    ensures NoDuplicates(r)
  {
    if xs == [] then []
    else
      var p, x := xs[..|xs| - 1], xs[|xs| - 1];
      assert xs == p + [x];
      var d := Dedupe(p);
      if x in d then d else d + [x]
  }

  function CategoryOf(ts: seq<Template>): (cs: seq<string>)
    ensures |cs| == |ts|
    ensures forall i :: 0 <= i < |ts| ==> cs[i] == ts[i].category
  {
    if ts == [] then [] else [ts[0].category] + CategoryOf(ts[1..])
  }

  /** The category buttons: `All`, then every category of the gallery once. */
  function Categories(ts: seq<Template>): (cs: seq<string>)
    ensures |cs| >= 1 && cs[0] == AllCategories
    ensures NoDuplicates(cs[1..])
    ensures forall c :: c in cs[1..] <==> exists t :: t in ts && t.category == c
    ensures cs[1..] == Dedupe(CategoryOf(ts))
  {
    var d := Dedupe(CategoryOf(ts));
    var cs := [AllCategories] + d;
    assert cs[1..] == d;
    forall c ensures c in d <==> exists t :: t in ts && t.category == c {
      if c in d {
        var i :| 0 <= i < |ts| && CategoryOf(ts)[i] == c;
        assert ts[i] in ts;
      }
    }
    cs
  }

  /** After `All`, the buttons follow the order in which the categories
      first appear in the gallery. */
  lemma CategoriesFirstSeen(ts: seq<Template>)
    ensures forall i, j :: 1 <= i < j < |Categories(ts)| ==>
      && Categories(ts)[i] in CategoryOf(ts) && Categories(ts)[j] in CategoryOf(ts)
      && FirstIndex(CategoryOf(ts), Categories(ts)[i]) < FirstIndex(CategoryOf(ts), Categories(ts)[j])
  {
    var xs := CategoryOf(ts);
    var cs := Categories(ts);
    DedupeOrder(xs);
    forall i, j | 1 <= i < j < |cs|
      ensures cs[i] in xs && cs[j] in xs && FirstIndex(xs, cs[i]) < FirstIndex(xs, cs[j])
    {
      assert cs[i] == Dedupe(xs)[i - 1] && cs[j] == Dedupe(xs)[j - 1];
      assert Dedupe(xs)[i - 1] in Dedupe(xs) && Dedupe(xs)[j - 1] in Dedupe(xs);
    }
  }

  lemma FirstIndexUnique(xs: seq<string>, x: string, k: nat)
    requires k < |xs| && xs[k] == x && x !in xs[..k]
    ensures FirstIndex(xs, x) == k
  {
  }

  lemma FirstIndexPrefix(p: seq<string>, x: string, y: string)
    requires y in p
    ensures y in p + [x] && FirstIndex(p + [x], y) == FirstIndex(p, y)
  {
    var k := FirstIndex(p, y);
    assert (p + [x])[..k] == p[..k];
    FirstIndexUnique(p + [x], y, k);
  }

  /** The buttons follow the order in which the categories first appear. */
  lemma {:induction false} DedupeOrder(xs: seq<string>)
    ensures forall i, j :: 0 <= i < j < |Dedupe(xs)| ==>
      FirstIndex(xs, Dedupe(xs)[i]) < FirstIndex(xs, Dedupe(xs)[j])
  {
    if xs != [] {
      var p, x := xs[..|xs| - 1], xs[|xs| - 1];
      assert xs == p + [x];
      var d := Dedupe(p);
      DedupeOrder(p);
      forall y | y in d ensures FirstIndex(xs, y) == FirstIndex(p, y) {
        FirstIndexPrefix(p, x, y);
      }
      if x !in d {
        assert x !in xs[..|xs| - 1];
        FirstIndexUnique(xs, x, |xs| - 1);
        var r := d + [x];
        forall i, j | 0 <= i < j < |r| ensures FirstIndex(xs, r[i]) < FirstIndex(xs, r[j]) {
          if j == |d| {
            assert r[i] == d[i] && d[i] in d;
            assert FirstIndex(p, d[i]) < |p|;
          } else {
            assert r[i] == d[i] && r[j] == d[j] && d[i] in d && d[j] in d;
          }
        }
      }
    }
  }

  /** Values that are already distinct keep their order. */
  lemma {:induction false} DedupeOfDistinct(xs: seq<string>)
    requires NoDuplicates(xs)
    ensures Dedupe(xs) == xs
  {
    if xs != [] {
      var p, x := xs[..|xs| - 1], xs[|xs| - 1];
      assert NoDuplicates(p) by {
        forall i, j | 0 <= i < j < |p| ensures p[i] != p[j] {
          assert p[i] == xs[i] && p[j] == xs[j];
        }
      }
      DedupeOfDistinct(p);
      assert x !in p by {
        forall i | 0 <= i < |p| ensures p[i] != x {
          assert p[i] == xs[i];
        }
      }
      assert p + [x] == xs;
    }
  }

  lemma GalleryCategoryList()
    ensures CategoryOf(Gallery) == ["Professional", "Modern", "Minimalist", "Creative"]
    ensures Dedupe(CategoryOf(Gallery)) == CategoryOf(Gallery)
  {
    var cs := ["Professional", "Modern", "Minimalist", "Creative"];
    var g := CategoryOf(Gallery);
    assert |g| == 4;
    assert g[0] == cs[0] && g[1] == cs[1] && g[2] == cs[2] && g[3] == cs[3];
    assert g == cs;
    assert NoDuplicates(cs);
    DedupeOfDistinct(cs);
  }

  /** With the gallery as shipped the buttons are fixed. */
  lemma GalleryCategories()
    ensures Categories(Gallery) == [AllCategories, "Professional", "Modern", "Minimalist", "Creative"]
  {
    GalleryCategoryList();
    var cs := Categories(Gallery);
    assert cs == [cs[0]] + cs[1..];
  }

  // ---------------------------------------------------------------------
  // The filter

  function ByCategory(ts: seq<Template>, c: string): (r: seq<Template>)
    ensures |r| <= |ts|
    ensures forall t :: t in r <==> t in ts && t.category == c
  {
    if ts == [] then []
    else if ts[0].category == c then [ts[0]] + ByCategory(ts[1..], c)
    else ByCategory(ts[1..], c)
  }

  /** The templates shown under the selected button. */
  function Filtered(ts: seq<Template>, selected: string): (r: seq<Template>)
    ensures selected == AllCategories ==> r == ts
    ensures selected != AllCategories ==> r == ByCategory(ts, selected)
    ensures selected != AllCategories ==>
      forall t :: t in r <==> t in ts && t.category == selected
  {
    if selected == AllCategories then ts else ByCategory(ts, selected)
  }

  /** The filter keeps the gallery's order: it works piece by piece. */
  lemma {:induction false} ByCategoryAppend(a: seq<Template>, b: seq<Template>, c: string)
    ensures ByCategory(a + b, c) == ByCategory(a, c) + ByCategory(b, c)
  {
    if a == [] {
      assert a + b == b;
    } else {
      assert (a + b)[0] == a[0];
      assert (a + b)[1..] == a[1..] + b;
      ByCategoryAppend(a[1..], b, c);
    }
  }

  /** Every category button shows at least one template. */
  lemma CategoryNotEmpty(ts: seq<Template>, c: string)
    requires c in Categories(ts)[1..]
    ensures |Filtered(ts, c)| > 0
  {
    var t :| t in ts && t.category == c;
    if c != AllCategories {
      assert t in Filtered(ts, c);
    }
  }

  /** Only the one template of a category is shown under its button, and
      none under a category the gallery does not have. */
  lemma FilterExample()
    ensures Filtered(Gallery, "Modern") == [Gallery[1]]
    ensures Filtered(Gallery, "Technical") == []
  {
    var g := Gallery;
    assert g == [g[0]] + ([g[1]] + ([g[2]] + [g[3]]));
    ByCategoryAppend([g[2]], [g[3]], "Modern");
    ByCategoryAppend([g[1]], [g[2]] + [g[3]], "Modern");
    ByCategoryAppend([g[0]], [g[1]] + ([g[2]] + [g[3]]), "Modern");
    ByCategoryAppend([g[2]], [g[3]], "Technical");
    ByCategoryAppend([g[1]], [g[2]] + [g[3]], "Technical");
    ByCategoryAppend([g[0]], [g[1]] + ([g[2]] + [g[3]]), "Technical");
  }

  // ---------------------------------------------------------------------
  // Navigation

  const PreviewPath: string := "/preview"
  const TemplateQuery: string := "?template="

  /** Where choosing template `id` leads. */
  function NavigationTarget(id: string): string {
    PreviewPath + TemplateQuery + id
  }

  /** Where "create new" leads: a query named `templates`, not `template`. */
  const CreateNewTarget: string := "/preview?templates=classic"

  /** Reads the `template` value back out of a preview address: whatever
      follows `/preview?template=`, taken as it is. This is not how a URL
      query is decoded: an id holding `+`, `&`, `#` or `%` would not come
      back unchanged from a real query reader. The preview page itself
      takes the template id from local storage, not from the address. */
  function TemplateParamOf(target: string): (id: Option<string>)
    ensures id.Some? ==> target == NavigationTarget(id.value)
  {
    var prefix := PreviewPath + TemplateQuery;
    if |prefix| <= |target| && target[..|prefix|] == prefix then
      assert target == prefix + target[|prefix|..];
      Some(target[|prefix|..])
    else None
  }

  /** The address carries the chosen id and nothing else. */
  lemma NavigationRoundTrip(id: string)
    ensures TemplateParamOf(NavigationTarget(id)) == Some(id)
  {
    var prefix := PreviewPath + TemplateQuery;
    assert NavigationTarget(id)[..|prefix|] == prefix;
    assert NavigationTarget(id)[|prefix|..] == id;
  }

  /** "Create new" names no template under the `template` key. */
  lemma CreateNewCarriesNoTemplate()
    ensures TemplateParamOf(CreateNewTarget) == None
  {
    var prefix := PreviewPath + TemplateQuery;
    assert CreateNewTarget[..|prefix|][17] == 's';
  }

  /** The template found for the toast, if any: the first with the id. */
  function FindById(ts: seq<Template>, id: string): (r: Option<Template>)
    ensures r.Some? ==> r.value in ts && r.value.id == id
    ensures r.None? <==> forall t :: t in ts ==> t.id != id
    ensures r.Some? ==>
      exists k :: 0 <= k < |ts| && ts[k] == r.value && forall j :: 0 <= j < k ==> ts[j].id != id
  {
    if ts == [] then None
    else if ts[0].id == id then Some(ts[0])
    else
      var r := FindById(ts[1..], id);
      assert r.Some? ==>
        exists k :: 0 <= k < |ts| && ts[k] == r.value && forall j :: 0 <= j < k ==> ts[j].id != id
      by {
        if r.Some? {
          var k :| 0 <= k < |ts[1..]| && ts[1..][k] == r.value && forall j :: 0 <= j < k ==> ts[1..][j].id != id;
          assert ts[k + 1] == r.value;
          assert forall j :: 0 <= j < k + 1 ==> ts[j].id != id by {
            forall j | 0 <= j < k + 1 ensures ts[j].id != id {
              if j > 0 { assert ts[j] == ts[1..][j - 1]; }
            }
          }
        }
      }
      r
  }

  /** No gallery id is one the preview page accepts, so a preview page
      reading a gallery id finds no template. */
  lemma GalleryIdsNotAccepted(t: Template)
    requires t in Gallery
    ensures Preview.SelectedTemplate(Some(t.id)) == None
  {
  }

  // ---------------------------------------------------------------------
  // Page state

  /** The two state cells of the page. */
  class TemplatesPage {
    var selectedCategory: string
    var hoveredTemplate: Option<string>

    /** The templates the grid shows. */
    function Shown(): seq<Template>
      reads this
    {
      Filtered(Gallery, selectedCategory)
    }

    constructor ()
      ensures selectedCategory == AllCategories && hoveredTemplate == None
      ensures Shown() == Gallery
    {
      selectedCategory := AllCategories;
      hoveredTemplate := None;
    }

    /** A category button was pressed. */
    method SelectCategory(c: string)
      modifies this
      ensures selectedCategory == c && hoveredTemplate == old(hoveredTemplate)
      ensures c != AllCategories ==> Shown() == ByCategory(Gallery, c)
      ensures c != AllCategories ==> forall t :: t in Shown() <==> t in Gallery && t.category == c
    {
      selectedCategory := c;
    }

    /** The mouse entered a template card. */
    method Enter(id: string)
      modifies this
      ensures hoveredTemplate == Some(id) && selectedCategory == old(selectedCategory)
    {
      hoveredTemplate := Some(id);
    }

    /** The mouse left a template card. */
    method Leave()
      modifies this
      ensures hoveredTemplate == None && selectedCategory == old(selectedCategory)
    {
      hoveredTemplate := None;
    }

    /** A template was chosen: the address the page moves to. */
    method SelectTemplate(id: string) returns (target: string)
      ensures TemplateParamOf(target) == Some(id)
    {
      target := NavigationTarget(id);
      NavigationRoundTrip(id);
    }
  }
}
