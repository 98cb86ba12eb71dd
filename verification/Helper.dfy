/** Pure helpers of the resume builder (src/utils/helper.ts): the
    comma-separated list parser, the fall-back branches of the two date
    formatters, and the payload sent to the PDF service. */
module Helper {
  import opened Wrappers

  /** A form value as `stringToArray` receives it: typed text, a list that is
      already split, or anything else (`undefined`, `null`). */
  datatype Field = Text(s: string) | Items(xs: seq<string>) | Absent

  /** ECMAScript white space and line terminators: exactly the characters
      that `String.prototype.trim` strips and that `\s` matches. */
  predicate IsSpace(c: char) {
    || c == '\t' || c == '\n' || c == '\U{000B}' || c == '\U{000C}' || c == '\r'
    || c == ' ' || c == '\U{00A0}' || c == '\U{1680}'
    || ('\U{2000}' <= c <= '\U{200A}')
    || c == '\U{2028}' || c == '\U{2029}' || c == '\U{202F}' || c == '\U{205F}'
    || c == '\U{3000}' || c == '\U{FEFF}'
  }

  predicate AllSpace(s: string) {
    forall i :: 0 <= i < |s| ==> IsSpace(s[i])
  }

  /** No white space at either end. */
  predicate IsTrimmed(s: string) {
    s == [] || (!IsSpace(s[0]) && !IsSpace(s[|s| - 1]))
  }

  predicate StartsWith(s: string, prefix: string) {
    |prefix| <= |s| && s[..|prefix|] == prefix
  }

  predicate EndsWith(s: string, suffix: string) {
    |suffix| <= |s| && s[|s| - |suffix|..] == suffix
  }

  /** Drops leading white space: what is left is a suffix of `s` that does
      not start with white space, and only white space was dropped. */
  function TrimStart(s: string): (r: string)
    ensures |r| <= |s| && r == s[|s| - |r|..]
    ensures AllSpace(s[..|s| - |r|])
    ensures r == [] || !IsSpace(r[0])
    decreases |s|
  {
    if s != [] && IsSpace(s[0]) then
      var q := s[1..];
      var r := TrimStart(q);
      assert q[|q| - |r|..] == s[|s| - |r|..];
      assert s[..|s| - |r|] == [s[0]] + q[..|q| - |r|];
      r
    else s
  }

  /** Drops trailing white space: what is left is a prefix of `s` that does
      not end with white space, and only white space was dropped. */
  function TrimEnd(s: string): (r: string)
    ensures |r| <= |s| && r == s[..|r|]
    ensures AllSpace(s[|r|..])
    ensures r == [] || !IsSpace(r[|r| - 1])
    decreases |s|
  {
    if s != [] && IsSpace(s[|s| - 1]) then
      var p := s[..|s| - 1];
      var r := TrimEnd(p);
      assert p[..|r|] == s[..|r|];
      assert s[|r|..] == p[|r|..] + [s[|s| - 1]];
      r
    else s
  }

  /** `String.prototype.trim`: white space stripped at both ends. */
  function Trim(s: string): (r: string)
    ensures |r| <= |s| && IsTrimmed(r)
  {
    var t := TrimStart(s);
    var r := TrimEnd(t);
    assert r != [] ==> r[0] == t[0];
    r
  }

  /** `s` is a white-space prefix, then `Trim(s)`, then a white-space
      suffix. */
  lemma TrimSplit(s: string)
    ensures exists lead, trail ::
              AllSpace(lead) && AllSpace(trail) && s == lead + Trim(s) + trail
  {
    var t := TrimStart(s);
    var r := TrimEnd(t);
    var lead := s[..|s| - |t|];
    var trail := t[|r|..];
    assert s == lead + Trim(s) + trail by {
      SplitAround(s, t, r);
    }
  }

  /** `s` split around a prefix `r` of a suffix `t` of it. */
  lemma SplitAround<T>(s: seq<T>, t: seq<T>, r: seq<T>)
    requires |t| <= |s| && t == s[|s| - |t|..]
    requires |r| <= |t| && r == t[..|r|]
    ensures s == s[..|s| - |t|] + r + t[|r|..]
  {
    assert s == s[..|s| - |t|] + t;
    assert t == r + t[|r|..];
  }

  /** Trimming only removes characters. */
  lemma TrimKeepsOut(s: string, c: char)
    requires c !in s
    ensures c !in Trim(s)
  {
    TrimSplit(s);
    var lead, trail :| s == lead + Trim(s) + trail;
  }

  /** `String.prototype.join(sep)`. */
  function Join(xs: seq<string>, sep: char): string
  {
    if xs == [] then ""
    else if |xs| == 1 then xs[0]
    else xs[0] + [sep] + Join(xs[1..], sep)
  }

  /** `String.prototype.split(sep)` for a one-character separator: at least
      one piece, no piece holds the separator, and joining the pieces back
      with the separator gives `s` again. */
  function Split(s: string, sep: char): (r: seq<string>)
    ensures |r| >= 1
    ensures forall i :: 0 <= i < |r| ==> sep !in r[i]
    ensures Join(r, sep) == s
    decreases |s|
  {
    if s == [] then [""]
    else
      var rest := Split(s[1..], sep);
      if s[0] == sep then
        assert s == [sep] + s[1..];
        [""] + rest
      else
        var r := [[s[0]] + rest[0]] + rest[1..];
        assert |rest| > 1 ==> Join(rest, sep) == rest[0] + [sep] + Join(rest[1..], sep);
        assert s == [s[0]] + s[1..];
        r
  }

  /** `map(item => item.trim())`. */
  function TrimAll(xs: seq<string>): (r: seq<string>)
    ensures |r| == |xs|
    ensures forall i :: 0 <= i < |r| ==> r[i] == Trim(xs[i])
  {
    if xs == [] then [] else [Trim(xs[0])] + TrimAll(xs[1..])
  }

  lemma TrimAllKeepsOut(xs: seq<string>, c: char)
    requires forall i :: 0 <= i < |xs| ==> c !in xs[i]
    ensures forall i :: 0 <= i < |xs| ==> c !in TrimAll(xs)[i]
  {
    forall i | 0 <= i < |xs| {
      TrimKeepsOut(xs[i], c);
    }
  }

  /** `filter(item => item.length > 0)`: keeps exactly the non-empty items. */
  function DropEmpty(xs: seq<string>): (r: seq<string>)
    ensures forall x :: x in r <==> x in xs && x != ""
    ensures |r| <= |xs|
  {
    if xs == [] then []
    else (if xs[0] == "" then [] else [xs[0]]) + DropEmpty(xs[1..])
  }

  /** What a parsed list item looks like. */
  predicate IsItem(x: string) {
    x != "" && IsTrimmed(x) && ',' !in x
  }

  /** `stringToArray`: a list is returned as it is; text is split at commas,
      each piece trimmed and the empty pieces dropped, so every item is
      non-empty, trimmed and comma-free; anything else gives no items. */
  function StringToArray(v: Field): (r: seq<string>)
    ensures v.Items? ==> r == v.xs
    ensures v.Absent? ==> r == []
    ensures v.Text? ==> forall i :: 0 <= i < |r| ==> IsItem(r[i])
  {
    match v
    case Items(xs) => xs
    case Text(s) =>
      var pieces := Split(s, ',');
      CleanItems(pieces);
      DropEmpty(TrimAll(pieces))
    case Absent => []
  }

  /** Comma-free pieces, trimmed and with the empty ones dropped, are
      non-empty, trimmed and comma-free. */
  lemma CleanItems(pieces: seq<string>)
    requires forall i :: 0 <= i < |pieces| ==> ',' !in pieces[i]
    ensures forall i :: 0 <= i < |DropEmpty(TrimAll(pieces))| ==> IsItem(DropEmpty(TrimAll(pieces))[i])
  {
    TrimAllKeepsOut(pieces, ',');
    var trimmed := TrimAll(pieces);
    var r := DropEmpty(trimmed);
    forall i | 0 <= i < |r| ensures IsItem(r[i]) {
      assert r[i] in r;
      var j :| 0 <= j < |trimmed| && trimmed[j] == r[i];
      assert ',' !in trimmed[j];
    }
  }

  // ---------------------------------------------------------------------
  // Properties of the list parser

  lemma {:induction false} TrimOfTrimmed(s: string)
    requires IsTrimmed(s)
    ensures Trim(s) == s
  {
    assert TrimStart(s) == s;
    assert TrimEnd(s) == s;
  }

  lemma {:induction false} TrimStartOfBlank(s: string)
    requires AllSpace(s)
    ensures TrimStart(s) == ""
    decreases |s|
  {
    if s != [] {
      TrimStartOfBlank(s[1..]);
    }
  }

  lemma TrimOfBlank(s: string)
    requires AllSpace(s)
    ensures Trim(s) == ""
  {
    TrimStartOfBlank(s);
  }

  /** Order is kept by the filter: it distributes over concatenation. */
  lemma {:induction false} DropEmptyAppend(a: seq<string>, b: seq<string>)
    ensures DropEmpty(a + b) == DropEmpty(a) + DropEmpty(b)
    decreases |a|
  {
    if a != [] {
      var head := if a[0] == "" then [] else [a[0]];
      assert (a + b)[0] == a[0];
      assert (a + b)[1..] == a[1..] + b;
      DropEmptyAppend(a[1..], b);
      calc {
        DropEmpty(a + b);
        head + DropEmpty(a[1..] + b);
        head + (DropEmpty(a[1..]) + DropEmpty(b));
        (head + DropEmpty(a[1..])) + DropEmpty(b);
        DropEmpty(a) + DropEmpty(b);
      }
    } else {
      assert a + b == b;
    }
  }

  lemma {:induction false} DropEmptyKeepsNonEmpty(xs: seq<string>)
    requires forall i :: 0 <= i < |xs| ==> xs[i] != ""
    ensures DropEmpty(xs) == xs
  {
    if xs != [] {
      DropEmptyKeepsNonEmpty(xs[1..]);
    }
  }

  lemma {:induction false} TrimAllKeepsTrimmed(xs: seq<string>)
    requires forall i :: 0 <= i < |xs| ==> IsTrimmed(xs[i])
    ensures TrimAll(xs) == xs
  {
    if xs != [] {
      TrimOfTrimmed(xs[0]);
      TrimAllKeepsTrimmed(xs[1..]);
    }
  }

  /** Splitting a separator-free piece followed by the separator peels that
      piece off the front. */
  lemma {:induction false} SplitAfterPiece(p: string, rest: string, sep: char)
    requires sep !in p
    ensures Split(p + [sep] + rest, sep) == [p] + Split(rest, sep)
    decreases |p|
  {
    var s := p + [sep] + rest;
    if p == [] {
      assert s[1..] == rest;
    } else {
      assert s[1..] == p[1..] + [sep] + rest;
      SplitAfterPiece(p[1..], rest, sep);
      assert [p[0]] + p[1..] == p;
    }
  }

  lemma {:induction false} SplitOfPiece(p: string, sep: char)
    requires sep !in p
    ensures Split(p, sep) == [p]
    decreases |p|
  {
    if p != [] {
      SplitOfPiece(p[1..], sep);
      assert [p[0]] + p[1..] == p;
    }
  }

  /** `split` undoes `join` whenever no piece holds the separator. */
  lemma {:induction false} SplitJoin(pieces: seq<string>, sep: char)
    requires |pieces| >= 1
    requires forall i :: 0 <= i < |pieces| ==> sep !in pieces[i]
    ensures Split(Join(pieces, sep), sep) == pieces
    decreases |pieces|
  {
    if |pieces| == 1 {
      SplitOfPiece(pieces[0], sep);
    } else {
      SplitAfterPiece(pieces[0], Join(pieces[1..], sep), sep);
      SplitJoin(pieces[1..], sep);
    }
  }

  /** For ANY way of writing the text as comma-free pieces joined by commas,
      the parser yields the trimmed pieces that are not empty, in the order
      of the pieces. */
  lemma {:induction false} ParsePieces(pieces: seq<string>)
    requires |pieces| >= 1
    requires forall i :: 0 <= i < |pieces| ==> ',' !in pieces[i]
    ensures StringToArray(Text(Join(pieces, ','))) == DropEmpty(TrimAll(pieces))
  {
    SplitJoin(pieces, ',');
  }

  /** A clean list (non-empty, trimmed, comma-free items) survives being
      joined with commas and parsed again. */
  lemma {:induction false} ParseJoin(xs: seq<string>)
    requires forall i :: 0 <= i < |xs| ==> xs[i] != "" && IsTrimmed(xs[i]) && ',' !in xs[i]
    ensures StringToArray(Text(Join(xs, ','))) == xs
  {
    if xs == [] {
      assert Split("", ',') == [""];
      assert Trim("") == "";
      assert TrimAll([""]) == [""];
    } else {
      ParsePieces(xs);
      TrimAllKeepsTrimmed(xs);
      DropEmptyKeepsNonEmpty(xs);
    }
  }

  /** Round trip: parsing the comma-joined result of a parse gives the same list. */
  lemma {:induction false} ParseRoundTrip(s: string)
    ensures StringToArray(Text(Join(StringToArray(Text(s)), ','))) == StringToArray(Text(s))
  {
    ParseJoin(StringToArray(Text(s)));
  }

  /** Every piece of a text made only of white space and commas is blank. */
  lemma {:induction false} SplitOfBlank(s: string)
    requires forall k :: 0 <= k < |s| ==> IsSpace(s[k]) || s[k] == ','
    ensures forall i :: 0 <= i < |Split(s, ',')| ==> AllSpace(Split(s, ',')[i])
    decreases |s|
  {
    if s != [] {
      SplitOfBlank(s[1..]);
    }
  }

  lemma {:induction false} DropEmptyOfBlank(xs: seq<string>)
    requires forall i :: 0 <= i < |xs| ==> xs[i] == ""
    ensures DropEmpty(xs) == []
  {
    if xs != [] {
      DropEmptyOfBlank(xs[1..]);
    }
  }

  /** Text of white space and commas only (" , ," for one) gives no items. */
  lemma {:induction false} ParseBlank(s: string)
    requires forall k :: 0 <= k < |s| ==> IsSpace(s[k]) || s[k] == ','
    ensures StringToArray(Text(s)) == []
  {
    var pieces := Split(s, ',');
    SplitOfBlank(s);
    forall i | 0 <= i < |pieces| ensures TrimAll(pieces)[i] == "" {
      TrimOfBlank(pieces[i]);
    }
    DropEmptyOfBlank(TrimAll(pieces));
  }

  /** Some character is neither white space nor a comma. */
  predicate HasContent(s: string) {
    exists k :: 0 <= k < |s| && !IsSpace(s[k]) && s[k] != ','
  }

  /** Every character of the text that is not the separator lies in some piece. */
  lemma {:induction false} SplitCovers(s: string, sep: char, k: nat)
    requires k < |s| && s[k] != sep
    ensures exists i :: 0 <= i < |Split(s, sep)| && s[k] in Split(s, sep)[i]
    decreases |s|
  {
    var rest := Split(s[1..], sep);
    var r := Split(s, sep);
    if s[0] == sep {
      SplitCovers(s[1..], sep, k - 1);
      var j :| 0 <= j < |rest| && s[1..][k - 1] in rest[j];
      assert r[j + 1] == rest[j];
    } else if k == 0 {
      assert r[0] == [s[0]] + rest[0];
      assert s[k] in r[0];
    } else {
      SplitCovers(s[1..], sep, k - 1);
      var j :| 0 <= j < |rest| && s[1..][k - 1] in rest[j];
      if j == 0 {
        assert r[0] == [s[0]] + rest[0];
        assert s[k] in r[0];
      } else {
        assert r[j] == rest[j];
      }
    }
  }

  /** Trimming empties only white space. */
  lemma TrimEmptyIsBlank(p: string)
    ensures Trim(p) == "" ==> AllSpace(p)
  {
    var t := TrimStart(p);
    if Trim(p) == "" {
      assert AllSpace(t[0..]);
      assert t[0..] == t;
      assert p[..|p| - |t|] == p;
    }
  }

  /** A piece holding a character that is not white space survives trimming. */
  lemma TrimOfContent(p: string, c: char)
    requires c in p && !IsSpace(c)
    ensures Trim(p) != ""
  {
    TrimEmptyIsBlank(p);
    var k :| 0 <= k < |p| && p[k] == c;
  }

  /** Text gives at least one item exactly when it holds a character that is
      neither white space nor a comma. */
  lemma ParseNonEmpty(s: string)
    ensures |StringToArray(Text(s))| > 0 <==> HasContent(s)
  {
    if HasContent(s) {
      var k :| 0 <= k < |s| && !IsSpace(s[k]) && s[k] != ',';
      var pieces := Split(s, ',');
      SplitCovers(s, ',', k);
      var j :| 0 <= j < |pieces| && s[k] in pieces[j];
      TrimOfContent(pieces[j], s[k]);
      assert TrimAll(pieces)[j] in TrimAll(pieces);
      assert TrimAll(pieces)[j] in StringToArray(Text(s));
    } else {
      ParseBlank(s);
    }
  }

  // ---------------------------------------------------------------------
  // Dates

  predicate IsDigit(c: char) {
    '0' <= c <= '9'
  }

  /** Matches `^\d{4}$`. */
  predicate IsYear(s: string) {
    |s| == 4 && forall i :: 0 <= i < 4 ==> IsDigit(s[i])
  }

  /** Matches `^\d{4}-\d{2}$`. */
  predicate IsYearMonth(s: string) {
    |s| == 7 && IsYear(s[..4]) && s[4] == '-' && IsDigit(s[5]) && IsDigit(s[6])
  }

  /** `formatDate`. The locale rendering of a `YYYY-MM` date is the
      parameter `monthYear`; every other input has a fixed answer. */
  function FormatDate(s: string, monthYear: string -> string): (r: string)
    ensures s == "" ==> r == "Present"
    ensures IsYear(s) ==> r == s
    ensures s != "" && !IsYearMonth(s) ==> r == s
    ensures IsYearMonth(s) ==> r == monthYear(s)
  {
    if s == "" then "Present"
    else if IsYearMonth(s) then monthYear(s)
    else if IsYear(s) then s
    else s
  }

  /** Formatting a date that is not `YYYY-MM` a second time changes
      nothing, the "Present" of an empty date included. */
  lemma FormatDateStable(s: string, monthYear: string -> string)
    requires !IsYearMonth(s)
    ensures FormatDate(FormatDate(s, monthYear), monthYear) == FormatDate(s, monthYear)
  {
    assert !IsDigit('P');
    assert "Present"[0] == 'P';
  }

  /** `parseMonthYear`. `render` stands for `new Date(s)` followed by the
      locale month-and-year rendering; `None` is an invalid date. */
  function ParseMonthYear(s: string, render: string -> Option<string>): (r: string)
    ensures s == "" ==> r == ""
    ensures s != "" && render(s).None? ==> r == s
    ensures s != "" && render(s).Some? ==> r == render(s).value
  {
    if s == "" then ""
    else match render(s)
      case None => s
      case Some(t) => t
  }

  // ---------------------------------------------------------------------
  // PDF request payload

  /** The body of the request sent to the PDF service. */
  datatype Payload<D> = Payload(html: string, data: D, template: string)

  /** The document head, up to the opening of the body. */
  const PageHead: string :=
    "\n    <html lang=\"en\">\n    <head>\n      <meta charset=\"UTF-8\">\n"
    + "      <meta name=\"viewport\" content=\"width=device-width, initial-scale=1.0\">\n"
    + "      <title>Resume</title>\n"
    + "      <link rel=\"stylesheet\" href=\"https://cdnjs.cloudflare.com/ajax/libs/font-awesome/6.5.0/css/all.min.css\"/>\n"
    + "    </head>\n    "

  const BodyOpen: string := "<body>"
  const BodyClose: string := "</body>"
  const Indent: string := "\n      "
  const Dedent: string := "\n    "

  /** The page markup placed before the rendered resume. */
  const PageOpen: string := PageHead + BodyOpen + Indent

  /** The page markup placed after the rendered resume. */
  const PageClose: string := Dedent + BodyClose + "\n    </html>\n  "

  /** `pdfPayload`: the data and the template id are passed on untouched and
      the rendered markup is wrapped in a complete page. */
  function PdfPayload<D>(data: D, htmlContent: string, template: string): (r: Payload<D>)
    ensures r.data == data && r.template == template
    ensures StartsWith(r.html, PageOpen) && EndsWith(r.html, PageClose)
    ensures |r.html| == |PageOpen| + |htmlContent| + |PageClose|
    ensures r.html[|PageOpen|..|PageOpen| + |htmlContent|] == htmlContent
  {
    var h := PageOpen + htmlContent + PageClose;
    assert h[..|PageOpen|] == PageOpen;
    assert h[|PageOpen|..|PageOpen| + |htmlContent|] == htmlContent;
    assert h[|h| - |PageClose|..] == PageClose;
    Payload(h, data, template)
  }

  lemma {:induction false} TrimEndAfterBlank(a: string, w: string)
    requires AllSpace(w)
    requires a == [] || !IsSpace(a[|a| - 1])
    ensures TrimEnd(a + w) == a
    decreases |w|
  {
    if w != [] {
      assert (a + w)[..|a + w| - 1] == a + w[..|w| - 1];
      TrimEndAfterBlank(a, w[..|w| - 1]);
    } else {
      assert a + w == a;
    }
  }

  lemma {:induction false} TrimStartBeforeBlank(w: string, b: string)
    requires AllSpace(w)
    requires b == [] || !IsSpace(b[0])
    ensures TrimStart(w + b) == b
    decreases |w|
  {
    if w != [] {
      assert (w + b)[1..] == w[1..] + b;
      TrimStartBeforeBlank(w[1..], b);
    } else {
      assert w + b == b;
    }
  }

  /** The page markup puts the rendered resume between `<body>` and
      `</body>`, with only white space around it. */
  lemma PayloadBody<D>(data: D, htmlContent: string, template: string)
    ensures var h := PdfPayload(data, htmlContent, template).html;
            var i := |PageOpen|;
            && h[i..i + |htmlContent|] == htmlContent
            && EndsWith(TrimEnd(h[..i]), BodyOpen)
            && StartsWith(TrimStart(h[i + |htmlContent|..]), BodyClose)
  {
    var h := PdfPayload(data, htmlContent, template).html;
    var i := |PageOpen|;
    assert h == PageOpen + htmlContent + PageClose;
    assert h[..i] == PageOpen;
    assert h[i + |htmlContent|..] == PageClose;
    assert h[i..i + |htmlContent|] == htmlContent;
    OpenTagLast(PageHead);
    CloseTagFirst("\n    </html>\n  ");
  }

  /** Whatever precedes it, `<body>` is the last thing before the content
      once the indentation is trimmed away. */
  lemma OpenTagLast(head: string)
    ensures EndsWith(TrimEnd(head + BodyOpen + Indent), BodyOpen)
  {
    assert AllSpace(Indent) by {
      assert Indent == ['\n', ' ', ' ', ' ', ' ', ' ', ' '];
    }
    var w := head + BodyOpen;
    assert w[|w| - 1] == '>';
    TrimEndAfterBlank(w, Indent);
    assert w[|w| - |BodyOpen|..] == BodyOpen;
  }

  /** Whatever follows it, `</body>` is the first thing after the content
      once the indentation is trimmed away. */
  lemma CloseTagFirst(rest: string)
    ensures StartsWith(TrimStart(Dedent + BodyClose + rest), BodyClose)
  {
    assert AllSpace(Dedent) by {
      assert Dedent == ['\n', ' ', ' ', ' ', ' '];
    }
    var tail := BodyClose + rest;
    assert tail[0] == '<';
    assert Dedent + BodyClose + rest == Dedent + tail;
    TrimStartBeforeBlank(Dedent, tail);
    assert tail[..|BodyClose|] == BodyClose;
  }
}
