# resumeforge core, modelled in Dafny

resumeforge is a resume builder. The user fills in a form. The form is
validated by a yup schema, normalised on submit, rendered by one of several
HTML templates and sent to a PDF service. A gallery page lists the
templates by category. This project models the logic behind those steps:

- `Helper`: the comma-list parser `stringToArray`, the fixed branches of
  `formatDate` and `parseMonthYear`, and the `pdfPayload` record.
- `Schema`: the yup schema as a validity predicate `Valid(r, f)` over the
  form record. The e-mail and URL formats are the parameter `f`.
- `ResumeForm`: the default form values, the blank entries the "Add"
  buttons append, the submit-time normalisation of project technologies,
  and the form's field arrays as a class whose methods append and remove
  entries.
- `Hermes`: the two-column layout of the Hermes template and its small
  text rules (date range, description lines, skill tags, reference contact).
- `Preview`: the template-id whitelist with its `cigar` default, the export
  file name and the initial empty resume.
- `Templates`: the gallery, its category list and filter, and the page state
  (selected category, hovered template, the navigation target on selection).
- `ResumeData` holds the record shapes. `Wrappers` holds `Option`.

The project has two record shapes. The form record (`FormResume`) has
`socials` and `skills` as objects. The interface record (`Resume`) has them
as arrays. The schema and the form work on the first shape; Hermes and
Preview work on the second.

White space is the ECMAScript set, the characters `trim` strips and `\s`
matches (`Helper.IsSpace`).

## Model

| member | source | states |
|---|---|---|
| Helper.TrimStart | src/utils/helper.ts:46 | the leading part of `trim`: a suffix of the input, not starting with white space, and only white space is dropped |
| Helper.IsSpace | src/utils/helper.ts:46 | the white space `trim` strips: ECMAScript white space and line terminators (no contract; TrimStart, TrimEnd and Preview.Collapse use it) |
| Helper.TrimEnd | src/utils/helper.ts:46 | the trailing part of `trim`: a prefix of the input, not ending with white space, and only white space is dropped |
| Helper.Trim | src/utils/helper.ts:46 | `trim` gives a result no longer than its input with no white space at either end |
| Helper.TrimSplit | src/utils/helper.ts:46 | the input is a white-space prefix, then the trimmed text, then a white-space suffix |
| Helper.TrimKeepsOut | src/utils/helper.ts:46 | trimming adds no character, so a comma-free piece stays comma-free |
| Helper.Split | src/utils/helper.ts:46 | `split(',')` gives at least one piece, no piece holds the separator, and joining the pieces with it gives back the input |
| Helper.Join | src/utils/helper.ts:46 | `join(sep)`, the inverse Helper.Split and Helper.SplitJoin are stated against (no contract) |
| Helper.TrimAll | src/utils/helper.ts:46 | `map(trim)` keeps the length and trims each item in its place |
| Helper.TrimAllKeepsOut | src/utils/helper.ts:46 | trimming every piece keeps every piece free of a character it did not hold |
| Helper.DropEmpty | src/utils/helper.ts:46 | the `length > 0` filter keeps exactly the non-empty items and never lengthens the list |
| Helper.StringToArray | src/utils/helper.ts:43-49 | a list comes back unchanged; text gives items that are each non-empty, trimmed and comma-free; any other value gives `[]` |
| Helper.CleanItems | src/utils/helper.ts:46 | split, trimmed and filtered comma-free pieces are all clean items |
| Helper.TrimOfTrimmed | src/utils/helper.ts:46 | trimming text with no white space at its ends changes nothing |
| Helper.TrimStartOfBlank | src/utils/helper.ts:46 | stripping leading white space from all-white-space text leaves nothing |
| Helper.TrimOfBlank | src/utils/helper.ts:46 | an all-white-space piece trims to the empty string |
| Helper.DropEmptyAppend | src/utils/helper.ts:46 | the filter keeps order: it distributes over concatenation |
| Helper.DropEmptyKeepsNonEmpty | src/utils/helper.ts:46 | a list with no empty item passes the filter unchanged |
| Helper.TrimAllKeepsTrimmed | src/utils/helper.ts:46 | a list of trimmed items passes `map(trim)` unchanged |
| Helper.SplitAfterPiece | src/utils/helper.ts:46 | splitting a separator-free piece, the separator and a rest gives the piece and then the pieces of the rest |
| Helper.SplitOfPiece | src/utils/helper.ts:46 | a separator-free text splits into itself alone |
| Helper.SplitJoin | src/utils/helper.ts:46 | `split` undoes `join` when no piece holds the separator |
| Helper.ParsePieces | src/utils/helper.ts:46 | for text written as comma-free pieces joined by commas, the items are the non-empty trimmed pieces in piece order |
| Helper.ParseJoin | src/utils/helper.ts:46 | a list of clean items joined with commas parses back to the same list |
| Helper.ParseRoundTrip | src/utils/helper.ts:46 | parsing the comma-joined result of a parse gives the same list |
| Helper.SplitOfBlank | src/utils/helper.ts:46 | every piece of a text of white space and commas is all white space |
| Helper.DropEmptyOfBlank | src/utils/helper.ts:46 | a list of empty strings filters to nothing |
| Helper.ParseBlank | src/utils/helper.ts:46 | text made only of white space and commas (" , ," for one) gives no items |
| Helper.SplitCovers | src/utils/helper.ts:46 | every character other than the separator lies in some piece |
| Helper.TrimEmptyIsBlank | src/utils/helper.ts:46 | a piece trims to the empty string only if it is all white space |
| Helper.TrimOfContent | src/utils/helper.ts:46 | a piece holding a non-white-space character does not trim to the empty string |
| Helper.ParseNonEmpty | src/utils/helper.ts:45-46 | text gives at least one item exactly when it holds a character that is neither white space nor a comma |
| Helper.FormatDate | src/utils/helper.ts:4-26 | the empty date is `Present`; a `YYYY-MM` date is its locale rendering; a `YYYY` year and any other text come back unchanged |
| Helper.FormatDateStable | src/utils/helper.ts:4-26 | formatting a date that is not `YYYY-MM` a second time changes nothing |
| Helper.ParseMonthYear | src/utils/helper.ts:28-41 | the empty date gives the empty string; a date that parses gives its locale rendering; one that does not comes back unchanged |
| Helper.PdfPayload | src/utils/helper.ts:51-72 | data and template are passed on as given; the markup is the fixed page opening, then exactly the content, then the fixed page closing |
| Helper.TrimEndAfterBlank | src/utils/helper.ts:52-64 | trailing white space after text that does not end in white space is stripped back to that text |
| Helper.TrimStartBeforeBlank | src/utils/helper.ts:52-64 | leading white space before text that does not start with white space is stripped back to that text |
| Helper.PayloadBody | src/utils/helper.ts:52-64 | the content sits in the payload markup with only white space between it and `<body>` before it and `</body>` after it |
| Helper.OpenTagLast | src/utils/helper.ts:60-61 | `<body>` is the last thing before the content once the indentation is trimmed |
| Helper.CloseTagFirst | src/utils/helper.ts:61-63 | `</body>` is the first thing after the content once the indentation is trimmed |
| Schema.NameAndEmailRequired | src/schema/schema.ts:6-8 | a record with an empty name or an empty e-mail is invalid |
| Schema.Required | src/schema/schema.ts:6 | `string().required()` rejects exactly the empty string (no contract; RequiredEntryMembers and NameAndEmailRequired state its effect) |
| Schema.EmailOk | src/schema/schema.ts:8 | `string().email()` leaves the empty string untested, other text goes to the abstract e-mail format (no contract) |
| Schema.UrlOk | src/schema/schema.ts:11 | `string().url()` leaves the empty string untested, other text goes to the abstract URL format (no contract) |
| Schema.OptionalUrlOk | src/schema/schema.ts:16-18 | a missing social link is not tested (no contract) |
| Schema.IsPhoneChar | src/schema/schema.ts:67 | the character class `[0-9\-\+]` (no contract) |
| Schema.PhoneOk | src/schema/schema.ts:67 | `matches(/^[0-9\-\+]+$/)`: a missing phone passes, a present one must be non-empty and all phone characters (no contract; PhoneExamples states cases) |
| Schema.PersonalValid | src/schema/schema.ts:5-14 | name and e-mail required, e-mail and website link in their formats (no contract; NameAndEmailRequired, OptionalMembersIgnored) |
| Schema.SocialsValid | src/schema/schema.ts:15-19 | the three social links in URL format when present (no contract) |
| Schema.ExperienceValid | src/schema/schema.ts:21-27 | title, company and start date required (no contract; RequiredEntryMembers, OptionalEntryMembersIgnored) |
| Schema.EducationValid | src/schema/schema.ts:28-33 | degree, institution and start date required (no contract; RequiredEntryMembers, OptionalEntryMembersIgnored) |
| Schema.AwardValid | src/schema/schema.ts:46-50 | title and date required (no contract; RequiredEntryMembers, OptionalEntryMembersIgnored) |
| Schema.CertificationValid | src/schema/schema.ts:51-55 | name, issuing organisation and date required (no contract; RequiredEntryMembers) |
| Schema.ProjectValid | src/schema/schema.ts:57-61 | title required (no contract; RequiredEntryMembers, OptionalEntryMembersIgnored) |
| Schema.ReferenceValid | src/schema/schema.ts:62-68 | name, title, company and e-mail required, e-mail format, phone rule (no contract; RequiredEntryMembers, PhoneExamples) |
| Schema.ProgrammingLanguagesValid | src/schema/schema.ts:35-42 | the "min-length" test on the value after `stringToArray` (no contract; ProgrammingLanguagesRule, BlankLanguagesRejected) |
| Schema.AllValid | src/schema/schema.ts:21 | `array().of(entry)`: every entry passes (no contract; AllValidAppend, AllValidRemove) |
| Schema.Valid | src/schema/schema.ts:4-69 | the whole schema, member by member (no contract; the Schema and ResumeForm lemmas state its properties) |
| Schema.OptionalMembersIgnored | src/schema/schema.ts:7-56 | headline, location, summary, keywords, languages and interests never change validity |
| Schema.OptionalEntryMembersIgnored | src/schema/schema.ts:21-61 | end dates, descriptions and project technologies never change an entry's validity |
| Schema.RequiredEntryMembers | src/schema/schema.ts:21-68 | an entry missing a required member (experience title/company/startDate, education degree/institution/startDate, award title/date, certification name/issuingOrganization/date, project title, reference name/title/company/email) is invalid |
| Schema.AllValidAppend | src/schema/schema.ts:21 | an empty list section is valid, and a concatenation is valid iff both parts are |
| Schema.AllValidRemove | src/schema/schema.ts:21 | removing an entry from a valid list section keeps it valid |
| Schema.PhoneExamples | src/schema/schema.ts:67 | a missing phone passes; the empty phone and one with a space fail; `+1-555-0100` passes |
| Schema.ProgrammingLanguagesRule | src/schema/schema.ts:35-42 | text passes iff it holds a character that is neither white space nor a comma; a list passes iff it is non-empty; any other value fails |
| Schema.BlankLanguagesRejected | src/schema/schema.ts:35-42 | the text " , ," is rejected |
| ResumeForm.DefaultValues | src/components/ResumeForm.tsx:164-187 | every string member (name, headline, e-mail, website, location, the three social links, summary) is empty and every list member (skills, languages, interests and the six list sections) is empty |
| ResumeForm.DefaultValuesInvalid | src/components/ResumeForm.tsx:164-187 | the default values fail the personal checks, the programming-language check and the whole schema |
| ResumeForm.BlankEntriesInvalid | src/components/ResumeForm.tsx:454 | each blank entry the "Add" buttons append fails its section's checks, the blank reference's empty phone included |
| ResumeForm.BlankAtEndInvalid | src/components/ResumeForm.tsx:454 | a list section with an invalid entry appended is invalid |
| ResumeForm.ProcessProject | src/components/ResumeForm.tsx:231-236 | title and description are kept and the technologies become `Items(stringToArray(old value))`: a list is kept, text becomes clean items, a missing value becomes `[]` |
| ResumeForm.HandleSubmitForm | src/components/ResumeForm.tsx:221-239 | every non-project member is unchanged; projects keep count, order, title and description, and their technologies become `stringToArray` of the old value |
| ResumeForm.SubmitIdempotent | src/components/ResumeForm.tsx:229-237 | normalising an already normalised record changes nothing |
| ResumeForm.SubmitKeepsValidity | src/components/ResumeForm.tsx:229-237 | normalisation neither makes a valid record invalid nor an invalid one valid |
| ResumeForm.CastField | src/components/ResumeForm.tsx:114 | the `transform(stringToArray)` cast: a missing value stays missing, anything else becomes a list, and the items `stringToArray` gives are unchanged |
| ResumeForm.Cast | src/components/ResumeForm.tsx:106-131 | the schema's cast value: programming languages, keywords, languages, interests and every project's technologies cast, every other member kept |
| ResumeForm.CastKeepsChecked | src/components/ResumeForm.tsx:75-140 | every member the schema checks reads the same before and after the cast |
| ResumeForm.CastKeepsValidity | src/components/ResumeForm.tsx:75-140 | casting neither makes a valid record invalid nor an invalid one valid |
| ResumeForm.CastIdempotent | src/components/ResumeForm.tsx:106-131 | casting a cast record changes nothing |
| ResumeForm.SubmitOfCast | src/components/ResumeForm.tsx:229-237 | `handleSubmitForm` gives the same projects for the cast record as for the raw one |
| ResumeForm.ResumeFormState.constructor | src/components/ResumeForm.tsx:162-188 | the form starts with the default values |
| ResumeForm.ResumeFormState.Submit | src/components/ResumeForm.tsx:163 | `handleSubmit(handleSubmitForm)` hands on `handleSubmitForm` of the schema's cast of the values exactly when they pass the schema, and nothing otherwise; what it hands on is valid, keeps the entries and has list-valued technologies; present languages and interests become lists, missing ones stay missing |
| ResumeForm.ResumeFormState.AppendExperience | src/components/ResumeForm.tsx:454 | appends the blank experience and leaves the rest; the form is then invalid |
| ResumeForm.ResumeFormState.AppendEducation | src/components/ResumeForm.tsx:551 | appends the blank education entry and leaves the rest; the form is then invalid |
| ResumeForm.ResumeFormState.AppendProject | src/components/ResumeForm.tsx:703 | appends the blank project and leaves the rest; the form is then invalid |
| ResumeForm.ResumeFormState.AppendAward | src/components/ResumeForm.tsx:767 | appends the blank award and leaves the rest; the form is then invalid |
| ResumeForm.ResumeFormState.AppendCertification | src/components/ResumeForm.tsx:838 | appends the blank certification and leaves the rest; the form is then invalid |
| ResumeForm.ResumeFormState.AppendReference | src/components/ResumeForm.tsx:913 | appends the blank reference and leaves the rest; the form is then invalid |
| ResumeForm.ResumeFormState.RemoveExperience | src/components/ResumeForm.tsx:469 | removes entry k and leaves the rest; a valid form stays valid |
| ResumeForm.ResumeFormState.RemoveEducation | src/components/ResumeForm.tsx:566 | removes entry k and leaves the rest; a valid form stays valid |
| ResumeForm.ResumeFormState.RemoveProject | src/components/ResumeForm.tsx:718 | removes entry k and leaves the rest; a valid form stays valid |
| ResumeForm.ResumeFormState.RemoveAward | src/components/ResumeForm.tsx:782 | removes entry k and leaves the rest; a valid form stays valid |
| ResumeForm.ResumeFormState.RemoveCertification | src/components/ResumeForm.tsx:853 | removes entry k and leaves the rest; a valid form stays valid |
| ResumeForm.ResumeFormState.RemoveReference | src/components/ResumeForm.tsx:928 | removes entry k and leaves the rest; a valid form stays valid |
| Hermes.PlacedCons | src/components/templates/greek/hermes.tsx:178-205 | filtering an order by the column rule takes its first section or not, then filters the rest |
| Hermes.LeftColumn | src/components/templates/greek/hermes.tsx:178-189 | the left column as the JSX builds it (no contract; LeftColumnSpec, Columns, LayoutPartition, MovingSections) |
| Hermes.RightColumn | src/components/templates/greek/hermes.tsx:191-205 | the right column as the JSX builds it (no contract; RightColumnSpec, Columns, LayoutPartition, MovingSections) |
| Hermes.LeftColumnTail | src/components/templates/greek/hermes.tsx:182-187 | projects and references enter the left column, in that order, only with fewer than three experience entries |
| Hermes.LeftColumnSpec | src/components/templates/greek/hermes.tsx:178-189 | the left column is the fixed order experience, interests, projects, references filtered by the placement rule |
| Hermes.RightColumnTail | src/components/templates/greek/hermes.tsx:196-203 | after education, the right column holds projects, awards, languages and references, each by its rule |
| Hermes.RightColumnSpec | src/components/templates/greek/hermes.tsx:191-205 | the right column is the fixed order skills, certifications, education, projects, awards, languages, references filtered by the placement rule |
| Hermes.PlacedMembers | src/components/templates/greek/hermes.tsx:178-205 | a section is in a filtered column iff it is in the order and the rule places it there |
| Hermes.PlacedDistinct | src/components/templates/greek/hermes.tsx:178-205 | filtering a duplicate-free order gives a duplicate-free column |
| Hermes.Columns | src/components/templates/greek/hermes.tsx:178-205 | each column holds exactly the sections its rule places there, each once |
| Hermes.OrdersDistinct | src/components/templates/greek/hermes.tsx:178-205 | neither fixed column order repeats a section |
| Hermes.LayoutPartition | src/components/templates/greek/hermes.tsx:178-205 | no section is in both columns, and a section is shown iff its list has entries |
| Hermes.MovingSections | src/components/templates/greek/hermes.tsx:182-185 | projects and references are left iff they have entries and experience has fewer than 3 entries, right iff they have entries and more than 2 |
| Hermes.DateRange | src/components/templates/greek/hermes.tsx:52 | the start date through `parseMonthYear`, ` - `, then `Present` when the end date is absent or empty and the end date through `parseMonthYear` otherwise |
| Hermes.DescriptionLines | src/components/templates/greek/hermes.tsx:57-59 | no description gives no lines; otherwise the lines hold no newline and joined by newlines give back the description |
| Hermes.SkillTags | src/components/templates/greek/hermes.tsx:70-74 | the keywords of every skill category, flattened in order (no contract; SkillTagsAppend) |
| Hermes.SkillTagsAppend | src/components/templates/greek/hermes.tsx:70-74 | the tags of a list of categories are the tags of each part in order, and one category shows its keywords |
| Hermes.ReferenceContact | src/components/templates/greek/hermes.tsx:171 | e-mail and phone are never shown empty: an empty or missing value shows `-`, any other value is shown as it is |
| Preview.TemplateParam | src/pages/Preview.tsx:26 | a missing or empty stored value gives `cigar`; any other value is kept |
| Preview.SelectedTemplate | src/pages/Preview.tsx:26-30 | a selected template is always whitelisted; a stored value is selected iff it is on the eight-name whitelist, and none otherwise; nothing stored gives `cigar` |
| Preview.LowerChar | src/pages/Preview.tsx:81 | an upper-case ASCII letter becomes its lower-case letter, every other character is kept; white space stays white space |
| Preview.Lower | src/pages/Preview.tsx:81 | `toLowerCase` keeps the length and lower-cases each character in its place |
| Preview.Emit | src/pages/Preview.tsx:81 | one character of `replace(/\s+/g, '-')`: white space starting a run gives `-`, inside a run nothing, anything else itself (no contract) |
| Preview.Collapse | src/pages/Preview.tsx:81 | `replace(/\s+/g, '-')` as a left-to-right scan (no contract; CollapseNoSpace, CollapseAppend, CollapseRun) |
| Preview.DashRuns | src/pages/Preview.tsx:81 | `replace(/\s+/g, '-')` (no contract; DashRunsJoin, DashRunsOfPlain, DashRunsExample) |
| Preview.ExportFileName | src/pages/Preview.tsx:81 | the file name is `DashRuns(Lower(name))` followed by `-resume.pdf`, and holds no white space |
| Preview.CollapseNoSpace | src/pages/Preview.tsx:81 | replacing white-space runs leaves no white space |
| Preview.DashRunsOfPlain | src/pages/Preview.tsx:81 | text without white space is left unchanged |
| Preview.CollapseAppend | src/pages/Preview.tsx:81 | the run replacement of a concatenation is that of its parts, the second part knowing whether the first ended in white space |
| Preview.CollapseCons | src/pages/Preview.tsx:81 | the replacement handles one character and then the rest |
| Preview.CollapseRun | src/pages/Preview.tsx:81 | a whole white-space run becomes a single `-`, or nothing when it continues a run |
| Preview.DashRunsJoin | src/pages/Preview.tsx:81 | a white-space run of any length between two words becomes exactly one `-` |
| Preview.LowerExample | src/pages/Preview.tsx:81 | `Jo  Li` lower-cases to `jo  li` |
| Preview.DashRunsExample | src/pages/Preview.tsx:81 | `jo  li` becomes `jo-li` |
| Preview.ExportFileNameExample | src/pages/Preview.tsx:81 | the name `Jo  Li` gives the file name `jo-li-resume.pdf` |
| Preview.InitialResumeData | src/pages/Preview.tsx:34-53 | the initial resume has every personal string empty and every list section empty |
| Preview.InitialLayoutEmpty | src/pages/Preview.tsx:34-53 | the initial resume shows no section in either Hermes column |
| Templates.FirstIndex | src/pages/Templates.tsx:75 | the first position of a present value |
| Templates.Dedupe | src/pages/Templates.tsx:75 | `Array.from(new Set(xs))` holds the same values as `xs`, each once |
| Templates.CategoryOf | src/pages/Templates.tsx:75 | `map(t => t.category)` keeps the length and takes each template's category in place |
| Templates.Categories | src/pages/Templates.tsx:75 | `All`, then `Array.from(new Set(categories))`: every template category exactly once and nothing else |
| Templates.CategoriesFirstSeen | src/pages/Templates.tsx:75 | after `All` the categories follow the order of their first appearance in the gallery |
| Templates.FirstIndexUnique | src/pages/Templates.tsx:75 | a position holding the value with no earlier copy is its first position |
| Templates.FirstIndexPrefix | src/pages/Templates.tsx:75 | appending a value does not move the first position of a value already present |
| Templates.DedupeOrder | src/pages/Templates.tsx:75 | the distinct values keep first-appearance order |
| Templates.DedupeOfDistinct | src/pages/Templates.tsx:75 | a list without duplicates is kept as it is |
| Templates.GalleryCategoryList | src/pages/Templates.tsx:15-68 | the four templates' categories are Professional, Modern, Minimalist, Creative, all distinct |
| Templates.GalleryCategories | src/pages/Templates.tsx:15-75 | for the gallery, the category list is `All`, Professional, Modern, Minimalist, Creative |
| Templates.ByCategory | src/pages/Templates.tsx:78 | the filter keeps exactly the templates of the category and never lengthens the list |
| Templates.Filtered | src/pages/Templates.tsx:76-78 | `All` gives the templates unchanged; another category gives `ByCategory`, exactly its templates in gallery order |
| Templates.ByCategoryAppend | src/pages/Templates.tsx:78 | the filter keeps order: it distributes over concatenation |
| Templates.CategoryNotEmpty | src/pages/Templates.tsx:75-78 | selecting a listed category other than `All` never shows an empty grid |
| Templates.FilterExample | src/pages/Templates.tsx:15-78 | `Modern` shows only the second template, and an unknown category shows nothing |
| Templates.TemplateParamOf | src/pages/Templates.tsx:83 | a template id read from a target, as the raw text after `/preview?template=`, really is the id the target was built from |
| Templates.NavigationTarget | src/pages/Templates.tsx:83 | the address `/preview?template=<id>` (no contract; NavigationRoundTrip) |
| Templates.NavigationRoundTrip | src/pages/Templates.tsx:83 | selecting template `id` navigates to a target that carries exactly `id` |
| Templates.CreateNewCarriesNoTemplate | src/pages/Templates.tsx:91 | the "create new" target `/preview?templates=classic` carries no `template` parameter |
| Templates.FindById | src/pages/Templates.tsx:81 | `find` gives the first listed template with the id, and nothing exactly when no template has it |
| Templates.GalleryIdsNotAccepted | src/pages/Templates.tsx:15-68 | no gallery template id is on the preview page's whitelist |
| Templates.TemplatesPage.constructor | src/pages/Templates.tsx:71-72 | the page starts on `All` with nothing hovered, showing the whole gallery |
| Templates.TemplatesPage.Shown | src/pages/Templates.tsx:76-78 | the templates the grid shows: the filter of the gallery by the selected category (no contract; constructor, SelectCategory) |
| Templates.TemplatesPage.SelectCategory | src/pages/Templates.tsx:120 | the category is set, the hover kept, and the grid shows `ByCategory` of the gallery: exactly that category's templates in order |
| Templates.TemplatesPage.Enter | src/pages/Templates.tsx:139 | the hovered template becomes the given one; the category is kept |
| Templates.TemplatesPage.Leave | src/pages/Templates.tsx:140 | nothing is hovered; the category is kept |
| Templates.TemplatesPage.SelectTemplate | src/pages/Templates.tsx:80-85 | selection gives a target carrying exactly the chosen id |

## Left out

- Locale date rendering: the `YYYY-MM` branch of `formatDate` and the valid-date branch of `parseMonthYear` use `Date` and `toLocaleDateString`. They are function parameters of `Helper.FormatDate` and `Helper.ParseMonthYear`.
- The yup `email()` and `url()` formats are not defined here. They are the two predicates in `Schema.Formats`.
- yup casting beyond the `stringToArray` transforms: those are modelled by `ResumeForm.Cast`; yup's other casts (numbers to strings and the like) are not, because the model's records already have the form's types.
- react-hook-form internals (`register`, `Controller`, the resolver plumbing). `useFieldArray` append and remove are modelled as sequence updates on `ResumeForm.ResumeFormState`.
- ResumeForm.CastField: a missing value stands for `undefined`, which yup does not transform. A `null`, which the transform would turn into `[]`, is not told apart from it.
- Templates.TemplateParamOf: reads the raw text after `?template=`, not a URL-decoded query value, so an id holding `+`, `&`, `#` or `%` is not treated as a browser would. The preview page reads the template id from local storage, not from the address.
- localStorage and `JSON.parse`/`JSON.stringify`: the stored template id is a parameter (`Option<string>`), and neither saving the form on submit nor reloading saved form values on mount (the `reset` of the stored data) is modelled; the form starts from the defaults.
- The network: `formRequest`, the PDF blob, `URL.createObjectURL`, `saveAs` and the PDF viewer. With them go the loading and PDF-url state of `handleFormSubmit` and `handleExportPDF`.
- Toasts and `setTimeout`: `Templates.TemplatesPage.SelectTemplate` returns the target at once. The toast text is not modelled beyond the `FindById` lookup it uses.
- src/pages/Login.tsx (OAuth popups, polling, `postMessage`, cookies) is not part of this model.
- The src/components/forms/*.tsx components are not part of this model. Their blank records repeat those in ResumeForm.tsx.
- JSX markup, CSS, the theme, the routes and the store are not part of this model.
- Preview.LowerChar: lower-cases ASCII letters only, where `toLowerCase` also maps other scripts.
- ResumeForm.ProcessProject: a non-string technologies value is modelled as a list or as missing. Other truthy values such as numbers or objects, which `|| []` would pass through, are not modelled.
