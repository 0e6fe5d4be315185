/**
 * The pure parts of the admin dashboard: how a comma-separated tag field
 * becomes a list and back, how an input event updates the form, which
 * résumé file the picker keeps, and where the "View Current Resume" link
 * points.
 */
module AdminPage {
  import opened Wrappers
  import opened JsString
  import opened Models
  import opened Upload
  import opened Server

  // ---------------------------------------------------------------- tags

  /** `xs.map(t => t.trim())`. */
  function TrimAll(xs: seq<string>): (r: seq<string>)
    ensures |r| == |xs| && forall i :: 0 <= i < |xs| ==> r[i] == Trim(xs[i])
  {
    if xs == [] then [] else [Trim(xs[0])] + TrimAll(xs[1..])
  }

  /** `xs.filter(t => t)`: the non-empty strings, in order. */
  function DropEmpty(xs: seq<string>): (r: seq<string>)
    ensures forall i :: 0 <= i < |r| ==> r[i] != "" && r[i] in xs
    ensures (forall i :: 0 <= i < |xs| ==> xs[i] != "") ==> r == xs
    ensures (forall i :: 0 <= i < |xs| ==> xs[i] == "") ==> r == []
    ensures forall x :: x in r <==> x in xs && x != ""
  {
    if xs == [] then []
    else if xs[0] == "" then DropEmpty(xs[1..])
    else [xs[0]] + DropEmpty(xs[1..])
  }

  /** Filtering a concatenation filters each part and keeps them in order. */
  lemma {:induction false} DropEmptyAppend(a: seq<string>, b: seq<string>)
    ensures DropEmpty(a + b) == DropEmpty(a) + DropEmpty(b)
    decreases |a|
  {
    if a == [] {
      assert a + b == b;
    } else {
      assert (a + b)[0] == a[0] && (a + b)[1..] == a[1..] + b;
      DropEmptyAppend(a[1..], b);
    }
  }

  /** A well-formed tag: non-empty, trimmed, and without a comma. */
  predicate IsTag(t: string) {
    t != "" && IsTrimmed(t) && ',' !in t
  }

  /** `field.split(',').map(t => t.trim()).filter(t => t)`, the form's
      technologies and skills as submitted. */
  function ParseTags(field: string): (r: seq<string>)
    ensures forall i :: 0 <= i < |r| ==> IsTag(r[i])
    ensures (forall i :: 0 <= i < |field| ==> field[i] == ',' || IsSpace(field[i])) ==> r == []
    ensures forall k :: 0 <= k < |Split(field, ',')| && Trim(Split(field, ',')[k]) != "" ==>
      Trim(Split(field, ',')[k]) in r
    ensures forall t :: t in r ==> exists k :: 0 <= k < |Split(field, ',')| && t == Trim(Split(field, ',')[k])
  {
    var pieces := Split(field, ',');
    var trimmed := TrimAll(pieces);
    SeparatorsOnly(field);
    DropEmpty(trimmed)
  }

  /** What one comma-free piece contributes: its trimmed text, unless blank. */
  function PieceTag(piece: string): (r: seq<string>)
    ensures |r| <= 1 && (r == [] <==> Trim(piece) == "")
    ensures r != [] ==> r == [Trim(piece)]
  {
    if Trim(piece) == "" then [] else [Trim(piece)]
  }

  /** A field without a comma gives at most its one trimmed piece. */
  lemma ParseTagsSingle(piece: string)
    requires ',' !in piece
    ensures ParseTags(piece) == PieceTag(piece)
  {
    SplitNoSeparator(piece, ',');
    var t := Trim(piece);
    assert TrimAll([piece]) == [t];
    assert [t][1..] == [];
    assert DropEmpty([t]) == PieceTag(piece);
  }

  /** The tags of `piece,rest` are the piece's tag followed by the tags of
      `rest`, so the tags keep the order in which they were typed. */
  lemma ParseTagsCons(piece: string, rest: string)
    requires ',' !in piece
    ensures ParseTags(piece + "," + rest) == PieceTag(piece) + ParseTags(rest)
  {
    SplitPrefix(piece, ',', rest);
    assert piece + "," + rest == piece + [','] + rest;
    var tail := TrimAll(Split(rest, ','));
    TrimAllCons(piece, Split(rest, ','));
    DropEmptyAppend([Trim(piece)], tail);
    DropEmptySingle(Trim(piece));
  }

  lemma TrimAllCons(x: string, xs: seq<string>)
    ensures TrimAll([x] + xs) == [Trim(x)] + TrimAll(xs)
  {
    assert ([x] + xs)[1..] == xs;
  }

  lemma DropEmptySingle(t: string)
    ensures DropEmpty([t]) == if t == "" then [] else [t]
  {
    assert [t][1..] == [];
  }

  /** A field of commas and white space splits into blank pieces only. */
  lemma SeparatorsOnly(field: string)
    ensures (forall i :: 0 <= i < |field| ==> field[i] == ',' || IsSpace(field[i])) ==>
              forall k :: 0 <= k < |Split(field, ',')| ==> Trim(Split(field, ',')[k]) == ""
  {
    SplitPieces(field, ',');
    var pieces := Split(field, ',');
    if forall i :: 0 <= i < |field| ==> field[i] == ',' || IsSpace(field[i]) {
      forall k | 0 <= k < |pieces| ensures Trim(pieces[k]) == "" {
        assert AllSpace(pieces[k]);
      }
    }
  }

  /** `tags.join(', ')`, the list shown in the edit form. */
  function JoinTags(tags: seq<string>): string {
    Join(tags, ", ")
  }

  /** Every character of a piece of a split comes from the split string. */
  lemma {:induction false} SplitPieces(s: string, d: char)
    ensures forall k, j :: 0 <= k < |Split(s, d)| && 0 <= j < |Split(s, d)[k]| ==> Split(s, d)[k][j] in s
    decreases |s|
  {
    if |s| > 0 {
      SplitPieces(s[1..], d);
      var rest := Split(s[1..], d);
      var r := Split(s, d);
      forall k, j | 0 <= k < |r| && 0 <= j < |r[k]| ensures r[k][j] in s {
        if s[0] != d && k == 0 {
          if j > 0 { assert r[0][j] == rest[0][j - 1]; }
        } else if s[0] != d {
          assert r[k] == rest[k];
        } else if k > 0 {
          assert r[k] == rest[k - 1];
        }
      }
    }
  }

  /** Each word after the first, with the blank that `', '` puts before it. */
  function Blanked(xs: seq<string>): (r: seq<string>)
    ensures |r| == |xs| && forall i :: 0 <= i < |xs| ==> r[i] == " " + xs[i]
  {
    seq(|xs|, i requires 0 <= i < |xs| => " " + xs[i])
  }

  lemma {:induction false} JoinBlanked(xs: seq<string>)
    requires |xs| >= 1
    ensures " " + Join(xs, ", ") == Join(Blanked(xs), [','])
    decreases |xs|
  {
    if |xs| > 1 {
      JoinBlanked(xs[1..]);
      assert Blanked(xs)[1..] == Blanked(xs[1..]);
    }
  }

  /** Joining with `', '` is joining at the comma with blanks in front. */
  lemma JoinCommaBlank(xs: seq<string>)
    requires |xs| >= 2
    ensures JoinTags(xs) == Join([xs[0]] + Blanked(xs[1..]), [','])
  {
    JoinBlanked(xs[1..]);
    assert ([xs[0]] + Blanked(xs[1..]))[1..] == Blanked(xs[1..]);
  }

  /** The edit form's text parses back into the very tags it was made from. */
  lemma TagsRoundTrip(tags: seq<string>)
    requires forall i :: 0 <= i < |tags| ==> IsTag(tags[i])
    ensures ParseTags(JoinTags(tags)) == tags
  {
    if |tags| == 0 {
      assert TrimAll(Split("", ',')) == [""];
    } else {
      var pieces := [tags[0]] + Blanked(tags[1..]);
      SplitTagList(tags);
      TrimTagPieces(tags);
      assert TrimAll(Split(JoinTags(tags), ',')) == tags;
    }
  }

  /** The text of a non-empty tag list splits at its commas into the first tag
      and the others with their leading blank. */
  lemma SplitTagList(tags: seq<string>)
    requires |tags| > 0 && forall i :: 0 <= i < |tags| ==> IsTag(tags[i])
    ensures Split(JoinTags(tags), ',') == [tags[0]] + Blanked(tags[1..])
  {
    var pieces := [tags[0]] + Blanked(tags[1..]);
    if |tags| == 1 {
      SplitNoSeparator(tags[0], ',');
    } else {
      JoinCommaBlank(tags);
      forall k | 0 <= k < |pieces| ensures ',' !in pieces[k] {
        if k > 0 { assert pieces[k] == " " + tags[k]; }
      }
      SplitJoin(pieces, ',');
    }
  }

  /** Trimming those pieces gives the tags back. */
  lemma TrimTagPieces(tags: seq<string>)
    requires |tags| > 0 && forall i :: 0 <= i < |tags| ==> IsTag(tags[i])
    ensures TrimAll([tags[0]] + Blanked(tags[1..])) == tags
  {
    var pieces := [tags[0]] + Blanked(tags[1..]);
    var t := TrimAll(pieces);
    forall k | 0 <= k < |pieces| ensures t[k] == tags[k] {
      TrimPiece(tags, k);
    }
  }

  lemma TrimPiece(tags: seq<string>, k: nat)
    requires k < |tags| && forall i :: 0 <= i < |tags| ==> IsTag(tags[i])
    ensures Trim(([tags[0]] + Blanked(tags[1..]))[k]) == tags[k]
  {
    if k == 0 {
      assert IsTrimmed(tags[0]);
    } else {
      assert ([tags[0]] + Blanked(tags[1..]))[k] == [' '] + tags[k];
      TrimAfterSpace(' ', tags[k]);
    }
  }


  /** Saving a form and opening it again for editing changes nothing more. */
  lemma ParseTagsIdempotent(field: string)
    ensures ParseTags(JoinTags(ParseTags(field))) == ParseTags(field)
  {
    TagsRoundTrip(ParseTags(field));
  }

  // ---------------------------------------------------------------- form

  /** The form's state, one entry per input. */
  datatype Form = Form(
    title: string, summary: string, description: string,
    technologies: string, skillsLearned: string,
    imageUrl: string, projectUrl: string, githubUrl: string,
    featured: bool)

  const EmptyForm := Form("", "", "", "", "", "", "", "", false)

  /** The text inputs, by the `name` they carry. */
  datatype TextField = Title | Summary | Description | Technologies | SkillsLearned | ImageUrl | ProjectUrl | GithubUrl

  function FieldNamed(name: string): Option<TextField> {
    if name == "title" then Some(TextField.Title)
    else if name == "summary" then Some(TextField.Summary)
    else if name == "description" then Some(TextField.Description)
    else if name == "technologies" then Some(Technologies)
    else if name == "skillsLearned" then Some(SkillsLearned)
    else if name == "imageUrl" then Some(ImageUrl)
    else if name == "projectUrl" then Some(ProjectUrl)
    else if name == "githubUrl" then Some(GithubUrl)
    else None
  }

  function Text(f: Form, field: TextField): string {
    match field
    case Title => f.title
    case Summary => f.summary
    case Description => f.description
    case Technologies => f.technologies
    case SkillsLearned => f.skillsLearned
    case ImageUrl => f.imageUrl
    case ProjectUrl => f.projectUrl
    case GithubUrl => f.githubUrl
  }

  function SetText(f: Form, field: TextField, v: string): (r: Form)
    ensures Text(r, field) == v && r.featured == f.featured
    ensures forall g :: g != field ==> Text(r, g) == Text(f, g)
  {
    match field
    case Title => f.(title := v)
    case Summary => f.(summary := v)
    case Description => f.(description := v)
    case Technologies => f.(technologies := v)
    case SkillsLearned => f.(skillsLearned := v)
    case ImageUrl => f.(imageUrl := v)
    case ProjectUrl => f.(projectUrl := v)
    case GithubUrl => f.(githubUrl := v)
  }

  /** The `e.target` of a change event. */
  datatype InputTarget = InputTarget(name: string, kind: string, value: string, checked: bool)

  const FeaturedName := "featured"
  const CheckboxKind := "checkbox"

  /** `handleInputChange`: the named entry takes `checked` for a checkbox and
      `value` otherwise; every other entry keeps its value. */
  function HandleInputChange(f: Form, e: InputTarget): (r: Form)
    ensures e.kind == CheckboxKind && e.name == FeaturedName ==> r == f.(featured := e.checked)
    ensures e.kind != CheckboxKind && FieldNamed(e.name).Some? ==>
      && Text(r, FieldNamed(e.name).value) == e.value && r.featured == f.featured
      && forall g :: g != FieldNamed(e.name).value ==> Text(r, g) == Text(f, g)
    ensures (e.kind == CheckboxKind && e.name != FeaturedName) || (e.kind != CheckboxKind && FieldNamed(e.name).None?) ==> r == f
  {
    if e.kind == CheckboxKind then
      if e.name == FeaturedName then f.(featured := e.checked) else f
    else
      match FieldNamed(e.name)
      case None => f
      case Some(field) => SetText(f, field, e.value)
  }

  /** `handleEdit`: the form filled from a project, lists joined with `', '`. */
  function EditForm(p: Project): (r: Form)
    ensures p.technologies == [] ==> r.technologies == ""
    ensures p.skillsLearned == [] ==> r.skillsLearned == ""
    ensures r.technologies == JoinTags(p.technologies) && r.skillsLearned == JoinTags(p.skillsLearned)
    ensures r.title == p.title && r.summary == p.summary && r.description == p.description && r.featured == p.featured
    ensures r.imageUrl == p.imageUrl && r.projectUrl == p.projectUrl && r.githubUrl == p.githubUrl
  {
    Form(p.title, p.summary, p.description, JoinTags(p.technologies), JoinTags(p.skillsLearned),
         p.imageUrl, p.projectUrl, p.githubUrl, p.featured)
  }

  /** The body `handleSubmit` sends: the form, with the uploaded image's URL
      and the tag fields parsed into lists. */
  function Submission(f: Form, imageUrl: string): (r: ProjectInput)
    ensures r.technologies == Some(ParseTags(f.technologies)) && r.skillsLearned == Some(ParseTags(f.skillsLearned))
    ensures r.imageUrl == Some(imageUrl) && r.title == Some(f.title) && r.featured == Some(f.featured)
    ensures r.summary == Some(f.summary) && r.description == Some(f.description)
    ensures r.projectUrl == Some(f.projectUrl) && r.githubUrl == Some(f.githubUrl)
  {
    ProjectInput(Some(f.title), Some(f.summary), Some(f.description),
                 Some(ParseTags(f.technologies)), Some(ParseTags(f.skillsLearned)),
                 Some(imageUrl), Some(f.projectUrl), Some(f.githubUrl), Some(f.featured))
  }

  /** Editing a project and saving it unchanged leaves it as it was, apart
      from its update time, when its title is trimmed and its tags are well formed. */
  lemma EditThenSaveKeepsTags(p: Project, now: Millis)
    requires IsTrimmed(p.title)
    requires forall i :: 0 <= i < |p.technologies| ==> IsTag(p.technologies[i])
    requires forall i :: 0 <= i < |p.skillsLearned| ==> IsTag(p.skillsLearned[i])
    ensures Patched(p, Submission(EditForm(p), p.imageUrl), now) == p.(updatedAt := now)
  {
    TagsRoundTrip(p.technologies);
    TagsRoundTrip(p.skillsLearned);
  }

  // -------------------------------------------------------------- résumé

  /** `handleResumeChange`: the picked file replaces the kept one only when
      its type is exactly `application/pdf`; otherwise the page alerts. */
  datatype ResumePick = ResumePick(file: Option<IncomingFile>, alerted: bool)

  function HandleResumeChange(kept: Option<IncomingFile>, picked: Option<IncomingFile>): (r: ResumePick)
    ensures r.file != kept ==> picked.Some? && picked.value.mimetype == PdfMimeType && r.file == picked
    ensures picked.Some? && picked.value.mimetype == PdfMimeType ==> r.file == picked && !r.alerted
    ensures r.alerted <==> picked.Some? && picked.value.mimetype != PdfMimeType
  {
    match picked
    case None => ResumePick(kept, false)
    case Some(file) =>
      if file.mimetype != PdfMimeType then ResumePick(kept, true)
      else ResumePick(picked, false)
  }

  /** A PDF the page keeps, named `<stem>.pdf`, also passes the server's filter. */
  lemma KeptPdfPassesFilter(kept: Option<IncomingFile>, picked: IncomingFile, stem: string)
    requires HandleResumeChange(kept, Some(picked)).file == Some(picked) && Some(picked) != kept
    requires stem != "" && '/' !in stem && picked.originalname == stem + "." + "pdf"
    ensures FileFilter(picked.originalname, picked.mimetype).Accept?
  {
    PdfPasses(stem, picked.mimetype);
  }

  const DefaultOrigin := "http://localhost:5000"

  /** Removing the only occurrence of a pattern empties exactly the pattern itself. */
  lemma RemoveLeavesEmpty(v: string, pat: string)
    requires pat != ""
    ensures ReplaceFirst(v, pat, "") == "" <==> v == "" || v == pat
  {
    match IndexOf(v, pat)
    case None =>
      assert !OccursAt(v, pat, 0);
    case Some(i) =>
      var r := ReplaceFirst(v, pat, "");
      assert r == v[..i] + v[i + |pat|..];
      if r == "" {
        assert |v| == |pat| && i == 0;
        assert v == v[0..|pat|];
      }
  }

  /** `REACT_APP_API_URL?.replace('/api', '') || 'http://localhost:5000'`:
      an unset variable, or one that is empty once `/api` is removed, falls
      back to the default. */
  function AdminOrigin(apiUrl: Option<string>): (r: string)
    ensures r != ""
    ensures apiUrl.None? ==> r == DefaultOrigin
    ensures apiUrl.Some? && (forall j :: !OccursAt(apiUrl.value, "/api", j)) && apiUrl.value != "" ==> r == apiUrl.value
    ensures apiUrl.Some? && |apiUrl.value| > 4 ==>
      forall i :: FirstOccurrence(apiUrl.value, "/api", i) ==> r == apiUrl.value[..i] + apiUrl.value[i + 4..]
    ensures apiUrl == Some("") || apiUrl == Some("/api") ==> r == DefaultOrigin
  {
    match apiUrl
    case None => DefaultOrigin
    case Some(v) =>
      RemoveLeavesEmpty(v, "/api");
      var stripped := ReplaceFirst(v, "/api", "");
      if stripped == "" then DefaultOrigin else stripped
  }

  /** The "View Current Resume" link: an absolute URL as it is, a path after
      the server's origin. */
  function ResumeLink(resumeUrl: string, apiUrl: Option<string>): (r: string)
    ensures StartsWith(resumeUrl, "http") ==> r == resumeUrl
    ensures !StartsWith(resumeUrl, "http") ==> r == AdminOrigin(apiUrl) + resumeUrl && |r| > |resumeUrl|
  {
    if StartsWith(resumeUrl, "http") then resumeUrl else AdminOrigin(apiUrl) + resumeUrl
  }
}
