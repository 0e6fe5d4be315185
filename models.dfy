/**
 * The two Mongoose schemas of the portfolio backend, `User` and `Project`,
 * as datatypes, with the normalising constructors that apply each schema's
 * setters (`trim`, `lowercase`), defaults and `required` checks before a
 * document is saved.
 */
module Models {
  import opened Wrappers
  import opened JsString

  /** A server-generated document identity. */
  type Id = nat

  /** Milliseconds since the epoch, as `Date.now()` returns them. */
  type Millis = nat

  datatype User = User(
    id: Id,
    username: string,
    email: string,
    password: string,    // the stored hash, never the plaintext
    resumeUrl: string,
    createdAt: Millis)

  datatype Project = Project(
    id: Id,
    title: string,
    summary: string,
    description: string,
    technologies: seq<string>,
    skillsLearned: seq<string>,
    imageUrl: string,
    projectUrl: string,
    githubUrl: string,
    featured: bool,
    createdAt: Millis,
    updatedAt: Millis)

  /** The project fields of a request body; `None` is a field the body leaves `undefined`. */
  datatype ProjectInput = ProjectInput(
    title: Option<string>,
    summary: Option<string>,
    description: Option<string>,
    technologies: Option<seq<string>>,
    skillsLearned: Option<seq<string>>,
    imageUrl: Option<string>,
    projectUrl: Option<string>,
    githubUrl: Option<string>,
    featured: Option<bool>)

  /** The paths that carry a `required` check. */
  datatype Path = Username | Email | Password | Title | Summary | Description
  {
    /** The path's name in the schema. */
    function Name(): string {
      match this
      case Username => "username"
      case Email => "email"
      case Password => "password"
      case Title => "title"
      case Summary => "summary"
      case Description => "description"
    }
  }

  /** A document Mongoose refuses to save: the paths whose `required` check
      failed, in schema order. */
  datatype ValidationError = Required(paths: seq<Path>)

  /** The `username` path's setters: `trim`. */
  function NormUsername(s: string): string {
    Trim(s)
  }

  /** The `email` path's setters: `trim` and `lowercase`. */
  function NormEmail(s: string): string {
    ToLower(Trim(s))
  }

  /** Mongoose's `required` check on a String path: set, and not the empty string. */
  predicate Given(v: Option<string>) {
    v.Some? && v.value != ""
  }

  /** What every saved user satisfies. */
  predicate WellFormedUser(u: User) {
    && u.username != "" && IsTrimmed(u.username)
    && u.email != "" && IsTrimmed(u.email) && IsLower(u.email)
    && u.password != ""
  }

  /** The path, when its check fails. */
  function Failing(p: Path, ok: bool): (r: seq<Path>)
    ensures p in r <==> !ok
    ensures forall q :: q in r ==> q == p
  {
    if ok then [] else [p]
  }

  /** A normalised e-mail is trimmed and lower case. */
  lemma NormEmailShape(email: string)
    ensures IsTrimmed(NormEmail(email)) && IsLower(NormEmail(email))
  {
    LowerTrimCommute(email);
  }

  /** `new User({username, email, password})` followed by validation. */
  function NewUser(id: Id, username: string, email: string, passwordHash: string, now: Millis)
    : (r: Result<User, ValidationError>)
    ensures r.Ok? <==> NormUsername(username) != "" && NormEmail(email) != "" && passwordHash != ""
    ensures r.Ok? ==> WellFormedUser(r.value)
    ensures r.Ok? ==> r.value.id == id && r.value.username == Trim(username)
                      && r.value.email == ToLower(Trim(email)) && r.value.password == passwordHash
    ensures r.Ok? ==> r.value.resumeUrl == "" && r.value.createdAt == now
    ensures r.Err? ==> && (Username in r.error.paths <==> NormUsername(username) == "")
                       && (Email in r.error.paths <==> NormEmail(email) == "")
                       && (Password in r.error.paths <==> passwordHash == "")
  {
    var u := NormUsername(username);
    var e := NormEmail(email);
    if u != "" && e != "" && passwordHash != "" then
      NormEmailShape(email);
      Ok(User(id, u, e, passwordHash, "", now))
    else
      Err(Required(Failing(Username, u != "") + Failing(Email, e != "") + Failing(Password, passwordHash != "")))
  }

  /** Saving a stored user's own fields again changes nothing: the schema's
      setters are idempotent. */
  lemma NewUserIdempotent(u: User)
    requires WellFormedUser(u) && u.resumeUrl == ""
    ensures NewUser(u.id, u.username, u.email, u.password, u.createdAt) == Ok(u)
  {
    LowerIsFixed(u.email);
  }

  /** What every project built by `NewProject` satisfies. */
  predicate WellFormedProject(p: Project) {
    && p.title != "" && IsTrimmed(p.title)
    && p.summary != "" && p.description != ""
    && p.createdAt <= p.updatedAt
  }

  /** The fields of a project as a request body that sets every one of them. */
  function InputOf(p: Project): ProjectInput {
    ProjectInput(Some(p.title), Some(p.summary), Some(p.description),
                 Some(p.technologies), Some(p.skillsLearned),
                 Some(p.imageUrl), Some(p.projectUrl), Some(p.githubUrl), Some(p.featured))
  }

  /** `new Project({...})` followed by validation: `title` is trimmed, missing
      lists and strings take their defaults, both timestamps are `now`. */
  function NewProject(id: Id, input: ProjectInput, now: Millis): (r: Result<Project, ValidationError>)
    ensures r.Ok? <==> && input.title.Some? && Trim(input.title.value) != ""
                       && Given(input.summary) && Given(input.description)
    ensures r.Ok? ==> WellFormedProject(r.value) && r.value.id == id
    ensures r.Ok? ==> && r.value.title == Trim(input.title.value)
                      && r.value.summary == input.summary.value
                      && r.value.description == input.description.value
    ensures r.Ok? ==> && r.value.technologies == OrDefault(input.technologies, [])
                      && r.value.skillsLearned == OrDefault(input.skillsLearned, [])
                      && r.value.imageUrl == OrDefault(input.imageUrl, "")
                      && r.value.projectUrl == OrDefault(input.projectUrl, "")
                      && r.value.githubUrl == OrDefault(input.githubUrl, "")
                      && r.value.featured == OrDefault(input.featured, false)
    ensures r.Ok? ==> r.value.createdAt == now && r.value.updatedAt == now
    ensures r.Err? ==> && (Title in r.error.paths <==> input.title.None? || Trim(input.title.value) == "")
                       && (Summary in r.error.paths <==> !Given(input.summary))
                       && (Description in r.error.paths <==> !Given(input.description))
  {
    var title := if input.title.Some? then Trim(input.title.value) else "";
    if title != "" && Given(input.summary) && Given(input.description) then
      Ok(Project(id, title, input.summary.value, input.description.value,
                 OrDefault(input.technologies, []), OrDefault(input.skillsLearned, []),
                 OrDefault(input.imageUrl, ""), OrDefault(input.projectUrl, ""),
                 OrDefault(input.githubUrl, ""), OrDefault(input.featured, false),
                 now, now))
    else
      Err(Required(Failing(Title, title != "") + Failing(Summary, Given(input.summary))
                   + Failing(Description, Given(input.description))))
  }

  /** A field's value when the body gives it, the schema's default otherwise. */
  function OrDefault<T>(v: Option<T>, default: T): T {
    if v.Some? then v.value else default
  }

  /** Optional fields left out of the body take the schema's defaults: empty
      lists, empty URLs, not featured. */
  lemma NewProjectDefaults(id: Id, title: string, summary: string, description: string, now: Millis)
    requires Trim(title) != "" && summary != "" && description != ""
    ensures var r := NewProject(id, ProjectInput(Some(title), Some(summary), Some(description),
                                                 None, None, None, None, None, None), now);
      && r.Ok?
      && r.value.technologies == [] && r.value.skillsLearned == []
      && r.value.imageUrl == "" && r.value.projectUrl == "" && r.value.githubUrl == ""
      && !r.value.featured
  {
  }

  /** A well-formed project created at one instant is rebuilt exactly from its own fields. */
  lemma NewProjectRoundTrip(p: Project)
    requires WellFormedProject(p) && p.createdAt == p.updatedAt
    ensures NewProject(p.id, InputOf(p), p.createdAt) == Ok(p)
  {
  }
}
