/**
 * The route handlers of the backend over its two collections, users and
 * projects. The routes that write (`user.save()`, `project.save()`,
 * `findByIdAndUpdate`, `findByIdAndDelete`) are methods of the class
 * `Portfolio`, which holds the collections; the routes that only read are
 * functions of the collections. Each handler is one atomic step.
 * bcrypt is a pair of opaque functions, and a JSON Web Token is the set of
 * claims it carries. Protected routes receive the caller's id, which the
 * authentication middleware has already established.
 */
module Server {
  import opened Wrappers
  import opened JsString
  import opened Models
  import opened Upload

  // ------------------------------------------------------ collaborators

  /** bcrypt's `hash(password, 10)` and `compare(password, hash)`. */
  datatype Hasher = Hasher(hash: string -> string, compare: (string, string) -> bool)

  /** A password always matches its own hash. */
  ghost predicate Sound(h: Hasher) {
    forall p :: h.compare(p, h.hash(p))
  }

  /** `expiresIn: '7d'`, in seconds. */
  const TokenLifetime: nat := 7 * 24 * 60 * 60

  /** The claims of `jwt.sign({userId}, secret, {expiresIn: '7d'})`:
      issued and expiring in whole seconds. */
  datatype Token = Token(userId: Id, issuedAt: nat, expiresAt: nat)

  function Sign(userId: Id, now: Millis): Token {
    Token(userId, now / 1000, now / 1000 + TokenLifetime)
  }

  // ---------------------------------------------------------- responses

  /** The `user` object of the register and login responses. */
  datatype PublicUser = PublicUser(id: Id, username: string, email: string)

  function Public(u: User): PublicUser {
    PublicUser(u.id, u.username, u.email)
  }

  /** A user document read with `select('-password')`. */
  datatype Profile = Profile(id: Id, username: string, email: string, resumeUrl: string, createdAt: Millis)

  function ProfileOf(u: User): Profile {
    Profile(u.id, u.username, u.email, u.resumeUrl, u.createdAt)
  }

  const UserExistsMessage := "User already exists"
  const InvalidCredentialsMessage := "Invalid credentials"
  const ProjectNotFoundMessage := "Project not found"
  const ProjectDeletedMessage := "Project deleted successfully"
  const NoFileMessage := "No file uploaded"
  const ResumeNotFoundMessage := "Resume not found"
  const UploadsPrefix := "/uploads/"

  datatype RegisterOutcome = Registered(token: Token, user: PublicUser) | UserExists | RegisterError(error: ValidationError)
  {
    function Status(): nat {
      match this
      case Registered(_, _) => 201
      case UserExists => 400
      case RegisterError(_) => 500
    }
  }

  datatype LoginOutcome = LoggedIn(token: Token, user: PublicUser) | InvalidCredentials
  {
    function Status(): nat {
      if LoggedIn? then 200 else 401
    }
  }

  datatype ProjectOutcome = Found(project: Project) | ProjectNotFound
  {
    function Status(): nat {
      if Found? then 200 else 404
    }
  }

  datatype CreateOutcome = Created(project: Project) | CreateError(error: ValidationError)
  {
    function Status(): nat {
      if Created? then 201 else 500
    }
  }

  datatype DeleteOutcome = Deleted | DeleteNotFound
  {
    function Status(): nat {
      if Deleted? then 200 else 404
    }
  }

  /** The upload routes' outcomes. A file the middleware refuses never reaches
      the handler: Express's default error handler answers it with 500. */
  datatype UploadOutcome = Uploaded(url: string, filename: string) | NoFile | UploadError(message: string)
  {
    function Status(): nat {
      match this
      case Uploaded(_, _) => 200
      case NoFile => 400
      case UploadError(_) => 500
    }
  }

  datatype ResumeOutcome = ResumeAt(resumeUrl: string) | ResumeNotFound
  {
    function Status(): nat {
      if ResumeAt? then 200 else 404
    }
  }

  // ------------------------------------------------------------ lookups

  /** `User.findOne({email})`: the first user with that e-mail. */
  function IndexOfEmail(users: seq<User>, email: string): (r: Option<nat>)
    ensures r.Some? ==> r.value < |users| && users[r.value].email == email
    ensures r.Some? ==> forall j :: 0 <= j < r.value ==> users[j].email != email
    ensures r.None? ==> forall j :: 0 <= j < |users| ==> users[j].email != email
  {
    if |users| == 0 then None
    else if users[0].email == email then Some(0)
    else match IndexOfEmail(users[1..], email)
      case None => None
      case Some(k) => Some(k + 1)
  }

  /** `User.findById(id)`. */
  function IndexOfUser(users: seq<User>, id: Id): (r: Option<nat>)
    ensures r.Some? ==> r.value < |users| && users[r.value].id == id
    ensures r.None? ==> forall j :: 0 <= j < |users| ==> users[j].id != id
  {
    if |users| == 0 then None
    else if users[0].id == id then Some(0)
    else match IndexOfUser(users[1..], id)
      case None => None
      case Some(k) => Some(k + 1)
  }

  /** `Project.findById(id)`. */
  function IndexOfProject(projects: seq<Project>, id: Id): (r: Option<nat>)
    ensures r.Some? ==> r.value < |projects| && projects[r.value].id == id
    ensures r.None? ==> forall j :: 0 <= j < |projects| ==> projects[j].id != id
  {
    if |projects| == 0 then None
    else if projects[0].id == id then Some(0)
    else match IndexOfProject(projects[1..], id)
      case None => None
      case Some(k) => Some(k + 1)
  }

  /** `User.findOne({$or: [{email}, {username}]})` finds a user; the query
      values pass through the schema's setters first. */
  predicate Taken(users: seq<User>, username: string, email: string) {
    exists i :: 0 <= i < |users| && (users[i].email == NormEmail(email) || users[i].username == NormUsername(username))
  }

  // --------------------------------------------------- store invariant

  /** Ids are below the next fresh id and distinct; usernames and e-mails are
      unique (the schema's `unique` indexes); every user is normalised. */
  predicate UsersConsistent(users: seq<User>, nextId: Id) {
    && (forall i :: 0 <= i < |users| ==> WellFormedUser(users[i]) && users[i].id < nextId)
    && (forall i, j :: 0 <= i < j < |users| ==>
          users[i].id != users[j].id && users[i].username != users[j].username && users[i].email != users[j].email)
  }

  /** Ids are below the next fresh id and distinct; every title is trimmed. */
  predicate ProjectsConsistent(projects: seq<Project>, nextId: Id) {
    && (forall i :: 0 <= i < |projects| ==> projects[i].id < nextId && IsTrimmed(projects[i].title))
    && (forall i, j :: 0 <= i < j < |projects| ==> projects[i].id != projects[j].id)
  }

  /** The store invariant: both collections are consistent with one id counter. */
  predicate Consistent(users: seq<User>, projects: seq<Project>, nextId: Id) {
    UsersConsistent(users, nextId) && ProjectsConsistent(projects, nextId)
  }

  // ------------------------------------------------------ read-only routes

  /** POST /api/auth/login. An unknown e-mail and a wrong password give the
      same answer, and nothing changes. */
  function Login(users: seq<User>, hasher: Hasher, email: string, password: string, now: Millis): (r: LoginOutcome)
    ensures r.LoggedIn? ==> exists i :: && 0 <= i < |users| && users[i].email == NormEmail(email)
                                        && hasher.compare(password, users[i].password)
                                        && r == LoggedIn(Sign(users[i].id, now), Public(users[i]))
    ensures (forall i :: 0 <= i < |users| ==> users[i].email != NormEmail(email)) ==> r == InvalidCredentials
    ensures r.LoggedIn? ==> r.token.expiresAt == r.token.issuedAt + TokenLifetime && r.token.userId == r.user.id
  {
    match IndexOfEmail(users, NormEmail(email))
    case None => InvalidCredentials
    case Some(i) =>
      if hasher.compare(password, users[i].password) then LoggedIn(Sign(users[i].id, now), Public(users[i]))
      else InvalidCredentials
  }

  /** Both ways of failing to log in give one and the same outcome. */
  lemma LoginFailuresAlike(users: seq<User>, hasher: Hasher, email: string, password: string, now: Millis, i: nat)
    requires forall a, b :: 0 <= a < b < |users| ==> users[a].email != users[b].email
    requires i < |users| && users[i].email == NormEmail(email) && !hasher.compare(password, users[i].password)
    ensures Login(users, hasher, email, password, now) == InvalidCredentials
  {
    var k := IndexOfEmail(users, NormEmail(email));
    assert k == Some(i);
  }

  /** GET /api/profile: the caller's user without its password, or `null`. */
  function GetProfile(users: seq<User>, caller: Id): (r: Option<Profile>)
    ensures r.Some? <==> exists i :: 0 <= i < |users| && users[i].id == caller
    ensures r.Some? ==> exists i :: 0 <= i < |users| && users[i].id == caller && r.value == ProfileOf(users[i])
  {
    match IndexOfUser(users, caller)
    case None => None
    case Some(i) => Some(ProfileOf(users[i]))
  }

  /** GET /api/resume: the first user's résumé, if there is a user and it has one. */
  function PublicResume(users: seq<User>): (r: ResumeOutcome)
    ensures r.ResumeAt? <==> |users| > 0 && users[0].resumeUrl != ""
    ensures r.ResumeAt? ==> r.resumeUrl == users[0].resumeUrl && r.resumeUrl != ""
  {
    if |users| == 0 || users[0].resumeUrl == "" then ResumeNotFound else ResumeAt(users[0].resumeUrl)
  }

  /** GET /api/projects/:id. */
  function GetProject(projects: seq<Project>, id: Id): (r: ProjectOutcome)
    ensures r.Found? <==> exists i :: 0 <= i < |projects| && projects[i].id == id
    ensures r.Found? ==> r.project.id == id && r.project in projects
  {
    match IndexOfProject(projects, id)
    case None => ProjectNotFound
    case Some(i) => Found(projects[i])
  }

  /** Creation times never increase along the sequence. */
  predicate NewestFirstOrder(ps: seq<Project>) {
    forall i, j :: 0 <= i < j < |ps| ==> ps[i].createdAt >= ps[j].createdAt
  }

  function InsertByDate(p: Project, ps: seq<Project>): (r: seq<Project>)
    requires NewestFirstOrder(ps)
    ensures NewestFirstOrder(r)
    ensures multiset(r) == multiset(ps) + multiset{p}
    ensures r[0] == p || r[0] == ps[0]
  {
    if ps == [] || p.createdAt >= ps[0].createdAt then
      ConsNewest(p, ps);
      [p] + ps
    else
      TailNewest(ps);
      var tail := ps[1..];
      var rest := InsertByDate(p, tail);
      ConsNewest(ps[0], rest);
      assert ps == [ps[0]] + tail;
      [ps[0]] + rest
  }

  /** The tail of a newest-first sequence is newest-first, and no newer than its head. */
  lemma TailNewest(ps: seq<Project>)
    requires |ps| > 0 && NewestFirstOrder(ps)
    ensures NewestFirstOrder(ps[1..])
    ensures |ps| > 1 ==> ps[1].createdAt <= ps[0].createdAt
  {
    var t := ps[1..];
    forall i, j | 0 <= i < j < |t| ensures t[i].createdAt >= t[j].createdAt {
      assert t[i] == ps[i + 1] && t[j] == ps[j + 1];
    }
  }

  /** A project no older than the head of a newest-first sequence may go in front. */
  lemma ConsNewest(q: Project, ps: seq<Project>)
    requires NewestFirstOrder(ps)
    requires ps == [] || ps[0].createdAt <= q.createdAt
    ensures NewestFirstOrder([q] + ps)
  {
    var r := [q] + ps;
    forall i, j | 0 <= i < j < |r| ensures r[i].createdAt >= r[j].createdAt {
      assert r[j] == ps[j - 1];
      if i > 0 { assert r[i] == ps[i - 1]; }
    }
  }

  /** GET /api/projects: `Project.find().sort({createdAt: -1})`, every
      project, newest first. */
  function ListProjects(projects: seq<Project>): (r: seq<Project>)
    ensures NewestFirstOrder(r)
    ensures multiset(r) == multiset(projects)
  {
    if projects == [] then []
    else
      assert projects == [projects[0]] + projects[1..];
      InsertByDate(projects[0], ListProjects(projects[1..]))
  }

  /** The response of POST /api/upload, and the response part of POST
      /api/upload/resume: the middleware's verdict on the file part, then the
      handler's check that there is a file. */
  function UploadResponse(file: Option<IncomingFile>, now: Millis, rand: nat): (r: UploadOutcome)
    ensures file.None? <==> r == NoFile
    ensures file.Some? ==> (r.Uploaded? <==> Admit(file.value, now, rand).Stored?)
    ensures r.Uploaded? ==> && r.url == UploadsPrefix + r.filename
                            && r.filename == Filename(now, rand, file.value.originalname)
    ensures r.UploadError? ==> r.message == FilterMessage || r.message == TooLargeMessage
    ensures file.Some? && Admit(file.value, now, rand).Refused? ==> r == UploadError(Admit(file.value, now, rand).message)
  {
    match file
    case None => NoFile
    case Some(f) =>
      match Admit(f, now, rand)
      case Refused(message) => UploadError(message)
      case Stored(name) => Uploaded(UploadsPrefix + name, name)
  }

  // -------------------------------------------------------- write helpers

  /** `findByIdAndUpdate(id, {resumeUrl})` on the users. */
  function WithResume(users: seq<User>, id: Id, url: string): (r: seq<User>)
    ensures |r| == |users|
    ensures forall i :: 0 <= i < |users| && users[i].id != id ==> r[i] == users[i]
    ensures forall i :: 0 <= i < |users| ==> r[i].(resumeUrl := users[i].resumeUrl) == users[i]
    ensures (forall a, b :: 0 <= a < b < |users| ==> users[a].id != users[b].id) ==>
              forall i :: 0 <= i < |users| && users[i].id == id ==> r[i].resumeUrl == url
  {
    match IndexOfUser(users, id)
    case None => users
    case Some(i) => users[i := users[i].(resumeUrl := url)]
  }

  /** A project after `findByIdAndUpdate` with the body's fields: a field the
      body sets is overwritten (`title` trimmed by its setter), one it leaves
      out is kept; `updatedAt` is now; `id` and `createdAt` never change.
      The update does not run the `required` validators. */
  function Patched(p: Project, input: ProjectInput, now: Millis): (r: Project)
    ensures r.id == p.id && r.createdAt == p.createdAt && r.updatedAt == now
    ensures IsTrimmed(p.title) ==> IsTrimmed(r.title)
    ensures r.title == (if input.title.Some? then Trim(input.title.value) else p.title)
    ensures r.summary == OrDefault(input.summary, p.summary)
    ensures r.description == OrDefault(input.description, p.description)
    ensures r.technologies == OrDefault(input.technologies, p.technologies)
    ensures r.skillsLearned == OrDefault(input.skillsLearned, p.skillsLearned)
    ensures r.imageUrl == OrDefault(input.imageUrl, p.imageUrl)
    ensures r.projectUrl == OrDefault(input.projectUrl, p.projectUrl)
    ensures r.githubUrl == OrDefault(input.githubUrl, p.githubUrl)
    ensures r.featured == OrDefault(input.featured, p.featured)
  {
    p.(title := if input.title.Some? then Trim(input.title.value) else p.title,
       summary := OrDefault(input.summary, p.summary),
       description := OrDefault(input.description, p.description),
       technologies := OrDefault(input.technologies, p.technologies),
       skillsLearned := OrDefault(input.skillsLearned, p.skillsLearned),
       imageUrl := OrDefault(input.imageUrl, p.imageUrl),
       projectUrl := OrDefault(input.projectUrl, p.projectUrl),
       githubUrl := OrDefault(input.githubUrl, p.githubUrl),
       featured := OrDefault(input.featured, p.featured),
       updatedAt := now)
  }

  // --------------------------------------------------------------- store

  class Portfolio {
    var users: seq<User>
    var projects: seq<Project>
    var nextId: Id
    const hasher: Hasher

    ghost predicate Valid()
      reads this
    {
      Consistent(users, projects, nextId)
    }

    constructor (hasher: Hasher)
      ensures Valid() && this.hasher == hasher
      ensures users == [] && projects == []
    {
      this.hasher := hasher;
      users, projects, nextId := [], [], 0;
    }

    /** POST /api/auth/register. */
    method Register(username: string, email: string, password: string, now: Millis) returns (out: RegisterOutcome)
      requires Valid()
      modifies this
      ensures Valid() && projects == old(projects)
      ensures Taken(old(users), username, email) ==> out == UserExists && users == old(users) && nextId == old(nextId)
      ensures var r := NewUser(old(nextId), username, email, hasher.hash(password), now);
        && (!Taken(old(users), username, email) && r.Err? ==>
              out == RegisterError(r.error) && users == old(users) && nextId == old(nextId))
        && (!Taken(old(users), username, email) && r.Ok? ==>
              out == Registered(Sign(r.value.id, now), Public(r.value)) && users == old(users) + [r.value]
              && nextId == old(nextId) + 1)
      ensures out.Registered? ==> forall i :: 0 <= i < |old(users)| ==> old(users)[i].id != out.user.id
    {
      if Taken(users, username, email) {
        out := UserExists;
      } else {
        var hashed := hasher.hash(password);
        var r := NewUser(nextId, username, email, hashed, now);
        if r.Err? {
          out := RegisterError(r.error);
        } else {
          var u := r.value;
          NewUserFresh(users, username, email, nextId, hashed, now);
          AddUser(u);
          out := Registered(Sign(u.id, now), Public(u));
        }
      }
    }

    /** `user.save()` for a fresh, normalised user whose name and e-mail are new. */
    method AddUser(u: User)
      requires Valid() && u.id == nextId && WellFormedUser(u)
      requires forall i :: 0 <= i < |users| ==> users[i].username != u.username && users[i].email != u.email
      modifies this
      ensures Valid() && projects == old(projects)
      ensures users == old(users) + [u] && nextId == old(nextId) + 1
      ensures forall i :: 0 <= i < |old(users)| ==> old(users)[i].id != u.id
    {
      AppendUser(users, nextId, u);
      ProjectsBump(projects, nextId);
      users := users + [u];
      nextId := nextId + 1;
    }

    /** PUT /api/profile/resume: the caller's `resumeUrl` is replaced when the
        body sets it; the response is the caller's profile, or `null`. */
    method UpdateResumeUrl(caller: Id, resumeUrl: Option<string>) returns (out: Option<Profile>)
      requires Valid()
      modifies this
      ensures Valid() && projects == old(projects) && nextId == old(nextId)
      ensures users == (if resumeUrl.Some? then WithResume(old(users), caller, resumeUrl.value) else old(users))
      ensures out == GetProfile(users, caller)
    {
      if resumeUrl.Some? {
        SetResumeUrl(caller, resumeUrl.value);
      }
      out := GetProfile(users, caller);
    }

    /** POST /api/upload/resume: the upload's response; a stored file's URL
        also becomes the caller's `resumeUrl`. */
    method UploadResume(caller: Id, file: Option<IncomingFile>, now: Millis, rand: nat) returns (out: UploadOutcome)
      requires Valid()
      modifies this
      ensures Valid() && projects == old(projects) && nextId == old(nextId)
      ensures out == UploadResponse(file, now, rand)
      ensures users == (if out.Uploaded? then WithResume(old(users), caller, out.url) else old(users))
    {
      out := UploadResponse(file, now, rand);
      if out.Uploaded? {
        SetResumeUrl(caller, out.url);
      }
    }

    /** `User.findByIdAndUpdate(caller, {resumeUrl: url})`, shared by both routes. */
    method SetResumeUrl(caller: Id, url: string)
      requires Valid()
      modifies this
      ensures Valid() && projects == old(projects) && nextId == old(nextId)
      ensures users == WithResume(old(users), caller, url)
    {
      WithResumeConsistent(users, projects, nextId, caller, url);
      users := WithResume(users, caller, url);
    }

    /** POST /api/projects. */
    method CreateProject(input: ProjectInput, now: Millis) returns (out: CreateOutcome)
      requires Valid()
      modifies this
      ensures Valid() && users == old(users)
      ensures var r := NewProject(old(nextId), input, now);
        && (r.Err? ==> out == CreateError(r.error) && projects == old(projects) && nextId == old(nextId))
        && (r.Ok? ==> out == Created(r.value) && projects == old(projects) + [r.value] && nextId == old(nextId) + 1)
      ensures out.Created? ==> forall i :: 0 <= i < |old(projects)| ==> old(projects)[i].id != out.project.id
    {
      var r := NewProject(nextId, input, now);
      if r.Err? {
        out := CreateError(r.error);
      } else {
        AddProject(r.value);
        out := Created(r.value);
      }
    }

    /** `project.save()` for a fresh project with a trimmed title. */
    method AddProject(p: Project)
      requires Valid() && p.id == nextId && IsTrimmed(p.title)
      modifies this
      ensures Valid() && users == old(users)
      ensures projects == old(projects) + [p] && nextId == old(nextId) + 1
      ensures forall i :: 0 <= i < |old(projects)| ==> old(projects)[i].id != p.id
    {
      AppendProject(projects, nextId, p);
      UsersBump(users, nextId);
      projects := projects + [p];
      nextId := nextId + 1;
    }

    /** PUT /api/projects/:id. */
    method UpdateProject(id: Id, input: ProjectInput, now: Millis) returns (out: ProjectOutcome)
      requires Valid()
      modifies this
      ensures Valid() && users == old(users) && nextId == old(nextId)
      ensures match IndexOfProject(old(projects), id)
        case None => out == ProjectNotFound && projects == old(projects)
        case Some(i) => && projects == old(projects)[i := Patched(old(projects)[i], input, now)]
                        && out == Found(projects[i])
    {
      match IndexOfProject(projects, id) {
        case None =>
          out := ProjectNotFound;
        case Some(i) =>
          projects := projects[i := Patched(projects[i], input, now)];
          out := Found(projects[i]);
      }
    }

    /** DELETE /api/projects/:id. */
    method DeleteProject(id: Id) returns (out: DeleteOutcome)
      requires Valid()
      modifies this
      ensures Valid() && users == old(users) && nextId == old(nextId)
      ensures match IndexOfProject(old(projects), id)
        case None => out == DeleteNotFound && projects == old(projects)
        case Some(i) => out == Deleted && projects == old(projects)[..i] + old(projects)[i + 1..]
      ensures forall k :: 0 <= k < |projects| ==> projects[k].id != id
    {
      match IndexOfProject(projects, id) {
        case None =>
          out := DeleteNotFound;
        case Some(i) =>
          RemoveIsGone(projects, i);
          projects := projects[..i] + projects[i + 1..];
          out := Deleted;
      }
    }
  }

  // ------------------------------------------------------------- lemmas

  /** Changing a résumé URL touches no field the store invariant is about. */
  lemma WithResumeConsistent(users: seq<User>, projects: seq<Project>, nextId: Id, id: Id, url: string)
    requires Consistent(users, projects, nextId)
    ensures Consistent(WithResume(users, id, url), projects, nextId)
  {
    var r := WithResume(users, id, url);
    forall i | 0 <= i < |users| ensures r[i].id == users[i].id && r[i].username == users[i].username && r[i].email == users[i].email && r[i].password == users[i].password {
      assert r[i].(resumeUrl := users[i].resumeUrl) == users[i];
    }
  }

  /** Removing a project removes its id: a second delete of the same id
      finds nothing. */
  lemma RemoveIsGone(projects: seq<Project>, i: nat)
    requires i < |projects|
    requires forall a, b :: 0 <= a < b < |projects| ==> projects[a].id != projects[b].id
    ensures var rest := projects[..i] + projects[i + 1..];
      && (forall k :: 0 <= k < |rest| ==> rest[k].id != projects[i].id)
      && GetProject(rest, projects[i].id) == ProjectNotFound
  {
    var rest := projects[..i] + projects[i + 1..];
    forall k | 0 <= k < |rest| ensures rest[k].id != projects[i].id {
      if k < i { assert rest[k] == projects[k]; } else { assert rest[k] == projects[k + 1]; }
    }
  }

  /** A new project is found under its id, with equal timestamps. */
  lemma CreatedIsFound(projects: seq<Project>, p: Project)
    requires forall k :: 0 <= k < |projects| ==> projects[k].id != p.id
    ensures GetProject(projects + [p], p.id) == Found(p)
  {
    var ps := projects + [p];
    var k := IndexOfProject(ps, p.id);
    assert ps[|projects|].id == p.id;
    assert k.Some? && k.value == |projects|;
  }

  /** Registering and then logging in with the same e-mail and password
      succeeds, for the user just created. */
  lemma RegisterThenLogin(users: seq<User>, hasher: Hasher, username: string, email: string,
                          password: string, id: Id, now: Millis, later: Millis)
    requires Sound(hasher)
    requires !Taken(users, username, email)
    requires NewUser(id, username, email, hasher.hash(password), now).Ok?
    ensures var u := NewUser(id, username, email, hasher.hash(password), now).value;
      Login(users + [u], hasher, email, password, later) == LoggedIn(Sign(id, later), Public(u))
  {
    var u := NewUser(id, username, email, hasher.hash(password), now).value;
    var us := users + [u];
    assert us[|users|] == u;
    forall j | 0 <= j < |users| ensures us[j].email != NormEmail(email) {
      assert us[j] == users[j];
    }
    var k := IndexOfEmail(us, NormEmail(email));
    assert k == Some(|users|);
    assert hasher.compare(password, hasher.hash(password));
  }

  /** Registering can never break uniqueness: the store stays consistent
      whatever the outcome. */
  lemma RegisterKeepsUnique(users: seq<User>, projects: seq<Project>, nextId: Id,
                            username: string, email: string, hash: string, now: Millis)
    requires Consistent(users, projects, nextId)
    requires !Taken(users, username, email)
    requires NewUser(nextId, username, email, hash, now).Ok?
    ensures var u := NewUser(nextId, username, email, hash, now).value;
      && Consistent(users + [u], projects, nextId + 1)
      && forall i :: 0 <= i < |users| ==> users[i].id != u.id
  {
    var u := NewUser(nextId, username, email, hash, now).value;
    NewUserFresh(users, username, email, nextId, hash, now);
    AppendUser(users, nextId, u);
    ProjectsBump(projects, nextId);
  }

  /** A user created from a name and an e-mail nobody has shares neither with anyone. */
  lemma NewUserFresh(users: seq<User>, username: string, email: string, id: Id, hash: string, now: Millis)
    requires !Taken(users, username, email)
    requires NewUser(id, username, email, hash, now).Ok?
    ensures var u := NewUser(id, username, email, hash, now).value;
      forall i :: 0 <= i < |users| ==> users[i].username != u.username && users[i].email != u.email
  {
    var u := NewUser(id, username, email, hash, now).value;
    forall i | 0 <= i < |users| ensures users[i].username != u.username && users[i].email != u.email {
      assert !(users[i].email == NormEmail(email) || users[i].username == NormUsername(username));
    }
  }

  /** A fresh, normalised user whose name and e-mail are new keeps the users consistent. */
  lemma AppendUser(users: seq<User>, nextId: Id, u: User)
    requires UsersConsistent(users, nextId)
    requires u.id == nextId && WellFormedUser(u)
    requires forall i :: 0 <= i < |users| ==> users[i].username != u.username && users[i].email != u.email
    ensures UsersConsistent(users + [u], nextId + 1)
  {
    var us := users + [u];
    forall i, j | 0 <= i < j < |us|
      ensures us[i].id != us[j].id && us[i].username != us[j].username && us[i].email != us[j].email
    {
      assert us[i] == users[i];
      if j < |users| { assert us[j] == users[j]; } else { assert us[j] == u; }
    }
  }

  /** Advancing the id counter keeps the projects consistent. */
  lemma ProjectsBump(projects: seq<Project>, nextId: Id)
    requires ProjectsConsistent(projects, nextId)
    ensures ProjectsConsistent(projects, nextId + 1)
  {
  }

  /** Advancing the id counter keeps the users consistent. */
  lemma UsersBump(users: seq<User>, nextId: Id)
    requires UsersConsistent(users, nextId)
    ensures UsersConsistent(users, nextId + 1)
  {
  }

  /** A fresh project with a trimmed title keeps the projects consistent. */
  lemma AppendProject(projects: seq<Project>, nextId: Id, p: Project)
    requires ProjectsConsistent(projects, nextId)
    requires p.id == nextId && IsTrimmed(p.title)
    ensures ProjectsConsistent(projects + [p], nextId + 1)
  {
    var ps := projects + [p];
    forall i, j | 0 <= i < j < |ps| ensures ps[i].id != ps[j].id {
      assert ps[i] == projects[i];
      if j < |projects| { assert ps[j] == projects[j]; } else { assert ps[j] == p; }
    }
  }

  /** An update refreshes `updatedAt` past `createdAt` whenever the clock has
      not gone backwards. */
  lemma UpdateKeepsTimestampOrder(p: Project, input: ProjectInput, now: Millis)
    requires p.createdAt <= p.updatedAt <= now
    ensures var q := Patched(p, input, now);
      q.createdAt == p.createdAt && p.updatedAt <= q.updatedAt && q.createdAt <= q.updatedAt
  {
  }
}
