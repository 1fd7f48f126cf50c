/** The project endpoints: create, list, get, update and delete, each an
    ownership-checked decision over the project table that answers an envelope
    and the table after the request. The caller is whoever the claims in the
    request context name. */
module ProjectHandlers {

  import opened Base
  import opened Text
  import opened Models
  import opened Http
  import opened ProjectStore
  import opened AuthMiddleware

  datatype CreateRequest = CreateRequest(name: string, description: string, prompt: string)

  /** A partial update: `None` marks a field left out of the body. */
  datatype UpdateRequest = UpdateRequest(name: Option<string>, description: Option<string>, prompt: Option<string>)

  /** The response and the table after the request. */
  datatype Outcome = Outcome(response: Envelope, store: Store)

  const ClaimsMissing: Envelope :=
    Failure(StatusInternalServerError, "Authentication error: User claims not found", NoPayload)

  const BadProjectId: Envelope := Failure(StatusBadRequest, "Invalid project ID format", NoPayload)

  /** `newProjectResponse`: the row as the client sees it, a NULL URL as `""`. */
  function ToResponse(p: Project): (r: ProjectResponse)
    ensures p.videoUrl.None? ==> r.videoUrl == ""
    ensures p.videoUrl.Some? ==> r.videoUrl == p.videoUrl.value
    ensures r.id == p.id && r.userId == p.userId && r.name == p.name && r.description == p.description
    ensures r.prompt == p.prompt && r.renderStatus == p.renderStatus
    ensures r.createdAt == p.createdAt && r.updatedAt == p.updatedAt
  {
    ProjectResponse(p.id, p.userId, p.name, p.description, p.prompt, p.renderStatus,
                    if p.videoUrl.Some? then p.videoUrl.value else "", p.createdAt, p.updatedAt)
  }

  // ---------------------------------------------------------------------------
  // Create
  // ---------------------------------------------------------------------------

  /** The row a create request inserts for `owner`: trimmed text fields, status
      `pending`, no video URL. */
  function NewRow(req: CreateRequest, owner: Uuid): NewProject
  {
    NewProject(owner, TrimSpace(req.name), TrimSpace(req.description), TrimSpace(req.prompt), DefaultStatus, None)
  }

  /** The create decision once the caller is known, with the name the conflict
      check looks up given separately from the request. */
  function CreateChecking(lookupName: string, req: CreateRequest, owner: Uuid, s: Store, newId: Uuid, now: Time): Outcome
  {
    if FindByNameAndOwner(s, lookupName, owner).Some? then
      Outcome(Failure(StatusConflict, "Project with this name already exists for your account", NoPayload), s)
    else
      match ProjectStore.Create(s, NewRow(req, owner), newId, now)
      case Err(_) => Outcome(Failure(StatusInternalServerError, "Failed to create Manim project", NoPayload), s)
      case Ok(created) =>
        Outcome(Success(StatusCreated, "Manim project created successfully", ProjectBody(ToResponse(created.project))),
                created.store)
  }

  /** Create as the source writes it: the conflict check looks up the name as
      sent, but the row stores the trimmed name. */
  function CreateProjectAsWritten(ctx: Context, body: Bound<CreateRequest>, s: Store, newId: Uuid, now: Time): (r: Outcome)
    ensures body.BindError? ==> r.response.status == StatusBadRequest && r.store == s
    ensures body.Bound? && GetUserClaims(ctx).None? ==> r.response.status == StatusInternalServerError && r.store == s
    ensures r.response.status == StatusConflict <==>
      && body.Bound? && GetUserClaims(ctx).Some?
      && exists id :: id in s && s[id].userId == GetUserClaims(ctx).value.userId
                      && s[id].name == body.req.name
    ensures r.response.status != StatusCreated ==> r.store == s
    ensures body.Bound? && GetUserClaims(ctx).Some? && newId !in s
            && (forall id :: id in s && s[id].userId == GetUserClaims(ctx).value.userId ==> !(s[id].name == body.req.name)) ==>
      r.response.status == StatusCreated
    ensures r.response.status == StatusCreated ==>
      var owner := GetUserClaims(ctx).value.userId;
      var req := body.req;
      && newId !in s
      && r.store.Keys == s.Keys + {newId}
      && (forall id :: id in s ==> r.store[id] == s[id])
      && r.store[newId] == Project(newId, owner, TrimSpace(req.name), TrimSpace(req.description),
                                   TrimSpace(req.prompt), "pending", None, now, now)
  {
    match body
    case BindError(e) => Outcome(Failure(StatusBadRequest, "Invalid request body", Detail(e)), s)
    case Bound(req) =>
      match GetUserClaims(ctx)
      case None => Outcome(ClaimsMissing, s)
      case Some(claims) => CreateChecking(req.name, req, claims.userId, s, newId, now)
  }

  /** `POST /api/projects`, with the conflict check on the trimmed name, the name that is
      stored. Answers 409 exactly when the caller already owns a project of
      that name, and otherwise inserts one row owned by the caller. */
  function CreateProject(ctx: Context, body: Bound<CreateRequest>, s: Store, newId: Uuid, now: Time): (r: Outcome)
    ensures body.BindError? ==> r.response.status == StatusBadRequest && r.store == s
    ensures body.Bound? && GetUserClaims(ctx).None? ==> r.response.status == StatusInternalServerError && r.store == s
    ensures r.response.status == StatusConflict <==>
      && body.Bound? && GetUserClaims(ctx).Some?
      && exists id :: id in s && s[id].userId == GetUserClaims(ctx).value.userId
                      && s[id].name == TrimSpace(body.req.name)
    ensures r.response.status != StatusCreated ==> r.store == s
    ensures body.Bound? && GetUserClaims(ctx).Some? && newId !in s
            && (forall id :: id in s && s[id].userId == GetUserClaims(ctx).value.userId ==> !(s[id].name == TrimSpace(body.req.name))) ==>
      r.response.status == StatusCreated
    ensures r.response.status == StatusCreated ==>
      var owner := GetUserClaims(ctx).value.userId;
      var req := body.req;
      && newId !in s
      && r.store.Keys == s.Keys + {newId}
      && (forall id :: id in s ==> r.store[id] == s[id])
      && r.store[newId] == Project(newId, owner, TrimSpace(req.name), TrimSpace(req.description),
                                   TrimSpace(req.prompt), "pending", None, now, now)
  {
    match body
    case BindError(e) => Outcome(Failure(StatusBadRequest, "Invalid request body", Detail(e)), s)
    case Bound(req) =>
      match GetUserClaims(ctx)
      case None => Outcome(ClaimsMissing, s)
      case Some(claims) => CreateChecking(TrimSpace(req.name), req, claims.userId, s, newId, now)
  }

  /** Creating keeps every row under its own id and every owner's names distinct. */
  lemma CreateProjectKeepsInvariants(ctx: Context, body: Bound<CreateRequest>, s: Store, newId: Uuid, now: Time)
    requires WellKeyed(s) && NamesUniquePerOwner(s)
    ensures WellKeyed(CreateProject(ctx, body, s, newId, now).store)
    ensures NamesUniquePerOwner(CreateProject(ctx, body, s, newId, now).store)
  {
    var r := CreateProject(ctx, body, s, newId, now);
    if r.response.status == StatusCreated {
      var t := r.store;
      forall a, b | a in t && b in t && a != b && t[a].userId == t[b].userId
        ensures t[a].name != t[b].name
      {
        if a == newId || b == newId {
          var other := if a == newId then b else a;
          assert other in s;
          if t[a].name == t[b].name {
            assert false;
          }
        }
      }
    }
  }

  /** The two versions agree on every request whose name is already trimmed. */
  lemma CreateVersionsAgreeOnTrimmedNames(ctx: Context, body: Bound<CreateRequest>, s: Store, newId: Uuid, now: Time)
    requires body.Bound? ==> Trimmed(body.req.name)
    ensures CreateProjectAsWritten(ctx, body, s, newId, now) == CreateProject(ctx, body, s, newId, now)
  {
    match body
    case BindError(_) =>
    case Bound(req) =>
      match GetUserClaims(ctx)
      case None =>
      case Some(claims) =>
        TrimSpaceOfPadded("", req.name, "");
        assert "" + req.name + "" == req.name;
        assert TrimSpace(req.name) == req.name;
        assert CreateProject(ctx, body, s, newId, now) == CreateChecking(req.name, req, claims.userId, s, newId, now);
  }

  /** Where the versions part: the caller owns project `k`, whose name is
      trimmed, and asks for the same name behind a leading space. As written
      the lookup of the padded name finds nothing, so a second project of that
      name is stored for the same owner; the corrected check answers 409. */
  lemma AsWrittenStoresDuplicateName(ctx: Context, s: Store, k: Uuid, newId: Uuid, now: Time)
    requires k in s && Trimmed(s[k].name) && newId !in s
    requires GetUserClaims(ctx).Some? && GetUserClaims(ctx).value.userId == s[k].userId
    requires forall id :: id in s ==> s[id].name != " " + s[k].name
    ensures var body := Bound(CreateRequest(" " + s[k].name, "", ""));
      var asWritten := CreateProjectAsWritten(ctx, body, s, newId, now);
      && asWritten.response.status == StatusCreated
      && asWritten.store[newId].name == s[k].name && asWritten.store[newId].userId == s[k].userId
      && !NamesUniquePerOwner(asWritten.store)
      && CreateProject(ctx, body, s, newId, now).response.status == StatusConflict
  {
    var name := s[k].name;
    var owner := GetUserClaims(ctx).value.userId;
    var req := CreateRequest(" " + name, "", "");
    var body := Bound(req);
    assert AllSpace(" ") && AllSpace("");
    TrimSpaceOfPadded(" ", name, "");
    assert " " + name + "" == " " + name;
    assert TrimSpace(req.name) == name;
    assert FindByNameAndOwner(s, " " + name, owner).None?;
    AsWrittenInserts(" " + name, req, owner, s, newId, now);
    var t := CreateProjectAsWritten(ctx, body, s, newId, now).store;
    assert t[k] == s[k] && t[newId].name == name && t[newId].userId == owner;
    assert CreateProject(ctx, body, s, newId, now) == CreateChecking(name, req, owner, s, newId, now);
    assert FindByNameAndOwner(s, name, owner).Some?;
  }

  /** With no row under the looked-up name, the create decision inserts the
      request's row under `newId`. */
  lemma AsWrittenInserts(lookupName: string, req: CreateRequest, owner: Uuid, s: Store, newId: Uuid, now: Time)
    requires newId !in s && FindByNameAndOwner(s, lookupName, owner).None?
    ensures var r := CreateChecking(lookupName, req, owner, s, newId, now);
      && r.response.status == StatusCreated
      && r.store == s[newId := r.store[newId]]
      && r.store[newId].name == TrimSpace(req.name) && r.store[newId].userId == owner
  {
  }

  const DemoStore: Store := map[1 := Project(1, 7, "Demo", "", "", "pending", None, 0, 0)]
  const DemoContext: Context :=
    map[UserClaimsKey := ClaimsValue(Claims(7, "a@b.c", "a", 7, "manim-orchestrator-api", 0, 86400))]
  const DemoRequest: Bound<CreateRequest> := Bound(CreateRequest(" Demo", "", ""))

  /** The smallest instance: owner 7 has "Demo" and asks for " Demo". */
  lemma AsWrittenDuplicateDemo()
    ensures NamesUniquePerOwner(DemoStore)
    ensures CreateProjectAsWritten(DemoContext, DemoRequest, DemoStore, 2, 5).response.status == StatusCreated
    ensures !NamesUniquePerOwner(CreateProjectAsWritten(DemoContext, DemoRequest, DemoStore, 2, 5).store)
    ensures CreateProject(DemoContext, DemoRequest, DemoStore, 2, 5).response.status == StatusConflict
  {
    assert Trimmed(DemoStore[1].name);
    assert " " + DemoStore[1].name == " Demo";
    assert GetUserClaims(DemoContext).value.userId == 7;
    AsWrittenStoresDuplicateName(DemoContext, DemoStore, 1, 2, 5);
  }

  // ---------------------------------------------------------------------------
  // List, with the storage-host rewrite
  // ---------------------------------------------------------------------------

  const OldR2Host: string := "41eca3477bd94f0eb869bef997e35147.r2.dev"
  const Https: string := "https://"
  const OldR2Prefix: string := Https + OldR2Host
  const PublicR2Prefix: string := "https://pub-b0b0ca8b1fc2487b82486c56d37c2667.r2.dev"

  /** The old prefix names the old host, so a URL without the host has no
      prefix to replace. */
  lemma NoHostNoPrefix(url: string)
    requires !(url != "" && Contains(url, OldR2Host))
    ensures !Contains(url, OldR2Prefix)
  {
    if Contains(url, OldR2Prefix) {
      ContainsSuffixPart(url, Https, OldR2Host);
      assert false;
    }
  }

  /** The list view's URL rewrite: a URL mentioning the old storage host gets
      the first `https://` prefix of that host replaced by the public one;
      every other URL is left as it is. */
  function RewriteVideoUrl(url: string): (r: string)
    ensures !Contains(url, OldR2Prefix) ==> r == url
    ensures Contains(url, OldR2Prefix) ==> r == ReplaceFirst(url, OldR2Prefix, PublicR2Prefix)
  {
    if url != "" && Contains(url, OldR2Host) then ReplaceFirst(url, OldR2Prefix, PublicR2Prefix)
    else NoHostNoPrefix(url); url
  }

  /** A URL that starts with the old storage prefix comes back under the public
      prefix with the rest untouched. */
  lemma RewriteOldPrefix(rest: string)
    ensures RewriteVideoUrl(OldR2Prefix + rest) == PublicR2Prefix + rest
  {
    var url := OldR2Prefix + rest;
    assert OccursAt(url, OldR2Prefix, 0);
    assert IndexOf(url, OldR2Prefix) == 0;
    assert url[|OldR2Prefix|..] == rest;
  }

  /** The list view of one row. */
  function ListEntry(p: Project): (r: ProjectResponse)
    ensures p.videoUrl.None? ==> r.videoUrl == ""
    ensures p.videoUrl.Some? && !Contains(p.videoUrl.value, OldR2Prefix) ==> r.videoUrl == p.videoUrl.value
    ensures p.videoUrl.Some? && Contains(p.videoUrl.value, OldR2Prefix) ==>
      r.videoUrl == ReplaceFirst(p.videoUrl.value, OldR2Prefix, PublicR2Prefix)
    ensures r == ToResponse(p).(videoUrl := r.videoUrl)
  {
    var pr := ToResponse(p);
    pr.(videoUrl := RewriteVideoUrl(pr.videoUrl))
  }

  function ListEntries(rows: seq<Project>): (r: seq<ProjectResponse>)
    ensures |r| == |rows|
    ensures forall i :: 0 <= i < |rows| ==> r[i] == ListEntry(rows[i])
  {
    if |rows| == 0 then [] else [ListEntry(rows[0])] + ListEntries(rows[1..])
  }

  /** `GET /api/projects`: the caller's projects, newest first, in list view. */
  function ListProjects(ctx: Context, s: Store): (r: Outcome)
    ensures r.store == s
    ensures GetUserClaims(ctx).None? ==> r.response == ClaimsMissing
    ensures GetUserClaims(ctx).Some? ==>
      var rows := ListByOwner(s, GetUserClaims(ctx).value.userId);
      && r.response.status == StatusOK
      && r.response.payload.ProjectListBody?
      && |r.response.payload.projects| == |rows|
      && (forall i :: 0 <= i < |rows| ==> r.response.payload.projects[i] == ListEntry(rows[i]))
    ensures GetUserClaims(ctx).Some? ==>
      var owner := GetUserClaims(ctx).value.userId;
      var body := r.response.payload.projects;
      && (forall id :: id in s && s[id].userId == owner ==> ListEntry(s[id]) in body)
      && (forall i :: 0 <= i < |body| ==> exists p :: p in s.Values && p.userId == owner && body[i] == ListEntry(p))
      && (forall i, j :: 0 <= i < j < |body| ==> body[i].createdAt >= body[j].createdAt)
  {
    match GetUserClaims(ctx)
    case None => Outcome(ClaimsMissing, s)
    case Some(claims) =>
      var rows := ListByOwner(s, claims.userId);
      Outcome(Success(StatusOK, "Manim projects retrieved successfully", ProjectListBody(ListEntries(rows))), s)
  }

  // ---------------------------------------------------------------------------
  // Get
  // ---------------------------------------------------------------------------

  /** `GET /api/projects/:id`: the project, but only to its owner. */
  function GetProject(id: Option<Uuid>, ctx: Context, s: Store): (r: Outcome)
    ensures r.store == s
    ensures id.None? ==> r.response == BadProjectId
    ensures id.Some? && GetUserClaims(ctx).Some? ==>
      var caller := GetUserClaims(ctx).value.userId;
      && (id.value !in s ==> r.response.status == StatusNotFound)
      && (id.value in s && s[id.value].userId != caller ==> r.response.status == StatusForbidden)
      && (id.value in s && s[id.value].userId == caller ==>
            r.response == Success(StatusOK, "Manim project retrieved successfully", ProjectBody(ToResponse(s[id.value]))))
    ensures r.response.success ==>
      && id.Some? && id.value in s && GetUserClaims(ctx).Some?
      && s[id.value].userId == GetUserClaims(ctx).value.userId
  {
    match id
    case None => Outcome(BadProjectId, s)
    case Some(pid) =>
      match GetUserClaims(ctx)
      case None => Outcome(ClaimsMissing, s)
      case Some(claims) =>
        match FindById(s, pid)
        case None => Outcome(Failure(StatusNotFound, "Manim project not found", NoPayload), s)
        case Some(p) =>
          if p.userId != claims.userId then
            Outcome(Failure(StatusForbidden, "You do not have permission to access this project", NoPayload), s)
          else
            Outcome(Success(StatusOK, "Manim project retrieved successfully", ProjectBody(ToResponse(p))), s)
  }

  // ---------------------------------------------------------------------------
  // Update
  // ---------------------------------------------------------------------------

  /** The row after applying the fields present in `req`, each trimmed. */
  function Apply(p: Project, req: UpdateRequest): (q: Project)
    ensures q.name == (if req.name.Some? then TrimSpace(req.name.value) else p.name)
    ensures q.description == (if req.description.Some? then TrimSpace(req.description.value) else p.description)
    ensures q.prompt == (if req.prompt.Some? then TrimSpace(req.prompt.value) else p.prompt)
    ensures q == p.(name := q.name, description := q.description, prompt := q.prompt)
  {
    var p1 := if req.name.Some? then p.(name := TrimSpace(req.name.value)) else p;
    var p2 := if req.description.Some? then p1.(description := TrimSpace(req.description.value)) else p1;
    if req.prompt.Some? then p2.(prompt := TrimSpace(req.prompt.value)) else p2
  }

  /** The rename of `p` to `req.name` collides with another of the owner's projects. */
  predicate RenameConflicts(s: Store, p: Project, req: UpdateRequest)
  {
    && req.name.Some?
    && TrimSpace(req.name.value) != p.name
    && var other := FindByNameAndOwner(s, TrimSpace(req.name.value), p.userId);
       other.Some? && other.value.id != p.id
  }

  /** `PUT /api/projects/:id`: a partial update by the owner. */
  function UpdateProject(id: Option<Uuid>, body: Bound<UpdateRequest>, ctx: Context, s: Store, now: Time): (r: Outcome)
    ensures r.response.status != StatusOK ==> r.store == s
    ensures id.Some? && body.Bound? && GetUserClaims(ctx).Some? ==>
      var caller := GetUserClaims(ctx).value.userId;
      && (id.value !in s ==> r.response.status == StatusNotFound)
      && (id.value in s && s[id.value].userId != caller ==> r.response.status == StatusForbidden)
    ensures r.response.status == StatusOK ==>
      && id.Some? && body.Bound? && GetUserClaims(ctx).Some? && id.value in s
      && s[id.value].userId == GetUserClaims(ctx).value.userId
      && r.store.Keys == s.Keys
    ensures r.response.status == StatusOK && WellKeyed(s) ==>
      && (forall k :: k in s && k != id.value ==> r.store[k] == s[k])
      && r.store[id.value] == Apply(s[id.value], body.req).(updatedAt := now)
      && r.response.payload == ProjectBody(ToResponse(r.store[id.value]))
  {
    match id
    case None => Outcome(BadProjectId, s)
    case Some(pid) =>
      match body
      case BindError(e) => Outcome(Failure(StatusBadRequest, "Invalid request body", Detail(e)), s)
      case Bound(req) =>
        match GetUserClaims(ctx)
        case None => Outcome(ClaimsMissing, s)
        case Some(claims) =>
          match FindById(s, pid)
          case None => Outcome(Failure(StatusNotFound, "Manim project not found", NoPayload), s)
          case Some(existing) =>
            if existing.userId != claims.userId then
              Outcome(Failure(StatusForbidden, "You do not have permission to modify this project", NoPayload), s)
            else if RenameConflicts(s, existing, req) then
              Outcome(Failure(StatusConflict, "Another project with this name already exists for your account", NoPayload), s)
            else
              var updated := Apply(existing, req);
              match ProjectStore.Update(s, updated, now)
              case Err(_) => Outcome(Failure(StatusNotFound, "Manim project not found for update", NoPayload), s)
              case Ok(s') =>
                Outcome(Success(StatusOK, "Manim project updated successfully", ProjectBody(ToResponse(updated.(updatedAt := now)))), s')
  }

  /** The owner's rename is refused with 409 exactly when the trimmed new name
      differs from the current one and another of the owner's projects already
      carries it; render status, video URL and owner never change. */
  lemma UpdateConflictIff(pid: Uuid, body: Bound<UpdateRequest>, ctx: Context, s: Store, now: Time)
    requires WellKeyed(s)
    requires body.Bound? && GetUserClaims(ctx).Some? && pid in s
    requires s[pid].userId == GetUserClaims(ctx).value.userId
    ensures var r := UpdateProject(Some(pid), body, ctx, s, now);
      && (r.response.status == StatusConflict <==>
            && body.req.name.Some?
            && TrimSpace(body.req.name.value) != s[pid].name
            && exists k :: k in s && k != pid && s[k].userId == s[pid].userId
                           && s[k].name == TrimSpace(body.req.name.value))
      && (r.response.status != StatusConflict ==>
            && r.response.status == StatusOK
            && r.store[pid].renderStatus == s[pid].renderStatus
            && r.store[pid].videoUrl == s[pid].videoUrl
            && r.store[pid].userId == s[pid].userId)
  {
    var p := s[pid];
    var req := body.req;
    if req.name.Some? && TrimSpace(req.name.value) != p.name {
      var n := TrimSpace(req.name.value);
      var other := FindByNameAndOwner(s, n, p.userId);
      if other.Some? {
        var k :| k in s && s[k] == other.value;
        assert k != pid;
      } else {
        assert forall k :: k in s ==> !(s[k].name == n && s[k].userId == p.userId);
      }
    }
  }

  /** Updating keeps every row under its own id and every owner's names distinct. */
  lemma UpdateProjectKeepsInvariants(id: Option<Uuid>, body: Bound<UpdateRequest>, ctx: Context, s: Store, now: Time)
    requires WellKeyed(s) && NamesUniquePerOwner(s)
    ensures WellKeyed(UpdateProject(id, body, ctx, s, now).store)
    ensures NamesUniquePerOwner(UpdateProject(id, body, ctx, s, now).store)
  {
    var r := UpdateProject(id, body, ctx, s, now);
    if r.response.status == StatusOK {
      var pid := id.value;
      var t := r.store;
      var req := body.req;
      forall a, b | a in t && b in t && a != b && t[a].userId == t[b].userId
        ensures t[a].name != t[b].name
      {
        if a == pid || b == pid {
          var other := if a == pid then b else a;
          if t[a].name == t[b].name {
            assert false;
          }
        }
      }
    }
  }

  // ---------------------------------------------------------------------------
  // Delete
  // ---------------------------------------------------------------------------

  /** `DELETE /api/projects/:id`: removes the caller's own project; an absent
      project and someone else's project both answer 404. */
  function DeleteProject(id: Option<Uuid>, ctx: Context, s: Store): (r: Outcome)
    ensures id.None? ==> r.response == BadProjectId && r.store == s
    ensures id.Some? && GetUserClaims(ctx).Some? ==>
      var caller := GetUserClaims(ctx).value.userId;
      if id.value in s && s[id.value].userId == caller then
        && r.response == Success(StatusNoContent, "Manim project deleted successfully", NoPayload)
        && r.store.Keys == s.Keys - {id.value}
        && forall k :: k in r.store ==> r.store[k] == s[k]
      else
        r.response.status == StatusNotFound && r.store == s
    ensures GetUserClaims(ctx).None? ==> r.store == s
  {
    match id
    case None => Outcome(BadProjectId, s)
    case Some(pid) =>
      match GetUserClaims(ctx)
      case None => Outcome(ClaimsMissing, s)
      case Some(claims) =>
        match ProjectStore.Delete(s, pid, claims.userId)
        case Err(_) =>
          Outcome(Failure(StatusNotFound, "Manim project not found or you do not have permission to delete it", NoPayload), s)
        case Ok(s') => Outcome(Success(StatusNoContent, "Manim project deleted successfully", NoPayload), s')
  }

  /** A project just created is what its owner's get answers, and the get
      answers the same view the create did. */
  lemma CreateThenGet(ctx: Context, body: Bound<CreateRequest>, s: Store, newId: Uuid, now: Time)
    requires CreateProject(ctx, body, s, newId, now).response.status == StatusCreated
    ensures var c := CreateProject(ctx, body, s, newId, now);
      var g := GetProject(Some(newId), ctx, c.store);
      && g.response == Success(StatusOK, "Manim project retrieved successfully", ProjectBody(ToResponse(c.store[newId])))
      && g.response.payload == c.response.payload
      && g.store == c.store
  {
  }

  /** After its owner deletes a project, getting it answers 404. */
  lemma DeleteThenGet(pid: Uuid, ctx: Context, s: Store)
    requires GetUserClaims(ctx).Some?
    requires DeleteProject(Some(pid), ctx, s).response.status == StatusNoContent
    ensures GetProject(Some(pid), ctx, DeleteProject(Some(pid), ctx, s).store).response.status == StatusNotFound
  {
  }

  /** Deleting keeps every row under its own id and every owner's names distinct. */
  lemma DeleteProjectKeepsInvariants(id: Option<Uuid>, ctx: Context, s: Store)
    requires WellKeyed(s) && NamesUniquePerOwner(s)
    ensures WellKeyed(DeleteProject(id, ctx, s).store)
    ensures NamesUniquePerOwner(DeleteProject(id, ctx, s).store)
  {
  }
}
