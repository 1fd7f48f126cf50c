/** The render lifecycle of a project: the owner triggers code generation and
    an asynchronous render, which moves the project's `render_status` through
    `generating` to a failure tag or, later, to whatever the renderer reports
    through the callback. The LLM and the renderer are passed in as functions
    of the request they receive. */
module RenderLifecycle {

  import opened Base
  import opened Text
  import opened Models
  import opened Http
  import opened ProjectStore
  import opened AuthMiddleware
  import opened Gemini
  import ProjectHandlers

  /** The settings the trigger reads. */
  datatype Config = Config(host: string, port: string, rendererUrl: string)

  const DockerHost: string := "host.docker.internal"
  const CallbackPath: string := "/api/projects/render-callback"

  predicate IsLocalBindAddress(host: string)
  {
    host == "127.0.0.1" || host == "0.0.0.0"
  }

  /** The host the renderer should call back. Exactly `127.0.0.1` and `0.0.0.0`
      are swapped for the Docker host alias, through which the containerised
      renderer reaches this service; `localhost` or `::1` is kept as given. */
  function CallbackHost(host: string): (r: string)
    ensures !IsLocalBindAddress(r)
    ensures IsLocalBindAddress(host) ==> r == DockerHost
    ensures !IsLocalBindAddress(host) ==> r == host
  {
    if IsLocalBindAddress(host) then DockerHost else host
  }

  /** The callback address handed to the renderer. */
  function CallbackUrl(cfg: Config): (r: string)
    ensures |r| == 7 + |CallbackHost(cfg.host)| + 1 + |cfg.port| + |CallbackPath|
    ensures r[..7] == "http://"
    ensures r[7..7 + |CallbackHost(cfg.host)|] == CallbackHost(cfg.host)
    ensures r[7 + |CallbackHost(cfg.host)|] == ':'
    ensures r[8 + |CallbackHost(cfg.host)|..|r| - |CallbackPath|] == cfg.port
    ensures r[|r| - |CallbackPath|..] == CallbackPath
  {
    "http://" + CallbackHost(cfg.host) + ":" + cfg.port + CallbackPath
  }

  /** The JSON body posted to the renderer, with the address it is posted to. */
  datatype RendererRequest = RendererRequest(url: string, projectId: Uuid, scriptContent: string, callbackUrl: string)

  /** How the renderer call ends: the request cannot be built, the connection
      fails, or the renderer answers with a status code and the `error` field
      of its JSON body (`""` when absent). */
  datatype RendererOutcome = RequestBuildError | TransportError | Answered(code: int, errorField: string)

  const Generating: string := "generating"
  const CodeGenFailed: string := "failed: code_gen_error"
  const RequestFailed: string := "failed: renderer_req_error"
  const TransportFailed: string := "failed: renderer_comm_error"
  const StatusFailedPrefix: string := "failed: renderer_status_"
  const UnknownRendererError: string := "Unknown error from renderer."
  const RenderNote: string := "Manim rendering is in progress. The video URL will be updated via callback."

  /** The status recorded when the renderer refuses the job with `code`. */
  function RendererStatusFailed(code: int): (r: string)
    ensures |r| > |StatusFailedPrefix| && r[..|StatusFailedPrefix|] == StatusFailedPrefix
  {
    StatusFailedPrefix + IntToString(code)
  }

  /** The renderer's status code, read back from a recorded failure status. */
  function RefusalCode(status: string): Option<int>
  {
    if |status| >= |StatusFailedPrefix| && status[..|StatusFailedPrefix|] == StatusFailedPrefix
    then ParseInt(status[|StatusFailedPrefix|..])
    else None
  }

  /** A recorded refusal keeps the renderer's status code. */
  lemma RefusalCodeRoundTrip(code: int)
    ensures RefusalCode(RendererStatusFailed(code)) == Some(code)
  {
    var r := RendererStatusFailed(code);
    assert r[|StatusFailedPrefix|..] == IntToString(code);
    IntToStringRoundTrip(code);
  }

  /** Different refusal codes leave different statuses. */
  lemma RendererStatusFailedInjective(a: int, b: int)
    ensures RendererStatusFailed(a) == RendererStatusFailed(b) <==> a == b
  {
    if RendererStatusFailed(a) == RendererStatusFailed(b) {
      RefusalCodeRoundTrip(a);
      RefusalCodeRoundTrip(b);
    }
  }

  /** The statuses the trigger writes are pairwise distinct, and different
      refusal codes give different statuses. */
  lemma FailureStatusesDistinct(code: int, other: int)
    ensures Generating != CodeGenFailed && Generating != RequestFailed && Generating != TransportFailed
    ensures CodeGenFailed != RequestFailed && CodeGenFailed != TransportFailed
    ensures RequestFailed != TransportFailed
    ensures RendererStatusFailed(code) != Generating
    ensures RendererStatusFailed(code) != CodeGenFailed
    ensures RendererStatusFailed(code) != RequestFailed
    ensures RendererStatusFailed(code) != TransportFailed
    ensures RendererStatusFailed(code) == RendererStatusFailed(other) <==> code == other
  {
    RendererStatusFailedInjective(code, other);
    assert RequestFailed[17] == 'r' && TransportFailed[17] == 'c';
    var r := RendererStatusFailed(code);
    assert r[0] == StatusFailedPrefix[0] == 'f';
    assert r[8] == StatusFailedPrefix[8] == 'r';
    assert r[17] == StatusFailedPrefix[17] == 's';
    assert Generating[0] == 'g';
    assert CodeGenFailed[8] == 'c';
    assert RequestFailed[17] == 'r';
    assert TransportFailed[17] == 'c';
  }

  /** A status that records why a render did not start. */
  predicate IsFailure(status: string)
  {
    |status| >= 8 && status[..8] == "failed: "
  }

  /** Every status the trigger records on failure reads as one. */
  lemma FailureTagsAreFailures(code: int)
    ensures IsFailure(CodeGenFailed) && IsFailure(RequestFailed) && IsFailure(TransportFailed)
    ensures IsFailure(RendererStatusFailed(code))
    ensures !IsFailure(Generating)
  {
    assert StatusFailedPrefix[..8] == "failed: ";
    assert Generating[..8][0] == 'g';
    var r := RendererStatusFailed(code);
    assert r[..8] == r[..|StatusFailedPrefix|][..8];
  }

  /** A status write whose failure the trigger ignores: the row is updated when
      the owner still matches, and the table is left as it was otherwise. */
  function BestEffortWrite(s: Store, p: Project, now: Time): (r: Store)
    ensures r.Keys == s.Keys
    ensures p.id in s && s[p.id].userId == p.userId ==>
      && r[p.id] == s[p.id].(name := p.name, description := p.description, prompt := p.prompt,
                             renderStatus := p.renderStatus, videoUrl := p.videoUrl, updatedAt := now)
      && forall k :: k in s && k != p.id ==> r[k] == s[k]
    ensures !(p.id in s && s[p.id].userId == p.userId) ==> r == s
    ensures WellKeyed(s) ==> WellKeyed(r)
  {
    match ProjectStore.Update(s, p, now)
    case Ok(t) => t
    case Err(_) => s
  }

  /** The response, the table after the request, and the render statuses the
      request wrote, in order. */
  datatype TriggerOutcome = TriggerOutcome(response: Envelope, store: Store, statusWrites: seq<string>)

  /** The owner may render `p`: it exists, belongs to the caller, and its prompt
      holds more than white space. */
  predicate MayRender(id: Option<Uuid>, ctx: Context, s: Store)
  {
    && id.Some? && id.value in s && GetUserClaims(ctx).Some?
    && s[id.value].userId == GetUserClaims(ctx).value.userId
    && TrimSpace(s[id.value].prompt) != ""
  }

  /** The request posted to the renderer's `/render` endpoint for `p`. */
  function RenderRequest(cfg: Config, p: Project, code: string): RendererRequest
  {
    RendererRequest(cfg.rendererUrl + "/render", p.id, code, CallbackUrl(cfg))
  }

  /** The answer the trigger gives when the renderer accepted the job. */
  function RenderAccepted(pid: Uuid): Envelope
  {
    Success(StatusAccepted, "Manim rendering process initiated", RenderStarted(pid, "rendering_initiated", RenderNote))
  }

  /** What happens after the code is generated: post it to the renderer and
      record a failure when the renderer does not accept the job. Each way the
      renderer call can end has its own recorded status and answer. */
  function Dispatch(s: Store, p: Project, code: string, cfg: Config, renderer: RendererRequest -> RendererOutcome, now: Time): (r: TriggerOutcome)
    ensures |r.statusWrites| <= 1
    ensures r.response.success <==> r.statusWrites == []
    ensures !r.response.success ==> IsFailure(r.statusWrites[0])
    ensures r.response.success ==> r.store == s
    ensures !r.response.success ==>
      && r.response.status == StatusInternalServerError
      && r.store == BestEffortWrite(s, p.(renderStatus := r.statusWrites[0]), now)
    ensures var o := renderer(RenderRequest(cfg, p, code));
      && (o.RequestBuildError? ==>
            r.statusWrites == [RequestFailed]
            && r.response == Failure(StatusInternalServerError, "Failed to prepare render request", NoPayload))
      && (o.TransportError? ==>
            r.statusWrites == [TransportFailed]
            && r.response == Failure(StatusInternalServerError, "Failed to connect to Manim renderer", NoPayload))
      && (o.Answered? && o.code != StatusAccepted ==>
            r.statusWrites == [RendererStatusFailed(o.code)]
            && r.response == Failure(StatusInternalServerError, "Failed to start Manim rendering process",
                                     Detail(if o.errorField == "" then UnknownRendererError else o.errorField)))
      && (o.Answered? && o.code == StatusAccepted ==>
            r.statusWrites == [] && r.response == RenderAccepted(p.id))
  {
    var req := RenderRequest(cfg, p, code);
    FailureTagsAreFailures(if renderer(req).Answered? then renderer(req).code else 0);
    match renderer(req)
    case RequestBuildError =>
      TriggerOutcome(Failure(StatusInternalServerError, "Failed to prepare render request", NoPayload),
                     BestEffortWrite(s, p.(renderStatus := RequestFailed), now), [RequestFailed])
    case TransportError =>
      TriggerOutcome(Failure(StatusInternalServerError, "Failed to connect to Manim renderer", NoPayload),
                     BestEffortWrite(s, p.(renderStatus := TransportFailed), now), [TransportFailed])
    case Answered(status, errorField) =>
      if status != StatusAccepted then
        var detail := if errorField == "" then UnknownRendererError else errorField;
        var tag := RendererStatusFailed(status);
        TriggerOutcome(Failure(StatusInternalServerError, "Failed to start Manim rendering process", Detail(detail)),
                       BestEffortWrite(s, p.(renderStatus := tag), now), [tag])
      else
        TriggerOutcome(RenderAccepted(p.id), s, [])
  }

  /** Recording a status on a stored project replaces that one row. */
  lemma WriteStatus(s: Store, p: Project, status: string, now: Time)
    ensures p.id in s && s[p.id] == p ==>
      BestEffortWrite(s, p.(renderStatus := status), now) == s[p.id := p.(renderStatus := status, updatedAt := now)]
  {
  }

  /** Writing the same status twice is writing it once. */
  lemma WriteStatusAgain(s: Store, p: Project, status: string, now: Time)
    ensures var once := BestEffortWrite(s, p.(renderStatus := status), now);
      BestEffortWrite(once, p.(renderStatus := status), now) == once
  {
    var q := p.(renderStatus := status);
    var once := BestEffortWrite(s, q, now);
    if q.id in s && s[q.id].userId == q.userId {
      assert once == s[q.id := once[q.id]];
    }
  }

  /** Of two status writes on the same project only the second is left. */
  lemma WriteStatusTwice(s: Store, p: Project, first: string, second: string, now: Time)
    ensures p.id in s && s[p.id] == p ==>
      BestEffortWrite(BestEffortWrite(s, p.(renderStatus := first), now), p.(renderStatus := second), now)
        == s[p.id := p.(renderStatus := second, updatedAt := now)]
  {
    if !(p.id in s && s[p.id] == p) {
      return;
    }
    WriteStatus(s, p, first, now);
    var s1 := s[p.id := p.(renderStatus := first, updatedAt := now)];
    assert s1[p.id].userId == p.userId;
    assert s1[p.id := p.(renderStatus := second, updatedAt := now)] == s[p.id := p.(renderStatus := second, updatedAt := now)];
  }

  /** The trigger once the project is known to be the caller's and to have a
      prompt: mark it `generating`, then, given the outcome of code generation,
      record its failure or dispatch the code. */
  function Render(s: Store, p: Project, cfg: Config, generated: Result<string, CodeGenError>,
                  renderer: RendererRequest -> RendererOutcome, now: Time): (r: TriggerOutcome)
    ensures 1 <= |r.statusWrites| <= 2 && r.statusWrites[0] == Generating
    ensures r.response.success <==> r.statusWrites == [Generating]
    ensures r.response.success ==> r.response.status == StatusAccepted
    ensures !r.response.success ==> r.response.status == StatusInternalServerError
    ensures generated.Err? ==>
      && r.statusWrites == [Generating, CodeGenFailed]
      && r.response == Failure(StatusInternalServerError, "Failed to generate Manim code", NoPayload)
    ensures generated.Ok? ==>
      var o := renderer(RenderRequest(cfg, p, generated.value));
      && (o.RequestBuildError? ==> r.statusWrites == [Generating, RequestFailed])
      && (o.TransportError? ==> r.statusWrites == [Generating, TransportFailed])
      && (o.Answered? && o.code != StatusAccepted ==> r.statusWrites == [Generating, RendererStatusFailed(o.code)])
      && (o.Answered? && o.code == StatusAccepted ==>
            r.statusWrites == [Generating] && r.response == RenderAccepted(p.id))
    ensures generated.Ok? ==>
      r.response == Dispatch(BestEffortWrite(s, p.(renderStatus := Generating), now), p, generated.value,
                             cfg, renderer, now).response
    ensures !r.response.success ==> IsFailure(r.statusWrites[1])
    ensures r.store == BestEffortWrite(BestEffortWrite(s, p.(renderStatus := Generating), now),
                                       p.(renderStatus := r.statusWrites[|r.statusWrites| - 1]), now)
  {
    var s1 := BestEffortWrite(s, p.(renderStatus := Generating), now);
    FailureTagsAreFailures(0);
    match generated
    case Err(_) =>
      TriggerOutcome(Failure(StatusInternalServerError, "Failed to generate Manim code", NoPayload),
                     BestEffortWrite(s1, p.(renderStatus := CodeGenFailed), now), [Generating, CodeGenFailed])
    case Ok(code) =>
      var d := Dispatch(s1, p, code, cfg, renderer, now);
      var writes := [Generating] + d.statusWrites;
      assert d.response.success ==> BestEffortWrite(s1, p.(renderStatus := Generating), now) == s1 by {
        WriteStatusAgain(s, p, Generating, now);
      }
      GeneratingThen(d.response.success, d.statusWrites);
      TriggerOutcome(d.response, d.store, writes)
  }

  /** The writes of a dispatch, after the `generating` write. */
  lemma GeneratingThen(accepted: bool, later: seq<string>)
    requires |later| <= 1 && (accepted <==> later == [])
    ensures var w := [Generating] + later;
      && 1 <= |w| <= 2 && w[0] == Generating
      && (accepted <==> w == [Generating])
      && (accepted ==> w[|w| - 1] == Generating)
      && (!accepted ==> w[1] == later[0] && w[|w| - 1] == later[0] && w == [Generating, later[0]])
  {
  }

  /** A trigger by the owner leaves the project with the last status it
      wrote and the table otherwise as it was. */
  lemma RenderStore(s: Store, p: Project, cfg: Config, generated: Result<string, CodeGenError>,
                    renderer: RendererRequest -> RendererOutcome, now: Time)
    requires p.id in s && s[p.id] == p
    ensures var r := Render(s, p, cfg, generated, renderer, now);
      r.store == s[p.id := p.(renderStatus := r.statusWrites[|r.statusWrites| - 1], updatedAt := now)]
  {
    var r := Render(s, p, cfg, generated, renderer, now);
    WriteStatusTwice(s, p, Generating, r.statusWrites[|r.statusWrites| - 1], now);
  }

  /** The checks the trigger makes before anything is written, in the order the
      handler makes them; "none" admits the request. */
  function Admit(id: Option<Uuid>, ctx: Context, s: Store): (r: Option<Envelope>)
    ensures r.None? <==> MayRender(id, ctx, s)
    ensures r.Some? ==> !r.value.success
    ensures id.None? ==> r == Some(ProjectHandlers.BadProjectId)
    ensures id.Some? && GetUserClaims(ctx).None? ==> r == Some(ProjectHandlers.ClaimsMissing)
    ensures id.Some? && GetUserClaims(ctx).Some? && id.value !in s ==>
      r == Some(Failure(StatusNotFound, "Manim project not found", NoPayload))
    ensures id.Some? && GetUserClaims(ctx).Some? && id.value in s
            && s[id.value].userId != GetUserClaims(ctx).value.userId ==>
      r == Some(Failure(StatusForbidden, "You do not have permission to trigger rendering for this project", NoPayload))
    ensures id.Some? && GetUserClaims(ctx).Some? && id.value in s
            && s[id.value].userId == GetUserClaims(ctx).value.userId && AllSpace(s[id.value].prompt) ==>
      r == Some(Failure(StatusBadRequest, "Project prompt is empty. Please update the project with a valid prompt.", NoPayload))
  {
    match id
    case None => Some(ProjectHandlers.BadProjectId)
    case Some(pid) =>
      match GetUserClaims(ctx)
      case None => Some(ProjectHandlers.ClaimsMissing)
      case Some(claims) =>
        match FindById(s, pid)
        case None => Some(Failure(StatusNotFound, "Manim project not found", NoPayload))
        case Some(p) =>
          if p.userId != claims.userId then
            Some(Failure(StatusForbidden, "You do not have permission to trigger rendering for this project", NoPayload))
          else
            TrimSpaceEmptyIff(p.prompt);
            if TrimSpace(p.prompt) == "" then
              Some(Failure(StatusBadRequest, "Project prompt is empty. Please update the project with a valid prompt.", NoPayload))
            else
              None
  }

  /** `POST /api/projects/:id/generate-render`: generate the code for the project's
      prompt and hand it to the renderer. Only the owner may trigger a render,
      and a blank prompt is refused before anything is written. */
  function Trigger(id: Option<Uuid>, ctx: Context, s: Store, cfg: Config, gemini: string -> GeminiReply,
                   renderer: RendererRequest -> RendererOutcome, now: Time): (r: TriggerOutcome)
    ensures !MayRender(id, ctx, s) ==> r == TriggerOutcome(Admit(id, ctx, s).value, s, [])
    ensures !MayRender(id, ctx, s) ==> r.store == s && r.statusWrites == [] && !r.response.success
    ensures id.Some? && GetUserClaims(ctx).Some? && id.value in s
            && s[id.value].userId != GetUserClaims(ctx).value.userId ==>
      r.response.status == StatusForbidden
    ensures MayRender(id, ctx, s) ==>
      r == Render(s, s[id.value], cfg, GenerateCode(s[id.value].prompt, gemini), renderer, now)
  {
    match Admit(id, ctx, s)
    case Some(refusal) => TriggerOutcome(refusal, s, [])
    case None =>
      var p := s[id.value];
      Render(s, p, cfg, GenerateCode(p.prompt, gemini), renderer, now)
  }

  /** A refused trigger never reaches the LLM or the renderer: its answer and
      table are the same whatever they would have said. */
  lemma TriggerRefusalIndependent(id: Option<Uuid>, ctx: Context, s: Store, cfg: Config,
                                  gemini: string -> GeminiReply, gemini': string -> GeminiReply,
                                  renderer: RendererRequest -> RendererOutcome,
                                  renderer': RendererRequest -> RendererOutcome, now: Time)
    requires !MayRender(id, ctx, s)
    ensures Trigger(id, ctx, s, cfg, gemini, renderer, now) == Trigger(id, ctx, s, cfg, gemini', renderer', now)
    ensures Trigger(id, ctx, s, cfg, gemini, renderer, now).statusWrites == []
  {
  }

  /** The owner's trigger on a blank prompt answers 400 and writes nothing. */
  lemma BlankPromptRefused(pid: Uuid, ctx: Context, s: Store, cfg: Config, gemini: string -> GeminiReply,
                           renderer: RendererRequest -> RendererOutcome, now: Time)
    requires pid in s && GetUserClaims(ctx).Some? && s[pid].userId == GetUserClaims(ctx).value.userId
    requires AllSpace(s[pid].prompt)
    ensures var r := Trigger(Some(pid), ctx, s, cfg, gemini, renderer, now);
      r.response.status == StatusBadRequest && r.store == s && r.statusWrites == []
  {
    TrimSpaceEmptyIff(s[pid].prompt);
  }

  /** A render moves the project to `generating` and then either leaves it
      there (the renderer took the job) or records a failure; nothing else in
      the table changes, so its invariants hold after. */
  lemma RenderKeepsInvariants(s: Store, p: Project, cfg: Config, generated: Result<string, CodeGenError>,
                              renderer: RendererRequest -> RendererOutcome, now: Time)
    requires WellKeyed(s) && NamesUniquePerOwner(s) && p.id in s && s[p.id] == p
    ensures var r := Render(s, p, cfg, generated, renderer, now);
      && WellKeyed(r.store) && NamesUniquePerOwner(r.store)
      && r.store.Keys == s.Keys
      && (forall k :: k in s ==> r.store[k].name == s[k].name && r.store[k].userId == s[k].userId)
      && (r.response.success ==> r.store[p.id].renderStatus == Generating)
      && (!r.response.success ==> IsFailure(r.store[p.id].renderStatus))
  {
    var r := Render(s, p, cfg, generated, renderer, now);
    var w := r.statusWrites;
    RenderStore(s, p, cfg, generated, renderer, now);
    var t := s[p.id := p.(renderStatus := w[|w| - 1], updatedAt := now)];
    assert r.store == t;
    assert forall k :: k in s ==> t[k].name == s[k].name && t[k].userId == s[k].userId;
    NamesUniqueTransfers(s, t);
  }

  /** Whatever a trigger answers, the table keeps its invariants, ids, names
      and owners; an admitted trigger leaves the project `generating` or
      failed. */
  lemma TriggerKeepsInvariants(id: Option<Uuid>, ctx: Context, s: Store, cfg: Config, gemini: string -> GeminiReply,
                               renderer: RendererRequest -> RendererOutcome, now: Time)
    requires WellKeyed(s) && NamesUniquePerOwner(s)
    ensures var r := Trigger(id, ctx, s, cfg, gemini, renderer, now);
      && WellKeyed(r.store) && NamesUniquePerOwner(r.store)
      && r.store.Keys == s.Keys
      && forall k :: k in s ==> r.store[k].name == s[k].name && r.store[k].userId == s[k].userId
    ensures MayRender(id, ctx, s) ==>
      var r := Trigger(id, ctx, s, cfg, gemini, renderer, now);
      if r.response.success then r.store[id.value].renderStatus == Generating
      else IsFailure(r.store[id.value].renderStatus)
  {
    if MayRender(id, ctx, s) {
      var p := s[id.value];
      RenderKeepsInvariants(s, p, cfg, GenerateCode(p.prompt, gemini), renderer, now);
    }
  }

  /** The JSON body the renderer posts back. */
  datatype CallbackRequest = CallbackRequest(projectId: string, status: string, videoUrl: string, message: string, errorDetails: string)

  /** The row after a callback: the reported status, and a video URL only when
      the render completed with a usable address (`""` and `"N/A"` are not);
      any other callback clears the URL. */
  function Reconcile(p: Project, status: string, videoUrl: string): (q: Project)
    ensures q.renderStatus == status
    ensures q.videoUrl.Some? <==> status == "completed" && videoUrl != "" && videoUrl != "N/A"
    ensures q.videoUrl.Some? ==> q.videoUrl.value == videoUrl
    ensures q == p.(renderStatus := q.renderStatus, videoUrl := q.videoUrl)
  {
    var url := if status == "completed" && videoUrl != "" && videoUrl != "N/A" then Some(videoUrl) else None;
    p.(renderStatus := status, videoUrl := url)
  }

  /** `POST /api/projects/render-callback`: record the renderer's verdict on the
      project it names. The project id arrives as text and is read by
      `parseId` (`uuid.Parse`). */
  function Callback(body: Bound<CallbackRequest>, parseId: string -> Option<Uuid>, s: Store, now: Time): (r: ProjectHandlers.Outcome)
    ensures body.BindError? ==> r.response == Failure(StatusBadRequest, "Invalid callback request body", Detail(body.detail)) && r.store == s
    ensures body.Bound? && parseId(body.req.projectId).None? ==> r.response.status == StatusBadRequest && r.store == s
    ensures body.Bound? && parseId(body.req.projectId).Some? && parseId(body.req.projectId).value !in s ==>
      r.response.status == StatusNotFound && r.store == s
    ensures r.response.success <==>
      body.Bound? && parseId(body.req.projectId).Some? && parseId(body.req.projectId).value in s
      && var p := s[parseId(body.req.projectId).value]; p.id in s && s[p.id].userId == p.userId
    ensures !r.response.success ==> r.store == s
    ensures r.response.success && WellKeyed(s) ==>
      var pid := parseId(body.req.projectId).value;
      && r.response == Success(StatusOK, "Callback processed successfully", NoPayload)
      && r.store.Keys == s.Keys
      && (forall k :: k in s && k != pid ==> r.store[k] == s[k])
      && r.store[pid] == Reconcile(s[pid], body.req.status, body.req.videoUrl).(updatedAt := now)
  {
    match body
    case BindError(e) => ProjectHandlers.Outcome(Failure(StatusBadRequest, "Invalid callback request body", Detail(e)), s)
    case Bound(cb) =>
      match parseId(cb.projectId)
      case None => ProjectHandlers.Outcome(Failure(StatusBadRequest, "Invalid ProjectID in callback", NoPayload), s)
      case Some(pid) =>
        match FindById(s, pid)
        case None => ProjectHandlers.Outcome(Failure(StatusNotFound, "Project not found for callback", NoPayload), s)
        case Some(p) =>
          match ProjectStore.Update(s, Reconcile(p, cb.status, cb.videoUrl), now)
          case Err(_) =>
            ProjectHandlers.Outcome(Failure(StatusInternalServerError, "Failed to update project after rendering callback", NoPayload), s)
          case Ok(t) => ProjectHandlers.Outcome(Success(StatusOK, "Callback processed successfully", NoPayload), t)
  }

  /** A renderer that retries its callback does no harm: the second delivery
      at the same instant leaves the table as the first did. */
  lemma CallbackIdempotent(body: Bound<CallbackRequest>, parseId: string -> Option<Uuid>, s: Store, now: Time)
    requires WellKeyed(s)
    ensures var once := Callback(body, parseId, s, now).store;
      Callback(body, parseId, once, now).store == once
  {
    var r1 := Callback(body, parseId, s, now);
    if r1.response.success {
      var pid := parseId(body.req.projectId).value;
      var once := r1.store;
      assert WellKeyed(once);
      var r2 := Callback(body, parseId, once, now);
      assert r2.response.success;
      assert r2.store.Keys == once.Keys;
      forall k | k in once
        ensures r2.store[k] == once[k]
      {
      }
    }
  }

  /** The callback touches only the status and the URL of one project, so the
      table's invariants survive it. */
  lemma CallbackKeepsInvariants(body: Bound<CallbackRequest>, parseId: string -> Option<Uuid>, s: Store, now: Time)
    requires WellKeyed(s) && NamesUniquePerOwner(s)
    ensures var r := Callback(body, parseId, s, now);
      && WellKeyed(r.store) && NamesUniquePerOwner(r.store)
      && forall k :: k in s ==> r.store[k].name == s[k].name && r.store[k].userId == s[k].userId
  {
  }

  /** After a completed callback with a usable URL, the owner sees that URL on
      the project (through the list view's host rewrite). */
  lemma CompletedRenderVisible(body: Bound<CallbackRequest>, parseId: string -> Option<Uuid>, s: Store, now: Time)
    requires WellKeyed(s)
    requires body.Bound? && parseId(body.req.projectId).Some? && parseId(body.req.projectId).value in s
    requires body.req.status == "completed" && body.req.videoUrl != "" && body.req.videoUrl != "N/A"
    ensures var pid := parseId(body.req.projectId).value;
      var t := Callback(body, parseId, s, now).store;
      && ProjectHandlers.ToResponse(t[pid]).videoUrl == body.req.videoUrl
      && ProjectHandlers.ListEntry(t[pid]).videoUrl == ProjectHandlers.RewriteVideoUrl(body.req.videoUrl)
  {
  }
}
