/**
 * `deploy`, the handler behind `POST /deploy`: authenticate, clone, then
 * stop, copy, render, optionally invalidate images, start, and clean up,
 * each step only if every earlier one went through.
 */
module Deploy {
  import opened Wrappers
  import opened Strings
  import opened Paths
  import opened FsTree
  import opened Identity
  import opened Effects
  import opened Actions
  import opened Walker
  import opened Sync

  /** The JSON body of a deployment request. */
  datatype Request = Request(
    giturl: string,
    name: string,
    downdir: Option<string>,
    token: string,
    invalidateImages: Option<seq<string>>)

  /** What the client is told, what the handler did, and the tree it left. */
  datatype Outcome = Outcome(result: Result<string, Abort>, trace: seq<Event>, fs: Node)

  const SuccessPrefix: string := "Successfully started deployed project: "

  function ProjectOf(req: Request): Project {
    Project(req.name, req.giturl, req.downdir)
  }

  function IdOf(req: Request, env: Env): string {
    ProjectId(ProjectOf(req), env.hash)
  }

  /** `git clone <url> <checkout>`; once git has started, the tree is whatever it left. */
  function CloneStep(url: string, checkout: string, st: State, env: Env): (r: Run)
    ensures r.state.trace == st.trace + [Exec(GitClone(url, checkout))]
    ensures r.abort.Some? <==> env.refuses(Exec(GitClone(url, checkout)))
    ensures r.abort.Some? ==> r.abort.value == NotLaunched(Clone, GitClone(url, checkout)) && r.state.fs == st.fs
    ensures r.abort.None? ==> r.state.fs == env.cloneEffect(st.fs)
  {
    var r := Launch(Clone, GitClone(url, checkout), st, env);
    if r.abort.Some? then r else Run(State(env.cloneEffect(st.fs), r.state.trace), None)
  }

  /** `docker image rm <images> --force` when the request names images; nothing otherwise. */
  function InvalidateStep(images: Option<seq<string>>, st: State, env: Env): (r: Run)
    ensures r.state.fs == st.fs
    ensures images.None? ==> r == Run(st, None)
    ensures images.Some? ==> r.state.trace == st.trace + [Exec(ImageRm(images.value))]
    ensures images.Some? ==> Argv(r.state.trace[|st.trace|].cmd) == ["docker", "image", "rm"] + images.value + ["--force"]
    ensures r.abort.Some? <==> images.Some? && env.refuses(Exec(ImageRm(images.value)))
    ensures r.abort.Some? ==> r.abort.value == NotLaunched(InvalidateImages, ImageRm(images.value))
    ensures NamesLastEvent(r)
  {
    match images
    case None => Run(st, None)
    case Some(imgs) => Launch(InvalidateImages, ImageRm(imgs), st, env)
  }

  /** `std::fs::create_dir_all(&config_dir).unwrap()`. */
  function EnsureStep(staging: string, st: State, env: Env): (r: Run)
    ensures r.state.trace == st.trace + [MakeDirs(ParsePath(staging))]
    ensures r.abort.None? ==> IsDirAt(r.state.fs, ParsePath(staging))
    ensures NamesLastEvent(r)
  {
    var p := ParsePath(staging);
    Perform(EnsureStaging, MakeDirs(p), CreateDirAll(st.fs, p), st, env)
  }

  /** `std::fs::remove_dir_all(repo_root).expect(..)`: the checkout root, whatever `downdir` was. */
  function CleanupStep(checkout: string, st: State, env: Env): (r: Run)
    ensures r.state.trace == st.trace + [DeleteTree(ParsePath(checkout))]
    ensures r.abort.None? ==> forall q :: IsPrefix(ParsePath(checkout), q) ==> Lookup(r.state.fs, q).None?
    ensures r.abort.None? ==> forall q :: Apart(ParsePath(checkout), q) ==> Lookup(r.state.fs, q) == Lookup(st.fs, q)
    ensures NamesLastEvent(r)
  {
    var p := ParsePath(checkout);
    Perform(Cleanup, DeleteTree(p), RemoveDirAll(st.fs, p), st, env)
  }

  /** The paths and options the steps after the clone work with. */
  datatype Plan = Plan(checkout: string, staging: string, from: string, images: Option<seq<string>>)

  function PlanOf(req: Request, env: Env): Plan {
    var checkout := CheckoutDir(IdOf(req, env));
    Plan(checkout, StagingDir(IdOf(req, env)), ConfigSource(checkout, req.downdir), req.invalidateImages)
  }

  /**
   * `r` continues from `st`: earlier events are kept, stages stay in order,
   * an abort names its cause as the last event, and a run that goes through
   * ends by removing the checkout.
   */
  predicate Continues(st: State, r: Run, plan: Plan) {
    && |st.trace| <= |r.state.trace| && r.state.trace[..|st.trace|] == st.trace
    && Ordered(r.state.trace)
    && (r.abort.None? ==> |r.state.trace| > 0 && r.state.trace[|r.state.trace| - 1] == DeleteTree(ParsePath(plan.checkout)))
    && (r.abort.Some? ==> AbortStage(r.abort.value) != Authenticate)
    && NamesLastEvent(r)
  }

  /**
   * A run that goes through from `st` removes images once when the request
   * names any, and never otherwise.
   */
  predicate ImagesOnce(st: State, r: Run, plan: Plan) {
    r.abort.None? ==>
      && CountStage(r.state.trace, InvalidateImages)
         == CountStage(st.trace, InvalidateImages) + (if plan.images.Some? then 1 else 0)
      && (plan.images.Some? ==> Exec(ImageRm(plan.images.value)) in r.state.trace)
  }

  /** No image removal happens between `st` and `r`. */
  predicate NoImages(st: State, r: Run) {
    r.abort.None? ==> CountStage(r.state.trace, InvalidateImages) == CountStage(st.trace, InvalidateImages)
  }

  /** The image removal stage adds its one command to the count. */
  lemma ThenInvalidate(st: State, mid: Run, r: Run, plan: Plan)
    requires mid.abort.None?
    requires plan.images.None? ==> mid.state.trace == st.trace
    requires plan.images.Some? ==> mid.state.trace == st.trace + [Exec(ImageRm(plan.images.value))]
    requires Continues(mid.state, r, plan) && NoImages(mid.state, r)
    ensures ImagesOnce(st, r, plan)
  {
    if plan.images.Some? && r.abort.None? {
      CountStageAppend(st.trace, [Exec(ImageRm(plan.images.value))], InvalidateImages);
      assert CountStage([Exec(ImageRm(plan.images.value))], InvalidateImages) == 1;
      assert Exec(ImageRm(plan.images.value)) == r.state.trace[..|mid.state.trace|][|st.trace|];
    }
  }

  /** Moving on to a later stage keeps a trace ordered. */
  lemma Advance(t: seq<Event>, t': seq<Event>, s: Stage, s': Stage)
    requires Ordered(t) && UpTo(t, s) && Rank(s) <= Rank(s') && Extends(t, t', s')
    ensures Ordered(t') && UpTo(t', s')
  {
    UpToLater(t, s, s');
    OrderedExtend(t, t', s');
  }

  /** A stage's run `mid`, then the rest `r` of the pipeline from where it left off. */
  lemma Then(st: State, mid: Run, r: Run, plan: Plan, s: Stage)
    requires Extends(st.trace, mid.state.trace, s) && mid.abort.None?
    requires Continues(mid.state, r, plan)
    ensures Continues(st, r, plan)
  {
    assert r.state.trace[..|st.trace|] == r.state.trace[..|mid.state.trace|][..|st.trace|];
  }

  /** Stages other than the image removal pass the count through. */
  lemma ThenImages(st: State, mid: Run, r: Run, plan: Plan, s: Stage)
    requires Extends(st.trace, mid.state.trace, s) && mid.abort.None? && s != InvalidateImages
    requires ImagesOnce(mid.state, r, plan)
    ensures ImagesOnce(st, r, plan)
  {
    ExtendsCount(st.trace, mid.state.trace, s, InvalidateImages);
  }

  /** A stage that aborted ends the pipeline where it stood. */
  lemma Stop(st: State, mid: Run, plan: Plan, s: Stage)
    requires Extends(st.trace, mid.state.trace, s) && mid.abort.Some?
    requires Ordered(mid.state.trace) && s != Authenticate && AbortStage(mid.abort.value) == s
    requires NamesLastEvent(mid)
    ensures Continues(st, mid, plan)
  {
  }

  /** Everything after authentication, from the clone to the cleanup. */
  function Pipeline(req: Request, st: State, env: Env): (r: Run)
    requires st.trace == []
    ensures Ordered(r.state.trace)
    ensures |r.state.trace| > 0 && r.state.trace[0] == Exec(GitClone(req.giturl, CheckoutDir(IdOf(req, env))))
    ensures r.abort.Some? ==> AbortStage(r.abort.value) != Authenticate
    ensures r.abort.None? ==> r.state.trace[|r.state.trace| - 1] == DeleteTree(ParsePath(CheckoutDir(IdOf(req, env))))
    ensures NamesLastEvent(r)
    ensures ImagesOnce(st, r, PlanOf(req, env))
    ensures !env.refuses(Exec(GitClone(req.giturl, CheckoutDir(IdOf(req, env))))) ==>
      |r.state.trace| >= 2 && r.state.trace[1] == MakeDirs(ParsePath(StagingDir(IdOf(req, env))))
  {
    var plan := PlanOf(req, env);
    assert plan.checkout == CheckoutDir(IdOf(req, env)) && plan.staging == StagingDir(IdOf(req, env));
    FromClone(req.giturl, plan, st, env)
  }

  /** `git clone <url> <checkout>`, then the rest of the pipeline. */
  function FromClone(url: string, plan: Plan, st: State, env: Env): (r: Run)
    requires st.trace == []
    ensures Ordered(r.state.trace)
    ensures |r.state.trace| > 0 && r.state.trace[0] == Exec(GitClone(url, plan.checkout))
    ensures r.abort.Some? ==> AbortStage(r.abort.value) != Authenticate
    ensures r.abort.None? ==> r.state.trace[|r.state.trace| - 1] == DeleteTree(ParsePath(plan.checkout))
    ensures NamesLastEvent(r)
    ensures ImagesOnce(st, r, plan)
    ensures !env.refuses(Exec(GitClone(url, plan.checkout))) ==>
      |r.state.trace| >= 2 && r.state.trace[1] == MakeDirs(ParsePath(plan.staging))
  {
    var r1 := CloneStep(url, plan.checkout, st, env);
    assert Extends(st.trace, r1.state.trace, Clone);
    OrderedExtend(st.trace, r1.state.trace, Clone);
    if r1.abort.Some? then r1
    else
      var r := FromEnsure(plan, r1.state, env);
      AfterClone(st, r1, r, plan);
      r
  }

  /** The clone's start, then a rest that continues from it and begins by creating the staging directory. */
  lemma AfterClone(st: State, mid: Run, r: Run, plan: Plan)
    requires st.trace == [] && |mid.state.trace| == 1 && StageOf(mid.state.trace[0]) == Clone && mid.abort.None?
    requires Continues(mid.state, r, plan) && ImagesOnce(mid.state, r, plan)
    requires |r.state.trace| > 1 && r.state.trace[1] == MakeDirs(ParsePath(plan.staging))
    ensures Ordered(r.state.trace)
    ensures |r.state.trace| > 0 && r.state.trace[0] == mid.state.trace[0]
    ensures r.abort.Some? ==> AbortStage(r.abort.value) != Authenticate
    ensures r.abort.None? ==> r.state.trace[|r.state.trace| - 1] == DeleteTree(ParsePath(plan.checkout))
    ensures NamesLastEvent(r)
    ensures ImagesOnce(st, r, plan)
  {
    assert r.state.trace[0] == r.state.trace[..|mid.state.trace|][0];
    assert Extends(st.trace, mid.state.trace, Clone);
    ThenImages(st, mid, r, plan, Clone);
  }

  function FromEnsure(plan: Plan, st: State, env: Env): (r: Run)
    requires Ordered(st.trace) && UpTo(st.trace, Clone)
    ensures Continues(st, r, plan)
    ensures ImagesOnce(st, r, plan)
    ensures |r.state.trace| > |st.trace| && r.state.trace[|st.trace|] == MakeDirs(ParsePath(plan.staging))
  {
    var r1 := EnsureStep(plan.staging, st, env);
    Advance(st.trace, r1.state.trace, Clone, EnsureStaging);
    if r1.abort.Some? then r1
    else
      var r := FromStop(plan, r1.state, env);
      Then(st, r1, r, plan, EnsureStaging);
      assert r.state.trace[|st.trace|] == r.state.trace[..|r1.state.trace|][|st.trace|];
      ThenImages(st, r1, r, plan, EnsureStaging);
      r
  }

  function FromStop(plan: Plan, st: State, env: Env): (r: Run)
    requires Ordered(st.trace) && UpTo(st.trace, EnsureStaging)
    ensures Continues(st, r, plan)
    ensures ImagesOnce(st, r, plan)
  {
    var r1 := RunInFiles(StopApp, plan.staging, st, env);
    Advance(st.trace, r1.state.trace, EnsureStaging, StopApps);
    if r1.abort.Some? then Stop(st, r1, plan, StopApps); r1
    else
      var r := FromCopy(plan, r1.state, env);
      Then(st, r1, r, plan, StopApps);
      ThenImages(st, r1, r, plan, StopApps);
      r
  }

  function FromCopy(plan: Plan, st: State, env: Env): (r: Run)
    requires Ordered(st.trace) && UpTo(st.trace, StopApps)
    ensures Continues(st, r, plan)
    ensures ImagesOnce(st, r, plan)
  {
    var r1 := CopyConfig(plan.from, plan.staging, st, env);
    Advance(st.trace, r1.state.trace, StopApps, SyncConfig);
    if r1.abort.Some? then Stop(st, r1, plan, SyncConfig); r1
    else
      var r := FromRender(plan, r1.state, env);
      Then(st, r1, r, plan, SyncConfig);
      ThenImages(st, r1, r, plan, SyncConfig);
      r
  }

  function FromRender(plan: Plan, st: State, env: Env): (r: Run)
    requires Ordered(st.trace) && UpTo(st.trace, SyncConfig)
    ensures Continues(st, r, plan)
    ensures ImagesOnce(st, r, plan)
  {
    var r1 := RunInFiles(RenderTemplate, plan.staging, st, env);
    Advance(st.trace, r1.state.trace, SyncConfig, RenderTemplates);
    if r1.abort.Some? then Stop(st, r1, plan, RenderTemplates); r1
    else
      var r := FromInvalidate(plan, r1.state, env);
      Then(st, r1, r, plan, RenderTemplates);
      ThenImages(st, r1, r, plan, RenderTemplates);
      r
  }

  function FromInvalidate(plan: Plan, st: State, env: Env): (r: Run)
    requires Ordered(st.trace) && UpTo(st.trace, RenderTemplates)
    ensures Continues(st, r, plan)
    ensures ImagesOnce(st, r, plan)
  {
    var r1 := InvalidateStep(plan.images, st, env);
    assert Extends(st.trace, r1.state.trace, InvalidateImages);
    Advance(st.trace, r1.state.trace, RenderTemplates, InvalidateImages);
    if r1.abort.Some? then Stop(st, r1, plan, InvalidateImages); r1
    else
      var r := FromStart(plan, r1.state, env);
      Then(st, r1, r, plan, InvalidateImages);
      ThenInvalidate(st, r1, r, plan);
      r
  }

  function FromStart(plan: Plan, st: State, env: Env): (r: Run)
    requires Ordered(st.trace) && UpTo(st.trace, InvalidateImages)
    ensures Continues(st, r, plan)
    ensures NoImages(st, r)
  {
    var r1 := RunInFiles(StartApp, plan.staging, st, env);
    Advance(st.trace, r1.state.trace, InvalidateImages, StartApps);
    if r1.abort.Some? then Stop(st, r1, plan, StartApps); r1
    else
      var r := FromCleanup(plan, r1.state, env);
      Then(st, r1, r, plan, StartApps);
      ExtendsCount(st.trace, r1.state.trace, StartApps, InvalidateImages);
      r
  }

  function FromCleanup(plan: Plan, st: State, env: Env): (r: Run)
    requires Ordered(st.trace) && UpTo(st.trace, StartApps)
    ensures Continues(st, r, plan)
    ensures NoImages(st, r)
  {
    var r := CleanupStep(plan.checkout, st, env);
    Advance(st.trace, r.state.trace, StartApps, Cleanup);
    ExtendsCount(st.trace, r.state.trace, Cleanup, InvalidateImages);
    r
  }

  /** From an empty trace, a run that goes through removes the named images exactly once. */
  lemma PipelineImages(req: Request, fs: Node, env: Env)
    ensures var r := Pipeline(req, State(fs, []), env);
      r.abort.None? ==>
        && CountStage(r.state.trace, InvalidateImages) == (if req.invalidateImages.Some? then 1 else 0)
        && (req.invalidateImages.Some? ==> Exec(ImageRm(req.invalidateImages.value)) in r.state.trace)
  {
    assert PlanOf(req, env).images == req.invalidateImages;
    assert CountStage([], InvalidateImages) == 0;
  }

  /**
   * The handler: `token` is the `TOKEN` variable, if set.  A missing
   * variable or a wrong token ends the request before anything happens.
   */
  function Handle(req: Request, token: Option<string>, fs: Node, env: Env): (o: Outcome)
    ensures token.None? ==> o == Outcome(Failure(NoToken), [], fs)
    ensures o.result == Failure(Unauthorized) <==> token.Some? && token.value != req.token
    ensures o.result == Failure(Unauthorized) ==> o.trace == [] && o.fs == fs
    ensures token.Some? && token.value == req.token ==> o == Authorized(req, fs, env)
  {
    match token
    case None => Outcome(Failure(NoToken), [], fs)
    case Some(t) =>
      if t != req.token then Outcome(Failure(Unauthorized), [], fs)
      else Authorized(req, fs, env)
  }

  /** The response once the token matched: the pipeline's first abort, or the success message. */
  function Authorized(req: Request, fs: Node, env: Env): (o: Outcome)
    ensures o.result.Failure? ==> AbortStage(o.result.error) != Authenticate
    ensures |o.trace| > 0 && o.trace[0] == Exec(GitClone(req.giturl, CheckoutDir(IdOf(req, env))))
    ensures !env.refuses(Exec(GitClone(req.giturl, CheckoutDir(IdOf(req, env))))) ==>
      |o.trace| >= 2 && o.trace[1] == MakeDirs(ParsePath(StagingDir(IdOf(req, env))))
    ensures Ordered(o.trace)
    ensures o.result.Success? ==> o.result.value == SuccessPrefix + IdOf(req, env)
    ensures o.result.Success? ==>
      && o.trace[|o.trace| - 1] == DeleteTree(ParsePath(CheckoutDir(IdOf(req, env))))
      && CountStage(o.trace, InvalidateImages) == (if req.invalidateImages.Some? then 1 else 0)
      && (req.invalidateImages.Some? ==> Exec(ImageRm(req.invalidateImages.value)) in o.trace)
    ensures o.result.Failure? && o.result.error.NotLaunched? ==>
      |o.trace| > 0 && o.trace[|o.trace| - 1] == Exec(o.result.error.cmd)
    ensures o.result.Failure? && o.result.error.OpFailed? ==>
      |o.trace| > 0 && o.trace[|o.trace| - 1] == o.result.error.op
  {
    var r := Pipeline(req, State(fs, []), env);
    PipelineImages(req, fs, env);
    Respond(r, IdOf(req, env))
  }

  /** The answer for a finished run: its abort, or the success message for project `id`. */
  function Respond(r: Run, id: string): (o: Outcome)
    ensures o.trace == r.state.trace && o.fs == r.state.fs
    ensures o.result.Failure? <==> r.abort.Some?
    ensures o.result.Failure? ==> o.result.error == r.abort.value
    ensures o.result.Success? ==> o.result.value == SuccessPrefix + id
  {
    if r.abort.Some? then Outcome(Failure(r.abort.value), r.state.trace, r.state.fs)
    else Outcome(Success(SuccessPrefix + id), r.state.trace, r.state.fs)
  }
}
