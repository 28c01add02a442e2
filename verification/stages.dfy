/**
 * What each step of `deploy` does to the world, event by event: every event
 * of a run is one that its step issues for the request's own paths, and a
 * run that goes through issues exactly the work the trees it meets call
 * for — the compose files below the staging directory stopped, the
 * configuration entries copied, the templates rendered and removed, the
 * images removed, the compose files started — in that order.
 */
module Stages {
  import opened Wrappers
  import opened Paths
  import opened FsTree
  import opened Effects
  import opened Actions
  import opened Walker
  import opened Sync
  import opened Deploy

  // ------------------------------------------------------------ which events a step may issue

  /** `p` is `root` joined with one or more UTF-8 entry names, as the walk builds the paths it hands out. */
  ghost predicate Below(root: string, p: string) {
    exists rel: Path :: rel != [] && Display(root, rel) == Some(p)
  }

  /** An event the callback `a` issues for some entry below the walk root `root`. */
  ghost predicate ActionEvent(a: Action, root: string, e: Event) {
    match a
    case StopApp => e.Exec? && e.cmd.ComposeDown? && IsComposeFile(e.cmd.file) && Below(root, e.cmd.file)
    case StartApp => e.Exec? && e.cmd.ComposeUp? && IsComposeFile(e.cmd.file) && Below(root, e.cmd.file)
    case RenderTemplate =>
      || (e.Exec? && e.cmd.Envsubst? && IsTemplate(e.cmd.src) && e.cmd.dst == RenderTarget(e.cmd.src)
          && Below(root, e.cmd.src))
      || (e.DeleteFile? && exists p :: IsTemplate(p) && Below(root, p) && e.path == ParsePath(p))
  }

  /**
   * The event is one its step issues for a request whose clone URL is `url`
   * and whose paths are `plan`: the clone into the checkout, the creation
   * of the staging directory, a compose command or a render of a file below
   * the staging directory, a copy of an entry of the configuration source
   * to the same name in the staging directory, the removal of the named
   * images, or the removal of the checkout.
   */
  ghost predicate Fits(e: Event, url: string, plan: Plan) {
    match StageOf(e)
    case Authenticate => false
    case Clone => e == Exec(GitClone(url, plan.checkout))
    case EnsureStaging => e == MakeDirs(ParsePath(plan.staging))
    case StopApps => ActionEvent(StopApp, plan.staging, e)
    case SyncConfig =>
      e.CopyFile? && exists s :: e.src == ParsePath(plan.from) + [Text(s)] && e.dst == CopyTarget(plan.staging, s)
    case RenderTemplates => ActionEvent(RenderTemplate, plan.staging, e)
    case InvalidateImages => plan.images.Some? && e == Exec(ImageRm(plan.images.value))
    case StartApps => ActionEvent(StartApp, plan.staging, e)
    case Cleanup => e == DeleteTree(ParsePath(plan.checkout))
  }

  /** Every event of `u` fits the request. */
  ghost predicate AllFit(u: seq<Event>, url: string, plan: Plan)
    decreases |u|
  {
    u != [] ==> Fits(u[0], url, plan) && AllFit(u[1..], url, plan)
  }

  /** Every event `t'` adds to `t` fits the request. */
  ghost predicate AddsFit(t: seq<Event>, t': seq<Event>, url: string, plan: Plan) {
    |t| <= |t'| && AllFit(t'[|t|..], url, plan)
  }

  lemma {:induction false} AllFitAppend(u: seq<Event>, v: seq<Event>, url: string, plan: Plan)
    requires AllFit(u, url, plan) && AllFit(v, url, plan)
    ensures AllFit(u + v, url, plan)
    decreases |u|
  {
    if u == [] {
      assert u + v == v;
    } else {
      var w := u + v;
      AllFitAppend(u[1..], v, url, plan);
      assert w[0] == u[0] && Fits(w[0], url, plan);
      assert w[1..] == u[1..] + v && AllFit(w[1..], url, plan);
    }
  }

  lemma AddsNone(t: seq<Event>, url: string, plan: Plan)
    ensures AddsFit(t, t, url, plan)
  {
    assert t[|t|..] == [];
  }

  lemma AddsOne(t: seq<Event>, e: Event, url: string, plan: Plan)
    requires Fits(e, url, plan)
    ensures AddsFit(t, t + [e], url, plan)
  {
    assert (t + [e])[|t|..] == [e];
    assert [e][1..] == [];
  }

  /** Every event `t'` adds to `t` is issued by the callback `a` below `root`. */
  ghost predicate AddsOnly(a: Action, root: string, t: seq<Event>, t': seq<Event>) {
    forall i {:trigger ActionEvent(a, root, t'[i])} :: |t| <= i < |t'| ==> ActionEvent(a, root, t'[i])
  }

  lemma AddsFitTrans(t: seq<Event>, t1: seq<Event>, t2: seq<Event>, url: string, plan: Plan)
    requires AddsFit(t, t1, url, plan) && AddsFit(t1, t2, url, plan)
    requires t2[..|t1|] == t1
    ensures AddsFit(t, t2, url, plan)
  {
    assert t2[|t|..] == t1[|t|..] + t2[|t1|..];
    AllFitAppend(t1[|t|..], t2[|t1|..], url, plan);
  }

  lemma AddsOnlyTrans(a: Action, root: string, t: seq<Event>, t1: seq<Event>, t2: seq<Event>)
    requires AddsOnly(a, root, t, t1) && AddsOnly(a, root, t1, t2)
    requires |t| <= |t1| <= |t2| && t2[..|t1|] == t1
    ensures AddsOnly(a, root, t, t2)
  {
    forall i | |t| <= i < |t1| ensures ActionEvent(a, root, t2[i]) {
      assert t2[i] == t2[..|t1|][i];
    }
  }

  /** A callback's events below the staging directory fit the request. */
  lemma {:induction false} ActionFits(a: Action, url: string, plan: Plan, t: seq<Event>, t': seq<Event>)
    requires |t| <= |t'| && AddsOnly(a, plan.staging, t, t')
    ensures AddsFit(t, t', url, plan)
    decreases |t'| - |t|
  {
    if |t| < |t'| {
      assert ActionEvent(a, plan.staging, t'[|t|]);
      ActionFits(a, url, plan, t'[..|t| + 1], t');
      assert t'[|t|..][1..] == t'[|t| + 1..];
    }
  }

  /** One callback on an entry below `root` issues only that callback's events for that entry. */
  lemma ApplyEvents(a: Action, root: string, rel: Path, st: State, env: Env)
    requires rel != []
    ensures AddsOnly(a, root, st.trace, Apply(a, root, rel, st, env).state.trace)
  {
    var d := Display(root, rel);
    if d.Some? {
      var p := d.value;
      assert Below(root, p);
      if a.RenderTemplate? {
        RenderAction(root, rel, st, env);
        if IsTemplate(p) {
          assert ActionEvent(a, root, DeleteFile(ParsePath(p)));
        }
      } else {
        ComposeAction(a, root, rel, st, env);
      }
    }
  }

  lemma {:induction false} WalkDirEvents(a: Action, root: string, base: Path, t: Node, st: State, env: Env)
    requires t.Dir?
    ensures AddsOnly(a, root, st.trace, WalkDir(a, root, base, t, st, env).state.trace)
    decreases t, 1
  {
    if !env.listingFails(StageFor(a), ReadDir(ParsePath(root) + base)) {
      WalkEntriesEvents(a, root, base, t, 0, st, env);
    }
  }

  lemma {:induction false} WalkEntriesEvents(a: Action, root: string, base: Path, t: Node, i: nat, st: State, env: Env)
    requires t.Dir? && i <= |t.entries|
    ensures AddsOnly(a, root, st.trace, WalkEntries(a, root, base, t, i, st, env).state.trace)
    decreases t, 0, |t.entries| - i
  {
    if i < |t.entries| && !env.listingFails(StageFor(a), NextEntry(ParsePath(root) + base, t.entries[i].name)) {
      var r1 := WalkEntry(a, root, base, t.entries[i], st, env);
      WalkEntryEvents(a, root, base, t.entries[i], st, env);
      if r1.abort.None? {
        var r2 := WalkEntries(a, root, base, t, i + 1, r1.state, env);
        WalkEntriesEvents(a, root, base, t, i + 1, r1.state, env);
        AddsOnlyTrans(a, root, st.trace, r1.state.trace, r2.state.trace);
      }
    }
  }

  lemma {:induction false} WalkEntryEvents(a: Action, root: string, base: Path, e: Entry, st: State, env: Env)
    ensures AddsOnly(a, root, st.trace, WalkEntry(a, root, base, e, st, env).state.trace)
    decreases e.node, 2
  {
    if e.node.Dir? {
      WalkDirEvents(a, root, base + [e.name], e.node, st, env);
    } else {
      ApplyEvents(a, root, base + [e.name], st, env);
    }
  }

  /** A pass of `run_in_files` over the staging directory issues only its callback's events for files below it. */
  lemma RunInFilesFit(a: Action, url: string, plan: Plan, st: State, env: Env)
    ensures AddsFit(st.trace, RunInFiles(a, plan.staging, st, env).state.trace, url, plan)
  {
    match Lookup(st.fs, ParsePath(plan.staging))
    case Some(Dir(es)) =>
      WalkDirEvents(a, plan.staging, [], Dir(es), st, env);
      ActionFits(a, url, plan, st.trace, RunInFiles(a, plan.staging, st, env).state.trace);
    case _ =>
      AddsNone(st.trace, url, plan);
  }

  // ------------------------------------------------------------ what a pass that goes through issues

  /** The paths, below `root`, that a walk of `root` in `fs` hands to its callback: none when it is not a directory. */
  function Files(fs: Node, root: string): seq<Path> {
    match Lookup(fs, ParsePath(root))
    case Some(Dir(es)) => FilesDir([], Dir(es))
    case _ => []
  }

  /** A trail that goes through met no failing listing call. */
  lemma {:induction false} RunTrailSucceeds(a: Action, root: string, ms: seq<Move>, st: State, env: Env)
    requires RunTrail(a, root, ms, st, env).abort.None?
    ensures NoListingFails(StageFor(a), ms, env)
    decreases |ms|
  {
    if ms != [] {
      var r := Step(a, root, ms[0], st, env);
      RunTrailSucceeds(a, root, ms[1..], r.state, env);
      forall j | 0 <= j < |ms| && ms[j].List? ensures !env.listingFails(StageFor(a), ms[j].call) {
        if j > 0 {
          assert ms[j] == ms[1..][j - 1];
        }
      }
    }
  }

  /** A pass of `run_in_files` that goes through was the callback on each file below the root, in walk order. */
  lemma RunInFilesPass(a: Action, root: string, st: State, env: Env)
    ensures var r := RunInFiles(a, root, st, env);
      r.abort.None? ==> r == ApplyAll(a, root, Files(st.fs, root), st, env)
  {
    match Lookup(st.fs, ParsePath(root))
    case Some(Dir(es)) =>
      var ms := TrailDir(root, [], Dir(es));
      WalkDirIsRun(a, root, [], Dir(es), st, env);
      if RunTrail(a, root, ms, st, env).abort.None? {
        RunTrailSucceeds(a, root, ms, st, env);
        RunInFilesCoverage(a, root, st, env);
      }
    case _ =>
  }

  /** The callbacks change the tree and decide an abort the same way whatever was recorded before them. */
  lemma ApplyAllSame(a: Action, root: string, rels: seq<Path>, fs: Node, t1: seq<Event>, t2: seq<Event>, env: Env)
    ensures var r1 := ApplyAll(a, root, rels, State(fs, t1), env);
      var r2 := ApplyAll(a, root, rels, State(fs, t2), env);
      r1.state.fs == r2.state.fs && r1.abort == r2.abort
    decreases |rels|
  {
    if rels != [] {
      var r1 := Apply(a, root, rels[0], State(fs, t1), env);
      var r2 := Apply(a, root, rels[0], State(fs, t2), env);
      assert r1.state.fs == r2.state.fs && r1.abort == r2.abort;
      ApplyAllSame(a, root, rels[1..], r1.state.fs, r1.state.trace, r2.state.trace, env);
    }
  }

  /** A stop or start pass that goes through started the compose command of each compose file below the root, in walk order. */
  lemma ComposeWork(a: Action, root: string, st: State, env: Env)
    requires !a.RenderTemplate?
    ensures var r := RunInFiles(a, root, st, env);
      r.abort.None? ==> r.state.trace == st.trace + Execs(ComposeCommands(a, root, Files(st.fs, root)))
  {
    RunInFilesPass(a, root, st, env);
    ComposePass(a, root, Files(st.fs, root), st, env);
    LaunchAllSuccess(StageFor(a), ComposeCommands(a, root, Files(st.fs, root)), st, env);
  }

  /** The tree the render pass leaves when it starts on `fs`: the callback on each file below the staging directory in turn. */
  function AfterRender(plan: Plan, fs: Node, env: Env): Node {
    ApplyAll(RenderTemplate, plan.staging, Files(fs, plan.staging), State(fs, []), env).state.fs
  }

  /** A render pass that goes through issued the envsubst and removal of each template below the root, in walk order. */
  lemma RenderWork(plan: Plan, st: State, env: Env)
    ensures var r := RunInFiles(RenderTemplate, plan.staging, st, env);
      r.abort.None? ==>
        && r.state.trace == st.trace + RenderEvents(plan.staging, Files(st.fs, plan.staging))
        && r.state.fs == AfterRender(plan, st.fs, env)
  {
    var rels := Files(st.fs, plan.staging);
    RunInFilesPass(RenderTemplate, plan.staging, st, env);
    RenderPass(plan.staging, rels, st, env);
    ApplyAllSame(RenderTemplate, plan.staging, rels, st.fs, st.trace, [], env);
  }

  // ------------------------------------------------------------ what the copy step issues

  /** The copies of the entries `es[i..]` of `from`, each to the same name in `staging`. */
  function Copies(from: Path, staging: string, es: seq<Entry>, i: nat): seq<Event>
    requires i <= |es|
    decreases |es| - i
  {
    if i == |es| then []
    else
      (match es[i].name
       case Text(s) => [CopyFile(from + [es[i].name], CopyTarget(staging, s))]
       case NonUtf8(_) => [])
      + Copies(from, staging, es, i + 1)
  }

  /** The copies the configuration source in `fs` calls for. */
  function CopyWork(plan: Plan, fs: Node): seq<Event> {
    match Lookup(fs, ParsePath(plan.from))
    case Some(Dir(es)) => Copies(ParsePath(plan.from), plan.staging, es, 0)
    case _ => []
  }

  /** The tree the copy step leaves when it starts on `fs`. */
  function AfterCopy(plan: Plan, fs: Node, env: Env): Node {
    CopyConfig(plan.from, plan.staging, State(fs, []), env).state.fs
  }

  /** The copy loop from the `i`-th entry issues only copies of entries of the source to the same name in the staging directory. */
  lemma {:induction false} CopyEntriesFit(url: string, plan: Plan, es: seq<Entry>, i: nat, st: State, env: Env)
    requires i <= |es|
    ensures AddsFit(st.trace, CopyEntries(ParsePath(plan.from), plan.staging, es, i, st, env).state.trace, url, plan)
    decreases |es| - i
  {
    var from := ParsePath(plan.from);
    AddsNone(st.trace, url, plan);
    if i < |es| && !env.listingFails(SyncConfig, NextEntry(from, es[i].name)) {
      var r1 := CopyOne(from, plan.staging, es[i], st, env);
      if es[i].name.Text? {
        var s := es[i].name.text;
        var c := CopyFile(from + [es[i].name], CopyTarget(plan.staging, s));
        assert Fits(c, url, plan);
        assert r1.state.trace == st.trace + [c];
        AddsOne(st.trace, c, url, plan);
        if r1.abort.None? {
          CopyEntriesFit(url, plan, es, i + 1, r1.state, env);
          AddsFitTrans(st.trace, r1.state.trace, CopyEntries(from, plan.staging, es, i + 1, r1.state, env).state.trace, url, plan);
        }
      }
    }
  }

  /** What the copy loop does to the tree, and whether it aborts, does not depend on what was recorded before it. */
  lemma {:induction false} CopyEntriesSame(from: Path, staging: string, es: seq<Entry>, i: nat, fs: Node, t1: seq<Event>, t2: seq<Event>, env: Env)
    requires i <= |es|
    ensures var r1 := CopyEntries(from, staging, es, i, State(fs, t1), env);
      var r2 := CopyEntries(from, staging, es, i, State(fs, t2), env);
      r1.state.fs == r2.state.fs && r1.abort == r2.abort
    decreases |es| - i
  {
    if i < |es| && !env.listingFails(SyncConfig, NextEntry(from, es[i].name)) {
      var r1 := CopyOne(from, staging, es[i], State(fs, t1), env);
      var r2 := CopyOne(from, staging, es[i], State(fs, t2), env);
      if r1.abort.None? {
        CopyEntriesSame(from, staging, es, i + 1, r1.state.fs, r1.state.trace, r2.state.trace, env);
      }
    }
  }

  /** A copy loop that goes through met only UTF-8 names and issued one copy per entry, in listing order. */
  lemma {:induction false} CopyEntriesCopies(from: Path, staging: string, es: seq<Entry>, i: nat, st: State, env: Env)
    requires i <= |es|
    ensures var r := CopyEntries(from, staging, es, i, st, env);
      r.abort.None? ==>
        && (forall j :: i <= j < |es| ==> es[j].name.Text?)
        && r.state.trace == st.trace + Copies(from, staging, es, i)
    decreases |es| - i
  {
    var r := CopyEntries(from, staging, es, i, st, env);
    if i < |es| && !env.listingFails(SyncConfig, NextEntry(from, es[i].name)) {
      var r1 := CopyOne(from, staging, es[i], st, env);
      if r1.abort.None? {
        assert r == CopyEntries(from, staging, es, i + 1, r1.state, env);
        CopyEntriesCopies(from, staging, es, i + 1, r1.state, env);
        if r.abort.None? {
          assert es[i].name.Text?;
          forall j | i <= j < |es| ensures es[j].name.Text? {
            if j > i {
              assert i + 1 <= j;
            }
          }
          var c := CopyFile(from + [es[i].name], CopyTarget(staging, es[i].name.text));
          assert r1.state.trace == st.trace + [c];
          Glue(st.trace, r1.state.trace, r.state.trace, [c], Copies(from, staging, es, i + 1), Copies(from, staging, es, i));
        }
      }
    }
  }

  /** The copy step issues only copies of entries of the source to the same name in the staging directory. */
  lemma CopyConfigFit(url: string, plan: Plan, st: State, env: Env)
    ensures AddsFit(st.trace, CopyConfig(plan.from, plan.staging, st, env).state.trace, url, plan)
  {
    match Lookup(st.fs, ParsePath(plan.from))
    case Some(Dir(es)) =>
      if !env.listingFails(SyncConfig, ReadDir(ParsePath(plan.from))) {
        CopyEntriesFit(url, plan, es, 0, st, env);
      } else {
        AddsNone(st.trace, url, plan);
      }
    case _ =>
      AddsNone(st.trace, url, plan);
  }

  /**
   * A copy step that goes through issued one copy per entry of the source
   * listing, in order, and left the tree `AfterCopy`.
   */
  lemma CopyConfigWork(plan: Plan, st: State, env: Env)
    ensures var r := CopyConfig(plan.from, plan.staging, st, env);
      r.abort.None? ==> r.state.trace == st.trace + CopyWork(plan, st.fs) && r.state.fs == AfterCopy(plan, st.fs, env)
  {
    match Lookup(st.fs, ParsePath(plan.from))
    case Some(Dir(es)) =>
      CopyEntriesCopies(ParsePath(plan.from), plan.staging, es, 0, st, env);
      CopyEntriesSame(ParsePath(plan.from), plan.staging, es, 0, st.fs, st.trace, [], env);
    case _ =>
  }

  // ------------------------------------------------------------ every event fits the request

  // From each step on, every event the run adds fits the request.

  lemma FromCleanupFit(url: string, plan: Plan, st: State, env: Env)
    requires Ordered(st.trace) && UpTo(st.trace, StartApps)
    ensures AddsFit(st.trace, FromCleanup(plan, st, env).state.trace, url, plan)
  {
    AddsOne(st.trace, DeleteTree(ParsePath(plan.checkout)), url, plan);
  }

  lemma FromStartFit(url: string, plan: Plan, st: State, env: Env)
    requires Ordered(st.trace) && UpTo(st.trace, InvalidateImages)
    ensures AddsFit(st.trace, FromStart(plan, st, env).state.trace, url, plan)
  {
    var r1 := RunInFiles(StartApp, plan.staging, st, env);
    RunInFilesFit(StartApp, url, plan, st, env);
    if r1.abort.None? {
      Advance(st.trace, r1.state.trace, InvalidateImages, StartApps);
      FromCleanupFit(url, plan, r1.state, env);
      AddsFitTrans(st.trace, r1.state.trace, FromCleanup(plan, r1.state, env).state.trace, url, plan);
    }
  }

  lemma FromInvalidateFit(url: string, plan: Plan, st: State, env: Env)
    requires Ordered(st.trace) && UpTo(st.trace, RenderTemplates)
    ensures AddsFit(st.trace, FromInvalidate(plan, st, env).state.trace, url, plan)
  {
    var r1 := InvalidateStep(plan.images, st, env);
    if plan.images.Some? {
      AddsOne(st.trace, Exec(ImageRm(plan.images.value)), url, plan);
    } else {
      AddsNone(st.trace, url, plan);
    }
    if r1.abort.None? {
      assert Extends(st.trace, r1.state.trace, InvalidateImages);
      Advance(st.trace, r1.state.trace, RenderTemplates, InvalidateImages);
      FromStartFit(url, plan, r1.state, env);
      AddsFitTrans(st.trace, r1.state.trace, FromStart(plan, r1.state, env).state.trace, url, plan);
    }
  }

  lemma FromRenderFit(url: string, plan: Plan, st: State, env: Env)
    requires Ordered(st.trace) && UpTo(st.trace, SyncConfig)
    ensures AddsFit(st.trace, FromRender(plan, st, env).state.trace, url, plan)
  {
    var r1 := RunInFiles(RenderTemplate, plan.staging, st, env);
    RunInFilesFit(RenderTemplate, url, plan, st, env);
    if r1.abort.None? {
      Advance(st.trace, r1.state.trace, SyncConfig, RenderTemplates);
      FromInvalidateFit(url, plan, r1.state, env);
      AddsFitTrans(st.trace, r1.state.trace, FromInvalidate(plan, r1.state, env).state.trace, url, plan);
    }
  }

  lemma FromCopyFit(url: string, plan: Plan, st: State, env: Env)
    requires Ordered(st.trace) && UpTo(st.trace, StopApps)
    ensures AddsFit(st.trace, FromCopy(plan, st, env).state.trace, url, plan)
  {
    var r1 := CopyConfig(plan.from, plan.staging, st, env);
    CopyConfigFit(url, plan, st, env);
    if r1.abort.None? {
      Advance(st.trace, r1.state.trace, StopApps, SyncConfig);
      FromRenderFit(url, plan, r1.state, env);
      AddsFitTrans(st.trace, r1.state.trace, FromRender(plan, r1.state, env).state.trace, url, plan);
    }
  }

  lemma FromStopFit(url: string, plan: Plan, st: State, env: Env)
    requires Ordered(st.trace) && UpTo(st.trace, EnsureStaging)
    ensures AddsFit(st.trace, FromStop(plan, st, env).state.trace, url, plan)
  {
    var r1 := RunInFiles(StopApp, plan.staging, st, env);
    RunInFilesFit(StopApp, url, plan, st, env);
    if r1.abort.None? {
      Advance(st.trace, r1.state.trace, EnsureStaging, StopApps);
      FromCopyFit(url, plan, r1.state, env);
      AddsFitTrans(st.trace, r1.state.trace, FromCopy(plan, r1.state, env).state.trace, url, plan);
    }
  }

  lemma FromEnsureFit(url: string, plan: Plan, st: State, env: Env)
    requires Ordered(st.trace) && UpTo(st.trace, Clone)
    ensures AddsFit(st.trace, FromEnsure(plan, st, env).state.trace, url, plan)
  {
    var r1 := EnsureStep(plan.staging, st, env);
    AddsOne(st.trace, MakeDirs(ParsePath(plan.staging)), url, plan);
    if r1.abort.None? {
      Advance(st.trace, r1.state.trace, Clone, EnsureStaging);
      FromStopFit(url, plan, r1.state, env);
      AddsFitTrans(st.trace, r1.state.trace, FromStop(plan, r1.state, env).state.trace, url, plan);
    }
  }

  lemma FromCloneFit(url: string, plan: Plan, st: State, env: Env)
    requires st.trace == []
    ensures AllFit(FromClone(url, plan, st, env).state.trace, url, plan)
  {
    var r1 := CloneStep(url, plan.checkout, st, env);
    var r := FromClone(url, plan, st, env);
    AddsOne([], Exec(GitClone(url, plan.checkout)), url, plan);
    if r1.abort.None? {
      assert Extends(st.trace, r1.state.trace, Clone);
      OrderedExtend(st.trace, r1.state.trace, Clone);
      FromEnsureFit(url, plan, r1.state, env);
      AddsFitTrans([], r1.state.trace, r.state.trace, url, plan);
    }
    assert r.state.trace[0..] == r.state.trace;
  }

  // ------------------------------------------------------------ a run that goes through does exactly its work

  /** The tree once the staging directory has been created. */
  function Staged(plan: Plan, fs: Node): Node {
    match CreateDirAll(fs, ParsePath(plan.staging))
    case Some(fs') => fs'
    case None => fs
  }

  /** The step a run that goes through takes after `s`. */
  function Next(s: Stage): (n: Stage)
    requires s != Cleanup
    ensures Rank(s) < Rank(n)
  {
    match s
    case Authenticate => Clone
    case Clone => EnsureStaging
    case EnsureStaging => StopApps
    case StopApps => SyncConfig
    case SyncConfig => RenderTemplates
    case RenderTemplates => InvalidateImages
    case InvalidateImages => StartApps
    case StartApps => Cleanup
  }

  /** What step `s` issues when it goes through on the tree `fs`. */
  function Here(s: Stage, plan: Plan, fs: Node): seq<Event>
    requires s != Authenticate && s != Clone
  {
    match s
    case EnsureStaging => [MakeDirs(ParsePath(plan.staging))]
    case StopApps => Execs(ComposeCommands(StopApp, plan.staging, Files(fs, plan.staging)))
    case SyncConfig => CopyWork(plan, fs)
    case RenderTemplates => RenderEvents(plan.staging, Files(fs, plan.staging))
    case InvalidateImages => if plan.images.Some? then [Exec(ImageRm(plan.images.value))] else []
    case StartApps => Execs(ComposeCommands(StartApp, plan.staging, Files(fs, plan.staging)))
    case Cleanup => [DeleteTree(ParsePath(plan.checkout))]
  }

  /** The tree step `s` leaves when it goes through on the tree `fs`. */
  function After(s: Stage, plan: Plan, fs: Node, env: Env): Node {
    match s
    case EnsureStaging => Staged(plan, fs)
    case SyncConfig => AfterCopy(plan, fs, env)
    case RenderTemplates => AfterRender(plan, fs, env)
    case _ => fs
  }

  /**
   * What a run that goes through issues from step `s` on, when that step
   * starts on the tree `fs`: each step's work is read off the tree it meets.
   */
  function Tail(s: Stage, plan: Plan, fs: Node, env: Env): seq<Event>
    requires s != Authenticate && s != Clone
    decreases 9 - Rank(s)
  {
    if s == Cleanup then Here(s, plan, fs)
    else Here(s, plan, fs) + Tail(Next(s), plan, After(s, plan, fs, env), env)
  }

  /** Every event of a deployment that goes through, in order, starting from the tree `fs`. */
  function Work(url: string, plan: Plan, fs: Node, env: Env): seq<Event> {
    [Exec(GitClone(url, plan.checkout))] + Tail(EnsureStaging, plan, env.cloneEffect(fs), env)
  }

  /** `Tail` from a step that is not the last: the step's own work, then the rest on the tree it leaves. */
  lemma TailStep(s: Stage, plan: Plan, fs: Node, env: Env)
    requires s != Authenticate && s != Clone && s != Cleanup
    ensures Tail(s, plan, fs, env) == Here(s, plan, fs) + Tail(Next(s), plan, After(s, plan, fs, env), env)
  {
  }

  /** Glues a step's events and the events of the rest onto what came before. */
  lemma Glue(t0: seq<Event>, t1: seq<Event>, t: seq<Event>, here: seq<Event>, rest: seq<Event>, tail: seq<Event>)
    requires t1 == t0 + here && t == t1 + rest && tail == here + rest
    ensures t == t0 + tail
  {
    assert t0 + here + rest == t0 + (here + rest);
  }

  /**
   * Step `s` went through from `st` to `mid` doing its own work, and the
   * rest `r` did the work of the later steps from there: together they did
   * the work of every step from `s` on.
   */
  lemma StepWork(s: Stage, plan: Plan, st: State, mid: State, r: Run, env: Env)
    requires s != Authenticate && s != Clone && s != Cleanup
    requires mid.trace == st.trace + Here(s, plan, st.fs) && mid.fs == After(s, plan, st.fs, env)
    requires r.abort.None? ==> r.state.trace == mid.trace + Tail(Next(s), plan, mid.fs, env)
    ensures r.abort.None? ==> r.state.trace == st.trace + Tail(s, plan, st.fs, env)
  {
    TailStep(s, plan, st.fs, env);
    if r.abort.None? {
      Glue(st.trace, mid.trace, r.state.trace, Here(s, plan, st.fs), Tail(Next(s), plan, mid.fs, env), Tail(s, plan, st.fs, env));
    }
  }

  // Each step that goes through did its own work on the tree it met, and kept the trace ordered.

  lemma EnsureDone(plan: Plan, st: State, env: Env)
    requires Ordered(st.trace) && UpTo(st.trace, Clone)
    ensures var r1 := EnsureStep(plan.staging, st, env);
      r1.abort.None? ==>
        && r1.state.trace == st.trace + Here(EnsureStaging, plan, st.fs) && r1.state.fs == After(EnsureStaging, plan, st.fs, env)
        && Ordered(r1.state.trace) && UpTo(r1.state.trace, EnsureStaging)
  {
    var r1 := EnsureStep(plan.staging, st, env);
    Advance(st.trace, r1.state.trace, Clone, EnsureStaging);
  }

  lemma StopDone(plan: Plan, st: State, env: Env)
    requires Ordered(st.trace) && UpTo(st.trace, EnsureStaging)
    ensures var r1 := RunInFiles(StopApp, plan.staging, st, env);
      r1.abort.None? ==>
        && r1.state.trace == st.trace + Here(StopApps, plan, st.fs) && r1.state.fs == After(StopApps, plan, st.fs, env)
        && Ordered(r1.state.trace) && UpTo(r1.state.trace, StopApps)
  {
    var r1 := RunInFiles(StopApp, plan.staging, st, env);
    ComposeWork(StopApp, plan.staging, st, env);
    Advance(st.trace, r1.state.trace, EnsureStaging, StopApps);
  }

  lemma CopyDone(plan: Plan, st: State, env: Env)
    requires Ordered(st.trace) && UpTo(st.trace, StopApps)
    ensures var r1 := CopyConfig(plan.from, plan.staging, st, env);
      r1.abort.None? ==>
        && r1.state.trace == st.trace + Here(SyncConfig, plan, st.fs) && r1.state.fs == After(SyncConfig, plan, st.fs, env)
        && Ordered(r1.state.trace) && UpTo(r1.state.trace, SyncConfig)
  {
    var r1 := CopyConfig(plan.from, plan.staging, st, env);
    CopyConfigWork(plan, st, env);
    Advance(st.trace, r1.state.trace, StopApps, SyncConfig);
  }

  lemma RenderDone(plan: Plan, st: State, env: Env)
    requires Ordered(st.trace) && UpTo(st.trace, SyncConfig)
    ensures var r1 := RunInFiles(RenderTemplate, plan.staging, st, env);
      r1.abort.None? ==>
        && r1.state.trace == st.trace + Here(RenderTemplates, plan, st.fs) && r1.state.fs == After(RenderTemplates, plan, st.fs, env)
        && Ordered(r1.state.trace) && UpTo(r1.state.trace, RenderTemplates)
  {
    var r1 := RunInFiles(RenderTemplate, plan.staging, st, env);
    RenderWork(plan, st, env);
    Advance(st.trace, r1.state.trace, SyncConfig, RenderTemplates);
  }

  lemma InvalidateDone(plan: Plan, st: State, env: Env)
    requires Ordered(st.trace) && UpTo(st.trace, RenderTemplates)
    ensures var r1 := InvalidateStep(plan.images, st, env);
      r1.abort.None? ==>
        && r1.state.trace == st.trace + Here(InvalidateImages, plan, st.fs) && r1.state.fs == After(InvalidateImages, plan, st.fs, env)
        && Ordered(r1.state.trace) && UpTo(r1.state.trace, InvalidateImages)
  {
    var r1 := InvalidateStep(plan.images, st, env);
    assert Extends(st.trace, r1.state.trace, InvalidateImages);
    Advance(st.trace, r1.state.trace, RenderTemplates, InvalidateImages);
  }

  lemma StartDone(plan: Plan, st: State, env: Env)
    requires Ordered(st.trace) && UpTo(st.trace, InvalidateImages)
    ensures var r1 := RunInFiles(StartApp, plan.staging, st, env);
      r1.abort.None? ==>
        && r1.state.trace == st.trace + Here(StartApps, plan, st.fs) && r1.state.fs == After(StartApps, plan, st.fs, env)
        && Ordered(r1.state.trace) && UpTo(r1.state.trace, StartApps)
  {
    var r1 := RunInFiles(StartApp, plan.staging, st, env);
    ComposeWork(StartApp, plan.staging, st, env);
    Advance(st.trace, r1.state.trace, InvalidateImages, StartApps);
  }

  // From each step on, a run that goes through did the work of that step and of every later one.

  lemma FromCleanupWork(plan: Plan, st: State, env: Env)
    requires Ordered(st.trace) && UpTo(st.trace, StartApps)
    ensures var r := FromCleanup(plan, st, env);
      r.abort.None? ==> r.state.trace == st.trace + Tail(Cleanup, plan, st.fs, env)
  {
  }

  lemma FromStartWork(plan: Plan, st: State, env: Env)
    requires Ordered(st.trace) && UpTo(st.trace, InvalidateImages)
    ensures var r := FromStart(plan, st, env);
      r.abort.None? ==> r.state.trace == st.trace + Tail(StartApps, plan, st.fs, env)
  {
    var r1 := RunInFiles(StartApp, plan.staging, st, env);
    if r1.abort.None? {
      StartDone(plan, st, env);
      FromCleanupWork(plan, r1.state, env);
      StepWork(StartApps, plan, st, r1.state, FromCleanup(plan, r1.state, env), env);
    }
  }

  lemma FromInvalidateWork(plan: Plan, st: State, env: Env)
    requires Ordered(st.trace) && UpTo(st.trace, RenderTemplates)
    ensures var r := FromInvalidate(plan, st, env);
      r.abort.None? ==> r.state.trace == st.trace + Tail(InvalidateImages, plan, st.fs, env)
  {
    var r1 := InvalidateStep(plan.images, st, env);
    if r1.abort.None? {
      InvalidateDone(plan, st, env);
      FromStartWork(plan, r1.state, env);
      StepWork(InvalidateImages, plan, st, r1.state, FromStart(plan, r1.state, env), env);
    }
  }

  lemma FromRenderWork(plan: Plan, st: State, env: Env)
    requires Ordered(st.trace) && UpTo(st.trace, SyncConfig)
    ensures var r := FromRender(plan, st, env);
      r.abort.None? ==> r.state.trace == st.trace + Tail(RenderTemplates, plan, st.fs, env)
  {
    var r1 := RunInFiles(RenderTemplate, plan.staging, st, env);
    if r1.abort.None? {
      RenderDone(plan, st, env);
      FromInvalidateWork(plan, r1.state, env);
      StepWork(RenderTemplates, plan, st, r1.state, FromInvalidate(plan, r1.state, env), env);
    }
  }

  lemma FromCopyWork(plan: Plan, st: State, env: Env)
    requires Ordered(st.trace) && UpTo(st.trace, StopApps)
    ensures var r := FromCopy(plan, st, env);
      r.abort.None? ==> r.state.trace == st.trace + Tail(SyncConfig, plan, st.fs, env)
  {
    var r1 := CopyConfig(plan.from, plan.staging, st, env);
    if r1.abort.None? {
      CopyDone(plan, st, env);
      FromRenderWork(plan, r1.state, env);
      StepWork(SyncConfig, plan, st, r1.state, FromRender(plan, r1.state, env), env);
    }
  }

  lemma FromStopWork(plan: Plan, st: State, env: Env)
    requires Ordered(st.trace) && UpTo(st.trace, EnsureStaging)
    ensures var r := FromStop(plan, st, env);
      r.abort.None? ==> r.state.trace == st.trace + Tail(StopApps, plan, st.fs, env)
  {
    var r1 := RunInFiles(StopApp, plan.staging, st, env);
    if r1.abort.None? {
      StopDone(plan, st, env);
      FromCopyWork(plan, r1.state, env);
      StepWork(StopApps, plan, st, r1.state, FromCopy(plan, r1.state, env), env);
    }
  }

  lemma FromEnsureWork(plan: Plan, st: State, env: Env)
    requires Ordered(st.trace) && UpTo(st.trace, Clone)
    ensures var r := FromEnsure(plan, st, env);
      r.abort.None? ==> r.state.trace == st.trace + Tail(EnsureStaging, plan, st.fs, env)
  {
    var r1 := EnsureStep(plan.staging, st, env);
    if r1.abort.None? {
      EnsureDone(plan, st, env);
      FromStopWork(plan, r1.state, env);
      StepWork(EnsureStaging, plan, st, r1.state, FromStop(plan, r1.state, env), env);
    }
  }

  lemma FromCloneWork(url: string, plan: Plan, st: State, env: Env)
    requires st.trace == []
    ensures var r := FromClone(url, plan, st, env);
      r.abort.None? ==> r.state.trace == Work(url, plan, st.fs, env)
  {
    var r1 := CloneStep(url, plan.checkout, st, env);
    if r1.abort.None? {
      assert Extends(st.trace, r1.state.trace, Clone);
      OrderedExtend(st.trace, r1.state.trace, Clone);
      FromEnsureWork(plan, r1.state, env);
    }
  }

  /**
   * Once the token matched, every event of the request is one its step
   * issues for the request's own checkout, staging directory, configuration
   * source and images; and a request answered with success issued exactly
   * `Work`: the clone, the creation of the staging directory, a stop of each
   * compose file below it, a copy of each source entry, the render and
   * removal of each template then below it, the image removal if any, a
   * start of each compose file then below it, and the checkout removal.
   */
  lemma AuthorizedWork(req: Request, fs: Node, env: Env)
    ensures var o := Authorized(req, fs, env);
      && AllFit(o.trace, req.giturl, PlanOf(req, env))
      && (o.result.Success? ==> o.trace == Work(req.giturl, PlanOf(req, env), fs, env))
  {
    FromCloneFit(req.giturl, PlanOf(req, env), State(fs, []), env);
    FromCloneWork(req.giturl, PlanOf(req, env), State(fs, []), env);
  }
}
