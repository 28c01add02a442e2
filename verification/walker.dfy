/**
 * `run_in_files`: a depth-first walk below a directory that hands every
 * entry which is not a directory to a callback, and stops at the first
 * listing error or the first callback that aborts.
 *
 * The walk follows the tree as it stood when the walk began: entries a
 * callback creates or removes while the walk is under way are not revisited.
 */
module Walker {
  import opened Wrappers
  import opened Paths
  import opened FsTree
  import opened Effects
  import opened Actions

  /**
   * The walk of directory `t`, found at `ParsePath(root) + base`: list it,
   * then take its entries in order.
   */
  function WalkDir(a: Action, root: string, base: Path, t: Node, st: State, env: Env): (r: Run)
    requires t.Dir?
    ensures Extends(st.trace, r.state.trace, StageFor(a))
    ensures !a.RenderTemplate? ==> r.state.fs == st.fs
    ensures r.abort.Some? ==> AbortStage(r.abort.value) == StageFor(a)
    ensures NamesLastEvent(r)
    decreases t, 1
  {
    var call := ReadDir(ParsePath(root) + base);
    if env.listingFails(StageFor(a), call) then Run(st, Some(ListingFailed(StageFor(a), call)))
    else WalkEntries(a, root, base, t, 0, st, env)
  }

  /** The entries of `t` from the `i`-th on: subdirectories are walked, anything else is handed to the callback. */
  function WalkEntries(a: Action, root: string, base: Path, t: Node, i: nat, st: State, env: Env): (r: Run)
    requires t.Dir? && i <= |t.entries|
    ensures Extends(st.trace, r.state.trace, StageFor(a))
    ensures !a.RenderTemplate? ==> r.state.fs == st.fs
    ensures r.abort.Some? ==> AbortStage(r.abort.value) == StageFor(a)
    ensures NamesLastEvent(r)
    decreases t, 0, |t.entries| - i
  {
    if i == |t.entries| then
      var call := EndOfDir(ParsePath(root) + base);
      if env.listingFails(StageFor(a), call) then Run(st, Some(ListingFailed(StageFor(a), call))) else Run(st, None)
    else
      var e := t.entries[i];
      var call := NextEntry(ParsePath(root) + base, e.name);
      if env.listingFails(StageFor(a), call) then Run(st, Some(ListingFailed(StageFor(a), call)))
      else
        var r1 := WalkEntry(a, root, base, e, st, env);
        if r1.abort.Some? then r1
        else
          var r2 := WalkEntries(a, root, base, t, i + 1, r1.state, env);
          ExtendsTrans(st.trace, r1.state.trace, r2.state.trace, StageFor(a));
          r2
  }

  /** One entry of a directory: a subdirectory is walked, anything else is handed to the callback. */
  function WalkEntry(a: Action, root: string, base: Path, e: Entry, st: State, env: Env): (r: Run)
    ensures Extends(st.trace, r.state.trace, StageFor(a))
    ensures !a.RenderTemplate? ==> r.state.fs == st.fs
    ensures r.abort.Some? ==> AbortStage(r.abort.value) == StageFor(a)
    ensures NamesLastEvent(r)
    decreases e.node, 2
  {
    if e.node.Dir? then WalkDir(a, root, base + [e.name], e.node, st, env)
    else Apply(a, root, base + [e.name], st, env)
  }

  /** `run_in_files(Path::new(root), cb)`: a root that is missing or not a directory is a successful no-op. */
  function RunInFiles(a: Action, root: string, st: State, env: Env): (r: Run)
    ensures Extends(st.trace, r.state.trace, StageFor(a))
    ensures !a.RenderTemplate? ==> r.state.fs == st.fs
    ensures r.abort.Some? ==> AbortStage(r.abort.value) == StageFor(a)
    ensures NamesLastEvent(r)
    ensures !IsDirAt(st.fs, ParsePath(root)) ==> r == Run(st, None)
  {
    match Lookup(st.fs, ParsePath(root))
    case Some(Dir(es)) => WalkDir(a, root, [], Dir(es), st, env)
    case _ => Run(st, None)
  }

  // ------------------------------------------------------------ the walk as a flat trail

  /** One step of a walk: a listing call that may fail, or a callback on an entry. */
  datatype Move = List(call: Listing) | Visit(rel: Path)

  /** The steps the walk of `t` takes, in order, when nothing fails. */
  function TrailDir(root: string, base: Path, t: Node): seq<Move>
    requires t.Dir?
    decreases t, 1
  {
    [List(ReadDir(ParsePath(root) + base))] + TrailEntries(root, base, t, 0)
  }

  function TrailEntries(root: string, base: Path, t: Node, i: nat): seq<Move>
    requires t.Dir? && i <= |t.entries|
    decreases t, 0, |t.entries| - i
  {
    if i == |t.entries| then [List(EndOfDir(ParsePath(root) + base))]
    else
      var e := t.entries[i];
      [List(NextEntry(ParsePath(root) + base, e.name))] + TrailEntry(root, base, e) + TrailEntries(root, base, t, i + 1)
  }

  function TrailEntry(root: string, base: Path, e: Entry): seq<Move>
    decreases e.node, 2
  {
    if e.node.Dir? then TrailDir(root, base + [e.name], e.node) else [Visit(base + [e.name])]
  }

  /** The trail of the entries from the `i`-th on: one listing call, the entry's own trail, then the rest. */
  lemma TrailEntriesUnfold(root: string, base: Path, t: Node, i: nat)
    requires t.Dir? && i < |t.entries|
    ensures var ms := TrailEntries(root, base, t, i);
      && ms[0] == List(NextEntry(ParsePath(root) + base, t.entries[i].name))
      && ms[1..] == TrailEntry(root, base, t.entries[i]) + TrailEntries(root, base, t, i + 1)
  {
    var ms := TrailEntries(root, base, t, i);
    var tail := TrailEntry(root, base, t.entries[i]) + TrailEntries(root, base, t, i + 1);
    assert ms == [ms[0]] + tail;
  }

  function Step(a: Action, root: string, m: Move, st: State, env: Env): Run {
    match m
    case List(call) => if env.listingFails(StageFor(a), call) then Run(st, Some(ListingFailed(StageFor(a), call))) else Run(st, None)
    case Visit(rel) => Apply(a, root, rel, st, env)
  }

  /** Take the steps one after another, stopping at the first abort. */
  function RunTrail(a: Action, root: string, ms: seq<Move>, st: State, env: Env): Run
    decreases |ms|
  {
    if ms == [] then Run(st, None)
    else
      var r := Step(a, root, ms[0], st, env);
      if r.abort.Some? then r else RunTrail(a, root, ms[1..], r.state, env)
  }

  /** The callback on each path in turn, stopping at the first abort. */
  function ApplyAll(a: Action, root: string, rels: seq<Path>, st: State, env: Env): Run
    decreases |rels|
  {
    if rels == [] then Run(st, None)
    else
      var r := Apply(a, root, rels[0], st, env);
      if r.abort.Some? then r else ApplyAll(a, root, rels[1..], r.state, env)
  }

  function Visits(ms: seq<Move>): seq<Path> {
    if ms == [] then []
    else (if ms[0].Visit? then [ms[0].rel] else []) + Visits(ms[1..])
  }

  predicate NoListingFails(s: Stage, ms: seq<Move>, env: Env) {
    forall j :: 0 <= j < |ms| && ms[j].List? ==> !env.listingFails(s, ms[j].call)
  }

  /** The paths below `base` of the entries of `t` that are not directories, in walk order. */
  function FilesDir(base: Path, t: Node): seq<Path>
    requires t.Dir?
    decreases t, 1
  {
    FilesEntries(base, t, 0)
  }

  function FilesEntries(base: Path, t: Node, i: nat): seq<Path>
    requires t.Dir? && i <= |t.entries|
    decreases t, 0, |t.entries| - i
  {
    if i == |t.entries| then []
    else
      var e := t.entries[i];
      (if e.node.Dir? then FilesDir(base + [e.name], e.node) else [base + [e.name]])
      + FilesEntries(base, t, i + 1)
  }

  // ------------------------------------------------------------ lemmas

  lemma {:induction false} RunTrailAppend(a: Action, root: string, xs: seq<Move>, ys: seq<Move>, st: State, env: Env)
    ensures var r := RunTrail(a, root, xs, st, env);
      RunTrail(a, root, xs + ys, st, env) == if r.abort.Some? then r else RunTrail(a, root, ys, r.state, env)
    decreases |xs|
  {
    if xs == [] {
      assert xs + ys == ys;
    } else {
      assert (xs + ys)[0] == xs[0] && (xs + ys)[1..] == xs[1..] + ys;
      var r := Step(a, root, xs[0], st, env);
      if r.abort.None? {
        RunTrailAppend(a, root, xs[1..], ys, r.state, env);
      }
    }
  }

  lemma {:induction false} VisitsAppend(xs: seq<Move>, ys: seq<Move>)
    ensures Visits(xs + ys) == Visits(xs) + Visits(ys)
    decreases |xs|
  {
    if xs == [] {
      assert xs + ys == ys;
    } else {
      assert (xs + ys)[0] == xs[0] && (xs + ys)[1..] == xs[1..] + ys;
      VisitsAppend(xs[1..], ys);
    }
  }

  /** The recursive walk takes exactly the steps of its trail. */
  lemma {:induction false} WalkDirIsRun(a: Action, root: string, base: Path, t: Node, st: State, env: Env)
    requires t.Dir?
    ensures WalkDir(a, root, base, t, st, env) == RunTrail(a, root, TrailDir(root, base, t), st, env)
    decreases t, 1
  {
    var ms := TrailDir(root, base, t);
    assert ms[1..] == TrailEntries(root, base, t, 0);
    WalkEntriesIsRun(a, root, base, t, 0, st, env);
  }

  lemma RunTrailList(a: Action, root: string, c: Listing, xs: seq<Move>, st: State, env: Env)
    ensures RunTrail(a, root, [List(c)] + xs, st, env)
      == if env.listingFails(StageFor(a), c) then Run(st, Some(ListingFailed(StageFor(a), c))) else RunTrail(a, root, xs, st, env)
  {
    assert ([List(c)] + xs)[1..] == xs;
  }

  lemma RunTrailVisit(a: Action, root: string, rel: Path, st: State, env: Env)
    ensures RunTrail(a, root, [Visit(rel)], st, env) == Apply(a, root, rel, st, env)
  {
    assert [Visit(rel)][1..] == [];
  }

  lemma {:induction false} WalkEntryIsRun(a: Action, root: string, base: Path, e: Entry, st: State, env: Env)
    ensures WalkEntry(a, root, base, e, st, env) == RunTrail(a, root, TrailEntry(root, base, e), st, env)
    decreases e.node, 2
  {
    if e.node.Dir? {
      WalkDirIsRun(a, root, base + [e.name], e.node, st, env);
    } else {
      RunTrailVisit(a, root, base + [e.name], st, env);
    }
  }

  /** The walk of the entries from the `i`-th on, one entry at a time. */
  lemma WalkEntriesUnfold(a: Action, root: string, base: Path, t: Node, i: nat, st: State, env: Env)
    requires t.Dir? && i < |t.entries|
    ensures var call := NextEntry(ParsePath(root) + base, t.entries[i].name);
      var r1 := WalkEntry(a, root, base, t.entries[i], st, env);
      WalkEntries(a, root, base, t, i, st, env)
        == if env.listingFails(StageFor(a), call) then Run(st, Some(ListingFailed(StageFor(a), call)))
           else if r1.abort.Some? then r1
           else WalkEntries(a, root, base, t, i + 1, r1.state, env)
  {
  }

  lemma {:induction false} WalkEntriesIsRun(a: Action, root: string, base: Path, t: Node, i: nat, st: State, env: Env)
    requires t.Dir? && i <= |t.entries|
    ensures WalkEntries(a, root, base, t, i, st, env) == RunTrail(a, root, TrailEntries(root, base, t, i), st, env)
    decreases t, 0, |t.entries| - i
  {
    if i < |t.entries| {
      var e := t.entries[i];
      var call := NextEntry(ParsePath(root) + base, e.name);
      var sub := TrailEntry(root, base, e);
      var rest := TrailEntries(root, base, t, i + 1);
      var ms := TrailEntries(root, base, t, i);
      TrailEntriesUnfold(root, base, t, i);
      assert ms == [List(call)] + (sub + rest);
      WalkEntriesUnfold(a, root, base, t, i, st, env);
      RunTrailList(a, root, call, sub + rest, st, env);
      if !env.listingFails(StageFor(a), call) {
        RunTrailAppend(a, root, sub, rest, st, env);
        WalkEntryIsRun(a, root, base, e, st, env);
        var r1 := RunTrail(a, root, sub, st, env);
        if r1.abort.None? {
          WalkEntriesIsRun(a, root, base, t, i + 1, r1.state, env);
        }
      }
    } else {
      RunTrailList(a, root, EndOfDir(ParsePath(root) + base), [], st, env);
      assert [List(EndOfDir(ParsePath(root) + base))] + [] == TrailEntries(root, base, t, i);
    }
  }

  /** When every listing call succeeds, the walk is the callback on each visited path in turn. */
  lemma {:induction false} RunTrailCoverage(a: Action, root: string, ms: seq<Move>, st: State, env: Env)
    requires NoListingFails(StageFor(a), ms, env)
    ensures RunTrail(a, root, ms, st, env) == ApplyAll(a, root, Visits(ms), st, env)
    decreases |ms|
  {
    if ms != [] {
      assert NoListingFails(StageFor(a), ms[1..], env) by {
        forall j | 0 <= j < |ms[1..]| && ms[1..][j].List? ensures !env.listingFails(StageFor(a), ms[1..][j].call) {
          assert ms[1..][j] == ms[j + 1];
        }
      }
      var r := Step(a, root, ms[0], st, env);
      if ms[0].Visit? {
        if r.abort.None? {
          RunTrailCoverage(a, root, ms[1..], r.state, env);
        }
      } else {
        assert Visits(ms) == Visits(ms[1..]);
        RunTrailCoverage(a, root, ms[1..], st, env);
      }
    }
  }

  /**
   * The first listing call that fails ends the walk: the callbacks before it
   * have run, and no step after it is taken.
   */
  lemma FirstListingFailure(a: Action, root: string, ms: seq<Move>, k: nat, st: State, env: Env)
    requires k < |ms| && ms[k].List? && env.listingFails(StageFor(a), ms[k].call)
    requires NoListingFails(StageFor(a), ms[..k], env)
    ensures var pre := ApplyAll(a, root, Visits(ms[..k]), st, env);
      RunTrail(a, root, ms, st, env)
        == if pre.abort.Some? then pre else Run(pre.state, Some(ListingFailed(StageFor(a), ms[k].call)))
  {
    assert ms == ms[..k] + ms[k..];
    RunTrailAppend(a, root, ms[..k], ms[k..], st, env);
    RunTrailCoverage(a, root, ms[..k], st, env);
    assert ms[k..][0] == ms[k];
  }

  /** The callbacks of a walk are made on exactly the paths `FilesDir` lists. */
  lemma {:induction false} TrailDirVisits(root: string, base: Path, t: Node)
    requires t.Dir?
    ensures Visits(TrailDir(root, base, t)) == FilesDir(base, t)
    decreases t, 1
  {
    var ms := TrailDir(root, base, t);
    assert ms[1..] == TrailEntries(root, base, t, 0);
    TrailEntriesVisits(root, base, t, 0);
  }

  lemma {:induction false} TrailEntriesVisits(root: string, base: Path, t: Node, i: nat)
    requires t.Dir? && i <= |t.entries|
    ensures Visits(TrailEntries(root, base, t, i)) == FilesEntries(base, t, i)
    decreases t, 0, |t.entries| - i
  {
    if i < |t.entries| {
      var e := t.entries[i];
      var sub := TrailEntry(root, base, e);
      var rest := TrailEntries(root, base, t, i + 1);
      TrailEntriesUnfold(root, base, t, i);
      VisitsAppend(sub, rest);
      if e.node.Dir? {
        TrailDirVisits(root, base + [e.name], e.node);
      } else {
        assert sub[1..] == [];
      }
      TrailEntriesVisits(root, base, t, i + 1);
    } else {
      assert TrailEntries(root, base, t, i)[1..] == [];
    }
  }

  // ------------------------------------------------------------ which entries are visited

  predicate Distinct(s: seq<Path>) {
    forall i, j :: 0 <= i < j < |s| ==> s[i] != s[j]
  }

  lemma DistinctAppend(x: seq<Path>, y: seq<Path>)
    requires Distinct(x) && Distinct(y)
    requires forall p :: p in x ==> p !in y
    ensures Distinct(x + y)
  {
    forall i, j | 0 <= i < j < |x + y| ensures (x + y)[i] != (x + y)[j] {
      if j >= |x| && i < |x| {
        assert (x + y)[i] in x && (x + y)[j] == y[j - |x|];
      }
    }
  }

  /** `p` is below `base`, passes through the `i`-th entry of `t`, and names a file. */
  predicate Own(base: Path, t: Node, i: nat, p: Path)
    requires t.Dir? && i < |t.entries|
  {
    |base| < |p| && p[..|base|] == base && p[|base|] == t.entries[i].name && IsFileAt(t, p[|base|..])
  }

  /** The files the `i`-th entry contributes to the listing. */
  function EntryFiles(base: Path, t: Node, i: nat): seq<Path>
    requires t.Dir? && i < |t.entries|
  {
    var e := t.entries[i];
    if e.node.Dir? then FilesDir(base + [e.name], e.node) else [base + [e.name]]
  }

  lemma LookupThroughEntry(t: Node, i: nat, q: Path)
    requires t.Dir? && UniqueNames(t.entries) && i < |t.entries|
    requires q != [] && q[0] == t.entries[i].name
    ensures Lookup(t, q) == Lookup(t.entries[i].node, q[1..])
  {
    ChildAt(t.entries, i);
  }

  /** A path below `base` is listed exactly when it names a file of `t`. */
  lemma {:induction false} FilesDirMembership(base: Path, t: Node, p: Path)
    requires t.Dir? && Wf(t)
    ensures p in FilesDir(base, t) <==> |base| < |p| && p[..|base|] == base && IsFileAt(t, p[|base|..])
    decreases t, 2
  {
    FilesEntriesMembership(base, t, 0, p);
    if |base| < |p| && p[..|base|] == base && IsFileAt(t, p[|base|..]) {
      var q := p[|base|..];
      assert Child(t.entries, q[0]).Some?;
      var j :| 0 <= j < |t.entries| && t.entries[j].name == q[0];
      assert Own(base, t, j, p);
    }
  }

  lemma {:induction false} FilesEntriesMembership(base: Path, t: Node, i: nat, p: Path)
    requires t.Dir? && Wf(t) && i <= |t.entries|
    ensures p in FilesEntries(base, t, i) <==> exists j :: i <= j < |t.entries| && Own(base, t, j, p)
    decreases t, 1, |t.entries| - i
  {
    if i < |t.entries| {
      assert FilesEntries(base, t, i) == EntryFiles(base, t, i) + FilesEntries(base, t, i + 1);
      EntryFilesMembership(base, t, i, p);
      FilesEntriesMembership(base, t, i + 1, p);
      if exists j :: i <= j < |t.entries| && Own(base, t, j, p) {
        var j :| i <= j < |t.entries| && Own(base, t, j, p);
        if j > i {
          assert exists j' :: i + 1 <= j' < |t.entries| && Own(base, t, j', p);
        }
      }
    }
  }

  lemma {:induction false} EntryFilesMembership(base: Path, t: Node, i: nat, p: Path)
    requires t.Dir? && Wf(t) && i < |t.entries|
    ensures p in EntryFiles(base, t, i) <==> Own(base, t, i, p)
    decreases t, 0
  {
    var e := t.entries[i];
    if |base| < |p| && p[|base|] == e.name {
      LookupThroughEntry(t, i, p[|base|..]);
      assert p[|base|..][1..] == p[|base| + 1..];
    }
    if e.node.Dir? {
      FilesDirMembership(base + [e.name], e.node, p);
      if |base| + 1 <= |p| && p[..|base| + 1] == base + [e.name] {
        assert p[..|base|] == p[..|base| + 1][..|base|];
        assert p[|base|] == p[..|base| + 1][|base|];
      }
      if |base| < |p| && p[..|base|] == base && p[|base|] == e.name {
        assert p[..|base| + 1] == p[..|base|] + [p[|base|]];
      }
    } else {
      if p == base + [e.name] {
        assert p[..|base|] == base && p[|base|..] == [e.name];
      }
      if Own(base, t, i, p) {
        assert p == p[..|base|] + p[|base|..];
      }
    }
  }

  /** No file is listed twice. */
  lemma {:induction false} FilesEntriesDistinct(base: Path, t: Node, i: nat)
    requires t.Dir? && Wf(t) && i <= |t.entries|
    ensures Distinct(FilesEntries(base, t, i))
    decreases t, 0, |t.entries| - i
  {
    var es := t.entries;
    if i < |es| {
      var x := EntryFiles(base, t, i);
      var rest := FilesEntries(base, t, i + 1);
      assert FilesEntries(base, t, i) == x + rest;
      if es[i].node.Dir? {
        FilesEntriesDistinct(base + [es[i].name], es[i].node, 0);
      }
      FilesEntriesDistinct(base, t, i + 1);
      forall p | p in x ensures p !in rest {
        EntryFilesMembership(base, t, i, p);
        FilesEntriesMembership(base, t, i + 1, p);
      }
      DistinctAppend(x, rest);
    }
  }

  /**
   * In a well-formed tree the walk hands each file below the root to the
   * callback once, and nothing else.
   */
  lemma WalkVisitsEachFileOnce(root: string, t: Node)
    requires t.Dir? && Wf(t)
    ensures Distinct(Visits(TrailDir(root, [], t)))
    ensures forall p :: p in Visits(TrailDir(root, [], t)) <==> IsFileAt(t, p)
  {
    TrailDirVisits(root, [], t);
    FilesEntriesDistinct([], t, 0);
    forall p ensures p in FilesDir([], t) <==> IsFileAt(t, p) {
      FilesDirMembership([], t, p);
      if IsFileAt(t, p) {
        assert p != [];
      }
    }
  }

  /**
   * `run_in_files` on a directory whose listing calls all succeed is the
   * callback on each file below it in turn, stopping at the first abort.
   */
  lemma RunInFilesCoverage(a: Action, root: string, st: State, env: Env)
    requires IsDirAt(st.fs, ParsePath(root))
    requires NoListingFails(StageFor(a), TrailDir(root, [], Lookup(st.fs, ParsePath(root)).value), env)
    ensures RunInFiles(a, root, st, env)
      == ApplyAll(a, root, FilesDir([], Lookup(st.fs, ParsePath(root)).value), st, env)
  {
    var t := Lookup(st.fs, ParsePath(root)).value;
    WalkDirIsRun(a, root, [], t, st, env);
    RunTrailCoverage(a, root, TrailDir(root, [], t), st, env);
    TrailDirVisits(root, [], t);
  }

  /**
   * The first listing error in `run_in_files` ends it: the callbacks on the
   * files enumerated before it have run, and nothing after it happens.
   */
  lemma RunInFilesStopsAtListingError(a: Action, root: string, st: State, env: Env, k: nat)
    requires IsDirAt(st.fs, ParsePath(root))
    requires var ms := TrailDir(root, [], Lookup(st.fs, ParsePath(root)).value);
      k < |ms| && ms[k].List? && env.listingFails(StageFor(a), ms[k].call) && NoListingFails(StageFor(a), ms[..k], env)
    ensures var ms := TrailDir(root, [], Lookup(st.fs, ParsePath(root)).value);
      var pre := ApplyAll(a, root, Visits(ms[..k]), st, env);
      RunInFiles(a, root, st, env)
        == if pre.abort.Some? then pre else Run(pre.state, Some(ListingFailed(StageFor(a), ms[k].call)))
  {
    var t := Lookup(st.fs, ParsePath(root)).value;
    WalkDirIsRun(a, root, [], t, st, env);
    FirstListingFailure(a, root, TrailDir(root, [], t), k, st, env);
  }

  // ------------------------------------------------------------ what the callbacks issue

  /** The compose commands a stop or start pass issues for `rels`, in order, when none fails. */
  function ComposeCommands(a: Action, root: string, rels: seq<Path>): seq<Command>
    requires !a.RenderTemplate?
    decreases |rels|
  {
    if rels == [] then []
    else
      var d := Display(root, rels[0]);
      (if d.Some? && IsComposeFile(d.value) then [ComposeCommand(a, d.value)] else [])
      + ComposeCommands(a, root, rels[1..])
  }

  function Execs(cs: seq<Command>): seq<Event> {
    seq(|cs|, k requires 0 <= k < |cs| => Exec(cs[k]))
  }

  /** Start each command in turn, stopping at the first one that cannot be started. */
  function LaunchAll(stage: Stage, cs: seq<Command>, st: State, env: Env): Run
    decreases |cs|
  {
    if cs == [] then Run(st, None)
    else
      var r := Launch(stage, cs[0], st, env);
      if r.abort.Some? then r else LaunchAll(stage, cs[1..], r.state, env)
  }

  /** A stop or start pass over `rels` is the launch of its compose commands, in order. */
  lemma {:induction false} ComposePass(a: Action, root: string, rels: seq<Path>, st: State, env: Env)
    requires !a.RenderTemplate?
    ensures ApplyAll(a, root, rels, st, env) == LaunchAll(StageFor(a), ComposeCommands(a, root, rels), st, env)
    decreases |rels|
  {
    if rels != [] {
      var d := Display(root, rels[0]);
      var r1 := Apply(a, root, rels[0], st, env);
      ComposeAction(a, root, rels[0], st, env);
      var tail := ComposeCommands(a, root, rels[1..]);
      if d.Some? && IsComposeFile(d.value) {
        var c := ComposeCommand(a, d.value);
        assert ComposeCommands(a, root, rels) == [c] + tail;
        assert ([c] + tail)[1..] == tail;
        assert r1 == Launch(StageFor(a), c, st, env);
        if r1.abort.None? {
          ComposePass(a, root, rels[1..], r1.state, env);
        }
      } else {
        assert ComposeCommands(a, root, rels) == tail;
        assert r1.state == st && r1.abort.None?;
        ComposePass(a, root, rels[1..], st, env);
      }
    }
  }

  /**
   * Launching commands leaves the tree alone; it succeeds exactly when every
   * command can be started, and then each was started once, in order.
   */
  lemma {:induction false} LaunchAllSuccess(stage: Stage, cs: seq<Command>, st: State, env: Env)
    ensures var r := LaunchAll(stage, cs, st, env);
      && r.state.fs == st.fs
      && (r.abort.None? <==> forall k :: 0 <= k < |cs| ==> !env.refuses(Exec(cs[k])))
      && (r.abort.None? ==> r.state.trace == st.trace + Execs(cs))
    decreases |cs|
  {
    if cs != [] {
      var r1 := Launch(stage, cs[0], st, env);
      LaunchAllSuccess(stage, cs[1..], r1.state, env);
      assert forall k :: 0 < k < |cs| ==> cs[k] == cs[1..][k - 1];
      assert Execs(cs) == [Exec(cs[0])] + Execs(cs[1..]);
    }
  }

  /** When launching aborts, the first command that cannot be started was the last one tried. */
  lemma {:induction false} LaunchAllAbort(stage: Stage, cs: seq<Command>, st: State, env: Env)
    requires LaunchAll(stage, cs, st, env).abort.Some?
    ensures var r := LaunchAll(stage, cs, st, env);
      exists k: nat :: FirstRefused(cs, k, env)
        && r.state.trace == st.trace + Execs(cs[..k + 1])
        && r.abort.value == NotLaunched(stage, cs[k])
    decreases |cs|
  {
    var r := LaunchAll(stage, cs, st, env);
    var r1 := Launch(stage, cs[0], st, env);
    if r1.abort.Some? {
      assert Execs(cs[..1]) == [Exec(cs[0])];
      assert FirstRefused(cs, 0, env);
    } else {
      var tail := cs[1..];
      LaunchAllAbort(stage, tail, r1.state, env);
      var k: nat :| FirstRefused(tail, k, env)
        && r.state.trace == r1.state.trace + Execs(tail[..k + 1])
        && r.abort.value == NotLaunched(stage, tail[k]);
      LaterRefused(cs, k, env);
    }
  }

  /** A first refusal in the tail, after a head that starts, is the first refusal one further on. */
  lemma LaterRefused(cs: seq<Command>, k: nat, env: Env)
    requires cs != [] && !env.refuses(Exec(cs[0])) && FirstRefused(cs[1..], k, env)
    ensures FirstRefused(cs, k + 1, env)
    ensures Execs(cs[..k + 2]) == [Exec(cs[0])] + Execs(cs[1..][..k + 1])
  {
    assert cs[..k + 2] == [cs[0]] + cs[1..][..k + 1];
    forall j | 0 < j < k + 1 ensures !env.refuses(Exec(cs[j])) {
      assert cs[j] == cs[1..][j - 1];
    }
  }

  /** `cs[k]` is the first command of `cs` that cannot be started. */
  predicate FirstRefused(cs: seq<Command>, k: nat, env: Env) {
    k < |cs| && env.refuses(Exec(cs[k])) && forall j :: 0 <= j < k ==> !env.refuses(Exec(cs[j]))
  }

  /** The events a render pass over `rels` issues when nothing fails: envsubst, then the removal, per template. */
  function RenderEvents(root: string, rels: seq<Path>): seq<Event>
    decreases |rels|
  {
    if rels == [] then []
    else
      var d := Display(root, rels[0]);
      (if d.Some? && IsTemplate(d.value)
       then [Exec(Envsubst(d.value, RenderTarget(d.value))), DeleteFile(ParsePath(d.value))]
       else [])
      + RenderEvents(root, rels[1..])
  }

  /** A render pass that does not abort issued exactly the envsubst and removal of each template, in order. */
  lemma {:induction false} RenderPass(root: string, rels: seq<Path>, st: State, env: Env)
    ensures var r := ApplyAll(RenderTemplate, root, rels, st, env);
      r.abort.None? ==> r.state.trace == st.trace + RenderEvents(root, rels)
    decreases |rels|
  {
    if rels != [] {
      RenderAction(root, rels[0], st, env);
      var r1 := Apply(RenderTemplate, root, rels[0], st, env);
      if r1.abort.None? {
        RenderPass(root, rels[1..], r1.state, env);
      }
    }
  }
}
