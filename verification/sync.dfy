/**
 * The copy step of `deploy`: every entry of the checked-out `conf`
 * directory is copied, flat, to `<staging>/<name>`, overwriting what was
 * there.  Nothing is copied recursively: an entry that is a directory makes
 * `std::fs::copy` fail, and the request aborts.
 */
module Sync {
  import opened Wrappers
  import opened Paths
  import opened FsTree
  import opened Effects

  /** `format!("{}/{}", config_dir, name)`, resolved. */
  function CopyTarget(staging: string, s: string): Path {
    ParsePath(staging + "/" + s)
  }

  /**
   * One loop iteration on entry `e` of the directory at `from`: the name must
   * be UTF-8, then `std::fs::copy` reads a regular file and writes it to the
   * target.
   */
  function CopyOne(from: Path, staging: string, e: Entry, st: State, env: Env): (r: Run)
    ensures Extends(st.trace, r.state.trace, SyncConfig)
    ensures r.abort.Some? ==> AbortStage(r.abort.value) == SyncConfig
    ensures NamesLastEvent(r)
    ensures e.name.NonUtf8? ==> r == Run(st, Some(NameNotUtf8(SyncConfig, e.name)))
    ensures e.name.Text? ==> |r.state.trace| == |st.trace| + 1
    ensures e.name.Text? && !IsFileAt(st.fs, from + [e.name]) ==> r.abort.Some?
  {
    match e.name
    case NonUtf8(_) => Run(st, Some(NameNotUtf8(SyncConfig, e.name)))
    case Text(s) =>
      var src := from + [e.name];
      var dst := CopyTarget(staging, s);
      var result := match Lookup(st.fs, src)
        case Some(File(c)) => WriteFile(st.fs, dst, c)
        case _ => None;
      Perform(SyncConfig, CopyFile(src, dst), result, st, env)
  }

  /** The loop from the `i`-th entry of the listing `es` of `from` on. */
  function CopyEntries(from: Path, staging: string, es: seq<Entry>, i: nat, st: State, env: Env): (r: Run)
    requires i <= |es|
    ensures Extends(st.trace, r.state.trace, SyncConfig)
    ensures r.abort.Some? ==> AbortStage(r.abort.value) == SyncConfig
    ensures NamesLastEvent(r)
    decreases |es| - i
  {
    if i == |es| then
      var call := EndOfDir(from);
      if env.listingFails(SyncConfig, call) then Run(st, Some(ListingFailed(SyncConfig, call))) else Run(st, None)
    else
      var call := NextEntry(from, es[i].name);
      if env.listingFails(SyncConfig, call) then Run(st, Some(ListingFailed(SyncConfig, call)))
      else
        var r1 := CopyOne(from, staging, es[i], st, env);
        if r1.abort.Some? then r1
        else
          var r2 := CopyEntries(from, staging, es, i + 1, r1.state, env);
          ExtendsTrans(st.trace, r1.state.trace, r2.state.trace, SyncConfig);
          r2
  }

  /** `for file in std::fs::read_dir(&from).unwrap() { ... }`: a `from` that is not a listable directory aborts. */
  function CopyConfig(from: string, staging: string, st: State, env: Env): (r: Run)
    ensures Extends(st.trace, r.state.trace, SyncConfig)
    ensures r.abort.Some? ==> AbortStage(r.abort.value) == SyncConfig
    ensures NamesLastEvent(r)
    ensures !IsDirAt(st.fs, ParsePath(from)) ==> r == Run(st, Some(ListingFailed(SyncConfig, ReadDir(ParsePath(from)))))
  {
    var dir := ParsePath(from);
    var call := ReadDir(dir);
    match Lookup(st.fs, dir)
    case Some(Dir(es)) =>
      if env.listingFails(SyncConfig, call) then Run(st, Some(ListingFailed(SyncConfig, call)))
      else CopyEntries(dir, staging, es, 0, st, env)
    case _ => Run(st, Some(ListingFailed(SyncConfig, call)))
  }

  // ------------------------------------------------------------ what a successful copy did

  /** The copies a complete loop over `es[i..]` issues, in order. */
  function CopyEvents(from: Path, to: Path, es: seq<Entry>, i: nat): seq<Event>
    requires i <= |es|
  {
    seq(|es| - i, k requires 0 <= k < |es| - i => CopyFile(from + [es[i + k].name], to + [es[i + k].name]))
  }

  /** The copy targets of `es[i..]` leave `q` alone. */
  predicate Untouched(to: Path, es: seq<Entry>, i: nat, q: Path)
    requires i <= |es|
  {
    forall j :: i <= j < |es| ==> Apart(to + [es[j].name], q)
  }

  /** One iteration that does not abort copied a regular file to the same name below the staging directory. */
  lemma CopyOneEffect(from: Path, staging: string, e: Entry, st: State, env: Env)
    requires ValidName(e.name) && Lookup(st.fs, from + [e.name]) == Some(e.node)
    ensures var r := CopyOne(from, staging, e, st, env);
      var dst := ParsePath(staging) + [e.name];
      r.abort.None? ==>
        && e.name.Text? && e.node.File?
        && Lookup(r.state.fs, dst) == Some(e.node)
        && r.state.trace == st.trace + [CopyFile(from + [e.name], dst)]
  {
    if e.name.Text? {
      ParsePathAppend(staging, e.name.text);
    }
  }

  /** One iteration that does not abort changes nothing apart from its target. */
  lemma CopyOneFrame(from: Path, staging: string, e: Entry, st: State, env: Env, q: Path)
    requires ValidName(e.name) && Apart(ParsePath(staging) + [e.name], q)
    requires CopyOne(from, staging, e, st, env).abort.None?
    ensures Lookup(CopyOne(from, staging, e, st, env).state.fs, q) == Lookup(st.fs, q)
  {
    ParsePathAppend(staging, e.name.text);
  }

  /** The target of one entry is apart from the targets of all later ones. */
  lemma LaterTargetsApart(to: Path, es: seq<Entry>, i: nat)
    requires i < |es| && UniqueNames(es)
    ensures Untouched(to, es, i + 1, to + [es[i].name])
  {
    forall j | i + 1 <= j < |es| ensures Apart(to + [es[j].name], to + [es[i].name]) {
      SiblingsApart(to, es[j].name, es[i].name);
    }
  }

  /** The source entries of `es[i..]` are what the listing said, and no copy target overlaps them. */
  predicate SourcesIntact(from: Path, staging: string, es: seq<Entry>, i: nat, fs: Node)
    requires i <= |es|
  {
    && UniqueNames(es)
    && (forall j :: i <= j < |es| ==> ValidName(es[j].name))
    && (forall j :: i <= j < |es| ==> Lookup(fs, from + [es[j].name]) == Some(es[j].node))
    && Apart(from, ParsePath(staging))
  }

  /** A successful iteration keeps the later sources intact. */
  lemma CopyStepIntact(from: Path, staging: string, es: seq<Entry>, i: nat, st: State, env: Env)
    requires i < |es| && SourcesIntact(from, staging, es, i, st.fs)
    requires CopyOne(from, staging, es[i], st, env).abort.None?
    ensures SourcesIntact(from, staging, es, i + 1, CopyOne(from, staging, es[i], st, env).state.fs)
  {
    var e := es[i];
    var to := ParsePath(staging);
    forall j | i + 1 <= j < |es|
      ensures Lookup(CopyOne(from, staging, e, st, env).state.fs, from + [es[j].name]) == Some(es[j].node)
    {
      ApartExtend(from, to, [es[j].name], [e.name]);
      CopyOneFrame(from, staging, e, st, env, from + [es[j].name]);
    }
  }

  /** A loop that went through went through its first iteration, then the rest. */
  lemma CopyEntriesUnfold(from: Path, staging: string, es: seq<Entry>, i: nat, st: State, env: Env)
    requires i < |es| && CopyEntries(from, staging, es, i, st, env).abort.None?
    ensures var r1 := CopyOne(from, staging, es[i], st, env);
      && r1.abort.None?
      && CopyEntries(from, staging, es, i, st, env) == CopyEntries(from, staging, es, i + 1, r1.state, env)
  {
  }

  lemma CopyEventsCons(from: Path, to: Path, es: seq<Entry>, i: nat)
    requires i < |es|
    ensures CopyEvents(from, to, es, i) == [CopyFile(from + [es[i].name], to + [es[i].name])] + CopyEvents(from, to, es, i + 1)
  {
  }

  /**
   * When the loop over `es[i..]` finishes without aborting, one copy per
   * entry was issued, in listing order.
   */
  lemma {:induction false} CopyEntriesTrace(from: Path, staging: string, es: seq<Entry>, i: nat, st: State, env: Env)
    requires i <= |es| && SourcesIntact(from, staging, es, i, st.fs)
    ensures var r := CopyEntries(from, staging, es, i, st, env);
      r.abort.None? ==> r.state.trace == st.trace + CopyEvents(from, ParsePath(staging), es, i)
    decreases |es| - i
  {
    var to := ParsePath(staging);
    var r := CopyEntries(from, staging, es, i, st, env);
    if i == |es| {
      assert CopyEvents(from, to, es, i) == [];
    } else if r.abort.None? {
      var e := es[i];
      var r1 := CopyOne(from, staging, e, st, env);
      CopyEntriesUnfold(from, staging, es, i, st, env);
      CopyOneEffect(from, staging, e, st, env);
      assert r1.state.trace == st.trace + [CopyFile(from + [e.name], to + [e.name])];
      CopyStepIntact(from, staging, es, i, st, env);
      CopyEntriesTrace(from, staging, es, i + 1, r1.state, env);
      CopyEventsCons(from, to, es, i);
    }
  }

  /** A loop over `es[i..]` that goes through leaves every path no copy target touches as it was. */
  lemma {:induction false} CopyEntriesFrame(from: Path, staging: string, es: seq<Entry>, i: nat, st: State, env: Env)
    requires i <= |es| && SourcesIntact(from, staging, es, i, st.fs)
    ensures var r := CopyEntries(from, staging, es, i, st, env);
      r.abort.None? ==>
        forall q :: Untouched(ParsePath(staging), es, i, q) ==> Lookup(r.state.fs, q) == Lookup(st.fs, q)
    decreases |es| - i
  {
    var to := ParsePath(staging);
    var r := CopyEntries(from, staging, es, i, st, env);
    if i < |es| && r.abort.None? {
      var e := es[i];
      var r1 := CopyOne(from, staging, e, st, env);
      CopyEntriesUnfold(from, staging, es, i, st, env);
      CopyStepIntact(from, staging, es, i, st, env);
      CopyEntriesFrame(from, staging, es, i + 1, r1.state, env);
      forall q | Untouched(to, es, i, q) ensures Lookup(r.state.fs, q) == Lookup(st.fs, q) {
        assert Untouched(to, es, i + 1, q);
        CopyOneFrame(from, staging, e, st, env, q);
      }
    }
  }

  /**
   * When the loop over `es[i..]` finishes without aborting, the `j`-th entry
   * was a regular file with a UTF-8 name, and its content now sits at the
   * same name below the staging directory.
   */
  lemma {:induction false} CopyEntriesTarget(from: Path, staging: string, es: seq<Entry>, i: nat, j: nat, st: State, env: Env)
    requires i <= j < |es| && SourcesIntact(from, staging, es, i, st.fs)
    ensures var r := CopyEntries(from, staging, es, i, st, env);
      r.abort.None? ==>
        && es[j].name.Text? && es[j].node.File?
        && Lookup(r.state.fs, ParsePath(staging) + [es[j].name]) == Some(es[j].node)
    decreases j - i
  {
    var to := ParsePath(staging);
    var r := CopyEntries(from, staging, es, i, st, env);
    if r.abort.None? {
      var e := es[i];
      var r1 := CopyOne(from, staging, e, st, env);
      CopyEntriesUnfold(from, staging, es, i, st, env);
      CopyStepIntact(from, staging, es, i, st, env);
      if j == i {
        var dst := to + [e.name];
        CopyOneEffect(from, staging, e, st, env);
        CopyEntriesFrame(from, staging, es, i + 1, r1.state, env);
        LaterTargetsApart(to, es, i);
      } else {
        CopyEntriesTarget(from, staging, es, i + 1, j, r1.state, env);
      }
    }
  }

  /**
   * A successful copy step: every entry of the source directory was a
   * regular file with a UTF-8 name and is now at the same name in the
   * staging directory; all other paths outside the copy targets are
   * unchanged.  In particular a subdirectory in the source makes the step
   * abort.
   */
  lemma CopyConfigEffect(from: string, staging: string, st: State, env: Env)
    requires Wf(st.fs) && IsDirAt(st.fs, ParsePath(from))
    requires Apart(ParsePath(from), ParsePath(staging))
    ensures var r := CopyConfig(from, staging, st, env);
      var es := Lookup(st.fs, ParsePath(from)).value.entries;
      var to := ParsePath(staging);
      r.abort.None? ==>
        && (forall j :: 0 <= j < |es| ==> es[j].name.Text? && es[j].node.File?)
        && (forall j :: 0 <= j < |es| ==> Lookup(r.state.fs, to + [es[j].name]) == Some(es[j].node))
        && (forall q :: Untouched(to, es, 0, q) ==> Lookup(r.state.fs, q) == Lookup(st.fs, q))
        && r.state.trace == st.trace + CopyEvents(ParsePath(from), to, es, 0)
  {
    var dir := ParsePath(from);
    var d := Lookup(st.fs, dir).value;
    WfLookup(st.fs, dir);
    forall j | 0 <= j < |d.entries| ensures Lookup(st.fs, dir + [d.entries[j].name]) == Some(d.entries[j].node) {
      LookupEntry(st.fs, dir, j);
    }
    if !env.listingFails(SyncConfig, ReadDir(dir)) {
      forall j | 0 <= j < |d.entries|
        ensures var r := CopyEntries(dir, staging, d.entries, 0, st, env);
          r.abort.None? ==>
            && d.entries[j].name.Text? && d.entries[j].node.File?
            && Lookup(r.state.fs, ParsePath(staging) + [d.entries[j].name]) == Some(d.entries[j].node)
      {
        CopyEntriesTarget(dir, staging, d.entries, 0, j, st, env);
      }
      CopyEntriesFrame(dir, staging, d.entries, 0, st, env);
      CopyEntriesTrace(dir, staging, d.entries, 0, st, env);
    }
  }

  /** A copy that goes through keeps every directory a directory. */
  lemma CopyOneKeepsDirs(from: Path, staging: string, e: Entry, st: State, env: Env, q: Path)
    requires CopyOne(from, staging, e, st, env).abort.None? && IsDirAt(st.fs, q)
    ensures IsDirAt(CopyOne(from, staging, e, st, env).state.fs, q)
  {
    var dst := CopyTarget(staging, e.name.text);
    match Lookup(st.fs, from + [e.name])
    case Some(File(c)) => WriteFileKeepsDirs(st.fs, dst, c, q);
    case _ =>
  }

  /**
   * An entry of the listing that is a directory when the loop starts makes
   * the loop abort, at that entry at the latest: the copies before it keep
   * it a directory, wherever they write.
   */
  lemma {:induction false} CopyEntriesDirAborts(from: Path, staging: string, es: seq<Entry>, i: nat, j: nat, st: State, env: Env)
    requires i <= j < |es| && IsDirAt(st.fs, from + [es[j].name])
    ensures CopyEntries(from, staging, es, i, st, env).abort.Some?
    decreases |es| - i
  {
    if !env.listingFails(SyncConfig, NextEntry(from, es[i].name)) {
      var r1 := CopyOne(from, staging, es[i], st, env);
      if r1.abort.None? && i < j {
        CopyOneKeepsDirs(from, staging, es[i], st, env, from + [es[j].name]);
        CopyEntriesDirAborts(from, staging, es, i + 1, j, r1.state, env);
      }
    }
  }

  /** A subdirectory in the source makes the copy step abort: the loop is flat. */
  lemma SubdirectoryAborts(from: string, staging: string, st: State, env: Env, j: nat)
    requires Wf(st.fs) && IsDirAt(st.fs, ParsePath(from))
    requires j < |Lookup(st.fs, ParsePath(from)).value.entries|
    requires Lookup(st.fs, ParsePath(from)).value.entries[j].node.Dir?
    ensures CopyConfig(from, staging, st, env).abort.Some?
  {
    var dir := ParsePath(from);
    LookupEntry(st.fs, dir, j);
    CopyEntriesDirAborts(dir, staging, Lookup(st.fs, dir).value.entries, 0, j, st, env);
  }

}
