/**
 * The three callbacks `deploy` hands to `run_in_files`: `stop_running_app`,
 * `run_container` and `replace_env_with_values`.  Each looks at the full
 * path string of one directory entry.
 */
module Actions {
  import opened Wrappers
  import opened Strings
  import opened Paths
  import opened FsTree
  import opened Identity
  import opened Effects

  datatype Action = StopApp | StartApp | RenderTemplate

  function StageFor(a: Action): Stage {
    match a
    case StopApp => StopApps
    case StartApp => StartApps
    case RenderTemplate => RenderTemplates
  }

  const TemplateSuffix: string := ".template"

  /** The test is on the whole path string, not on the file name alone. */
  predicate IsComposeFile(p: string) {
    EndsWith(p, "docker-compose.yaml") || EndsWith(p, "docker-compose.yml")
  }

  predicate IsTemplate(p: string) {
    EndsWith(p, TemplateSuffix)
  }

  /** `full_path.replace(".template", "")`: every occurrence goes, not just the suffix. */
  function RenderTarget(p: string): string {
    DeleteAll(p, TemplateSuffix)
  }

  /** The compose command a stop or start action issues for a compose file. */
  function ComposeCommand(a: Action, p: string): Command
    requires !a.RenderTemplate?
  {
    if a.StopApp? then ComposeDown(p) else ComposeUp(p)
  }

  /**
   * What the shell line `envsubst < src > dst` does to the tree once the
   * shell runs: nothing if `src` is not a readable file; otherwise `dst` is
   * created or truncated and receives the rendered text, or nothing happens
   * when the redirection cannot open `dst`.  The exit status is ignored.
   */
  function Redirect(fs: Node, src: Path, dst: Path, render: string -> string): Node {
    match Lookup(fs, src)
    case Some(File(c)) =>
      (match WriteFile(fs, dst, render(c))
       case Some(fs') => fs'
       case None => fs)
    case _ => fs
  }

  /** One callback invocation on the entry at `rel` below the walk root `root`. */
  function Apply(a: Action, root: string, rel: Path, st: State, env: Env): (r: Run)
    ensures Extends(st.trace, r.state.trace, StageFor(a))
    ensures !a.RenderTemplate? ==> r.state.fs == st.fs
    ensures r.abort.Some? ==> AbortStage(r.abort.value) == StageFor(a)
    ensures r.abort.Some? ==> r.abort.value.NotLaunched? || r.abort.value.OpFailed?
    ensures NamesLastEvent(r)
  {
    match Display(root, rel)
    case None => Run(st, None)
    case Some(p) =>
      match a
      case StopApp => if IsComposeFile(p) then Launch(StopApps, ComposeDown(p), st, env) else Run(st, None)
      case StartApp => if IsComposeFile(p) then Launch(StartApps, ComposeUp(p), st, env) else Run(st, None)
      case RenderTemplate => if IsTemplate(p) then Render(p, st, env) else Run(st, None)
  }

  /** `replace_env_with_values` on a template at `p`: render it beside itself, then remove it. */
  function Render(p: string, st: State, env: Env): (r: Run)
    ensures Extends(st.trace, r.state.trace, RenderTemplates)
    ensures r.abort.Some? ==> r.abort.value.NotLaunched? || r.abort.value.OpFailed?
    ensures r.abort.Some? ==> AbortStage(r.abort.value) == RenderTemplates
    ensures NamesLastEvent(r)
  {
    var c := Envsubst(p, RenderTarget(p));
    var r1 := Launch(RenderTemplates, c, st, env);
    ExtendsOne(st.trace, Exec(c), RenderTemplates);
    if r1.abort.Some? then r1
    else
      var src := ParsePath(p);
      var fs1 := Redirect(r1.state.fs, src, ParsePath(RenderTarget(p)), env.render);
      var r2 := Perform(RenderTemplates, DeleteFile(src), RemoveFile(fs1, src), State(fs1, r1.state.trace), env);
      ExtendsOne(r1.state.trace, DeleteFile(src), RenderTemplates);
      ExtendsTrans(st.trace, r1.state.trace, r2.state.trace, RenderTemplates);
      r2
  }

  /**
   * Stop and start issue exactly one command, `docker compose -f <path> down`
   * or `... up -d`, when the path is UTF-8 and ends with a compose file name,
   * and nothing otherwise; they fail only when docker cannot be started.
   */
  lemma ComposeAction(a: Action, root: string, rel: Path, st: State, env: Env)
    requires !a.RenderTemplate?
    ensures var r := Apply(a, root, rel, st, env);
      var d := Display(root, rel);
      var issued := d.Some? && IsComposeFile(d.value);
      && r.state.fs == st.fs
      && (issued ==> r.state.trace == st.trace + [Exec(ComposeCommand(a, d.value))])
      && (issued && a.StopApp? ==> Argv(ComposeCommand(a, d.value)) == ["docker", "compose", "-f", d.value, "down"])
      && (issued && a.StartApp? ==> Argv(ComposeCommand(a, d.value)) == ["docker", "compose", "-f", d.value, "up", "-d"])
      && (!issued ==> r.state.trace == st.trace)
      && (r.abort.Some? <==> issued && env.refuses(Exec(ComposeCommand(a, d.value))))
  {
  }

  lemma EndsWithAppend(a: string, b: string)
    ensures EndsWith(a + b, b)
  {
    assert (a + b)[|a + b| - |b|..] == b;
  }

  /**
   * The compose test is a suffix test, not a test for an exact file name:
   * a file whose name merely ends in `docker-compose.yml` (say
   * `prod-docker-compose.yml`) counts as a compose file, and one called
   * `docker-compose.yml.bak` does not.
   */
  lemma ComposeTestIsSuffix(dir: string)
    ensures IsComposeFile(dir + "/prod-docker-compose.yml")
    ensures !IsComposeFile(dir + "/docker-compose.yml.bak")
  {
    var p := dir + "/prod-docker-compose.yml";
    assert p == (dir + "/prod-") + "docker-compose.yml";
    EndsWithAppend(dir + "/prod-", "docker-compose.yml");
    var b := dir + "/docker-compose.yml.bak";
    assert b[|b| - 1] == 'k';
  }

  /**
   * A template costs one envsubst start; if the shell cannot be started the
   * request aborts before anything is removed; otherwise the template is
   * removed next, and once that succeeds it is gone.  Any other entry is
   * left alone.
   */
  lemma RenderAction(root: string, rel: Path, st: State, env: Env)
    ensures var r := Apply(RenderTemplate, root, rel, st, env);
      var d := Display(root, rel);
      if d.None? || !IsTemplate(d.value) then r == Run(st, None)
      else
        var c := Envsubst(d.value, RenderTarget(d.value));
        if env.refuses(Exec(c)) then
          r == Run(State(st.fs, st.trace + [Exec(c)]), Some(NotLaunched(RenderTemplates, c)))
        else
          && r.state.trace == st.trace + [Exec(c), DeleteFile(ParsePath(d.value))]
          && (r.abort.None? ==> Lookup(r.state.fs, ParsePath(d.value)).None?)
  {
    var d := Display(root, rel);
    if d.Some? && IsTemplate(d.value) {
      var c := Envsubst(d.value, RenderTarget(d.value));
      assert st.trace + [Exec(c)] + [DeleteFile(ParsePath(d.value))] == st.trace + [Exec(c), DeleteFile(ParsePath(d.value))];
    }
  }

  // ------------------------------------------------------------ where the rendered file goes

  /** The suffix has no `/`, so the target of a joined path is the join of the targets. */
  lemma RenderTargetJoin(a: string, b: string)
    ensures RenderTarget(a + "/" + b) == RenderTarget(a) + "/" + RenderTarget(b)
  {
    assert a + "/" + b == a + ['/'] + b;
    DeleteAllSeparator(a, '/', b, TemplateSuffix);
  }

  /** A name ending in the suffix, with no other occurrence, loses exactly the suffix. */
  lemma RenderTargetStem(m: string)
    requires !Occurs(m, TemplateSuffix)
    ensures RenderTarget(m + TemplateSuffix) == m
  {
    assert TemplateSuffix[0] !in TemplateSuffix[1..];
    DeleteAllSuffix(m, TemplateSuffix);
    DeleteAllNoOccurrence(m, TemplateSuffix);
  }

  /**
   * When neither the directory part nor the stem holds `.template`, the
   * target is the template's own path without the suffix.
   */
  lemma RenderTargetBeside(dir: string, m: string)
    requires !Occurs(dir, TemplateSuffix) && !Occurs(m, TemplateSuffix)
    ensures RenderTarget(dir + "/" + (m + TemplateSuffix)) == dir + "/" + m
  {
    RenderTargetJoin(dir, m + TemplateSuffix);
    RenderTargetStem(m);
    DeleteAllNoOccurrence(dir, TemplateSuffix);
  }

  /** One more text component extends the display string by `/` and that text. */
  lemma DisplayText(root: string, dirRel: Path, ds: string, n: string)
    requires Display(root, dirRel) == Some(ds)
    ensures Display(root, dirRel + [Text(n)]) == Some(ds + "/" + n)
  {
    var rel := dirRel + [Text(n)];
    assert rel[..|rel| - 1] == dirRel;
  }

  /** The string of a template `<dir>/<m>.template` is a template whose target sits beside it. */
  lemma TemplateString(ds: string, m: string)
    requires !Occurs(ds, TemplateSuffix) && !Occurs(m, TemplateSuffix)
    ensures IsTemplate(ds + "/" + (m + TemplateSuffix))
    ensures RenderTarget(ds + "/" + (m + TemplateSuffix)) == ds + "/" + m
  {
    EndsWithAppend(ds + "/" + m, TemplateSuffix);
    assert ds + "/" + (m + TemplateSuffix) == ds + "/" + m + TemplateSuffix;
    RenderTargetBeside(ds, m);
  }

  /** The strings and resolved paths of a template `<dir>/<m>.template` and its target. */
  lemma RenderPaths(root: string, dirRel: Path, ds: string, m: string)
    requires AllValid(dirRel) && Display(root, dirRel) == Some(ds) && ValidText(m)
    requires !Occurs(ds, TemplateSuffix) && !Occurs(m, TemplateSuffix)
    ensures var p := ds + "/" + (m + TemplateSuffix);
      var dir := ParsePath(root) + dirRel;
      && Display(root, dirRel + [Text(m + TemplateSuffix)]) == Some(p)
      && IsTemplate(p)
      && RenderTarget(p) == ds + "/" + m
      && ParsePath(p) == dir + [Text(m + TemplateSuffix)]
      && ParsePath(ds + "/" + m) == dir + [Text(m)]
  {
    DisplayText(root, dirRel, ds, m + TemplateSuffix);
    DisplayResolves(root, dirRel);
    TemplateString(ds, m);
    assert '/' !in TemplateSuffix;
    assert ValidText(m + TemplateSuffix);
    ParsePathAppend(ds, m + TemplateSuffix);
    ParsePathAppend(ds, m);
  }

  /** A file's siblings live in a directory. */
  lemma ParentOfFileIsDir(t: Node, dir: Path, n: Name)
    requires IsFileAt(t, dir + [n])
    ensures IsDirAt(t, dir)
  {
    if Lookup(t, dir).None? {
      LookupBelowNothing(t, dir, [n]);
    } else {
      LookupAppend(t, dir, [n]);
    }
  }

  /**
   * Rendering a regular file `src` into a separate target `dst` whose parent
   * is a directory: the target receives the rendered text and the template
   * goes, unless the shell or the removal is refused.
   */
  lemma RenderFile(p: string, src: Path, dst: Path, c: string, st: State, env: Env)
    requires ParsePath(p) == src && ParsePath(RenderTarget(p)) == dst
    requires Lookup(st.fs, src) == Some(File(c))
    requires dst != [] && IsDirAt(st.fs, dst[..|dst| - 1]) && !IsDirAt(st.fs, dst) && Apart(src, dst)
    ensures var r := Render(p, st, env);
      && (r.abort.Some? <==> env.refuses(Exec(Envsubst(p, RenderTarget(p)))) || env.refuses(DeleteFile(src)))
      && (r.abort.None? ==>
            && Lookup(r.state.fs, dst) == Some(File(env.render(c)))
            && Lookup(r.state.fs, src).None?
            && forall q :: Apart(src, q) && Apart(dst, q) ==> Lookup(r.state.fs, q) == Lookup(st.fs, q))
  {
    var fs1 := WriteFile(st.fs, dst, env.render(c)).value;
    assert Redirect(st.fs, src, dst, env.render) == fs1;
    assert IsFileAt(fs1, src);
  }

  /**
   * A template `<dir>/<m>.template` whose path holds no other `.template`:
   * when the callback goes through, `<dir>/<m>` holds the rendered text, the
   * template is gone, and nothing else changed.  It aborts exactly when the
   * shell or the removal is refused.
   */
  lemma RenderBeside(root: string, dirRel: Path, ds: string, m: string, c: string, st: State, env: Env)
    requires AllValid(dirRel) && Display(root, dirRel) == Some(ds) && ValidText(m)
    requires !Occurs(ds, TemplateSuffix) && !Occurs(m, TemplateSuffix)
    requires Lookup(st.fs, ParsePath(root) + dirRel + [Text(m + TemplateSuffix)]) == Some(File(c))
    requires !IsDirAt(st.fs, ParsePath(root) + dirRel + [Text(m)])
    ensures var r := Apply(RenderTemplate, root, dirRel + [Text(m + TemplateSuffix)], st, env);
      var dir := ParsePath(root) + dirRel;
      var src := dir + [Text(m + TemplateSuffix)];
      var dst := dir + [Text(m)];
      && (r.abort.Some? <==>
            env.refuses(Exec(Envsubst(ds + "/" + (m + TemplateSuffix), ds + "/" + m))) || env.refuses(DeleteFile(src)))
      && (r.abort.None? ==>
            && Lookup(r.state.fs, dst) == Some(File(env.render(c)))
            && Lookup(r.state.fs, src).None?
            && forall q :: Apart(src, q) && Apart(dst, q) ==> Lookup(r.state.fs, q) == Lookup(st.fs, q))
  {
    var p := ds + "/" + (m + TemplateSuffix);
    var dir := ParsePath(root) + dirRel;
    var src := dir + [Text(m + TemplateSuffix)];
    var dst := dir + [Text(m)];
    RenderPaths(root, dirRel, ds, m);
    ParentOfFileIsDir(st.fs, dir, Text(m + TemplateSuffix));
    assert dst[..|dst| - 1] == dir;
    assert |m + TemplateSuffix| != |m|;
    SiblingsApart(dir, Text(m), Text(m + TemplateSuffix));
    ApplyRender(root, dirRel + [Text(m + TemplateSuffix)], p, st, env);
    RenderFile(p, src, dst, c, st, env);
  }

  /** On a template, the render callback is `Render` on the displayed path. */
  lemma ApplyRender(root: string, rel: Path, p: string, st: State, env: Env)
    requires Display(root, rel) == Some(p) && IsTemplate(p)
    ensures Apply(RenderTemplate, root, rel, st, env) == Render(p, st, env)
  {
  }

  lemma DeleteInField(w: string, rest: string)
    requires '.' !in w && '.' !in rest
    ensures DeleteAll(w + TemplateSuffix + rest, TemplateSuffix) == w + rest
  {
    assert w + TemplateSuffix + rest == w + (TemplateSuffix + rest);
    DeleteAllKeepsPrefix(w, TemplateSuffix + rest, TemplateSuffix);
    DeleteAllDropsPrefix(rest, TemplateSuffix);
    DeleteAllKeepsPrefix(rest, [], TemplateSuffix);
    assert rest + [] == rest;
  }

  /** A `.template` inside a directory name is dropped from the target too. */
  lemma RenderTargetDropsInner(base: string, w: string, rest: string, m: string)
    requires '.' !in base && '.' !in w && '.' !in rest && !Occurs(m, TemplateSuffix)
    ensures RenderTarget(base + "/" + (w + TemplateSuffix + rest) + "/" + (m + TemplateSuffix))
      == base + "/" + (w + rest) + "/" + m
  {
    var x := w + TemplateSuffix + rest;
    RenderTargetJoin(base + "/" + x, m + TemplateSuffix);
    RenderTargetJoin(base, x);
    DeleteAllKeepsPrefix(base, [], TemplateSuffix);
    assert base + [] == base;
    DeleteInField(w, rest);
    RenderTargetStem(m);
  }

  /**
   * When the target's parent is not a directory, the shell's redirection
   * cannot open the target: nothing is written, yet the template is still
   * removed.  It aborts exactly when the shell or the removal is refused.
   */
  lemma RenderWithoutTargetDir(p: string, c: string, st: State, env: Env)
    requires st.fs.Dir?
    requires Lookup(st.fs, ParsePath(p)) == Some(File(c))
    requires var dst := ParsePath(RenderTarget(p)); dst != [] && !ParentIsDir(st.fs, dst)
    ensures var r := Render(p, st, env);
      var src := ParsePath(p);
      var dst := ParsePath(RenderTarget(p));
      && (r.abort.Some? <==> env.refuses(Exec(Envsubst(p, RenderTarget(p)))) || env.refuses(DeleteFile(src)))
      && (r.abort.None? ==> Lookup(r.state.fs, src).None? && Lookup(r.state.fs, dst).None?)
  {
    var src := ParsePath(p);
    var dst := ParsePath(RenderTarget(p));
    assert src != [];
    var parent := dst[..|dst| - 1];
    assert dst == parent + [dst[|dst| - 1]];
    LookupBelowNothing(st.fs, parent, [dst[|dst| - 1]]);
    assert Redirect(st.fs, src, dst, env.render) == st.fs;
    RemoveFileLeavesNothing(st.fs, src, dst);
  }

  /** Removing a file does not make anything appear at a path that named nothing. */
  lemma RemoveFileLeavesNothing(t: Node, src: Path, dst: Path)
    requires src != [] && IsFileAt(t, src) && Lookup(t, dst).None?
    ensures Lookup(RemoveFile(t, src).value, dst).None?
  {
    var t' := RemoveFile(t, src).value;
    if IsPrefix(dst, src) {
      assert src == dst + src[|dst|..];
      LookupBelowNothing(t, dst, src[|dst|..]);
    } else if IsPrefix(src, dst) {
      assert dst == src + dst[|src|..];
      LookupBelowNothing(t', src, dst[|src|..]);
    }
  }

  /**
   * `replace` drops every `.template`, not only the suffix: for a project
   * named `<w>.template`, a template in its staging directory is rendered
   * into `/etc/simple-cd/conf/<w>-<hash>`, where `<hash>` is the hash of the
   * `<w>.template` project.  That is the staging directory of project `<w>`
   * only when the two hashes collide (`Identity.IdEqualIff`).
   */
  lemma TemplateInNameMovesOutput(p: Project, hash: Project -> u64, w: string, m: string)
    requires p.name == w + TemplateSuffix && '.' !in w && !Occurs(m, TemplateSuffix)
    ensures var d := Decimal(hash(p) as nat);
      var template := StagingDir(ProjectId(p, hash)) + "/" + (m + TemplateSuffix);
      && RenderTarget(template) == StagingDir(w + "-" + d) + "/" + m
      && RenderTarget(template) != StagingDir(ProjectId(p, hash)) + "/" + m
  {
    var d := Decimal(hash(p) as nat);
    var rest := "-" + d;
    assert '.' !in rest by {
      assert forall i :: 0 <= i < |d| ==> IsDigit(d[i]);
    }
    var base := "/etc/simple-cd/conf";
    assert '.' !in base;
    assert StagingDir(ProjectId(p, hash)) == base + "/" + (w + TemplateSuffix + rest);
    assert StagingDir(w + "-" + d) == base + "/" + (w + rest);
    RenderTargetDropsInner(base, w, rest, m);
  }

  /**
   * The usual consequence: `/etc/simple-cd/conf/<w>-<hash>` is not a
   * directory, so a template of project `<w>.template` yields no rendered
   * file anywhere, and the template itself is removed all the same.
   */
  lemma TemplateInNameLosesOutput(p: Project, hash: Project -> u64, w: string, m: string, c: string, st: State, env: Env)
    requires p.name == w + TemplateSuffix && '.' !in w && ValidText(m) && !Occurs(m, TemplateSuffix)
    requires var template := StagingDir(ProjectId(p, hash)) + "/" + (m + TemplateSuffix);
      st.fs.Dir? && Lookup(st.fs, ParsePath(template)) == Some(File(c))
    requires !IsDirAt(st.fs, ParsePath(StagingDir(w + "-" + Decimal(hash(p) as nat))))
    ensures var template := StagingDir(ProjectId(p, hash)) + "/" + (m + TemplateSuffix);
      var target := ParsePath(StagingDir(w + "-" + Decimal(hash(p) as nat))) + [Text(m)];
      var r := Render(template, st, env);
      r.abort.None? ==> Lookup(r.state.fs, ParsePath(template)).None? && Lookup(r.state.fs, target).None?
  {
    var template := StagingDir(ProjectId(p, hash)) + "/" + (m + TemplateSuffix);
    var other := StagingDir(w + "-" + Decimal(hash(p) as nat));
    TemplateInNameMovesOutput(p, hash, w, m);
    ParsePathAppend(other, m);
    var dst := ParsePath(RenderTarget(template));
    assert dst[..|dst| - 1] == ParsePath(other);
    RenderWithoutTargetDir(template, c, st, env);
  }
}
