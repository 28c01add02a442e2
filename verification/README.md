# simple-cd `deploy`, modelled in Dafny

simple-cd is a small webhook server. Its one endpoint, `POST /deploy`, takes a
repository URL, a project name, an optional sub-directory (`downdir`), a
shared token and an optional list of docker images. It then:

1. checks the token;
2. clones the repository into `/etc/simple-cd/checkouts/<name>-<hash>`;
3. stops the compose applications found in the project's staging directory
   `/etc/simple-cd/conf/<name>-<hash>`;
4. copies the repository's `conf` directory into the staging directory;
5. renders every `*.template` file with `envsubst` and removes the template;
6. removes the named images, if any;
7. starts the compose applications again;
8. deletes the checkout.

The first failure of any step ends the request.

The model is a set of pure functions over an immutable file-system tree plus
a trace of the external effects, in these modules:

- `Wrappers`: `Option` and `Result`.
- `Strings`: suffix tests, the replace-all that `str::replace` performs, and
  decimal rendering of the 64-bit hash.
- `Paths`: path components, which may be UTF-8 or raw bytes. It also covers
  the components a formatted path string names, with `""`, `.` and `..`
  resolved lexically, and what `Path::to_str` gives for a path below a walk
  root.
- `FsTree`: the tree, plus the `std::fs` calls the handler makes:
  `create_dir_all`, `copy` (a write of the target), `remove_file` and
  `remove_dir_all`.
- `Identity`: `get_project_name`, and the checkout, staging and config-source
  paths built from it.
- `Effects`:
  - the commands and file-system events of the trace;
  - the pipeline stages and how a request can abort;
  - the environment, whose parts are oracles: the hash, which calls the world
    refuses, which listing calls of each stage fail (opening a directory,
    each entry, and the end of the listing), what `git clone` leaves on disk
    and what `envsubst` writes.
- `Actions`: the three callbacks `stop_running_app`, `run_container` and
  `replace_env_with_values`.
- `Walker`: `run_in_files`. The walk is defined by recursion over the tree
  and also, as a reference, as a flat trail of listing calls and visits.
  Lemmas connect the two.
- `Sync`: the flat copy loop from `<checkout>[/<downdir>]/conf` into the
  staging directory.
- `Deploy`: the handler, as a chain of stages.
- `Stages`: what each stage issues. Every event of a request is one its
  stage issues for the request's own checkout, staging directory,
  configuration source and images. A request that succeeds issued exactly
  `Work`: each stage's events, read off the tree that stage met.

A panic from `unwrap`, `expect` or `unwrap_or_else(panic!)` ends the request
with an `Abort` value, which names the step. When the cause is a process
that cannot be started (`NotLaunched`) or a file-system call that fails
(`OpFailed`), the abort also names that command or call, and it is the last
event in the trace. A failed listing call (`ListingFailed`) and a file name
that is not UTF-8 (`NameNotUtf8`) record no event.

## Model

| member | source | states |
|---|---|---|
| Identity.IdRoundTrip | src/main.rs:154-164 | the identity `<name>-<hash>` reads back as the name and the decimal hash it was formed from |
| Identity.IdEqualIff | src/main.rs:154-164 | two projects get the same identity exactly when their names and their hashes agree |
| Strings.DecimalRoundTrip | src/main.rs:162-163 | the decimal text of the hash parses back to the hash |
| Identity.DirsApart | src/main.rs:35-45 | for a name without `/`, the checkout resolves to `/etc/simple-cd/checkouts/<id>` and the staging directory to `/etc/simple-cd/conf/<id>`, and neither lies inside the other |
| Identity.TraversalNameMergesDirs | src/main.rs:35-45 | the name is not sanitised: for the name `../../w`, both directories resolve to `/etc/w-<hash>` |
| Paths.DisplayResolves | src/main.rs:88 | `to_str` of a path below a root succeeds exactly when every component is UTF-8, and the string then resolves back to the same components |
| FsTree.CreateDirAll | src/main.rs:51 | afterwards the path is a directory; if it already was one, nothing changes; nothing apart from the path changes; the call fails exactly when some prefix of the path is a file |
| FsTree.WriteFile | src/main.rs:60-64 | the copy target can be written exactly when its parent is a directory and the target is not a directory; it then holds the content, and nothing apart from it changes |
| FsTree.WriteFileKeepsDirs | src/main.rs:60-64 | writing a file never turns a directory into something else |
| FsTree.RemoveFile | src/main.rs:127-128 | only a regular file can be removed; afterwards it is gone, and nothing apart from it changes |
| FsTree.RemoveDirAll | src/main.rs:82 | only a directory can be removed; afterwards nothing at or below it remains, and nothing apart from it changes |
| Effects.Launch | src/main.rs:38-43 | starting a process appends exactly its start to the trace and leaves the tree alone; it aborts exactly when the process cannot be started; its exit status plays no part |
| Effects.Perform | src/main.rs:51 | a file-system call is recorded once; it aborts exactly when the call is impossible or refused, and then leaves the tree as it was |
| Actions.ComposeAction | src/main.rs:87-114 | stop and start issue `docker compose -f <path> down` and `... up -d` exactly when the path is UTF-8 and ends with a compose file name; otherwise they issue nothing; they never change the tree; they abort exactly when docker cannot be started |
| Actions.ComposeTestIsSuffix | src/main.rs:89 | the compose test is a suffix test, not an exact-name test: `prod-docker-compose.yml` passes and `docker-compose.yml.bak` does not |
| Actions.RenderAction | src/main.rs:116-130 | non-templates and non-UTF-8 paths are skipped; a template costs one envsubst start and then one removal; a failed start aborts before the removal; after a successful removal the template is gone |
| Actions.Render | src/main.rs:121-128 | rendering only adds render-stage events; an abort is a failed start or a failed removal, and names the last event |
| Actions.RenderBeside | src/main.rs:116-130 | for `<dir>/<m>.template` with no other `.template`: it aborts exactly when the shell or the removal is refused; otherwise `<dir>/<m>` holds the rendered text, the template is gone, and every other path is unchanged |
| Actions.RenderTargetBeside | src/main.rs:124 | with no other occurrence of `.template`, the target is the template's path without the suffix |
| Actions.TemplateInNameMovesOutput | src/main.rs:124 | because `replace` removes every `.template`, a template of a project named `<w>.template` is rendered into `/etc/simple-cd/conf/<w>-<hash>`, with the hash of the `<w>.template` project, not beside itself |
| Actions.RenderWithoutTargetDir | src/main.rs:121-128 | when the target's parent is not a directory, the redirection writes nothing, yet the template is removed; it aborts exactly when the shell or the removal is refused |
| Actions.TemplateInNameLosesOutput | src/main.rs:116-130 | for a project named `<w>.template`, when `/etc/simple-cd/conf/<w>-<hash>` is not a directory, a render that goes through leaves no rendered file there and removes the template |
| Actions.RenderTargetDropsInner | src/main.rs:124 | a `.template` inside a directory name is also removed from the target |
| Walker.RunInFiles | src/main.rs:132-145 | a root that is missing or not a directory is a successful no-op; stop and start never change the tree; the walk only adds events of its own stage; an abort names its stage, and a failed start or call is the last event |
| Walker.WalkDirIsRun | src/main.rs:132-145 | the recursive walk equals running its flat trail: one listing call for the directory, then per entry one listing call and either the subdirectory's trail or one visit, then one listing call for the end of the listing |
| Walker.WalkVisitsEachFileOnce | src/main.rs:134-141 | in a well-formed tree, the walk visits each file below the root exactly once, and visits nothing that is not a file |
| Walker.RunInFilesCoverage | src/main.rs:132-145 | when no listing call of the pass fails, `run_in_files` is the callback on each file in turn, stopping at the first abort |
| Walker.RunInFilesStopsAtListingError | src/main.rs:134-135 | the first failing listing call ends the walk: the callbacks on the files before it have run, and nothing after it happens |
| Walker.ComposePass | src/main.rs:53-54 | a stop or start pass over the visited files is the launch of their compose commands, in order |
| Walker.LaunchAllSuccess | src/main.rs:80 | launching the compose commands leaves the tree alone; it succeeds exactly when every command can be started, and then starts each once, in order |
| Walker.LaunchAllAbort | src/main.rs:80 | when launching aborts, the abort names the first command that cannot be started, and that start is the last event |
| Walker.RenderPass | src/main.rs:67-68 | a render pass that goes through issues, per template and in order, exactly the envsubst start and then the removal |
| Sync.CopyOne | src/main.rs:59-64 | a non-UTF-8 file name aborts without an event; otherwise exactly one copy is issued; it aborts when the source is not a regular file |
| Sync.CopyConfig | src/main.rs:57-65 | a source that is not a listable directory aborts; the copy only adds copy-stage events; an abort names the copy stage, and a failed copy is the last event |
| Sync.CopyConfigEffect | src/main.rs:57-65 | when the copy goes through, every source entry had a UTF-8 name and was a regular file; each now sits under the same name in the staging directory; every path no target touches is unchanged; exactly one copy per entry was issued, in listing order |
| Sync.SubdirectoryAborts | src/main.rs:57-65 | a subdirectory in the source makes the copy step abort, wherever the source lies, even inside the staging directory: the loop is flat |
| Sync.CopyOneKeepsDirs | src/main.rs:59-64 | a copy that goes through leaves every directory a directory |
| Sync.CopyEntriesDirAborts | src/main.rs:57-65 | a copy loop that reaches a directory entry aborts, at that entry or before it |
| Sync.CopyEntriesTrace | src/main.rs:57-65 | a copy loop that goes through issues one copy per entry, in listing order |
| Sync.CopyEntriesFrame | src/main.rs:57-65 | a copy loop that goes through leaves every path that no copy target touches unchanged |
| Sync.CopyEntriesTarget | src/main.rs:57-65 | after a copy loop that goes through, each entry was a regular file with a UTF-8 name, and its content sits under the same name in the staging directory |
| Deploy.CloneStep | src/main.rs:38-43 | one `git clone <url> <checkout>` start; a refused start aborts with the tree unchanged; otherwise the tree is what git left; the exit status is ignored |
| Deploy.EnsureStep | src/main.rs:51 | one `create_dir_all` of the staging directory, which is a directory afterwards unless the step aborted |
| Deploy.InvalidateStep | src/main.rs:70-78 | with no images named the step does nothing; otherwise it appends one start whose argument vector is `docker image rm <images> --force`, leaves the tree alone, and aborts exactly when docker cannot be started |
| Deploy.CleanupStep | src/main.rs:82 | one `remove_dir_all` of the checkout root, whatever `downdir` was; afterwards nothing below it remains, and nothing apart from it changes |
| Deploy.Pipeline | src/main.rs:35-82 | for the request's identity: the trace starts with the clone into the checkout, and once git has started, the next event creates the staging directory; stages never go backwards; a run that goes through ends by deleting the checkout and removes the named images exactly once; a failed start or call is the last event |
| Deploy.FromClone | src/main.rs:38-82 | from the clone on, the same promises, stated for any checkout and staging path |
| Deploy.FromEnsure | src/main.rs:51-82 | from staging creation on, events are appended in stage order; the first is the creation of the staging directory; success ends with the checkout removal |
| Deploy.FromStop | src/main.rs:53-82 | from the stop pass on, events are appended in stage order; success ends with the checkout removal |
| Deploy.FromCopy | src/main.rs:57-82 | from the copy on, events are appended in stage order; success ends with the checkout removal |
| Deploy.FromRender | src/main.rs:67-82 | from the render pass on, events are appended in stage order; success ends with the checkout removal |
| Deploy.FromInvalidate | src/main.rs:70-82 | from the image removal on, events are appended in stage order; the image command is counted once when images are named |
| Deploy.FromStart | src/main.rs:80-82 | from the start pass on, events are appended in stage order, with no image removal |
| Deploy.FromCleanup | src/main.rs:82 | the checkout removal is the last event of a run that goes through |
| Deploy.Handle | src/main.rs:30-34 | a missing `TOKEN` aborts with no effect; the answer is `Unauthorized` exactly when the token differs, and then nothing happened; a matching token leads to the pipeline |
| Deploy.Authorized | src/main.rs:35-84 | with a matching token: the first event is the clone, and once git has started, the next creates `/etc/simple-cd/conf/<id>`; stages run in order; success answers `Successfully started deployed project: <id>` after the checkout removal, and removes the named images exactly once; a failed start or call is the last event |
| Stages.ApplyEvents | src/main.rs:87-130 | a callback on one file issues only events of its own kind for a path below the root: `docker compose -f <file> down` or `... up -d` for a compose file; for a template, its envsubst into its target and its removal |
| Stages.RunInFilesFit | src/main.rs:132-145 | a pass over the staging directory issues only its callback's events, each for a file below the staging directory |
| Stages.RunTrailSucceeds | src/main.rs:134-135 | a walk that goes through met no failing listing call |
| Stages.RunInFilesPass | src/main.rs:132-145 | a pass that goes through is the callback on each file below the root, in walk order |
| Stages.ApplyAllSame | src/main.rs:87-130 | what the callbacks do to the tree, and whether they abort, does not depend on what happened before them |
| Stages.ComposeWork | src/main.rs:53-54 | a stop pass that goes through started the compose command of each compose file below the root, in walk order, and nothing else; so does the start pass of line 80 |
| Stages.RenderWork | src/main.rs:67-68 | a render pass that goes through issued the envsubst and then the removal of each template below the root, in walk order, and left the tree the callbacks produce in turn |
| Stages.CopyEntriesFit | src/main.rs:57-65 | the copy loop issues only copies of an entry of the source to the same name in the staging directory |
| Stages.CopyConfigFit | src/main.rs:57-65 | the copy step issues only copies of an entry of the source to the same name in the staging directory, and nothing when the source cannot be listed |
| Stages.CopyEntriesSame | src/main.rs:57-65 | what the copy loop does to the tree, and whether it aborts, does not depend on what happened before it |
| Stages.CopyEntriesCopies | src/main.rs:57-65 | a copy loop that goes through met only UTF-8 names and issued one copy per entry, to the same name, in listing order |
| Stages.CopyConfigWork | src/main.rs:57-65 | a copy step that goes through issued one copy per entry of the source listing, in order |
| Stages.FromCleanupFit | src/main.rs:82 | the cleanup adds only the removal of the checkout |
| Stages.FromStartFit | src/main.rs:80-82 | from the start pass on, every added event is a compose `up` of a file below the staging directory or the removal of the checkout |
| Stages.FromInvalidateFit | src/main.rs:70-82 | from the image removal on, every added event is the removal of exactly the named images, a compose `up` below the staging directory or the checkout removal |
| Stages.FromRenderFit | src/main.rs:67-82 | from the render pass on, every added event is one its stage issues for this request |
| Stages.FromCopyFit | src/main.rs:57-82 | from the copy on, every added event is one its stage issues for this request |
| Stages.FromStopFit | src/main.rs:53-82 | from the stop pass on, every added event is one its stage issues for this request |
| Stages.FromEnsureFit | src/main.rs:51-82 | from staging creation on, every added event is one its stage issues for this request |
| Stages.FromCloneFit | src/main.rs:38-82 | every event is one its stage issues for this request: the clone of the request's URL into the checkout, the creation of the staging directory, a compose command, render or removal of a file below it, a copy of a source entry to the same name in it, the removal of the named images, or the removal of the checkout |
| Stages.EnsureDone | src/main.rs:51 | the staging step that goes through created the staging directory and nothing else |
| Stages.StopDone | src/main.rs:53-54 | the stop pass that goes through stopped each compose file below the staging directory and left the tree alone |
| Stages.CopyDone | src/main.rs:57-65 | the copy step that goes through copied each source entry, in listing order |
| Stages.RenderDone | src/main.rs:67-68 | the render pass that goes through rendered and removed each template below the staging directory |
| Stages.InvalidateDone | src/main.rs:70-78 | the image step that goes through removed the named images, if any, and left the tree alone |
| Stages.StartDone | src/main.rs:80 | the start pass that goes through started each compose file below the staging directory and left the tree alone |
| Stages.FromCleanupWork | src/main.rs:82 | the cleanup that goes through removed the checkout |
| Stages.FromStartWork | src/main.rs:80-82 | from the start pass on, a run that goes through started each compose file below the staging directory, then removed the checkout |
| Stages.FromInvalidateWork | src/main.rs:70-82 | from the image removal on, a run that goes through did the image removal, if any, then the later steps' work |
| Stages.FromRenderWork | src/main.rs:67-82 | from the render pass on, a run that goes through did the render pass's work on the tree it met, then the later steps' work on the tree it left |
| Stages.FromCopyWork | src/main.rs:57-82 | from the copy on, a run that goes through did the copy's work, then the later steps' work on the tree the copy left |
| Stages.FromStopWork | src/main.rs:53-82 | from the stop pass on, a run that goes through did the stop pass's work, then the later steps' work |
| Stages.FromEnsureWork | src/main.rs:51-82 | from staging creation on, a run that goes through created the staging directory, then did the later steps' work on the tree that left |
| Stages.FromCloneWork | src/main.rs:38-82 | a run that goes through did exactly `Work`: the clone, then each later step's work on the tree it met |
| Stages.AuthorizedWork | src/main.rs:35-84 | with a matching token, every event is one its stage issues for this request; a success issued exactly the clone, the creation of the staging directory, a stop of each compose file below it, one copy per source entry, the render and removal of each template then below it, the image removal if any, a start of each compose file then below it, and the checkout removal, in that order |

## Left out

- HTTP, JSON decoding and `dotenv` are not modelled. The handler receives a
  `Request` value, and the `TOKEN` variable is an `Option` parameter.
- A missing `TOKEN` variable panics in the server (`expect`). Here it is the
  `NoToken` abort, with no effect.
- `DefaultHasher` is not modelled: the hash is an arbitrary function of the
  project triple, given as a parameter.
- What git, docker and envsubst do is not modelled. `git clone` and envsubst
  act through oracle functions. Docker commands change no file. Exit codes
  are ignored, as in the code.
- The order in which `read_dir` enumerates entries is the order of the
  directory's entry sequence. No particular order is assumed.
- The walker walks the tree as it was when the walk began. Files a callback
  creates during the walk are not visited. On Linux, a directory stream that
  is already open may or may not return such a file; a directory opened
  later lists it. So a render target that the replace-all puts into a
  sibling directory the walk has not reached yet would be handed to the
  callback by the source, but not by the model.
- Concurrent requests, timing, permissions, symbolic links, and the copying
  of file permissions by `std::fs::copy` are not modelled.
- Shell quoting is not modelled. The envsubst line is recorded with the paths
  as given, and its redirection is modelled on the resolved paths.
- Paths.ParsePath: resolves `..` lexically. The kernel fails a lookup when
  the component before `..` is missing or is a file, so `read_dir` on a
  `downdir` like `nope/../app` fails in the source but not in the model.
  Likewise `create_dir_all` on a name like `x/../w` creates `x` as well in
  the source, and only `w` in the model.
- Effects.Perform: a failed file-system call leaves the tree unchanged.
  In the source, `create_dir_all` can leave the parents it created,
  `remove_dir_all` can delete part of the tree before it fails, and
  `std::fs::copy` can create or truncate the target before a read or write
  fails.
- Walker.WalkVisitsEachFileOnce: assumes a well-formed tree, with distinct and
  proper names in every directory, as a real file system guarantees.
- Sync.CopyConfigEffect: only covers a source directory that lies apart from
  the staging directory. A `downdir` that points into the staging directory
  is not covered.
- Stages.AuthorizedWork: "below the staging directory" means the staging
  path joined with one or more UTF-8 entry names. For proper names that is
  strictly below it (`Paths.DisplayResolves`), as a real file system
  guarantees; the lemma does not assume it.
- Actions.RenderBeside: only covers templates whose directory path and stem
  contain no other `.template`. `Actions.TemplateInNameMovesOutput` covers the
  other case.
- No property states that "no `.template` file remains after rendering". The
  replace-all can change a target's directory, so such a claim would not
  hold in general.
