/**
 * What the handler does to the world: external processes it starts, file
 * system calls it makes, and the ways each can fail.  The world itself is
 * a parameter (`Env`): the hash function, which calls are refused, what git
 * leaves on disk and what envsubst writes.
 */
module Effects {
  import opened Wrappers
  import opened Paths
  import opened FsTree
  import opened Identity

  /** An external process the handler starts. */
  datatype Command =
    | GitClone(url: string, dest: string)
    | ComposeDown(file: string)
    | ComposeUp(file: string)
    | Envsubst(src: string, dst: string)
    | ImageRm(images: seq<string>)

  /**
   * The argument vector of each command; `run_script!` hands the envsubst
   * line to a shell as a script.
   */
  function Argv(c: Command): seq<string> {
    match c
    case GitClone(url, dest) => ["git", "clone", url, dest]
    case ComposeDown(f) => ["docker", "compose", "-f", f, "down"]
    case ComposeUp(f) => ["docker", "compose", "-f", f, "up", "-d"]
    case Envsubst(src, dst) => ["sh", "envsubst < " + src + " > " + dst]
    case ImageRm(images) => ["docker", "image", "rm"] + images + ["--force"]
  }

  /** One entry of the trace: a process start or a mutating file system call. */
  datatype Event =
    | Exec(cmd: Command)
    | MakeDirs(path: Path)
    | CopyFile(src: Path, dst: Path)
    | DeleteFile(path: Path)
    | DeleteTree(path: Path)

  /**
   * The directory-listing calls that can fail with an I/O error: opening the
   * listing, the `next` call that yields an entry, and the final `next` call
   * that would report the end of the listing.
   */
  datatype Listing = ReadDir(dir: Path) | NextEntry(dir: Path, name: Name) | EndOfDir(dir: Path)

  /** The steps of `deploy`, in the order the handler runs them. */
  datatype Stage =
    | Authenticate | Clone | EnsureStaging | StopApps | SyncConfig
    | RenderTemplates | InvalidateImages | StartApps | Cleanup

  function Rank(s: Stage): nat {
    match s
    case Authenticate => 0
    case Clone => 1
    case EnsureStaging => 2
    case StopApps => 3
    case SyncConfig => 4
    case RenderTemplates => 5
    case InvalidateImages => 6
    case StartApps => 7
    case Cleanup => 8
  }

  /** The only stage that issues events of this kind. */
  function StageOf(e: Event): Stage {
    match e
    case Exec(GitClone(_, _)) => Clone
    case MakeDirs(_) => EnsureStaging
    case Exec(ComposeDown(_)) => StopApps
    case CopyFile(_, _) => SyncConfig
    case Exec(Envsubst(_, _)) => RenderTemplates
    case DeleteFile(_) => RenderTemplates
    case Exec(ImageRm(_)) => InvalidateImages
    case Exec(ComposeUp(_)) => StartApps
    case DeleteTree(_) => Cleanup
  }

  /**
   * Why a request ended early: the 401 answer, or the step whose `unwrap`,
   * `expect` or `unwrap_or_else(panic!)` fired.
   */
  datatype Abort =
    | NoToken
    | Unauthorized
    | NotLaunched(stage: Stage, cmd: Command)
    | OpFailed(stage: Stage, op: Event)
    | ListingFailed(stage: Stage, call: Listing)
    | NameNotUtf8(stage: Stage, name: Name)

  function AbortStage(a: Abort): Stage {
    match a
    case NoToken => Authenticate
    case Unauthorized => Authenticate
    case NotLaunched(s, _) => s
    case OpFailed(s, _) => s
    case ListingFailed(s, _) => s
    case NameNotUtf8(s, _) => s
  }

  /** Everything outside the handler's own code. */
  datatype Env = Env(
    hash: Project -> u64,           // DefaultHasher over the project triple
    refuses: Event -> bool,         // a process cannot be started / the OS rejects a call
    listingFails: (Stage, Listing) -> bool,  // a listing call of this stage yields an I/O error
    cloneEffect: Node -> Node,      // the file system after a started `git clone`
    render: string -> string)       // what envsubst writes for a template's text

  datatype State = State(fs: Node, trace: seq<Event>)

  /** A state reached, and the abort that stopped the run there, if any. */
  datatype Run = Run(state: State, abort: Option<Abort>)

  /** `t'` is `t` followed only by events of stage `s`. */
  predicate Extends(t: seq<Event>, t': seq<Event>, s: Stage) {
    |t| <= |t'| && t'[..|t|] == t && forall i :: |t| <= i < |t'| ==> StageOf(t'[i]) == s
  }

  lemma ExtendsTrans(t: seq<Event>, t': seq<Event>, t'': seq<Event>, s: Stage)
    requires Extends(t, t', s) && Extends(t', t'', s)
    ensures Extends(t, t'', s)
  {
    assert t''[..|t|] == t''[..|t'|][..|t|];
  }

  lemma ExtendsOne(t: seq<Event>, e: Event, s: Stage)
    requires StageOf(e) == s
    ensures Extends(t, t + [e], s)
  {
  }

  /**
   * An abort caused by a process start or a file system call leaves that
   * command or call as the last event: nothing after it, and nothing undone.
   */
  predicate NamesLastEvent(r: Run) {
    r.abort.Some? ==>
      match r.abort.value
      case NotLaunched(_, c) => |r.state.trace| > 0 && r.state.trace[|r.state.trace| - 1] == Exec(c)
      case OpFailed(_, op) => |r.state.trace| > 0 && r.state.trace[|r.state.trace| - 1] == op
      case _ => true
  }

  /** Events never go back to an earlier stage. */
  predicate Ordered(t: seq<Event>) {
    forall i, j :: 0 <= i < j < |t| ==> Rank(StageOf(t[i])) <= Rank(StageOf(t[j]))
  }

  /** All events of `t` belong to stages no later than `s`. */
  predicate UpTo(t: seq<Event>, s: Stage) {
    forall i :: 0 <= i < |t| ==> Rank(StageOf(t[i])) <= Rank(s)
  }

  lemma OrderedExtend(t: seq<Event>, t': seq<Event>, s: Stage)
    requires Ordered(t) && UpTo(t, s) && Extends(t, t', s)
    ensures Ordered(t') && UpTo(t', s)
  {
    forall i | 0 <= i < |t| ensures t'[i] == t[i] {
      assert t'[..|t|][i] == t'[i];
    }
  }

  /**
   * `Command::output()`: fails only when the process cannot be started; its
   * exit status is never looked at.
   */
  function Launch(stage: Stage, c: Command, st: State, env: Env): (r: Run)
    ensures r.state == State(st.fs, st.trace + [Exec(c)])
    ensures r.abort.Some? <==> env.refuses(Exec(c))
    ensures r.abort.Some? ==> r.abort.value == NotLaunched(stage, c)
    ensures NamesLastEvent(r)
  {
    var st' := State(st.fs, st.trace + [Exec(c)]);
    if env.refuses(Exec(c)) then Run(st', Some(NotLaunched(stage, c))) else Run(st', None)
  }

  /**
   * A `std::fs` call: `result` is the tree the call leaves when it succeeds,
   * `None` when it fails for structural reasons; the world may refuse it too.
   */
  function Perform(stage: Stage, op: Event, result: Option<Node>, st: State, env: Env): (r: Run)
    ensures r.state.trace == st.trace + [op]
    ensures r.abort.Some? <==> result.None? || env.refuses(op)
    ensures r.abort.Some? ==> r.abort.value == OpFailed(stage, op) && r.state.fs == st.fs
    ensures r.abort.None? ==> r.state.fs == result.value
    ensures NamesLastEvent(r)
  {
    var t := st.trace + [op];
    if result.None? || env.refuses(op) then Run(State(st.fs, t), Some(OpFailed(stage, op)))
    else Run(State(result.value, t), None)
  }

  lemma UpToLater(t: seq<Event>, s: Stage, s': Stage)
    requires UpTo(t, s) && Rank(s) <= Rank(s')
    ensures UpTo(t, s')
  {
  }

  /** How many events of stage `s` a trace holds. */
  function CountStage(t: seq<Event>, s: Stage): nat {
    if t == [] then 0
    else CountStage(t[..|t| - 1], s) + (if StageOf(t[|t| - 1]) == s then 1 else 0)
  }

  lemma {:induction false} CountStageAppend(t: seq<Event>, u: seq<Event>, s: Stage)
    ensures CountStage(t + u, s) == CountStage(t, s) + CountStage(u, s)
    decreases |u|
  {
    if u == [] {
      assert t + u == t;
    } else {
      assert (t + u)[..|t + u| - 1] == t + u[..|u| - 1];
      CountStageAppend(t, u[..|u| - 1], s);
    }
  }

  lemma {:induction false} CountStageNone(t: seq<Event>, s: Stage)
    requires forall i :: 0 <= i < |t| ==> StageOf(t[i]) != s
    ensures CountStage(t, s) == 0
    decreases |t|
  {
    if t != [] {
      CountStageNone(t[..|t| - 1], s);
    }
  }

  /** Extending a trace with events of another stage adds no events of `s`. */
  lemma ExtendsCount(t: seq<Event>, t': seq<Event>, s': Stage, s: Stage)
    requires Extends(t, t', s') && s != s'
    ensures CountStage(t', s) == CountStage(t, s)
  {
    var u := t'[|t|..];
    assert t' == t + u;
    CountStageAppend(t, u, s);
    CountStageNone(u, s);
  }
}
