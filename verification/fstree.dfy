/**
 * The file system as an immutable tree.  The order of a directory's entries
 * is the order in which `read_dir` enumerates them: fixed, but not chosen
 * by the handler.  Each operation returns `None` exactly where the
 * corresponding `std::fs` call returns an error for structural reasons
 * (missing parent, file where a directory is needed, ...).
 */
module FsTree {
  import opened Wrappers
  import opened Paths

  datatype Node = File(content: string) | Dir(entries: seq<Entry>)
  datatype Entry = Entry(name: Name, node: Node)

  /** The node of the first entry called `n`. */
  function Child(es: seq<Entry>, n: Name): (r: Option<Node>)
    ensures r.None? <==> forall i :: 0 <= i < |es| ==> es[i].name != n
  {
    if es == [] then None
    else if es[0].name == n then Some(es[0].node)
    else
      var r := Child(es[1..], n);
      assert forall i :: 1 <= i < |es| ==> es[i] == es[1..][i - 1];
      r
  }

  predicate UniqueNames(es: seq<Entry>) {
    forall i, j :: 0 <= i < j < |es| ==> es[i].name != es[j].name
  }

  lemma {:induction false} ChildAt(es: seq<Entry>, i: nat)
    requires i < |es| && UniqueNames(es)
    ensures Child(es, es[i].name) == Some(es[i].node)
  {
    if i > 0 {
      assert es[1..][i - 1] == es[i];
      ChildAt(es[1..], i - 1);
    }
  }

  /** Replace the first entry called `n`, or add one at the end. */
  function Set(es: seq<Entry>, n: Name, x: Node): (r: seq<Entry>)
    ensures Child(r, n) == Some(x)
    ensures forall m :: m != n ==> Child(r, m) == Child(es, m)
  {
    if es == [] then [Entry(n, x)]
    else if es[0].name == n then [Entry(n, x)] + es[1..]
    else [es[0]] + Set(es[1..], n, x)
  }

  /** Drop every entry called `n`. */
  function Without(es: seq<Entry>, n: Name): (r: seq<Entry>)
    ensures Child(r, n) == None
    ensures forall m :: m != n ==> Child(r, m) == Child(es, m)
  {
    if es == [] then []
    else if es[0].name == n then Without(es[1..], n)
    else [es[0]] + Without(es[1..], n)
  }

  /** The node a resolved path names, if any. */
  function Lookup(t: Node, p: Path): Option<Node>
    decreases p
  {
    if p == [] then Some(t)
    else
      match t
      case File(_) => None
      case Dir(es) =>
        match Child(es, p[0])
        case None => None
        case Some(c) => Lookup(c, p[1..])
  }

  predicate IsFileAt(t: Node, p: Path) {
    Lookup(t, p).Some? && Lookup(t, p).value.File?
  }

  predicate IsDirAt(t: Node, p: Path) {
    Lookup(t, p).Some? && Lookup(t, p).value.Dir?
  }

  predicate ParentIsDir(t: Node, p: Path)
    requires p != []
  {
    IsDirAt(t, p[..|p| - 1])
  }

  /** Nothing lives below a path that names nothing or names a file. */
  lemma {:induction false} LookupBelowNothing(t: Node, p: Path, q: Path)
    requires Lookup(t, p).None? || (IsFileAt(t, p) && q != [])
    ensures Lookup(t, p + q).None?
    decreases p
  {
    if p == [] {
      assert p + q == q;
    } else {
      assert (p + q)[0] == p[0] && (p + q)[1..] == p[1..] + q;
      match t
      case File(_) =>
      case Dir(es) =>
        match Child(es, p[0])
        case None =>
        case Some(c) => LookupBelowNothing(c, p[1..], q);
    }
  }

  lemma {:induction false} LookupAppend(t: Node, p: Path, q: Path)
    requires Lookup(t, p).Some?
    ensures Lookup(t, p + q) == Lookup(Lookup(t, p).value, q)
    decreases p
  {
    if p == [] {
      assert p + q == q;
    } else {
      assert (p + q)[0] == p[0] && (p + q)[1..] == p[1..] + q;
      LookupAppend(Child(t.entries, p[0]).value, p[1..], q);
    }
  }

  // ------------------------------------------------------------ updates

  /**
   * Set (`Some`) or delete (`None`) the entry a non-empty path names.  Fails
   * when the parent is not a directory, or when deleting something absent.
   */
  function Put(t: Node, p: Path, v: Option<Node>): Option<Node>
    requires p != []
    decreases p
  {
    match t
    case File(_) => None
    case Dir(es) =>
      if |p| == 1 then
        if v.Some? then Some(Dir(Set(es, p[0], v.value)))
        else if Child(es, p[0]).Some? then Some(Dir(Without(es, p[0])))
        else None
      else
        match Child(es, p[0])
        case None => None
        case Some(c) =>
          match Put(c, p[1..], v)
          case None => None
          case Some(c') => Some(Dir(Set(es, p[0], c')))
  }

  lemma {:induction false} PutLookup(t: Node, p: Path, v: Option<Node>)
    requires p != [] && Put(t, p, v).Some?
    ensures Lookup(Put(t, p, v).value, p) == v
    decreases p
  {
    if |p| > 1 {
      PutLookup(Child(t.entries, p[0]).value, p[1..], v);
    }
  }

  lemma {:induction false} PutFrame(t: Node, p: Path, v: Option<Node>, q: Path)
    requires p != [] && Put(t, p, v).Some? && Apart(p, q)
    ensures Lookup(Put(t, p, v).value, q) == Lookup(t, q)
    decreases p
  {
    assert q != [];
    if q[0] == p[0] {
      assert |p| > 1 && |q| > 1;
      assert Apart(p[1..], q[1..]);
      PutFrame(Child(t.entries, p[0]).value, p[1..], v, q[1..]);
    }
  }

  lemma {:induction false} PutDefined(t: Node, p: Path, v: Option<Node>)
    requires p != []
    ensures v.Some? ==> (Put(t, p, v).Some? <==> ParentIsDir(t, p))
    ensures v.None? ==> (Put(t, p, v).Some? <==> Lookup(t, p).Some?)
    decreases p
  {
    if |p| > 1 && t.Dir? && Child(t.entries, p[0]).Some? {
      var c := Child(t.entries, p[0]).value;
      PutDefined(c, p[1..], v);
      assert p[1..][..|p[1..]| - 1] == p[..|p| - 1][1..];
      assert Lookup(t, p[..|p| - 1]) == Lookup(c, p[..|p| - 1][1..]);
    }
  }

  /** `std::fs::write`-like creation or truncation of a regular file. */
  function WriteFile(t: Node, p: Path, content: string): (r: Option<Node>)
    ensures r.Some? <==> p != [] && ParentIsDir(t, p) && !IsDirAt(t, p)
    ensures r.Some? ==> Lookup(r.value, p) == Some(File(content))
    ensures r.Some? ==> forall q :: Apart(p, q) ==> Lookup(r.value, q) == Lookup(t, q)
  {
    if p == [] || IsDirAt(t, p) then None
    else
      PutDefined(t, p, Some(File(content)));
      var r := Put(t, p, Some(File(content)));
      if r.Some? then
        PutLookup(t, p, Some(File(content)));
        forall q | Apart(p, q) ensures Lookup(r.value, q) == Lookup(t, q) {
          PutFrame(t, p, Some(File(content)), q);
        }
        r
      else r
  }

  /**
   * A write that goes through keeps every directory a directory: it cannot
   * land on one, nothing can be written below a file, and the directories
   * above the written file are still directories.
   */
  lemma WriteFileKeepsDirs(t: Node, p: Path, content: string, q: Path)
    requires WriteFile(t, p, content).Some? && IsDirAt(t, q)
    ensures IsDirAt(WriteFile(t, p, content).value, q)
  {
    var r := WriteFile(t, p, content).value;
    if IsPrefix(p, q) && q != p {
      assert p + q[|p|..] == q;
      LookupBelowNothing(t, p, q[|p|..]);
    } else if IsPrefix(q, p) && q != p {
      if !IsDirAt(r, q) {
        assert q + p[|q|..] == p;
        LookupBelowNothing(r, q, p[|q|..]);
      }
    }
  }

  /** Remove whatever `p` names, and everything below it. */
  function Erase(t: Node, p: Path): (r: Option<Node>)
    requires p != [] && Lookup(t, p).Some?
    ensures r.Some?
    ensures forall q :: IsPrefix(p, q) ==> Lookup(r.value, q).None?
    ensures forall q :: Apart(p, q) ==> Lookup(r.value, q) == Lookup(t, q)
  {
    PutDefined(t, p, None);
    var r := Put(t, p, None);
    PutLookup(t, p, None);
    forall q | IsPrefix(p, q) ensures Lookup(r.value, q).None? {
      assert q == p + q[|p|..];
      LookupBelowNothing(r.value, p, q[|p|..]);
    }
    forall q | Apart(p, q) ensures Lookup(r.value, q) == Lookup(t, q) {
      PutFrame(t, p, None, q);
    }
    r
  }

  /** `std::fs::remove_file`: only a regular file can be removed. */
  function RemoveFile(t: Node, p: Path): (r: Option<Node>)
    ensures r.Some? <==> p != [] && IsFileAt(t, p)
    ensures r.Some? ==> Lookup(r.value, p).None?
    ensures r.Some? ==> forall q :: Apart(p, q) ==> Lookup(r.value, q) == Lookup(t, q)
  {
    if p != [] && IsFileAt(t, p) then Erase(t, p) else None
  }

  /** `std::fs::remove_dir_all`: a directory and everything below it. */
  function RemoveDirAll(t: Node, p: Path): (r: Option<Node>)
    ensures r.Some? <==> p != [] && IsDirAt(t, p)
    ensures r.Some? ==> forall q :: IsPrefix(p, q) ==> Lookup(r.value, q).None?
    ensures r.Some? ==> forall q :: Apart(p, q) ==> Lookup(r.value, q) == Lookup(t, q)
  {
    if p != [] && IsDirAt(t, p) then Erase(t, p) else None
  }

  /** A chain of fresh, otherwise empty directories. */
  function Chain(p: Path): (r: Node)
    ensures IsDirAt(r, p)
  {
    if p == [] then Dir([]) else Dir([Entry(p[0], Chain(p[1..]))])
  }

  /**
   * `std::fs::create_dir_all`: create every missing directory on the path;
   * fails when some component is a file.
   */
  function CreateDirAll(t: Node, p: Path): (r: Option<Node>)
    ensures r.Some? ==> IsDirAt(r.value, p)
    ensures IsDirAt(t, p) ==> r == Some(t)
    ensures r.Some? ==> forall q :: Apart(p, q) ==> Lookup(r.value, q) == Lookup(t, q)
    ensures r.None? <==> exists k :: 0 <= k <= |p| && IsFileAt(t, p[..k])
    decreases p, 1
  {
    if p == [] then
      if t.Dir? then Some(t) else assert IsFileAt(t, p[..0]); None
    else
      match t
      case File(_) => assert IsFileAt(t, p[..0]); None
      case Dir(es) =>
        match Child(es, p[0])
        case None =>
          var r := Dir(Set(es, p[0], Chain(p[1..])));
          CreateDirAllFresh(t, p);
          Some(r)
        case Some(c) =>
          match CreateDirAll(c, p[1..])
          case None =>
            var k :| 0 <= k <= |p[1..]| && IsFileAt(c, p[1..][..k]);
            assert p[..k + 1] == [p[0]] + p[1..][..k];
            None
          case Some(c') =>
            var r := Dir(Set(es, p[0], c'));
            CreateDirAllExisting(t, p, c, c');
            Some(r)
  }

  lemma SetSame(es: seq<Entry>, n: Name)
    requires Child(es, n).Some?
    ensures Set(es, n, Child(es, n).value) == es
  {
  }

  lemma CreateDirAllFresh(t: Node, p: Path)
    requires p != [] && t.Dir? && Child(t.entries, p[0]).None?
    ensures var r := Dir(Set(t.entries, p[0], Chain(p[1..])));
      && IsDirAt(r, p)
      && !IsDirAt(t, p)
      && (forall q :: Apart(p, q) ==> Lookup(r, q) == Lookup(t, q))
      && (forall k :: 0 <= k <= |p| ==> !IsFileAt(t, p[..k]))
  {
    var r := Dir(Set(t.entries, p[0], Chain(p[1..])));
    forall q | Apart(p, q) ensures Lookup(r, q) == Lookup(t, q) {
      assert q != [];
      if q[0] == p[0] {
        LookupBelowNothing(t, [p[0]], q[1..]);
        assert [p[0]] + q[1..] == q;
        assert |q| > 1;
        assert Lookup(r, q) == Lookup(Chain(p[1..]), q[1..]);
        ChainOnly(p[1..], q[1..]);
      }
    }
    forall k | 0 <= k <= |p| ensures !IsFileAt(t, p[..k]) {
      if k > 0 {
        LookupBelowNothing(t, [p[0]], p[1..k]);
        assert [p[0]] + p[1..k] == p[..k];
      }
    }
  }

  /** A fresh chain holds nothing off its own path. */
  lemma {:induction false} ChainOnly(p: Path, q: Path)
    requires q != [] && !IsPrefix(q, p)
    ensures Lookup(Chain(p), q).None?
    decreases p
  {
    if p != [] && q[0] == p[0] && |q| > 1 {
      assert !IsPrefix(q[1..], p[1..]);
      ChainOnly(p[1..], q[1..]);
    }
  }

  lemma CreateDirAllExisting(t: Node, p: Path, c: Node, c': Node)
    requires p != [] && t.Dir? && Child(t.entries, p[0]) == Some(c)
    requires CreateDirAll(c, p[1..]) == Some(c')
    decreases p, 0
    ensures var r := Dir(Set(t.entries, p[0], c'));
      && IsDirAt(r, p)
      && (IsDirAt(t, p) ==> r == t)
      && (forall q :: Apart(p, q) ==> Lookup(r, q) == Lookup(t, q))
      && (forall k :: 0 <= k <= |p| ==> !IsFileAt(t, p[..k]))
  {
    var r := Dir(Set(t.entries, p[0], c'));
    if IsDirAt(t, p) {
      assert IsDirAt(c, p[1..]);
      SetSame(t.entries, p[0]);
    }
    ReplaceChildFrame(t, p, c');
    NoFileAbove(t, p, c);
  }

  /** Replacing the child on the way to `p` changes nothing apart from `p`. */
  lemma ReplaceChildFrame(t: Node, p: Path, c': Node)
    requires p != [] && t.Dir? && Child(t.entries, p[0]).Some?
    requires forall q :: Apart(p[1..], q) ==> Lookup(c', q) == Lookup(Child(t.entries, p[0]).value, q)
    ensures forall q :: Apart(p, q) ==> Lookup(Dir(Set(t.entries, p[0], c')), q) == Lookup(t, q)
  {
    var r := Dir(Set(t.entries, p[0], c'));
    forall q | Apart(p, q) ensures Lookup(r, q) == Lookup(t, q) {
      assert q != [];
      if q[0] == p[0] {
        assert |q| > 1;
        assert Apart(p[1..], q[1..]);
      }
    }
  }

  /** No prefix of `p` is a file when none is one below its first child. */
  lemma NoFileAbove(t: Node, p: Path, c: Node)
    requires p != [] && t.Dir? && Child(t.entries, p[0]) == Some(c)
    requires forall k :: 0 <= k <= |p[1..]| ==> !IsFileAt(c, p[1..][..k])
    ensures forall k :: 0 <= k <= |p| ==> !IsFileAt(t, p[..k])
  {
    forall k | 0 <= k <= |p| ensures !IsFileAt(t, p[..k]) {
      if k > 0 {
        assert !IsFileAt(c, p[1..][..k - 1]);
        assert p[..k] == [p[0]] + p[1..][..k - 1];
        assert Lookup(t, p[..k]) == Lookup(c, p[1..][..k - 1]);
      }
    }
  }

  // ------------------------------------------------------------ well-formedness

  /** What a real directory tree satisfies: proper, distinct names in every directory. */
  predicate Wf(t: Node) {
    match t
    case File(_) => true
    case Dir(es) =>
      && UniqueNames(es)
      && (forall i :: 0 <= i < |es| ==> ValidName(es[i].name))
      && (forall i :: 0 <= i < |es| ==> Wf(es[i].node))
  }

  lemma {:induction false} WfLookup(t: Node, p: Path)
    requires Wf(t) && Lookup(t, p).Some?
    ensures Wf(Lookup(t, p).value)
    decreases p
  {
    if p != [] {
      var c := Child(t.entries, p[0]).value;
      var i :| 0 <= i < |t.entries| && t.entries[i].name == p[0];
      ChildAt(t.entries, i);
      WfLookup(c, p[1..]);
    }
  }

  /** In a well-formed tree the `i`-th entry of the directory at `p` is found at `p + [its name]`. */
  lemma LookupEntry(t: Node, p: Path, i: nat)
    requires Wf(t) && IsDirAt(t, p)
    requires i < |Lookup(t, p).value.entries|
    ensures var d := Lookup(t, p).value;
      Lookup(t, p + [d.entries[i].name]) == Some(d.entries[i].node)
  {
    var d := Lookup(t, p).value;
    LookupAppend(t, p, [d.entries[i].name]);
    WfLookup(t, p);
    ChildAt(d.entries, i);
    assert [d.entries[i].name][1..] == [];
  }
}
