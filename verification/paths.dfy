/**
 * Path strings and their resolution.  The handler builds every path by
 * string formatting (`format!("/etc/simple-cd/conf/{}", name)`,
 * `checkout.push('/')`, ...); here such a string is resolved lexically to
 * its components.  The kernel instead walks the components on disk, so a
 * `..` after a component that is missing or is a file fails there and not
 * here.  Directory entries carry their own names, which need not be UTF-8;
 * `Path::to_str` turns such a path into `None`.
 */
module Paths {
  import opened Wrappers

  /** One path component: UTF-8 text, or raw bytes that are not valid UTF-8. */
  datatype Name = Text(text: string) | NonUtf8(raw: seq<bv8>)

  /** A resolved absolute path: the components below `/`. */
  type Path = seq<Name>

  /** A component a directory listing can produce. */
  predicate ValidText(s: string) {
    s != "" && s != "." && s != ".." && '/' !in s
  }

  predicate ValidName(n: Name) {
    match n
    case Text(s) => ValidText(s)
    case NonUtf8(raw) => raw != [] && 0x2F !in raw
  }

  predicate IsPrefix(p: Path, q: Path) {
    |p| <= |q| && q[..|p|] == p
  }

  /** Neither path lies inside (or equals) the other. */
  predicate Apart(p: Path, q: Path) {
    !IsPrefix(p, q) && !IsPrefix(q, p)
  }

  /** Extending two apart paths keeps them apart: they already differ at some shared position. */
  lemma ApartExtend(p: Path, q: Path, x: Path, y: Path)
    requires Apart(p, q)
    ensures Apart(p + x, q + y)
  {
    var m := if |p| <= |q| then |p| else |q|;
    var k: nat :| k < m && p[k] != q[k] by {
      if |p| <= |q| {
        assert q[..|p|] != p;
        var k :| 0 <= k < |p| && q[..|p|][k] != p[k];
      } else {
        assert p[..|q|] != q;
        var k :| 0 <= k < |q| && p[..|q|][k] != q[k];
      }
    }
    assert (p + x)[k] == p[k] && (q + y)[k] == q[k];
  }

  /** Two different entries of the same directory. */
  lemma SiblingsApart(d: Path, a: Name, b: Name)
    requires a != b
    ensures Apart(d + [a], d + [b])
  {
    assert (d + [a])[|d|] == a && (d + [b])[|d|] == b;
  }

  // ------------------------------------------------------------ resolution

  /** The `/`-separated fields of a string, empty fields included. */
  function Split(s: string): (r: seq<string>)
    ensures |r| >= 1
    ensures '/' !in s ==> r == [s]
    ensures forall i :: 0 <= i < |r| ==> '/' !in r[i]
  {
    if s == [] then [""]
    else
      var rest := Split(s[1..]);
      if s[0] == '/' then [""] + rest
      else
        assert s == [s[0]] + s[1..];
        [[s[0]] + rest[0]] + rest[1..]
  }

  /** One step of resolution: "" and "." stay, ".." goes up (not above `/`). */
  function Push(p: Path, field: string): Path {
    if field == "" || field == "." then p
    else if field == ".." then (if p == [] then [] else p[..|p| - 1])
    else p + [Text(field)]
  }

  function Resolve(fields: seq<string>): Path {
    if fields == [] then []
    else Push(Resolve(fields[..|fields| - 1]), fields[|fields| - 1])
  }

  /**
   * The components a path string names, resolved lexically: `""` and `.`
   * are dropped and `..` drops the component before it, whatever that
   * component is on disk.  No symbolic links are modelled.
   */
  function ParsePath(s: string): (p: Path)
    ensures forall i :: 0 <= i < |p| ==> p[i].Text? && ValidText(p[i].text)
  {
    ResolveValid(Split(s));
    Resolve(Split(s))
  }

  lemma {:induction false} ResolveValid(fields: seq<string>)
    requires forall i :: 0 <= i < |fields| ==> '/' !in fields[i]
    ensures forall i :: 0 <= i < |Resolve(fields)| ==> Resolve(fields)[i].Text? && ValidText(Resolve(fields)[i].text)
  {
    if fields != [] {
      var init := fields[..|fields| - 1];
      ResolveValid(init);
      var p := Resolve(init);
      var f := fields[|fields| - 1];
      if f != "" && f != "." && f != ".." {
        assert ValidText(f);
        assert Resolve(fields) == p + [Text(f)];
      }
    }
  }

  lemma {:induction false} SplitAppend(a: string, n: string)
    requires '/' !in n
    ensures Split(a + "/" + n) == Split(a) + [n]
    decreases |a|
  {
    if a == [] {
      assert a + "/" + n == "/" + n;
      assert ("/" + n)[1..] == n;
    } else {
      var s := a + "/" + n;
      assert s[0] == a[0];
      assert s[1..] == a[1..] + "/" + n;
      SplitAppend(a[1..], n);
    }
  }

  /** Appending `/` and one field resolves that field after the rest. */
  lemma ParsePathStep(a: string, n: string)
    requires '/' !in n
    ensures ParsePath(a + "/" + n) == Push(ParsePath(a), n)
  {
    SplitAppend(a, n);
    var f := Split(a) + [n];
    assert f[..|f| - 1] == Split(a);
  }

  /** Appending `/` and a proper component resolves to one more component. */
  lemma ParsePathAppend(a: string, n: string)
    requires ValidText(n)
    ensures ParsePath(a + "/" + n) == ParsePath(a) + [Text(n)]
  {
    ParsePathStep(a, n);
  }

  // ------------------------------------------------------------ to_str

  /**
   * `dir.join(n1).join(n2)...` viewed through `to_str()`: the display string of
   * a path below the walk root `root`, or `None` when a component is not UTF-8.
   */
  function Display(root: string, rel: Path): Option<string> {
    if rel == [] then Some(root)
    else
      match Display(root, rel[..|rel| - 1])
      case None => None
      case Some(d) =>
        match rel[|rel| - 1]
        case Text(s) => Some(d + "/" + s)
        case NonUtf8(_) => None
  }

  predicate AllText(rel: Path) {
    forall i :: 0 <= i < |rel| ==> rel[i].Text?
  }

  predicate AllValid(rel: Path) {
    forall i :: 0 <= i < |rel| ==> ValidName(rel[i])
  }

  /**
   * `to_str()` succeeds exactly when every component is UTF-8, and then the
   * string resolves back to the root followed by those components.
   */
  lemma {:induction false} DisplayResolves(root: string, rel: Path)
    requires AllValid(rel)
    ensures Display(root, rel).Some? <==> AllText(rel)
    ensures Display(root, rel).Some? ==> ParsePath(Display(root, rel).value) == ParsePath(root) + rel
  {
    if rel != [] {
      var init := rel[..|rel| - 1];
      var last := rel[|rel| - 1];
      assert rel == init + [last];
      assert AllValid(init);
      DisplayResolves(root, init);
      assert AllText(rel) <==> AllText(init) && last.Text? by {
        if AllText(init) && last.Text? {
          forall i | 0 <= i < |rel| ensures rel[i].Text? {
            if i < |init| { assert rel[i] == init[i]; }
          }
        }
      }
      if Display(root, rel).Some? {
        ParsePathAppend(Display(root, init).value, last.text);
      }
    }
  }
}
