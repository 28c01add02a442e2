/**
 * Project identity (`get_project_name`, main.rs) and the two directories it
 * keys: the transient checkout and the persistent staging directory.
 */
module Identity {
  import opened Wrappers
  import opened Strings
  import opened Paths

  newtype u64 = x: int | 0 <= x < 0x1_0000_0000_0000_0000

  /** The triple `#[derive(Hash)]` feeds to the hasher. */
  datatype Project = Project(name: string, giturl: string, downdir: Option<string>)

  /**
   * `format!("{}-{}", name, hasher.finish())`.  `hash` stands for
   * `DefaultHasher::new()` fed with the project: a fixed function of the
   * triple, about which nothing else is assumed.
   */
  function ProjectId(p: Project, hash: Project -> u64): string {
    p.name + "-" + Decimal(hash(p) as nat)
  }

  const CheckoutsRoot: string := "/etc/simple-cd/checkouts/"
  const ConfRoot: string := "/etc/simple-cd/conf/"

  function CheckoutDir(id: string): string {
    CheckoutsRoot + id
  }

  function StagingDir(id: string): string {
    ConfRoot + id
  }

  /** `checkout[/downdir]/conf`: where the configuration is copied from. */
  function ConfigSource(checkout: string, downdir: Option<string>): string {
    match downdir
    case None => checkout + "/conf"
    case Some(d) => checkout + "/" + d + "/conf"
  }

  /** Read an identity back: everything before the last `-`, and the number after it. */
  function SplitId(id: string): Option<(string, nat)> {
    match LastIndexOf(id, '-')
    case None => None
    case Some(i) =>
      var digits := id[i + 1..];
      if digits != [] && AllDigits(digits) then Some((id[..i], ParseDecimal(digits))) else None
  }

  lemma {:induction false} LastIndexOfAfter(a: string, c: char, b: string)
    requires c !in b
    ensures LastIndexOf(a + [c] + b, c) == Some(|a|)
    decreases |b|
  {
    var s := a + [c] + b;
    if b != [] {
      assert s[..|s| - 1] == a + [c] + b[..|b| - 1];
      LastIndexOfAfter(a, c, b[..|b| - 1]);
    }
  }

  /** The identity determines the name and the hash it was made from. */
  lemma IdRoundTrip(p: Project, hash: Project -> u64)
    ensures SplitId(ProjectId(p, hash)) == Some((p.name, hash(p) as nat))
  {
    var d := Decimal(hash(p) as nat);
    var id := ProjectId(p, hash);
    assert '-' !in d;
    assert id == p.name + ['-'] + d;
    LastIndexOfAfter(p.name, '-', d);
    assert id[|p.name| + 1..] == d;
    assert id[..|p.name|] == p.name;
    DecimalRoundTrip(hash(p) as nat);
  }

  /** Two projects share an identity exactly when they share the name and the hash. */
  lemma IdEqualIff(p: Project, q: Project, hash: Project -> u64)
    ensures ProjectId(p, hash) == ProjectId(q, hash) <==> p.name == q.name && hash(p) == hash(q)
  {
    if ProjectId(p, hash) == ProjectId(q, hash) {
      IdRoundTrip(p, hash);
      IdRoundTrip(q, hash);
    }
  }

  /** A single component below `/`. */
  lemma TopParse(x: string)
    requires ValidText(x)
    ensures ParsePath("/" + x) == [Text(x)]
  {
    assert Split("") == [""];
    assert "" + "/" + x == "/" + x;
    ParsePathAppend("", x);
  }

  /** A field after a three-component root resolves against that root. */
  lemma RootParse(base: string, x: string, y: string, z: string, field: string)
    requires ValidText(x) && ValidText(y) && ValidText(z) && '/' !in field
    requires base == "/" + x + "/" + y + "/" + z
    ensures ParsePath(base + "/" + field) == Push([Text(x), Text(y), Text(z)], field)
  {
    var b1 := "/" + x;
    var b2 := b1 + "/" + y;
    assert base == b2 + "/" + z;
    TopParse(x);
    ParsePathAppend(b1, y);
    ParsePathAppend(b2, z);
    ParsePathStep(base, field);
  }

  lemma CheckoutDirSplit(id: string)
    ensures CheckoutDir(id) == "/etc/simple-cd/checkouts" + "/" + id
  {
  }

  lemma StagingDirSplit(id: string)
    ensures StagingDir(id) == "/etc/simple-cd/conf" + "/" + id
  {
  }

  lemma CheckoutRootParse(field: string)
    requires '/' !in field
    ensures ParsePath(CheckoutDir(field)) == Push([Text("etc"), Text("simple-cd"), Text("checkouts")], field)
  {
    RootParse("/etc/simple-cd/checkouts", "etc", "simple-cd", "checkouts", field);
    CheckoutDirSplit(field);
  }

  lemma StagingRootParse(field: string)
    requires '/' !in field
    ensures ParsePath(StagingDir(field)) == Push([Text("etc"), Text("simple-cd"), Text("conf")], field)
  {
    RootParse("/etc/simple-cd/conf", "etc", "simple-cd", "conf", field);
    StagingDirSplit(field);
  }

  /**
   * For a name without `/`, the checkout and the staging directory are single
   * entries below their roots, and neither lies inside the other.
   */
  lemma DirsApart(p: Project, hash: Project -> u64)
    requires '/' !in p.name
    ensures var id := ProjectId(p, hash);
      && ParsePath(CheckoutDir(id)) == [Text("etc"), Text("simple-cd"), Text("checkouts"), Text(id)]
      && ParsePath(StagingDir(id)) == [Text("etc"), Text("simple-cd"), Text("conf"), Text(id)]
      && Apart(ParsePath(CheckoutDir(id)), ParsePath(StagingDir(id)))
  {
    var id := ProjectId(p, hash);
    var d := Decimal(hash(p) as nat);
    assert '/' !in d;
    assert id[|p.name|] == '-';
    assert id == p.name + "-" + d;
    assert ValidText(id);
    CheckoutRootParse(id);
    StagingRootParse(id);
    var c := ParsePath(CheckoutDir(id));
    var s := ParsePath(StagingDir(id));
    assert c[2] != s[2];
  }

  /** Two `..` fields after a three-component root climb back to its first component. */
  lemma ClimbParse(base: string, x: string, y: string, z: string, tail: string)
    requires ValidText(x) && ValidText(y) && ValidText(z) && ValidText(tail)
    requires base == "/" + x + "/" + y + "/" + z
    ensures ParsePath(base + "/../../" + tail) == [Text(x), Text(tail)]
  {
    RootParse(base, x, y, z, "..");
    ParsePathStep(base + "/" + "..", "..");
    ParsePathAppend(base + "/" + ".." + "/" + "..", tail);
    assert base + "/" + ".." + "/" + ".." + "/" + tail == base + "/../../" + tail;
  }

  lemma ClimbId(base: string, x: string, y: string, z: string, p: Project, hash: Project -> u64, w: string)
    requires ValidText(x) && ValidText(y) && ValidText(z) && base == "/" + x + "/" + y + "/" + z
    requires p.name == "../../" + w && '/' !in w
    ensures ParsePath(base + "/" + ProjectId(p, hash)) == [Text(x), Text(w + "-" + Decimal(hash(p) as nat))]
  {
    var d := Decimal(hash(p) as nat);
    var tail := w + "-" + d;
    assert tail[|w|] == '-';
    assert ValidText(tail);
    ClimbParse(base, x, y, z, tail);
    assert base + "/" + ProjectId(p, hash) == base + "/../../" + tail;
  }

  /**
   * The name is not sanitised: with a name `../../w` both directories
   * resolve to `/etc/w-<hash>`, so removing the checkout removes the
   * staging directory as well.
   */
  lemma TraversalNameMergesDirs(p: Project, hash: Project -> u64, w: string)
    requires p.name == "../../" + w && '/' !in w
    ensures var id := ProjectId(p, hash);
      && ParsePath(CheckoutDir(id)) == ParsePath(StagingDir(id))
      && ParsePath(CheckoutDir(id)) == [Text("etc"), Text(w + "-" + Decimal(hash(p) as nat))]
  {
    CheckoutClimb(p, hash, w);
    StagingClimb(p, hash, w);
  }

  lemma CheckoutClimb(p: Project, hash: Project -> u64, w: string)
    requires p.name == "../../" + w && '/' !in w
    ensures ParsePath(CheckoutDir(ProjectId(p, hash))) == [Text("etc"), Text(w + "-" + Decimal(hash(p) as nat))]
  {
    ClimbId("/etc/simple-cd/checkouts", "etc", "simple-cd", "checkouts", p, hash, w);
    CheckoutDirSplit(ProjectId(p, hash));
  }

  lemma StagingClimb(p: Project, hash: Project -> u64, w: string)
    requires p.name == "../../" + w && '/' !in w
    ensures ParsePath(StagingDir(ProjectId(p, hash))) == [Text("etc"), Text(w + "-" + Decimal(hash(p) as nat))]
  {
    ClimbId("/etc/simple-cd/conf", "etc", "simple-cd", "conf", p, hash, w);
    StagingDirSplit(ProjectId(p, hash));
  }
}
