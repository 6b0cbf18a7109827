/** Unix paths as strings and `std::path::Path::parent`, which the `ldd`
    parser uses to collect the directory of every library it finds.

    `parent` walks the path's components from the back: separators are
    collapsed, `.` components after the first are ignored, a path that ends
    in the root (or is empty) has no parent, a lone leading `.` has the empty
    path as parent, and the returned slice has trailing separators and `.`
    components trimmed off. */
module Paths {
  import opened Base
  import opened Text

  type Path = string

  predicate HasRoot(p: Path) {
    |p| > 0 && p[0] == '/'
  }

  /** A relative path whose first component is `.`. */
  predicate StartsWithCurDir(p: Path) {
    !HasRoot(p) && |p| > 0 && p[0] == '.' && (|p| == 1 || p[1] == '/')
  }

  /** Characters before the first body component: the root, or a leading `.`. */
  function HeadLength(p: Path): (n: nat)
    ensures n <= 1 && n <= |p|
  {
    if HasRoot(p) || StartsWithCurDir(p) then 1 else 0
  }

  /** A body component that `Path::components` reports: not empty, not `.`. */
  predicate IsComponent(seg: string) {
    seg != [] && seg != "."
  }

  /** The last separator-free segment of `p[head..]`, and how many characters
      it occupies together with the separator before it (if any). */
  function BackSegment(p: Path, head: nat): (r: (string, nat))
    requires head < |p|
    ensures var (seg, size) := r;
      && '/' !in seg
      && |seg| <= size <= |p| - head
      && 0 < size
      && seg == p[|p| - |seg|..]
      && (size == |seg| + 1 ==> p[|p| - size] == '/')
      && (size == |seg| ==> size == |p| - head)
      && (size == |seg| || size == |seg| + 1)
  {
    var body := p[head..];
    match LastIndexOf(body, '/')
    case None => (body, |body|)
    case Some(i) =>
      assert body[i + 1..] == p[|p| - (|body| - i - 1)..];
      (body[i + 1..], |body| - i)
  }

  /** `Components::trim_right`: drop trailing separators and `.` segments. */
  function TrimRight(p: Path, head: nat): (r: Path)
    requires head <= |p|
    ensures head <= |r| <= |p| && r == p[..|r|]
    decreases |p|
  {
    if |p| <= head then p
    else
      var (seg, size) := BackSegment(p, head);
      if IsComponent(seg) then p else TrimRight(p[..|p| - size], head)
  }

  function ParentFrom(p: Path, head: nat): (r: Option<Path>)
    requires head <= |p|
    ensures r.Some? ==> |r.value| < |p| && r.value == p[..|r.value|]
    ensures r.Some? && HasRoot(p) ==> head <= |r.value|
    decreases |p|
  {
    if |p| > head then
      var (seg, size) := BackSegment(p, head);
      var rest := p[..|p| - size];
      if IsComponent(seg) then Some(TrimRight(rest, head)) else ParentFrom(rest, head)
    else if StartsWithCurDir(p) then Some([])
    else None
  }

  /** `Path::parent` on Unix. A parent is always a proper prefix of the path,
      and the parent of an absolute path is absolute. */
  function Parent(p: Path): (r: Option<Path>)
    ensures r.Some? ==> |r.value| < |p| && r.value == p[..|r.value|]
    ensures r.Some? && HasRoot(p) ==> HasRoot(r.value)
  {
    ParentFrom(p, HeadLength(p))
  }

  /** An absolute directory whose last segment is a real component, so that
      `parent` gives it back unchanged: `/`, `/usr/lib`, but not `/usr/lib/`
      or `/usr/.`. */
  predicate IsPlainDirectory(d: Path) {
    && HasRoot(d)
    && (|d| == 1 || (d[|d| - 1] != '/' && d[|d| - 2..] != "/."))
  }

  /** Joining a plain directory with one more name and asking for the parent
      gives the directory back. */
  lemma ParentOfJoin(d: Path, name: string)
    requires IsPlainDirectory(d)
    requires IsComponent(name) && '/' !in name
    ensures Parent(d + "/" + name) == Some(d)
  {
    var p := d + "/" + name;
    assert HasRoot(p);
    assert HeadLength(p) == 1;
    var body := p[1..];
    assert body == d[1..] + ['/'] + name;
    LastIndexOfJoin(d[1..], '/', name);
    assert LastIndexOf(body, '/') == Some(|d| - 1);
    assert body[|d|..] == name;
    assert BackSegment(p, 1) == (name, |name| + 1);
    assert p[..|p| - (|name| + 1)] == d;
    TrimRightPlain(d);
    assert ParentFrom(p, 1) == Some(TrimRight(d, 1));
  }

  lemma TrimRightPlain(d: Path)
    requires IsPlainDirectory(d)
    ensures TrimRight(d, 1) == d
  {
    if |d| > 1 {
      assert d[|d| - 2..] == [d[|d| - 2], d[|d| - 1]];
      var (seg, size) := BackSegment(d, 1);
      assert seg == d[|d| - |seg|..];
    }
  }
}
