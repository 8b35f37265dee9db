/**
 * The scaffold executor over an abstract file system. Artifact paths are
 * created in manifest order (a trailing `/` marks a directory), paths that
 * already exist are skipped, and every newly created artifact is recorded;
 * when an exception is raised the recorded paths are rolled back, files
 * first and then directories, deepest first, and the exception is passed on.
 */
module Scaffold {
  import opened Wrappers
  import opened Strings
  import opened Plans

  // ---------------------------------------------------------------------
  // Paths.

  /** A path is its sequence of segments, as `Path(s).parts` gives for a relative path. */
  type Path = seq<string>

  /** A segment `pathlib` keeps: not empty, not `.` and free of separators. */
  predicate IsSegment(x: string) {
    x != "" && x != "." && '/' !in x
  }

  function Keep(segment: string): (r: Path)
    requires '/' !in segment
    ensures forall k :: 0 <= k < |r| ==> IsSegment(r[k])
  {
    if segment == "" || segment == "." then [] else [segment]
  }

  /** The segments of `s`, where `current` is the unfinished segment read so far. */
  function PartsFrom(s: string, current: string): (r: Path)
    requires '/' !in current
    ensures forall k :: 0 <= k < |r| ==> IsSegment(r[k])
  {
    if s == "" then Keep(current)
    else if s[0] == '/' then Keep(current) + PartsFrom(s[1..], "")
    else PartsFrom(s[1..], current + [s[0]])
  }

  /** `Path(s).parts`: split at `/`, dropping empty and `.` segments. */
  function Parts(s: string): (r: Path)
    ensures forall k :: 0 <= k < |r| ==> IsSegment(r[k])
  {
    PartsFrom(s, "")
  }

  lemma {:induction false} PartsFromSlash(s: string, current: string)
    requires '/' !in current
    ensures PartsFrom(s + "/", current) == PartsFrom(s, current)
  {
    if s == "" {
      assert PartsFrom("/", current) == Keep(current) + PartsFrom("", "");
    } else {
      assert (s + "/")[1..] == s[1..] + "/";
      if s[0] == '/' {
        PartsFromSlash(s[1..], "");
      } else {
        PartsFromSlash(s[1..], current + [s[0]]);
      }
    }
  }

  /** A trailing slash does not change the path: `a/` and `a` name the same entry. */
  lemma PartsTrailingSlash(s: string)
    ensures Parts(s + "/") == Parts(s)
  {
    PartsFromSlash(s, "");
  }

  lemma {:induction false} PartsFromSegment(x: string, current: string)
    requires '/' !in current && '/' !in x
    ensures PartsFrom(x, current) == Keep(current + x)
  {
    if x == "" {
      assert current + x == current;
    } else {
      assert x[0] in x && x[0] != '/';
      assert current + x == (current + [x[0]]) + x[1..];
      PartsFromSegment(x[1..], current + [x[0]]);
    }
  }

  /** A text without `/` is one segment, dropped when it is empty or `.`. */
  lemma PartsSegment(x: string)
    requires '/' !in x
    ensures Parts(x) == if x == "" || x == "." then [] else [x]
  {
    PartsFromSegment(x, "");
    assert "" + x == x;
  }

  lemma {:induction false} PartsFromJoin(a: string, b: string, current: string)
    requires '/' !in current
    ensures PartsFrom(a + "/" + b, current) == PartsFrom(a, current) + PartsFrom(b, "")
  {
    if a == "" {
      assert a + "/" + b == "/" + b && ("/" + b)[1..] == b;
    } else {
      assert (a + "/" + b)[0] == a[0] && (a + "/" + b)[1..] == a[1..] + "/" + b;
      if a[0] == '/' {
        PartsFromJoin(a[1..], b, "");
      } else {
        PartsFromJoin(a[1..], b, current + [a[0]]);
      }
    }
  }

  /** Joining two paths with `/` joins their segments: `Path(a) / b`. */
  lemma PartsJoin(a: string, b: string)
    ensures Parts(a + "/" + b) == Parts(a) + Parts(b)
  {
    PartsFromJoin(a, b, "");
  }

  /** `path.endswith("/")`: the artifact is a directory. */
  predicate IsDirectoryArtifact(artifact: string) {
    EndsWith(artifact, "/")
  }

  /** `q` lies strictly inside directory `d`. */
  predicate Below(q: Path, d: Path) {
    |d| < |q| && q[..|d|] == d
  }

  // ---------------------------------------------------------------------
  // The file system state.

  /** The paths that are files and the paths that are directories; `[]` is the working directory. */
  datatype Fs = Fs(files: set<Path>, dirs: set<Path>)

  /** `Path.exists()`: the working directory always exists. */
  predicate ExistsIn(fs: Fs, p: Path) {
    p == [] || p in fs.files || p in fs.dirs
  }

  /** A well-formed tree: no path is both, and every entry's proper prefixes are directories. */
  predicate Tree(fs: Fs) {
    fs.files !! fs.dirs && [] !in fs.files && [] !in fs.dirs &&
    (forall p, k :: p in fs.files && 0 < k < |p| ==> p[..k] in fs.dirs) &&
    (forall p, k :: p in fs.dirs && 0 < k < |p| ==> p[..k] in fs.dirs)
  }

  /** The non-empty prefixes of `p`, `p` itself included. */
  function Ancestors(p: Path): set<Path> {
    set k | 0 < k <= |p| :: p[..k]
  }

  /** Some non-empty prefix of `p` is a file, so `mkdir(parents=True)` raises. */
  predicate Blocked(fs: Fs, p: Path) {
    exists k :: 0 < k <= |p| && p[..k] in fs.files
  }

  /** `mkdir(parents=True, exist_ok=True)`: `None` when it raises. */
  function MakeDirsResult(fs: Fs, p: Path): Option<Fs> {
    if Blocked(fs, p) then None else Some(fs.(dirs := fs.dirs + Ancestors(p)))
  }

  /** `write_text`: the parent must be a directory and the path must not be one. */
  predicate CanWrite(fs: Fs, p: Path) {
    p != [] && p !in fs.dirs && (p[..|p| - 1] == [] || p[..|p| - 1] in fs.dirs)
  }

  /** `rmdir`: only an empty directory can be removed. */
  predicate CanRmdir(fs: Fs, d: Path) {
    d in fs.dirs && (forall q :: q in fs.files ==> !Below(q, d)) && (forall q :: q in fs.dirs ==> !Below(q, d))
  }

  lemma MakeDirsKeepsTree(fs: Fs, p: Path)
    requires Tree(fs) && !Blocked(fs, p)
    ensures Tree(fs.(dirs := fs.dirs + Ancestors(p)))
  {
    var fs' := fs.(dirs := fs.dirs + Ancestors(p));
    forall q, k | q in fs'.dirs && 0 < k < |q|
      ensures q[..k] in fs'.dirs
    {
      if q in Ancestors(p) {
        var m :| 0 < m <= |p| && q == p[..m];
        assert q[..k] == p[..k];
      }
    }
    forall q | q in Ancestors(p)
      ensures q !in fs.files && q != []
    {
      var m :| 0 < m <= |p| && q == p[..m];
    }
  }

  lemma WriteKeepsTree(fs: Fs, p: Path)
    requires Tree(fs) && CanWrite(fs, p)
    ensures Tree(fs.(files := fs.files + {p}))
  {
    var parent := p[..|p| - 1];
    forall k | 0 < k < |p|
      ensures p[..k] in fs.dirs
    {
      if k < |parent| {
        assert parent[..k] == p[..k];
      } else {
        assert p[..k] == parent;
      }
    }
  }

  // ---------------------------------------------------------------------
  // The file system as mutable state.

  class FileSystem {
    var files: set<Path>
    var dirs: set<Path>

    constructor (s: Fs)
      ensures State() == s
    {
      files := s.files;
      dirs := s.dirs;
    }

    function State(): Fs
      reads this
    {
      Fs(files, dirs)
    }

    /** `Path.exists()`. */
    method Exists(p: Path) returns (b: bool)
      ensures b == ExistsIn(State(), p)
    {
      b := p == [] || p in files || p in dirs;
    }

    /** `Path.is_file()` and `Path.is_dir()`. */
    function IsFile(p: Path): bool
      reads this
    {
      p in files
    }

    function IsDir(p: Path): bool
      reads this
    {
      p in dirs
    }

    /** `mkdir(parents=True, exist_ok=True)`; `ok` is false when it raises, and then nothing changes. */
    method MakeDirs(p: Path) returns (ok: bool)
      modifies this
      ensures ok == !Blocked(old(State()), p)
      ensures ok ==> Some(State()) == MakeDirsResult(old(State()), p)
      ensures !ok ==> State() == old(State())
    {
      if exists k :: 0 < k <= |p| && p[..k] in files {
        ok := false;
      } else {
        dirs := dirs + Ancestors(p);
        ok := true;
      }
    }

    /** `write_text`; the content written is not modelled. */
    method WriteText(p: Path) returns (ok: bool)
      modifies this
      ensures ok == CanWrite(old(State()), p)
      ensures State() == if ok then old(State()).(files := old(files) + {p}) else old(State())
    {
      ok := p != [] && p !in dirs && (p[..|p| - 1] == [] || p[..|p| - 1] in dirs);
      if ok {
        files := files + {p};
      }
    }

    /** `unlink`: raises unless the path is a file. */
    method Unlink(p: Path) returns (ok: bool)
      modifies this
      ensures ok == (p in old(files))
      ensures State() == old(State()).(files := old(files) - {p})
    {
      ok := p in files;
      files := files - {p};
    }

    /** `rmdir`: raises unless the path is an empty directory. */
    method Rmdir(p: Path) returns (ok: bool)
      modifies this
      ensures ok == CanRmdir(old(State()), p)
      ensures State() == if ok then old(State()).(dirs := old(dirs) - {p}) else old(State())
    {
      ok := p in dirs && (forall q :: q in files ==> !Below(q, p)) && (forall q :: q in dirs ==> !Below(q, p));
      if ok {
        dirs := dirs - {p};
      }
    }
  }

  // ---------------------------------------------------------------------
  // Creating one artifact, specified on states.

  /** The prefixes `p[..1]`, ..., `p[..n]` that are not directories yet, shallowest first. */
  function MissingDirs(fs: Fs, p: Path, n: nat): seq<Path>
    requires n <= |p|
  {
    if n == 0 then []
    else MissingDirs(fs, p, n - 1) + (if p[..n] in fs.dirs then [] else [p[..n]])
  }

  /**
   * One creation step: the new state, the path `_execute_scaffold` records (if
   * any), every path the step brought into existence (implicit parent
   * directories included, in creation order), and whether it raised.
   */
  datatype StepOutcome = StepOutcome(fs: Fs, created: Option<Path>, made: seq<Path>, raised: bool)

  /** `_create_directory`. */
  function DirectoryStep(fs: Fs, p: Path): StepOutcome {
    if ExistsIn(fs, p) then StepOutcome(fs, None, [], false)
    else if Blocked(fs, p) then StepOutcome(fs, None, [], true)
    else StepOutcome(fs.(dirs := fs.dirs + Ancestors(p)), Some(p), MissingDirs(fs, p, |p|), false)
  }

  /** `_create_file`: the parent directories first, then the file. */
  function FileStep(fs: Fs, p: Path): StepOutcome {
    if ExistsIn(fs, p) then StepOutcome(fs, None, [], false)
    else
      var parent := p[..|p| - 1];
      if Blocked(fs, parent) then StepOutcome(fs, None, [], true)
      else
        var fs1 := fs.(dirs := fs.dirs + Ancestors(parent));
        var made := MissingDirs(fs, parent, |parent|);
        if CanWrite(fs1, p) then StepOutcome(fs1.(files := fs1.files + {p}), Some(p), made + [p], false)
        else StepOutcome(fs1, None, made, true)
  }

  /** Artifact `i` of the manifest; an injected fault at `i` raises before anything happens. */
  function ArtifactStep(fs: Fs, artifact: string, i: nat, fault: Option<nat>): StepOutcome {
    if fault == Some(i) then StepOutcome(fs, None, [], true)
    else if IsDirectoryArtifact(artifact) then DirectoryStep(fs, Parts(artifact))
    else FileStep(fs, Parts(artifact))
  }

  /** The state of the creation loop: the record `created_paths` of `_execute_scaffold`, the complete record `made`, and where it raised. */
  datatype Progress = Progress(fs: Fs, created: seq<Path>, made: seq<Path>, failedAt: Option<nat>)

  /** The creation loop after its first `n` iterations; after a raise nothing further happens. */
  function Walk(fs0: Fs, artifacts: seq<string>, fault: Option<nat>, n: nat): Progress
    requires n <= |artifacts|
  {
    if n == 0 then Progress(fs0, [], [], None)
    else
      var w := Walk(fs0, artifacts, fault, n - 1);
      if w.failedAt.Some? then w
      else
        var o := ArtifactStep(w.fs, artifacts[n - 1], n - 1, fault);
        Progress(o.fs, w.created + (if o.created.Some? then [o.created.value] else []), w.made + o.made,
                 if o.raised then Some(n - 1) else None)
  }

  // ---------------------------------------------------------------------
  // Creating one artifact: `_create_directory` and `_create_file`, step by step.

  /**
   * `_create_directory`: `raised` stands for the exception `mkdir` throws.
   * `made` lists every directory the call brought into existence, implicit
   * parents included; `_create_directory` does not report it.
   */
  method CreateDirectory(fs: FileSystem, artifact: string) returns (created: Option<Path>, made: seq<Path>, raised: bool)
    modifies fs
    ensures var o := DirectoryStep(old(fs.State()), Parts(artifact));
      fs.State() == o.fs && created == o.created && made == o.made && raised == o.raised
  {
    var p := Parts(artifact);
    var present := fs.Exists(p);
    if present {
      return None, [], false;
    }
    var missing := MissingDirs(fs.State(), p, |p|);
    var ok := fs.MakeDirs(p);
    if !ok {
      return None, [], true;
    }
    return Some(p), missing, false;
  }

  /** `_create_file`: the placeholder content is not modelled; `made` as for `CreateDirectory`. */
  method CreateFile(fs: FileSystem, artifact: string) returns (created: Option<Path>, made: seq<Path>, raised: bool)
    modifies fs
    ensures var o := FileStep(old(fs.State()), Parts(artifact));
      fs.State() == o.fs && created == o.created && made == o.made && raised == o.raised
  {
    var p := Parts(artifact);
    var present := fs.Exists(p);
    if present {
      return None, [], false;
    }
    var parent := p[..|p| - 1];
    var missing := MissingDirs(fs.State(), parent, |parent|);
    var ok := fs.MakeDirs(parent);
    if !ok {
      return None, [], true;
    }
    ok := fs.WriteText(p);
    if !ok {
      return None, missing, true;
    }
    return Some(p), missing + [p], false;
  }

  // ---------------------------------------------------------------------
  // Deepest first: the stable sort by segment count, in reverse.

  /** Inserts `x` after every element at least as deep, scanning from the back. */
  function Insert(s: seq<Path>, x: Path): seq<Path> {
    if s == [] then [x]
    else if |s[|s| - 1]| >= |x| then s + [x]
    else Insert(s[..|s| - 1], x) + [s[|s| - 1]]
  }

  /** `dirs.sort(key=lambda p: len(p.parts), reverse=True)`, which Python keeps stable. */
  function DeepestFirst(ds: seq<Path>): seq<Path> {
    if ds == [] then [] else Insert(DeepestFirst(ds[..|ds| - 1]), ds[|ds| - 1])
  }

  /**
   * `x` goes in right after the last element at least as deep: at `j`,
   * when everything from `j` on is strictly shallower than `x`.
   */
  lemma {:induction false} InsertAt(s: seq<Path>, x: Path, j: nat)
    requires j <= |s| && (j == 0 || |s[j - 1]| >= |x|)
    requires forall k :: j <= k < |s| ==> |s[k]| < |x|
    ensures Insert(s, x) == s[..j] + [x] + s[j..]
    decreases |s|
  {
    if j == |s| {
      assert s[..j] == s && s[j..] == [];
    } else {
      var init := s[..|s| - 1];
      assert init[..j] == s[..j];
      InsertAt(init, x, j);
      assert s[j..] == init[j..] + [s[|s| - 1]];
    }
  }

  /** In-place insertion sort: each element is shifted left past every strictly shallower one. */
  method SortDeepestFirst(a: array<Path>)
    modifies a
    ensures a[..] == DeepestFirst(old(a[..]))
  {
    ghost var input := a[..];
    for i := 0 to a.Length
      invariant a[..i] == DeepestFirst(input[..i])
      invariant forall k :: i <= k < a.Length ==> a[k] == input[k]
    {
      NextPrefix(input, i);
      InsertNext(a, i);
    }
    assert input[..a.Length] == input;
  }

  /** Moves `a[i]` into place within `a[..i + 1]`. */
  method InsertNext(a: array<Path>, i: nat)
    requires i < a.Length
    modifies a
    ensures a[..i + 1] == Insert(old(a[..i]), old(a[i]))
    ensures forall k :: i < k < a.Length ==> a[k] == old(a[k])
  {
    var x := a[i];
    ghost var sorted := a[..i];
    var j := i;
    while j > 0 && |a[j - 1]| < |x|
      invariant 0 <= j <= i
      invariant forall k :: 0 <= k < j ==> a[k] == sorted[k]
      invariant forall k :: j < k <= i ==> a[k] == sorted[k - 1]
      invariant forall k :: i < k < a.Length ==> a[k] == old(a[k])
      invariant forall k :: j <= k < i ==> |sorted[k]| < |x|
    {
      a[j] := a[j - 1];
      j := j - 1;
    }
    InsertAt(sorted, x, j);
    a[j] := x;
    Placed(a[..i + 1], sorted, x, j);
  }

  lemma NextPrefix(input: seq<Path>, i: nat)
    requires i < |input|
    ensures DeepestFirst(input[..i + 1]) == Insert(DeepestFirst(input[..i]), input[i])
  {
    assert input[..i + 1][..i] == input[..i];
  }

  lemma Placed(r: seq<Path>, sorted: seq<Path>, x: Path, j: nat)
    requires j <= |sorted| && |r| == |sorted| + 1
    requires forall k :: 0 <= k < j ==> r[k] == sorted[k]
    requires r[j] == x
    requires forall k :: j < k < |r| ==> r[k] == sorted[k - 1]
    ensures r == sorted[..j] + [x] + sorted[j..]
  {
  }

  /** Everything deeper comes first. */
  predicate DeepestFirstOrder(s: seq<Path>) {
    forall i, j :: 0 <= i < j < |s| ==> |s[i]| >= |s[j]|
  }

  /** The elements of depth `d`, in order. */
  function WithDepth(s: seq<Path>, d: nat): seq<Path> {
    if s == [] then []
    else WithDepth(s[..|s| - 1], d) + (if |s[|s| - 1]| == d then [s[|s| - 1]] else [])
  }

  lemma {:induction false} WithDepthAppend(a: seq<Path>, b: seq<Path>, d: nat)
    ensures WithDepth(a + b, d) == WithDepth(a, d) + WithDepth(b, d)
  {
    if b == [] {
      assert a + b == a;
    } else {
      assert (a + b)[..|a + b| - 1] == a + b[..|b| - 1];
      WithDepthAppend(a, b[..|b| - 1], d);
    }
  }

  lemma {:induction false} InsertPermutes(s: seq<Path>, x: Path)
    ensures multiset(Insert(s, x)) == multiset(s) + multiset{x}
  {
    if s != [] && |s[|s| - 1]| < |x| {
      var init, last := s[..|s| - 1], s[|s| - 1];
      assert s == init + [last];
      InsertPermutes(init, x);
    }
  }

  lemma {:induction false} InsertOrdered(s: seq<Path>, x: Path)
    requires DeepestFirstOrder(s)
    ensures DeepestFirstOrder(Insert(s, x))
  {
    if s != [] && |s[|s| - 1]| < |x| {
      var init, last := s[..|s| - 1], s[|s| - 1];
      InsertOrdered(init, x);
      InsertPermutes(init, x);
      var r := Insert(init, x);
      forall k | 0 <= k < |r|
        ensures |r[k]| >= |last|
      {
        assert r[k] in multiset(r);
      }
    }
  }

  lemma {:induction false} InsertStable(s: seq<Path>, x: Path, d: nat)
    ensures WithDepth(Insert(s, x), d) == WithDepth(s, d) + (if |x| == d then [x] else [])
  {
    if s != [] {
      var init, last := s[..|s| - 1], s[|s| - 1];
      assert s == init + [last];
      if |last| < |x| {
        InsertStable(init, x, d);
        WithDepthAppend(Insert(init, x), [last], d);
        WithDepthAppend(init, [last], d);
        assert WithDepth([last], d) == WithDepth([], d) + (if |last| == d then [last] else []);
      } else {
        WithDepthAppend(s, [x], d);
        assert WithDepth([x], d) == WithDepth([], d) + (if |x| == d then [x] else []);
      }
    }
  }

  /** The sort is a permutation, deepest first, and keeps creation order among equally deep paths. */
  lemma {:induction false} DeepestFirstProps(ds: seq<Path>)
    ensures multiset(DeepestFirst(ds)) == multiset(ds)
    ensures DeepestFirstOrder(DeepestFirst(ds))
    ensures forall d: nat :: WithDepth(DeepestFirst(ds), d) == WithDepth(ds, d)
  {
    if ds != [] {
      var init, last := ds[..|ds| - 1], ds[|ds| - 1];
      assert ds == init + [last];
      DeepestFirstProps(init);
      InsertPermutes(DeepestFirst(init), last);
      InsertOrdered(DeepestFirst(init), last);
      forall d: nat {
        InsertStable(DeepestFirst(init), last, d);
      }
    }
  }

  // ---------------------------------------------------------------------
  // Rollback.

  /** `[p for p in created if p.is_file()]`. */
  function FilesIn(fs: Fs, ps: seq<Path>): seq<Path> {
    if ps == [] then []
    else FilesIn(fs, ps[..|ps| - 1]) + (if ps[|ps| - 1] in fs.files then [ps[|ps| - 1]] else [])
  }

  /** `[p for p in created if p.is_dir()]`. */
  function DirsIn(fs: Fs, ps: seq<Path>): seq<Path> {
    if ps == [] then []
    else DirsIn(fs, ps[..|ps| - 1]) + (if ps[|ps| - 1] in fs.dirs then [ps[|ps| - 1]] else [])
  }

  /** The state during rollback and the deletions that failed so far, in order. */
  datatype Deletion = Deletion(fs: Fs, failures: seq<Path>)

  /** Unlinks each path in turn; a failure is reported and the loop goes on. */
  function UnlinkAll(d: Deletion, ps: seq<Path>): Deletion {
    if ps == [] then d
    else
      var e := UnlinkAll(d, ps[..|ps| - 1]);
      var p := ps[|ps| - 1];
      if p in e.fs.files then Deletion(e.fs.(files := e.fs.files - {p}), e.failures)
      else Deletion(e.fs, e.failures + [p])
  }

  /** Removes each directory in turn; a failure is reported and the loop goes on. */
  function RmdirAll(d: Deletion, ps: seq<Path>): Deletion {
    if ps == [] then d
    else
      var e := RmdirAll(d, ps[..|ps| - 1]);
      var p := ps[|ps| - 1];
      if CanRmdir(e.fs, p) then Deletion(e.fs.(dirs := e.fs.dirs - {p}), e.failures)
      else Deletion(e.fs, e.failures + [p])
  }

  /** `_rollback`: the recorded files, then the recorded directories deepest first. */
  function RollbackSpec(fs: Fs, created: seq<Path>): Deletion {
    if created == [] then Deletion(fs, [])
    else RmdirAll(UnlinkAll(Deletion(fs, []), FilesIn(fs, created)), DeepestFirst(DirsIn(fs, created)))
  }

  /** `_rollback`; the returned list holds the paths whose deletion raised. */
  method Rollback(fs: FileSystem, created: seq<Path>) returns (failures: seq<Path>)
    modifies fs
    ensures Deletion(fs.State(), failures) == RollbackSpec(old(fs.State()), created)
  {
    if created == [] {
      return [];
    }
    ghost var s := fs.State();
    var files := FilesIn(fs.State(), created);
    var dirs := DirsIn(fs.State(), created);
    failures := [];
    for i := 0 to |files|
      invariant Deletion(fs.State(), failures) == UnlinkAll(Deletion(s, []), files[..i])
    {
      assert files[..i + 1][..i] == files[..i];
      var ok := fs.Unlink(files[i]);
      if !ok {
        failures := failures + [files[i]];
      }
    }
    assert files[..|files|] == files;
    ghost var afterFiles := Deletion(fs.State(), failures);
    var order := new Path[|dirs|](k requires 0 <= k < |dirs| => dirs[k]);
    assert order[..] == dirs;
    SortDeepestFirst(order);
    var sorted := order[..];
    for i := 0 to |sorted|
      invariant Deletion(fs.State(), failures) == RmdirAll(afterFiles, sorted[..i])
    {
      assert sorted[..i + 1][..i] == sorted[..i];
      var ok := fs.Rmdir(sorted[i]);
      if !ok {
        failures := failures + [sorted[i]];
      }
    }
    assert sorted[..|sorted|] == sorted;
  }

  // ---------------------------------------------------------------------
  // The executor.

  /** Either every artifact was handled, or artifact `failedAt` raised and was rolled back. */
  datatype Execution = Completed(created: seq<Path>) | RolledBack(failedAt: nat, failures: seq<Path>)

  datatype Run = Run(fs: Fs, result: Execution)

  /** `_execute_scaffold` as written: only the recorded artifact paths are rolled back. */
  function ExecuteSpec(fs0: Fs, artifacts: seq<string>, fault: Option<nat>): Run {
    var w := Walk(fs0, artifacts, fault, |artifacts|);
    if w.failedAt.None? then Run(w.fs, Completed(w.created))
    else
      var d := RollbackSpec(w.fs, w.created);
      Run(d.fs, RolledBack(w.failedAt.value, d.failures))
  }

  /** The executor with every path it brought into existence recorded, implicit parents included. */
  function AtomicSpec(fs0: Fs, artifacts: seq<string>, fault: Option<nat>): Run {
    var w := Walk(fs0, artifacts, fault, |artifacts|);
    if w.failedAt.None? then Run(w.fs, Completed(w.created))
    else
      var d := RollbackSpec(w.fs, w.made);
      Run(d.fs, RolledBack(w.failedAt.value, d.failures))
  }

  lemma {:induction false} WalkStays(fs0: Fs, artifacts: seq<string>, fault: Option<nat>, n: nat, m: nat)
    requires n <= m <= |artifacts|
    requires Walk(fs0, artifacts, fault, n).failedAt.Some?
    ensures Walk(fs0, artifacts, fault, m) == Walk(fs0, artifacts, fault, n)
  {
    if m > n {
      WalkStays(fs0, artifacts, fault, n, m - 1);
    }
  }

  /**
   * The creation loop of `_execute_scaffold`: artifacts in manifest order, a
   * trailing `/` for a directory, stopping at the first exception. It returns
   * the record `created_paths`, every path it brought into existence, and
   * the index that raised.
   */
  method CreateArtifacts(fs: FileSystem, artifacts: seq<string>, fault: Option<nat>)
    returns (created: seq<Path>, made: seq<Path>, failedAt: Option<nat>)
    modifies fs
    ensures Progress(fs.State(), created, made, failedAt) == Walk(old(fs.State()), artifacts, fault, |artifacts|)
  {
    ghost var fs0 := fs.State();
    created, made, failedAt := [], [], None;
    var i := 0;
    while i < |artifacts| && failedAt.None?
      invariant i <= |artifacts|
      invariant Walk(fs0, artifacts, fault, i) == Progress(fs.State(), created, made, failedAt)
    {
      var c: Option<Path>;
      var m: seq<Path>;
      var raised: bool;
      if fault == Some(i) {
        c, m, raised := None, [], true;
      } else if EndsWith(artifacts[i], "/") {
        c, m, raised := CreateDirectory(fs, artifacts[i]);
      } else {
        c, m, raised := CreateFile(fs, artifacts[i]);
      }
      made := made + m;
      if c.Some? {
        created := created + [c.value];
      }
      if raised {
        failedAt := Some(i);
      }
      i := i + 1;
    }
    if failedAt.Some? {
      WalkStays(fs0, artifacts, fault, i, |artifacts|);
    }
  }

  /**
   * `_execute_scaffold`: the creation loop, then, on the first exception,
   * the recorded paths rolled back and the exception passed on, as a
   * `RolledBack` result.
   */
  method ExecuteScaffold(fs: FileSystem, artifacts: seq<string>, fault: Option<nat>) returns (result: Execution)
    modifies fs
    ensures Run(fs.State(), result) == ExecuteSpec(old(fs.State()), artifacts, fault)
  {
    var created, _, failedAt := CreateArtifacts(fs, artifacts, fault);
    if failedAt.Some? {
      var failures := Rollback(fs, created);
      result := RolledBack(failedAt.value, failures);
    } else {
      result := Completed(created);
    }
  }

  /**
   * The executor corrected: the same creation loop, but on an exception it
   * rolls back every path the loop brought into existence, the parent
   * directories that `mkdir(parents=True)` creates implicitly included.
   */
  method ExecuteScaffoldAtomic(fs: FileSystem, artifacts: seq<string>, fault: Option<nat>) returns (result: Execution)
    modifies fs
    ensures Run(fs.State(), result) == AtomicSpec(old(fs.State()), artifacts, fault)
  {
    var created, made, failedAt := CreateArtifacts(fs, artifacts, fault);
    if failedAt.Some? {
      var failures := Rollback(fs, made);
      result := RolledBack(failedAt.value, failures);
    } else {
      result := Completed(created);
    }
  }

  /**
   * `generate_scaffold`: returns the plan's artifacts; the file system is
   * touched only when `execute` is set, and then by `_execute_scaffold`.
   * A raise surfaces as a `RolledBack` result.
   */
  method GenerateScaffold(fs: FileSystem, plan: Plan, execute: bool, fault: Option<nat>)
    returns (artifacts: seq<string>, result: Option<Execution>)
    modifies fs
    ensures artifacts == plan.artifacts
    ensures !execute ==> result == None && fs.State() == old(fs.State())
    ensures execute ==> result.Some? && Run(fs.State(), result.value) == ExecuteSpec(old(fs.State()), plan.artifacts, fault)
  {
    artifacts := plan.artifacts;
    if execute {
      var r := ExecuteScaffold(fs, artifacts, fault);
      result := Some(r);
    } else {
      result := None;
    }
  }

  /** `generate_scaffold` with the corrected executor in execute mode. */
  method GenerateScaffoldAtomic(fs: FileSystem, plan: Plan, execute: bool, fault: Option<nat>)
    returns (artifacts: seq<string>, result: Option<Execution>)
    modifies fs
    ensures artifacts == plan.artifacts
    ensures !execute ==> result == None && fs.State() == old(fs.State())
    ensures execute ==> result.Some? && Run(fs.State(), result.value) == AtomicSpec(old(fs.State()), plan.artifacts, fault)
  {
    artifacts := plan.artifacts;
    if execute {
      var r := ExecuteScaffoldAtomic(fs, artifacts, fault);
      result := Some(r);
    } else {
      result := None;
    }
  }

  // ---------------------------------------------------------------------
  // What one creation step does to the tree.

  /** `p` is an entry of `after` that `before` did not have. */
  predicate IsNew(before: Fs, after: Fs, p: Path) {
    (p in after.files && p !in before.files) || (p in after.dirs && p !in before.dirs)
  }

  /** `after` keeps every entry of `before`. */
  predicate Grows(before: Fs, after: Fs) {
    before.files <= after.files && before.dirs <= after.dirs
  }

  lemma AncestorsMember(p: Path, q: Path)
    ensures q in Ancestors(p) <==> 0 < |q| <= |p| && q == p[..|q|]
  {
    if 0 < |q| <= |p| && q == p[..|q|] {
      assert p[..|q|] in Ancestors(p);
    }
  }

  /** The missing prefixes are exactly the prefixes of length at most `n` that are not directories. */
  lemma {:induction false} MissingDirsMember(fs: Fs, p: Path, n: nat)
    requires n <= |p|
    ensures forall q :: q in MissingDirs(fs, p, n) <==> 0 < |q| <= n && q == p[..|q|] && q !in fs.dirs
  {
    if n > 0 {
      MissingDirsMember(fs, p, n - 1);
    }
  }

  /** The missing prefixes are listed shallowest first. */
  lemma {:induction false} MissingDirsAscending(fs: Fs, p: Path, n: nat)
    requires n <= |p|
    ensures forall q :: q in MissingDirs(fs, p, n) ==> |q| <= n
    ensures forall i, j :: 0 <= i < j < |MissingDirs(fs, p, n)| ==> |MissingDirs(fs, p, n)[i]| < |MissingDirs(fs, p, n)[j]|
  {
    if n > 0 {
      MissingDirsAscending(fs, p, n - 1);
      var m := MissingDirs(fs, p, n - 1);
      if p[..n] !in fs.dirs {
        var r := m + [p[..n]];
        forall i, j | 0 <= i < j < |r|
          ensures |r[i]| < |r[j]|
        {
          assert r[i] == m[i] && m[i] in m;
        }
      }
    }
  }

  lemma MissingDirsProps(fs: Fs, p: Path, n: nat)
    requires n <= |p|
    ensures forall q :: q in MissingDirs(fs, p, n) <==> 0 < |q| <= n && q == p[..|q|] && q !in fs.dirs
    ensures forall i, j :: 0 <= i < j < |MissingDirs(fs, p, n)| ==> |MissingDirs(fs, p, n)[i]| < |MissingDirs(fs, p, n)[j]|
  {
    MissingDirsMember(fs, p, n);
    MissingDirsAscending(fs, p, n);
  }

  /** `mkdir(parents=True)` adds exactly the missing prefixes, none of which is a file. */
  lemma MakeDirsNew(fs: Fs, p: Path)
    requires !Blocked(fs, p)
    ensures var m := MissingDirs(fs, p, |p|);
      (forall q :: q in m <==> q in Ancestors(p) && q !in fs.dirs) &&
      (forall q :: q in m ==> q !in fs.files) && NoDuplicates(m)
  {
    var m := MissingDirs(fs, p, |p|);
    MissingDirsProps(fs, p, |p|);
    forall q
      ensures q in m <==> q in Ancestors(p) && q !in fs.dirs
    {
      AncestorsMember(p, q);
    }
    forall q | q in m
      ensures q !in fs.files
    {
      assert q == p[..|q|];
    }
  }

  lemma DirectoryStepFacts(fs: Fs, p: Path)
    requires Tree(fs)
    ensures var o := DirectoryStep(fs, p);
      Tree(o.fs) && Grows(fs, o.fs) && NoDuplicates(o.made) &&
      (forall q :: q in o.made <==> IsNew(fs, o.fs, q)) &&
      (forall q :: q in o.made ==> q !in fs.files && q !in fs.dirs) &&
      (o.created.Some? ==> o.created.value in o.made) &&
      (!o.raised ==> ExistsIn(o.fs, p))
  {
    if !ExistsIn(fs, p) && !Blocked(fs, p) {
      MakeDirsKeepsTree(fs, p);
      MakeDirsNew(fs, p);
      AncestorsMember(p, p);
    }
  }

  lemma FileStepFacts(fs: Fs, p: Path)
    requires Tree(fs)
    ensures var o := FileStep(fs, p);
      Tree(o.fs) && Grows(fs, o.fs) && NoDuplicates(o.made) &&
      (forall q :: q in o.made <==> IsNew(fs, o.fs, q)) &&
      (forall q :: q in o.made ==> q !in fs.files && q !in fs.dirs) &&
      (o.created.Some? ==> o.created.value in o.made) &&
      (!o.raised ==> ExistsIn(o.fs, p))
  {
    if !ExistsIn(fs, p) {
      var parent := p[..|p| - 1];
      if !Blocked(fs, parent) {
        var fs1 := fs.(dirs := fs.dirs + Ancestors(parent));
        var m := MissingDirs(fs, parent, |parent|);
        MakeDirsKeepsTree(fs, parent);
        MakeDirsNew(fs, parent);
        if CanWrite(fs1, p) {
          WriteKeepsTree(fs1, p);
          MissingDirsProps(fs, parent, |parent|);
          assert p !in m;
          assert forall i :: 0 <= i < |m| ==> (m + [p])[i] == m[i];
        }
      }
    }
  }

  lemma StepFacts(fs: Fs, artifact: string, i: nat, fault: Option<nat>)
    requires Tree(fs)
    ensures var o := ArtifactStep(fs, artifact, i, fault);
      Tree(o.fs) && Grows(fs, o.fs) && NoDuplicates(o.made) &&
      (forall q :: q in o.made <==> IsNew(fs, o.fs, q)) &&
      (forall q :: q in o.made ==> q !in fs.files && q !in fs.dirs) &&
      (o.created.Some? ==> o.created.value in o.made) &&
      (!o.raised ==> ExistsIn(o.fs, Parts(artifact)))
  {
    if fault != Some(i) {
      if IsDirectoryArtifact(artifact) {
        DirectoryStepFacts(fs, Parts(artifact));
      } else {
        FileStepFacts(fs, Parts(artifact));
      }
    }
  }

  // ---------------------------------------------------------------------
  // What the creation loop keeps.

  /**
   * Started from a well-formed tree, the loop keeps a well-formed tree that
   * only grows; `made` lists each new entry once, and `created`, the
   * record `created_paths`, lists some of them, each once.
   */
  ghost predicate WalkInv(fs0: Fs, w: Progress) {
    Tree(w.fs) && Grows(fs0, w.fs) && NoDuplicates(w.made) && NoDuplicates(w.created) &&
    (forall q :: q in w.made <==> IsNew(fs0, w.fs, q)) &&
    (forall q :: q in w.created ==> q in w.made)
  }

  lemma NoDuplicatesAppend<T>(a: seq<T>, b: seq<T>)
    requires NoDuplicates(a) && NoDuplicates(b) && forall x :: x in b ==> x !in a
    ensures NoDuplicates(a + b)
  {
    forall i, j | 0 <= i < j < |a + b|
      ensures (a + b)[i] != (a + b)[j]
    {
      if j >= |a| && i < |a| {
        assert (a + b)[j] in b;
      }
    }
  }

  lemma {:induction false} WalkKeepsInv(fs0: Fs, artifacts: seq<string>, fault: Option<nat>, n: nat)
    requires Tree(fs0) && n <= |artifacts|
    ensures WalkInv(fs0, Walk(fs0, artifacts, fault, n))
  {
    if n > 0 {
      WalkKeepsInv(fs0, artifacts, fault, n - 1);
      var w := Walk(fs0, artifacts, fault, n - 1);
      if w.failedAt.None? {
        var o := ArtifactStep(w.fs, artifacts[n - 1], n - 1, fault);
        StepFacts(w.fs, artifacts[n - 1], n - 1, fault);
        NoDuplicatesAppend(w.made, o.made);
        var c := if o.created.Some? then [o.created.value] else [];
        NoDuplicatesAppend(w.created, c);
        forall q
          ensures q in w.made + o.made <==> IsNew(fs0, o.fs, q)
        {
          if q in w.made {
            assert IsNew(fs0, w.fs, q);
          }
        }
      }
    }
  }

  /** Without a raise, every artifact handled so far exists: it was there already or it was created. */
  lemma {:induction false} WalkCreatesAll(fs0: Fs, artifacts: seq<string>, fault: Option<nat>, n: nat)
    requires Tree(fs0) && n <= |artifacts|
    ensures var w := Walk(fs0, artifacts, fault, n);
      w.failedAt.None? ==> forall k :: 0 <= k < n ==> ExistsIn(w.fs, Parts(artifacts[k]))
  {
    if n > 0 {
      WalkCreatesAll(fs0, artifacts, fault, n - 1);
      WalkKeepsInv(fs0, artifacts, fault, n - 1);
      var w := Walk(fs0, artifacts, fault, n - 1);
      if w.failedAt.None? {
        var o := ArtifactStep(w.fs, artifacts[n - 1], n - 1, fault);
        StepFacts(w.fs, artifacts[n - 1], n - 1, fault);
        if !o.raised {
          forall k | 0 <= k < n
            ensures ExistsIn(o.fs, Parts(artifacts[k]))
          {
            if k < n - 1 {
              assert ExistsIn(w.fs, Parts(artifacts[k]));
            }
          }
        }
      }
    }
  }

  /** The loop stops at the first raise, and an injected fault at `k` raises there unless an earlier artifact did. */
  lemma {:induction false} WalkFault(fs0: Fs, artifacts: seq<string>, fault: Option<nat>, n: nat)
    requires n <= |artifacts|
    ensures var w := Walk(fs0, artifacts, fault, n);
      (w.failedAt.Some? ==> w.failedAt.value < n) &&
      (fault.Some? && fault.value < n ==> w.failedAt.Some? && w.failedAt.value <= fault.value)
  {
    if n > 0 {
      WalkFault(fs0, artifacts, fault, n - 1);
    }
  }

  // ---------------------------------------------------------------------
  // What rollback removes.

  lemma {:induction false} FilesInMember(fs: Fs, ps: seq<Path>)
    ensures forall q :: q in FilesIn(fs, ps) <==> q in ps && q in fs.files
    ensures NoDuplicates(ps) ==> NoDuplicates(FilesIn(fs, ps))
  {
    if ps != [] {
      var init := ps[..|ps| - 1];
      FilesInMember(fs, init);
      assert ps == init + [ps[|ps| - 1]];
      if NoDuplicates(ps) {
        var last := if ps[|ps| - 1] in fs.files then [ps[|ps| - 1]] else [];
        NoDuplicatesAppend(FilesIn(fs, init), last);
      }
    }
  }

  lemma {:induction false} DirsInMember(fs: Fs, ps: seq<Path>)
    ensures forall q :: q in DirsIn(fs, ps) <==> q in ps && q in fs.dirs
    ensures NoDuplicates(ps) ==> NoDuplicates(DirsIn(fs, ps))
  {
    if ps != [] {
      var init := ps[..|ps| - 1];
      DirsInMember(fs, init);
      assert ps == init + [ps[|ps| - 1]];
      if NoDuplicates(ps) {
        var last := if ps[|ps| - 1] in fs.dirs then [ps[|ps| - 1]] else [];
        NoDuplicatesAppend(DirsIn(fs, init), last);
      }
    }
  }

  lemma {:induction false} InsertNoDuplicates(s: seq<Path>, x: Path)
    requires NoDuplicates(s) && x !in s
    ensures NoDuplicates(Insert(s, x))
  {
    if s != [] && |s[|s| - 1]| < |x| {
      var init, last := s[..|s| - 1], s[|s| - 1];
      assert s == init + [last];
      InsertNoDuplicates(init, x);
      InsertPermutes(init, x);
      assert last !in multiset(Insert(init, x));
      NoDuplicatesAppend(Insert(init, x), [last]);
    } else if s != [] {
      NoDuplicatesAppend(s, [x]);
    }
  }

  lemma {:induction false} DeepestFirstNoDuplicates(ds: seq<Path>)
    requires NoDuplicates(ds)
    ensures NoDuplicates(DeepestFirst(ds))
  {
    if ds != [] {
      var init, last := ds[..|ds| - 1], ds[|ds| - 1];
      assert ds == init + [last];
      DeepestFirstNoDuplicates(init);
      DeepestFirstProps(init);
      assert last !in multiset(DeepestFirst(init));
      InsertNoDuplicates(DeepestFirst(init), last);
    }
  }

  /** Unlinking distinct files removes them all and reports nothing. */
  lemma {:induction false} UnlinkAllRemoves(d: Deletion, ps: seq<Path>)
    requires NoDuplicates(ps) && forall k :: 0 <= k < |ps| ==> ps[k] in d.fs.files
    ensures UnlinkAll(d, ps) == Deletion(d.fs.(files := d.fs.files - set q | q in ps), d.failures)
  {
    if ps != [] {
      var init, last := ps[..|ps| - 1], ps[|ps| - 1];
      assert ps == init + [last];
      UnlinkAllRemoves(d, init);
      assert last !in init;
      assert (set q | q in ps) == (set q | q in init) + {last};
    }
  }

  /** The directories of `ps` from position `n` on. */
  ghost function Remaining(ps: seq<Path>, n: nat): set<Path> {
    set k | n <= k < |ps| :: ps[k]
  }

  /**
   * Removing new directories deepest first over a well-formed `base` that
   * holds none of them: each is empty when its turn comes, since anything
   * below it is either new and deeper, so already removed, or would make it
   * a directory of `base`.
   */
  lemma {:induction false} RmdirAllRemoves(base: Fs, failures: seq<Path>, ps: seq<Path>, n: nat)
    requires Tree(base) && NoDuplicates(ps) && DeepestFirstOrder(ps) && n <= |ps|
    requires forall k :: 0 <= k < |ps| ==> ps[k] != [] && ps[k] !in base.dirs
    ensures RmdirAll(Deletion(Fs(base.files, base.dirs + Remaining(ps, 0)), failures), ps[..n])
         == Deletion(Fs(base.files, base.dirs + Remaining(ps, n)), failures)
  {
    if n > 0 {
      var start := Deletion(Fs(base.files, base.dirs + Remaining(ps, 0)), failures);
      RmdirAllRemoves(base, failures, ps, n - 1);
      assert ps[..n][..n - 1] == ps[..n - 1];
      var e := RmdirAll(start, ps[..n - 1]);
      var p := ps[n - 1];
      forall q | q in e.fs.dirs && q !in base.dirs
        ensures !Below(q, p)
      {
        {
          var k :| n - 1 <= k < |ps| && q == ps[k];
          assert k == n - 1 || |ps[n - 1]| >= |ps[k]|;
        }
      }
      assert CanRmdir(e.fs, p);
      assert Remaining(ps, n - 1) == Remaining(ps, n) + {p};
      assert p !in Remaining(ps, n);
    }
  }

  lemma NothingNew(before: Fs, after: Fs)
    requires Grows(before, after) && forall q :: !IsNew(before, after, q)
    ensures after == before
  {
    forall q | q in after.files
      ensures q in before.files
    {
      assert !IsNew(before, after, q);
    }
    forall q | q in after.dirs
      ensures q in before.dirs
    {
      assert !IsNew(before, after, q);
    }
  }

  /** Unlinking the recorded files removes exactly the new files. */
  lemma RollbackFilesNew(fs0: Fs, W: Fs, M: seq<Path>)
    requires Tree(W) && Grows(fs0, W) && NoDuplicates(M)
    requires forall q :: q in M <==> IsNew(fs0, W, q)
    ensures UnlinkAll(Deletion(W, []), FilesIn(W, M)) == Deletion(Fs(fs0.files, W.dirs), [])
  {
    var files := FilesIn(W, M);
    FilesInMember(W, M);
    forall k | 0 <= k < |files|
      ensures files[k] in W.files
    {
      assert files[k] in files;
    }
    UnlinkAllRemoves(Deletion(W, []), files);
    forall q | q in W.files && q !in fs0.files
      ensures q in files
    {
      assert IsNew(fs0, W, q);
    }
    assert W.files - (set q | q in files) == fs0.files;
  }

  /** Sorting keeps exactly the elements it was given and orders them deepest first. */
  lemma DeepestFirstMember(ds: seq<Path>)
    ensures forall q :: q in DeepestFirst(ds) <==> q in ds
    ensures DeepestFirstOrder(DeepestFirst(ds))
  {
    DeepestFirstProps(ds);
    forall q
      ensures q in DeepestFirst(ds) <==> q in ds
    {
      assert q in DeepestFirst(ds) <==> q in multiset(DeepestFirst(ds));
    }
  }

  /** The recorded entries that are directories are the new directories. */
  lemma DirsNew(fs0: Fs, W: Fs, M: seq<Path>)
    requires Tree(W)
    requires forall q :: q in M <==> IsNew(fs0, W, q)
    ensures forall q :: q in DirsIn(W, M) <==> q in W.dirs && q !in fs0.dirs
  {
    DirsInMember(W, M);
    forall q | q in W.dirs && q !in fs0.dirs
      ensures q in M
    {
      assert IsNew(fs0, W, q);
    }
  }

  /** The recorded directories, deepest first, are the new directories, each once and none of them the root. */
  lemma SortedNewDirs(fs0: Fs, W: Fs, M: seq<Path>)
    requires Tree(W) && Grows(fs0, W)
    requires forall q :: q in M <==> IsNew(fs0, W, q)
    ensures var sorted := DeepestFirst(DirsIn(W, M));
      DeepestFirstOrder(sorted) &&
      (forall k :: 0 <= k < |sorted| ==> sorted[k] != [] && sorted[k] !in fs0.dirs) &&
      W.dirs == fs0.dirs + Remaining(sorted, 0)
  {
    var dirs := DirsIn(W, M);
    DirsNew(fs0, W, M);
    var sorted := DeepestFirst(dirs);
    DeepestFirstMember(dirs);
    forall k | 0 <= k < |sorted|
      ensures sorted[k] in dirs
    {
      assert sorted[k] in sorted;
    }
    forall q | q in W.dirs && q !in fs0.dirs
      ensures q in Remaining(sorted, 0)
    {
      var k :| 0 <= k < |sorted| && sorted[k] == q;
    }
  }

  /** Removing the recorded directories deepest first then removes exactly the new directories. */
  lemma RollbackDirsNew(fs0: Fs, W: Fs, M: seq<Path>)
    requires Tree(fs0) && Tree(W) && Grows(fs0, W) && NoDuplicates(M)
    requires forall q :: q in M <==> IsNew(fs0, W, q)
    ensures RmdirAll(Deletion(Fs(fs0.files, W.dirs), []), DeepestFirst(DirsIn(W, M))) == Deletion(fs0, [])
  {
    var sorted := DeepestFirst(DirsIn(W, M));
    SortedNewDirs(fs0, W, M);
    DirsInMember(W, M);
    DeepestFirstNoDuplicates(DirsIn(W, M));
    RmdirAllRemoves(fs0, [], sorted, |sorted|);
    assert sorted[..|sorted|] == sorted;
    assert Remaining(sorted, |sorted|) == {};
  }

  /** The corrected executor leaves the file system exactly as it found it when it rolls back. */
  lemma AtomicRestores(fs0: Fs, artifacts: seq<string>, fault: Option<nat>)
    requires Tree(fs0)
    ensures var r := AtomicSpec(fs0, artifacts, fault);
      r.result.RolledBack? ==> r.fs == fs0 && r.result.failures == []
  {
    var w := Walk(fs0, artifacts, fault, |artifacts|);
    WalkKeepsInv(fs0, artifacts, fault, |artifacts|);
    if w.failedAt.Some? {
      if w.made == [] {
        NothingNew(fs0, w.fs);
      } else {
        RollbackFilesNew(fs0, w.fs, w.made);
        RollbackDirsNew(fs0, w.fs, w.made);
      }
    }
  }

  // ---------------------------------------------------------------------
  // What the executor as written guarantees, and where it falls short.

  lemma {:induction false} UnlinkAllOnly(d: Deletion, ps: seq<Path>)
    ensures var r := UnlinkAll(d, ps);
      r.fs.dirs == d.fs.dirs && r.fs.files <= d.fs.files &&
      (forall q :: q in d.fs.files && q !in ps ==> q in r.fs.files) &&
      (forall q :: q in r.failures ==> q in d.failures || q in ps)
  {
    if ps != [] {
      UnlinkAllOnly(d, ps[..|ps| - 1]);
      assert ps == ps[..|ps| - 1] + [ps[|ps| - 1]];
    }
  }

  lemma {:induction false} RmdirAllOnly(d: Deletion, ps: seq<Path>)
    ensures var r := RmdirAll(d, ps);
      r.fs.files == d.fs.files && r.fs.dirs <= d.fs.dirs &&
      (forall q :: q in d.fs.dirs && q !in ps ==> q in r.fs.dirs) &&
      (forall q :: q in r.failures ==> q in d.failures || q in ps)
  {
    if ps != [] {
      RmdirAllOnly(d, ps[..|ps| - 1]);
      assert ps == ps[..|ps| - 1] + [ps[|ps| - 1]];
    }
  }

  /** `_rollback` deletes nothing but the paths it is given, and reports only those. */
  lemma RollbackOnlyRecorded(fs: Fs, created: seq<Path>)
    ensures var r := RollbackSpec(fs, created);
      r.fs.files <= fs.files && r.fs.dirs <= fs.dirs &&
      (forall q :: q in fs.files && q !in created ==> q in r.fs.files) &&
      (forall q :: q in fs.dirs && q !in created ==> q in r.fs.dirs) &&
      (forall q :: q in r.failures ==> q in created)
  {
    if created != [] {
      var files := FilesIn(fs, created);
      var dirs := DirsIn(fs, created);
      FilesInMember(fs, created);
      DirsInMember(fs, created);
      DeepestFirstMember(dirs);
      UnlinkAllOnly(Deletion(fs, []), files);
      RmdirAllOnly(UnlinkAll(Deletion(fs, []), files), DeepestFirst(dirs));
    }
  }

  /**
   * Removing distinct directories, each present at the start and none yet
   * reported, goes on past a failure: afterwards each of them is still a
   * directory exactly when its `rmdir` was reported as failed.
   */
  lemma {:induction false} RmdirAllTries(d: Deletion, ps: seq<Path>)
    requires NoDuplicates(ps)
    requires forall k :: 0 <= k < |ps| ==> ps[k] in d.fs.dirs && ps[k] !in d.failures
    ensures var r := RmdirAll(d, ps);
      forall q :: q in ps ==> (q in r.fs.dirs <==> q in r.failures)
  {
    if ps != [] {
      var init, p := ps[..|ps| - 1], ps[|ps| - 1];
      assert ps == init + [p];
      assert NoDuplicates(init) by {
        forall i, j | 0 <= i < j < |init|
          ensures init[i] != init[j]
        {
          assert init[i] == ps[i] && init[j] == ps[j];
        }
      }
      assert p !in init by {
        forall i | 0 <= i < |init|
          ensures init[i] != p
        {
          assert init[i] == ps[i];
        }
      }
      RmdirAllTries(d, init);
      RmdirAllOnly(d, init);
    }
  }

  /**
   * `_rollback` of distinct recorded paths tries every one of them: every
   * recorded file is unlinked, every recorded directory is removed unless
   * its `rmdir` is reported as failed, and only recorded directories are
   * reported.
   */
  lemma RollbackTriesAll(fs: Fs, created: seq<Path>)
    requires NoDuplicates(created)
    ensures var r := RollbackSpec(fs, created);
      (forall q :: q in created && q in fs.files ==> q !in r.fs.files) &&
      (forall q :: q in created && q in fs.dirs ==> (q in r.fs.dirs <==> q in r.failures)) &&
      (forall q :: q in r.failures ==> q in created && q in fs.dirs)
  {
    if created != [] {
      var files := FilesIn(fs, created);
      var dirs := DirsIn(fs, created);
      FilesInMember(fs, created);
      DirsInMember(fs, created);
      DeepestFirstMember(dirs);
      DeepestFirstNoDuplicates(dirs);
      forall k | 0 <= k < |files|
        ensures files[k] in fs.files
      {
        assert files[k] in files;
      }
      UnlinkAllRemoves(Deletion(fs, []), files);
      var e := UnlinkAll(Deletion(fs, []), files);
      var sorted := DeepestFirst(dirs);
      forall k | 0 <= k < |sorted|
        ensures sorted[k] in e.fs.dirs && sorted[k] !in e.failures
      {
        assert sorted[k] in sorted;
      }
      RmdirAllTries(e, sorted);
      RmdirAllOnly(e, sorted);
    }
  }

  /**
   * The executor as written never deletes a path that existed before the
   * run, deletes nothing it did not make, and reports as failed only paths
   * that this run created. On a raise it rolls back every recorded path:
   * a recorded path is still there afterwards exactly when its deletion is
   * reported as failed.
   */
  lemma ExecuteKeepsExisting(fs0: Fs, artifacts: seq<string>, fault: Option<nat>)
    requires Tree(fs0)
    ensures var w := Walk(fs0, artifacts, fault, |artifacts|);
      var r := ExecuteSpec(fs0, artifacts, fault);
      Grows(fs0, r.fs) && Grows(r.fs, w.fs) &&
      (r.result.RolledBack? ==> forall q :: q in r.result.failures ==> IsNew(fs0, w.fs, q))
    ensures var w := Walk(fs0, artifacts, fault, |artifacts|);
      var r := ExecuteSpec(fs0, artifacts, fault);
      r.result.RolledBack? ==>
        forall q :: q in w.created ==> (q in r.fs.files || q in r.fs.dirs <==> q in r.result.failures)
  {
    var w := Walk(fs0, artifacts, fault, |artifacts|);
    WalkKeepsInv(fs0, artifacts, fault, |artifacts|);
    if w.failedAt.Some? {
      RollbackOnlyRecorded(w.fs, w.created);
      RollbackTriesAll(w.fs, w.created);
      forall q | q in w.created
        ensures IsNew(fs0, w.fs, q)
      {
        assert q in w.made;
      }
    }
  }

  /**
   * A completed run, of either executor, leaves every artifact in place,
   * keeps everything that was there and records only new paths, each once;
   * a raise stops the run at or before an injected fault.
   */
  lemma ExecuteCompletes(fs0: Fs, artifacts: seq<string>, fault: Option<nat>)
    requires Tree(fs0)
    ensures var r := ExecuteSpec(fs0, artifacts, fault);
      AtomicSpec(fs0, artifacts, fault).result.Completed? == r.result.Completed? &&
      (r.result.Completed? ==>
        r == AtomicSpec(fs0, artifacts, fault) && Grows(fs0, r.fs) && NoDuplicates(r.result.created) &&
        (forall k :: 0 <= k < |artifacts| ==> ExistsIn(r.fs, Parts(artifacts[k]))) &&
        (forall q :: q in r.result.created ==> IsNew(fs0, r.fs, q))) &&
      (r.result.RolledBack? ==> r.result.failedAt < |artifacts|) &&
      (fault.Some? && fault.value < |artifacts| ==> r.result.RolledBack? && r.result.failedAt <= fault.value)
  {
    var w := Walk(fs0, artifacts, fault, |artifacts|);
    WalkKeepsInv(fs0, artifacts, fault, |artifacts|);
    WalkCreatesAll(fs0, artifacts, fault, |artifacts|);
    WalkFault(fs0, artifacts, fault, |artifacts|);
    forall q | q in w.created
      ensures IsNew(fs0, w.fs, q)
    {
      assert q in w.made;
    }
  }

  /** A step records the path of its own artifact, and does so exactly when that path was absent and nothing raised. */
  lemma StepRecordsArtifact(fs: Fs, artifact: string, i: nat, fault: Option<nat>)
    ensures var o := ArtifactStep(fs, artifact, i, fault);
      (o.created.Some? ==> o.created.value == Parts(artifact)) &&
      (o.created.Some? <==> !o.raised && !ExistsIn(fs, Parts(artifact)))
  {
  }

  /** Artifact `k` was handled by the loop and did not raise. */
  predicate HandledAt(fs0: Fs, artifacts: seq<string>, fault: Option<nat>, k: nat) {
    k < |artifacts| && Walk(fs0, artifacts, fault, k + 1).failedAt.None?
  }

  /** One iteration's addition to the record: the artifact's path, when it was handled and absent. */
  lemma WalkStepRecord(fs0: Fs, artifacts: seq<string>, fault: Option<nat>, n: nat)
    requires 0 < n <= |artifacts|
    ensures var w := Walk(fs0, artifacts, fault, n - 1);
      var p := Parts(artifacts[n - 1]);
      Walk(fs0, artifacts, fault, n).created ==
        w.created + if HandledAt(fs0, artifacts, fault, n - 1) && !ExistsIn(w.fs, p) then [p] else []
  {
    var w := Walk(fs0, artifacts, fault, n - 1);
    if w.failedAt.None? {
      StepRecordsArtifact(w.fs, artifacts[n - 1], n - 1, fault);
    }
  }

  /**
   * The record `created_paths` lists artifact paths in manifest order: its
   * `i`-th entry is the path of artifact `ks[i]`, and the indices strictly
   * increase.
   */
  lemma {:induction false} WalkRecordsInOrder(fs0: Fs, artifacts: seq<string>, fault: Option<nat>, n: nat) returns (ks: seq<nat>)
    requires n <= |artifacts|
    ensures |ks| == |Walk(fs0, artifacts, fault, n).created|
    ensures forall i :: 0 <= i < |ks| ==> ks[i] < n && Walk(fs0, artifacts, fault, n).created[i] == Parts(artifacts[ks[i]])
    ensures forall i, j :: 0 <= i < j < |ks| ==> ks[i] < ks[j]
  {
    if n == 0 {
      ks := [];
    } else {
      var ks0 := WalkRecordsInOrder(fs0, artifacts, fault, n - 1);
      var w := Walk(fs0, artifacts, fault, n - 1);
      var p := Parts(artifacts[n - 1]);
      WalkStepRecord(fs0, artifacts, fault, n);
      var added := HandledAt(fs0, artifacts, fault, n - 1) && !ExistsIn(w.fs, p);
      var c := w.created + if added then [p] else [];
      ks := ks0 + if added then [n - 1] else [];
      forall i | 0 <= i < |ks|
        ensures ks[i] < n && c[i] == Parts(artifacts[ks[i]])
      {
        if i < |ks0| {
          assert ks[i] == ks0[i] && c[i] == w.created[i];
        }
      }
    }
  }

  /** The record only grows: what was recorded after `m` iterations stays at the front. */
  lemma {:induction false} WalkCreatedPrefix(fs0: Fs, artifacts: seq<string>, fault: Option<nat>, m: nat, n: nat)
    requires m <= n <= |artifacts|
    ensures Walk(fs0, artifacts, fault, m).created <= Walk(fs0, artifacts, fault, n).created
  {
    if m < n {
      WalkCreatedPrefix(fs0, artifacts, fault, m, n - 1);
      WalkStepRecord(fs0, artifacts, fault, n);
    }
  }

  /**
   * `_execute_scaffold` records only artifact paths, in manifest order: a
   * completed run returns, for strictly increasing artifact indices, the
   * paths of those artifacts.
   */
  lemma ExecuteRecordsInOrder(fs0: Fs, artifacts: seq<string>, fault: Option<nat>) returns (ks: seq<nat>)
    ensures var r := ExecuteSpec(fs0, artifacts, fault);
      r.result.Completed? ==>
        |ks| == |r.result.created| &&
        (forall i :: 0 <= i < |ks| ==> ks[i] < |artifacts| && r.result.created[i] == Parts(artifacts[ks[i]])) &&
        (forall i, j :: 0 <= i < j < |ks| ==> ks[i] < ks[j])
  {
    ks := WalkRecordsInOrder(fs0, artifacts, fault, |artifacts|);
  }

  lemma PartsAB()
    ensures Parts("a/b") == ["a", "b"]
    ensures Parts("a/b/c") == ["a", "b", "c"]
  {
    assert PartsFrom("", "b") == ["b"];
    assert PartsFrom("b", "") == ["b"] by {
      assert "b"[1..] == "" && ""  + ['b'] == "b";
    }
    assert PartsFrom("/b", "a") == ["a", "b"] by {
      assert "/b"[1..] == "b";
    }
    assert PartsFrom("a/b", "") == ["a", "b"] by {
      assert "a/b"[1..] == "/b" && "" + ['a'] == "a";
    }
    assert PartsFrom("c", "") == ["c"] by {
      assert "c"[1..] == "" && "" + ['c'] == "c";
    }
    assert PartsFrom("/c", "b") == ["b", "c"] by {
      assert "/c"[1..] == "c";
    }
    assert PartsFrom("b/c", "") == ["b", "c"] by {
      assert "b/c"[1..] == "/c" && "" + ['b'] == "b";
    }
    assert PartsFrom("/b/c", "a") == ["a", "b", "c"] by {
      assert "/b/c"[1..] == "b/c";
    }
    assert PartsFrom("a/b/c", "") == ["a", "b", "c"] by {
      assert "a/b/c"[1..] == "/b/c" && "" + ['a'] == "a";
    }
  }

  /** `a/b` on an empty tree: the parent `a` is made implicitly, then the file. */
  lemma FirstStepExample()
    ensures FileStep(Fs({}, {}), ["a", "b"]) == StepOutcome(Fs({["a", "b"]}, {["a"]}), Some(["a", "b"]), [["a"], ["a", "b"]], false)
  {
    var a, ab: Path := ["a"], ["a", "b"];
    assert ab[..1] == a;
    assert Ancestors(a) == {a} by {
      AncestorsMember(a, a);
      forall q | q in Ancestors(a)
        ensures q == a
      {
        AncestorsMember(a, q);
      }
    }
    assert MissingDirs(Fs({}, {}), a, 1) == [a];
  }

  /** `a/b/c` next: its parent `a/b` is a file, so `mkdir` raises. */
  lemma SecondStepExample()
    ensures FileStep(Fs({["a", "b"]}, {["a"]}), ["a", "b", "c"]) == StepOutcome(Fs({["a", "b"]}, {["a"]}), None, [], true)
  {
    var ab, abc: Path := ["a", "b"], ["a", "b", "c"];
    var fs1 := Fs({ab}, {["a"]});
    assert abc[..2] == ab;
    assert ab[..2] == ab;
    assert Blocked(fs1, ab);
  }

  lemma WalkExample()
    ensures Walk(Fs({}, {}), ["a/b", "a/b/c"], None, 2)
         == Progress(Fs({["a", "b"]}, {["a"]}), [["a", "b"]], [["a"], ["a", "b"]], Some(1))
  {
    PartsAB();
    var arts := ["a/b", "a/b/c"];
    assert !IsDirectoryArtifact(arts[0]) && !IsDirectoryArtifact(arts[1]);
    FirstStepExample();
    SecondStepExample();
    assert Walk(Fs({}, {}), arts, None, 1) == Progress(Fs({["a", "b"]}, {["a"]}), [["a", "b"]], [["a"], ["a", "b"]], None);
  }

  /** Rolling back only the recorded file `a/b` keeps `a`; rolling back everything made removes it too. */
  lemma RollbackExample()
    ensures RollbackSpec(Fs({["a", "b"]}, {["a"]}), [["a", "b"]]) == Deletion(Fs({}, {["a"]}), [])
    ensures RollbackSpec(Fs({["a", "b"]}, {["a"]}), [["a"], ["a", "b"]]) == Deletion(Fs({}, {}), [])
  {
    var a, ab: Path := ["a"], ["a", "b"];
    var fs1 := Fs({ab}, {a});
    assert FilesIn(fs1, [ab]) == [ab];
    assert DirsIn(fs1, [ab]) == [];
    assert [a, ab][..1] == [a];
    assert FilesIn(fs1, [a, ab]) == [ab];
    assert DirsIn(fs1, [a, ab]) == [a];
    assert DeepestFirst([a]) == [a];
    assert CanRmdir(Fs({}, {a}), a);
  }

  /**
   * The executor as written leaves behind a directory it created: `a` is
   * made implicitly as the parent of `a/b`, is never recorded, and so is
   * still there after `a/b/c` fails (its parent `a/b` is a file) and the
   * run is rolled back. The corrected executor removes it.
   */
  lemma ImplicitParentLeftBehind()
    ensures ExecuteSpec(Fs({}, {}), ["a/b", "a/b/c"], None) == Run(Fs({}, {["a"]}), RolledBack(1, []))
    ensures AtomicSpec(Fs({}, {}), ["a/b", "a/b/c"], None) == Run(Fs({}, {}), RolledBack(1, []))
  {
    WalkExample();
    RollbackExample();
  }
}
