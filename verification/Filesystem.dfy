/**
 Filesystem backup and restore: a pruned walk turns a directory tree into a list of
 archive entries, and extracting the list turns it into a tree again. The tar and gzip
 encodings of the list are not modelled.
 */
module Filesystem {
  import opened Common

  type Path = seq<string>

  /** A directory tree. `Special` stands for sockets, pipes and devices. */
  datatype Node = File(data: Bytes) | Dir(children: Children) | Link | Special
  datatype Children = Nil | Cons(name: string, node: Node, rest: Children)

  datatype Entry = DirEntry(name: string) | FileEntry(name: string, data: Bytes) | LinkEntry(name: string)
      | OtherEntry(name: string)

  predicate ValidName(name: string) {
    name != "" && name != "." && name != ".." && '/' !in name
  }

  function Find(cs: Children, name: string): Option<Node> {
    if cs.Nil? then None else if cs.name == name then Some(cs.node) else Find(cs.rest, name)
  }

  /** Names are legal and no directory holds a name twice. */
  predicate ValidTree(node: Node) {
    node.Dir? ==> ValidChildren(node.children)
  }

  predicate ValidChildren(cs: Children) {
    cs.Cons? ==> ValidName(cs.name) && Find(cs.rest, cs.name).None? && ValidTree(cs.node) && ValidChildren(cs.rest)
  }

  function Lookup(node: Node, path: Path): Option<Node>
    decreases |path|
  {
    if path == [] then Some(node)
    else if !node.Dir? then None
    else
      match Find(node.children, path[0])
      case None => None
      case Some(child) => Lookup(child, path[1..])
  }

  /** A path below the source root, as the walk reports it. */
  function Rel(path: Path): string {
    if path == [] then "." else if |path| == 1 then path[0] else path[0] + "/" + Rel(path[1..])
  }

  // ----- The walk -----

  function EntryFor(rel: Path, node: Node): Entry {
    match node
    case File(data) => FileEntry(Rel(rel), data)
    case Dir(_) => DirEntry(Rel(rel))
    case Link => LinkEntry(Rel(rel))
    case Special => OtherEntry(Rel(rel))
  }

  /** The entries for a node: nothing at all below a directory that is not included. */
  function Walk(inc: Path -> bool, rel: Path, node: Node): seq<Entry>
    decreases node
  {
    if !inc(rel) then []
    else
      (if rel == [] || node.Special? then [] else [EntryFor(rel, node)])
      + if node.Dir? then WalkAll(inc, rel, node.children) else []
  }

  function WalkAll(inc: Path -> bool, rel: Path, cs: Children): seq<Entry>
    decreases cs
  {
    if cs.Nil? then [] else Walk(inc, rel + [cs.name], cs.node) + WalkAll(inc, rel, cs.rest)
  }

  function BytesOf(es: seq<Entry>): nat {
    if es == [] then 0
    else BytesOf(es[..|es| - 1]) + if es[|es| - 1].FileEntry? then |es[|es| - 1].data| else 0
  }

  function FilesOf(es: seq<Entry>): nat {
    if es == [] then 0 else FilesOf(es[..|es| - 1]) + if es[|es| - 1].FileEntry? then 1 else 0
  }

  class Archiver {
    const inc: Path -> bool
    var entries: seq<Entry>
    var bytesRead: nat
    var filesCount: nat

    ghost predicate Tallied()
      reads this
    {
      bytesRead == BytesOf(entries) && filesCount == FilesOf(entries)
    }

    constructor (inc: Path -> bool)
      ensures Tallied() && entries == [] && this.inc == inc
    {
      this.inc, entries, bytesRead, filesCount := inc, [], 0, 0;
    }

    method WriteEntry(rel: Path, node: Node)
      requires Tallied()
      modifies this
      ensures Tallied() && entries == old(entries) + [EntryFor(rel, node)]
    {
      assert (entries + [EntryFor(rel, node)])[..|entries|] == entries;
      entries := entries + [EntryFor(rel, node)];
      if node.File? {
        bytesRead := bytesRead + |node.data|;
        filesCount := filesCount + 1;
      }
    }

    method Visit(rel: Path, node: Node)
      requires Tallied()
      modifies this
      ensures Tallied() && entries == old(entries) + Walk(inc, rel, node)
      decreases node, 1
    {
      ghost var was := entries;
      if !inc(rel) {
        return;
      }
      if rel != [] && !node.Special? {
        WriteEntry(rel, node);
      }
      ghost var own := if rel == [] || node.Special? then [] else [EntryFor(rel, node)];
      assert entries == was + own;
      if node.Dir? {
        VisitAll(rel, node.children);
        Assoc(was, own, WalkAll(inc, rel, node.children));
      }
    }

    method VisitAll(rel: Path, cs: Children)
      requires Tallied()
      modifies this
      ensures Tallied() && entries == old(entries) + WalkAll(inc, rel, cs)
      decreases cs, 0
    {
      if cs.Cons? {
        ghost var was := entries;
        Visit(rel + [cs.name], cs.node);
        VisitAll(rel, cs.rest);
        Assoc(was, Walk(inc, rel + [cs.name], cs.node), WalkAll(inc, rel, cs.rest));
      }
    }
  }

  datatype BackupResult = BackupResult(archive: seq<Entry>, bytesRead: nat, filesCount: nat)

  /** What a source yields: a directory is walked, anything else is one entry. */
  function Listing(inc: Path -> bool, base: string, source: Node): seq<Entry> {
    if source.Dir? then Walk(inc, [], source) else [EntryFor([base], source)]
  }

  /** A backup with no regular file in it is an error. */
  method BackupFilesystem(inc: Path -> bool, base: string, source: Node) returns (r: Option<BackupResult>)
    ensures r.Some? <==> exists i :: 0 <= i < |Listing(inc, base, source)| && Listing(inc, base, source)[i].FileEntry?
    ensures r.Some? ==>
              && r.value.archive == Listing(inc, base, source)
              && r.value.bytesRead == BytesOf(r.value.archive) && r.value.filesCount == FilesOf(r.value.archive)
  {
    var a := new Archiver(inc);
    if source.Dir? {
      a.Visit([], source);
    } else {
      a.WriteEntry([base], source);
    }
    assert a.entries == Listing(inc, base, source);
    FilesCounted(a.entries);
    if a.filesCount == 0 {
      return None;
    }
    return Some(BackupResult(a.entries, a.bytesRead, a.filesCount));
  }

  lemma {:induction false} FilesCounted(es: seq<Entry>)
    ensures FilesOf(es) > 0 <==> exists i :: 0 <= i < |es| && es[i].FileEntry?
  {
    if es != [] {
      var init := es[..|es| - 1];
      FilesCounted(init);
      assert forall i :: 0 <= i < |init| ==> es[i] == init[i];
      if FilesOf(init) > 0 {
        var i :| 0 <= i < |init| && init[i].FileEntry?;
        assert es[i].FileEntry?;
      } else if exists i :: 0 <= i < |es| && es[i].FileEntry? {
        var i :| 0 <= i < |es| && es[i].FileEntry?;
        assert i == |init|;
      }
    }
  }

  // ----- What the walk archives -----

  /** The node at path s below `node` survives the pruning. */
  predicate Kept(inc: Path -> bool, rel: Path, node: Node, s: Path)
    decreases |s|
  {
    inc(rel)
    && if s == [] then !node.Special? else node.Dir? && KeptIn(inc, rel, node.children, s)
  }

  predicate KeptIn(inc: Path -> bool, rel: Path, cs: Children, s: Path)
    requires s != []
    decreases |s|, 0
  {
    Find(cs, s[0]).Some? && Kept(inc, rel + [s[0]], Find(cs, s[0]).value, s[1..])
  }

  /** Kept means: it is there, and it and every directory above it are included. */
  lemma {:induction false} KeptIffAllIncluded(inc: Path -> bool, rel: Path, node: Node, s: Path)
    ensures Kept(inc, rel, node, s) <==>
              Lookup(node, s).Some? && !Lookup(node, s).value.Special? && forall i :: 0 <= i <= |s| ==>
                  inc(rel + s[..i])
    decreases |s|
  {
    assert rel + s[..0] == rel;
    if s == [] {
      assert forall i :: 0 <= i <= |s| ==> s[..i] == [];
    } else if node.Dir? && Find(node.children, s[0]).Some? {
      var rel', child, t := rel + [s[0]], Find(node.children, s[0]).value, s[1..];
      KeptIffAllIncluded(inc, rel', child, t);
      assert forall i :: 0 <= i <= |t| ==> rel' + t[..i] == rel + s[..i + 1];
      if forall i :: 0 <= i <= |t| ==> inc(rel' + t[..i]) {
        forall i | 0 < i <= |s| ensures inc(rel + s[..i]) {
          assert rel' + t[..i - 1] == rel + s[..i];
        }
      }
    }
  }

  // ----- Extraction -----

  /** What a path of the destination filesystem holds; the root is always a directory.
      A `FileLink` is a symbolic link to a file, or to where one may be made. */
  datatype Item = Directory | Regular(data: Bytes) | FileLink(to: Path)
  type Disk = map<Path, Item>

  predicate IsDir(d: Disk, p: Path) {
    p == [] || (p in d && d[p].Directory?)
  }

  /** Create p and whatever is missing above it; fails on a file, or a link to one, in the way. */
  function MkdirAll(d: Disk, p: Path): (r: Option<Disk>)
    ensures r.Some? ==> IsDir(r.value, p)
  {
    if p == [] then Some(d)
    else
      match MkdirAll(d, p[..|p| - 1])
      case None => None
      case Some(d') => if p in d' then if d'[p].Directory? then Some(d') else None else Some(d'[p := Directory])
  }

  /** Joining a name to an absolute path and cleaning the result. */
  function Resolve(at: Path, parts: seq<string>): Path
    decreases |parts|
  {
    if parts == [] then at
    else if parts[0] == "" || parts[0] == "." then Resolve(at, parts[1..])
    else if parts[0] == ".." then Resolve(if at == [] then [] else at[..|at| - 1], parts[1..])
    else Resolve(at + [parts[0]], parts[1..])
  }

  /** The comparison of cleaned paths: under the root destination only the root itself passes. */
  predicate Inside(dest: Path, target: Path) {
    target == dest || (dest != [] && dest < target)
  }

  function Parent(p: Path): Path {
    if p == [] then [] else p[..|p| - 1]
  }

  datatype Progress = Progress(ok: bool, disk: Disk, written: nat)

  /** One entry: whether it succeeds, the disk after it and the bytes it wrote. */
  function ExtractOne(d: Disk, dest: Path, e: Entry): Progress {
    var target := Resolve(dest, Split(e.name, '/'));
    if !Inside(dest, target) then Progress(false, d, 0)
    else
      match e
      case DirEntry(_) => ExtractDir(d, target)
      case FileEntry(_, data) => ExtractFile(d, target, data)
      case LinkEntry(_) => Progress(false, d, 0)
      case OtherEntry(_) => Progress(true, d, 0)
  }

  function ExtractDir(d: Disk, target: Path): Progress {
    match MkdirAll(d, target)
    case None => Progress(false, d, 0)
    case Some(d') => Progress(true, d', 0)
  }

  predicate IsLink(d: Disk, p: Path) {
    p in d && d[p].FileLink?
  }

  /** Open a path for writing and fill it: a link is followed to its file. */
  function Fill(d: Disk, p: Path, data: Bytes): Disk {
    d[if IsLink(d, p) then d[p].to else p := Regular(data)]
  }

  /** A file is not written onto a link. */
  function ExtractFile(d: Disk, target: Path, data: Bytes): Progress {
    if IsLink(d, target) then Progress(false, d, 0)
    else
      match MkdirAll(d, Parent(target))
      case None => Progress(false, d, 0)
      case Some(d') =>
        if IsDir(d', target) then Progress(false, d', 0) else Progress(true, Fill(d', target, data), |data|)
  }

  function Advance(q: Progress, dest: Path, e: Entry): Progress {
    if !q.ok then q
    else
      var one := ExtractOne(q.disk, dest, e);
      Progress(one.ok, one.disk, q.written + one.written)
  }

  /** All entries in order, up to the first that fails. */
  function Extract(d: Disk, dest: Path, es: seq<Entry>): Progress {
    if es == [] then Progress(true, d, 0) else Advance(Extract(d, dest, es[..|es| - 1]), dest, es[|es| - 1])
  }

  /** A whole restore: without a destination it is an error; otherwise the destination
      is made first, even for an archive without entries. */
  function Restore(d: Disk, dest: Option<Path>, es: seq<Entry>): Progress {
    match dest
    case None => Progress(false, d, 0)
    case Some(p) =>
      match MkdirAll(d, p)
      case None => Progress(false, d, 0)
      case Some(made) => Extract(made, p, es)
  }

  lemma {:induction false} FailureSticks(d: Disk, dest: Path, es: seq<Entry>, i: nat)
    requires i <= |es| && !Extract(d, dest, es[..i]).ok
    ensures Extract(d, dest, es) == Extract(d, dest, es[..i])
    decreases |es|
  {
    if i == |es| {
      assert es[..i] == es;
    } else {
      assert es[..|es| - 1][..i] == es[..i];
      FailureSticks(d, dest, es[..|es| - 1], i);
    }
  }

  class FileSystem {
    var disk: Disk

    constructor (d: Disk)
      ensures disk == d
    {
      disk := d;
    }

    method MakeDirectories(p: Path) returns (ok: bool)
      modifies this
      ensures Progress(ok, disk, 0) == ExtractDir(old(disk), p)
    {
      var r := MkdirAll(disk, p);
      ok := r.Some?;
      if ok {
        disk := r.value;
      }
    }

    method WriteFile(target: Path, data: Bytes) returns (ok: bool, n: nat)
      modifies this
      ensures Progress(ok, disk, n) == ExtractFile(old(disk), target, data)
    {
      n := 0;
      if IsLink(disk, target) {
        return false, 0;
      }
      ok := MakeDirectories(Parent(target));
      if ok {
        if IsDir(disk, target) {
          ok := false;
        } else {
          disk := Fill(disk, target, data);
          n := |data|;
        }
      }
    }

    method RestoreEntry(dest: Path, e: Entry) returns (ok: bool, n: nat)
      modifies this
      ensures Progress(ok, disk, n) == ExtractOne(old(disk), dest, e)
    {
      var target := Resolve(dest, Split(e.name, '/'));
      ok, n := false, 0;
      if Inside(dest, target) {
        match e
        case DirEntry(_) => ok := MakeDirectories(target);
        case FileEntry(_, data) => ok, n := WriteFile(target, data);
        case LinkEntry(_) =>
        case OtherEntry(_) => ok := true;
      }
    }

    /** Makes the destination, if one is given, then restores the entries in order and
        stops at the first error. */
    method RestoreLocal(dest: Option<Path>, archive: seq<Entry>) returns (ok: bool, written: nat)
      modifies this
      ensures Progress(ok, disk, written) == Restore(old(disk), dest, archive)
    {
      if dest.None? {
        return false, 0;
      }
      written := 0;
      ok := MakeDirectories(dest.value);
      if ok {
        ok, written := ExtractAll(dest.value, archive);
      }
    }

    method ExtractAll(dest: Path, archive: seq<Entry>) returns (ok: bool, written: nat)
      modifies this
      ensures Progress(ok, disk, written) == Extract(old(disk), dest, archive)
    {
      ghost var start := disk;
      ok, written := true, 0;
      for i := 0 to |archive|
        invariant ok && Progress(ok, disk, written) == Extract(start, dest, archive[..i])
      {
        assert archive[..i + 1][..i] == archive[..i];
        var n;
        ok, n := RestoreEntry(dest, archive[i]);
        written := written + n;
        if !ok {
          FailureSticks(start, dest, archive, i + 1);
          return;
        }
      }
      assert archive[..|archive|] == archive;
    }
  }

  // ----- Nothing outside the destination is touched -----

  /** From d to d': below `dest` anything may change; at or above it directories may be
      created; everything else is as it was. */
  ghost predicate Confined(dest: Path, d: Disk, d': Disk) {
    forall p :: !(dest <= p) ==>
      && (p in d ==> p in d' && d'[p] == d[p])
      && (p in d' && p !in d ==> p < dest && d'[p].Directory?)
  }

  lemma {:induction false} MkdirAllConfined(dest: Path, d: Disk, p: Path)
    requires dest <= p || p < dest
    requires MkdirAll(d, p).Some?
    ensures Confined(dest, d, MkdirAll(d, p).value)
    decreases |p|
  {
    if p != [] {
      var q := p[..|p| - 1];
      assert dest <= q || q < dest;
      MkdirAllConfined(dest, d, q);
    }
  }

  /** Links are neither made, nor removed, nor changed. */
  ghost predicate LinksStay(d: Disk, d': Disk) {
    forall p :: (IsLink(d, p) || IsLink(d', p)) ==> p in d && p in d' && d[p] == d'[p]
  }

  lemma {:induction false} MkdirAllLeavesLinks(d: Disk, p: Path)
    requires MkdirAll(d, p).Some?
    ensures LinksStay(d, MkdirAll(d, p).value)
    decreases |p|
  {
    if p != [] {
      MkdirAllLeavesLinks(d, p[..|p| - 1]);
    }
  }

  lemma ExtractOneConfined(dest: Path, d: Disk, e: Entry)
    ensures Confined(dest, d, ExtractOne(d, dest, e).disk)
    ensures LinksStay(d, ExtractOne(d, dest, e).disk)
  {
    var target := Resolve(dest, Split(e.name, '/'));
    if Inside(dest, target) {
      var up := Parent(target);
      assert dest <= up || up < dest;
      if MkdirAll(d, target).Some? {
        MkdirAllConfined(dest, d, target);
        MkdirAllLeavesLinks(d, target);
      }
      if MkdirAll(d, up).Some? {
        MkdirAllConfined(dest, d, up);
        MkdirAllLeavesLinks(d, up);
        assert !IsLink(d, target) ==> !IsLink(MkdirAll(d, up).value, target);
      }
    }
  }

  lemma {:induction false} ExtractIsConfined(dest: Path, d: Disk, es: seq<Entry>)
    ensures Confined(dest, d, Extract(d, dest, es).disk) && LinksStay(d, Extract(d, dest, es).disk)
    decreases |es|
  {
    if es != [] {
      var before := Extract(d, dest, es[..|es| - 1]);
      ExtractIsConfined(dest, d, es[..|es| - 1]);
      if before.ok {
        ExtractOneConfined(dest, before.disk, es[|es| - 1]);
      }
    }
  }

  /** Whatever the archive holds, restoring it leaves everything outside the destination
      as it was, except that missing directories above the destination are created. This
      includes the files that links inside the destination lead to; the links stay too. */
  lemma RestoreIsConfined(dest: Path, d: Disk, es: seq<Entry>)
    ensures Confined(dest, d, Restore(d, Some(dest), es).disk)
    ensures LinksStay(d, Restore(d, Some(dest), es).disk)
  {
    if MkdirAll(d, dest).Some? {
      MkdirAllConfined(dest, d, dest);
      MkdirAllLeavesLinks(d, dest);
      ExtractIsConfined(dest, MkdirAll(d, dest).value, es);
    }
  }

  /** Under the root destination every entry is refused unless its name resolves to the root. */
  lemma RootDestinationRefuses(d: Disk, es: seq<Entry>)
    requires es != [] && Resolve([], Split(es[0].name, '/')) != []
    ensures Restore(d, Some([]), es) == Progress(false, d, 0)
  {
    assert es[..1][..0] == [];
    assert !Extract(d, [], es[..1]).ok;
    FailureSticks(d, [], es, 1);
  }

  // ----- A restore rebuilds what was kept -----

  predicate ValidPath(p: Path) {
    forall i :: 0 <= i < |p| ==> ValidName(p[i])
  }

  lemma {:induction false} SplitRel(p: Path)
    requires p != [] && ValidPath(p)
    ensures Split(Rel(p), '/') == p
  {
    if |p| == 1 {
      SplitWord(p[0], '/');
    } else {
      var rest := p[1..];
      assert p == [p[0]] + rest;
      SplitRel(rest);
      SplitJoined(p[0], '/', Rel(rest));
      assert Rel(p) == p[0] + "/" + Rel(rest);
    }
  }

  lemma {:induction false} ResolveValid(at: Path, p: Path)
    requires ValidPath(p)
    ensures Resolve(at, p) == at + p
    decreases |p|
  {
    if p != [] {
      ResolveValid(at + [p[0]], p[1..]);
      assert at + [p[0]] + p[1..] == at + p;
    }
  }

  /** The name of an entry leads back to the path it was made from. */
  lemma NameLeadsBack(dest: Path, rel: Path)
    requires dest != [] && rel != [] && ValidPath(rel)
    ensures Resolve(dest, Split(Rel(rel), '/')) == dest + rel && Inside(dest, dest + rel)
  {
    SplitRel(rel);
    ResolveValid(dest, rel);
  }

  lemma {:induction false} ExtractConcat(d: Disk, dest: Path, a: seq<Entry>, b: seq<Entry>)
    requires Extract(d, dest, a).ok
    ensures var q := Extract(d, dest, a);
            var r := Extract(q.disk, dest, b);
            Extract(d, dest, a + b) == Progress(r.ok, r.disk, q.written + r.written)
    decreases |b|
  {
    if b == [] {
      assert a + b == a;
    } else {
      ExtractConcat(d, dest, a, b[..|b| - 1]);
      assert (a + b)[..|a + b| - 1] == a + b[..|b| - 1];
    }
  }

  /** A restore that succeeds has written as many bytes as the archive's files hold. */
  lemma {:induction false} WrittenIsBytes(d: Disk, dest: Path, es: seq<Entry>)
    requires Extract(d, dest, es).ok
    ensures Extract(d, dest, es).written == BytesOf(es)
  {
    if es != [] {
      WrittenIsBytes(d, dest, es[..|es| - 1]);
    }
  }

  predicate NoLinks(es: seq<Entry>) {
    forall i :: 0 <= i < |es| ==> !es[i].LinkEntry?
  }

  lemma LinksFail(d: Disk, dest: Path, es: seq<Entry>)
    requires !NoLinks(es)
    ensures !Extract(d, dest, es).ok
  {
    var i :| 0 <= i < |es| && es[i].LinkEntry?;
    assert es[..i + 1][..i] == es[..i];
    assert !Extract(d, dest, es[..i + 1]).ok;
    FailureSticks(d, dest, es, i + 1);
  }

  /** All of p is there, as directories. */
  ghost predicate Made(d: Disk, p: Path) {
    forall i :: 0 < i <= |p| ==> IsDir(d, p[..i])
  }

  lemma {:induction false} MadeIsMade(d: Disk, p: Path)
    requires Made(d, p)
    ensures MkdirAll(d, p) == Some(d)
    decreases |p|
  {
    if p != [] {
      var q := p[..|p| - 1];
      assert forall i :: 0 < i <= |q| ==> q[..i] == p[..i];
      MadeIsMade(d, q);
      assert p[..|p|] == p;
    }
  }

  lemma MakeOne(d: Disk, p: Path)
    requires p != [] && Made(d, Parent(p)) && p !in d
    ensures MkdirAll(d, p) == Some(d[p := Directory]) && Made(d[p := Directory], p)
  {
    MadeIsMade(d, Parent(p));
    assert forall i :: 0 < i < |p| ==> Parent(p)[..i] == p[..i];
    assert p[..|p|] == p;
  }

  function ItemOf(node: Option<Node>): Option<Item> {
    match node
    case Some(Dir(_)) => Some(Directory)
    case Some(File(data)) => Some(Regular(data))
    case _ => None
  }

  function At(d: Disk, p: Path): Option<Item> {
    if p in d then Some(d[p]) else None
  }

  /** d' is d with the kept part of `node` in place of `at`. */
  ghost predicate Grafted(inc: Path -> bool, d: Disk, d': Disk, at: Path, rel: Path, node: Node) {
    forall p :: At(d', p) ==
      if at <= p then (if Kept(inc, rel, node, p[|at|..]) then ItemOf(Lookup(node, p[|at|..])) else None)
      else At(d, p)
  }

  ghost predicate GraftedIn(inc: Path -> bool, d: Disk, d': Disk, at: Path, rel: Path, cs: Children) {
    forall p :: At(d', p) ==
      if at < p && Find(cs, p[|at|]).Some? then
        (if KeptIn(inc, rel, cs, p[|at|..]) then ItemOf(Lookup(Dir(cs), p[|at|..])) else None)
      else At(d, p)
  }

  lemma NoLinksConcat(a: seq<Entry>, b: seq<Entry>)
    ensures NoLinks(a + b) <==> NoLinks(a) && NoLinks(b)
  {
    if NoLinks(a + b) {
      assert forall i :: 0 <= i < |a| ==> a[i] == (a + b)[i];
      assert forall i :: 0 <= i < |b| ==> b[i] == (a + b)[|a| + i];
    }
  }

  lemma GraftDir(inc: Path -> bool, d: Disk, d': Disk, at: Path, rel: Path, cs: Children)
    requires (forall p :: at <= p ==> p !in d) && inc(rel)
    requires GraftedIn(inc, d[at := Directory], d', at, rel, cs)
    ensures Grafted(inc, d, d', at, rel, Dir(cs))
  {
    forall p
      ensures At(d', p) == if at <= p
                then (if Kept(inc, rel, Dir(cs), p[|at|..]) then ItemOf(Lookup(Dir(cs), p[|at|..])) else None)
                           else At(d, p)
    {
      if at == p {
        assert p[|at|..] == [];
        assert Kept(inc, rel, Dir(cs), []);
      } else if at <= p {
        var s := p[|at|..];
        assert at < p && s[0] == p[|at|];
        assert Kept(inc, rel, Dir(cs), s) == KeptIn(inc, rel, cs, s);
        assert Find(cs, s[0]).None? ==> At(d', p) == At(d[at := Directory], p);
      }
    }
  }

  lemma GraftCons(inc: Path -> bool, d: Disk, d': Disk, d'': Disk, at: Path, rel: Path, cs: Children)
    requires cs.Cons? && Find(cs.rest, cs.name).None?
    requires Grafted(inc, d, d', at + [cs.name], rel + [cs.name], cs.node)
    requires GraftedIn(inc, d', d'', at, rel, cs.rest)
    ensures GraftedIn(inc, d, d'', at, rel, cs)
  {
    forall p
      ensures At(d'', p) == if at < p && Find(cs, p[|at|]).Some? then
                              (if KeptIn(inc, rel, cs, p[|at|..]) then ItemOf(Lookup(Dir(cs), p[|at|..])) else None)
                            else At(d, p)
    {
      if at < p {
        var s := p[|at|..];
        assert s[0] == p[|at|];
        if s[0] == cs.name {
          assert at + [cs.name] <= p && p[|at| + 1..] == s[1..];
        } else {
          assert !(at + [cs.name] <= p);
        }
      } else {
        assert !(at + [cs.name] <= p);
      }
    }
  }

  lemma ExtractSingle(d: Disk, dest: Path, e: Entry)
    ensures Extract(d, dest, [e]) == ExtractOne(d, dest, e)
  {
    assert [e][..0] == [];
    assert Extract(d, dest, [e][..0]) == Progress(true, d, 0);
  }

  lemma RebuildLeaf(inc: Path -> bool, d: Disk, dest: Path, rel: Path, node: Node)
    requires dest != [] && rel != [] && ValidPath(rel) && node.File? && inc(rel)
    requires Made(d, Parent(dest + rel)) && (forall p :: dest + rel <= p ==> p !in d)
    ensures var q := Extract(d, dest, [EntryFor(rel, node)]); q.ok && Grafted(inc, d, q.disk, dest + rel, rel, node)
  {
    NameLeadsBack(dest, rel);
    MadeIsMade(d, Parent(dest + rel));
    var at, e := dest + rel, EntryFor(rel, node);
    ExtractSingle(d, dest, e);
    assert at <= at && !IsDir(d, at);
    assert ExtractOne(d, dest, e) == Progress(true, d[at := Regular(node.data)], |node.data|);
    var d' := Extract(d, dest, [e]).disk;
    assert d' == d[at := Regular(node.data)];
    forall p | at <= p
      ensures At(d', p) == if Kept(inc, rel, node, p[|at|..]) then ItemOf(Lookup(node, p[|at|..])) else None
    {
      var s := p[|at|..];
      assert p == at + s && p !in d;
      if s == [] {
        assert p == at && Kept(inc, rel, node, []);
        assert At(d', p) == Some(Regular(node.data));
      } else {
        assert p != at && !Kept(inc, rel, node, s);
      }
    }
  }

  lemma {:induction false} RebuildNode(inc: Path -> bool, d: Disk, dest: Path, rel: Path, node: Node)
    requires dest != [] && rel != [] && ValidPath(rel) && ValidTree(node)
    requires Made(d, Parent(dest + rel)) && (forall p :: dest + rel <= p ==> p !in d)
    requires NoLinks(Walk(inc, rel, node))
    ensures var q := Extract(d, dest, Walk(inc, rel, node)); q.ok && Grafted(inc, d, q.disk, dest + rel, rel, node)
    decreases node, 1
  {
    if inc(rel) && !node.Special? {
      var own := [EntryFor(rel, node)];
      if node.Dir? {
        RebuildDir(inc, d, dest, rel, node);
      } else {
        assert Walk(inc, rel, node) == own;
        assert own[0] == EntryFor(rel, node);
        RebuildLeaf(inc, d, dest, rel, node);
      }
    }
  }

  lemma {:induction false} RebuildDir(inc: Path -> bool, d: Disk, dest: Path, rel: Path, node: Node)
    requires dest != [] && rel != [] && ValidPath(rel) && ValidTree(node) && node.Dir? && inc(rel)
    requires Made(d, Parent(dest + rel)) && (forall p :: dest + rel <= p ==> p !in d)
    requires NoLinks(Walk(inc, rel, node))
    ensures var q := Extract(d, dest, Walk(inc, rel, node)); q.ok && Grafted(inc, d, q.disk, dest + rel, rel, node)
    decreases node, 0
  {
    var at, own, below := dest + rel, [EntryFor(rel, node)], WalkAll(inc, rel, node.children);
    NoLinksConcat(own, below);
    NameLeadsBack(dest, rel);
    MakeOne(d, at);
    ExtractSingle(d, dest, own[0]);
    RebuildAll(inc, d[at := Directory], dest, rel, node.children);
    ExtractConcat(d, dest, own, below);
    GraftDir(inc, d, Extract(d, dest, own + below).disk, at, rel, node.children);
  }

  lemma {:induction false} RebuildAll(inc: Path -> bool, d: Disk, dest: Path, rel: Path, cs: Children)
    requires dest != [] && ValidPath(rel) && ValidChildren(cs)
    requires Made(d, dest + rel) && (forall p :: dest + rel < p && Find(cs, p[|dest + rel|]).Some? ==> p !in d)
    requires NoLinks(WalkAll(inc, rel, cs))
    ensures var q := Extract(d, dest, WalkAll(inc, rel, cs)); q.ok && GraftedIn(inc, d, q.disk, dest + rel, rel, cs)
    decreases cs, 0
  {
    if cs.Cons? {
      var at, first, others := rel + [cs.name], Walk(inc, rel + [cs.name], cs.node), WalkAll(inc, rel, cs.rest);
      NoLinksConcat(first, others);
      assert dest + at == (dest + rel) + [cs.name] && Parent(dest + at) == dest + rel;
      RebuildNode(inc, d, dest, at, cs.node);
      var d' := Extract(d, dest, first).disk;
      StillMade(inc, d, d', dest + rel, at, cs);
      RebuildAll(inc, d', dest, rel, cs.rest);
      ExtractConcat(d, dest, first, others);
      GraftCons(inc, d, d', Extract(d, dest, first + others).disk, dest + rel, rel, cs);
    }
  }

  /** Grafting the first child leaves its parent and the places of the others alone. */
  lemma StillMade(inc: Path -> bool, d: Disk, d': Disk, up: Path, rel: Path, cs: Children)
    requires cs.Cons? && Find(cs.rest, cs.name).None?
    requires Made(d, up) && Grafted(inc, d, d', up + [cs.name], rel, cs.node)
    requires forall p :: up < p && Find(cs, p[|up|]).Some? ==> p !in d
    ensures Made(d', up) && (forall p :: up < p && Find(cs.rest, p[|up|]).Some? ==> p !in d')
  {
    forall i | 0 < i <= |up| ensures IsDir(d', up[..i]) {
      assert IsDir(d, up[..i]) && At(d', up[..i]) == At(d, up[..i]);
    }
    forall p | up < p && Find(cs.rest, p[|up|]).Some? ensures p !in d' {
      assert p[|up|] != cs.name && !(up + [cs.name] <= p);
      assert At(d', p) == At(d, p);
    }
  }

  // ----- The archive holds exactly what was kept -----

  /** e is the entry of the kept node at path s below `node`. */
  predicate IsEntry(inc: Path -> bool, rel: Path, node: Node, s: Path, e: Entry) {
    rel + s != [] && Kept(inc, rel, node, s) && Lookup(node, s).Some? && e == EntryFor(rel + s, Lookup(node, s).value)
  }

  predicate IsEntryIn(inc: Path -> bool, rel: Path, cs: Children, s: Path, e: Entry)
    requires s != []
  {
    Find(cs, s[0]).Some? && IsEntry(inc, rel + [s[0]], Find(cs, s[0]).value, s[1..], e)
  }

  /** The archive holds an entry for a node exactly when the node is not a socket, pipe or
      device and it and all directories above it are included. */
  lemma {:induction false} ArchivedIffKept(inc: Path -> bool, rel: Path, node: Node, e: Entry)
    requires ValidTree(node)
    ensures e in Walk(inc, rel, node) <==> exists s :: IsEntry(inc, rel, node, s, e)
    decreases node, 1
  {
    if inc(rel) {
      var own := rel != [] && !node.Special? && e == EntryFor(rel, node);
      if own {
        assert rel + [] == rel && IsEntry(inc, rel, node, [], e);
      }
      if node.Dir? {
        AllArchivedIffKept(inc, rel, node.children, e);
        if e in WalkAll(inc, rel, node.children) {
          var s :| s != [] && IsEntryIn(inc, rel, node.children, s, e);
          DeeperEntry(inc, rel, node, s, e);
        }
      }
      forall s | IsEntry(inc, rel, node, s, e) ensures e in Walk(inc, rel, node) {
        if s == [] {
          assert rel + s == rel;
        } else {
          DeeperEntry(inc, rel, node, s, e);
        }
      }
    } else {
      assert forall s :: !Kept(inc, rel, node, s);
    }
  }

  lemma DeeperEntry(inc: Path -> bool, rel: Path, node: Node, s: Path, e: Entry)
    requires node.Dir? && inc(rel) && s != []
    ensures IsEntry(inc, rel, node, s, e) <==> IsEntryIn(inc, rel, node.children, s, e)
  {
    assert rel + [s[0]] + s[1..] == rel + s;
    assert Kept(inc, rel, node, s) == KeptIn(inc, rel, node.children, s);
    if Find(node.children, s[0]).Some? {
      assert Lookup(node, s) == Lookup(Find(node.children, s[0]).value, s[1..]);
    }
  }

  lemma {:induction false} AllArchivedIffKept(inc: Path -> bool, rel: Path, cs: Children, e: Entry)
    requires ValidChildren(cs)
    ensures e in WalkAll(inc, rel, cs) <==> exists s :: s != [] && IsEntryIn(inc, rel, cs, s, e)
    decreases cs, 0
  {
    if cs.Cons? {
      var at := rel + [cs.name];
      ArchivedIffKept(inc, at, cs.node, e);
      AllArchivedIffKept(inc, rel, cs.rest, e);
      if e in Walk(inc, at, cs.node) {
        var t :| IsEntry(inc, at, cs.node, t, e);
        assert ([cs.name] + t)[1..] == t;
        assert IsEntryIn(inc, rel, cs, [cs.name] + t, e);
      }
      if e in WalkAll(inc, rel, cs.rest) {
        var s :| s != [] && IsEntryIn(inc, rel, cs.rest, s, e);
        assert IsEntryIn(inc, rel, cs, s, e);
      }
      forall s: Path | s != [] && IsEntryIn(inc, rel, cs, s, e) ensures e in WalkAll(inc, rel, cs) {
        if s[0] == cs.name {
          assert IsEntry(inc, at, cs.node, s[1..], e);
        } else {
          assert IsEntryIn(inc, rel, cs.rest, s, e);
        }
      }
    }
  }

  predicate DistinctEntries(es: seq<Entry>) {
    forall i, j :: 0 <= i < j < |es| ==> es[i].name != es[j].name
  }

  lemma DistinctConcat(a: seq<Entry>, b: seq<Entry>)
    requires DistinctEntries(a) && DistinctEntries(b)
    requires forall i, j :: 0 <= i < |a| && 0 <= j < |b| ==> a[i].name != b[j].name
    ensures DistinctEntries(a + b)
  {
  }

  lemma DistinctRels(p: Path, q: Path)
    requires p != [] && q != [] && ValidPath(p) && ValidPath(q) && p != q
    ensures Rel(p) != Rel(q)
  {
    SplitRel(p);
    SplitRel(q);
  }

  /** No path is archived twice. */
  lemma {:induction false} ArchivedOnce(inc: Path -> bool, rel: Path, node: Node)
    requires ValidTree(node) && ValidPath(rel)
    ensures DistinctEntries(Walk(inc, rel, node))
    decreases node, 1
  {
    if inc(rel) && node.Dir? {
      var own := if rel == [] then [] else [EntryFor(rel, node)];
      var below := WalkAll(inc, rel, node.children);
      AllArchivedOnce(inc, rel, node.children);
      forall i, j | 0 <= i < |own| && 0 <= j < |below| ensures own[i].name != below[j].name {
        var p := WalkAllNames(inc, rel, node.children, j);
        DistinctRels(rel, p);
      }
      DistinctConcat(own, below);
    }
  }

  lemma {:induction false} AllArchivedOnce(inc: Path -> bool, rel: Path, cs: Children)
    requires ValidChildren(cs) && ValidPath(rel)
    ensures DistinctEntries(WalkAll(inc, rel, cs))
    decreases cs, 0
  {
    if cs.Cons? {
      var at := rel + [cs.name];
      var first, others := Walk(inc, at, cs.node), WalkAll(inc, rel, cs.rest);
      ArchivedOnce(inc, at, cs.node);
      AllArchivedOnce(inc, rel, cs.rest);
      forall i, j | 0 <= i < |first| && 0 <= j < |others| ensures first[i].name != others[j].name {
        var p := WalkNames(inc, at, cs.node, i);
        var q := WalkAllNames(inc, rel, cs.rest, j);
        assert p[|rel|] == at[|rel|] == cs.name;
        DistinctRels(p, q);
      }
      DistinctConcat(first, others);
    }
  }

  // ----- The round trip -----

  /** The destination can be made a directory, and nothing lies below it. */
  ghost predicate EmptyDestination(d: Disk, dest: Path) {
    dest != [] && MkdirAll(d, dest).Some? && forall p :: dest < p ==> p !in d
  }

  lemma {:induction false} MkdirMakes(d: Disk, p: Path)
    requires MkdirAll(d, p).Some?
    ensures Made(MkdirAll(d, p).value, p)
    ensures forall q :: !(q <= p) ==> At(MkdirAll(d, p).value, q) == At(d, q)
    decreases |p|
  {
    if p != [] {
      var up := Parent(p);
      MkdirMakes(d, up);
      var d', made := MkdirAll(d, up).value, MkdirAll(d, p).value;
      forall i | 0 < i <= |p| ensures IsDir(made, p[..i]) {
        if i < |p| {
          assert up[..i] == p[..i] && IsDir(d', up[..i]);
        } else {
          assert p[..i] == p;
        }
      }
      forall q | !(q <= p) ensures At(made, q) == At(d, q) {
        assert !(q <= up);
      }
    }
  }

  /** Every entry is named after a valid path below the root. */
  lemma {:induction false} WalkNames(inc: Path -> bool, rel: Path, node: Node, k: nat) returns (p: Path)
    requires ValidTree(node) && ValidPath(rel) && k < |Walk(inc, rel, node)|
    ensures rel <= p && p != [] && ValidPath(p) && Walk(inc, rel, node)[k].name == Rel(p)
    decreases node, 1
  {
    var own := if rel == [] || node.Special? then [] else [EntryFor(rel, node)];
    if k < |own| {
      p := rel;
    } else {
      p := WalkAllNames(inc, rel, node.children, k - |own|);
    }
  }

  lemma {:induction false} WalkAllNames(inc: Path -> bool, rel: Path, cs: Children, k: nat) returns (p: Path)
    requires ValidChildren(cs) && ValidPath(rel) && k < |WalkAll(inc, rel, cs)|
    ensures rel < p && Find(cs, p[|rel|]).Some?
    ensures p != [] && ValidPath(p) && WalkAll(inc, rel, cs)[k].name == Rel(p)
    decreases cs, 0
  {
    var first := Walk(inc, rel + [cs.name], cs.node);
    if k < |first| {
      p := WalkNames(inc, rel + [cs.name], cs.node, k);
    } else {
      p := WalkAllNames(inc, rel, cs.rest, k - |first|);
    }
  }

  /** No link survives the pruning. */
  ghost predicate NoKeptLink(inc: Path -> bool, source: Node) {
    forall s :: Kept(inc, [], source, s) ==> Lookup(source, s) != Some(Link)
  }

  lemma LinksAreArchived(inc: Path -> bool, source: Node)
    requires source.Dir? && ValidTree(source)
    ensures NoLinks(Walk(inc, [], source)) <==> NoKeptLink(inc, source)
  {
    var es := Walk(inc, [], source);
    if !NoLinks(es) {
      var i :| 0 <= i < |es| && es[i].LinkEntry?;
      ArchivedIffKept(inc, [], source, es[i]);
      var s :| IsEntry(inc, [], source, s, es[i]);
      assert Kept(inc, [], source, s) && Lookup(source, s) == Some(Link);
    }
    if !NoKeptLink(inc, source) {
      var s :| Kept(inc, [], source, s) && Lookup(source, s) == Some(Link);
      var e := EntryFor([] + s, Link);
      assert IsEntry(inc, [], source, s, e);
      ArchivedIffKept(inc, [], source, e);
      var i :| 0 <= i < |es| && es[i] == e;
    }
  }

  /** Restoring a backup of a directory into an empty destination works exactly when
      no link survived the pruning. It then writes as many bytes as the backup read, puts
      below the destination exactly the kept part of the tree, item for item, and
      nothing else changes but the directories made above the destination. */
  lemma RestoreRebuildsTree(inc: Path -> bool, base: string, source: Node, d: Disk, dest: Path)
    requires source.Dir? && ValidTree(source) && inc([]) && EmptyDestination(d, dest)
    ensures var es := Listing(inc, base, source);
            var q := Restore(d, Some(dest), es);
            && (q.ok <==> NoKeptLink(inc, source))
            && (q.ok ==>
                 && q.written == BytesOf(es)
                 && (forall s :: s != [] ==>
                      At(q.disk, dest + s) == if Kept(inc, [], source, s) then ItemOf(Lookup(source, s)) else None)
                 && (forall p :: !(dest < p) ==> At(q.disk, p) == At(MkdirAll(d, dest).value, p)))
  {
    var es, made := Walk(inc, [], source), MkdirAll(d, dest).value;
    LinksAreArchived(inc, source);
    if NoLinks(es) {
      MkdirMakes(d, dest);
      assert es == WalkAll(inc, [], source.children) && dest + [] == dest;
      forall p | dest < p ensures p !in made {
        assert At(made, p) == At(d, p);
      }
      RebuildAll(inc, made, dest, [], source.children);
      WrittenIsBytes(made, dest, es);
      ReadGraft(inc, made, Extract(made, dest, es).disk, dest, source);
    } else {
      LinksFail(made, dest, es);
    }
  }

  lemma ReadGraft(inc: Path -> bool, made: Disk, d: Disk, dest: Path, source: Node)
    requires source.Dir? && inc([]) && GraftedIn(inc, made, d, dest, [], source.children)
    requires forall p :: dest < p ==> p !in made
    ensures forall s :: s != [] ==> At(d, dest + s) == if Kept(inc, [], source, s) then ItemOf(Lookup(source, s))
              else None
    ensures forall p :: !(dest < p) ==> At(d, p) == At(made, p)
  {
    forall s: Path | s != []
      ensures At(d, dest + s) == if Kept(inc, [], source, s) then ItemOf(Lookup(source, s)) else None
    {
      var p := dest + s;
      assert dest < p && p[|dest|..] == s && p[|dest|] == s[0];
      assert Kept(inc, [], source, s) == KeptIn(inc, [], source.children, s);
    }
  }

  /** A source that is a single file comes back under its own name. */
  lemma RestoreRebuildsFile(inc: Path -> bool, base: string, data: Bytes, d: Disk, dest: Path)
    requires ValidName(base) && EmptyDestination(d, dest)
    ensures Restore(d, Some(dest), Listing(inc, base, File(data)))
            == Progress(true, MkdirAll(d, dest).value[dest + [base] := Regular(data)], |data|)
  {
    var made, e := MkdirAll(d, dest).value, EntryFor([base], File(data));
    MkdirMakes(d, dest);
    assert At(made, dest + [base]) == At(d, dest + [base]);
    MadeIsMade(made, dest);
    NameLeadsBack(dest, [base]);
    ExtractSingle(made, dest, e);
    assert Parent(dest + [base]) == dest;
  }
}
