/**
 What a restore does to a disk, said about the disk before and after: where an entry's
 name leads, when an entry is restored and what that leaves on every path, and how far a
 restore gets.
 */
module RestoreEffects {
  import opened Common
  import opened Filesystem

  // ----- Where a name leads -----

  lemma {:induction false} ResolveConcat(at: Path, a: seq<string>, b: seq<string>)
    ensures Resolve(at, a + b) == Resolve(Resolve(at, a), b)
    decreases |a|
  {
    if a == [] {
      assert a + b == b;
    } else {
      assert (a + b)[0] == a[0] && (a + b)[1..] == a[1..] + b;
      ResolveConcat(Resolve(at, [a[0]]), a[1..], b);
      ResolveOne(at, a[0], a[1..]);
      ResolveOne(at, a[0], a[1..] + b);
      assert [a[0]] + a[1..] == a && [a[0]] + (a[1..] + b) == a + b;
    }
  }

  lemma ResolveOne(at: Path, name: string, rest: seq<string>)
    ensures Resolve(at, [name] + rest) == Resolve(Resolve(at, [name]), rest)
  {
    assert ([name] + rest)[1..] == rest && [name][1..] == [];
  }

  /** The rules that clean a path: empty parts and dots go, a pair of dots takes the part
      before it away or, at the root, nothing, and all else is kept. */
  lemma PathsAreCleaned(at: Path, a: seq<string>, name: string, b: seq<string>)
    ensures Resolve(at, a + ([""] + b)) == Resolve(at, a + b) && Resolve(at, a + (["."] + b)) == Resolve(at, a + b)
    ensures ValidName(name) ==> Resolve(at, a + ([name] + ([".."] + b))) == Resolve(at, a + b)
    ensures Resolve([], [".."] + b) == Resolve([], b) && Resolve(at + [name], [".."] + b) == Resolve(at, b)
    ensures ValidPath(b) ==> Resolve(at, b) == at + b
  {
    var start := Resolve(at, a);
    ResolveConcat(at, a, b);
    ResolveConcat(at, a, [""] + b);
    ResolveConcat(at, a, ["."] + b);
    ResolveConcat(at, a, [name] + ([".."] + b));
    DotsGo(start, name, b);
    DotsGo(at, name, b);
    if ValidPath(b) {
      ResolveValid(at, b);
    }
  }

  lemma DotsGo(at: Path, name: string, b: seq<string>)
    ensures Resolve(at, [""] + b) == Resolve(at, b) && Resolve(at, ["."] + b) == Resolve(at, b)
    ensures Resolve([], [".."] + b) == Resolve([], b) && Resolve(at + [name], [".."] + b) == Resolve(at, b)
    ensures ValidName(name) ==> Resolve(at, [name] + ([".."] + b)) == Resolve(at, b)
  {
    assert ([""] + b)[1..] == b && (["."] + b)[1..] == b && ([".."] + b)[1..] == b;
    assert ([name] + ([".."] + b))[1..] == [".."] + b;
    assert (at + [name])[..|at|] == at;
  }

  // ----- Making directories -----

  /** No file or link stands where a directory is needed. */
  ghost predicate NothingInTheWay(d: Disk, p: Path) {
    forall i :: 0 < i <= |p| && p[..i] in d ==> d[p[..i]].Directory?
  }

  /** d' is d with directories on the way to p and at p itself. */
  ghost predicate WithDirectories(d: Disk, d': Disk, p: Path) {
    forall q :: At(d', q) == if q != [] && q <= p then Some(Directory) else At(d, q)
  }

  lemma AboveOne(p: Path, q: Path)
    requires p != []
    ensures (q <= p <==> q <= Parent(p) || q == p) && (q < p <==> q <= Parent(p))
  {
    assert p == Parent(p) + [p[|p| - 1]];
    if q <= p {
      assert q == p[..|q|];
      if |q| < |p| {
        assert p[..|q|] == Parent(p)[..|q|];
      }
    }
    if q <= Parent(p) {
      assert q == Parent(p)[..|q|] == p[..|q|];
    }
  }

  lemma MakesOneMore(d: Disk, d': Disk, p: Path)
    requires p != [] && WithDirectories(d, d', Parent(p)) && (p in d' ==> d'[p].Directory?)
    ensures WithDirectories(d, d'[p := Directory], p)
  {
    var made := d'[p := Directory];
    forall q ensures At(made, q) == if q != [] && q <= p then Some(Directory) else At(d, q) {
      AboveOne(p, q);
      assert At(d', q) == if q != [] && q <= Parent(p) then Some(Directory) else At(d, q);
    }
  }

  lemma {:induction false} MakesDirectories(d: Disk, p: Path)
    ensures MkdirAll(d, p).Some? <==> NothingInTheWay(d, p)
    ensures MkdirAll(d, p).Some? ==> WithDirectories(d, MkdirAll(d, p).value, p)
    decreases |p|
  {
    if p != [] {
      var up := p[..|p| - 1];
      MakesDirectories(d, up);
      assert p[..|p|] == p && forall i :: 0 < i <= |up| ==> up[..i] == p[..i];
      assert NothingInTheWay(d, p) <==> NothingInTheWay(d, up) && (p in d ==> d[p].Directory?);
      if MkdirAll(d, up).Some? {
        var d' := MkdirAll(d, up).value;
        assert !(p <= up) && At(d', p) == At(d, p);
        if p !in d || d[p].Directory? {
          MakesOneMore(d, d', p);
          assert p in d' ==> d'[p := Directory] == d';
        }
      }
    }
  }

  // ----- One entry -----

  function TargetOf(dest: Path, e: Entry): Path {
    Resolve(dest, Split(e.name, '/'))
  }

  /** An entry is restored exactly when its name stays at or below the destination, which
      must not be the root, or leads to it; it is no link; directories can be made where it
      needs them; and a file does not come to stand on a directory or a link. */
  lemma EntryIsRestoredIff(d: Disk, dest: Path, e: Entry)
    ensures var target := TargetOf(dest, e);
            ExtractOne(d, dest, e).ok <==>
            && (target == dest || (dest != [] && dest < target))
            && match e
               case DirEntry(_) => NothingInTheWay(d, target)
               case FileEntry(_, _) =>
                 target != [] && NothingInTheWay(d, Parent(target)) && (target in d ==> d[target].Regular?)
               case LinkEntry(_) => false
               case OtherEntry(_) => true
  {
    var target := TargetOf(dest, e);
    MakesDirectories(d, target);
    MakesDirectories(d, Parent(target));
    if MkdirAll(d, Parent(target)).Some? {
      var d' := MkdirAll(d, Parent(target)).value;
      assert At(d', target) == At(d, target);
    }
  }

  /** What a restored entry leaves on every path: its file or directory, the directories
      above it, and all else as it was. */
  lemma EntryWrites(d: Disk, dest: Path, e: Entry, p: Path)
    requires ExtractOne(d, dest, e).ok
    ensures var one := ExtractOne(d, dest, e);
            var target := TargetOf(dest, e);
            match e
            case FileEntry(_, data) =>
              one.written == |data|
              && At(one.disk, p) ==
                   if p == target then Some(Regular(data))
                   else if p != [] && p < target then Some(Directory)
                   else At(d, p)
            case DirEntry(_) =>
              one.written == 0 && At(one.disk, p) == if p != [] && p <= target then Some(Directory) else At(d, p)
            case _ => one.written == 0 && one.disk == d
  {
    var target := TargetOf(dest, e);
    MakesDirectories(d, target);
    MakesDirectories(d, Parent(target));
    if e.FileEntry? {
      var d' := MkdirAll(d, Parent(target)).value;
      assert At(d', target) == At(d, target) && !IsLink(d', target);
      AboveOne(target, p);
      assert At(d', p) == if p != [] && p <= Parent(target) then Some(Directory) else At(d, p);
    }
  }

  /** What a refused entry leaves: at most new directories above where a file was to stand. */
  lemma RefusedEntryWrites(d: Disk, dest: Path, e: Entry, p: Path)
    requires !ExtractOne(d, dest, e).ok
    ensures var one := ExtractOne(d, dest, e);
            && one.written == 0
            && (At(one.disk, p) == At(d, p)
                || (e.FileEntry? && p != [] && p < TargetOf(dest, e) && At(d, p) == None
                    && At(one.disk, p) == Some(Directory)))
  {
    var up := Parent(TargetOf(dest, e));
    MakesDirectories(d, up);
    if e.FileEntry? && p != [] && p <= up {
      assert p == up[..|p|];
    }
  }

  /** Why a file is not written onto a link: it would end up wherever the link leads. */
  lemma GuardIsNeeded(d: Disk, dest: Path, name: string, outside: Path, data: Bytes)
    requires dest != [] && ValidName(name) && dest + [name] in d && d[dest + [name]] == FileLink(outside)
    ensures ExtractOne(d, dest, FileEntry(name, data)) == Progress(false, d, 0)
    ensures forall p :: At(Fill(d, dest + [name], data), p) == if p == outside then Some(Regular(data)) else At(d, p)
  {
    NameLeadsBack(dest, [name]);
  }

  // ----- A whole restore -----

  /** The entries before the n-th take the disk from ds[0] to ds[n]. */
  ghost predicate Restores(dest: Path, es: seq<Entry>, n: nat, ds: seq<Disk>) {
    && n <= |es| && |ds| == n + 1
    && forall i :: 0 <= i < n ==> ExtractOne(ds[i], dest, es[i]).ok && ExtractOne(ds[i], dest, es[i]).disk == ds[i + 1]
  }

  /** It restores n entries and then ends, or fails at the next. */
  ghost predicate Ends(d: Disk, dest: Path, es: seq<Entry>, n: nat, ds: seq<Disk>)
    requires Restores(dest, es, n, ds)
  {
    if n == |es| then Extract(d, dest, es) == Progress(true, ds[n], BytesOf(es))
    else
      var failed := ExtractOne(ds[n], dest, es[n]);
      !failed.ok && Extract(d, dest, es) == Progress(false, failed.disk, BytesOf(es[..n]))
  }

  lemma OneMoreEntry(d: Disk, dest: Path, es: seq<Entry>, n: nat, ds: seq<Disk>) returns (n': nat, ds': seq<Disk>)
    requires es != [] && Restores(dest, es[..|es| - 1], n, ds) && Ends(d, dest, es[..|es| - 1], n, ds) && ds[0] == d
    ensures Restores(dest, es, n', ds') && Ends(d, dest, es, n', ds') && ds'[0] == d
  {
    var init, e := es[..|es| - 1], es[|es| - 1];
    n', ds' := n, ds;
    if n == |init| {
      var one := ExtractOne(ds[n], dest, e);
      if one.ok {
        EntryWrites(ds[n], dest, e, []);
        n', ds' := n + 1, ds + [one.disk];
      } else {
        RefusedEntryWrites(ds[n], dest, e, []);
      }
    } else {
      assert init[..n] == es[..n];
    }
  }

  /** A restore goes on entry by entry up to the first that fails, and counts the bytes of
      the files before it. */
  lemma {:induction false} StopsAtFirstFailure(d: Disk, dest: Path, es: seq<Entry>) returns (n: nat, ds: seq<Disk>)
    ensures Restores(dest, es, n, ds) && Ends(d, dest, es, n, ds) && ds[0] == d
  {
    if es == [] {
      n, ds := 0, [d];
    } else {
      n, ds := StopsAtFirstFailure(d, dest, es[..|es| - 1]);
      n, ds := OneMoreEntry(d, dest, es, n, ds);
    }
  }

  /** The destination comes first: without one, or with something in its way, nothing is
      done; otherwise it is made and the entries follow. */
  lemma DestinationComesFirst(d: Disk, dest: Option<Path>, es: seq<Entry>)
    ensures dest.None? || !NothingInTheWay(d, dest.value) ==> Restore(d, dest, es) == Progress(false, d, 0)
    ensures dest.Some? && NothingInTheWay(d, dest.value) ==>
              exists made :: WithDirectories(d, made, dest.value)
                             && Restore(d, dest, es) == Extract(made, dest.value, es)
  {
    if dest.Some? {
      MakesDirectories(d, dest.value);
    }
  }
}
