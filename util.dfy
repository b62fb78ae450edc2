/**
 * util.go: the store helpers behind replica synchronisation. MakeDirs
 * creates the directories above a path, RecursiveList lists the files of a
 * tree, Copy copies one file and Synchronize copies a user's tree into
 * another user's area, skipping whatever is already there. Access files
 * are never listed or copied.
 */
module Util {
  import opened Results
  import Upspin

  type Path = Upspin.Path

  /** The name of the access-control file of a directory. */
  const AccessName := "Access"

  datatype UtilError =
    | DestinationExists(dst: Path)
    | CopiesAccessFile
    | CreateDirFailed(dir: Path)
    | StoreFailed(cause: Upspin.StoreError)
    | BadPath
    | AccessUnparsable(reason: string)

  // ------------------------------------------------------------------ paths

  /** Join: `u` followed by the elements, as one clean path. */
  function Join(u: Path, paths: seq<string>): (r: Path)
    ensures Upspin.Clean(r)
  {
    Upspin.Join(u + paths)
  }

  /** A clean path stays in front of what is joined to it. */
  lemma JoinExtends(u: Path, paths: seq<string>)
    requires Upspin.Clean(u)
    ensures Join(u, paths) == u + Upspin.Join(paths)
  {
    Upspin.JoinAppend(u, paths);
    Upspin.JoinClean(u);
  }

  /** Joining in two steps is joining once. */
  lemma JoinJoin(u: Path, a: seq<string>, b: seq<string>)
    ensures Join(Join(u, a), b) == Join(u, a + b)
  {
    Upspin.JoinAppend(Join(u, a), b);
    Upspin.JoinClean(Join(u, a));
    assert u + (a + b) == (u + a) + b;
    Upspin.JoinAppend(u + a, b);
  }

  /** `d` lies strictly inside directory `p`. */
  predicate Inside(p: Path, d: Path) {
    |d| > |p| && d[..|p|] == p
  }

  /** `d` is a directory MakeDirs may create for `p`: a non-empty leading part of p's clean form. */
  predicate LeadsTo(d: Path, p: Path) {
    1 <= |d| && d <= Upspin.Join(p)
  }

  /** The join of a single element. */
  lemma JoinOne(x: string)
    ensures Upspin.Join([x]) == if x == "" then [] else [x]
  {
    assert [x][1..] == [];
  }

  /** One more element of `p`: the clean form grows by it unless it is empty. */
  lemma JoinStep(p: Path, i: nat)
    requires i < |p|
    ensures Upspin.Join(p[..i + 1]) == Upspin.Join(p[..i]) + (if p[i] == "" then [] else [p[i]])
  {
    assert p[..i + 1] == p[..i] + [p[i]];
    Upspin.JoinAppend(p[..i], [p[i]]);
    JoinOne(p[i]);
  }

  /** The clean form of a leading part of `p` is a leading part of p's clean form. */
  lemma JoinPrefix(p: Path, i: nat)
    requires i <= |p|
    ensures Upspin.Join(p[..i]) <= Upspin.Join(p)
  {
    assert p == p[..i] + p[i..];
    Upspin.JoinAppend(p[..i], p[i..]);
  }

  /** In a valid store every leading part of a directory is a directory. */
  lemma {:induction false} AncestorsAreDirs(dirs: set<Path>, d: Path)
    requires forall q :: q in dirs ==> |q| >= 1 && (|q| >= 2 ==> Upspin.Dir(q) in dirs)
    requires d in dirs
    ensures forall k :: 1 <= k <= |d| ==> d[..k] in dirs
    decreases |d|
  {
    if |d| >= 2 {
      var up := Upspin.Dir(d);
      AncestorsAreDirs(dirs, up);
      forall k | 1 <= k <= |d| ensures d[..k] in dirs {
        if k < |d| {
          assert d[..k] == up[..k];
        } else {
          assert d[..k] == d;
        }
      }
    } else {
      assert d[..1] == d;
    }
  }

  /** What one step of MakeDirs relies on: the next directory and, for a clean path, that it is the next leading part. */
  lemma MakeDirsStep(p: Path, i: nat)
    requires i < |p|
    ensures Upspin.Join(p[..i + 1]) == Upspin.Join(p[..i]) + (if p[i] == "" then [] else [p[i]])
    ensures p[i] != "" ==> LeadsTo(Upspin.Join(p[..i + 1]), p)
    ensures Upspin.Clean(p) ==> Upspin.Join(p[..i + 1]) == p[..i + 1] && Upspin.Dir(p[..i + 1]) == p[..i]
  {
    JoinStep(p, i);
    JoinPrefix(p, i + 1);
    if Upspin.Clean(p) {
      Upspin.JoinClean(p[..i + 1]);
    }
  }

  // -------------------------------------------------------------- MakeDirs

  /** No leading part of `p` is denied or a file: MakeDirs can build every one. */
  predicate Creatable(files: map<Path, string>, denied: set<Path>, p: Path) {
    |p| >= 1 && forall k :: 1 <= k <= |p| ==> p[..k] !in denied && p[..k] !in files
  }

  /**
   * MakeDirs: nothing to do if `p` exists; otherwise try MakeDirectory on
   * every leading part of `p`, shortest first, ignoring each failure, and
   * succeed exactly when `p` exists afterwards.
   */
  method MakeDirs(cl: Upspin.Client, p: Path) returns (r: Result<(), UtilError>)
    requires cl.Valid()
    modifies cl
    ensures cl.Valid() && cl.files == old(cl.files)
    ensures old(cl.Visible(p)) ==> r.Ok? && cl.dirs == old(cl.dirs)
    ensures r.Ok? <==> cl.Visible(p)
    ensures old(cl.dirs) <= cl.dirs
    ensures forall d :: d in cl.dirs && d !in old(cl.dirs) ==> LeadsTo(d, p)
    ensures Upspin.Clean(p) && Creatable(old(cl.files), cl.denied, p) ==>
      r.Ok? && forall k :: 1 <= k <= |p| ==> p[..k] in cl.dirs
  {
    var found := cl.Lookup(p);
    if found {
      if Upspin.Clean(p) && Creatable(cl.files, cl.denied, p) {
        assert p[..|p|] == p;
        AncestorsAreDirs(cl.dirs, p);
      }
      return Ok(());
    }
    ghost var good := Upspin.Clean(p) && Creatable(cl.files, cl.denied, p);
    var dir: Path := [];
    var i := 0;
    assert p[..0] == [];
    while i < |p|
      invariant 0 <= i <= |p|
      invariant cl.Valid() && cl.files == old(cl.files)
      invariant old(cl.dirs) <= cl.dirs
      invariant forall d :: d in cl.dirs && d !in old(cl.dirs) ==> LeadsTo(d, p)
      invariant dir == Upspin.Join(p[..i])
      invariant good ==> forall k :: 1 <= k <= i ==> p[..k] in cl.dirs
    {
      dir := MakeNext(cl, p, i, dir);
      i := i + 1;
    }
    if good {
      assert p[..|p|] == p;
    }
    found := cl.Lookup(p);
    if !found {
      return Err(CreateDirFailed(p));
    }
    r := Ok(());
  }

  /** One round of MakeDirs's loop: extend `dir` by the next element of `p` and try to create it. */
  method MakeNext(cl: Upspin.Client, p: Path, i: nat, dir: Path) returns (next: Path)
    requires cl.Valid() && i < |p| && dir == Upspin.Join(p[..i])
    modifies cl
    ensures cl.Valid() && cl.files == old(cl.files) && old(cl.dirs) <= cl.dirs
    ensures forall d :: d in cl.dirs && d !in old(cl.dirs) ==> LeadsTo(d, p)
    ensures next == Upspin.Join(p[..i + 1])
    ensures Upspin.Clean(p) && Creatable(cl.files, cl.denied, p) && (forall k :: 1 <= k <= i ==> p[..k] in old(cl.dirs)) ==>
      forall k :: 1 <= k <= i + 1 ==> p[..k] in cl.dirs
  {
    MakeDirsStep(p, i);
    ghost var good := Upspin.Clean(p) && Creatable(cl.files, cl.denied, p) && (forall k :: 1 <= k <= i ==> p[..k] in cl.dirs);
    if good {
      NextCreatable(cl.files, cl.denied, cl.dirs, p, i);
    }
    ghost var before := cl.dirs;
    next := dir;
    if p[i] != "" {
      next := dir + [p[i]];
      var made := cl.MakeDirectory(next);
      OnlyNextLeads(before, cl.dirs, next, p);
    }
    if good {
      PrefixesMade(p, i, old(cl.dirs), cl.dirs);
    }
  }

  /** A step that adds at most `next`, a directory MakeDirs may create, adds nothing else. */
  lemma OnlyNextLeads(before: set<Path>, after: set<Path>, next: Path, p: Path)
    requires after <= before + {next} && LeadsTo(next, p)
    ensures forall d :: d in after && d !in before ==> LeadsTo(d, p)
  {
  }

  /** When every shorter leading part is a directory, the next one is one or can be made. */
  lemma NextCreatable(files: map<Path, string>, denied: set<Path>, dirs: set<Path>, p: Path, i: nat)
    requires i < |p| && Upspin.Clean(p) && Creatable(files, denied, p)
    requires forall k :: 1 <= k <= i ==> p[..k] in dirs
    ensures var q := p[..i + 1];
      q in dirs || (q !in denied && q !in files && |q| >= 1 && (|q| >= 2 ==> Upspin.Dir(q) in dirs))
  {
    var q := p[..i + 1];
    assert q !in denied && q !in files;
    if i >= 1 {
      assert Upspin.Dir(q) == p[..i];
    }
  }

  /** Once the next leading part is a directory, every leading part up to it is. */
  lemma PrefixesMade(p: Path, i: nat, before: set<Path>, after: set<Path>)
    requires i < |p| && before <= after && p[..i + 1] in after
    requires forall k :: 1 <= k <= i ==> p[..k] in before
    ensures forall k :: 1 <= k <= i + 1 ==> p[..k] in after
  {
  }

  // --------------------------------------------------------- RecursiveList

  /** The files RecursiveList reports under `p`: those inside it with no component named Access below `p`. */
  predicate Listed(files: map<Path, string>, p: Path, f: Path) {
    f in files && Inside(p, f) && forall k :: |p| <= k < |f| ==> f[k] != AccessName
  }

  /** No directory inside `p` is denied. */
  predicate OpenBelow(dirs: set<Path>, denied: set<Path>, p: Path) {
    forall d :: d in dirs && Inside(p, d) ==> d !in denied
  }

  /** The directories inside `p`: the measure of the descent. */
  function DirsInside(dirs: set<Path>, p: Path): set<Path> {
    set d | d in dirs && Inside(p, d)
  }

  /** A leading part one longer. */
  lemma SliceStep<T>(s: seq<T>, i: nat)
    requires i < |s|
    ensures s[..i + 1] == s[..i] + [s[i]]
  {
  }

  /** Fewer directories lie inside a child directory than inside its parent. */
  lemma DescentShrinks(dirs: set<Path>, p: Path, c: Path)
    requires c in dirs && Upspin.IsChild(p, c)
    ensures |DirsInside(dirs, c)| < |DirsInside(dirs, p)|
  {
    var inner, outer := DirsInside(dirs, c), DirsInside(dirs, p);
    forall d | d in inner ensures d in outer - {c} {
      assert d[..|p|] == d[..|c|][..|p|];
    }
    assert c in outer;
    assert |outer - {c}| == |outer| - 1;
    SubsetSize(inner, outer - {c});
  }

  /** A subset is no larger. */
  lemma {:induction false} SubsetSize<T>(a: set<T>, b: set<T>)
    requires a <= b
    ensures |a| <= |b|
    decreases a
  {
    if a != {} {
      var x :| x in a;
      SubsetSize(a - {x}, b - {x});
    }
  }

  /** Every entry of `acc` is a file RecursiveList reports under `p`. */
  predicate Sound(files: map<Path, string>, p: Path, acc: seq<Upspin.Entry>) {
    forall e :: e in acc ==> !e.isDir && Listed(files, p, e.name)
  }

  /** Every file reported under `p` through one of the children in `seen` is named in `acc`. */
  ghost predicate Covered(files: map<Path, string>, p: Path, seen: seq<Path>, acc: seq<Upspin.Entry>) {
    forall f :: Listed(files, p, f) && f[..|p| + 1] in seen ==> f in Upspin.Names(acc)
  }

  /** The names of a concatenation of listings. */
  lemma NamesAppend(a: seq<Upspin.Entry>, b: seq<Upspin.Entry>)
    ensures Upspin.Names(a + b) == Upspin.Names(a) + Upspin.Names(b)
  {
    var l, r := Upspin.Names(a + b), Upspin.Names(a) + Upspin.Names(b);
    assert |l| == |r|;
    forall i | 0 <= i < |l| ensures l[i] == r[i] {
      if i >= |a| {
        assert (a + b)[i] == b[i - |a|];
      }
    }
  }

  /**
   * recursiveList: the files of the tree under `p`, depth first in listing
   * order. Entries named Access are skipped, directories descended into, and
   * any failing Glob fails the whole listing.
   */
  method RecursiveList(cl: Upspin.Client, p: Path) returns (r: Result<seq<Upspin.Entry>, Upspin.StoreError>)
    requires cl.Valid()
    ensures !(p in cl.dirs && p !in cl.denied) ==> r.Err?
    ensures p in cl.dirs && p !in cl.denied && OpenBelow(cl.dirs, cl.denied, p) ==> r.Ok?
    ensures r.Ok? ==> Sound(cl.files, p, r.value)
    ensures r.Ok? ==> forall f :: Listed(cl.files, p, f) ==> f in Upspin.Names(r.value)
    decreases |DirsInside(cl.dirs, p)|
  {
    var ents := cl.Glob(p);
    if ents.Err? {
      return Err(ents.error);
    }
    var es := ents.value;
    ghost var names := Upspin.Names(es);
    var acc: seq<Upspin.Entry> := [];
    var i := 0;
    while i < |es|
      invariant 0 <= i <= |es|
      invariant Sound(cl.files, p, acc)
      invariant Covered(cl.files, p, names[..i], acc)
    {
      var ent := es[i];
      assert ent in es;
      SliceStep(names, i);
      if Upspin.Base(ent.name) == AccessName {
        SkipAccess(cl.files, p, ent.name, names[..i], acc);
      } else if ent.isDir {
        DescentShrinks(cl.dirs, p, ent.name);
        OpenBelowChild(cl.dirs, cl.denied, p, ent.name);
        var sub := RecursiveList(cl, ent.name);
        if sub.Err? {
          return Err(sub.error);
        }
        Descend(cl, p, ent.name, sub.value, names[..i], acc);
        acc := acc + sub.value;
      } else {
        TakeFile(cl, p, ent.name, names[..i], acc);
        acc := acc + [ent];
      }
      i := i + 1;
    }
    assert names[..i] == names;
    ListedChildrenSeen(cl, p, es);
    r := Ok(acc);
  }

  /** Below an open directory, a child directory is readable and open too. */
  lemma OpenBelowChild(dirs: set<Path>, denied: set<Path>, p: Path, c: Path)
    requires Upspin.IsChild(p, c)
    ensures OpenBelow(dirs, denied, p) && c in dirs ==> c !in denied && OpenBelow(dirs, denied, c)
  {
    forall d | d in dirs && Inside(c, d) ensures Inside(p, d) {
      assert d[..|p|] == d[..|c|][..|p|];
    }
  }

  /** Every listed file is reached through one of the entries Glob returned for `p`. */
  lemma ListedChildrenSeen(cl: Upspin.Client, p: Path, es: seq<Upspin.Entry>)
    requires cl.Valid()
    requires forall c :: Upspin.IsChild(p, c) && (c in cl.files || c in cl.dirs) ==> c in Upspin.Names(es)
    ensures forall f :: Listed(cl.files, p, f) ==> f[..|p| + 1] in Upspin.Names(es)
  {
    forall f | Listed(cl.files, p, f) ensures f[..|p| + 1] in Upspin.Names(es) {
      ChildOnTheWay(cl, p, f);
    }
  }

  /** Every leading part of a file's path, short of the file itself, is a directory. */
  lemma AncestorOfFile(cl: Upspin.Client, f: Path, k: nat)
    requires cl.Valid() && f in cl.files && 1 <= k
    ensures k < |f| ==> f[..k] in cl.dirs
  {
    if k < |f| {
      AncestorsAreDirs(cl.dirs, Upspin.Dir(f));
      assert f[..k] == Upspin.Dir(f)[..k];
    }
  }

  /** The child of `p` on the way to a listed file is an entry of `p`. */
  lemma ChildOnTheWay(cl: Upspin.Client, p: Path, f: Path)
    requires cl.Valid() && Listed(cl.files, p, f)
    ensures Upspin.IsChild(p, f[..|p| + 1])
    ensures f[..|p| + 1] in cl.files || f[..|p| + 1] in cl.dirs
  {
    AncestorOfFile(cl, f, |p| + 1);
    if |f| == |p| + 1 {
      assert f[..|p| + 1] == f;
    }
  }

  /** An entry named Access leads to no listed file. */
  lemma SkipAccess(files: map<Path, string>, p: Path, c: Path, seen: seq<Path>, acc: seq<Upspin.Entry>)
    requires |c| == |p| + 1 && Upspin.Base(c) == AccessName
    requires Covered(files, p, seen, acc)
    ensures Covered(files, p, seen + [c], acc)
  {
    forall f | Listed(files, p, f) ensures f[..|p| + 1] != c {
      assert f[..|p| + 1][|p|] == f[|p|] != AccessName;
    }
  }

  /** The files listed under the child directory `c` are listed under `p`. */
  lemma SubListed(cl: Upspin.Client, p: Path, c: Path, sub: seq<Upspin.Entry>, acc: seq<Upspin.Entry>)
    requires Upspin.IsChild(p, c) && Upspin.Base(c) != AccessName
    requires Sound(cl.files, c, sub) && Sound(cl.files, p, acc)
    ensures Sound(cl.files, p, acc + sub)
  {
    forall e | e in sub ensures Listed(cl.files, p, e.name) {
      var f := e.name;
      assert f[..|p|] == c[..|p|];
      forall k | |p| <= k < |f| ensures f[k] != AccessName {
        if k == |p| {
          assert f[k] == c[|p|];
        }
      }
    }
  }

  /** Descending into the child directory `c` lists every file reached through it. */
  lemma SubComplete(cl: Upspin.Client, p: Path, c: Path, sub: seq<Upspin.Entry>, seen: seq<Path>,
                    acc: seq<Upspin.Entry>)
    requires cl.Valid() && Upspin.IsChild(p, c) && c in cl.dirs
    requires forall f :: Listed(cl.files, c, f) ==> f in Upspin.Names(sub)
    requires Covered(cl.files, p, seen, acc)
    ensures Covered(cl.files, p, seen + [c], acc + sub)
  {
    NamesAppend(acc, sub);
    forall f | Listed(cl.files, p, f) && f[..|p| + 1] == c ensures Listed(cl.files, c, f) {
      assert f != c;
    }
  }

  /** The two halves of descending into a child directory. */
  lemma Descend(cl: Upspin.Client, p: Path, c: Path, sub: seq<Upspin.Entry>, seen: seq<Path>,
                acc: seq<Upspin.Entry>)
    requires cl.Valid() && Upspin.IsChild(p, c) && c in cl.dirs && Upspin.Base(c) != AccessName
    requires Sound(cl.files, c, sub) && Sound(cl.files, p, acc)
    requires forall f :: Listed(cl.files, c, f) ==> f in Upspin.Names(sub)
    requires Covered(cl.files, p, seen, acc)
    ensures Sound(cl.files, p, acc + sub) && Covered(cl.files, p, seen + [c], acc + sub)
  {
    SubListed(cl, p, c, sub, acc);
    SubComplete(cl, p, c, sub, seen, acc);
  }

  /** Taking the file entry `c` keeps every entry a reported file. */
  lemma TakeSound(cl: Upspin.Client, p: Path, c: Path, acc: seq<Upspin.Entry>)
    requires Upspin.IsChild(p, c) && c in cl.files && Upspin.Base(c) != AccessName
    requires Sound(cl.files, p, acc)
    ensures Sound(cl.files, p, acc + [Upspin.Entry(c, false)])
  {
    assert Listed(cl.files, p, c) by {
      assert c[|p|] == Upspin.Base(c);
    }
  }

  /** Only the file `c` itself is reached through the file entry `c`. */
  lemma OnlyThrough(cl: Upspin.Client, p: Path, c: Path)
    requires cl.Valid() && Upspin.IsChild(p, c) && c in cl.files
    ensures forall f :: Listed(cl.files, p, f) && f[..|p| + 1] == c ==> f == c
  {
    forall f | Listed(cl.files, p, f) && f[..|p| + 1] == c ensures f == c {
      AncestorOfFile(cl, f, |p| + 1);
    }
  }

  /** Taking the file entry `c` names the one file reached through it. */
  lemma TakeCovered(files: map<Path, string>, p: Path, c: Path, seen: seq<Path>, acc: seq<Upspin.Entry>)
    requires forall f :: Listed(files, p, f) && f[..|p| + 1] == c ==> f == c
    requires Covered(files, p, seen, acc)
    ensures Covered(files, p, seen + [c], acc + [Upspin.Entry(c, false)])
  {
    var more := acc + [Upspin.Entry(c, false)];
    NamesAppend(acc, [Upspin.Entry(c, false)]);
    assert Upspin.Names(more) == Upspin.Names(acc) + [c];
  }

  /** The two halves of taking a file entry. */
  lemma TakeFile(cl: Upspin.Client, p: Path, c: Path, seen: seq<Path>, acc: seq<Upspin.Entry>)
    requires cl.Valid() && Upspin.IsChild(p, c) && c in cl.files && Upspin.Base(c) != AccessName
    requires Sound(cl.files, p, acc) && Covered(cl.files, p, seen, acc)
    ensures Sound(cl.files, p, acc + [Upspin.Entry(c, false)])
    ensures Covered(cl.files, p, seen + [c], acc + [Upspin.Entry(c, false)])
  {
    TakeSound(cl, p, c, acc);
    OnlyThrough(cl, p, c);
    TakeCovered(cl.files, p, c, seen, acc);
  }

  // ------------------------------------------------------------------ Copy

  /** Copy succeeds from here: a readable non-Access source, a free destination and a parent that is or can be made. */
  predicate CopyAllowed(cl: Upspin.Client, src: Path, dst: Path)
    reads cl
  {
    src in cl.files && src !in cl.denied && Upspin.Base(src) != AccessName &&
    dst !in cl.denied && dst !in cl.files && dst !in cl.dirs && |dst| >= 2 &&
    var up := Upspin.Dir(dst);
    (up in cl.dirs && up !in cl.denied) || (Upspin.Clean(up) && Creatable(cl.files, cl.denied, up))
  }

  /**
   * Copy: refuse an existing destination and an Access source, create the
   * destination's parent directories, then read the source and write its
   * bytes to the destination. Directories made before a later failure stay.
   */
  method Copy(cl: Upspin.Client, src: Path, dst: Path) returns (r: Result<(), UtilError>)
    requires cl.Valid()
    modifies cl
    ensures cl.Valid()
    ensures old(cl.Visible(dst)) ==> r == Err(DestinationExists(dst)) && unchanged(cl)
    ensures !old(cl.Visible(dst)) && Upspin.Base(src) == AccessName ==> r == Err(CopiesAccessFile) && unchanged(cl)
    ensures old(CopyAllowed(cl, src, dst)) ==> r.Ok?
    ensures r.Ok? ==> src in old(cl.files) && src !in cl.denied && Upspin.Base(src) != AccessName
    ensures r.Ok? ==> dst !in old(cl.files) && dst !in old(cl.dirs) && cl.Visible(dst)
    ensures cl.files == if r.Ok? then old(cl.files)[dst := old(cl.files)[src]] else old(cl.files)
    ensures old(cl.dirs) <= cl.dirs
    ensures forall d :: d in cl.dirs && d !in old(cl.dirs) ==> LeadsTo(d, Upspin.Dir(dst))
  {
    var taken := cl.Lookup(dst);
    if taken {
      return Err(DestinationExists(dst));
    }
    if Upspin.Base(src) == AccessName {
      return Err(CopiesAccessFile);
    }
    ghost var allowed := CopyAllowed(cl, src, dst);
    var up := Upspin.Dir(dst);
    var made := MakeDirs(cl, up);
    if made.Err? {
      return made;
    }
    if allowed {
      assert |Upspin.Join(up)| < |dst|;
      assert up[..|up|] == up;
    }
    var data := cl.Get(src);
    if data.Err? {
      return Err(StoreFailed(data.error));
    }
    var put := cl.Put(dst, data.value);
    if put.Err? {
      return Err(StoreFailed(put.error));
    }
    r := Ok(());
  }

  // ----------------------------------------------------------- Synchronize

  /** Where Synchronize copies source file `f`: the root of `user` followed by f's path below its own user. */
  function Destination(user: string, f: Path): Path {
    Join([user], if |f| == 0 then [] else f[1..])
  }

  /** A destination lies in the destination user's area, under the same path below the user. */
  lemma DestinationShape(user: string, f: Path)
    requires |f| >= 1 && user != ""
    ensures Destination(user, f) == [user] + Upspin.Join(f[1..])
    ensures Upspin.Clean(f) ==> Destination(user, f) == [user] + f[1..]
  {
    JoinExtends([user], f[1..]);
    if Upspin.Clean(f) {
      Upspin.JoinClean(f[1..]);
    }
  }

  /** Every file of `before` is still there with the same contents. */
  ghost predicate Kept(before: map<Path, string>, after: map<Path, string>) {
    forall q :: q in before ==> q in after && after[q] == before[q]
  }

  /** `data` at `q` is the contents of a file listed under `src` whose destination is `q`. */
  ghost predicate CopiedTo(files: map<Path, string>, src: Path, user: string, q: Path, data: string) {
    exists f :: Listed(files, src, f) && Destination(user, f) == q && files[f] == data
  }

  /** Every file of `after` that `before` lacks is a copy of a listed source at its destination. */
  ghost predicate Copies(before: map<Path, string>, src: Path, user: string, after: map<Path, string>) {
    forall q :: q in after && q !in before ==> CopiedTo(before, src, user, q, after[q])
  }

  /** Copying listed source `f` to its free destination keeps the files and adds only a copy. */
  lemma CopyKeeps(files0: map<Path, string>, prev: map<Path, string>, src: Path, user: string, f: Path)
    requires Listed(files0, src, f)
    requires Kept(files0, prev) && Copies(files0, src, user, prev)
    requires Destination(user, f) !in prev
    ensures Kept(files0, prev[Destination(user, f) := prev[f]])
    ensures Copies(files0, src, user, prev[Destination(user, f) := prev[f]])
  {
    var next := prev[Destination(user, f) := prev[f]];
    forall q | q in next && q !in files0 ensures CopiedTo(files0, src, user, q, next[q]) {
      if q == Destination(user, f) {
        assert Listed(files0, src, f) && Destination(user, f) == q && files0[f] == next[q];
      }
    }
  }

  /** The paths Lookup finds in a store with these files, directories and denied paths. */
  function Reached(files: map<Path, string>, dirs: set<Path>, denied: set<Path>): set<Path> {
    (files.Keys + dirs) - denied
  }

  /** One round of Synchronize's loop: copy listed file `f` to its destination unless that exists. */
  method SyncEntry(cl: Upspin.Client, ghost files0: map<Path, string>, src: Path, user: string, f: Path)
    returns (r: Result<(), UtilError>)
    requires cl.Valid() && Listed(files0, src, f)
    requires Kept(files0, cl.files) && Copies(files0, src, user, cl.files)
    modifies cl
    ensures cl.Valid() && old(cl.dirs) <= cl.dirs && old(cl.files).Keys <= cl.files.Keys
    ensures Kept(files0, cl.files) && Copies(files0, src, user, cl.files)
    ensures r.Ok? ==> Destination(user, f) in Reached(cl.files, cl.dirs, cl.denied)
  {
    var target := Destination(user, f);
    var present := cl.Lookup(target);
    if present {
      return Ok(());
    }
    r := Copy(cl, f, target);
    if r.Ok? {
      CopyKeeps(files0, old(cl.files), src, user, f);
    }
  }

  /** Destinations reached stay reached as the store grows, and one more is added. */
  lemma ReachedGrows(es: seq<Upspin.Entry>, i: nat, user: string, before: set<Path>, now: set<Path>)
    requires i < |es| && before <= now && Destination(user, es[i].name) in now
    requires forall j :: 0 <= j < i ==> Destination(user, es[j].name) in before
    ensures forall j :: 0 <= j < i + 1 ==> Destination(user, es[j].name) in now
  {
  }

  /** Once every entry's destination is reached, so is every listed file's. */
  lemma AllReached(es: seq<Upspin.Entry>, files: map<Path, string>, src: Path, user: string, reached: set<Path>)
    requires forall f :: Listed(files, src, f) ==> f in Upspin.Names(es)
    requires forall j :: 0 <= j < |es| ==> Destination(user, es[j].name) in reached
    ensures forall f :: Listed(files, src, f) ==> Destination(user, f) in reached
  {
    forall f | Listed(files, src, f) ensures Destination(user, f) in reached {
      var j :| 0 <= j < |es| && Upspin.Names(es)[j] == f;
    }
  }

  /**
   * Synchronize: list the files under `src` and copy each one to its
   * destination under `dst`'s user, skipping destinations that already
   * exist; the first failing listing or copy ends the run with its error.
   */
  method Synchronize(cl: Upspin.Client, src: Path, dst: Path) returns (r: Result<(), UtilError>)
    requires cl.Valid()
    modifies cl
    ensures cl.Valid()
    ensures !(src in old(cl.dirs) && src !in cl.denied) || |dst| == 0 ==> r.Err? && unchanged(cl)
    ensures old(cl.dirs) <= cl.dirs
    ensures Kept(old(cl.files), cl.files)
    ensures |dst| >= 1 ==> Copies(old(cl.files), src, dst[0], cl.files)
    ensures r.Ok? ==> |dst| >= 1 && forall f :: Listed(old(cl.files), src, f) ==> cl.Visible(Destination(dst[0], f))
  {
    var listed := RecursiveList(cl, src);
    if listed.Err? {
      return Err(StoreFailed(listed.error));
    }
    if |dst| == 0 {
      return Err(BadPath);
    }
    var user, es := dst[0], listed.value;
    var i := 0;
    while i < |es|
      invariant 0 <= i <= |es|
      invariant cl.Valid() && old(cl.dirs) <= cl.dirs
      invariant Kept(old(cl.files), cl.files) && Copies(old(cl.files), src, user, cl.files)
      invariant forall j :: 0 <= j < i ==> Destination(user, es[j].name) in Reached(cl.files, cl.dirs, cl.denied)
    {
      var ent := es[i];
      assert ent in es;
      ghost var files, dirs := cl.files, cl.dirs;
      var synced := SyncEntry(cl, old(cl.files), src, user, ent.name);
      if synced.Err? {
        return synced;
      }
      ReachedGrows(es, i, user, Reached(files, dirs, cl.denied), Reached(cl.files, cl.dirs, cl.denied));
      i := i + 1;
    }
    AllReached(es, old(cl.files), src, user, Reached(cl.files, cl.dirs, cl.denied));
    r := Ok(());
  }

  /**
   * In a store of clean paths, a destination that was missing and now holds
   * a file holds exactly the bytes of its own source: distinct listed files
   * have distinct destinations.
   */
  lemma SyncedCopy(before: map<Path, string>, after: map<Path, string>, src: Path, user: string, f: Path)
    requires user != "" && |src| >= 1
    requires forall g :: g in before ==> Upspin.Clean(g)
    requires Copies(before, src, user, after) && Listed(before, src, f)
    requires Destination(user, f) !in before && Destination(user, f) in after
    ensures after[Destination(user, f)] == before[f]
  {
    var q := Destination(user, f);
    assert CopiedTo(before, src, user, q, after[q]);
    var g :| Listed(before, src, g) && Destination(user, g) == q && before[g] == after[q];
    DestinationShape(user, f);
    DestinationShape(user, g);
    assert g[1..] == q[1..] == f[1..];
    assert g[0] == src[0] == f[0];
    assert g == [g[0]] + g[1..];
    assert f == [f[0]] + f[1..];
  }

  // --------------------------------------------------------- AddFile, Join

  /** AddFile: create `fpath` and write `data` to it. */
  method AddFile(cl: Upspin.Client, fpath: Path, data: string) returns (r: Result<(), UtilError>)
    requires cl.Valid()
    modifies cl
    ensures cl.Valid() && cl.dirs == old(cl.dirs)
    ensures r.Ok? <==> old(cl.CanPut(fpath))
    ensures cl.files == if r.Ok? then old(cl.files)[fpath := data] else old(cl.files)
  {
    var put := cl.Put(fpath, data);
    if put.Err? {
      return Err(StoreFailed(put.error));
    }
    r := Ok(());
  }

  /** The path of the Access file of `dir`. */
  function AccessPath(dir: Path): Path {
    Join(dir, [AccessName])
  }

  /** The Access file sits directly inside the clean form of `dir`. */
  lemma AccessPathShape(dir: Path)
    ensures AccessPath(dir) == Upspin.Join(dir) + [AccessName]
    ensures Upspin.Base(AccessPath(dir)) == AccessName
    ensures Upspin.Clean(dir) ==> Upspin.Dir(AccessPath(dir)) == dir
  {
    Upspin.JoinAppend(dir, [AccessName]);
    JoinOne(AccessName);
    if Upspin.Clean(dir) {
      Upspin.JoinClean(dir);
    }
  }

  /** readAccess: read the Access file of `dir` and parse it with `parse`, standing in for access.Parse. */
  method ReadAccess<A>(cl: Upspin.Client, dir: Path, parse: (Path, string) -> Result<A, string>)
    returns (r: Result<A, UtilError>)
    ensures var pth := AccessPath(dir);
      r.Ok? <==> pth in cl.files && pth !in cl.denied && parse(pth, cl.files[pth]).Ok?
    ensures r.Ok? ==> r.value == parse(AccessPath(dir), cl.files[AccessPath(dir)]).value
  {
    var pth := AccessPath(dir);
    var data := cl.Get(pth);
    if data.Err? {
      return Err(StoreFailed(data.error));
    }
    var acc := parse(pth, data.value);
    if acc.Err? {
      return Err(AccessUnparsable(acc.error));
    }
    r := Ok(acc.value);
  }
}
