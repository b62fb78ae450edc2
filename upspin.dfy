/**
 * The part of the upspin client the program uses (Lookup, Get, Put,
 * MakeDirectory, Glob of a directory's entries; Open, and Create
 * followed by Close, are Get and Put), modelled
 * as an in-memory tree: a map from file path to contents, a set of
 * directories and a fixed set of paths the caller may not access.
 * A path is its list of components, the first being the user name.
 */
module Upspin {
  import opened Results

  type Path = seq<string>

  /** path.Dir on a component list. */
  function Dir(p: Path): Path {
    if |p| == 0 then [] else p[..|p| - 1]
  }

  /** path.Base on a component list (`"."` for the empty path). */
  function Base(p: Path): string {
    if |p| == 0 then "." else p[|p| - 1]
  }

  /** Every component is non-empty, as path.Join leaves them. */
  predicate Clean(p: Path) {
    forall i :: 0 <= i < |p| ==> p[i] != ""
  }

  /**
   * path.Join of elements that are single path components: empty elements
   * are dropped and the rest are joined in order.
   */
  function Join(elems: seq<string>): (r: Path)
    ensures Clean(r) && |r| <= |elems|
    ensures forall x :: x in r <==> x in elems && x != ""
  {
    if |elems| == 0 then []
    else (if elems[0] == "" then [] else [elems[0]]) + Join(elems[1..])
  }

  /** Joining two lists of elements joins their joins. */
  lemma {:induction false} JoinAppend(a: seq<string>, b: seq<string>)
    ensures Join(a + b) == Join(a) + Join(b)
  {
    if |a| == 0 {
      assert a + b == b;
    } else {
      assert (a + b)[1..] == a[1..] + b;
      JoinAppend(a[1..], b);
      var head := if a[0] == "" then [] else [a[0]];
      assert Join(a + b) == head + (Join(a[1..]) + Join(b));
    }
  }

  /** A clean path is its own join. */
  lemma {:induction false} JoinClean(p: Path)
    requires Clean(p)
    ensures Join(p) == p
  {
    if |p| > 0 {
      JoinClean(p[1..]);
      assert p == [p[0]] + p[1..];
    }
  }

  /** `c` is an entry directly inside directory `p`. */
  predicate IsChild(p: Path, c: Path) {
    |c| == |p| + 1 && c[..|p|] == p
  }

  datatype StoreError = NotExist | AlreadyExists | PermissionDenied | NoParent | IsDirectory

  /** A directory entry as Glob returns it. */
  datatype Entry = Entry(name: Path, isDir: bool)

  function Names(ents: seq<Entry>): (r: seq<Path>)
    ensures |r| == |ents| && forall i :: 0 <= i < |ents| ==> r[i] == ents[i].name
  {
    if |ents| == 0 then [] else [ents[0].name] + Names(ents[1..])
  }

  /** No two entries of `ents` have the same name. */
  predicate DistinctNames(ents: seq<Entry>) {
    forall i, j :: 0 <= i < j < |ents| ==> ents[i].name != ents[j].name
  }

  /** Entries naming exactly the paths of `paths`, once each, are as many as those paths. */
  lemma {:induction false} NamesCount(ents: seq<Entry>, paths: set<Path>)
    requires forall c :: c in Names(ents) <==> c in paths
    requires DistinctNames(ents)
    ensures |ents| == |paths|
  {
    if |ents| == 0 {
      assert Names(ents) == [];
      assert paths == {};
    } else {
      var rest := paths - {ents[0].name};
      assert Names(ents) == [ents[0].name] + Names(ents[1..]);
      forall c ensures c in Names(ents[1..]) <==> c in rest {
        if c in Names(ents[1..]) {
          var k :| 0 <= k < |ents| - 1 && Names(ents[1..])[k] == c;
          assert ents[k + 1].name == c;
        }
      }
      NamesCount(ents[1..], rest);
    }
  }

  class Client {
    var files: map<Path, string>
    var dirs: set<Path>
    const denied: set<Path>

    /** A tree: every file and every directory but a user root sits in a directory. */
    ghost predicate Valid()
      reads this
    {
      (forall p :: p in files ==> p !in dirs && |p| >= 2 && Dir(p) in dirs) &&
      (forall p :: p in dirs ==> |p| >= 1) &&
      (forall p {:trigger Dir(p)} :: p in dirs && |p| >= 2 ==> Dir(p) in dirs)
    }

    constructor (denied: set<Path>)
      ensures Valid() && files == map[] && dirs == {} && this.denied == denied
    {
      files, dirs, this.denied := map[], {}, denied;
    }

    /** Lookup succeeds: the entry exists and may be accessed. */
    predicate Visible(p: Path)
      reads this
    {
      p !in denied && (p in files || p in dirs)
    }

    predicate CanPut(p: Path)
      reads this
    {
      p !in denied && p !in dirs && |p| >= 2 && Dir(p) in dirs
    }

    predicate CanMakeDirectory(p: Path)
      reads this
    {
      p !in denied && p !in files && p !in dirs && |p| >= 1 && (|p| >= 2 ==> Dir(p) in dirs)
    }

    method Lookup(p: Path) returns (found: bool)
      ensures found == Visible(p)
    {
      found := p !in denied && (p in files || p in dirs);
    }

    method Get(p: Path) returns (r: Result<string, StoreError>)
      ensures r.Ok? <==> p !in denied && p in files
      ensures r.Ok? ==> r.value == files[p]
    {
      if p in denied {
        r := Err(PermissionDenied);
      } else if p in files {
        r := Ok(files[p]);
      } else {
        r := Err(NotExist);
      }
    }

    /** Put, and Create followed by a write and Close: all-or-nothing. */
    method Put(p: Path, data: string) returns (r: Result<(), StoreError>)
      requires Valid()
      modifies this
      ensures Valid() && dirs == old(dirs)
      ensures r.Ok? <==> old(CanPut(p))
      ensures files == if r.Ok? then old(files)[p := data] else old(files)
    {
      if p in denied {
        r := Err(PermissionDenied);
      } else if p in dirs {
        r := Err(IsDirectory);
      } else if |p| < 2 || Dir(p) !in dirs {
        r := Err(NoParent);
      } else {
        files := files[p := data];
        r := Ok(());
      }
    }

    method MakeDirectory(p: Path) returns (r: Result<(), StoreError>)
      requires Valid()
      modifies this
      ensures Valid() && files == old(files)
      ensures r.Ok? <==> old(CanMakeDirectory(p))
      ensures dirs == if r.Ok? then old(dirs) + {p} else old(dirs)
    {
      if p in denied {
        r := Err(PermissionDenied);
      } else if p in files || p in dirs {
        r := Err(AlreadyExists);
      } else if |p| < 1 || (|p| >= 2 && Dir(p) !in dirs) {
        r := Err(NoParent);
      } else {
        dirs := dirs + {p};
        r := Ok(());
      }
    }

    /** Glob of the entries of `p`: every entry directly inside directory `p`, once each, in no particular order. */
    method Glob(p: Path) returns (r: Result<seq<Entry>, StoreError>)
      ensures r.Ok? <==> p in dirs && p !in denied
      ensures r.Ok? ==> forall e :: e in r.value ==>
        IsChild(p, e.name) && (e.name in files || e.name in dirs) && e.isDir == (e.name in dirs)
      ensures r.Ok? ==> forall c :: IsChild(p, c) && (c in files || c in dirs) ==> c in Names(r.value)
      ensures r.Ok? ==> DistinctNames(r.value)
    {
      if p in denied {
        return Err(PermissionDenied);
      }
      if p !in dirs {
        return Err(NotExist);
      }
      var left := set c | c in files.Keys + dirs && IsChild(p, c);
      var ents: seq<Entry> := [];
      while left != {}
        invariant left <= files.Keys + dirs
        invariant forall c :: c in left ==> IsChild(p, c)
        invariant forall e :: e in ents ==>
          IsChild(p, e.name) && (e.name in files || e.name in dirs) && e.isDir == (e.name in dirs)
        invariant forall c :: IsChild(p, c) && (c in files || c in dirs) ==> c in left || c in Names(ents)
        invariant forall e :: e in ents ==> e.name !in left
        invariant DistinctNames(ents)
        decreases left
      {
        var c :| c in left;
        ents := ents + [Entry(c, c in dirs)];
        assert Names(ents) == Names(ents[..|ents| - 1]) + [c];
        left := left - {c};
      }
      r := Ok(ents);
    }
  }
}
