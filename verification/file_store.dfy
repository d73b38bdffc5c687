/**
 * An abstract file system standing in for `FileManager.default`: a map from
 * file paths to their bytes, a set of directories, and a fixed set of paths
 * on which every operation fails (permissions, a full disk). A path is the
 * sequence of its components; the empty path is the volume root, which
 * always exists as a directory.
 */
module FileStore {
  import opened Wrappers

  type Bytes = seq<bv8>
  type Path = seq<string>

  /** `q` is `p` itself or lies somewhere below `p`. */
  predicate Under(q: Path, p: Path)
  {
    |p| <= |q| && q[..|p|] == p
  }

  function Parent(p: Path): Path
    requires p != []
  {
    p[..|p| - 1]
  }

  predicate IsDir(dirs: set<Path>, p: Path)
  {
    p == [] || p in dirs
  }

  /** Entries that `.skipsHiddenFiles` leaves out of a listing. */
  predicate IsHidden(name: string)
  {
    |name| > 0 && name[0] == '.'
  }

  /** The names a non-hidden listing of directory `d` reports. */
  function ChildNames(files: map<Path, Bytes>, dirs: set<Path>, d: Path): (names: set<string>)
    ensures forall n :: n in names <==> !IsHidden(n) && (d + [n] in files || d + [n] in dirs)
  {
    var names := set p | p in files.Keys + dirs && |p| == |d| + 1 && p[..|d|] == d && !IsHidden(p[|d|]) :: p[|d|];
    ChildNamesExact(files, dirs, d, names);
    names
  }

  lemma ChildNamesExact(files: map<Path, Bytes>, dirs: set<Path>, d: Path, names: set<string>)
    requires names == set p | p in files.Keys + dirs && |p| == |d| + 1 && p[..|d|] == d && !IsHidden(p[|d|]) :: p[|d|]
    ensures forall n :: n in names <==> !IsHidden(n) && (d + [n] in files || d + [n] in dirs)
  {
    forall n
      ensures n in names <==> !IsHidden(n) && (d + [n] in files || d + [n] in dirs)
    {
      if n in names {
        var p :| p in files.Keys + dirs && |p| == |d| + 1 && p[..|d|] == d && !IsHidden(p[|d|]) && p[|d|] == n;
        assert p == d + [n];
      }
      var p := d + [n];
      assert p[..|d|] == d && p[|d|] == n;
    }
  }

  /** A listing reports each of `names` exactly once, in some order. */
  predicate ListsExactly(listing: seq<string>, names: set<string>)
  {
    && (forall i, j :: 0 <= i < j < |listing| ==> listing[i] != listing[j])
    && (forall n :: n in listing ==> n in names)
    && (forall n :: n in names ==> n in listing)
  }

  /** `p` and every directory above it except the volume root. */
  function SelfAndAncestors(p: Path): (r: set<Path>)
    ensures forall q :: q in r <==> q != [] && |q| <= |p| && p[..|q|] == q
  {
    var r := set i | 1 <= i <= |p| :: p[..i];
    assert forall q :: q != [] && |q| <= |p| && p[..|q|] == q ==> q == p[..|q|] && q in r;
    r
  }

  /** `createDirectory(withIntermediateDirectories: true)` fails on a denied path or when a file is in the way. */
  predicate MkdirFails(files: map<Path, Bytes>, denied: set<Path>, p: Path)
  {
    p in denied || exists q :: q in SelfAndAncestors(p) && q in files
  }

  /** `write(to:)` fails on a denied path, on a directory, or when the parent directory is missing. */
  predicate WriteFails(dirs: set<Path>, denied: set<Path>, p: Path)
  {
    p == [] || p in denied || p in dirs || !IsDir(dirs, Parent(p))
  }

  /** `removeItem(at:)` fails on a denied path or when nothing is there. */
  predicate RemoveFails(files: map<Path, Bytes>, dirs: set<Path>, denied: set<Path>, p: Path)
  {
    p in denied || (p !in files && p !in dirs)
  }

  /** What `Data(contentsOf:)` yields: the file's bytes, or nothing when it cannot be read. */
  function ReadResult(files: map<Path, Bytes>, denied: set<Path>, p: Path): (r: Option<Bytes>)
    ensures r.Some? <==> p in files && p !in denied
    ensures r.Some? ==> r.value == files[p]
  {
    if p in files && p !in denied then Some(files[p]) else None
  }

  /** The files left after removing `p` recursively: everything below `p` goes, the rest keeps its bytes. */
  function FilesWithout(files: map<Path, Bytes>, p: Path): (r: map<Path, Bytes>)
    ensures forall q :: q in r <==> q in files && !Under(q, p)
    ensures forall q :: q in r ==> r[q] == files[q]
  {
    map q | q in files && !Under(q, p) :: files[q]
  }

  /** The directories left after removing `p` recursively. */
  function DirsWithout(dirs: set<Path>, p: Path): (r: set<Path>)
    ensures forall q :: q in r <==> q in dirs && !Under(q, p)
  {
    set q | q in dirs && !Under(q, p)
  }

  lemma UnderParent(q: Path, p: Path)
    requires q != [] && Under(Parent(q), p)
    ensures Under(q, p)
  {
    assert q[..|p|] == Parent(q)[..|p|];
  }

  /**
   * Removing `d + [name]` recursively takes exactly `name` out of the
   * listing of `d`: every other entry stays listed.
   */
  lemma RemovalDropsOneEntry(files: map<Path, Bytes>, dirs: set<Path>, d: Path, name: string)
    ensures ChildNames(FilesWithout(files, d + [name]), DirsWithout(dirs, d + [name]), d)
            == ChildNames(files, dirs, d) - {name}
  {
    var p := d + [name];
    forall n
      ensures Under(d + [n], p) <==> n == name
    {
      if Under(d + [n], p) {
        assert (d + [n])[|d|] == p[|d|];
      }
    }
  }

  /**
   * Every file sits in an existing directory, every directory above an
   * existing directory exists too, and no path is both a file and a
   * directory. The volume root is neither a file nor a listed directory.
   */
  ghost predicate WellFormed(files: map<Path, Bytes>, dirs: set<Path>)
  {
    && (forall p :: p in files ==> p != [] && IsDir(dirs, Parent(p)) && p !in dirs)
    && [] !in dirs
    && (forall p, k :: p in dirs && 0 < k < |p| ==> p[..k] in dirs)
  }

  /** Nothing exists directly inside a directory that does not exist. */
  lemma NothingInMissingDir(files: map<Path, Bytes>, dirs: set<Path>, d: Path, name: string)
    requires WellFormed(files, dirs) && d != [] && d !in dirs
    ensures d + [name] !in files && d + [name] !in dirs
  {
    assert Parent(d + [name]) == d;
    assert (d + [name])[..|d|] == d;
  }

  class FileSystem {
    var files: map<Path, Bytes>
    var dirs: set<Path>
    const denied: set<Path>
    /** How many file reads have been issued; lets contracts say when a read happens. */
    ghost var readCount: nat

    ghost predicate Valid()
      reads this
    {
      WellFormed(files, dirs)
    }

    constructor (denied: set<Path>)
      ensures Valid()
      ensures files == map[] && dirs == {} && this.denied == denied && readCount == 0
    {
      files, dirs, this.denied, readCount := map[], {}, denied, 0;
    }

    /** Every directory above an existing directory exists too. */
    lemma {:induction false} AncestorsExist(d: Path, k: nat)
      requires Valid() && d in dirs && 1 <= k <= |d|
      ensures d[..k] in dirs
      decreases |d| - k
    {
      if k < |d| {
        AncestorsExist(d, k + 1);
        assert Parent(d[..k + 1]) == d[..k];
      } else {
        assert d[..k] == d;
      }
    }

    /**
     * A directory that does not exist yet, directly inside an existing one,
     * can be created unless it is denied.
     */
    lemma MkdirFreshChild(d: Path, name: string)
      requires Valid() && d in dirs && d + [name] !in files
      ensures MkdirFails(files, denied, d + [name]) <==> d + [name] in denied
    {
      var p := d + [name];
      forall q | q in SelfAndAncestors(p)
        ensures q !in files
      {
        if q != p {
          assert q == d[..|q|];
          AncestorsExist(d, |q|);
        }
      }
    }

    /**
     * `contentsOfDirectory(at:options: .skipsHiddenFiles)`: fails when `d` is
     * not a readable directory; otherwise reports each non-hidden entry of
     * `d` once, in an order the file system chooses.
     */
    method ContentsOfDirectory(d: Path) returns (r: Option<seq<string>>)
      ensures r.None? <==> !IsDir(dirs, d) || d in denied
      ensures r.Some? ==> ListsExactly(r.value, ChildNames(files, dirs, d))
    {
      if !IsDir(dirs, d) || d in denied {
        return None;
      }
      var rest := ChildNames(files, dirs, d);
      var listing := [];
      while rest != {}
        invariant forall i, j :: 0 <= i < j < |listing| ==> listing[i] != listing[j]
        invariant forall n :: n in ChildNames(files, dirs, d) <==> n in listing || n in rest
        invariant forall n :: n in listing ==> n !in rest
        decreases |rest|
      {
        var n :| n in rest;
        listing := listing + [n];
        rest := rest - {n};
      }
      r := Some(listing);
    }

    /** `createDirectory(at:withIntermediateDirectories: true)`. */
    method CreateDirectory(p: Path) returns (ok: bool)
      requires Valid()
      modifies this`dirs
      ensures Valid()
      ensures ok == !MkdirFails(files, denied, p)
      ensures dirs == if ok then old(dirs) + SelfAndAncestors(p) else old(dirs)
    {
      ok := !MkdirFails(files, denied, p);
      if ok {
        dirs := dirs + SelfAndAncestors(p);
        forall q, k | q in SelfAndAncestors(p) && 0 < k < |q|
          ensures q[..k] in dirs
        {
          assert q[..k] == p[..k];
        }
      }
    }

    /** `Data(contentsOf:)`; counts as one read whatever its outcome. */
    method Read(p: Path) returns (r: Option<Bytes>)
      modifies this`readCount
      ensures r == ReadResult(files, denied, p)
      ensures readCount == old(readCount) + 1
    {
      readCount := readCount + 1;
      r := if p in files && p !in denied then Some(files[p]) else None;
    }

    /** `Data.write(to:)`: creates or overwrites one file. */
    method Write(p: Path, bytes: Bytes) returns (ok: bool)
      requires Valid()
      modifies this`files
      ensures Valid()
      ensures ok == !WriteFails(dirs, denied, p)
      ensures files == if ok then old(files)[p := bytes] else old(files)
    {
      ok := !WriteFails(dirs, denied, p);
      if ok {
        files := files[p := bytes];
      }
    }

    /** `removeItem(at:)`: removes a file, or a directory with everything below it. */
    method RemoveItem(p: Path) returns (ok: bool)
      requires Valid()
      modifies this`files, this`dirs
      ensures Valid()
      ensures ok == !RemoveFails(old(files), old(dirs), denied, p)
      ensures files == if ok then FilesWithout(old(files), p) else old(files)
      ensures dirs == if ok then DirsWithout(old(dirs), p) else old(dirs)
    {
      ok := !RemoveFails(files, dirs, denied, p);
      if ok {
        files, dirs := FilesWithout(files, p), DirsWithout(dirs, p);
        forall q | q in files
          ensures IsDir(dirs, Parent(q))
        {
          if Parent(q) != [] && Under(Parent(q), p) {
            UnderParent(q, p);
          }
        }

      }
    }
  }
}
