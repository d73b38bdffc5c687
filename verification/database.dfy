/**
 * `ScaryCreatureDatabase`: where documents live, how a new document's
 * folder name is allocated, and which entries of the root folder count as
 * documents. Every document is a folder `<n>.scarycreature` directly under
 * the private documents folder.
 */
module Database {
  import opened Wrappers
  import opened Names
  import opened FileStore

  const DocExtension: string := "scarycreature"

  /** `privateDocsDir`: the `PrivateDocuments` folder inside the app's documents folder. */
  const Root: Path := ["Documents", "PrivateDocuments"]

  /** An entry whose path extension is `scarycreature`. */
  predicate IsDocEntry(name: string)
  {
    PathExtension(name) == DocExtension
  }

  /** An entry is a document exactly when its name ends in `.scarycreature`. */
  lemma DocEntrySuffix(name: string)
    ensures IsDocEntry(name) <==>
              |DocExtension| < |name| && name[|name| - |DocExtension| - 1..] == "." + DocExtension
  {
    var k := |name| - |DocExtension| - 1;
    if |DocExtension| < |name| && name[k..] == "." + DocExtension {
      SplitExtension(name[..k], DocExtension);
      assert name == name[..k] + "." + DocExtension;
    }
    if IsDocEntry(name) {
      assert '.' in name;
      assert name[k..] == [name[k]] + name[k + 1..];
    }
  }

  /** `Int(fileName) ?? 0` where `fileName` is the entry without its extension. */
  function ParsedPrefix(name: string): (n: int)
    ensures IntMin <= n <= IntMax
    ensures ParseInt(DeletingPathExtension(name)).None? ==> n == 0
  {
    ParseInt(DeletingPathExtension(name)).GetOr(0)
  }

  /**
   * What the scan takes from one entry: nothing for an entry with another
   * extension, the parsed prefix (0 when it does not parse) for a document.
   */
  function EntryNumber(name: string): (r: Option<int>)
    ensures r.Some? <==> IsDocEntry(name)
    ensures r.Some? ==> r.value == ParsedPrefix(name)
  {
    if IsDocEntry(name) then Some(ParsedPrefix(name)) else None
  }

  function Numbers(listing: seq<string>): (r: seq<Option<int>>)
    ensures |r| == |listing|
    ensures forall i :: 0 <= i < |listing| ==> r[i] == EntryNumber(listing[i])
  {
    seq(|listing|, i requires 0 <= i < |listing| => EntryNumber(listing[i]))
  }

  /** The folder name `"\(n).scarycreature"`. */
  function DocName(n: nat): (name: string)
    ensures IsDocEntry(name) && DeletingPathExtension(name) == Decimal(n)
  {
    SplitExtension(Decimal(n), DocExtension);
    Decimal(n) + "." + DocExtension
  }

  function Max(a: int, b: int): int
  {
    if a < b then b else a
  }

  /** A folder name built by `DocName` is a document entry whose prefix parses back to its number. */
  lemma DocNameParses(n: nat)
    requires n <= IntMax
    ensures EntryNumber(DocName(n)) == Some(n)
    ensures !IsHidden(DocName(n))
  {
    SplitExtension(Decimal(n), DocExtension);
    ParseDecimal(n);
    assert IsDigit(DocName(n)[0]);
  }

  /**
   * The value `maxNumber` has after the scan: 0 when no entry is a document,
   * otherwise the largest number among the documents, or 0 if that is larger.
   */
  function ScanMax(nums: seq<Option<int>>): (m: int)
    ensures m >= 0
    ensures forall i :: 0 <= i < |nums| && nums[i].Some? ==> nums[i].value <= m
    ensures m == 0 || exists i :: 0 <= i < |nums| && nums[i] == Some(m)
  {
    if nums == [] then 0
    else
      var front := nums[..|nums| - 1];
      var m := ScanMax(front);
      assert forall i :: 0 <= i < |front| ==> front[i] == nums[i];
      match nums[|nums| - 1]
      case None => m
      case Some(n) => Max(m, n)
  }

  /** One more step of the scan. */
  lemma ScanMaxStep(nums: seq<Option<int>>, i: nat)
    requires i < |nums|
    ensures ScanMax(nums[..i + 1]) == match nums[i] case None => ScanMax(nums[..i]) case Some(n) => Max(ScanMax(nums[..i]), n)
  {
    assert nums[..i + 1][..i] == nums[..i];
  }

  /** `maxNumber` after the scan of `listing`. */
  function MaxNumber(listing: seq<string>): int
  {
    ScanMax(Numbers(listing))
  }

  /** `maxNumber + 1` traps in Swift when a document's prefix is already the largest `Int`. */
  predicate NoOverflow(listing: seq<string>)
  {
    forall n :: n in listing && IsDocEntry(n) ==> ParsedPrefix(n) < IntMax
  }

  /**
   * The `forEach` of `nextScaryCreatureDocPath`: starting from 0, raise
   * `maxNumber` to `Int(fileName) ?? 0` for every entry whose extension is
   * `scarycreature`.
   */
  method ScanListing(files: seq<string>) returns (maxNumber: int)
    ensures maxNumber == MaxNumber(files)
  {
    ghost var nums := Numbers(files);
    maxNumber := 0;
    for i := 0 to |files|
      invariant maxNumber == ScanMax(nums[..i])
    {
      ScanMaxStep(nums, i);
      if PathExtension(files[i]) == DocExtension {
        var fileName := DeletingPathExtension(files[i]);
        maxNumber := Max(maxNumber, ParseInt(fileName).GetOr(0));
      }
    }
    assert nums[..|files|] == nums;
  }

  /**
   * `nextScaryCreatureDocPath` on a listing already taken: nil when the
   * listing failed, otherwise the root folder joined with
   * `"\(maxNumber + 1).scarycreature"`.
   */
  method AllocateFromListing(listing: Option<seq<string>>) returns (p: Option<Path>)
    requires listing.Some? ==> NoOverflow(listing.value)
    ensures p.None? <==> listing.None?
    ensures p.Some? ==> p.value == Root + [DocName(MaxNumber(listing.value) + 1)]
  {
    if listing.None? {
      return None;
    }
    var maxNumber := ScanListing(listing.value);
    // the addition that traps in Swift on overflow
    assert maxNumber + 1 <= IntMax by {
      MaxNumberBelowIntMax(listing.value);
    }
    p := Some(Root + [DocName(maxNumber + 1)]);
  }

  /** The bounds on the scan, stated over the entries rather than their positions. */
  lemma MaxNumberBounds(listing: seq<string>)
    ensures forall n :: n in listing && IsDocEntry(n) ==> ParsedPrefix(n) <= MaxNumber(listing)
    ensures MaxNumber(listing) == 0 || exists n :: n in listing && IsDocEntry(n) && ParsedPrefix(n) == MaxNumber(listing)
  {
    var nums := Numbers(listing);
    var m := MaxNumber(listing);
    if m > 0 {
      var i :| 0 <= i < |nums| && nums[i] == Some(m);
      assert listing[i] in listing;
    }
    forall n | n in listing && IsDocEntry(n)
      ensures ParsedPrefix(n) <= m
    {
      var i :| 0 <= i < |listing| && listing[i] == n;
      assert nums[i] == Some(ParsedPrefix(n));
    }
  }

  /** The scan's result is the one number that bounds every document and is 0 or some document's number. */
  lemma MaxNumberIs(listing: seq<string>, m: int)
    requires m >= 0
    requires forall n :: n in listing && IsDocEntry(n) ==> ParsedPrefix(n) <= m
    requires m == 0 || exists n :: n in listing && IsDocEntry(n) && ParsedPrefix(n) == m
    ensures MaxNumber(listing) == m
  {
    MaxNumberBounds(listing);
    if m != 0 {
      var n :| n in listing && IsDocEntry(n) && ParsedPrefix(n) == m;
    }
  }

  lemma MaxNumberBelowIntMax(listing: seq<string>)
    requires NoOverflow(listing)
    ensures MaxNumber(listing) < IntMax
  {
    MaxNumberBounds(listing);
  }

  /**
   * The number allocated is at least 1 and exceeds every document's numeric
   * prefix in the listing, so the name allocated is not in the listing at
   * all: no existing document, and no other entry, has that name.
   */
  lemma AllocatedNameIsFresh(listing: seq<string>)
    requires NoOverflow(listing)
    ensures MaxNumber(listing) + 1 >= 1
    ensures forall n :: n in listing && IsDocEntry(n) ==> ParsedPrefix(n) < MaxNumber(listing) + 1
    ensures DocName(MaxNumber(listing) + 1) !in listing
  {
    MaxNumberBounds(listing);
    MaxNumberBelowIntMax(listing);
    DocNameParses(MaxNumber(listing) + 1);
  }

  /** The scan visits `a` and then `b`: its result is the larger of the two scans. */
  lemma {:induction false} ScanMaxConcat(a: seq<Option<int>>, b: seq<Option<int>>)
    ensures ScanMax(a + b) == Max(ScanMax(a), ScanMax(b))
    decreases |b|
  {
    if b == [] {
      assert a + b == a;
    } else {
      var front := b[..|b| - 1];
      ScanMaxConcat(a, front);
      assert (a + b)[..|a + b| - 1] == a + front;
    }
  }

  lemma NumbersConcat(a: seq<string>, b: seq<string>)
    ensures Numbers(a + b) == Numbers(a) + Numbers(b)
  {
  }

  /**
   * Removing an entry that is not above the maximum of the others (an entry
   * with another extension, or any document but a unique highest one)
   * leaves the next allocation unchanged: gaps are never filled in.
   */
  lemma RemovalBelowMaximumKeepsAllocation(a: seq<string>, e: string, b: seq<string>)
    requires !IsDocEntry(e) || ParsedPrefix(e) <= MaxNumber(a + b)
    ensures MaxNumber(a + [e] + b) == MaxNumber(a + b)
  {
    NumbersConcat(a + [e], b);
    NumbersConcat(a, [e]);
    NumbersConcat(a, b);
    ScanMaxConcat(Numbers(a) + Numbers([e]), Numbers(b));
    ScanMaxConcat(Numbers(a), Numbers([e]));
    ScanMaxConcat(Numbers(a), Numbers(b));
    assert Numbers([e])[..0] == [];
  }

  /** `m` is what the scan yields for any listing of exactly the numbers `nums`. */
  ghost predicate IsMaxOf(m: int, nums: set<Option<int>>)
  {
    && m >= 0
    && (forall n :: n in nums && n.Some? ==> n.value <= m)
    && (m == 0 || Some(m) in nums)
  }

  /** The scan's result as a function of the set of numbers alone. */
  ghost function MaxOfSet(nums: set<Option<int>>): (m: int)
    ensures IsMaxOf(m, nums)
    decreases nums
  {
    if nums == {} then 0
    else
      var n :| n in nums;
      var m := MaxOfSet(nums - {n});
      match n
      case None => m
      case Some(v) => Max(m, v)
  }

  /** The numbers a set of entry names yields. */
  ghost function NumbersOf(names: set<string>): set<Option<int>>
  {
    set n | n in names :: EntryNumber(n)
  }

  /** Whatever order a listing reports the entries in, the scan yields the maximum of the set. */
  lemma ScanIsMaxOfSet(listing: seq<string>, names: set<string>)
    requires forall n :: n in listing <==> n in names
    ensures MaxNumber(listing) == MaxOfSet(NumbersOf(names))
  {
    var nums := Numbers(listing);
    var numbers := NumbersOf(names);
    var m := ScanMax(nums);
    if m != 0 {
      var i :| 0 <= i < |nums| && nums[i] == Some(m);
      assert listing[i] in names;
    }
    forall x | x in numbers && x.Some?
      ensures x.value <= m
    {
      var n :| n in names && EntryNumber(n) == x;
      var i :| 0 <= i < |listing| && listing[i] == n;
      assert nums[i] == x;
    }
    var m2 := MaxOfSet(numbers);
    if m2 != 0 {
      var n :| n in names && EntryNumber(n) == Some(m2);
      var i :| 0 <= i < |listing| && listing[i] == n;
      assert nums[i] == Some(m2);
    }
  }

  /** Two listings with the same entries, in any order or repetition, allocate the same number. */
  lemma AllocationIgnoresOrder(l1: seq<string>, l2: seq<string>)
    requires forall n :: n in l1 <==> n in l2
    ensures MaxNumber(l1) == MaxNumber(l2)
  {
    MaxNumberBounds(l1);
    MaxNumberIs(l2, MaxNumber(l1));
  }

  /** The entries of `s` that `keep` accepts, in their order in `s`. */
  function Filter(s: seq<string>, keep: string -> bool): (r: seq<string>)
    ensures forall n :: n in r <==> n in s && keep(n)
    ensures |r| <= |s|
  {
    if s == [] then []
    else (if keep(s[0]) then [s[0]] else []) + Filter(s[1..], keep)
  }

  /** Filtering keeps the order of `s`: it distributes over concatenation. */
  lemma {:induction false} FilterConcat(a: seq<string>, b: seq<string>, keep: string -> bool)
    ensures Filter(a + b, keep) == Filter(a, keep) + Filter(b, keep)
  {
    if a == [] {
      assert a + b == b;
    } else {
      var head := if keep(a[0]) then [a[0]] else [];
      assert (a + b)[0] == a[0] && (a + b)[1..] == a[1..] + b;
      assert Filter(a + b, keep) == head + Filter(a[1..] + b, keep);
      FilterConcat(a[1..], b, keep);
      assert Filter(a, keep) == head + Filter(a[1..], keep);
    }
  }

  /** `files.filter { $0.pathExtension == "scarycreature" }`. */
  function DocEntries(listing: seq<string>): (r: seq<string>)
    ensures forall n :: n in r <==> n in listing && IsDocEntry(n)
  {
    Filter(listing, IsDocEntry)
  }

  /** Entries with another extension play no part in allocation. */
  lemma AllocationSeesOnlyDocEntries(listing: seq<string>)
    ensures MaxNumber(DocEntries(listing)) == MaxNumber(listing)
  {
    var m := MaxNumber(listing);
    MaxNumberBounds(listing);
    MaxNumberIs(DocEntries(listing), m);
  }

  /** The document paths `loadScaryCreatureDocs` binds: none when the listing failed. */
  function DocPaths(listing: Option<seq<string>>): (r: seq<Path>)
    ensures listing.None? ==> r == []
    ensures listing.Some? ==> |r| == |DocEntries(listing.value)|
    ensures listing.Some? ==> forall i :: 0 <= i < |r| ==> r[i] == Root + [DocEntries(listing.value)[i]]
  {
    match listing
    case None => []
    case Some(files) =>
      var entries := DocEntries(files);
      seq(|entries|, i requires 0 <= i < |entries| => Root + [entries[i]])
  }

  /** The documents `1.scarycreature` … `k.scarycreature`, in that order. */
  function Consecutive(k: nat): (r: seq<string>)
    ensures |r| == k
    ensures forall i :: 0 <= i < k ==> r[i] == DocName(i + 1)
  {
    if k == 0 then [] else Consecutive(k - 1) + [DocName(k)]
  }

  /** After documents 1 to k were created, the next allocation is k + 1. */
  lemma {:induction false} ConsecutiveAllocation(k: nat)
    requires k < IntMax
    ensures MaxNumber(Consecutive(k)) + 1 == k + 1
  {
    if k > 0 {
      ConsecutiveAllocation(k - 1);
      DocNameParses(k);
      NumbersConcat(Consecutive(k - 1), [DocName(k)]);
      ScanMaxConcat(Numbers(Consecutive(k - 1)), Numbers([DocName(k)]));
      assert Numbers([DocName(k)])[..0] == [];
    }
  }

  /** With documents 1 and 3 left after deleting 2, the next allocation is 4, not 2. */
  lemma GapIsNotReused()
    ensures MaxNumber([DocName(1), DocName(3)]) + 1 == 4
  {
    DocNameParses(1);
    DocNameParses(3);
    var nums := Numbers([DocName(1), DocName(3)]);
    assert nums == [Some(1), Some(3)];
    assert nums[..1] == [Some(1)];
    assert nums[..1][..0] == [];
  }

  /**
   * The folder allocated when the file system holds `files` and `dirs`: one
   * past the largest number among the root's entries, whatever order they
   * are listed in.
   */
  ghost function AllocatedPath(files: map<Path, Bytes>, dirs: set<Path>): (p: Path)
    ensures |p| == |Root| + 1 && p[..|Root|] == Root
  {
    Root + [DocName(MaxOfSet(NumbersOf(ChildNames(files, dirs, Root))) + 1)]
  }

  /**
   * `nextScaryCreatureDocPath`: lists the root folder and allocates from the
   * listing. The result depends only on which entries exist, and names a path
   * where nothing exists yet.
   */
  method NextDocPath(fs: FileSystem) returns (p: Option<Path>)
    requires forall n :: n in ChildNames(fs.files, fs.dirs, Root) && IsDocEntry(n) ==> ParsedPrefix(n) < IntMax
    ensures p.None? <==> !IsDir(fs.dirs, Root) || Root in fs.denied
    ensures p.Some? ==> p.value == AllocatedPath(fs.files, fs.dirs)
    ensures p.Some? ==> p.value !in fs.files && p.value !in fs.dirs
  {
    var files := fs.ContentsOfDirectory(Root);
    p := AllocateFromListing(files);
    if files.Some? {
      var names := ChildNames(fs.files, fs.dirs, Root);
      ScanIsMaxOfSet(files.value, names);
      AllocatedNameIsFresh(files.value);
      DocNameParses(MaxNumber(files.value) + 1);
    }
  }
}
