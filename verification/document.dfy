/**
 * `ScaryCreatureDoc`: one creature's folder, with lazily read and cached
 * access to its record and its two pictures, and the operations that
 * allocate, save and delete the folder; and `loadScaryCreatureDocs`, which
 * binds a document to every folder found under the root.
 */
module Document {
  import opened Wrappers
  import opened Names
  import opened FileStore
  import opened RecordCodec
  import opened Database

  /** `Keys`: the files inside a document folder. */
  const DataFile: string := "Data.plist"
  const ThumbImageFile: string := "thumbImage.png"
  const FullImageFile: string := "fullImage.png"

  /**
   * Allocation cannot trap: the root folder can be listed (a nil path would
   * trap at `docPath!`) and no document's prefix is already the largest `Int`.
   */
  ghost predicate CanAllocate(files: map<Path, Bytes>, dirs: set<Path>, denied: set<Path>)
  {
    && Root in dirs && Root !in denied
    && forall n :: n in ChildNames(files, dirs, Root) && IsDocEntry(n) ==> ParsedPrefix(n) < IntMax
  }

  /** `Data.plist` in `folder` holds `bytes` unless the write fails; no other file changes. */
  ghost predicate RecordWritten(files0: map<Path, Bytes>, files: map<Path, Bytes>, dirs: set<Path>, denied: set<Path>,
                                folder: Path, bytes: Bytes)
  {
    var dataPath := folder + [DataFile];
    files == if WriteFails(dirs, denied, dataPath) then files0 else files0[dataPath := bytes]
  }

  /**
   * A save into a newly allocated `folder`: the folder did not exist; it and
   * its parents now exist unless it is denied, and then only the record is
   * written into it.
   */
  ghost predicate SavedInNewFolder(files0: map<Path, Bytes>, dirs0: set<Path>, files: map<Path, Bytes>, dirs: set<Path>,
                                   denied: set<Path>, folder: Path, bytes: Bytes)
  {
    && folder !in files0 && folder !in dirs0
    && dirs == (if folder in denied then dirs0 else dirs0 + SelfAndAncestors(folder))
    && (if folder in denied then files == files0 else RecordWritten(files0, files, dirs, denied, folder, bytes))
  }

  class CreatureDoc {
    /** `_data`, `_thumbImage`, `_fullImage`: what has been read or set so far. */
    var cachedData: Option<CreatureData>
    var cachedThumb: Option<Image>
    var cachedFull: Option<Image>
    /** The document's folder; nil until one is allocated. */
    var docPath: Option<Path>

    /** Nothing has been read or set yet. */
    ghost predicate Unloaded()
      reads this
    {
      cachedData.None? && cachedThumb.None? && cachedFull.None?
    }

    /**
     * The `data` getter cannot trap: with nothing cached there is a folder
     * (`docPath!`), and a readable `Data.plist` is not malformed (`try!`).
     */
    ghost predicate DataReadable(fs: FileSystem, archiver: Archiver)
      reads this, fs
    {
      cachedData.None? ==>
        && docPath.Some?
        && var stored := ReadResult(fs.files, fs.denied, docPath.value + [DataFile]);
           stored.Some? ==> !archiver.unarchive(stored.value).Malformed?
    }

    /** What the `data` getter returns: the cached record, or else the one on disk. */
    ghost function CurrentData(fs: FileSystem, archiver: Archiver): Option<CreatureData>
      reads this, fs
      requires DataReadable(fs, archiver)
    {
      if cachedData.Some? then cachedData
      else StoredRecord(ReadResult(fs.files, fs.denied, docPath.value + [DataFile]), archiver)
    }

    /** `init(docPath:)`: bound to an existing folder, nothing read. */
    constructor AtPath(docPath: Path)
      ensures this.docPath == Some(docPath)
      ensures Unloaded()
    {
      this.docPath := Some(docPath);
      cachedData, cachedThumb, cachedFull := None, None, None;
    }

    /**
     * `init(title:rating:thumbImage:fullImage:)`: a new document holding the
     * given record and pictures, saved at once. Saving allocates a folder and
     * writes only `Data.plist` into it.
     */
    constructor Create(title: string, rating: Rating, thumbImage: Option<Image>, fullImage: Option<Image>,
                       fs: FileSystem, archiver: Archiver)
      requires fs.Valid() && CanAllocate(fs.files, fs.dirs, fs.denied)
      modifies fs`files, fs`dirs, fs`readCount
      ensures fs.Valid()
      ensures cachedData == Some(CreatureData(title, rating))
      ensures cachedThumb == thumbImage && cachedFull == fullImage
      ensures docPath == Some(old(AllocatedPath(fs.files, fs.dirs)))
      ensures SavedInNewFolder(old(fs.files), old(fs.dirs), fs.files, fs.dirs, fs.denied,
                               docPath.value, archiver.archive(cachedData.value))
      ensures fs.readCount == old(fs.readCount)
    {
      ghost var files0, dirs0 := fs.files, fs.dirs;
      cachedData := Some(CreatureData(title, rating));
      cachedThumb, cachedFull := None, None;
      docPath := None;
      new;
      SetThumbImage(thumbImage);
      SetFullImage(fullImage);
      assert fs.files == files0 && fs.dirs == dirs0;
      SaveData(fs, archiver);
      assert SavedInNewFolder(files0, dirs0, fs.files, fs.dirs, fs.denied, docPath.value, archiver.archive(cachedData.value));
    }

    /**
     * The `data` getter: the cached record without any read; otherwise one
     * read of `Data.plist`, whose record, if any, is cached. A missing file
     * yields nil and leaves the cache empty.
     */
    method GetData(fs: FileSystem, archiver: Archiver) returns (data: Option<CreatureData>)
      requires DataReadable(fs, archiver)
      modifies this`cachedData, fs`readCount
      ensures data == old(CurrentData(fs, archiver))
      ensures cachedData == data
      ensures fs.readCount == old(fs.readCount) + if old(cachedData).Some? then 0 else 1
    {
      if cachedData.Some? {
        return cachedData;
      }
      var dataURL := docPath.value + [DataFile];
      var codedData := fs.Read(dataURL);
      if codedData.None? {
        return None;
      }
      cachedData := match archiver.unarchive(codedData.value)
        case Archived(d) => Some(d)
        case _ => None;
      data := cachedData;
    }

    /** The `data` setter: replaces the cached record only. */
    method SetData(value: Option<CreatureData>)
      modifies this`cachedData
      ensures cachedData == value
    {
      cachedData := value;
    }

    /** The read-through shared by the two picture getters. */
    method ReadImage(fs: FileSystem, file: string, decode: ImageDecoder) returns (image: Option<Image>)
      requires docPath.Some?
      modifies fs`readCount
      ensures image == StoredImage(ReadResult(fs.files, fs.denied, docPath.value + [file]), decode)
      ensures fs.readCount == old(fs.readCount) + 1
    {
      var imageURL := docPath.value + [file];
      var imageData := fs.Read(imageURL);
      if imageData.None? {
        return None;
      }
      image := decode(imageData.value);
    }

    /**
     * The `thumbImage` getter: the cached picture without any read; nil
     * without a read when there is no folder; otherwise one read of
     * `thumbImage.png`, whose decoding is cached.
     */
    method GetThumbImage(fs: FileSystem, decode: ImageDecoder) returns (image: Option<Image>)
      modifies this`cachedThumb, fs`readCount
      ensures old(cachedThumb).Some? ==> image == old(cachedThumb) && fs.readCount == old(fs.readCount)
      ensures old(cachedThumb).None? && docPath.None? ==> image.None? && fs.readCount == old(fs.readCount)
      ensures old(cachedThumb).None? && docPath.Some? ==>
                && image == StoredImage(ReadResult(fs.files, fs.denied, docPath.value + [ThumbImageFile]), decode)
                && fs.readCount == old(fs.readCount) + 1
      ensures cachedThumb == image
    {
      if cachedThumb.Some? {
        return cachedThumb;
      }
      if docPath.None? {
        return None;
      }
      image := ReadImage(fs, ThumbImageFile, decode);
      if image.Some? {
        cachedThumb := image;
      }
    }

    /** The `thumbImage` setter: replaces the cached picture only. */
    method SetThumbImage(value: Option<Image>)
      modifies this`cachedThumb
      ensures cachedThumb == value
    {
      cachedThumb := value;
    }

    /** The `fullImage` getter: as the `thumbImage` getter, reading `fullImage.png`. */
    method GetFullImage(fs: FileSystem, decode: ImageDecoder) returns (image: Option<Image>)
      modifies this`cachedFull, fs`readCount
      ensures old(cachedFull).Some? ==> image == old(cachedFull) && fs.readCount == old(fs.readCount)
      ensures old(cachedFull).None? && docPath.None? ==> image.None? && fs.readCount == old(fs.readCount)
      ensures old(cachedFull).None? && docPath.Some? ==>
                && image == StoredImage(ReadResult(fs.files, fs.denied, docPath.value + [FullImageFile]), decode)
                && fs.readCount == old(fs.readCount) + 1
      ensures cachedFull == image
    {
      if cachedFull.Some? {
        return cachedFull;
      }
      if docPath.None? {
        return None;
      }
      image := ReadImage(fs, FullImageFile, decode);
      if image.Some? {
        cachedFull := image;
      }
    }

    /** The `fullImage` setter: replaces the cached picture only. */
    method SetFullImage(value: Option<Image>)
      modifies this`cachedFull
      ensures cachedFull == value
    {
      cachedFull := value;
    }

    /**
     * `createDataPath`: nothing to do once a folder is assigned. Otherwise the
     * freshly allocated path is assigned first and then created; `ok` is
     * false when creation throws, and the path then stays assigned.
     */
    method CreateDataPath(fs: FileSystem) returns (ok: bool)
      requires fs.Valid()
      requires docPath.None? ==> CanAllocate(fs.files, fs.dirs, fs.denied)
      modifies this`docPath, fs`dirs
      ensures fs.Valid()
      ensures old(docPath).Some? ==> ok && docPath == old(docPath) && fs.dirs == old(fs.dirs)
      ensures old(docPath).None? ==> docPath == Some(old(AllocatedPath(fs.files, fs.dirs)))
      ensures old(docPath).None? ==> docPath.value !in fs.files && docPath.value !in old(fs.dirs)
      ensures old(docPath).None? ==> ok == (docPath.value !in fs.denied)
      ensures old(docPath).None? ==> fs.dirs == if ok then old(fs.dirs) + SelfAndAncestors(docPath.value) else old(fs.dirs)
    {
      if docPath.Some? {
        return true;
      }
      docPath := NextDocPath(fs);
      var name := docPath.value[|Root|];
      assert docPath.value == Root + [name];
      fs.MkdirFreshChild(Root, name);
      ok := fs.CreateDirectory(docPath.value);
    }

    /**
     * `saveData`: nothing when the `data` getter yields nil. Otherwise makes
     * sure of a folder, giving up if creating it throws, and writes the
     * archived record to `Data.plist` there; a failed write is ignored. The
     * pictures are not written.
     */
    method SaveData(fs: FileSystem, archiver: Archiver)
      requires fs.Valid() && DataReadable(fs, archiver)
      requires docPath.None? ==> CanAllocate(fs.files, fs.dirs, fs.denied)
      modifies this`cachedData, this`docPath, fs`files, fs`dirs, fs`readCount
      ensures fs.Valid()
      ensures cachedData == old(CurrentData(fs, archiver))
      ensures fs.readCount == old(fs.readCount) + if old(cachedData).Some? then 0 else 1
      ensures old(cachedData).Some? ==> cachedData == old(cachedData)
      ensures cachedData.None? ==> docPath == old(docPath) && fs.files == old(fs.files) && fs.dirs == old(fs.dirs)
      ensures cachedData.Some? && old(docPath).Some? ==>
                && docPath == old(docPath) && fs.dirs == old(fs.dirs)
                && RecordWritten(old(fs.files), fs.files, fs.dirs, fs.denied, docPath.value, archiver.archive(cachedData.value))
      ensures cachedData.Some? && old(docPath).None? ==>
                && docPath == Some(old(AllocatedPath(fs.files, fs.dirs)))
                && SavedInNewFolder(old(fs.files), old(fs.dirs), fs.files, fs.dirs, fs.denied,
                                    docPath.value, archiver.archive(cachedData.value))
    {
      var data := GetData(fs, archiver);
      if data.None? {
        return;
      }
      var folderOk := CreateDataPath(fs);
      if !folderOk {
        return;
      }
      var dataURL := docPath.value + [DataFile];
      var codedData := archiver.archive(data.value);
      var written := fs.Write(dataURL, codedData);
    }

    /**
     * `deleteDoc`: removes the folder and everything in it, touching nothing
     * else; nothing happens without a folder or when removal throws.
     */
    method DeleteDoc(fs: FileSystem)
      requires fs.Valid()
      modifies fs`files, fs`dirs
      ensures fs.Valid()
      ensures docPath.None? ==> fs.files == old(fs.files) && fs.dirs == old(fs.dirs)
      ensures docPath.Some? ==>
                var removed := !RemoveFails(old(fs.files), old(fs.dirs), fs.denied, docPath.value);
                && fs.files == (if removed then FilesWithout(old(fs.files), docPath.value) else old(fs.files))
                && fs.dirs == (if removed then DirsWithout(old(fs.dirs), docPath.value) else old(fs.dirs))
    {
      if docPath.Some? {
        var removed := fs.RemoveItem(docPath.value);
      }
    }
  }

  /** The `.map { ScaryCreatureDoc(docPath: $0) }` over the filtered listing. */
  method DocsFromListing(listing: Option<seq<string>>) returns (docs: seq<CreatureDoc>)
    ensures |docs| == |DocPaths(listing)|
    ensures forall i :: 0 <= i < |docs| ==> fresh(docs[i]) && docs[i].Unloaded() && docs[i].docPath == Some(DocPaths(listing)[i])
    ensures forall i, j :: 0 <= i < j < |docs| ==> docs[i] != docs[j]
  {
    var paths := DocPaths(listing);
    docs := [];
    for i := 0 to |paths|
      invariant |docs| == i
      invariant forall k :: 0 <= k < i ==> fresh(docs[k]) && docs[k].Unloaded() && docs[k].docPath == Some(paths[k])
      invariant forall k, l :: 0 <= k < l < i ==> docs[k] != docs[l]
    {
      var doc := new CreatureDoc.AtPath(paths[i]);
      docs := docs + [doc];
    }
  }

  /**
   * `loadScaryCreatureDocs`: one unloaded document per `scarycreature` entry
   * of the root folder, in the order the listing reports them; none when
   * the root folder cannot be listed.
   */
  method LoadCreatureDocs(fs: FileSystem) returns (docs: seq<CreatureDoc>, ghost listing: Option<seq<string>>)
    ensures listing.None? <==> Root !in fs.dirs || Root in fs.denied
    ensures listing.Some? ==> ListsExactly(listing.value, ChildNames(fs.files, fs.dirs, Root))
    ensures listing.None? ==> docs == []
    ensures |docs| == |DocPaths(listing)|
    ensures forall i :: 0 <= i < |docs| ==> fresh(docs[i]) && docs[i].Unloaded() && docs[i].docPath == Some(DocPaths(listing)[i])
    ensures forall i, j :: 0 <= i < j < |docs| ==> docs[i] != docs[j]
  {
    var files := fs.ContentsOfDirectory(Root);
    listing := files;
    docs := DocsFromListing(files);
  }

  /**
   * Reading the record twice: once it has been read, the second read
   * returns the same record and touches no file.
   */
  method ReadRecordTwice(doc: CreatureDoc, fs: FileSystem, archiver: Archiver)
    returns (first: Option<CreatureData>, second: Option<CreatureData>)
    requires doc.DataReadable(fs, archiver)
    modifies doc`cachedData, fs`readCount
    ensures first.Some? ==> second == first
    ensures first.Some? ==> fs.readCount == old(fs.readCount) + (if old(doc.cachedData).Some? then 0 else 1)
    ensures first.None? ==> second.None?
  {
    first := doc.GetData(fs, archiver);
    second := doc.GetData(fs, archiver);
  }

  /**
   * Saving a record into a folder that did not exist: the write succeeds
   * when nothing is denied, the record reads back, and the folder holds no
   * thumbnail.
   */
  lemma NewFolderHoldsOnlyRecord(files: map<Path, Bytes>, dirs: set<Path>, folder: Path, d: CreatureData, archiver: Archiver)
    requires WellFormed(files, dirs) && folder != [] && folder !in dirs && archiver.RoundTrips()
    ensures !WriteFails(dirs + SelfAndAncestors(folder), {}, folder + [DataFile])
    ensures var saved := files[folder + [DataFile] := archiver.archive(d)];
            && ReadResult(saved, {}, folder + [DataFile]) == Some(archiver.archive(d))
            && StoredRecord(Some(archiver.archive(d)), archiver) == Some(d)
            && ReadResult(saved, {}, folder + [ThumbImageFile]).None?
  {
    NothingInMissingDir(files, dirs, folder, DataFile);
    NothingInMissingDir(files, dirs, folder, ThumbImageFile);
    assert ThumbImageFile != DataFile by {
      assert ThumbImageFile[0] != DataFile[0];
    }
    assert folder in SelfAndAncestors(folder);
    ReadBackArchived(archiver, d);
  }

  /**
   * Creating a document and reading it back through a fresh handle on the
   * same folder gives the record that was saved, and no thumbnail: the
   * pictures given at creation are never written.
   */
  method SaveThenReload(title: string, rating: Rating, thumbImage: Option<Image>, fullImage: Option<Image>,
                        fs: FileSystem, archiver: Archiver, decode: ImageDecoder)
    returns (record: Option<CreatureData>, thumb: Option<Image>)
    requires fs.Valid() && CanAllocate(fs.files, fs.dirs, fs.denied) && fs.denied == {} && archiver.RoundTrips()
    modifies fs`files, fs`dirs, fs`readCount
    ensures record == Some(CreatureData(title, rating))
    ensures thumb.None?
  {
    ghost var files0, dirs0 := fs.files, fs.dirs;
    ghost var d := CreatureData(title, rating);
    var doc := new CreatureDoc.Create(title, rating, thumbImage, fullImage, fs, archiver);
    var folder := doc.docPath.value;
    ghost var dataPath := folder + [DataFile];
    NewFolderHoldsOnlyRecord(files0, dirs0, folder, d, archiver);
    assert fs.dirs == dirs0 + SelfAndAncestors(folder);
    assert fs.files == files0[dataPath := archiver.archive(d)];
    var again := new CreatureDoc.AtPath(folder);
    record := again.GetData(fs, archiver);
    assert ReadResult(fs.files, fs.denied, folder + [ThumbImageFile]).None?;
    assert again.cachedThumb.None? && again.docPath == Some(folder);
    thumb := again.GetThumbImage(fs, decode);
    assert thumb == StoredImage(None, decode);
  }
}
