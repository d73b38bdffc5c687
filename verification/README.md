# Scary Creatures document store

A model of the storage layer of the Scary Creatures app:
- `ScaryCreatureDoc` is one creature's document. It is a folder `<n>.scarycreature` under the private documents folder. The folder holds `Data.plist`, which is the archived title and rating. The picture getters look for `thumbImage.png` and `fullImage.png` in the same folder.
- The document reads its record and its pictures lazily and caches them. It allocates its folder on first save, and it can delete the folder.
- `ScaryCreatureDatabase` allocates the next folder name, which is one more than the largest numeric prefix found. It also enumerates the existing documents.

Modules:

- `Wrappers`: `Option`.
- `Names`:
  - Swift's `Int(String)`, with 64-bit bounds;
  - the decimal rendering used by string interpolation;
  - the split of a file name into its stem and path extension.
- `FileStore`: an abstract `FileManager`, as a class `FileSystem`. It holds a map of file paths to bytes, a set of directories, and a fixed set of paths on which every operation fails. A ghost counter records how many reads have been made.
- `RecordCodec`: the record, the keyed archiver, and the image decoder. Both codecs are parameters.
- `Database`:
  - the allocation scan, as an imperative loop proved against the function `MaxNumber`;
  - its properties;
  - the enumeration filter.
- `Document`:
  - the class `CreatureDoc`, with its cached fields and the folder path as fields;
  - `LoadCreatureDocs`;
  - scenarios that combine several operations.

Where the code traps (`docPath!`, `try!` on malformed archive bytes, `maxNumber + 1` overflowing `Int`), the model turns the condition into a precondition. These preconditions are `CanAllocate`, `DataReadable` and `NoOverflow`.

Behaviour worth noting:
- `saveData` writes only `Data.plist` (ScaryCreatures/Model/ScaryCreatureDoc.swift:115-140). The pictures given to `init(title:rating:thumbImage:fullImage:)` stay in memory and are never written. `SaveThenReload` shows the consequence: a document created with a thumbnail reads back with none.
- `createDataPath` assigns `docPath` before it creates the directory. When creation throws, the document keeps the new path, and a later save tries to write into a folder that does not exist.
- An undecodable record traps the process. It does not surface a recoverable error.
- The listing order of `contentsOfDirectory` is unspecified. `FileSystem.ContentsOfDirectory` picks any order, and allocation is proved not to depend on it.

## Model

| member | source | states |
|---|---|---|
| Database.ScanListing | ScaryCreatures/Model/ScaryCreatureDoc.swift:160-168 | the loop over the listing leaves `maxNumber` equal to `MaxNumber` of the listing: the largest `Int(prefix) ?? 0` over `scarycreature` entries, starting from 0 |
| Database.AllocateFromListing | ScaryCreatures/Model/ScaryCreatureDoc.swift:154-174 | nil exactly when the listing failed; otherwise the root joined with `"\(maxNumber + 1).scarycreature"`, and the increment cannot overflow |
| Database.NextDocPath | ScaryCreatures/Model/ScaryCreatureDoc.swift:154-174 | nil exactly when the root is missing or unreadable; otherwise a path that depends only on the set of entries in the root, not on listing order, and at which no file or folder exists yet |
| Database.AllocatedNameIsFresh | ScaryCreatures/Model/ScaryCreatureDoc.swift:160-173 | the allocated number is at least 1 and larger than every document's prefix, and the allocated name is not in the listing |
| Database.MaxNumberBounds | ScaryCreatures/Model/ScaryCreatureDoc.swift:160-168 | the scan result bounds every document's parsed prefix and is 0 or the prefix of some document |
| Database.MaxNumberIs | ScaryCreatures/Model/ScaryCreatureDoc.swift:160-168 | any number with those two properties is the scan result (the characterization is unique) |
| Database.MaxNumberBelowIntMax | ScaryCreatures/Model/ScaryCreatureDoc.swift:172 | when no prefix is the largest `Int`, `maxNumber + 1` fits an `Int` |
| Database.ScanMax | ScaryCreatures/Model/ScaryCreatureDoc.swift:160-168 | the scan is non-negative, bounds every number seen, and is 0 or one of them |
| Database.ParsedPrefix | ScaryCreatures/Model/ScaryCreatureDoc.swift:165-166 | the number taken from a document entry fits an `Int` and is 0 when the stem does not parse |
| Database.EntryNumber | ScaryCreatures/Model/ScaryCreatureDoc.swift:164-166 | an entry contributes a number exactly when its extension is `scarycreature`; other extensions are ignored |
| Database.DocNameParses | ScaryCreatures/Model/ScaryCreatureDoc.swift:164-172 | the name built for number n is a visible document entry whose prefix parses back to n |
| Database.ScanMaxConcat | ScaryCreatures/Model/ScaryCreatureDoc.swift:163-167 | scanning two listings in turn yields the larger of their separate scans |
| Database.RemovalBelowMaximumKeepsAllocation | ScaryCreatures/Model/ScaryCreatureDoc.swift:163-167 | removing any entry that is not a unique highest document leaves the next allocation unchanged, so gaps are never filled in |
| Database.GapIsNotReused | ScaryCreatures/Model/ScaryCreatureDoc.swift:160-173 | with documents 1 and 3 present, the next allocation is 4, not 2 |
| Database.ConsecutiveAllocation | ScaryCreatures/Model/ScaryCreatureDoc.swift:160-173 | after documents 1 to k, the next allocation is k + 1 |
| Database.MaxOfSet | ScaryCreatures/Model/ScaryCreatureDoc.swift:163-167 | the maximum of a set of numbers, as the scan defines it |
| Database.ScanIsMaxOfSet | ScaryCreatures/Model/ScaryCreatureDoc.swift:163-167 | the scan of any listing of a set of names equals the maximum of that set: the order and repetition of entries do not matter |
| Database.AllocationIgnoresOrder | ScaryCreatures/Model/ScaryCreatureDoc.swift:163-167 | two listings with the same entries allocate the same number |
| Database.AllocationSeesOnlyDocEntries | ScaryCreatures/Model/ScaryCreatureDoc.swift:164 | dropping every entry whose extension is not `scarycreature` does not change the allocation |
| Database.Filter | ScaryCreatures/Model/ScaryCreatureDoc.swift:203-204 | keeps exactly the entries the predicate accepts, and never more entries than the input has |
| Database.FilterConcat | ScaryCreatures/Model/ScaryCreatureDoc.swift:203-204 | filtering distributes over concatenation, so it keeps the listing's order |
| Database.DocEntries | ScaryCreatures/Model/ScaryCreatureDoc.swift:204 | keeps exactly the listed entries whose extension is `scarycreature` |
| Database.DocPaths | ScaryCreatures/Model/ScaryCreatureDoc.swift:196-206 | no paths when the listing failed; otherwise one path under the root per document entry, in listing order |
| Names.Decimal | ScaryCreatures/Model/ScaryCreatureDoc.swift:172 | `"\(n)"` for n >= 0 is a non-empty string of digits without a leading zero, whose digits read back as n |
| Names.ParseDecimal | ScaryCreatures/Model/ScaryCreatureDoc.swift:166-172 | `Int("\(n)") == n` for every n that fits an `Int` |
| Names.ParseInt | ScaryCreatures/Model/ScaryCreatureDoc.swift:166 | `Int(String)` yields only values within the 64-bit range, and only for text that starts with a digit or a sign |
| Names.ParseDigits | ScaryCreatures/Model/ScaryCreatureDoc.swift:166 | a value exactly for a non-empty run of decimal digits |
| Names.ExtensionSplit | ScaryCreatures/Model/ScaryCreatureDoc.swift:164-165 | `pathExtension` holds no dot; a name with a dot is its `deletingPathExtension` stem, a dot and its extension; a name without one has an empty extension and is its own stem |
| Database.DocEntrySuffix | ScaryCreatures/Model/ScaryCreatureDoc.swift:164 | an entry counts as a document exactly when its name ends in `.scarycreature` |
| Database.DocName | ScaryCreatures/Model/ScaryCreatureDoc.swift:172 | `"\(n).scarycreature"` is a document entry whose stem is the decimal rendering of n |
| Names.LastDot | ScaryCreatures/Model/ScaryCreatureDoc.swift:164-165 | the position of the last dot, or no dot at all |
| Names.SplitExtension | ScaryCreatures/Model/ScaryCreatureDoc.swift:164-165 | a name `stem.ext` with no dot in `ext` has path extension `ext` and stem `stem` |
| FileStore.ChildNames | ScaryCreatures/Model/ScaryCreatureDoc.swift:155-158 | a name is listed exactly when it is not hidden and a file or folder with that name exists in the directory |
| FileStore.FileSystem.ContentsOfDirectory | ScaryCreatures/Model/ScaryCreatureDoc.swift:155-158 | nil exactly when the directory is missing or unreadable; otherwise each visible child once, in some order |
| FileStore.FileSystem.CreateDirectory | ScaryCreatures/Model/ScaryCreatureDoc.swift:110-112 | creates the path and all its missing parents, or fails without change on a denied path or a file in the way |
| FileStore.FileSystem.MkdirFreshChild | ScaryCreatures/Model/ScaryCreatureDoc.swift:110-112 | creating a fresh child of an existing directory fails only when the path is denied |
| FileStore.FileSystem.Read | ScaryCreatures/Model/ScaryCreatureDoc.swift:46 | returns the file's bytes or nothing, counting one read |
| FileStore.FileSystem.Write | ScaryCreatures/Model/ScaryCreatureDoc.swift:136 | writes exactly that file, or fails without change |
| FileStore.FileSystem.RemoveItem | ScaryCreatures/Model/ScaryCreatureDoc.swift:145 | removes the path and everything below it, keeps everything else, or fails without change |
| FileStore.ReadResult | ScaryCreatures/Model/ScaryCreatureDoc.swift:46 | a read succeeds exactly for an existing, permitted file and yields its bytes |
| FileStore.FilesWithout | ScaryCreatures/Model/ScaryCreatureDoc.swift:145 | exactly the files not under the removed path remain, with their bytes |
| FileStore.DirsWithout | ScaryCreatures/Model/ScaryCreatureDoc.swift:145 | exactly the folders not under the removed path remain |
| FileStore.SelfAndAncestors | ScaryCreatures/Model/ScaryCreatureDoc.swift:110-112 | the path and every non-root folder above it |
| FileStore.RemovalDropsOneEntry | ScaryCreatures/Model/ScaryCreatureDoc.swift:145 | removing a document folder takes exactly that name out of the root listing |
| FileStore.NothingInMissingDir | ScaryCreatures/Model/ScaryCreatureDoc.swift:110-136 | nothing exists inside a folder that does not exist |
| RecordCodec.StoredRecord | ScaryCreatures/Model/ScaryCreatureDoc.swift:46-50 | no record when the file is missing; otherwise a record exactly when the archive holds a `ScaryCreatureData` |
| RecordCodec.StoredImage | ScaryCreatures/Model/ScaryCreatureDoc.swift:66-67 | no picture when the file is missing; otherwise what `UIImage(data:)` makes of the bytes |
| RecordCodec.ReadBackArchived | ScaryCreatures/Model/ScaryCreatureDoc.swift:49-50 | a record archived by a round-tripping archiver unarchives to the same record |
| Database.AllocatedPath | ScaryCreatures/Model/ScaryCreatureDoc.swift:171-173 | an allocated folder is a direct child of the root |
| Document.CreatureDoc.GetData | ScaryCreatures/Model/ScaryCreatureDoc.swift:40-53 | the cached record with no read; otherwise exactly one read of `Data.plist`, whose decoded record is returned and cached |
| Document.CreatureDoc.SetData | ScaryCreatures/Model/ScaryCreatureDoc.swift:54-56 | replaces the cached record and touches no file |
| Document.CreatureDoc.ReadImage | ScaryCreatures/Model/ScaryCreatureDoc.swift:65-67 | one read of the named picture file in the folder, yielding nothing when the file is missing or unreadable and otherwise what the image decoder makes of its bytes |
| Document.CreatureDoc.GetThumbImage | ScaryCreatures/Model/ScaryCreatureDoc.swift:61-69 | the cached thumbnail with no read; nil with no read when there is no folder; otherwise one read of `thumbImage.png`, decoded and cached |
| Document.CreatureDoc.SetThumbImage | ScaryCreatures/Model/ScaryCreatureDoc.swift:70-72 | replaces the cached thumbnail and touches no file |
| Document.CreatureDoc.GetFullImage | ScaryCreatures/Model/ScaryCreatureDoc.swift:77-85 | the same as the thumbnail getter, for `fullImage.png` |
| Document.CreatureDoc.SetFullImage | ScaryCreatures/Model/ScaryCreatureDoc.swift:86-88 | replaces the cached full picture and touches no file |
| Document.CreatureDoc.Create | ScaryCreatures/Model/ScaryCreatureDoc.swift:91-97 | holds the given record and pictures, allocates a fresh folder, writes only `Data.plist` into it, and reads no file |
| Document.CreatureDoc.AtPath | ScaryCreatures/Model/ScaryCreatureDoc.swift:101-104 | bound to the folder, with nothing read |
| Document.CreatureDoc.CreateDataPath | ScaryCreatures/Model/ScaryCreatureDoc.swift:106-113 | no change once a folder is set; otherwise assigns the fresh allocated path and creates it, and the path stays assigned when creation fails |
| Document.CreatureDoc.SaveData | ScaryCreatures/Model/ScaryCreatureDoc.swift:115-140 | nothing when there is no record; otherwise ensures a folder, and writes only the archived record to `Data.plist` unless folder creation or the write fails; it reads `Data.plist` once exactly when no record was cached |
| Document.CreatureDoc.DeleteDoc | ScaryCreatures/Model/ScaryCreatureDoc.swift:142-150 | removes the folder and everything in it and nothing else; no change without a folder or on failure |
| Document.DocsFromListing | ScaryCreatures/Model/ScaryCreatureDoc.swift:203-205 | one fresh, distinct, unloaded document per document entry, in listing order |
| Document.LoadCreatureDocs | ScaryCreatures/Model/ScaryCreatureDoc.swift:196-206 | no documents when the root cannot be listed; otherwise one distinct, unloaded document per `scarycreature` entry, in listing order |
| Document.ReadRecordTwice | ScaryCreatures/Model/ScaryCreatureDoc.swift:40-53 | once the record has been read, reading it again returns the same record; the two reads together read `Data.plist` once when nothing was cached and not at all when it was |
| Document.NewFolderHoldsOnlyRecord | ScaryCreatures/Model/ScaryCreatureDoc.swift:128-139 | when nothing is denied, a record saved into a new folder is written, reads back unchanged, and the folder holds no thumbnail |
| Document.SaveThenReload | ScaryCreatures/Model/ScaryCreatureDoc.swift:91-140 | when nothing is denied, a document created and reopened from its folder reads back the saved record and no thumbnail |

## Left out

- The real file system is left out. `FileManager` becomes the `FileSystem` class, in which failures are a fixed set of denied paths.
- URLs are not modelled: paths are sequences of components, and trailing slashes and percent-encoding are ignored.
- The lazy initialisation of `privateDocsDir` is not modelled. This includes its own `createDirectory` and its failure handling (lines 176-194), so the root is the constant `Root`.
- `print` logging is not modelled.
- `NSKeyedArchiver`/`NSKeyedUnarchiver` and `UIImage(data:)` are function parameters. Their encodings are not modelled. The `Float` rating is carried as its 32-bit pattern.
- Traps are preconditions, not modelled behaviour:
  - `docPath!` (a nil listing in `createDataPath`, or a missing folder in the `data` getter);
  - `try!` on malformed archive bytes;
  - the `Int` overflow of `maxNumber + 1`.
- The archiver's own `try!` in `saveData` is assumed not to throw.
- PathExtension: takes the text after the last dot of the name. Foundation's extra rules are not modelled. These are a name that is only a dot-prefixed stem, an extension containing spaces, and a trailing slash.
- ParseInt: models `Int(String)` for ASCII digits with an optional sign. Other Unicode digits and whitespace make it nil, as in Swift.
- Concurrency is not modelled: two documents bound to the same folder, and the OS changing files between calls.
- NSObject/`super.init` plumbing is not modelled.
