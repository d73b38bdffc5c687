/**
 * The record a creature document stores, and the two foreign codecs the
 * document relies on: the keyed archiver that turns a record into bytes and
 * back, and the image decoder behind `UIImage(data:)`. Both codecs are
 * parameters, so nothing here depends on how they work inside.
 */
module RecordCodec {
  import opened Wrappers
  import opened FileStore

  /** The bit pattern of the record's 32-bit `Float` rating, carried without arithmetic. */
  type Rating = bv32

  /** The title and rating held in `Data.plist`. */
  datatype CreatureData = CreatureData(title: string, rating: Rating)

  /**
   * What unarchiving a byte sequence gives: a creature record, some other
   * top-level object (or none), or an error thrown on malformed bytes.
   */
  datatype Unarchived = Archived(value: CreatureData) | OtherObject | Malformed

  /** `NSKeyedArchiver.archivedData` paired with `NSKeyedUnarchiver.unarchiveTopLevelObjectWithData`. */
  datatype Archiver = Archiver(archive: CreatureData -> Bytes, unarchive: Bytes -> Unarchived) {

    /** Unarchiving what was archived gives back the same record. */
    ghost predicate RoundTrips()
    {
      forall d :: unarchive(archive(d)) == Archived(d)
    }
  }

  /** A decoded picture; the model never looks inside one. */
  type Image(==)

  /** `UIImage(data:)`: a picture, or nothing when the bytes are not an image. */
  type ImageDecoder = Bytes -> Option<Image>

  /**
   * The record a read of `Data.plist` yields: nothing when the file could not
   * be read, otherwise the unarchived object cast with `as? ScaryCreatureData`.
   * Malformed bytes make `try!` trap, so they are excluded.
   */
  function StoredRecord(stored: Option<Bytes>, archiver: Archiver): (r: Option<CreatureData>)
    requires stored.Some? ==> !archiver.unarchive(stored.value).Malformed?
    ensures stored.None? ==> r.None?
    ensures stored.Some? ==> (r.Some? <==> archiver.unarchive(stored.value).Archived?)
    ensures r.Some? ==> archiver.unarchive(stored.value) == Archived(r.value)
  {
    match stored
    case None => None
    case Some(bytes) =>
      match archiver.unarchive(bytes)
      case Archived(d) => Some(d)
      case OtherObject => None
      case Malformed => None
  }

  /** The picture a read of an image file yields: nothing when the file could not be read or decoded. */
  function StoredImage(stored: Option<Bytes>, decode: ImageDecoder): (r: Option<Image>)
    ensures stored.None? ==> r.None?
    ensures stored.Some? ==> r == decode(stored.value)
  {
    match stored
    case None => None
    case Some(bytes) => decode(bytes)
  }

  /** What an archiver that round-trips wrote is read back unchanged. */
  lemma ReadBackArchived(archiver: Archiver, d: CreatureData)
    requires archiver.RoundTrips()
    ensures !archiver.unarchive(archiver.archive(d)).Malformed?
    ensures StoredRecord(Some(archiver.archive(d)), archiver) == Some(d)
  {
    assert archiver.unarchive(archiver.archive(d)) == Archived(d);
  }
}
