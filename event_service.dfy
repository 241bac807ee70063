/** The event repository (src/lib/eventService.ts): create, update and delete
    one event as a fixed sequence of calls on the platform, with the uploaded
    image removed again when the row write after it fails. The time-and-random
    part of a storage key (`Date.now()` and `Math.random()`) is the parameter
    `stamp`; the update timestamp `new Date().toISOString()` is `now`. */
module EventService {
  import opened Wrappers
  import opened Types
  import opened Strings
  import opened Sorting
  import opened Platform

  const UploadFailedPrefix: string := "Image upload failed: "
  const CreateFailedPrefix: string := "Failed to create event: "
  const UpdateFailedPrefix: string := "Failed to update event: "
  const FetchFailedPrefix: string := "Failed to fetch event: "
  const DeleteFailedPrefix: string := "Failed to delete event: "

  /** The storage key `${stamp}.${fileExt}` with `fileExt = name.split('.').pop()`. */
  function StorageKey(stamp: string, fileName: string): string {
    stamp + "." + LastSegment(fileName, '.')
  }

  /** The key ends with `.` and the text after the last `.` of the file name (all
      of the name when it has none), and that text is again the key's extension. */
  lemma StorageKeyExtension(stamp: string, fileName: string)
    ensures var key, ext := StorageKey(stamp, fileName), LastSegment(fileName, '.');
      && |key| == |stamp| + 1 + |ext|
      && key[|stamp|] == '.' && key[|stamp| + 1..] == ext
      && '.' !in ext && fileName[|fileName| - |ext|..] == ext
      && (|ext| < |fileName| ==> fileName[|fileName| - |ext| - 1] == '.')
      && ('.' !in fileName ==> ext == fileName)
      && LastSegment(key, '.') == ext
  {
    var ext := LastSegment(fileName, '.');
    LastSegmentShape(fileName, '.');
    LastSegmentAfterSeparator(stamp, '.', ext);
    if '.' !in fileName {
      LastSegmentWithoutSeparator(fileName, '.');
    }
    assert StorageKey(stamp, fileName) == stamp + ['.'] + ext;
  }

  /** The key an image URL denotes when it is cleaned up: `url.split('/').pop()`. */
  function ImageKeyOf(e: Event): string {
    LastSegment(e.image, '/')
  }

  /** The invariant of the data model: every row's image names a stored blob,
      and no two rows share one. */
  ghost predicate ImagesBacked(events: seq<Event>, blobs: set<string>) {
    (forall i :: 0 <= i < |events| ==> ImageKeyOf(events[i]) in blobs) && DistinctBy(events, ImageKeyOf)
  }

  /** Whether an upload of `key` goes through. */
  predicate UploadAccepted(blobs: set<string>, key: string, reply: Reply) {
    reply.Succeeds? && key !in blobs
  }

  /** The error a refused upload reports. */
  function UploadRejection(key: string, reply: Reply): DbError {
    if reply.Fails? then reply.error else DuplicateObject
  }

  /** The blobs after the best-effort removal of the blob an image URL names;
      nothing is removed when the URL's last segment is empty. */
  function AfterCleanup(blobs: set<string>, url: string, reply: Reply): set<string> {
    var fileName := LastSegment(url, '/');
    if fileName != [] && reply.Succeeds? then blobs - {fileName} else blobs
  }

  /** `createEvent`: upload the image, insert the row, and remove the upload
      again if the insert fails. */
  method CreateEvent(b: Backend, data: CreateEventData, stamp: string, now: string,
                     upload: Reply, insert: Reply, cleanup: Reply) returns (r: Result<Event, string>)
    requires b.Valid()
    modifies b
    ensures b.Valid() && b.attendees == old(b.attendees)
    ensures var key := StorageKey(stamp, data.image.name);
      !UploadAccepted(old(b.blobs), key, upload) ==>
        r == Err(UploadFailedPrefix + UploadRejection(key, upload).message)
        && b.events == old(b.events) && b.blobs == old(b.blobs)
    ensures var key := StorageKey(stamp, data.image.name);
      UploadAccepted(old(b.blobs), key, upload) && insert.Fails? ==>
        r == Err(CreateFailedPrefix + insert.error.message)
        && b.events == old(b.events)
        && b.blobs == if cleanup.Succeeds? then old(b.blobs) else old(b.blobs) + {key}
    ensures var key := StorageKey(stamp, data.image.name);
      UploadAccepted(old(b.blobs), key, upload) && insert.Succeeds? ==>
        r.Ok? && b.events == old(b.events) + [r.value]
        && FieldsOf(r.value) == data.fields && r.value.image == PublicUrl(b.bucketUrl, key)
        && b.blobs == old(b.blobs) + {key}
    ensures r.Ok? ==> forall i :: 0 <= i < |old(b.events)| ==> old(b.events)[i].id != r.value.id
    ensures '/' !in StorageKey(stamp, data.image.name) && old(ImagesBacked(b.events, b.blobs)) ==>
      ImagesBacked(b.events, b.blobs)
  {
    var key := StorageKey(stamp, data.image.name);
    var uploadError := b.Upload(key, upload);
    if uploadError.Some? {
      r := Err(UploadFailedPrefix + uploadError.value.message);
      return;
    }
    var imageUrl := PublicUrl(b.bucketUrl, key);
    var inserted := b.InsertEvent(data.fields, imageUrl, now, insert);
    if inserted.Err? {
      var cleanupError := b.Remove(key, cleanup);
      r := Err(CreateFailedPrefix + inserted.error.message);
      BackedUnderMoreBlobs(b.events, old(b.blobs), b.blobs);
      return;
    }
    r := Ok(inserted.value);
    if '/' !in key {
      PublicImageKey(b.bucketUrl, key, inserted.value);
      BackedAfterAppend(old(b.events), old(b.blobs), key, inserted.value);
    }
  }

  /** The error message of a refused row update: the platform's, or that of the
      `.single()` that found no row. */
  function UpdateRejection(events: seq<Event>, id: int, reply: Reply): DbError {
    if reply.Fails? then reply.error else NoSingleRow
  }

  predicate UpdateAccepted(events: seq<Event>, id: int, reply: Reply) {
    reply.Succeeds? && IndexOfId(events, id).Some?
  }

  /** The key a new image is uploaded under, when the update carries one. */
  function NewImageKey(stamp: string, data: UpdateEventData): Option<string> {
    if data.image.Some? then Some(StorageKey(stamp, data.image.value.name)) else None
  }

  /** `updateEvent`: upload a replacement image if one is given, update the
      row, and remove the new upload again if the update fails. */
  method UpdateEvent(b: Backend, id: int, data: UpdateEventData, stamp: string, now: string,
                     upload: Reply, update: Reply, cleanup: Reply) returns (r: Result<Event, string>)
    requires b.Valid()
    modifies b
    ensures b.Valid() && b.attendees == old(b.attendees)
    ensures var k := NewImageKey(stamp, data);
      k.Some? && !UploadAccepted(old(b.blobs), k.value, upload) ==>
        r == Err(UploadFailedPrefix + UploadRejection(k.value, upload).message)
        && b.events == old(b.events) && b.blobs == old(b.blobs)
    ensures var k := NewImageKey(stamp, data);
      (k.None? || UploadAccepted(old(b.blobs), k.value, upload)) && !UpdateAccepted(old(b.events), id, update) ==>
        r == Err(UpdateFailedPrefix + UpdateRejection(old(b.events), id, update).message)
        && b.events == old(b.events)
        && b.blobs == if k.None? then old(b.blobs) else AfterCleanup(old(b.blobs) + {k.value}, PublicUrl(b.bucketUrl, k.value), cleanup)
    ensures var k := NewImageKey(stamp, data);
      (k.None? || UploadAccepted(old(b.blobs), k.value, upload)) && UpdateAccepted(old(b.events), id, update) ==>
        var i := IndexOfId(old(b.events), id).value;
        var newImage := if k.Some? then Some(PublicUrl(b.bucketUrl, k.value)) else None;
        r.Ok? && r.value == Patched(old(b.events)[i], EventPatch(data.fields, now, newImage))
        && b.events == old(b.events)[i := r.value]
        && b.blobs == if k.Some? then old(b.blobs) + {k.value} else old(b.blobs)
    ensures var k := NewImageKey(stamp, data);
      (k.Some? ==> '/' !in k.value) && old(ImagesBacked(b.events, b.blobs)) ==> ImagesBacked(b.events, b.blobs)
  {
    var imageUrl: Option<string> := None;
    if data.image.Some? {
      var key := StorageKey(stamp, data.image.value.name);
      var uploadError := b.Upload(key, upload);
      if uploadError.Some? {
        r := Err(UploadFailedPrefix + uploadError.value.message);
        return;
      }
      imageUrl := Some(PublicUrl(b.bucketUrl, key));
    }
    var patch := EventPatch(data.fields, now, None);
    if imageUrl.Some? {
      patch := patch.(image := imageUrl);
    }
    var updated := b.UpdateEvent(id, patch, update);
    if updated.Err? {
      if imageUrl.Some? {
        var fileName := LastSegment(imageUrl.value, '/');
        if fileName != [] {
          var cleanupError := b.Remove(fileName, cleanup);
        }
      }
      r := Err(UpdateFailedPrefix + updated.error.message);
      if data.image.None? {
        BackedUnderMoreBlobs(b.events, old(b.blobs), b.blobs);
      } else if '/' !in StorageKey(stamp, data.image.value.name) {
        PublicUrlNamesKey(b.bucketUrl, StorageKey(stamp, data.image.value.name));
        BackedUnderMoreBlobs(b.events, old(b.blobs), b.blobs);
      }
      return;
    }
    r := Ok(updated.value);
    {
      var i := IndexOfId(old(b.events), id).value;
      if data.image.Some? {
        var key := StorageKey(stamp, data.image.value.name);
        if '/' !in key {
          PublicImageKey(b.bucketUrl, key, updated.value);
          BackedAfterReplace(old(b.events), old(b.blobs), i, key, updated.value);
        }
      } else {
        BackedAfterReplace(old(b.events), old(b.blobs), i, ImageKeyOf(old(b.events)[i]), updated.value);
      }
    }
  }

  /** `deleteEvent`: read the row's image, delete the row, then try to remove
      the image; a failure of that last step is swallowed. */
  method DeleteEvent(b: Backend, id: int, fetch: Reply, delete: Reply, cleanup: Reply) returns (r: Result<(), string>)
    requires b.Valid()
    modifies b
    ensures b.Valid() && b.attendees == old(b.attendees)
    ensures var fetched := old(b.SelectImage(id, fetch));
      fetched.Err? ==>
        r == Err(FetchFailedPrefix + fetched.error.message)
        && b.events == old(b.events) && b.blobs == old(b.blobs)
    ensures var fetched := old(b.SelectImage(id, fetch));
      fetched.Ok? && delete.Fails? ==>
        r == Err(DeleteFailedPrefix + delete.error.message)
        && b.events == old(b.events) && b.blobs == old(b.blobs)
    ensures var fetched := old(b.SelectImage(id, fetch));
      fetched.Ok? && delete.Succeeds? ==>
        r == Ok(()) && b.events == WithoutId(old(b.events), id)
        && b.blobs == AfterCleanup(old(b.blobs), fetched.value, cleanup)
    ensures r.Ok? ==> forall i :: 0 <= i < |b.events| ==> b.events[i].id != id
    ensures old(ImagesBacked(b.events, b.blobs)) ==> ImagesBacked(b.events, b.blobs)
  {
    var fetched := b.SelectImage(id, fetch);
    if fetched.Err? {
      r := Err(FetchFailedPrefix + fetched.error.message);
      return;
    }
    var deleteError := b.DeleteEvent(id, delete);
    if deleteError.Some? {
      r := Err(DeleteFailedPrefix + deleteError.value.message);
      return;
    }
    if fetched.value != [] {
      var fileName := LastSegment(fetched.value, '/');
      if fileName != [] {
        var cleanupError := b.Remove(fileName, cleanup);
      }
    }
    r := Ok(());
    DeleteKeepsBacked(old(b.events), old(b.blobs), id, cleanup);
  }

  /** The key a public URL names is the key it was made from. */
  lemma PublicImageKey(bucketUrl: string, key: string, row: Event)
    requires '/' !in key && row.image == PublicUrl(bucketUrl, key)
    ensures ImageKeyOf(row) == key
  {
    PublicUrlNamesKey(bucketUrl, key);
  }

  /** More blobs keep every row's image backed. */
  lemma BackedUnderMoreBlobs(events: seq<Event>, blobs: set<string>, more: set<string>)
    requires blobs <= more
    ensures ImagesBacked(events, blobs) ==> ImagesBacked(events, more)
  {
  }

  /** A row whose image is a fresh upload keeps the invariant when it is appended. */
  lemma BackedAfterAppend(events: seq<Event>, blobs: set<string>, key: string, row: Event)
    requires key !in blobs && ImageKeyOf(row) == key
    ensures ImagesBacked(events, blobs) ==> ImagesBacked(events + [row], blobs + {key})
  {
    if !ImagesBacked(events, blobs) { return; }
    var s := events + [row];
    forall i, j | 0 <= i < j < |s| ensures ImageKeyOf(s[i]) != ImageKeyOf(s[j]) {
      if j == |events| {
        assert ImageKeyOf(s[i]) in blobs;
      } else {
        assert s[i] == events[i] && s[j] == events[j];
      }
    }
  }

  /** Replacing row `i` by a row whose image is a fresh upload, or the same
      image, keeps the invariant. */
  lemma BackedAfterReplace(events: seq<Event>, blobs: set<string>, i: nat, key: string, row: Event)
    requires i < |events| && ImageKeyOf(row) == key
    requires key == ImageKeyOf(events[i]) || key !in blobs
    ensures ImagesBacked(events, blobs) ==> ImagesBacked(events[i := row], blobs + {key})
  {
    if !ImagesBacked(events, blobs) { return; }
    var s := events[i := row];
    forall j, k | 0 <= j < k < |s| ensures ImageKeyOf(s[j]) != ImageKeyOf(s[k]) {
      if j == i {
        assert ImageKeyOf(s[k]) == ImageKeyOf(events[k]) && ImageKeyOf(events[k]) in blobs;
      } else if k == i {
        assert ImageKeyOf(s[j]) == ImageKeyOf(events[j]) && ImageKeyOf(events[j]) in blobs;
      }
    }
  }

  /** Deleting the row with `id` keeps the other rows backed even without the
      deleted row's blob. */
  lemma BackedAfterDelete(events: seq<Event>, blobs: set<string>, id: int)
    requires ImagesBacked(events, blobs) && IndexOfId(events, id).Some?
    ensures var i := IndexOfId(events, id).value;
      ImagesBacked(WithoutId(events, id), blobs - {ImageKeyOf(events[i])})
  {
    var i := IndexOfId(events, id).value;
    var kept := WithoutId(events, id);
    SubsequenceDistinct(kept, events, ImageKeyOf);
    forall k | 0 <= k < |kept| ensures ImageKeyOf(kept[k]) != ImageKeyOf(events[i]) {
      assert kept[k] in events && kept[k].id != id;
      var j :| 0 <= j < |events| && events[j] == kept[k];
      assert j != i;
    }
  }

  /** Deleting a row and then removing its image keeps the invariant. */
  lemma DeleteKeepsBacked(events: seq<Event>, blobs: set<string>, id: int, cleanup: Reply)
    requires IndexOfId(events, id).Some?
    ensures var i := IndexOfId(events, id).value;
      ImagesBacked(events, blobs) ==>
        ImagesBacked(WithoutId(events, id), AfterCleanup(blobs, events[i].image, cleanup))
  {
    if ImagesBacked(events, blobs) {
      BackedAfterDelete(events, blobs, id);
      var i := IndexOfId(events, id).value;
      BackedUnderMoreBlobs(WithoutId(events, id), blobs - {ImageKeyOf(events[i])}, AfterCleanup(blobs, events[i].image, cleanup));
    }
  }

  /** An update without a new image writes the nine text columns and
      `updated_at` and leaves the id, the stored image URL and `created_at` alone. */
  lemma UpdateWithoutImageKeepsImage(e: Event, fields: EventFields, now: string)
    ensures var u := Patched(e, EventPatch(fields, now, None));
      u.image == e.image && u.id == e.id && u.createdAt == e.createdAt
      && FieldsOf(u) == fields && u.updatedAt == now
  {
  }
}
