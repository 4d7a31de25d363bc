/** The notified list of the Python package (`src/__init__.py`): a JSON
    list in `notified_ids.json`.  The file is `None` while it does not exist;
    the ids are whatever values the caller stores. */
module PyLedger {
  import opened Wrappers

  type IdFile<T> = Option<seq<T>>

  /** `load_notified_ids`: `[]` when the file is absent. */
  function LoadNotifiedIds<T>(file: IdFile<T>): (ids: seq<T>)
    ensures file.None? ==> ids == []
    ensures file.Some? ==> ids == file.value
  {
    file.GetOr([])
  }

  /** `save_notified_ids`: the file afterwards. */
  function SaveNotifiedIds<T>(ids: seq<T>): IdFile<T> {
    Some(ids)
  }

  /** Saving then loading gives back the list. */
  lemma SaveLoadRoundTrip<T>(ids: seq<T>)
    ensures LoadNotifiedIds(SaveNotifiedIds(ids)) == ids
  {
  }

  /** `add_notified_id`: load, append, save. */
  function AddNotifiedId<T>(file: IdFile<T>, id: T): (r: IdFile<T>)
    ensures |LoadNotifiedIds(r)| == |LoadNotifiedIds(file)| + 1
    ensures LoadNotifiedIds(r)[..|LoadNotifiedIds(file)|] == LoadNotifiedIds(file)
    ensures LoadNotifiedIds(r)[|LoadNotifiedIds(file)|] == id
    ensures id in LoadNotifiedIds(r)
  {
    SaveNotifiedIds(LoadNotifiedIds(file) + [id])
  }

  /** Adding an id that is already there stores a second copy. */
  lemma AddKeepsDuplicates<T>(file: IdFile<T>, id: T)
    requires id in LoadNotifiedIds(file)
    ensures multiset(LoadNotifiedIds(AddNotifiedId(file, id)))[id] == multiset(LoadNotifiedIds(file))[id] + 1
  {
    assert LoadNotifiedIds(AddNotifiedId(file, id)) == LoadNotifiedIds(file) + [id];
  }
}
