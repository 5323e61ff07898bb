/** The handlers that create, change and delete recording locations. */
module StorageDb {
  import opened Options
  import opened StoragePaths
  import opened StorageFolders
  import opened StorageRuns
  import opened Storages

  class Database {
    const mediaRoot: string
    var storages: seq<Storage>
    var segments: map<nat, Segment>
    var policies: map<nat, Destinations>

    constructor (mediaRoot: string, tables: Tables)
      ensures this.mediaRoot == mediaRoot && Contents() == tables
    {
      this.mediaRoot := mediaRoot;
      storages, segments, policies := tables.storages, tables.segments, tables.policies;
    }

    function Contents(): Tables
      reads this
    {
      Tables(storages, segments, policies)
    }

    method CheckPath(fs: FileSystem, path: string, exclude: Option<nat>) returns (refusal: Option<Refusal>)
      requires fs.WellFormed()
      ensures refusal == PathRefusal(SiteOf(fs, mediaRoot), path, Contents(), exclude)
    {
      var bad := Validate(fs, mediaRoot, path);
      if bad.Some? {
        return Some(BadPath(bad.value));
      }
      refusal := CheckStoragePathOverlap(fs, mediaRoot, path, storages, exclude);
    }

    /** `id` is the fresh key the database gives the row. */
    method CreateStorage(fs: FileSystem, id: nat, name: string, path: string) returns (refusal: Option<Refusal>)
      requires fs.WellFormed() && Valid(SiteOf(fs, mediaRoot), Contents()) && !Listed(Contents(), id)
      modifies this`storages
      ensures (Contents(), refusal) == Create(SiteOf(fs, mediaRoot), old(Contents()), id, name, path)
      ensures Valid(SiteOf(fs, mediaRoot), Contents())
    {
      SiteIsSound(fs, mediaRoot);
      CreateKeepsValid(SiteOf(fs, mediaRoot), Contents(), id, name, path);
      refusal := CheckPath(fs, path, None);
      if refusal.Some? {
        return;
      }
      if NameInUse(Contents(), name, None) {
        return Some(NameTaken);
      }
      storages := storages + [Storage(id, name, path)];
    }

    method UpdateStorage(fs: FileSystem, id: nat, name: Option<string>, path: Option<string>)
      returns (refusal: Option<Refusal>)
      requires fs.WellFormed() && Valid(SiteOf(fs, mediaRoot), Contents())
      modifies this`storages
      ensures (Contents(), refusal) == Update(SiteOf(fs, mediaRoot), old(Contents()), id, name, path)
      ensures Valid(SiteOf(fs, mediaRoot), Contents())
    {
      SiteIsSound(fs, mediaRoot);
      UpdateKeepsValid(SiteOf(fs, mediaRoot), Contents(), id, name, path);
      var i := IndexOf(storages, id);
      if i == |storages| {
        return Some(NotFound);
      }
      var newPath := storages[i].path;
      if path.Some? && Lexical(path.value) != Lexical(storages[i].path) {
        if Holds(Contents(), id) {
          return Some(HoldsRecordings);
        }
        refusal := CheckPath(fs, path.value, Some(id));
        if refusal.Some? {
          return;
        }
        newPath := path.value;
      }
      if name.Some? && NameInUse(Contents(), name.value, Some(id)) {
        return Some(NameTaken);
      }
      storages := storages[i := Storage(id, if name.Some? then name.value else storages[i].name, newPath)];
      refusal := None;
    }

    method DeleteStorage(fs: FileSystem, id: nat) returns (refusal: Option<Refusal>)
      requires Valid(SiteOf(fs, mediaRoot), Contents())
      modifies this`storages
      ensures (Contents(), refusal) == Delete(old(Contents()), id)
      ensures Valid(SiteOf(fs, mediaRoot), Contents())
    {
      DeleteKeepsValid(SiteOf(fs, mediaRoot), Contents(), id);
      var i := IndexOf(storages, id);
      if i == |storages| {
        return Some(NotFound);
      }
      if Holds(Contents(), id) {
        return Some(HoldsRecordings);
      }
      if Referenced(Contents(), id) {
        return Some(InUse);
      }
      storages := storages[..i] + storages[i + 1..];
      refusal := None;
    }
  }
}
