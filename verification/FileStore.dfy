/**
 Files whose bytes live in an object store, shared by content digest and freed
 by counting references (app/routers/files.py, app/session_resources.py,
 app/db/queries/resources.py).
 */
module FileStore {
  import opened Options

  type Bytes = seq<bv8>
  type FileId = nat
  type MountId = nat

  // The parts of an object key (app/storage.py, object_key), already sanitized.
  datatype Key = Key(
    workspace: string, namespace: string, category: string, date: string, unique: string, filename: string)

  // A row of a file that has not been deleted.
  datatype FileRow = FileRow(workspace: string, filename: string, sha256: string, key: Key, scope: Option<string>)

  // A session's file resource that has not been removed.
  datatype Mount = Mount(workspace: string, session: string, file: FileId)

  // Rows of deleted files and removed mounts are never read again and are left
  // out; identifiers grow with creation time.
  datatype Store = Store(
    objects: map<Key, Bytes>, files: map<FileId, FileRow>, mounts: map<MountId, Mount>, nextId: nat)

  // The digest and the sanitizers of names.
  datatype Library = Library(
    digest: Bytes -> string, safePart: string -> string, safeFilename: string -> string)

  const STAGED := "staged-uploads"

  function Prefix16(sha256: string): string {
    if |sha256| <= 16 then sha256 else sha256[..16]
  }

  predicate IsStaged(key: Key) {
    key.category == STAGED
  }

  function ObjectKey(
    lib: Library, workspace: string, namespace: string, category: string, date: string, sha256: string, filename: string): Key
  {
    Key(lib.safePart(workspace), lib.safePart(namespace), category, date, Prefix16(sha256), lib.safeFilename(filename))
  }

  // ------------------------------------------------------------------- queries

  function Sharing(s: Store, workspace: string, sha256: string): set<FileId> {
    set f | f in s.files && s.files[f].workspace == workspace && s.files[f].sha256 == sha256
  }

  // The oldest file with a digest (get_resource_by_sha256).
  function Oldest(ids: set<FileId>): (id: FileId)
    requires ids != {}
    ensures id in ids && forall other | other in ids :: id <= other
  {
    LeastExists(ids);
    var id :| id in ids && forall other | other in ids :: id <= other;
    id
  }

  lemma LeastExists(ids: set<nat>)
    requires ids != {}
    ensures exists id | id in ids :: forall other | other in ids :: id <= other
  {
    var least := Least(ids);
  }

  lemma {:induction false} Least(ids: set<nat>) returns (least: nat)
    requires ids != {}
    ensures least in ids && forall other | other in ids :: least <= other
  {
    var some :| some in ids;
    least := some;
    if other :| other in ids && other < some {
      assert other in ids - {some};
      least := Least(ids - {some});
      assert least <= other;
      assert forall each | each in ids :: each == some || each in ids - {some};
    }
  }

  function References(s: Store, workspace: string, key: Key): set<FileId> {
    set f | f in s.files && s.files[f].workspace == workspace && s.files[f].key == key
  }

  // ------------------------------------------------------------------ requests

  // `acceptable` is the verdict of the size limit and the content scan.
  datatype Request =
    | Upload(workspace: string, content: Bytes, filename: string, date: string, acceptable: bool)
    | PutStaged(key: Key, content: Bytes)
    | Complete(workspace: string, key: Key, claimed: Option<string>, filename: string, date: string, acceptable: bool)
    | MountFile(workspace: string, session: string, file: FileId, date: string)
    | Unmount(session: string, mount: MountId)
    | DeleteFile(workspace: string, file: FileId)

  function AddFile(s: Store, row: FileRow): Store {
    s.(files := s.files[s.nextId := row], nextId := s.nextId + 1)
  }

  function UploadEffect(lib: Library, s: Store, r: Request): Store
    requires r.Upload?
  {
    var sha256 := lib.digest(r.content);
    var sharing := Sharing(s, r.workspace, sha256);
    if !r.acceptable then s
    else if sharing == {} then
      var key := ObjectKey(lib, r.workspace, "oma", "files", r.date, sha256, r.filename);
      AddFile(s.(objects := s.objects[key := r.content]), FileRow(r.workspace, r.filename, sha256, key, None))
    else
      AddFile(s, FileRow(r.workspace, r.filename, sha256, s.files[Oldest(sharing)].key, None))
  }

  // Only staged keys of the workspace can be completed.
  predicate Completable(s: Store, r: Request)
    requires r.Complete?
  {
    r.key.workspace == r.workspace && IsStaged(r.key) && r.key in s.objects
  }

  function CompleteEffect(lib: Library, s: Store, r: Request): Store
    requires r.Complete?
  {
    if !Completable(s, r) || !r.acceptable then s
    else
      var content := s.objects[r.key];
      var sha256 := lib.digest(content);
      var sharing := Sharing(s, r.workspace, sha256);
      if r.claimed.Some? && r.claimed.value != "" && r.claimed.value != sha256 then s
      else if sharing == {} then
        var key := ObjectKey(lib, r.workspace, "oma", "files", r.date, sha256, r.filename);
        AddFile(s.(objects := s.objects[key := content] - {r.key}), FileRow(r.workspace, r.filename, sha256, key, None))
      else
        AddFile(s.(objects := s.objects - {r.key}),
                FileRow(r.workspace, r.filename, sha256, s.files[Oldest(sharing)].key, None))
  }

  function MountEffect(lib: Library, s: Store, r: Request): Store
    requires r.MountFile?
  {
    if r.file !in s.files || s.files[r.file].workspace != r.workspace || s.files[r.file].key !in s.objects then s
    else
      var source := s.files[r.file];
      var key := ObjectKey(lib, r.workspace, "sessions_" + r.session, "resources", r.date, source.sha256, source.filename);
      var copied := s.(objects := s.objects[key := s.objects[source.key]]);
      var added := AddFile(copied, FileRow(r.workspace, source.filename, source.sha256, key, Some(r.session)));
      added.(mounts := added.mounts[added.nextId := Mount(r.workspace, r.session, s.nextId)], nextId := added.nextId + 1)
  }

  // Delete a file's row, and its object with the last reference to it.
  function RemoveFile(s: Store, file: FileId): Store
    requires file in s.files
  {
    var row := s.files[file];
    s.(objects := if |References(s, row.workspace, row.key)| <= 1 then s.objects - {row.key} else s.objects,
       files := s.files - {file})
  }

  function UnmountEffect(s: Store, r: Request): Store
    requires r.Unmount?
  {
    if r.mount !in s.mounts || s.mounts[r.mount].session != r.session then s
    else
      var mount := s.mounts[r.mount];
      var removed :=
        if mount.file in s.files && s.files[mount.file].workspace == mount.workspace
           && s.files[mount.file].scope == Some(mount.session)
        then RemoveFile(s, mount.file) else s;
      removed.(mounts := removed.mounts - {r.mount})
  }

  function DeleteEffect(s: Store, r: Request): Store
    requires r.DeleteFile?
  {
    if r.file in s.files && s.files[r.file].workspace == r.workspace then RemoveFile(s, r.file) else s
  }

  function Apply(lib: Library, s: Store, r: Request): Store {
    match r
    case Upload(_, _, _, _, _) => UploadEffect(lib, s, r)
    case PutStaged(key, content) => if IsStaged(key) then s.(objects := s.objects[key := content]) else s
    case Complete(_, _, _, _, _, _) => CompleteEffect(lib, s, r)
    case MountFile(_, _, _, _) => MountEffect(lib, s, r)
    case Unmount(_, _) => UnmountEffect(s, r)
    case DeleteFile(_, _) => DeleteEffect(s, r)
  }

  // ------------------------------------------------------------------ the rows

  // The handlers as they run, object by object and row by row. A request that
  // is refused leaves everything as it was.
  class FileRows {
    var objects: map<Key, Bytes>
    var files: map<FileId, FileRow>
    var mounts: map<MountId, Mount>
    var nextId: nat

    function Rows(): Store
      reads this
    {
      Store(objects, files, mounts, nextId)
    }

    constructor ()
      ensures Rows() == Store(map[], map[], map[], 0)
    {
      objects, files, mounts, nextId := map[], map[], map[], 0;
    }

    method CreateFile(row: FileRow) returns (file: FileId)
      modifies this`files, this`nextId
      ensures file == old(nextId)
      ensures Rows() == AddFile(old(Rows()), row)
    {
      file := nextId;
      files := files[file := row];
      nextId := nextId + 1;
    }

    method FindDeduplicated(workspace: string, sha256: string) returns (existing: Option<FileRow>)
      ensures existing.None? <==> Sharing(Rows(), workspace, sha256) == {}
      ensures existing.Some? ==> existing.value == files[Oldest(Sharing(Rows(), workspace, sha256))]
    {
      var sharing := Sharing(Rows(), workspace, sha256);
      if sharing == {} {
        return None;
      }
      existing := Some(files[Oldest(sharing)]);
    }

    method UploadFile(lib: Library, workspace: string, content: Bytes, filename: string, date: string, acceptable: bool)
      modifies this
      ensures Rows() == Apply(lib, old(Rows()), Upload(workspace, content, filename, date, acceptable))
    {
      if !acceptable {
        return;
      }
      var sha256 := lib.digest(content);
      var existing := FindDeduplicated(workspace, sha256);
      var key;
      if existing.None? {
        key := ObjectKey(lib, workspace, "oma", "files", date, sha256, filename);
        objects := objects[key := content];
      } else {
        key := existing.value.key;
      }
      var _ := CreateFile(FileRow(workspace, filename, sha256, key, None));
    }

    method CompleteFileUpload(
      lib: Library, workspace: string, key: Key, claimed: Option<string>, filename: string, date: string, acceptable: bool)
      modifies this
      ensures Rows() == Apply(lib, old(Rows()), Complete(workspace, key, claimed, filename, date, acceptable))
    {
      if key.workspace != workspace || !IsStaged(key) {
        return;
      }
      if key !in objects || !acceptable {
        return;
      }
      var staged := objects[key];
      var sha256 := lib.digest(staged);
      if claimed.Some? && claimed.value != "" && claimed.value != sha256 {
        return;
      }
      var existing := FindDeduplicated(workspace, sha256);
      var permanent;
      if existing.None? {
        permanent := ObjectKey(lib, workspace, "oma", "files", date, sha256, filename);
        objects := objects[permanent := staged];
      } else {
        permanent := existing.value.key;
      }
      objects := objects - {key};
      var _ := CreateFile(FileRow(workspace, filename, sha256, permanent, None));
    }

    method CreateSessionResource(lib: Library, workspace: string, session: string, file: FileId, date: string)
      modifies this
      ensures Rows() == Apply(lib, old(Rows()), MountFile(workspace, session, file, date))
    {
      if file !in files || files[file].workspace != workspace {
        return;
      }
      var source := files[file];
      if source.key !in objects {
        return;
      }
      var destination :=
        ObjectKey(lib, workspace, "sessions_" + session, "resources", date, source.sha256, source.filename);
      objects := objects[destination := objects[source.key]];
      var scoped := CreateFile(FileRow(workspace, source.filename, source.sha256, destination, Some(session)));
      mounts := mounts[nextId := Mount(workspace, session, scoped)];
      nextId := nextId + 1;
    }

    // Count the references, delete the object if this is the last, delete the row.
    method ReleaseFile(file: FileId)
      requires file in files
      modifies this`objects, this`files
      ensures Rows() == RemoveFile(old(Rows()), file)
    {
      var row := files[file];
      var activeReferences := |References(Rows(), row.workspace, row.key)|;
      if activeReferences <= 1 {
        objects := objects - {row.key};
      }
      files := files - {file};
    }

    method DeleteSessionResource(lib: Library, session: string, mount: MountId)
      modifies this
      ensures Rows() == Apply(lib, old(Rows()), Unmount(session, mount))
    {
      if mount !in mounts || mounts[mount].session != session {
        return;
      }
      var m := mounts[mount];
      if m.file in files && files[m.file].workspace == m.workspace {
        if files[m.file].scope == Some(m.session) {
          ReleaseFile(m.file);
        }
      }
      mounts := mounts - {mount};
    }

    method DeleteStoredFile(lib: Library, workspace: string, file: FileId)
      modifies this
      ensures Rows() == Apply(lib, old(Rows()), DeleteFile(workspace, file))
    {
      if file !in files || files[file].workspace != workspace {
        return;
      }
      ReleaseFile(file);
    }
  }

  // ---------------------------------------------------------- the plain store

  // What the service promises: each file has its own bytes, nothing is shared.
  datatype PlainFile = PlainFile(workspace: string, filename: string, bytes: Bytes, scope: Option<string>)

  datatype Plain = Plain(
    files: map<FileId, PlainFile>, staged: map<Key, Bytes>, mounts: map<MountId, Mount>, nextId: nat)

  function PlainApply(lib: Library, p: Plain, r: Request): Plain {
    match r
    case Upload(workspace, content, filename, _, acceptable) =>
      if !acceptable then p
      else p.(files := p.files[p.nextId := PlainFile(workspace, filename, content, None)], nextId := p.nextId + 1)
    case PutStaged(key, content) =>
      if IsStaged(key) then p.(staged := p.staged[key := content]) else p
    case Complete(workspace, key, claimed, filename, _, acceptable) =>
      if key.workspace != workspace || key !in p.staged || !acceptable then p
      else if claimed.Some? && claimed.value != "" && claimed.value != lib.digest(p.staged[key]) then p
      else p.(files := p.files[p.nextId := PlainFile(workspace, filename, p.staged[key], None)],
              staged := p.staged - {key},
              nextId := p.nextId + 1)
    case MountFile(workspace, session, file, _) =>
      if file !in p.files || p.files[file].workspace != workspace then p
      else p.(files := p.files[p.nextId := p.files[file].(scope := Some(session))],
              mounts := p.mounts[p.nextId + 1 := Mount(workspace, session, p.nextId)],
              nextId := p.nextId + 2)
    case Unmount(session, mount) =>
      if mount !in p.mounts || p.mounts[mount].session != session then p
      else
        var m := p.mounts[mount];
        p.(files := if m.file in p.files && p.files[m.file].workspace == m.workspace
                       && p.files[m.file].scope == Some(m.session)
                    then p.files - {m.file} else p.files,
           mounts := p.mounts - {mount})
    case DeleteFile(workspace, file) =>
      if file in p.files && p.files[file].workspace == workspace then p.(files := p.files - {file}) else p
  }

  // ---------------------------------------------------------------- soundness

  // The contents and workspaces that occur in a run.
  datatype Universe = Universe(contents: set<Bytes>, workspaces: set<string>)

  // Digest prefixes tell the contents apart, and sanitizing the workspaces.
  ghost predicate NoCollisions(lib: Library, u: Universe) {
    && (forall a, b | a in u.contents && b in u.contents
                      && Prefix16(lib.digest(a)) == Prefix16(lib.digest(b)) :: a == b)
    && (forall a, b | a in u.workspaces && b in u.workspaces && lib.safePart(a) == lib.safePart(b) :: a == b)
  }

  ghost predicate Within(r: Request, u: Universe) {
    match r
    case Upload(workspace, content, _, _, _) => workspace in u.workspaces && content in u.contents
    case PutStaged(_, content) => content in u.contents
    case Complete(workspace, _, _, _, _, _) => workspace in u.workspaces
    case MountFile(workspace, _, _, _) => workspace in u.workspaces
    case _ => true
  }

  // A file's key is present and holds the bytes its digest says.
  ghost predicate RowSound(lib: Library, u: Universe, s: Store, row: FileRow) {
    && row.workspace in u.workspaces
    && !IsStaged(row.key)
    && row.key.workspace == lib.safePart(row.workspace)
    && row.key.unique == Prefix16(row.sha256)
    && row.key in s.objects
    && lib.digest(s.objects[row.key]) == row.sha256
  }

  ghost predicate HasFile(s: Store, key: Key) {
    exists f | f in s.files :: s.files[f].key == key
  }

  ghost predicate Sound(lib: Library, u: Universe, s: Store) {
    && (forall f | f in s.files :: RowSound(lib, u, s, s.files[f]))
    && (forall key | key in s.objects :: s.objects[key] in u.contents)
    && (forall key | key in s.objects && !IsStaged(key) :: HasFile(s, key))
    && (forall f | f in s.files :: f < s.nextId)
  }

  function Show(s: Store, row: FileRow): PlainFile {
    PlainFile(row.workspace, row.filename, if row.key in s.objects then s.objects[row.key] else [], row.scope)
  }

  function FilesOf(s: Store): map<FileId, PlainFile> {
    map f | f in s.files :: Show(s, s.files[f])
  }

  function StagedOf(s: Store): map<Key, Bytes> {
    map key | key in s.objects && IsStaged(key) :: s.objects[key]
  }

  // The plain store that a store shows to its users.
  function View(s: Store): Plain {
    Plain(FilesOf(s), StagedOf(s), s.mounts, s.nextId)
  }

  // A key made from a content's digest is free, or holds that content already.
  lemma KeyHoldsOwnContent(lib: Library, u: Universe, s: Store, key: Key, content: Bytes)
    requires NoCollisions(lib, u) && Sound(lib, u, s) && content in u.contents
    requires !IsStaged(key) && key.unique == Prefix16(lib.digest(content))
    ensures key in s.objects ==> s.objects[key] == content
  {
    if key in s.objects {
      assert HasFile(s, key);
      var f :| f in s.files && s.files[f].key == key;
      assert RowSound(lib, u, s, s.files[f]);
    }
  }

  // Storing content under its own key and adding a file for it.
  function Put(s: Store, content: Bytes, row: FileRow): Store {
    AddFile(s.(objects := s.objects[row.key := content]), row)
  }

  ghost predicate RowFits(lib: Library, u: Universe, content: Bytes, row: FileRow) {
    && content in u.contents
    && row.workspace in u.workspaces
    && row.sha256 == lib.digest(content)
    && !IsStaged(row.key)
    && row.key.workspace == lib.safePart(row.workspace)
    && row.key.unique == Prefix16(row.sha256)
  }

  lemma PutChangesNoOther(lib: Library, u: Universe, s: Store, content: Bytes, row: FileRow)
    requires NoCollisions(lib, u) && Sound(lib, u, s) && RowFits(lib, u, content, row)
    ensures forall key | key in s.objects :: Put(s, content, row).objects[key] == s.objects[key]
  {
    KeyHoldsOwnContent(lib, u, s, row.key, content);
  }

  lemma PutKeepsRows(lib: Library, u: Universe, s: Store, content: Bytes, row: FileRow)
    requires NoCollisions(lib, u) && Sound(lib, u, s) && RowFits(lib, u, content, row)
    ensures forall f | f in Put(s, content, row).files ::
              RowSound(lib, u, Put(s, content, row), Put(s, content, row).files[f])
  {
    PutChangesNoOther(lib, u, s, content, row);
    forall f | f in Put(s, content, row).files
      ensures RowSound(lib, u, Put(s, content, row), Put(s, content, row).files[f])
    {
      assert f == s.nextId || RowSound(lib, u, s, s.files[f]);
    }
  }

  lemma PutKeepsOwners(lib: Library, u: Universe, s: Store, content: Bytes, row: FileRow)
    requires Sound(lib, u, s)
    ensures forall key | key in Put(s, content, row).objects && !IsStaged(key) :: HasFile(Put(s, content, row), key)
  {
    var s' := Put(s, content, row);
    forall key | key in s'.objects && !IsStaged(key)
      ensures HasFile(s', key)
    {
      if key == row.key {
        assert s'.files[s.nextId].key == key;
      } else {
        assert HasFile(s, key);
        var f :| f in s.files && s.files[f].key == key;
        assert f < s.nextId && s'.files[f].key == key;
      }
    }
  }

  lemma PutKeepsSound(lib: Library, u: Universe, s: Store, content: Bytes, row: FileRow)
    requires NoCollisions(lib, u) && Sound(lib, u, s) && RowFits(lib, u, content, row)
    ensures Sound(lib, u, Put(s, content, row))
  {
    hide RowSound, NoCollisions, HasFile;
    PutKeepsRows(lib, u, s, content, row);
    PutKeepsOwners(lib, u, s, content, row);
  }

  // If no file's object changes, neither does what is shown of it.
  lemma ShowKept(lib: Library, u: Universe, s: Store, s': Store)
    requires Sound(lib, u, s)
    requires forall f | f in s.files :: s.files[f].key in s'.objects
                                    && s'.objects[s.files[f].key] == s.objects[s.files[f].key]
    ensures forall f | f in s.files :: Show(s', s.files[f]) == Show(s, s.files[f])
  {
    forall f | f in s.files
      ensures Show(s', s.files[f]) == Show(s, s.files[f])
    {
      assert RowSound(lib, u, s, s.files[f]);
    }
  }

  lemma RowsPresent(lib: Library, u: Universe, s: Store)
    requires Sound(lib, u, s)
    ensures forall f | f in s.files :: s.files[f].key in s.objects && !IsStaged(s.files[f].key)
  {
    forall f | f in s.files
      ensures s.files[f].key in s.objects && !IsStaged(s.files[f].key)
    {
      assert RowSound(lib, u, s, s.files[f]);
    }
  }

  lemma PutIsSeen(lib: Library, u: Universe, s: Store, content: Bytes, row: FileRow)
    requires NoCollisions(lib, u) && Sound(lib, u, s) && RowFits(lib, u, content, row)
    ensures View(Put(s, content, row)) == View(s).(
              files := View(s).files[s.nextId := PlainFile(row.workspace, row.filename, content, row.scope)],
              nextId := s.nextId + 1)
  {
    hide NoCollisions, Sound, RowFits, FilesOf, StagedOf;
    PutShowsFile(lib, u, s, content, row);
    PutKeepsStaged(lib, u, s, content, row);
  }

  lemma PutShowsFile(lib: Library, u: Universe, s: Store, content: Bytes, row: FileRow)
    requires NoCollisions(lib, u) && Sound(lib, u, s) && RowFits(lib, u, content, row)
    ensures FilesOf(Put(s, content, row))
         == FilesOf(s)[s.nextId := PlainFile(row.workspace, row.filename, content, row.scope)]
  {
    hide NoCollisions, Sound, RowFits, Show;
    var s' := Put(s, content, row);
    PutChangesNoOther(lib, u, s, content, row);
    RowsPresent(lib, u, s);
    ShowKept(lib, u, s, s');
    ShowRow(s', row);
  }

  lemma PutKeepsStaged(lib: Library, u: Universe, s: Store, content: Bytes, row: FileRow)
    requires NoCollisions(lib, u) && Sound(lib, u, s) && RowFits(lib, u, content, row)
    ensures StagedOf(Put(s, content, row)) == StagedOf(s)
  {
    PutChangesNoOther(lib, u, s, content, row);
    hide NoCollisions, Sound;
  }

  lemma ShowRow(s: Store, row: FileRow)
    requires row.key in s.objects
    ensures Show(s, row) == PlainFile(row.workspace, row.filename, s.objects[row.key], row.scope)
  {
  }

  // Sharing an object that has the same digest is storing the same bytes again.
  lemma ShareIsPut(lib: Library, u: Universe, s: Store, content: Bytes, workspace: string, row: FileRow)
    requires NoCollisions(lib, u) && Sound(lib, u, s) && content in u.contents && workspace in u.workspaces
    requires Sharing(s, workspace, lib.digest(content)) != {}
    requires row.workspace == workspace && row.sha256 == lib.digest(content)
    requires row.key == s.files[Oldest(Sharing(s, workspace, lib.digest(content)))].key
    ensures RowFits(lib, u, content, row)
    ensures AddFile(s, row) == Put(s, content, row)
  {
    var f := Oldest(Sharing(s, workspace, lib.digest(content)));
    assert RowSound(lib, u, s, s.files[f]);
    assert s.objects[row.key] == content;
    assert s.objects[row.key := content] == s.objects;
  }

  // ---------------------------------------------------------------- refinement

  ghost predicate Refines(lib: Library, u: Universe, s: Store, r: Request) {
    && Sound(lib, u, Apply(lib, s, r))
    && View(Apply(lib, s, r)) == PlainApply(lib, View(s), r)
  }

  lemma UploadRefines(lib: Library, u: Universe, s: Store, r: Request)
    requires NoCollisions(lib, u) && Sound(lib, u, s) && r.Upload? && Within(r, u)
    ensures Refines(lib, u, s, r)
  {
    hide NoCollisions, Sound, View, Oldest;
    if r.acceptable {
      var sha256 := lib.digest(r.content);
      var sharing := Sharing(s, r.workspace, sha256);
      var key := if sharing == {} then ObjectKey(lib, r.workspace, "oma", "files", r.date, sha256, r.filename)
                 else s.files[Oldest(sharing)].key;
      var row := FileRow(r.workspace, r.filename, sha256, key, None);
      if sharing != {} {
        ShareIsPut(lib, u, s, r.content, r.workspace, row);
      }
      PutKeepsSound(lib, u, s, r.content, row);
      PutIsSeen(lib, u, s, r.content, row);
      ViewFields(lib, u, s);
    }
  }

  lemma ViewFields(lib: Library, u: Universe, s: Store)
    requires Sound(lib, u, s)
    ensures View(s).nextId == s.nextId && View(s).mounts == s.mounts && View(s).files.Keys == s.files.Keys
    ensures forall f | f in s.files :: View(s).files[f] ==
              PlainFile(s.files[f].workspace, s.files[f].filename, s.objects[s.files[f].key], s.files[f].scope)
    ensures forall key :: key in View(s).staged <==> key in s.objects && IsStaged(key)
    ensures forall key | key in View(s).staged :: View(s).staged[key] == s.objects[key]
  {
    RowsPresent(lib, u, s);
  }

  // Staged uploads come and go without touching any file.
  lemma StagedApart(lib: Library, u: Universe, s: Store, objects: map<Key, Bytes>)
    requires Sound(lib, u, s)
    requires forall key | !IsStaged(key) ::
               (key in objects <==> key in s.objects) && (key in objects ==> objects[key] == s.objects[key])
    requires forall key | key in objects :: objects[key] in u.contents
    ensures Sound(lib, u, s.(objects := objects))
    ensures FilesOf(s.(objects := objects)) == FilesOf(s)
  {
    var s' := s.(objects := objects);
    RowsPresent(lib, u, s);
    ShowKept(lib, u, s, s');
    forall f | f in s'.files
      ensures RowSound(lib, u, s', s'.files[f])
    {
      assert RowSound(lib, u, s, s.files[f]);
    }
    StagedKeepsOwners(s, s');
  }

  lemma PutStagedRefines(lib: Library, u: Universe, s: Store, r: Request)
    requires Sound(lib, u, s) && r.PutStaged? && Within(r, u)
    ensures Refines(lib, u, s, r)
  {
    hide RowSound, HasFile, FilesOf;
    if IsStaged(r.key) {
      var s' := Apply(lib, s, r);
      StagedApart(lib, u, s, s'.objects);
      assert StagedOf(s') == StagedOf(s)[r.key := r.content];
    }
  }

  lemma StagedKeepsOwners(s: Store, s': Store)
    requires s'.files == s.files
    requires forall key | key in s'.objects && !IsStaged(key) :: key in s.objects
    requires forall key | key in s.objects && !IsStaged(key) :: HasFile(s, key)
    ensures forall key | key in s'.objects && !IsStaged(key) :: HasFile(s', key)
  {
    forall key | key in s'.objects && !IsStaged(key)
      ensures HasFile(s', key)
    {
      assert HasFile(s, key);
      var f :| f in s.files && s.files[f].key == key;
      assert s'.files[f].key == key;
    }
  }

  lemma DropStaged(lib: Library, u: Universe, s: Store, key: Key)
    requires Sound(lib, u, s) && IsStaged(key)
    ensures var s' := s.(objects := s.objects - {key});
      && Sound(lib, u, s')
      && View(s') == View(s).(staged := View(s).staged - {key})
  {
    hide RowSound, HasFile, FilesOf;
    var s' := s.(objects := s.objects - {key});
    StagedApart(lib, u, s, s'.objects);
    assert StagedOf(s') == StagedOf(s) - {key};
  }

  lemma CompleteRefines(lib: Library, u: Universe, s: Store, r: Request)
    requires NoCollisions(lib, u) && Sound(lib, u, s) && r.Complete? && Within(r, u)
    ensures Refines(lib, u, s, r)
  {
    hide NoCollisions, View, Oldest, HasFile, RowSound, PlainApply;
    ViewFields(lib, u, s);
    PlainComplete(lib, View(s), r);
    if Completable(s, r) && r.acceptable {
      var content := s.objects[r.key];
      var sha256 := lib.digest(content);
      if !(r.claimed.Some? && r.claimed.value != "" && r.claimed.value != sha256) {
        var dropped := s.(objects := s.objects - {r.key});
        DropStaged(lib, u, s, r.key);
        assert Sharing(dropped, r.workspace, sha256) == Sharing(s, r.workspace, sha256) by {
          SharingSame(s, dropped, r.workspace, sha256);
        }
        var sharing := Sharing(s, r.workspace, sha256);
        var key := if sharing == {} then ObjectKey(lib, r.workspace, "oma", "files", r.date, sha256, r.filename)
                   else s.files[Oldest(sharing)].key;
        var row := FileRow(r.workspace, r.filename, sha256, key, None);
        if sharing != {} {
          ShareIsPut(lib, u, dropped, content, r.workspace, row);
        } else {
          assert s.objects[key := content] - {r.key} == dropped.objects[key := content];
        }
        assert Apply(lib, s, r) == Put(dropped, content, row);
        PutKeepsSound(lib, u, dropped, content, row);
        PutIsSeen(lib, u, dropped, content, row);
      }
    }
  }

  lemma SharingSame(s: Store, s': Store, workspace: string, sha256: string)
    requires s'.files == s.files
    ensures Sharing(s', workspace, sha256) == Sharing(s, workspace, sha256)
  {
  }

  lemma PlainComplete(lib: Library, p: Plain, r: Request)
    requires r.Complete?
    ensures PlainApply(lib, p, r) ==
      if r.key.workspace != r.workspace || r.key !in p.staged || !r.acceptable then p
      else if r.claimed.Some? && r.claimed.value != "" && r.claimed.value != lib.digest(p.staged[r.key]) then p
      else p.(files := p.files[p.nextId := PlainFile(r.workspace, r.filename, p.staged[r.key], None)],
              staged := p.staged - {r.key},
              nextId := p.nextId + 1)
  {
  }

  lemma SourceIsSound(lib: Library, u: Universe, s: Store, file: FileId)
    requires Sound(lib, u, s) && file in s.files
    ensures var row := s.files[file];
      && row.workspace in u.workspaces && row.key in s.objects
      && s.objects[row.key] in u.contents && lib.digest(s.objects[row.key]) == row.sha256
  {
    assert RowSound(lib, u, s, s.files[file]);
  }

  lemma MountRefines(lib: Library, u: Universe, s: Store, r: Request)
    requires NoCollisions(lib, u) && Sound(lib, u, s) && r.MountFile? && Within(r, u)
    ensures Refines(lib, u, s, r)
  {
    hide NoCollisions, View, HasFile, Sound, RowSound;
    ViewFields(lib, u, s);
    if r.file in s.files && s.files[r.file].workspace == r.workspace {
      var source := s.files[r.file];
      SourceIsSound(lib, u, s, r.file);
      var content := s.objects[source.key];
      var key := ObjectKey(lib, r.workspace, "sessions_" + r.session, "resources", r.date, source.sha256, source.filename);
      var row := FileRow(r.workspace, source.filename, source.sha256, key, Some(r.session));
      PutKeepsSound(lib, u, s, content, row);
      PutIsSeen(lib, u, s, content, row);
      MountsApart(lib, u, Put(s, content, row), Apply(lib, s, r));
    }
  }

  // Mount rows do not matter to the objects.
  lemma MountsApart(lib: Library, u: Universe, s: Store, s': Store)
    requires Sound(lib, u, s) && s'.objects == s.objects && s'.files == s.files && s'.nextId >= s.nextId
    ensures Sound(lib, u, s')
    ensures View(s') == View(s).(mounts := s'.mounts, nextId := s'.nextId)
  {
    forall f | f in s'.files
      ensures RowSound(lib, u, s', s'.files[f])
    {
      assert RowSound(lib, u, s, s.files[f]);
    }
    StagedKeepsOwners(s, s');
    assert FilesOf(s') == FilesOf(s);
  }

  // Nobody else reads an object that goes with its last counted reference.
  lemma LastReference(lib: Library, u: Universe, s: Store, file: FileId, other: FileId)
    requires NoCollisions(lib, u) && Sound(lib, u, s) && file in s.files && other in s.files && other != file
    requires |References(s, s.files[file].workspace, s.files[file].key)| <= 1
    ensures s.files[other].key != s.files[file].key
  {
    assert RowSound(lib, u, s, s.files[file]) && RowSound(lib, u, s, s.files[other]);
    var references := References(s, s.files[file].workspace, s.files[file].key);
    if s.files[other].key == s.files[file].key {
      SmallSet(references, file, other);
    }
  }

  lemma SmallSet(ids: set<nat>, a: nat, b: nat)
    requires |ids| <= 1 && a in ids && b in ids
    ensures a == b
  {
    assert |ids - {a}| == 0;
  }

  // With more than one counted reference another file still has the object.
  lemma OtherReference(s: Store, file: FileId) returns (other: FileId)
    requires file in s.files
    requires |References(s, s.files[file].workspace, s.files[file].key)| > 1
    ensures other in s.files && other != file && s.files[other].key == s.files[file].key
  {
    var references := References(s, s.files[file].workspace, s.files[file].key);
    assert references - {file} != {} by {
      if references - {file} == {} {
        assert references <= {file};
        SubsetSize(references, {file});
      }
    }
    other :| other in references - {file};
  }

  lemma SubsetSize(a: set<nat>, b: set<nat>)
    requires a <= b
    ensures |a| <= |b|
  {
    if a != b {
      assert b == a + (b - a);
    }
  }

  lemma RemoveKeepsRows(lib: Library, u: Universe, s: Store, file: FileId)
    requires NoCollisions(lib, u) && Sound(lib, u, s) && file in s.files
    ensures forall f | f in RemoveFile(s, file).files ::
              RowSound(lib, u, RemoveFile(s, file), RemoveFile(s, file).files[f])
  {
    var s' := RemoveFile(s, file);
    forall f | f in s'.files
      ensures RowSound(lib, u, s', s'.files[f])
    {
      assert RowSound(lib, u, s, s.files[f]);
      if |References(s, s.files[file].workspace, s.files[file].key)| <= 1 {
        LastReference(lib, u, s, file, f);
      }
    }
  }

  lemma RemoveKeepsOwners(lib: Library, u: Universe, s: Store, file: FileId)
    requires Sound(lib, u, s) && file in s.files
    ensures forall key | key in RemoveFile(s, file).objects && !IsStaged(key) :: HasFile(RemoveFile(s, file), key)
  {
    var s' := RemoveFile(s, file);
    forall key | key in s'.objects && !IsStaged(key)
      ensures HasFile(s', key)
    {
      assert HasFile(s, key);
      var f :| f in s.files && s.files[f].key == key;
      if f == file {
        f := OtherReference(s, file);
      }
      assert s'.files[f].key == key;
    }
  }

  lemma RemoveShows(lib: Library, u: Universe, s: Store, file: FileId)
    requires NoCollisions(lib, u) && Sound(lib, u, s) && file in s.files
    ensures forall f | f in s.files && f != file ::
              Show(RemoveFile(s, file), s.files[f]) == Show(s, s.files[f])
  {
    RowsPresent(lib, u, s);
    if |References(s, s.files[file].workspace, s.files[file].key)| <= 1 {
      forall f | f in s.files && f != file
        ensures s.files[f].key != s.files[file].key
      {
        LastReference(lib, u, s, file, f);
      }
    }
  }

  lemma RemoveRefines(lib: Library, u: Universe, s: Store, file: FileId)
    requires NoCollisions(lib, u) && Sound(lib, u, s) && file in s.files
    ensures Sound(lib, u, RemoveFile(s, file))
    ensures View(RemoveFile(s, file)) == View(s).(files := View(s).files - {file})
  {
    hide NoCollisions, HasFile, References;
    RemoveKeepsRows(lib, u, s, file);
    RemoveKeepsOwners(lib, u, s, file);
    assert RowSound(lib, u, s, s.files[file]);
    var s' := RemoveFile(s, file);
    RemoveShows(lib, u, s, file);
    assert FilesOf(s') == FilesOf(s) - {file};
    assert StagedOf(s') == StagedOf(s);
  }

  lemma DeleteRefines(lib: Library, u: Universe, s: Store, r: Request)
    requires NoCollisions(lib, u) && Sound(lib, u, s) && r.DeleteFile?
    ensures Refines(lib, u, s, r)
  {
    hide NoCollisions, View, HasFile, References;
    ViewFields(lib, u, s);
    if r.file in s.files && s.files[r.file].workspace == r.workspace {
      RemoveRefines(lib, u, s, r.file);
    }
  }

  lemma UnmountRefines(lib: Library, u: Universe, s: Store, r: Request)
    requires NoCollisions(lib, u) && Sound(lib, u, s) && r.Unmount?
    ensures Refines(lib, u, s, r)
  {
    hide NoCollisions, View, HasFile, References, RowSound;
    ViewFields(lib, u, s);
    if r.mount in s.mounts && s.mounts[r.mount].session == r.session {
      var mount := s.mounts[r.mount];
      var removed := s;
      if mount.file in s.files && s.files[mount.file].workspace == mount.workspace
         && s.files[mount.file].scope == Some(mount.session) {
        removed := RemoveFile(s, mount.file);
        RemoveRefines(lib, u, s, mount.file);
      }
      MountsApart(lib, u, removed, Apply(lib, s, r));
    }
  }

  // Each request does to the plain view what it should.
  lemma ApplyRefines(lib: Library, u: Universe, s: Store, r: Request)
    requires NoCollisions(lib, u) && Sound(lib, u, s) && Within(r, u)
    ensures Refines(lib, u, s, r)
  {
    hide NoCollisions, Sound, View;
    match r
    case Upload(_, _, _, _, _) => UploadRefines(lib, u, s, r);
    case PutStaged(_, _) => PutStagedRefines(lib, u, s, r);
    case Complete(_, _, _, _, _, _) => CompleteRefines(lib, u, s, r);
    case MountFile(_, _, _, _) => MountRefines(lib, u, s, r);
    case Unmount(_, _) => UnmountRefines(lib, u, s, r);
    case DeleteFile(_, _) => DeleteRefines(lib, u, s, r);
  }

  const EmptyStore := Store(map[], map[], map[], 0)

  function Run(lib: Library, requests: seq<Request>): Store {
    if requests == [] then EmptyStore
    else Apply(lib, Run(lib, requests[..|requests| - 1]), requests[|requests| - 1])
  }

  function PlainRun(lib: Library, requests: seq<Request>): Plain {
    if requests == [] then Plain(map[], map[], map[], 0)
    else PlainApply(lib, PlainRun(lib, requests[..|requests| - 1]), requests[|requests| - 1])
  }

  // Across every run the shared, counted store shows what the plain one would:
  // every live file has its own bytes, and every object that is not a staged
  // upload belongs to a live file.
  lemma {:induction false} EveryRunRefines(lib: Library, u: Universe, requests: seq<Request>)
    requires NoCollisions(lib, u)
    requires forall r | r in requests :: Within(r, u)
    ensures Sound(lib, u, Run(lib, requests))
    ensures View(Run(lib, requests)) == PlainRun(lib, requests)
    ensures forall key | key in Run(lib, requests).objects && !IsStaged(key) :: HasFile(Run(lib, requests), key)
  {
    if requests == [] {
      assert View(EmptyStore) == Plain(map[], map[], map[], 0);
    } else {
      EveryRunRefines(lib, u, requests[..|requests| - 1]);
      ApplyRefines(lib, u, Run(lib, requests[..|requests| - 1]), requests[|requests| - 1]);
    }
  }

  // The assumption on digests is needed: two contents that share the first 16
  // characters of their digests, uploaded on one day under one name, share an
  // object, and the second upload replaces the bytes of the first file.
  lemma CollidingPrefixesOverwrite(lib: Library, a: Bytes, b: Bytes, workspace: string, filename: string, date: string)
    requires lib.digest(a) != lib.digest(b) && Prefix16(lib.digest(a)) == Prefix16(lib.digest(b))
    ensures var uploads := [Upload(workspace, a, filename, date, true), Upload(workspace, b, filename, date, true)];
      && 0 in View(Run(lib, uploads)).files && View(Run(lib, uploads)).files[0].bytes == b
      && 0 in PlainRun(lib, uploads).files && PlainRun(lib, uploads).files[0].bytes == a
  {
    hide View, PlainRun;
    var first, second := Upload(workspace, a, filename, date, true), Upload(workspace, b, filename, date, true);
    var uploads := [first, second];
    var s := UploadEffect(lib, Store(map[], map[], map[], 0), first);
    RunOfTwo(lib, first, second);
    assert Sharing(Store(map[], map[], map[], 0), workspace, lib.digest(a)) == {};
    assert Sharing(s, workspace, lib.digest(b)) == {};
    SeenBytes(Run(lib, uploads), 0);
  }

  lemma SeenBytes(s: Store, f: FileId)
    requires f in s.files && s.files[f].key in s.objects
    ensures f in View(s).files && View(s).files[f].bytes == s.objects[s.files[f].key]
  {
  }

  lemma RunOfTwo(lib: Library, first: Request, second: Request)
    requires first.Upload? && second.Upload? && first.acceptable && second.acceptable
    ensures Run(lib, [first, second]) == UploadEffect(lib, UploadEffect(lib, Store(map[], map[], map[], 0), first), second)
    ensures 0 in PlainRun(lib, [first, second]).files && PlainRun(lib, [first, second]).files[0].bytes == first.content
  {
    hide UploadEffect;
    assert [first, second][..1] == [first] && [first][..0] == [];
    assert Run(lib, [first]) == Apply(lib, Run(lib, []), first);
    assert PlainRun(lib, [first]) == PlainApply(lib, PlainRun(lib, []), first);
  }
}
