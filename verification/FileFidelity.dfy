/**
 When sharing is faithful: exactly which requests, on which stores, give users
 what a plain store would, with no assumption on digests or names.
 */
module FileFidelity {
  import opened FileStore
  import opened Options

  function BytesAt(objects: map<Key, Bytes>, key: Key): Bytes {
    if key in objects then objects[key] else []
  }

  // What every run keeps, whatever collides.
  ghost predicate Tidy(s: Store) {
    forall f | f in s.files :: f < s.nextId && !IsStaged(s.files[f].key)
  }

  // Every live file at a key already holds the bytes that are to be stored there.
  ghost predicate HoldsAlready(s: Store, key: Key, content: Bytes) {
    forall f | f in s.files && s.files[f].key == key :: BytesAt(s.objects, key) == content
  }

  // Storing new content: a shared object must hold it, a new key must not be
  // another content's.
  ghost predicate StoresFaithfully(
    lib: Library, s: Store, workspace: string, content: Bytes, filename: string, date: string)
  {
    var sha256 := lib.digest(content);
    var sharing := Sharing(s, workspace, sha256);
    if sharing == {} then
      HoldsAlready(s, ObjectKey(lib, workspace, "oma", "files", date, sha256, filename), content)
    else BytesAt(s.objects, s.files[Oldest(sharing)].key) == content
  }

  // Freeing an object with the last reference in a workspace must not take it
  // from a file elsewhere.
  ghost predicate FreesFaithfully(s: Store, file: FileId)
    requires file in s.files
  {
    var row := s.files[file];
    |References(s, row.workspace, row.key)| <= 1 ==>
      forall other | other in s.files && other != file && s.files[other].key == row.key ::
        BytesAt(s.objects, row.key) == []
  }

  predicate CompletionAccepted(lib: Library, s: Store, r: Request)
    requires r.Complete?
  {
    && Completable(s, r) && r.acceptable
    && !(r.claimed.Some? && r.claimed.value != "" && r.claimed.value != lib.digest(s.objects[r.key]))
  }

  predicate UnmountFrees(s: Store, r: Request)
    requires r.Unmount?
  {
    && r.mount in s.mounts && s.mounts[r.mount].session == r.session
    && var m := s.mounts[r.mount];
       m.file in s.files && s.files[m.file].workspace == m.workspace && s.files[m.file].scope == Some(m.session)
  }

  ghost predicate Faithful(lib: Library, s: Store, r: Request) {
    match r
    case Upload(workspace, content, filename, date, acceptable) =>
      acceptable ==> StoresFaithfully(lib, s, workspace, content, filename, date)
    case PutStaged(_, _) => true
    case Complete(workspace, key, _, filename, date, _) =>
      CompletionAccepted(lib, s, r) ==> StoresFaithfully(lib, s, workspace, s.objects[key], filename, date)
    case MountFile(workspace, session, file, date) =>
      file in s.files && s.files[file].workspace == workspace ==>
        var source := s.files[file];
        && source.key in s.objects
        && HoldsAlready(s, MountKey(lib, s, r), s.objects[source.key])
    case Unmount(_, mount) => UnmountFrees(s, r) ==> FreesFaithfully(s, s.mounts[mount].file)
    case DeleteFile(workspace, file) =>
      file in s.files && s.files[file].workspace == workspace ==> FreesFaithfully(s, file)
  }

  function MountKey(lib: Library, s: Store, r: Request): Key
    requires r.MountFile? && r.file in s.files
  {
    var source := s.files[r.file];
    ObjectKey(lib, r.workspace, "sessions_" + r.session, "resources", r.date, source.sha256, source.filename)
  }

  // ------------------------------------------------------------------ one change

  predicate SameBytes(s: Store, objects: map<Key, Bytes>, file: FileId)
    requires file in s.files
  {
    BytesAt(objects, s.files[file].key) == BytesAt(s.objects, s.files[file].key)
  }

  lemma ShowsBytes(s: Store, row: FileRow)
    ensures Show(s, row) == PlainFile(row.workspace, row.filename, BytesAt(s.objects, row.key), row.scope)
  {
  }

  lemma AddedFileIff(s: Store, objects: map<Key, Bytes>, row: FileRow, bytes: Bytes)
    requires Tidy(s)
    ensures
      FilesOf(AddFile(s.(objects := objects), row))
        == FilesOf(s)[s.nextId := PlainFile(row.workspace, row.filename, bytes, row.scope)]
      <==> (BytesAt(objects, row.key) == bytes && forall f | f in s.files :: SameBytes(s, objects, f))
  {
    hide Show, BytesAt;
    var s' := AddFile(s.(objects := objects), row);
    var after, expected := FilesOf(s'), FilesOf(s)[s.nextId := PlainFile(row.workspace, row.filename, bytes, row.scope)];
    assert after.Keys == expected.Keys;
    ShowsBytes(s', row);
    forall f | f in s.files
      ensures after[f] == expected[f] <==> SameBytes(s, objects, f)
    {
      ShowsBytes(s', s.files[f]);
      ShowsBytes(s, s.files[f]);
    }
    assert after[s.nextId] == Show(s', row);
    assert forall f :: f in after <==> f in s.files || f == s.nextId;
    assert after == expected <==> forall f | f in after :: after[f] == expected[f];
  }

  lemma RemovedFileIff(s: Store, objects: map<Key, Bytes>, file: FileId)
    requires file in s.files
    ensures FilesOf(s.(objects := objects, files := s.files - {file})) == FilesOf(s) - {file}
      <==> (forall f | f in s.files && f != file :: SameBytes(s, objects, f))
  {
    hide Show, BytesAt;
    var s' := s.(objects := objects, files := s.files - {file});
    var after, expected := FilesOf(s'), FilesOf(s) - {file};
    assert after.Keys == expected.Keys;
    forall f | f in s.files && f != file
      ensures after[f] == expected[f] <==> SameBytes(s, objects, f)
    {
      ShowsBytes(s', s.files[f]);
      ShowsBytes(s, s.files[f]);
    }
    assert after == expected <==> forall f | f in after :: after[f] == expected[f];
  }

  lemma StagedOnly(s: Store, s': Store)
    requires forall key | IsStaged(key) ::
               (key in s.objects <==> key in s'.objects) && (key in s.objects ==> s'.objects[key] == s.objects[key])
    ensures StagedOf(s') == StagedOf(s)
  {
  }

  // Putting content at a key that is not a staged one.
  lemma PutIff(s: Store, content: Bytes, row: FileRow)
    requires Tidy(s) && !IsStaged(row.key)
    ensures var s' := AddFile(s.(objects := s.objects[row.key := content]), row);
      && StagedOf(s') == StagedOf(s)
      && (FilesOf(s') == FilesOf(s)[s.nextId := PlainFile(row.workspace, row.filename, content, row.scope)]
          <==> HoldsAlready(s, row.key, content))
  {
    hide StagedOf, FilesOf;
    var objects := s.objects[row.key := content];
    AddedFileIff(s, objects, row, content);
    assert forall f | f in s.files :: s.files[f].key != row.key ==> SameBytes(s, objects, f);
    StagedOnly(s, AddFile(s.(objects := objects), row));
  }

  lemma ShareIff(s: Store, content: Bytes, row: FileRow)
    requires Tidy(s)
    ensures var s' := AddFile(s, row);
      && StagedOf(s') == StagedOf(s)
      && (FilesOf(s') == FilesOf(s)[s.nextId := PlainFile(row.workspace, row.filename, content, row.scope)]
          <==> BytesAt(s.objects, row.key) == content)
  {
    hide StagedOf, FilesOf;
    AddedFileIff(s, s.objects, row, content);
    StagedOnly(s, AddFile(s, row));
    assert s.(objects := s.objects) == s;
  }

  lemma FreeIff(s: Store, file: FileId)
    requires Tidy(s) && file in s.files
    ensures var s' := RemoveFile(s, file);
      && StagedOf(s') == StagedOf(s)
      && (FilesOf(s') == FilesOf(s) - {file} <==> FreesFaithfully(s, file))
  {
    hide StagedOf, FilesOf, References;
    var s' := RemoveFile(s, file);
    RemovedFileIff(s, s'.objects, file);
    StagedOnly(s, s');
  }

  // ----------------------------------------------------------------- each request

  lemma UploadFaithfulIff(lib: Library, s: Store, r: Request)
    requires Tidy(s) && r.Upload?
    ensures View(Apply(lib, s, r)) == PlainApply(lib, View(s), r) <==> Faithful(lib, s, r)
  {
    hide FilesOf, StagedOf, Oldest, HoldsAlready, Tidy;
    if r.acceptable {
      var sha256 := lib.digest(r.content);
      var sharing := Sharing(s, r.workspace, sha256);
      if sharing == {} {
        var key := ObjectKey(lib, r.workspace, "oma", "files", r.date, sha256, r.filename);
        PutIff(s, r.content, FileRow(r.workspace, r.filename, sha256, key, None));
      } else {
        var key := s.files[Oldest(sharing)].key;
        ShareIff(s, r.content, FileRow(r.workspace, r.filename, sha256, key, None));
      }
    }
  }

  // The store without a staged object shows the same files.
  lemma DroppedStaged(lib: Library, s: Store, key: Key, workspace: string, content: Bytes, filename: string, date: string)
    requires Tidy(s) && IsStaged(key)
    ensures var dropped := s.(objects := s.objects - {key});
      && Tidy(dropped)
      && FilesOf(dropped) == FilesOf(s)
      && StagedOf(dropped) == StagedOf(s) - {key}
      && (StoresFaithfully(lib, dropped, workspace, content, filename, date)
          <==> StoresFaithfully(lib, s, workspace, content, filename, date))
  {
    hide ObjectKey, Oldest;
    var dropped := s.(objects := s.objects - {key});
    SharingSame(s, dropped, workspace, lib.digest(content));
    assert forall f | f in s.files :: BytesAt(dropped.objects, s.files[f].key) == BytesAt(s.objects, s.files[f].key);
  }

  // A completion is an upload of the staged bytes on the store without them.
  lemma CompleteIsUpload(lib: Library, s: Store, r: Request)
    requires Tidy(s) && r.Complete? && CompletionAccepted(lib, s, r)
    ensures var dropped := s.(objects := s.objects - {r.key});
      Apply(lib, s, r) == Apply(lib, dropped, Upload(r.workspace, s.objects[r.key], r.filename, r.date, true))
  {
    hide Oldest, Tidy, Sharing;
    var dropped := s.(objects := s.objects - {r.key});
    var sha256 := lib.digest(s.objects[r.key]);
    SharingSame(s, dropped, r.workspace, sha256);
    var key := ObjectKey(lib, r.workspace, "oma", "files", r.date, sha256, r.filename);
    assert s.objects[key := s.objects[r.key]] - {r.key} == dropped.objects[key := s.objects[r.key]];
  }

  lemma CompleteFaithfulIff(lib: Library, s: Store, r: Request)
    requires Tidy(s) && r.Complete?
    ensures View(Apply(lib, s, r)) == PlainApply(lib, View(s), r) <==> Faithful(lib, s, r)
  {
    if CompletionAccepted(lib, s, r) {
      var dropped := s.(objects := s.objects - {r.key});
      var upload := Upload(r.workspace, s.objects[r.key], r.filename, r.date, true);
      CompleteIsUpload(lib, s, r);
      DroppedStaged(lib, s, r.key, r.workspace, s.objects[r.key], r.filename, r.date);
      assert Faithful(lib, s, r) <==> Faithful(lib, dropped, upload);
      UploadFaithfulIff(lib, dropped, upload);
      hide Apply, Faithful, Tidy, FilesOf;
      assert StagedOf(s)[r.key] == s.objects[r.key];
    } else {
      hide FilesOf;
      PlainComplete(lib, View(s), r);
      assert r.key in StagedOf(s) <==> r.key in s.objects && IsStaged(r.key);
    }
  }

  lemma MountFaithfulIff(lib: Library, s: Store, r: Request)
    requires Tidy(s) && r.MountFile?
    ensures View(Apply(lib, s, r)) == PlainApply(lib, View(s), r) <==> Faithful(lib, s, r)
  {
    if r.file in s.files && s.files[r.file].workspace == r.workspace {
      var source := s.files[r.file];
      assert FilesOf(s)[r.file] == PlainFile(source.workspace, source.filename, BytesAt(s.objects, source.key), source.scope);
      if source.key in s.objects {
        var row := FileRow(r.workspace, source.filename, source.sha256, MountKey(lib, s, r), Some(r.session));
        var content := s.objects[source.key];
        PutIff(s, content, row);
        var added := AddFile(s.(objects := s.objects[row.key := content]), row);
        SameFiles(added, Apply(lib, s, r));
      }
      hide FilesOf, StagedOf, HoldsAlready, Tidy;
    } else {
      hide StagedOf, HoldsAlready;
    }
  }

  lemma SameFiles(s: Store, s': Store)
    requires s'.files == s.files && s'.objects == s.objects
    ensures FilesOf(s') == FilesOf(s) && StagedOf(s') == StagedOf(s)
  {
  }

  lemma FreeingFaithfulIff(lib: Library, s: Store, r: Request)
    requires Tidy(s) && (r.Unmount? || r.DeleteFile?)
    ensures View(Apply(lib, s, r)) == PlainApply(lib, View(s), r) <==> Faithful(lib, s, r)
  {
    var file := if r.DeleteFile? then r.file else if r.mount in s.mounts then s.mounts[r.mount].file else 0;
    assert file in FilesOf(s) <==> file in s.files;
    if file in s.files {
      ShowsBytes(s, s.files[file]);
      FreeIff(s, file);
      SameFiles(RemoveFile(s, file), RemoveFile(s, file).(mounts := if r.Unmount? then s.mounts - {r.mount} else s.mounts));
    }
    SameFiles(s, s.(mounts := if r.Unmount? then s.mounts - {r.mount} else s.mounts));
    hide FilesOf, StagedOf, RemoveFile, FreesFaithfully, Tidy;
  }

  // Exactly these requests give users what a plain store would.
  lemma FaithfulIff(lib: Library, s: Store, r: Request)
    requires Tidy(s)
    ensures View(Apply(lib, s, r)) == PlainApply(lib, View(s), r) <==> Faithful(lib, s, r)
  {
    hide View, Apply, PlainApply, Faithful;
    match r
    case Upload(_, _, _, _, _) => UploadFaithfulIff(lib, s, r);
    case PutStaged(_, _) => PutStagedFaithful(lib, s, r);
    case Complete(_, _, _, _, _, _) => CompleteFaithfulIff(lib, s, r);
    case MountFile(_, _, _, _) => MountFaithfulIff(lib, s, r);
    case Unmount(_, _) => FreeingFaithfulIff(lib, s, r);
    case DeleteFile(_, _) => FreeingFaithfulIff(lib, s, r);
  }

  lemma PutStagedFaithful(lib: Library, s: Store, r: Request)
    requires Tidy(s) && r.PutStaged?
    ensures View(Apply(lib, s, r)) == PlainApply(lib, View(s), r) && Faithful(lib, s, r)
  {
    if IsStaged(r.key) {
      var s' := Apply(lib, s, r);
      assert StagedOf(s') == StagedOf(s)[r.key := r.content];
      assert FilesOf(s') == FilesOf(s);
    }
  }

  // ------------------------------------------------------------------- every run

  lemma ApplyKeepsTidy(lib: Library, s: Store, r: Request)
    requires Tidy(s)
    ensures Tidy(Apply(lib, s, r))
  {
  }

  lemma {:induction false} EveryRunIsTidy(lib: Library, requests: seq<Request>)
    ensures Tidy(Run(lib, requests))
  {
    if requests != [] {
      EveryRunIsTidy(lib, requests[..|requests| - 1]);
      ApplyKeepsTidy(lib, Run(lib, requests[..|requests| - 1]), requests[|requests| - 1]);
    }
  }

  ghost predicate LooksPlain(lib: Library, requests: seq<Request>) {
    View(Run(lib, requests)) == PlainRun(lib, requests)
  }

  // A run looks like a plain store at every moment exactly when each of its
  // requests was faithful on the store it met.
  lemma {:induction false} EveryRunIsFaithfulIff(lib: Library, requests: seq<Request>)
    ensures (forall n | 0 <= n <= |requests| :: LooksPlain(lib, requests[..n]))
       <==> (forall n | 0 <= n < |requests| :: Faithful(lib, Run(lib, requests[..n]), requests[n]))
  {
    hide View, Apply, PlainApply, Faithful, Run, PlainRun, Tidy;
    assert requests[..0] == [];
    NothingLooksPlain(lib);
    forall n | 0 <= n < |requests| && LooksPlain(lib, requests[..n])
      ensures LooksPlain(lib, requests[..n + 1]) <==> Faithful(lib, Run(lib, requests[..n]), requests[n])
    {
      OneMoreLooksPlain(lib, requests, n);
    }
    if forall n | 0 <= n < |requests| :: Faithful(lib, Run(lib, requests[..n]), requests[n]) {
      LooksPlainUpTo(lib, requests, |requests|);
    }
    if forall n | 0 <= n <= |requests| :: LooksPlain(lib, requests[..n]) {
      forall n | 0 <= n < |requests|
        ensures Faithful(lib, Run(lib, requests[..n]), requests[n])
      {
        assert LooksPlain(lib, requests[..n]) && LooksPlain(lib, requests[..n + 1]);
      }
    }
  }

  lemma NothingLooksPlain(lib: Library)
    ensures LooksPlain(lib, [])
  {
    assert FilesOf(Store(map[], map[], map[], 0)) == map[];
    assert StagedOf(Store(map[], map[], map[], 0)) == map[];
  }

  lemma OneMoreLooksPlain(lib: Library, requests: seq<Request>, n: nat)
    requires n < |requests| && LooksPlain(lib, requests[..n])
    ensures LooksPlain(lib, requests[..n + 1]) <==> Faithful(lib, Run(lib, requests[..n]), requests[n])
  {
    hide View, Apply, PlainApply, Faithful, Tidy;
    var before := requests[..n];
    assert requests[..n + 1][..n] == before;
    EveryRunIsTidy(lib, before);
    FaithfulIff(lib, Run(lib, before), requests[n]);
  }

  lemma {:induction false} LooksPlainUpTo(lib: Library, requests: seq<Request>, upTo: nat)
    requires upTo <= |requests|
    requires forall n | 0 <= n < |requests| :: Faithful(lib, Run(lib, requests[..n]), requests[n])
    ensures forall n | 0 <= n <= upTo :: LooksPlain(lib, requests[..n])
  {
    hide LooksPlain, Faithful, Run;
    if upTo == 0 {
      NothingLooksPlain(lib);
      assert requests[..0] == [];
    } else {
      LooksPlainUpTo(lib, requests, upTo - 1);
      OneMoreLooksPlain(lib, requests, upTo - 1);
    }
  }
}
