/**
 What each file request leaves in the object store and in the rows: which key
 holds the bytes, when an object is shared and when it goes.
 */
module FileOutcomes {
  import opened Options
  import opened FileStore

  function First16(sha256: string): string {
    if |sha256| <= 16 then sha256 else sha256[..16]
  }

  // A file of the workspace with this digest.
  predicate HasDigest(s: Store, f: FileId, workspace: string, sha256: string) {
    f in s.files && s.files[f].workspace == workspace && s.files[f].sha256 == sha256
  }

  ghost predicate IsOldest(s: Store, f: FileId, workspace: string, sha256: string) {
    HasDigest(s, f, workspace, sha256) && forall other | HasDigest(s, other, workspace, sha256) :: f <= other
  }

  // An upload adds one file. With no file of the same digest in the workspace it
  // stores the bytes under a key of its own; otherwise it stores nothing and points
  // to the object of the oldest of them.
  lemma UploadStores(lib: Library, s: Store, workspace: string, content: Bytes, filename: string, date: string)
    ensures Apply(lib, s, Upload(workspace, content, filename, date, false)) == s
    ensures var s' := Apply(lib, s, Upload(workspace, content, filename, date, true));
      var sha256 := lib.digest(content);
      && s.nextId in s'.files
      && var key := s'.files[s.nextId].key;
      && s' == Store(s'.objects, s.files[s.nextId := FileRow(workspace, filename, sha256, key, None)], s.mounts, s.nextId + 1)
      && ((forall f :: !HasDigest(s, f, workspace, sha256)) ==>
            && key == Key(lib.safePart(workspace), lib.safePart("oma"), "files", date, First16(sha256), lib.safeFilename(filename))
            && s'.objects == s.objects[key := content])
      && (forall f | IsOldest(s, f, workspace, sha256) :: key == s.files[f].key && s'.objects == s.objects)
  {
    var sha256 := lib.digest(content);
    var sharing := Sharing(s, workspace, sha256);
    assert forall f :: HasDigest(s, f, workspace, sha256) <==> f in sharing;
    if sharing != {} {
      assert HasDigest(s, Oldest(sharing), workspace, sha256);
      assert forall f | IsOldest(s, f, workspace, sha256) :: f == Oldest(sharing);
    }
  }

  // A completion is accepted exactly for staged bytes of the workspace that carry
  // the digest the client claims, if it claims one. It then does what an upload of
  // those bytes would, and the staged object is gone.
  lemma CompletionStores(
    lib: Library, s: Store, workspace: string, key: Key, claimed: Option<string>, filename: string, date: string, acceptable: bool)
    ensures var s' := Apply(lib, s, Complete(workspace, key, claimed, filename, date, acceptable));
      if && key.workspace == workspace && key.category == "staged-uploads" && key in s.objects && acceptable
         && claimed in {None, Some(""), Some(lib.digest(s.objects[key]))}
      then
        var uploaded := Apply(lib, s, Upload(workspace, s.objects[key], filename, date, true));
        s' == uploaded.(objects := uploaded.objects - {key})
      else s' == s
  {
    hide Oldest;
  }

  // Mounting a file copies its bytes to a key of the session, and adds a file of
  // the session for the copy and a resource for that.
  lemma MountCopies(lib: Library, s: Store, workspace: string, session: string, file: FileId, date: string)
    ensures var s' := Apply(lib, s, MountFile(workspace, session, file, date));
      if file in s.files && s.files[file].workspace == workspace && s.files[file].key in s.objects then
        var FileRow(_, filename, sha256, source, _) := s.files[file];
        var key := Key(lib.safePart(workspace), lib.safePart("sessions_" + session), "resources", date, First16(sha256),
                       lib.safeFilename(filename));
        s' == Store(
          s.objects[key := s.objects[source]],
          s.files[s.nextId := FileRow(workspace, filename, sha256, key, Some(session))],
          s.mounts[s.nextId + 1 := Mount(workspace, session, s.nextId)],
          s.nextId + 2)
      else s' == s
  {
  }

  // Another file of the workspace that uses the object of this one.
  predicate IsShared(s: Store, file: FileId)
    requires file in s.files
  {
    exists other | other in s.files && other != file ::
      s.files[other].workspace == s.files[file].workspace && s.files[other].key == s.files[file].key
  }

  lemma RemovalFrees(s: Store, file: FileId)
    requires file in s.files
    ensures RemoveFile(s, file) == s.(
              objects := if IsShared(s, file) then s.objects else s.objects - {s.files[file].key},
              files := s.files - {file})
  {
    var references := References(s, s.files[file].workspace, s.files[file].key);
    if IsShared(s, file) {
      var other :| other in s.files && other != file
        && s.files[other].workspace == s.files[file].workspace && s.files[other].key == s.files[file].key;
      assert {file, other} <= references;
      SubsetSize({file, other}, references);
    } else {
      assert references == {file};
    }
  }

  // A deletion removes the file, and its object unless another file of the
  // workspace uses it.
  lemma DeletionFrees(lib: Library, s: Store, workspace: string, file: FileId)
    ensures var s' := Apply(lib, s, DeleteFile(workspace, file));
      if file in s.files && s.files[file].workspace == workspace then
        s' == s.(objects := if IsShared(s, file) then s.objects else s.objects - {s.files[file].key},
                 files := s.files - {file})
      else s' == s
  {
    if file in s.files {
      RemovalFrees(s, file);
    }
  }

  // Removing a resource of a session also removes the file it mounts if that is
  // the session's own copy.
  lemma UnmountFrees(lib: Library, s: Store, session: string, mount: MountId)
    ensures var s' := Apply(lib, s, Unmount(session, mount));
      if mount !in s.mounts || s.mounts[mount].session != session then s' == s
      else
        var Mount(workspace, _, file) := s.mounts[mount];
        if file in s.files && s.files[file].workspace == workspace && s.files[file].scope == Some(session) then
          s' == Store(
            if IsShared(s, file) then s.objects else s.objects - {s.files[file].key},
            s.files - {file}, s.mounts - {mount}, s.nextId)
        else s' == s.(mounts := s.mounts - {mount})
  {
    if mount in s.mounts && s.mounts[mount].file in s.files {
      RemovalFrees(s, s.mounts[mount].file);
    }
  }
}
