/**
 What each request to a memory store comes to: which are accepted, and that what
 was sent is what is kept, in the memory and in its new version.
 */
module MemoryOutcomes {
  import opened Options
  import opened Strings
  import opened MemoryPaths
  import opened MemoryStore

  ghost predicate KeyTaken(s: Store, key: string, but: Id) {
    exists other | other in s.memories :: other != but && !s.memories[other].deleted && s.memories[other].name == key
  }

  lemma NamedIdsIff(s: Store, key: string, but: Id)
    ensures NamedIds(s, key) - {but} != {} <==> KeyTaken(s, key, but)
    ensures but !in s.memories ==> (NamedIds(s, key) != {} <==> KeyTaken(s, key, but))
  {
    if KeyTaken(s, key, but) {
      var other :| other in s.memories && other != but && !s.memories[other].deleted && s.memories[other].name == key;
      assert other in NamedIds(s, key) - {but} && other in NamedIds(s, key);
    }
    if other :| other in NamedIds(s, key) - {but} {
      assert other in s.memories;
    }
    if but !in s.memories {
      assert NamedIds(s, key) - {but} == NamedIds(s, key);
    }
  }

  // --------------------------------------------------------------------- creation

  // A memory is created exactly in an unarchived store with fewer than 2000 live
  // memories, under a path that has a normal form and a key no live memory has,
  // with at most 102400 bytes of content.
  lemma CreateIsAcceptedIff(
    lib: Library, s: Store, path: PathInput, content: Option<string>, metadata: Metadata, actor: string,
    sessionId: Option<string>)
    requires s.nextId !in s.memories
    ensures CreateEffect(lib, s, path, content, metadata, actor, sessionId).Changed? <==>
      && !s.archived
      && |set id | id in s.memories && !s.memories[id].deleted| < 2000
      && Normalize(lib.unicode, path).Some?
      && lib.unicode.utf8Length(if content.Some? then content.value else "") <= 102400
      && !KeyTaken(s, PathKey(Normalize(lib.unicode, path).value), s.nextId)
  {
    hide Normalize, PathKey;
    assert LiveIds(s) == set id | id in s.memories && !s.memories[id].deleted;
    var normal := Normalize(lib.unicode, path);
    if normal.Some? {
      NamedIdsIff(s, PathKey(normal.value), s.nextId);
    }
  }

  // What is kept of a creation: the path in normal form, the content, its digest,
  // metadata, author and session, as version 1, in the memory and in a version row.
  lemma CreateKeepsWhatWasSent(
    lib: Library, s: Store, path: PathInput, content: Option<string>, metadata: Metadata, actor: string,
    sessionId: Option<string>)
    requires IdsFresh(s) && CreateEffect(lib, s, path, content, metadata, actor, sessionId).Changed?
    ensures var s' := CreateEffect(lib, s, path, content, metadata, actor, sessionId).store;
      var text := if content.Some? then content.value else "";
      exists id, v | id in s'.memories && v in s'.versions ::
        && id !in s.memories && v !in s.versions
        && s'.memories == s.memories[id := s'.memories[id]] && s'.versions == s.versions[v := s'.versions[v]]
        && Kept(s'.memories[id], s'.versions[v], id, v)
        && !s'.memories[id].deleted && s'.archived == s.archived
        && (var d := s'.memories[id].data;
            && Some(d.path) == (match Normalize(lib.unicode, path) case Some(p) => Some(PathText(p)) case None => None)
            && d.content == Some(text) && d.sha256 == lib.digest(text)
            && d.metadata == Some(metadata) && d.updatedBy == actor && d.sessionId == sessionId
            && d.version == 1 && s'.versions[v].operation == WasCreated)
  {
    hide Normalize, PathKey, LiveIds, NamedIds;
    var s' := CreateEffect(lib, s, path, content, metadata, actor, sessionId).store;
    var id, v := s.nextId, s.nextId + 1;
    assert id in s'.memories && v in s'.versions;
    assert Kept(s'.memories[id], s'.versions[v], id, v);
  }

  // A version row holds what its memory holds.
  predicate Kept(memory: Memory, version: Version, id: Id, v: Id) {
    var d := memory.data;
    && d.headVersion == v && memory.name == d.key
    && version.memory == id && version.number == version.memoryVersion == d.version
    && version.path == d.path && version.key == d.key && version.sha256 == d.sha256
    && version.content == version.snapshotContent == d.content
    && version.actor == d.updatedBy && !version.redacted
  }

  // ---------------------------------------------------------------------- updates

  // The text a body leaves as the content.
  function SentContent(data: MemoryData, body: UpdateBody): Option<string> {
    match body.content
    case Absent => data.content
    case Null => Some("")
    case Given(text) => Some(text)
  }

  // The precondition on the digest holds, or there is none.
  predicate DigestMatches(data: MemoryData, body: UpdateBody) {
    body.expectedSha256 in {None, Some(""), Some(data.sha256)}
  }

  // Where the digest precondition holds, an update is refused exactly for a memory
  // that is not there, another version than quoted, a path without a normal form,
  // too much content, or a key that another live memory has.
  lemma UpdateIsRefusedIff(lib: Library, s: Store, id: Id, body: UpdateBody)
    requires Sound(lib, s) && (id in s.memories ==> DigestMatches(s.memories[id].data, body))
    ensures UpdateEffect(lib, s, id, body).Refused? <==>
      || id !in s.memories || s.memories[id].deleted
      || (body.expectedVersion.Some? && body.expectedVersion.value != s.memories[id].data.version)
      || body.path.Null?
      || (body.path.Given? && Normalize(lib.unicode, body.path.value).None?)
      || (body.content.Given? && lib.unicode.utf8Length(body.content.value) > 102400)
      || (body.content.Null? && lib.unicode.utf8Length("") > 102400)
      || (body.path.Given? && KeyTaken(s, PathKey(Normalize(lib.unicode, body.path.value).value), id))
  {
    hide Normalize, PathKey, VersionsUnbroken, HeadsCurrent, IdsFresh;
    if id in s.memories && body.path.Given? && Normalize(lib.unicode, body.path.value).Some? {
      var key := PathKey(Normalize(lib.unicode, body.path.value).value);
      NamedIdsIff(s, key, id);
      if !s.memories[id].deleted && key == s.memories[id].data.key {
        OwnKeyIsFree(lib, s, id);
      }
    }
  }

  // In a sound store no other live memory has a live memory's key.
  lemma OwnKeyIsFree(lib: Library, s: Store, id: Id)
    requires Sound(lib, s) && id in s.memories && !s.memories[id].deleted
    ensures !KeyTaken(s, s.memories[id].data.key, id)
  {
    hide VersionsUnbroken, HeadsCurrent, IdsFresh, Normalize;
    assert s.memories[id].name == s.memories[id].data.key;
  }

  // After an update that is not refused, and whose digest precondition holds, the
  // memory holds what was sent and keeps what was not; a session is taken over
  // with a change, and the author too.
  lemma UpdateKeepsWhatWasSent(lib: Library, s: Store, id: Id, body: UpdateBody)
    requires IdsFresh(s) && id in s.memories && DigestMatches(s.memories[id].data, body)
    requires !UpdateEffect(lib, s, id, body).Refused?
    ensures var s' := After(s, UpdateEffect(lib, s, id, body)); id in s'.memories && !s'.memories[id].deleted
    ensures var outcome := UpdateEffect(lib, s, id, body);
      var before, after := s.memories[id].data, After(s, outcome).memories[id].data;
      && after.content == SentContent(before, body)
      && after.path == (if body.path.Given? then body.path.value else before.path)
      && after.metadata == (match body.metadata case Absent => before.metadata case Null => None case Given(m) => Some(m))
      && (body.path.Given? && Normalize(lib.unicode, body.path.value).Some? ==>
            after.key == PathKey(Normalize(lib.unicode, body.path.value).value))
      && (!body.path.Given? ==> after.key == before.key)
      && (outcome.Changed? ==>
            && after.version == before.version + 1
            && (!body.content.Absent? ==> after.sha256 == lib.digest(SentContent(before, body).value))
            && (body.content.Absent? ==> after.sha256 == before.sha256)
            && after.updatedBy == (if body.actor.Some? then body.actor.value else before.updatedBy)
            && after.sessionId == (match body.sessionId
                                  case Absent => before.sessionId
                                  case Null => None
                                  case Given(session) => if session == "" then None else Some(session)))
  {
    hide Normalize, PathKey, NamedIds;
  }

  // An update adds a version, a row that holds what the memory now holds, exactly
  // when content, path or metadata become others.
  lemma UpdateAddsVersionIff(lib: Library, s: Store, id: Id, body: UpdateBody)
    requires Sound(lib, s) && id in s.memories && DigestMatches(s.memories[id].data, body)
    requires !UpdateEffect(lib, s, id, body).Refused?
    ensures var outcome := UpdateEffect(lib, s, id, body);
      var d := s.memories[id].data;
      && (outcome.Changed? <==>
            || SentContent(d, body) != d.content
            || (body.path.Given? && body.path.value != d.path)
            || (body.metadata.Null? && d.metadata.Some?)
            || (body.metadata.Given? && Some(body.metadata.value) != d.metadata))
      && (outcome.Changed? ==>
            var s' := outcome.store;
            && s.nextId in s'.versions && id in s'.memories
            && s'.memories == s.memories[id := s'.memories[id]]
            && s'.versions == s.versions[s.nextId := s'.versions[s.nextId]]
            && Kept(s'.memories[id], s'.versions[s.nextId], id, s.nextId)
            && s'.versions[s.nextId].operation == WasModified)
  {
    hide Normalize, PathKey, VersionsUnbroken, HeadsCurrent, LiveKeysDistinct, NamedIds;
    var d := s.memories[id].data;
    if body.path.Given? && Normalize(lib.unicode, body.path.value).Some? {
      PathKeyDeterminesPath(lib.unicode, body.path.value);
      var key := PathKey(Normalize(lib.unicode, body.path.value).value);
      if body.path.value == d.path {
        assert "/" + key == "/" + d.key;
        assert key == ("/" + key)[1..] && d.key == ("/" + d.key)[1..];
      }
    }
  }

  // A quoted digest that is not the memory's answers with the memory as it is where
  // the body asks for its path and content, and with a conflict otherwise.
  lemma StaleDigestAnswers(lib: Library, s: Store, id: Id, body: UpdateBody)
    requires Sound(lib, s) && id in s.memories && !s.memories[id].deleted && !DigestMatches(s.memories[id].data, body)
    requires body.expectedVersion in {None, Some(s.memories[id].data.version)}
    requires body.path.Absent? || (body.path.Given? && Normalize(lib.unicode, body.path.value).Some?)
    requires s.memories[id].data.path.PathText? && Normalize(lib.unicode, s.memories[id].data.path) == Some(s.memories[id].data.path.text)
    ensures UpdateEffect(lib, s, id, body) ==
      if SentContent(s.memories[id].data, body) == s.memories[id].data.content
         && (body.path.Given? ==>
               Normalize(lib.unicode, body.path.value) == Normalize(lib.unicode, s.memories[id].data.path))
      then NoChange else Refused(Conflict)
  {
    hide Normalize, PathKey, VersionsUnbroken, HeadsCurrent, LiveKeysDistinct, NamedIds;
  }

  // --------------------------------------------------------- deletion and redaction

  // A deletion is refused exactly in an archived store, for a memory that is not
  // there, or for another digest than quoted; it adds the version that says so.
  lemma DeleteMarks(lib: Library, s: Store, id: Id, expectedSha256: Option<string>)
    requires IdsFresh(s)
    ensures var outcome := DeleteEffect(s, id, expectedSha256);
      && (outcome.Changed? <==>
            && !s.archived && id in s.memories && !s.memories[id].deleted
            && expectedSha256 in {None, Some(s.memories[id].data.sha256)})
      && (outcome.Changed? ==>
            var s' := outcome.store;
            && s.nextId in s'.versions && id in s'.memories && s'.memories[id].deleted
            && s'.memories == s.memories[id := s'.memories[id]]
            && s'.versions == s.versions[s.nextId := s'.versions[s.nextId]]
            && s'.memories[id].data == s.memories[id].data.(version := s.memories[id].data.version + 1, headVersion := s.nextId)
            && s'.versions[s.nextId].memory == id
            && s'.versions[s.nextId].number == s.memories[id].data.version + 1
            && s'.versions[s.nextId].operation == WasDeleted
            && s'.versions[s.nextId].content == s.memories[id].data.content)
  {
  }

  // In a sound store a version can be redacted exactly when it is not the head of a
  // live memory, and nothing but that version's snapshot and mark changes.
  lemma RedactIsAcceptedIff(lib: Library, s: Store, v: Id)
    requires Sound(lib, s)
    ensures RedactEffect(s, v).Changed? <==>
      v in s.versions && (s.memories[s.versions[v].memory].deleted || s.memories[s.versions[v].memory].data.headVersion != v)
    ensures RedactEffect(s, v).Changed? ==>
      RedactEffect(s, v).store
        == s.(versions := s.versions[v := s.versions[v].(snapshotContent := None, redacted := true)])
  {
    hide Normalize, LiveDataSound, LiveKeysDistinct, IdsFresh;
    if RedactEffect(s, v).Changed? {
      RedactNeverTouchesMemories(lib, s, v);
    }
    if v in s.versions {
      var id := s.versions[v].memory;
      var head := s.memories[id].data.headVersion;
      assert s.versions[head].number == s.memories[id].data.version;
      assert s.versions[v].number == s.memories[id].data.version ==> v == head;
    }
  }
}
