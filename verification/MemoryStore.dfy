/**
 The memories of one store and their version history
 (app/routers/generic_resources.py: create, update, delete, redact).
 */
module MemoryStore {
  import opened Options
  import opened Strings
  import opened MemoryPaths

  type Id = nat

  type Metadata = map<string, string>

  datatype Operation = WasCreated | WasModified | WasDeleted

  // The `data` column of a memory. The path is kept as it was last sent; the
  // key is that of its normal form.
  datatype MemoryData = MemoryData(
    path: PathInput,
    key: string,
    content: Option<string>,
    sha256: string,
    metadata: Option<Metadata>,
    version: nat,
    headVersion: Id,
    updatedBy: string,
    sessionId: Option<string>,
    redacted: bool)

  datatype Memory = Memory(name: string, data: MemoryData, deleted: bool)

  // A version row: what it records, and whether it has been redacted. The
  // content is kept twice, beside the snapshot and in it.
  datatype Version = Version(
    memory: Id,
    number: nat,
    memoryVersion: nat,
    operation: Operation,
    actor: string,
    path: PathInput,
    key: string,
    sha256: string,
    content: Option<string>,
    snapshotContent: Option<string>,
    redacted: bool)

  datatype Store = Store(archived: bool, memories: map<Id, Memory>, versions: map<Id, Version>, nextId: Id)

  datatype Error = NotFound | Conflict | Unprocessable | TooLarge

  datatype Outcome = Refused(error: Error) | NoChange | Changed(store: Store)

  // Everything the handlers take from libraries: text tables and a digest.
  datatype Library = Library(unicode: Unicode, digest: string -> string)

  // A body's field that is absent, null or given.
  datatype Field<T> = Absent | Null | Given(value: T)

  datatype UpdateBody = UpdateBody(
    path: Field<PathInput>,
    content: Field<string>,
    metadata: Field<Metadata>,
    actor: Option<string>,
    sessionId: Field<string>,
    expectedVersion: Option<int>,
    expectedSha256: Option<string>)

  const MAX_MEMORIES_PER_STORE: nat := 2000
  const MAX_MEMORY_CONTENT_BYTES: nat := 102400

  // ------------------------------------------------------------------- queries

  predicate IsLive(s: Store, id: Id) {
    id in s.memories && !s.memories[id].deleted
  }

  function LiveIds(s: Store): set<Id> {
    set id | id in s.memories && !s.memories[id].deleted
  }

  function NamedIds(s: Store, name: string): set<Id> {
    set id | id in s.memories && !s.memories[id].deleted && s.memories[id].name == name
  }

  function Snapshot(id: Id, data: MemoryData, number: nat, operation: Operation): Version {
    Version(id, number, number, operation, data.updatedBy, data.path, data.key, data.sha256, data.content,
            data.content, false)
  }

  // -------------------------------------------------------------------- create

  function CreateEffect(
    lib: Library, s: Store, path: PathInput, content: Option<string>, metadata: Metadata, actor: string,
    sessionId: Option<string>): Outcome
  {
    var normal := Normalize(lib.unicode, path);
    var text := if content.Some? then content.value else "";
    if s.archived then Refused(Conflict)
    else if |LiveIds(s)| >= MAX_MEMORIES_PER_STORE then Refused(Conflict)
    else if normal.None? then Refused(Unprocessable)
    else if lib.unicode.utf8Length(text) > MAX_MEMORY_CONTENT_BYTES then Refused(TooLarge)
    else if NamedIds(s, PathKey(normal.value)) != {} then Refused(Conflict)
    else
      var key := PathKey(normal.value);
      var data := MemoryData(PathText(normal.value), key, Some(text), lib.digest(text), Some(metadata), 1,
                             s.nextId + 1, actor, sessionId, false);
      Changed(s.(memories := s.memories[s.nextId := Memory(key, data, false)],
                 versions := s.versions[s.nextId + 1 := Snapshot(s.nextId, data, 1, WasCreated)],
                 nextId := s.nextId + 2))
  }

  // -------------------------------------------------------------------- update

  // The key the merged data gets, or None where the path is refused.
  function MergedKey(lib: Library, data: MemoryData, body: UpdateBody): Option<string> {
    match body.path
    case Absent => Some(data.key)
    case Null => None
    case Given(path) =>
      var normal := Normalize(lib.unicode, path);
      if normal.Some? then Some(PathKey(normal.value)) else None
  }

  function MergedContent(data: MemoryData, body: UpdateBody): Option<string> {
    match body.content
    case Absent => data.content
    case Null => Some("")
    case Given(text) => Some(text)
  }

  function MergedSession(data: MemoryData, body: UpdateBody): Option<string> {
    match body.sessionId
    case Absent => data.sessionId
    case Null => None
    case Given(id) => if id == "" then None else Some(id)
  }

  function Merge(lib: Library, data: MemoryData, body: UpdateBody, key: string): MemoryData {
    var content := MergedContent(data, body);
    data.(path := if body.path.Given? then body.path.value else data.path,
          key := key,
          content := content,
          sha256 := if body.content.Absent? then data.sha256 else lib.digest(content.value),
          metadata := (match body.metadata
                       case Absent => data.metadata
                       case Null => None
                       case Given(m) => Some(m)),
          version := data.version + 1,
          updatedBy := if body.actor.Some? then body.actor.value else data.updatedBy,
          sessionId := MergedSession(data, body))
  }

  predicate IsMaterialChange(existing: MemoryData, merged: MemoryData) {
    || existing.path != merged.path
    || existing.key != merged.key
    || existing.content != merged.content
    || existing.metadata != merged.metadata
    || existing.redacted != merged.redacted
  }

  // Whether a body that failed its content precondition asks for what is already there.
  function RequestedStateMatches(lib: Library, data: MemoryData, body: UpdateBody): Option<bool> {
    var requested :=
      match body.path
      case Absent => Some(data.path)
      case Null => None
      case Given(path) =>
        (var normal := Normalize(lib.unicode, path);
         if normal.Some? then Some(PathText(normal.value)) else None);
    var current := Normalize(lib.unicode, data.path);
    if requested.None? || current.None? then None
    else
      var text := if data.content.Some? then data.content.value else "";
      Some(&& requested.value == PathText(current.value)
           && (match body.content
               case Absent => true
               case Null => text == ""
               case Given(t) => text == t))
  }

  predicate FailsContentPrecondition(data: MemoryData, body: UpdateBody) {
    body.expectedSha256.Some? && body.expectedSha256.value != "" && body.expectedSha256.value != data.sha256
  }

  // The memory store's archived flag is not consulted.
  function UpdateEffect(lib: Library, s: Store, id: Id, body: UpdateBody): Outcome {
    if !IsLive(s, id) then Refused(NotFound)
    else
      var memory := s.memories[id];
      if body.expectedVersion.Some? && body.expectedVersion.value != memory.data.version then Refused(Conflict)
      else if FailsContentPrecondition(memory.data, body) then
        (match RequestedStateMatches(lib, memory.data, body)
         case None => Refused(Unprocessable)
         case Some(true) => NoChange
         case Some(false) => Refused(Conflict))
      else
        var key := MergedKey(lib, memory.data, body);
        if key.None? then Refused(Unprocessable)
        else if !body.content.Absent?
                && lib.unicode.utf8Length(MergedContent(memory.data, body).value) > MAX_MEMORY_CONTENT_BYTES
        then Refused(TooLarge)
        else
          var merged := Merge(lib, memory.data, body, key.value);
          if !IsMaterialChange(memory.data, merged) then NoChange
          else if key.value != memory.data.key && NamedIds(s, key.value) - {id} != {} then Refused(Conflict)
          else
            var data := merged.(headVersion := s.nextId);
            Changed(s.(memories := s.memories[id := Memory(key.value, data, false)],
                       versions := s.versions[s.nextId := Snapshot(id, merged, merged.version, WasModified)],
                       nextId := s.nextId + 1))
  }

  // -------------------------------------------------------------------- delete

  function DeleteEffect(s: Store, id: Id, expectedSha256: Option<string>): Outcome {
    if s.archived then Refused(Conflict)
    else if !IsLive(s, id) then Refused(NotFound)
    else
      var memory := s.memories[id];
      if expectedSha256.Some? && expectedSha256.value != memory.data.sha256 then Refused(Conflict)
      else
        var data := memory.data.(version := memory.data.version + 1, headVersion := s.nextId);
        Changed(s.(memories := s.memories[id := Memory(memory.name, data, true)],
                   versions := s.versions[s.nextId := Snapshot(id, data, data.version, WasDeleted)],
                   nextId := s.nextId + 1))
  }

  // -------------------------------------------------------------------- redact

  // What a response shows of a version's content.
  function ShownContent(version: Version): Option<string> {
    if version.redacted || version.operation == WasDeleted then None else version.content
  }

  // The branch that would redact a live memory together with its version.
  predicate RedactsLiveMemory(s: Store, version: Version)
    requires version.memory in s.memories
  {
    !s.memories[version.memory].deleted && s.memories[version.memory].data.version == version.memoryVersion
  }

  function RedactEffect(s: Store, versionId: Id): Outcome {
    if versionId !in s.versions then Refused(NotFound)
    else
      var version := s.versions[versionId];
      if version.memory !in s.memories then Refused(NotFound)
      else
        var memory := s.memories[version.memory];
        if !memory.deleted && (memory.data.headVersion == versionId || memory.data.version == version.number)
        then Refused(Conflict)
        else
          var redacted := s.(versions := s.versions[versionId := version.(snapshotContent := None, redacted := true)]);
          Changed(if RedactsLiveMemory(s, version) then
                    redacted.(memories := s.memories[version.memory :=
                      memory.(data := memory.data.(content := None, redacted := true))])
                  else redacted)
  }

  // ------------------------------------------------------------------ the rows

  // The handlers as they run: look up, check, write the row, add a version row,
  // write the row again with the version's identifier.
  class MemoryRows {
    var archived: bool
    var memories: map<Id, Memory>
    var versions: map<Id, Version>
    var nextId: Id

    function View(): Store
      reads this
    {
      Store(archived, memories, versions, nextId)
    }

    constructor ()
      ensures View() == EmptyStore
    {
      archived, memories, versions, nextId := false, map[], map[], 0;
    }

    method CreateMemoryVersion(id: Id, data: MemoryData, number: nat, operation: Operation) returns (version: Id)
      modifies this`versions, this`nextId
      ensures version == old(nextId) && nextId == old(nextId) + 1
      ensures versions == old(versions)[version := Snapshot(id, data, number, operation)]
    {
      version := nextId;
      versions := versions[version := Snapshot(id, data, number, operation)];
      nextId := nextId + 1;
    }

    method CreateMemory(
      lib: Library, path: PathInput, content: Option<string>, metadata: Metadata, actor: string,
      sessionId: Option<string>)
      returns (outcome: Outcome)
      modifies this
      ensures outcome == CreateEffect(lib, old(View()), path, content, metadata, actor, sessionId)
      ensures View() == After(old(View()), outcome)
    {
      hide Normalize, PathKey, LiveIds, NamedIds;
      if archived {
        return Refused(Conflict);
      }
      if |LiveIds(View())| >= MAX_MEMORIES_PER_STORE {
        return Refused(Conflict);
      }
      var normal := Normalize(lib.unicode, path);
      if normal.None? {
        return Refused(Unprocessable);
      }
      var text := if content.Some? then content.value else "";
      if lib.unicode.utf8Length(text) > MAX_MEMORY_CONTENT_BYTES {
        return Refused(TooLarge);
      }
      var key := PathKey(normal.value);
      if NamedIds(View(), key) != {} {
        return Refused(Conflict);
      }
      var id := nextId;
      nextId := nextId + 1;
      var data := MemoryData(PathText(normal.value), key, Some(text), lib.digest(text), Some(metadata), 1,
                             0, actor, sessionId, false);
      memories := memories[id := Memory(key, data, false)];
      var version := CreateMemoryVersion(id, data, 1, WasCreated);
      data := data.(headVersion := version);
      memories := memories[id := Memory(key, data, false)];
      assert memories == old(memories)[id := Memory(key, data, false)];
      outcome := Changed(View());
    }

    method UpdateMemory(lib: Library, id: Id, body: UpdateBody) returns (outcome: Outcome)
      modifies this
      ensures outcome == UpdateEffect(lib, old(View()), id, body)
      ensures View() == After(old(View()), outcome)
    {
      if id !in memories || memories[id].deleted {
        return Refused(NotFound);
      }
      var current := memories[id].data;
      if body.expectedVersion.Some? && body.expectedVersion.value != current.version {
        return Refused(Conflict);
      }
      if body.expectedSha256.Some? && body.expectedSha256.value != "" && body.expectedSha256.value != current.sha256 {
        var matches := RequestedStateMatches(lib, current, body);
        if matches.None? {
          return Refused(Unprocessable);
        }
        return if matches.value then NoChange else Refused(Conflict);
      }
      var key := MergedKey(lib, current, body);
      if key.None? {
        return Refused(Unprocessable);
      }
      if !body.content.Absent?
         && lib.unicode.utf8Length(MergedContent(current, body).value) > MAX_MEMORY_CONTENT_BYTES
      {
        return Refused(TooLarge);
      }
      var data := Merge(lib, current, body, key.value);
      if !IsMaterialChange(current, data) {
        return NoChange;
      }
      if data.key != current.key {
        if NamedIds(View(), data.key) - {id} != {} {
          return Refused(Conflict);
        }
      }
      memories := memories[id := Memory(data.key, data, false)];
      var version := CreateMemoryVersion(id, data, data.version, WasModified);
      data := data.(headVersion := version);
      memories := memories[id := Memory(data.key, data, false)];
      outcome := Changed(View());
    }

    method DeleteMemory(id: Id, expectedSha256: Option<string>) returns (outcome: Outcome)
      modifies this
      ensures outcome == DeleteEffect(old(View()), id, expectedSha256)
      ensures View() == After(old(View()), outcome)
    {
      if archived {
        return Refused(Conflict);
      }
      if id !in memories || memories[id].deleted {
        return Refused(NotFound);
      }
      var memory := memories[id];
      if expectedSha256.Some? && expectedSha256.value != memory.data.sha256 {
        return Refused(Conflict);
      }
      var data := memory.data.(version := memory.data.version + 1);
      var version := CreateMemoryVersion(id, data, data.version, WasDeleted);
      data := data.(headVersion := version);
      memories := memories[id := memory.(data := data)];
      memories := memories[id := memories[id].(deleted := true)];
      outcome := Changed(View());
    }

    method RedactMemoryVersion(versionId: Id) returns (outcome: Outcome)
      modifies this
      ensures outcome == RedactEffect(old(View()), versionId)
      ensures View() == After(old(View()), outcome)
    {
      if versionId !in versions || versions[versionId].memory !in memories {
        return Refused(NotFound);
      }
      var version := versions[versionId];
      var memory := memories[version.memory];
      if !memory.deleted && (memory.data.headVersion == versionId || memory.data.version == version.number) {
        return Refused(Conflict);
      }
      versions := versions[versionId := version.(snapshotContent := None, redacted := true)];
      if !memory.deleted && memory.data.version == version.memoryVersion {
        memories := memories[version.memory := memory.(data := memory.data.(content := None, redacted := true))];
      }
      outcome := Changed(View());
    }
  }

  // ---------------------------------------------------------------------- runs

  datatype Request =
    | Create(path: PathInput, content: Option<string>, metadata: Metadata, actor: string, sessionId: Option<string>)
    | Update(id: Id, body: UpdateBody)
    | Delete(id: Id, expectedSha256: Option<string>)
    | Redact(versionId: Id)
    | ArchiveStore

  function Apply(lib: Library, s: Store, r: Request): Outcome {
    match r
    case Create(path, content, metadata, actor, sessionId) =>
      CreateEffect(lib, s, path, content, metadata, actor, sessionId)
    case Update(id, body) => UpdateEffect(lib, s, id, body)
    case Delete(id, expected) => DeleteEffect(s, id, expected)
    case Redact(versionId) => RedactEffect(s, versionId)
    case ArchiveStore => Changed(s.(archived := true))
  }

  function After(s: Store, outcome: Outcome): Store {
    if outcome.Changed? then outcome.store else s
  }

  const EmptyStore := Store(false, map[], map[], 0)

  function Run(lib: Library, requests: seq<Request>): Store {
    if requests == [] then EmptyStore
    else
      var before := Run(lib, requests[..|requests| - 1]);
      After(before, Apply(lib, before, requests[|requests| - 1]))
  }

  // ---------------------------------------------------------------- invariants

  ghost predicate HasVersion(s: Store, id: Id, number: nat) {
    exists v | v in s.versions :: s.versions[v].memory == id && s.versions[v].number == number
  }

  // The versions of a memory are exactly 1..n, n its current version, one row each.
  ghost predicate VersionsInRange(s: Store) {
    forall v | v in s.versions ::
      && s.versions[v].memory in s.memories
      && 1 <= s.versions[v].number <= s.memories[s.versions[v].memory].data.version
      && s.versions[v].memoryVersion == s.versions[v].number
  }

  ghost predicate VersionsComplete(s: Store) {
    forall id, number: nat | id in s.memories && 1 <= number <= s.memories[id].data.version ::
      HasVersion(s, id, number)
  }

  ghost predicate VersionsUnique(s: Store) {
    forall v, w | v in s.versions && w in s.versions
                  && s.versions[v].memory == s.versions[w].memory
                  && s.versions[v].number == s.versions[w].number :: v == w
  }

  ghost predicate VersionsUnbroken(s: Store) {
    VersionsInRange(s) && VersionsComplete(s) && VersionsUnique(s)
  }

  // The head version is the current one; that of a live memory is not redacted.
  ghost predicate HeadsCurrent(s: Store) {
    forall id | id in s.memories ::
      && s.memories[id].data.headVersion in s.versions
      && s.versions[s.memories[id].data.headVersion].memory == id
      && s.versions[s.memories[id].data.headVersion].number == s.memories[id].data.version
      && (!s.memories[id].deleted ==>
            && !s.versions[s.memories[id].data.headVersion].redacted
            && s.versions[s.memories[id].data.headVersion].snapshotContent == s.memories[id].data.content)
  }

  // A live memory has its content, the digest of it, and a name that is the key of its path.
  ghost predicate LiveDataSound(lib: Library, s: Store) {
    forall id | id in s.memories && !s.memories[id].deleted ::
      var memory := s.memories[id];
      && memory.data.content.Some? && !memory.data.redacted
      && memory.data.sha256 == lib.digest(memory.data.content.value)
      && memory.name == memory.data.key
      && Normalize(lib.unicode, memory.data.path) == Some("/" + memory.data.key)
  }

  ghost predicate LiveKeysDistinct(s: Store) {
    forall a, b | a in s.memories && b in s.memories && !s.memories[a].deleted && !s.memories[b].deleted
                  && s.memories[a].name == s.memories[b].name :: a == b
  }

  ghost predicate IdsFresh(s: Store) {
    && (forall id | id in s.memories :: id < s.nextId)
    && (forall v | v in s.versions :: v < s.nextId)
  }

  ghost predicate Sound(lib: Library, s: Store) {
    && VersionsUnbroken(s)
    && HeadsCurrent(s)
    && LiveDataSound(lib, s)
    && LiveKeysDistinct(s)
    && IdsFresh(s)
  }

  // A new version row on top of a memory's history.
  ghost predicate AddsVersion(s: Store, s': Store, id: Id, memory: Memory, v: Id, version: Version) {
    && (forall w | w in s.versions :: w < v)
    && s'.memories == s.memories[id := memory] && s'.versions == s.versions[v := version]
    && version.memory == id && version.number == version.memoryVersion == memory.data.version
    && memory.data.version == (if id in s.memories then s.memories[id].data.version + 1 else 1)
  }

  lemma VersionAddedInRange(s: Store, s': Store, id: Id, memory: Memory, v: Id, version: Version)
    requires AddsVersion(s, s', id, memory, v, version) && VersionsInRange(s)
    ensures VersionsInRange(s')
  {
  }

  lemma VersionAddedComplete(s: Store, s': Store, id: Id, memory: Memory, v: Id, version: Version)
    requires AddsVersion(s, s', id, memory, v, version) && VersionsComplete(s)
    ensures VersionsComplete(s')
  {
    forall i, number: nat | i in s'.memories && 1 <= number <= s'.memories[i].data.version
      ensures HasVersion(s', i, number)
    {
      if i == id && number == memory.data.version {
        assert s'.versions[v] == version;
      } else {
        assert HasVersion(s, i, number);
        var w :| w in s.versions && s.versions[w].memory == i && s.versions[w].number == number;
        assert s'.versions[w] == s.versions[w];
      }
    }
  }

  lemma VersionAddedUnique(s: Store, s': Store, id: Id, memory: Memory, v: Id, version: Version)
    requires AddsVersion(s, s', id, memory, v, version) && VersionsInRange(s) && VersionsUnique(s)
    ensures VersionsUnique(s')
  {
    forall x, y | x in s'.versions && y in s'.versions
                  && s'.versions[x].memory == s'.versions[y].memory
                  && s'.versions[x].number == s'.versions[y].number
      ensures x == y
    {
      assert x in s.versions || x == v;
      assert y in s.versions || y == v;
    }
  }

  lemma VersionAdded(s: Store, s': Store, id: Id, memory: Memory, v: Id, version: Version)
    requires AddsVersion(s, s', id, memory, v, version) && VersionsUnbroken(s)
    ensures VersionsUnbroken(s')
  {
    hide AddsVersion, VersionsInRange, VersionsComplete, VersionsUnique;
    VersionAddedInRange(s, s', id, memory, v, version);
    VersionAddedComplete(s, s', id, memory, v, version);
    VersionAddedUnique(s, s', id, memory, v, version);
  }

  // What the library is asked for here: a slash is not white space.
  predicate SlashIsVisible(lib: Library) {
    !lib.unicode.isSpace('/')
  }

  lemma NamedIdsHold(s: Store, name: string)
    ensures forall a | a in s.memories && !s.memories[a].deleted && s.memories[a].name == name ::
              a in NamedIds(s, name)
  {
  }

  lemma NameOfOther(s: Store, name: string, id: Id)
    requires NamedIds(s, name) - {id} == {}
          || (id in s.memories && !s.memories[id].deleted && s.memories[id].name == name && LiveKeysDistinct(s))
    ensures forall a | a in NamedIds(s, name) :: a == id
  {
    assert NamedIds(s, name) <= (NamedIds(s, name) - {id}) + {id};
  }

  lemma CreateKeepsSound(lib: Library, s: Store, r: Request)
    requires SlashIsVisible(lib) && Sound(lib, s) && r.Create? && Apply(lib, s, r).Changed?
    ensures Sound(lib, Apply(lib, s, r).store)
  {
    hide Normalize, PathKey, VersionsUnbroken;
    var s' := Apply(lib, s, r).store;
    var id := s.nextId;
    VersionAdded(s, s', id, s'.memories[id], id + 1, s'.versions[id + 1]);
    PathKeyDeterminesPath(lib.unicode, r.path);
    NormalizeIsIdempotent(lib.unicode, r.path);
    NamedIdsHold(s, s'.memories[id].name);
  }

  // What an accepted update leaves: one memory rewritten, one version added.
  lemma UpdateAddsVersion(lib: Library, s: Store, r: Request)
    requires Sound(lib, s) && r.Update? && Apply(lib, s, r).Changed?
    ensures var s' := Apply(lib, s, r).store;
      && s.nextId in s'.versions && r.id in s'.memories
      && AddsVersion(s, s', r.id, s'.memories[r.id], s.nextId, s'.versions[s.nextId])
      && HeadsCurrent(s') && IdsFresh(s')
  {
    hide Normalize, PathKey, VersionsUnbroken, LiveKeysDistinct, NamedIds;
  }

  lemma UpdateKeepsLiveData(lib: Library, s: Store, r: Request)
    requires SlashIsVisible(lib) && LiveDataSound(lib, s) && r.Update? && Apply(lib, s, r).Changed?
    ensures LiveDataSound(lib, Apply(lib, s, r).store)
  {
    hide Normalize, PathKey, NamedIds, IsMaterialChange;
    if r.body.path.Given? {
      PathKeyDeterminesPath(lib.unicode, r.body.path.value);
    }
  }

  lemma UpdateKeepsKeys(lib: Library, s: Store, r: Request)
    requires LiveDataSound(lib, s) && LiveKeysDistinct(s) && r.Update? && Apply(lib, s, r).Changed?
    ensures LiveKeysDistinct(Apply(lib, s, r).store)
  {
    hide Normalize, PathKey, IsMaterialChange;
    var s' := Apply(lib, s, r).store;
    NamedIdsHold(s, s'.memories[r.id].name);
    NameOfOther(s, s'.memories[r.id].name, r.id);
  }

  lemma UpdateKeepsSound(lib: Library, s: Store, r: Request)
    requires SlashIsVisible(lib) && Sound(lib, s) && r.Update? && Apply(lib, s, r).Changed?
    ensures Sound(lib, Apply(lib, s, r).store)
  {
    hide Apply, VersionsUnbroken, HeadsCurrent, LiveDataSound, LiveKeysDistinct, AddsVersion, IdsFresh;
    var s' := Apply(lib, s, r).store;
    UpdateAddsVersion(lib, s, r);
    VersionAdded(s, s', r.id, s'.memories[r.id], s.nextId, s'.versions[s.nextId]);
    UpdateKeepsLiveData(lib, s, r);
    UpdateKeepsKeys(lib, s, r);
  }

  lemma DeleteKeepsSound(lib: Library, s: Store, r: Request)
    requires Sound(lib, s) && r.Delete? && Apply(lib, s, r).Changed?
    ensures Sound(lib, Apply(lib, s, r).store)
  {
    hide Normalize, VersionsUnbroken;
    var s' := Apply(lib, s, r).store;
    VersionAdded(s, s', r.id, s'.memories[r.id], s.nextId, s'.versions[s.nextId]);
  }

  // In a sound store redaction never reaches the branch for live memories.
  lemma RedactNeverTouchesMemories(lib: Library, s: Store, versionId: Id)
    requires Sound(lib, s) && RedactEffect(s, versionId).Changed?
    ensures !RedactsLiveMemory(s, s.versions[versionId])
    ensures RedactEffect(s, versionId).store.memories == s.memories
  {
  }

  lemma RedactKeepsVersions(s: Store, s': Store, v: Id)
    requires VersionsUnbroken(s) && v in s.versions
    requires s'.memories == s.memories
    requires s'.versions == s.versions[v := s.versions[v].(snapshotContent := None, redacted := true)]
    ensures VersionsUnbroken(s')
  {
    forall id, number: nat | id in s'.memories && 1 <= number <= s'.memories[id].data.version
      ensures HasVersion(s', id, number)
    {
      assert HasVersion(s, id, number);
      var w :| w in s.versions && s.versions[w].memory == id && s.versions[w].number == number;
      assert s'.versions[w].memory == id;
    }
  }

  lemma RedactKeepsSound(lib: Library, s: Store, r: Request)
    requires Sound(lib, s) && r.Redact? && Apply(lib, s, r).Changed?
    ensures Sound(lib, Apply(lib, s, r).store)
  {
    hide VersionsUnbroken, Normalize;
    RedactNeverTouchesMemories(lib, s, r.versionId);
    RedactKeepsVersions(s, Apply(lib, s, r).store, r.versionId);
  }

  lemma {:induction false} EveryRunIsSound(lib: Library, requests: seq<Request>)
    requires SlashIsVisible(lib)
    ensures Sound(lib, Run(lib, requests))
  {
    if requests != [] {
      var before, r := requests[..|requests| - 1], requests[|requests| - 1];
      EveryRunIsSound(lib, before);
      ApplyKeepsSound(lib, Run(lib, before), r);
    }
  }

  lemma ApplyKeepsSound(lib: Library, s: Store, r: Request)
    requires SlashIsVisible(lib) && Sound(lib, s)
    ensures Sound(lib, After(s, Apply(lib, s, r)))
  {
    if Apply(lib, s, r).Changed? {
      match r
      case Create(_, _, _, _, _) => CreateKeepsSound(lib, s, r);
      case Update(_, _) => UpdateKeepsSound(lib, s, r);
      case Delete(_, _) => DeleteKeepsSound(lib, s, r);
      case Redact(_) => RedactKeepsSound(lib, s, r);
      case ArchiveStore => ArchiveKeepsSound(lib, s);
    }
  }

  lemma ArchiveKeepsSound(lib: Library, s: Store)
    requires Sound(lib, s)
    ensures Sound(lib, s.(archived := true))
  {
    var s' := s.(archived := true);
    forall id, number: nat | id in s'.memories && 1 <= number <= s'.memories[id].data.version
      ensures HasVersion(s', id, number)
    {
      assert HasVersion(s, id, number);
    }
  }

  // ------------------------------------------------------------------ history

  // A version row outlives everything, and changes only by being redacted.
  ghost predicate KeepsHistory(before: Store, after: Store) {
    forall v | v in before.versions ::
      && v in after.versions
      && (after.versions[v] == before.versions[v]
          || after.versions[v] == before.versions[v].(snapshotContent := None, redacted := true))
  }

  lemma ApplyKeepsHistory(lib: Library, s: Store, r: Request)
    requires IdsFresh(s)
    ensures KeepsHistory(s, After(s, Apply(lib, s, r)))
    ensures !r.Redact? ==> forall v | v in s.versions ::
              After(s, Apply(lib, s, r)).versions[v] == s.versions[v]
  {
  }

  // From any point of any run to its end, each version row is kept: it names
  // the same memory, number, operation, path and digest for ever, and its
  // content can only be redacted.
  lemma {:induction false} HistoryIsKept(lib: Library, requests: seq<Request>, n: nat)
    requires SlashIsVisible(lib) && n <= |requests|
    ensures KeepsHistory(Run(lib, requests[..n]), Run(lib, requests))
  {
    if n == |requests| {
      assert requests[..n] == requests;
    } else {
      var before := requests[..|requests| - 1];
      assert before[..n] == requests[..n];
      HistoryIsKept(lib, before, n);
      EveryRunIsSound(lib, before);
      ApplyKeepsHistory(lib, Run(lib, before), requests[|requests| - 1]);
    }
  }

  // Redaction hides a version's content from every response and takes it out of
  // the snapshot, but the copy beside the snapshot stays in the row for good.
  lemma RedactedContentRemains(lib: Library, requests: seq<Request>, n: nat, versionId: Id)
    requires SlashIsVisible(lib) && n < |requests| && requests[n] == Redact(versionId)
    requires var before := Run(lib, requests[..n]); Apply(lib, before, requests[n]).Changed?
    ensures var before, after := Run(lib, requests[..n]), Run(lib, requests);
      && versionId in before.versions && versionId in after.versions
      && after.versions[versionId].redacted
      && after.versions[versionId].snapshotContent == None
      && ShownContent(after.versions[versionId]) == None
      && after.versions[versionId].content == before.versions[versionId].content
  {
    hide Run;
    var before := Run(lib, requests[..n]);
    RunOneMore(lib, requests, n);
    HistoryIsKept(lib, requests, n + 1);
  }

  lemma RunOneMore(lib: Library, requests: seq<Request>, n: nat)
    requires n < |requests|
    ensures Run(lib, requests[..n + 1])
         == After(Run(lib, requests[..n]), Apply(lib, Run(lib, requests[..n]), requests[n]))
  {
    assert requests[..n + 1][..n] == requests[..n];
  }

  // In every reachable store a lookup by name finds at most one memory.
  lemma NameFindsAtMostOne(lib: Library, requests: seq<Request>, name: string)
    requires SlashIsVisible(lib)
    ensures |NamedIds(Run(lib, requests), name)| <= 1
  {
    var s := Run(lib, requests);
    EveryRunIsSound(lib, requests);
    if NamedIds(s, name) != {} {
      var id :| id in NamedIds(s, name);
      assert NamedIds(s, name) == {id};
    }
  }

  // The body without its preconditions.
  function Unconditional(body: UpdateBody): UpdateBody {
    body.(expectedVersion := None, expectedSha256 := None)
  }

  // Repeating an update adds no version.
  lemma RepeatedUpdateChangesNothing(lib: Library, s: Store, id: Id, body: UpdateBody)
    requires Sound(lib, s)
    requires UpdateEffect(lib, s, id, body).Changed?
    ensures UpdateEffect(lib, UpdateEffect(lib, s, id, body).store, id, Unconditional(body)) == NoChange
  {
    hide Normalize, PathKey, VersionsUnbroken;
  }

  // Archiving a store stops neither updates nor redactions: the outcome is the
  // one an unarchived store gives. Creation and deletion are refused.
  lemma ArchivedStoreStillUpdates(lib: Library, s: Store, r: Request)
    ensures var archived := s.(archived := true);
      && (r.Update? || r.Redact? ==>
            Apply(lib, archived, r) == (match Apply(lib, s, r)
                                        case Changed(s') => Changed(s'.(archived := true))
                                        case outcome => outcome))
      && (r.Create? || r.Delete? ==> Apply(lib, archived, r) == Refused(Conflict))
  {
    hide Normalize, PathKey;
    var archived := s.(archived := true);
    assert forall name :: NamedIds(archived, name) == NamedIds(s, name);
  }
}
