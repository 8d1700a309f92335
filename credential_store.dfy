/** The credential store (src/credential_store.py): credentials kept as one JSON
    blob in the OS keyring, or in config.json when no keyring works, with an optional
    in-memory session cache in front and a one-time migration of credentials out of
    old config files. The store's state is the session, the keyring entry and the
    config files by path; each operation is a function of that state, and the class
    below changes its fields step by step as the source does. */
module Credentials {
  import opened Wrappers

  /** Keys written to the keyring (or config.json). */
  const CredentialKeys: set<string> := {"client_id", "client_secret", "refresh_token"}
  /** Keys that live in the session only. */
  const SessionOnlyKeys: set<string> := {"access_token"}
  const AllKeys: set<string> := CredentialKeys + SessionOnlyKeys

  /** The keyring's entry: none, one whose text is empty or not JSON (read as no
      credentials), or a JSON object. */
  datatype Blob = Absent | Unreadable | Stored(entries: map<string, string>)

  /** Fixed for a run: whether the keyring works (`_check_keyring`, cached after its
      first call) and where load_config and save_config keep config.json. */
  datatype Env = Env(keyringAvailable: bool, configPath: string)

  /** The session cache, the keyring entry, and the JSON object of each config file
      that exists, by path. */
  datatype Store = Store(session: Option<map<string, string>>, keyring: Blob, files: map<string, map<string, string>>)

  /** A state change that may raise, in which case the store is as it was. */
  datatype Step = Step(store: Store, error: Option<string>)

  /** What a migration did, and the store after it. */
  datatype Migration = Migration(migrated: bool, store: Store)

  function UnknownKey(key: string): string {
    "Unknown credential key: " + key
  }

  function Lookup(m: map<string, string>, k: string): Option<string> {
    if k in m then Some(m[k]) else None
  }

  function Restrict(m: map<string, string>, keys: set<string>): (r: map<string, string>)
    ensures forall k :: k in r <==> k in m && k in keys
    ensures forall k :: k in r ==> r[k] == m[k]
  {
    map k | k in m && k in keys :: m[k]
  }

  function Without(m: map<string, string>, keys: set<string>): (r: map<string, string>)
    ensures forall k :: k in r <==> k in m && k !in keys
    ensures forall k :: k in r ==> r[k] == m[k]
  {
    map k | k in m && k !in keys :: m[k]
  }

  /** `_read_blob`: a missing, empty or malformed entry reads as no credentials. */
  function ReadBlob(b: Blob): map<string, string> {
    match b
    case Stored(m) => m
    case _ => map[]
  }

  /** `load_config`: a missing file reads as an empty object. */
  function LoadConfig(env: Env, st: Store): map<string, string> {
    if env.configPath in st.files then st.files[env.configPath] else map[]
  }

  function SaveConfig(env: Env, st: Store, cfg: map<string, string>): Store {
    st.(files := st.files[env.configPath := cfg])
  }

  /** What the persistent store holds for a key: the keyring's blob, or config.json. */
  function Persisted(env: Env, st: Store, key: string): Option<string> {
    if env.keyringAvailable then Lookup(ReadBlob(st.keyring), key) else Lookup(LoadConfig(env, st), key)
  }

  /** `get`: an unknown key raises; an active session answers alone; outside one the
      access token is absent and the rest comes from the persistent store. */
  function Read(env: Env, st: Store, key: string): (r: Result<Option<string>, string>)
    ensures r.Failure? <==> key !in AllKeys
    ensures r.Failure? ==> r.error == UnknownKey(key)
    ensures r.Success? && st.session.None? && key in SessionOnlyKeys ==> r.value.None?
  {
    if key !in AllKeys then Failure(UnknownKey(key))
    else if st.session.Some? then Success(Lookup(st.session.value, key))
    else if key in SessionOnlyKeys then Success(None)
    else Success(Persisted(env, st, key))
  }

  /** `get_all`: every known key with what `get` gives for it. */
  function ReadAll(env: Env, st: Store): (r: map<string, Option<string>>)
    ensures r.Keys == AllKeys
    ensures forall k :: k in AllKeys ==> Read(env, st, k) == Success(r[k])
  {
    map k | k in AllKeys :: Read(env, st, k).value
  }

  /** `set` */
  function SetStep(env: Env, st: Store, key: string, value: string): Step {
    if key !in AllKeys then Step(st, Some(UnknownKey(key)))
    else
      var st1 := st.(session := if st.session.Some? then Some(st.session.value[key := value]) else None);
      if key in SessionOnlyKeys then Step(st1, None)
      else if env.keyringAvailable then
        var blob := if st1.session.Some? then Restrict(st1.session.value, CredentialKeys)
                    else ReadBlob(st.keyring)[key := value];
        Step(st1.(keyring := Stored(blob)), None)
      else Step(SaveConfig(env, st1, LoadConfig(env, st1)[key := value]), None)
  }

  /** `delete`: removing an absent key is not an error; config.json is rewritten only
      when it held the key. */
  function DeleteStep(env: Env, st: Store, key: string): Step {
    if key !in AllKeys then Step(st, Some(UnknownKey(key)))
    else
      var st1 := st.(session := if st.session.Some? then Some(st.session.value - {key}) else None);
      if key in SessionOnlyKeys then Step(st1, None)
      else if env.keyringAvailable then
        var blob := if st1.session.Some? then Restrict(st1.session.value, CredentialKeys)
                    else ReadBlob(st.keyring) - {key};
        Step(st1.(keyring := Stored(blob)), None)
      else
        var cfg := LoadConfig(env, st1);
        if key in cfg then Step(SaveConfig(env, st1, cfg - {key}), None) else Step(st1, None)
  }

  /** `set_many`: the pairs in order, stopping at the first that raises. */
  function SetManyStep(env: Env, st: Store, pairs: seq<(string, string)>): Step
    decreases |pairs|
  {
    if pairs == [] then Step(st, None)
    else
      var first := SetStep(env, st, pairs[0].0, pairs[0].1);
      if first.error.Some? then first else SetManyStep(env, first.store, pairs[1..])
  }

  /** `delete_all`: an active session is emptied; the keyring entry is removed (a
      missing one is not an error), or config.json keeps only its other keys. */
  function DeleteAllStep(env: Env, st: Store): Store {
    var st1 := st.(session := if st.session.Some? then Some(map[]) else None);
    if env.keyringAvailable then st1.(keyring := Absent)
    else SaveConfig(env, st1, Without(LoadConfig(env, st1), CredentialKeys))
  }

  /** `load_session`: the session becomes the whole blob, or config.json's credential
      keys when there is no keyring. */
  function LoadSessionStep(env: Env, st: Store): Store {
    st.(session := Some(if env.keyringAvailable then ReadBlob(st.keyring)
                        else Restrict(LoadConfig(env, st), CredentialKeys)))
  }

  /** `clear_session` */
  function ClearSessionStep(st: Store): Store {
    st.(session := None)
  }

  /** `_migrate_single_config`: the file's credential keys are merged into the blob
      (overriding it) and taken out of the file, which is removed when nothing else
      is left in it. */
  function MigrateSingle(st: Store, path: string): Migration {
    if path !in st.files then Migration(false, st)
    else
      var cfg := st.files[path];
      var moved := Restrict(cfg, CredentialKeys);
      if moved == map[] then Migration(false, st)
      else
        var remaining := Without(cfg, CredentialKeys);
        var files := if remaining != map[] then st.files[path := remaining] else st.files - {path};
        Migration(true, st.(keyring := Stored(ReadBlob(st.keyring) + moved), files := files))
  }

  /** `migrate_from_config`: nothing without a keyring; otherwise the config file in
      the home directory and the one next to the program, each unless it is a path
      already covered, and then config.json itself. */
  function MigrateAll(env: Env, st: Store, home: string, app: string): Migration {
    if !env.keyringAvailable then Migration(false, st)
    else
      var m1 := if home != env.configPath && home in st.files then MigrateSingle(st, home) else Migration(false, st);
      var m2 := if app != env.configPath && app != home && app in m1.store.files then MigrateSingle(m1.store, app)
                else Migration(false, m1.store);
      var m3 := MigrateSingle(m2.store, env.configPath);
      Migration(m1.migrated || m2.migrated || m3.migrated, m3.store)
  }

  // ---------------------------------------------------------------------------
  // Properties
  // ---------------------------------------------------------------------------

  /** After `set` of a known key, `get` gives the new value (the access token only
      while a session is active), and every other key reads as before. */
  lemma SetThenGet(env: Env, st: Store, key: string, value: string, other: string)
    requires key in AllKeys
    ensures SetStep(env, st, key, value).error.None?
    ensures Read(env, SetStep(env, st, key, value).store, key) ==
      Success(if key in SessionOnlyKeys && st.session.None? then None else Some(value))
    ensures other != key ==> Read(env, SetStep(env, st, key, value).store, other) == Read(env, st, other)
  {
  }

  /** After `delete` of a known key, `get` gives nothing for it and every other key
      reads as before. */
  lemma DeleteThenGet(env: Env, st: Store, key: string, other: string)
    requires key in AllKeys
    ensures DeleteStep(env, st, key).error.None?
    ensures Read(env, DeleteStep(env, st, key).store, key) == Success(None)
    ensures other != key ==> Read(env, DeleteStep(env, st, key).store, other) == Read(env, st, other)
  {
  }

  /** An unknown key raises and changes nothing. */
  lemma UnknownKeyRejected(env: Env, st: Store, key: string, value: string)
    requires key !in AllKeys
    ensures SetStep(env, st, key, value) == Step(st, Some(UnknownKey(key)))
    ensures DeleteStep(env, st, key) == Step(st, Some(UnknownKey(key)))
    ensures Read(env, st, key) == Failure(UnknownKey(key))
  {
  }

  /** The access token never reaches the keyring or a config file. */
  lemma AccessTokenNotPersisted(env: Env, st: Store, value: string)
    ensures SetStep(env, st, "access_token", value).store.keyring == st.keyring
    ensures SetStep(env, st, "access_token", value).store.files == st.files
    ensures DeleteStep(env, st, "access_token").store.keyring == st.keyring
    ensures DeleteStep(env, st, "access_token").store.files == st.files
  {
  }

  /** With a session and a keyring, a change to a credential key writes the blob as
      the session restricted to the credential keys. */
  lemma SessionWritesRestriction(env: Env, st: Store, key: string, value: string)
    requires env.keyringAvailable && st.session.Some? && key in CredentialKeys
    ensures SetStep(env, st, key, value).store.keyring ==
      Stored(Restrict(st.session.value[key := value], CredentialKeys))
    ensures DeleteStep(env, st, key).store.keyring ==
      Stored(Restrict(st.session.value - {key}, CredentialKeys))
  {
  }

  /** Without a session, a change to one key keeps the others in the blob, and a blob
      that did not decode is replaced by one holding just the change. */
  lemma BlobReadModifyWrite(env: Env, st: Store, key: string, value: string)
    requires env.keyringAvailable && st.session.None? && key in CredentialKeys
    ensures SetStep(env, st, key, value).store.keyring == Stored(ReadBlob(st.keyring)[key := value])
    ensures DeleteStep(env, st, key).store.keyring == Stored(ReadBlob(st.keyring) - {key})
    ensures st.keyring.Unreadable? ==> SetStep(env, st, key, value).store.keyring == Stored(map[key := value])
  {
  }

  /** Without a keyring, `delete` rewrites config.json only when it held the key, and
      keeps its other keys. */
  lemma ConfigDelete(env: Env, st: Store, key: string)
    requires !env.keyringAvailable && key in CredentialKeys
    ensures key !in LoadConfig(env, st) ==> DeleteStep(env, st, key).store.files == st.files
    ensures key in LoadConfig(env, st) ==>
      DeleteStep(env, st, key).store.files == st.files[env.configPath := LoadConfig(env, st) - {key}]
  {
  }

  /** Loading a session caches what the store holds: every credential key reads the
      same before and after. Clearing it leaves no session. */
  lemma {:induction false} SessionCachesStore(env: Env, st: Store, key: string)
    requires st.session.None? && key in CredentialKeys
    ensures Read(env, LoadSessionStep(env, st), key) == Read(env, st, key)
    ensures ClearSessionStep(LoadSessionStep(env, st)).session.None?
  {
    var cfg := LoadConfig(env, st);
    if !env.keyringAvailable {
      assert key in Restrict(cfg, CredentialKeys) <==> key in cfg;
    }
  }

  /** After `delete_all` no key reads as present. */
  lemma DeleteAllForgets(env: Env, st: Store, key: string)
    requires key in AllKeys
    ensures Read(env, DeleteAllStep(env, st), key) == Success(None)
  {
  }

  /** `delete_all` without a keyring keeps exactly config.json's other keys. */
  lemma {:induction false} DeleteAllKeepsConfig(env: Env, st: Store, key: string)
    requires !env.keyringAvailable && key !in CredentialKeys
    ensures Lookup(LoadConfig(env, DeleteAllStep(env, st)), key) == Lookup(LoadConfig(env, st), key)
  {
    var st1 := st.(session := if st.session.Some? then Some(map[]) else None);
    assert LoadConfig(env, st1) == LoadConfig(env, st);
  }

  /** `set_many` succeeds exactly when every key is known; otherwise it stops with the
      error for the first unknown key. */
  lemma {:induction false} SetManyErrors(env: Env, st: Store, pairs: seq<(string, string)>)
    ensures SetManyStep(env, st, pairs).error.None? <==> forall i :: 0 <= i < |pairs| ==> pairs[i].0 in AllKeys
    ensures SetManyStep(env, st, pairs).error.Some? ==>
      exists i :: 0 <= i < |pairs| && pairs[i].0 !in AllKeys &&
        SetManyStep(env, st, pairs).error == Some(UnknownKey(pairs[i].0)) &&
        forall j :: 0 <= j < i ==> pairs[j].0 in AllKeys
    decreases |pairs|
  {
    if pairs != [] {
      var first := SetStep(env, st, pairs[0].0, pairs[0].1);
      if first.error.None? {
        var rest := pairs[1..];
        SetManyErrors(env, first.store, rest);
        assert forall i :: 1 <= i < |pairs| ==> pairs[i] == rest[i - 1];
        if SetManyStep(env, first.store, rest).error.Some? {
          var i :| 0 <= i < |rest| && rest[i].0 !in AllKeys &&
            SetManyStep(env, first.store, rest).error == Some(UnknownKey(rest[i].0)) &&
            forall j :: 0 <= j < i ==> rest[j].0 in AllKeys;
          assert pairs[i + 1] == rest[i];
          assert forall j :: 0 <= j < i + 1 ==> pairs[j].0 in AllKeys;
        }
      } else {
        assert pairs[0].0 !in AllKeys;
      }
    }
  }

  /** A single-file migration moves what the file held of the credentials: it
      reports a change exactly when the file exists and holds one, after which the
      blob holds the file's values, the file holds no credential key (or is gone) and
      keeps its other keys, and no other file changes. */
  lemma {:induction false} MigrateSingleMoves(st: Store, path: string, key: string)
    ensures MigrateSingle(st, path).migrated <==>
      path in st.files && exists k :: k in CredentialKeys && k in st.files[path]
    ensures MigrateSingle(st, path).migrated && key in CredentialKeys && key in st.files[path] ==>
      Lookup(ReadBlob(MigrateSingle(st, path).store.keyring), key) == Some(st.files[path][key])
    ensures path in MigrateSingle(st, path).store.files ==>
      key in CredentialKeys ==> key !in MigrateSingle(st, path).store.files[path]
    ensures MigrateSingle(st, path).migrated && key !in CredentialKeys && key in st.files[path] ==>
      path in MigrateSingle(st, path).store.files && MigrateSingle(st, path).store.files[path][key] == st.files[path][key]
    ensures forall p :: p != path ==>
      (p in MigrateSingle(st, path).store.files <==> p in st.files) &&
      (p in st.files ==> MigrateSingle(st, path).store.files[p] == st.files[p])
  {
    if path in st.files {
      var cfg := st.files[path];
      var moved := Restrict(cfg, CredentialKeys);
      if exists k :: k in CredentialKeys && k in cfg {
        var k :| k in CredentialKeys && k in cfg;
        assert k in moved;
      }
    }
  }

  /** Migrating a file twice changes nothing the second time. */
  lemma {:induction false} MigrateSingleIdempotent(st: Store, path: string)
    ensures MigrateSingle(MigrateSingle(st, path).store, path) == Migration(false, MigrateSingle(st, path).store)
  {
    var once := MigrateSingle(st, path);
    if path in once.store.files {
      forall k | k in CredentialKeys
        ensures k !in once.store.files[path]
      {
        MigrateSingleMoves(st, path, k);
      }
      assert Restrict(once.store.files[path], CredentialKeys) == map[];
    }
  }

  /** `migrate_from_config` can run on every start: a second run reports nothing and
      changes nothing. */
  lemma {:induction false} MigrateAllIdempotent(env: Env, st: Store, home: string, app: string)
    ensures MigrateAll(env, MigrateAll(env, st, home, app).store, home, app) ==
      Migration(false, MigrateAll(env, st, home, app).store)
  {
    if env.keyringAvailable {
      var after := MigrateAll(env, st, home, app).store;
      forall p | p == home || p == app || p == env.configPath
        ensures Clean(after, p)
      {
        MigrateAllCleans(env, st, home, app, p);
      }
      CleanMigrates(after, home);
      CleanMigrates(after, app);
      CleanMigrates(after, env.configPath);
    }
  }

  /** A file without credential keys, or a missing one. */
  predicate Clean(st: Store, path: string) {
    path in st.files ==> forall k :: k in CredentialKeys ==> k !in st.files[path]
  }

  lemma CleanMigrates(st: Store, path: string)
    requires Clean(st, path)
    ensures MigrateSingle(st, path) == Migration(false, st)
  {
    if path in st.files {
      assert Restrict(st.files[path], CredentialKeys) == map[];
    }
  }

  /** Migrating one file keeps every file that was clean clean. */
  lemma {:induction false} MigrateKeepsClean(st: Store, path: string, p: string)
    requires Clean(st, p) || p == path
    ensures Clean(MigrateSingle(st, path).store, p)
  {
    forall k | k in CredentialKeys
      ensures p in MigrateSingle(st, path).store.files ==> k !in MigrateSingle(st, path).store.files[p]
    {
      MigrateSingleMoves(st, path, k);
    }
  }

  lemma {:induction false} MigrateAllCleans(env: Env, st: Store, home: string, app: string, p: string)
    requires env.keyringAvailable
    requires p == home || p == app || p == env.configPath
    ensures Clean(MigrateAll(env, st, home, app).store, p)
  {
    var m1 := if home != env.configPath && home in st.files then MigrateSingle(st, home) else Migration(false, st);
    var m2 := if app != env.configPath && app != home && app in m1.store.files then MigrateSingle(m1.store, app)
              else Migration(false, m1.store);
    if p != env.configPath {
      // the first step cleans the home file; a file it does not touch stays as it was
      if p == home && home in st.files {
        MigrateKeepsClean(st, home, p);
      }
      // the second step cleans the file next to the program and keeps the home one clean
      if app != env.configPath && app != home && app in m1.store.files {
        MigrateKeepsClean(m1.store, app, p);
      }
    }
    MigrateKeepsClean(m2.store, env.configPath, p);
  }

  /** Without a keyring nothing is migrated. */
  lemma MigrateNeedsKeyring(env: Env, st: Store, home: string, app: string)
    requires !env.keyringAvailable
    ensures MigrateAll(env, st, home, app) == Migration(false, st)
  {
  }

  // ---------------------------------------------------------------------------
  // The module state
  // ---------------------------------------------------------------------------

  /** The module's globals: the session cache and the keyring availability, together
      with the keyring entry and the config files the functions read and write. */
  class CredentialStore {
    const keyringAvailable: bool
    const configPath: string
    var session: Option<map<string, string>>
    var keyring: Blob
    var files: map<string, map<string, string>>

    constructor(keyringAvailable: bool, configPath: string, keyring: Blob, files: map<string, map<string, string>>)
      ensures Context() == Env(keyringAvailable, configPath)
      ensures State() == Store(None, keyring, files)
    {
      this.keyringAvailable := keyringAvailable;
      this.configPath := configPath;
      this.session := None;
      this.keyring := keyring;
      this.files := files;
    }

    function Context(): Env {
      Env(keyringAvailable, configPath)
    }

    function State(): Store
      reads this
    {
      Store(session, keyring, files)
    }

    function Get(key: string): Result<Option<string>, string>
      reads this
    {
      Read(Context(), State(), key)
    }

    function LoadConfig(): map<string, string>
      reads this
    {
      if configPath in files then files[configPath] else map[]
    }

    method Set(key: string, value: string) returns (error: Option<string>)
      modifies this
      ensures Step(State(), error) == SetStep(Context(), old(State()), key, value)
    {
      if key !in AllKeys {
        return Some(UnknownKey(key));
      }
      if session.Some? {
        session := Some(session.value[key := value]);
      }
      if key in SessionOnlyKeys {
        return None;
      }
      if keyringAvailable {
        var blob: map<string, string>;
        if session.Some? {
          blob := Restrict(session.value, CredentialKeys);
        } else {
          blob := ReadBlob(keyring);
          blob := blob[key := value];
        }
        keyring := Stored(blob);
      } else {
        var cfg := LoadConfig();
        cfg := cfg[key := value];
        files := files[configPath := cfg];
      }
      return None;
    }

    method SetMany(pairs: seq<(string, string)>) returns (error: Option<string>)
      modifies this
      ensures Step(State(), error) == SetManyStep(Context(), old(State()), pairs)
    {
      var i := 0;
      while i < |pairs|
        invariant 0 <= i <= |pairs|
        invariant SetManyStep(Context(), old(State()), pairs) == SetManyStep(Context(), State(), pairs[i..])
      {
        assert pairs[i..][1..] == pairs[i + 1..];
        error := Set(pairs[i].0, pairs[i].1);
        if error.Some? {
          return;
        }
        i := i + 1;
      }
      error := None;
    }

    method Delete(key: string) returns (error: Option<string>)
      modifies this
      ensures Step(State(), error) == DeleteStep(Context(), old(State()), key)
    {
      if key !in AllKeys {
        return Some(UnknownKey(key));
      }
      if session.Some? {
        session := Some(session.value - {key});
      }
      if key in SessionOnlyKeys {
        return None;
      }
      if keyringAvailable {
        var blob: map<string, string>;
        if session.Some? {
          blob := Restrict(session.value, CredentialKeys);
        } else {
          blob := ReadBlob(keyring);
          blob := blob - {key};
        }
        keyring := Stored(blob);
      } else {
        var cfg := LoadConfig();
        if key in cfg {
          cfg := cfg - {key};
          files := files[configPath := cfg];
        }
      }
      return None;
    }

    method DeleteAll()
      modifies this
      ensures State() == DeleteAllStep(Context(), old(State()))
    {
      if session.Some? {
        session := Some(map[]);
      }
      if keyringAvailable {
        keyring := Absent;
      } else {
        var cfg := LoadConfig();
        files := files[configPath := Without(cfg, CredentialKeys)];
      }
    }

    method LoadSession()
      modifies this
      ensures State() == LoadSessionStep(Context(), old(State()))
    {
      var cache: map<string, string> := map[];
      if keyringAvailable {
        cache := ReadBlob(keyring);
      } else {
        var cfg := LoadConfig();
        cache := Restrict(cfg, CredentialKeys);
      }
      session := Some(cache);
    }

    method ClearSession()
      modifies this
      ensures State() == ClearSessionStep(old(State()))
    {
      session := None;
    }

    method MigrateSingleConfig(path: string) returns (migrated: bool)
      modifies this
      ensures Migration(migrated, State()) == MigrateSingle(old(State()), path)
    {
      if path !in files {
        return false;
      }
      var cfg := files[path];
      var moved := Restrict(cfg, CredentialKeys);
      if moved == map[] {
        return false;
      }
      var blob := ReadBlob(keyring);
      blob := blob + moved;
      keyring := Stored(blob);
      var remaining := Without(cfg, CredentialKeys);
      if remaining != map[] {
        files := files[path := remaining];
      } else {
        files := files - {path};
      }
      return true;
    }

    method MigrateFromConfig(home: string, app: string) returns (migrated: bool)
      modifies this
      ensures Migration(migrated, State()) == MigrateAll(Context(), old(State()), home, app)
    {
      if !keyringAvailable {
        return false;
      }
      migrated := false;
      if home != configPath && home in files {
        var m := MigrateSingleConfig(home);
        migrated := migrated || m;
      }
      if app != configPath && app != home && app in files {
        var m := MigrateSingleConfig(app);
        migrated := migrated || m;
      }
      var m := MigrateSingleConfig(configPath);
      migrated := migrated || m;
    }
  }
}
