/** The vault over whole runs: open, put, delete, list, migrate and close in any order, a
    crash at any point, and the key file removed or replaced at any time. */
module VaultRuns {
  import opened Wrappers
  import Text
  import opened VaultModel
  import opened VaultKey

  /** `store` is the master key of the store that is open, if one is. */
  datatype World = World(db: Db, file: KeyFile, store: Option<Key>)

  /** Where a process stops while it opens the database. */
  datatype Crash =
    | NoCrash
    | AfterInit
    | InKeyWrite(written: nat)
    | AfterKeyFile
    | AfterFingerprint

  datatype Event =
    | Open(keyHex: string, generated: seq<Nibble>, salt: Salt, writes: bool, crash: Crash)
    | Put(owner: string, credential: Credential, now: Time, freshId: Id, nonce: Nonce, commits: bool)
    | Delete(id: Id, commits: bool)
    | List(owner: string, order: seq<Id>, commits: bool)
    | Migrate(password: string, nonces: map<Id, Nonce>, commits: bool)
    | Close
    | Kill
    | ReplaceKeyFile(file: KeyFile)

  /** Open's first transaction: the salt is created once. */
  function Initialized(db: Db, salt: Salt): Db {
    if db.salt.Some? then db else db.(salt := Some(salt))
  }

  /** Open from a closed database, statement by statement. */
  function OpenWorld(w: World, keyHex: string, generated: seq<Nibble>, salt: Salt, writes: bool, crash: Crash): World
    requires w.store.None?
  {
    var w1 := w.(db := Initialized(w.db, salt));
    var loaded := LoadKey(keyHex, w1.file, w1.db.fingerprint.None?, generated);
    if crash.AfterInit? || loaded.None? then w1
    else
      var (key, creates) := loaded.value;
      var text := EncodeKey(generated);
      if creates && crash.InKeyWrite? then
        w1.(file := Content(text[..if crash.written <= |text| then crash.written else |text|]))
      else if creates && !writes then w1
      else
        var w2 := if creates then w1.(file := Content(text)) else w1;
        if crash.AfterKeyFile? then w2
        else if w2.db.fingerprint.Some? && w2.db.fingerprint.value != Sha256(key) then w2
        else
          var w3 := w2.(db := w2.db.(fingerprint := Some(Sha256(key))));
          if crash.AfterFingerprint? then w3 else w3.(store := Some(key))
  }

  ghost function Step(w: World, e: Event): World {
    match e
    case Open(keyHex, generated, salt, writes, crash) =>
      if w.store.None? && |generated| == KEY_DIGITS then OpenWorld(w, keyHex, generated, salt, writes, crash) else w
    case Put(owner, credential, now, freshId, nonce, commits) =>
      if w.store.Some? && commits then
        w.(db := PutDb(w.db, w.store.value, owner,
                       Completed(w.db, w.store.value, credential, now, freshId), nonce))
      else w
    case Delete(id, commits) =>
      if w.store.Some? && commits && id != "" then w.(db := DeleteDb(w.db, id)) else w
    case List(owner, order, commits) =>
      if w.store.Some? && commits && owner != "" && Enumerates(order, Unlisted(w.db, w.store.value)) then
        w.(db := ListDb(w.db, w.store.value, owner, order))
      else w
    case Migrate(password, nonces, commits) =>
      if w.store.Some? && commits && password != "" && MigratableIds(w.db, password) <= nonces.Keys then
        w.(db := MigrateDb(w.db, w.store.value, password, nonces))
      else w
    case Close => w.(store := None)
    case Kill => w.(store := None)
    case ReplaceKeyFile(file) => w.(file := file)
  }

  ghost function Run(w: World, es: seq<Event>): World {
    if es == [] then w else Step(Run(w, es[..|es| - 1]), es[|es| - 1])
  }

  // ---- One key for every tagged record ----

  /** A database as an earlier version may have left it, or an empty one. */
  ghost predicate Unpinned(db: Db) {
    && db.fingerprint.None?
    && forall id :: id in db.credentials ==> !db.credentials[id].Tagged?
  }

  predicate OpensUnder(b: Blob, key: Key, id: Id) {
    b.Tagged? ==> b.box.key == key && b.box.aad == id && DecodeCredential(b.box.plain).Some?
  }

  ghost predicate Pinned(w: World) {
    && (w.db.fingerprint.None? ==> Unpinned(w.db))
    && (w.db.fingerprint.Some? ==>
          forall id :: id in w.db.credentials ==> OpensUnder(w.db.credentials[id], w.db.fingerprint.value.key, id))
    && (w.store.Some? ==> w.db.fingerprint == Some(Sha256(w.store.value)))
  }

  lemma OpenPins(w: World, keyHex: string, generated: seq<Nibble>, salt: Salt, writes: bool, crash: Crash)
    requires Pinned(w) && w.store.None?
    ensures Pinned(OpenWorld(w, keyHex, generated, salt, writes, crash))
  {
  }

  lemma MigratePins(w: World, password: string, nonces: map<Id, Nonce>)
    requires Pinned(w) && w.store.Some? && MigratableIds(w.db, password) <= nonces.Keys
    ensures Pinned(w.(db := MigrateDb(w.db, w.store.value, password, nonces)))
  {
  }

  lemma StepPins(w: World, e: Event)
    requires Pinned(w)
    ensures Pinned(Step(w, e))
  {
    match e
    case Open(keyHex, generated, salt, writes, crash) =>
      if w.store.None? && |generated| == KEY_DIGITS { OpenPins(w, keyHex, generated, salt, writes, crash); }
    case Migrate(password, nonces, commits) =>
      if w.store.Some? && commits && password != "" && MigratableIds(w.db, password) <= nonces.Keys {
        MigratePins(w, password, nonces);
      }
    case _ =>
  }

  /** Over every run, each tagged record is sealed under the one key whose hash is stored,
      for its own id, and holds a readable credential; an open store has that key. */
  lemma {:induction false} OneKeyForAll(w: World, es: seq<Event>)
    requires Unpinned(w.db) && w.store.None?
    ensures Pinned(Run(w, es))
  {
    if es != [] {
      OneKeyForAll(w, es[..|es| - 1]);
      StepPins(Run(w, es[..|es| - 1]), es[|es| - 1]);
    }
  }

  /** Whenever a store is open, after whatever happened before, it reads back every tagged
      record; and it reads every record that looks like the new format if and only if no
      untagged one looks so (a legacy nonce beginning with the version prefix). */
  lemma OpenStoreReadsAll(w: World, es: seq<Event>)
    requires Unpinned(w.db) && w.store.None?
    ensures var t := Run(w, es);
            t.store.Some? ==>
              && (forall id :: id in t.db.credentials && t.db.credentials[id].Tagged? ==>
                    Get(t.db, t.store.value, id).Some?)
              && ((forall id :: id in t.db.credentials && IsV2(t.db.credentials[id]) ==>
                     Get(t.db, t.store.value, id).Some?)
                  <==> (forall id :: id in t.db.credentials && IsV2(t.db.credentials[id]) ==>
                     t.db.credentials[id].Tagged?))
  {
    OneKeyForAll(w, es);
    var t := Run(w, es);
    if t.store.Some? {
      forall id | id in t.db.credentials && t.db.credentials[id].Tagged?
        ensures Get(t.db, t.store.value, id).Some?
      {
        assert OpensUnder(t.db.credentials[id], t.store.value, id);
      }
      if forall id :: id in t.db.credentials && IsV2(t.db.credentials[id]) ==> Get(t.db, t.store.value, id).Some? {
        forall id | id in t.db.credentials && IsV2(t.db.credentials[id]) ensures t.db.credentials[id].Tagged? {
          assert Get(t.db, t.store.value, id).Some?;
        }
      }
    }
  }

  /** The hypothesis on legacy nonces is needed: such a record counts as new, and never opens. */
  lemma PrefixedNonceNeverOpens(box: Box, key: Key, password: string, db: Db, id: Id)
    requires id in db.credentials && db.credentials[id] == Sealed(box) && StartsV2(box.nonce)
    ensures IsV2(db.credentials[id]) && id !in Legacy(db)
    ensures Get(db, key, id).None? && !Migratable(db, password, id)
  {
  }

  predicate SameFingerprint(a: World, b: World) {
    a.db.fingerprint.Some? ==> b.db.fingerprint == a.db.fingerprint
  }

  /** The fingerprint is stored once and for all. */
  lemma {:induction false} FingerprintStays(w: World, es: seq<Event>)
    ensures SameFingerprint(w, Run(w, es))
  {
    if es != [] {
      FingerprintStays(w, es[..|es| - 1]);
      FingerprintStep(Run(w, es[..|es| - 1]), es[|es| - 1]);
    }
  }

  lemma FingerprintStep(w: World, e: Event)
    ensures SameFingerprint(w, Step(w, e))
  {
  }

  /** With a pinned key, an open without a crash succeeds exactly when the key it is given,
      as text or in the key file, is the pinned one; with the key file missing it fails. */
  lemma OpensWithThePinnedKeyOnly(w: World, keyHex: string, generated: seq<Nibble>, salt: Salt, writes: bool)
    requires w.store.None? && w.db.fingerprint.Some?
    ensures var given := if Text.TrimSpace(keyHex) != "" then DecodeKey(keyHex)
                         else if w.file.Content? then DecodeKey(w.file.text) else None;
            var t := OpenWorld(w, keyHex, generated, salt, writes, NoCrash);
            && (t.store.Some? <==> given == Some(w.db.fingerprint.value.key))
            && (t.store.Some? ==> t.store == given)
            && t.file == w.file && t.db.credentials == w.db.credentials && t.db.summaries == w.db.summaries
  {
  }

  /** A first open stopped anywhere up to the fingerprint leaves a database that the next
      open takes over: with the key already written if its file is whole, and with the key
      file to be replaced by hand if it was torn. */
  lemma FirstOpenSurvivesCrash(w: World, generated: seq<Nibble>, salt: Salt, crash: Crash, again: seq<Nibble>)
    requires w.store.None? && w.db.fingerprint.None? && w.file.Missing?
    requires |generated| == KEY_DIGITS && !crash.NoCrash?
    ensures var mid := OpenWorld(w, "", generated, salt, true, crash);
            var t := OpenWorld(mid, "", again, salt, true, NoCrash);
            && mid.store.None? && mid.db.credentials == w.db.credentials
            && t.store == (match crash
                           case AfterInit => Some(Master(again))
                           case InKeyWrite(n) => if n < KEY_DIGITS then None else Some(Master(generated))
                           case _ => Some(Master(generated)))
  {
    var mid := OpenWorld(w, "", generated, salt, true, crash);
    CrashedFirstOpen(w, generated, salt, crash);
    if mid.file.Content? {
      var size := |EncodeKey(generated)|;
      var n := if crash.InKeyWrite? && crash.written <= size then crash.written else size;
      KeyFileRoundTrip(generated, n);
    }
  }

  lemma CrashedFirstOpen(w: World, generated: seq<Nibble>, salt: Salt, crash: Crash)
    requires w.store.None? && w.db.fingerprint.None? && w.file.Missing? && !crash.NoCrash?
    ensures var mid := OpenWorld(w, "", generated, salt, true, crash);
            var text := EncodeKey(generated);
            && Text.TrimSpace("") == ""
            && mid.store.None? && mid.db.credentials == w.db.credentials
            && mid.db.fingerprint == (if crash.AfterFingerprint? then Some(Sha256(Master(generated))) else None)
            && mid.file == (match crash
                            case AfterInit => Missing
                            case InKeyWrite(n) => Content(text[..if n <= |text| then n else |text|])
                            case _ => Content(text[..|text|]))
  {
  }
}
