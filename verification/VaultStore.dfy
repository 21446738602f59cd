/** The store as a mutable object over the two buckets, each method against the function on
    values that says what it does to the database. Buckets are visited in arbitrary order;
    `commits` says whether the write transaction succeeds, and a failed one changes
    nothing. */
module VaultStore {
  import opened Wrappers
  import Text
  import opened Sorting
  import opened VaultModel
  import opened VaultKey
  import opened VaultRuns
  import opened VaultIndex

  class Bolt {
    var salt: Option<Salt>
    var fingerprint: Option<Fingerprint>
    var credentials: map<Id, Blob>
    var summaries: map<Id, RawSummary>

    constructor (db: Db)
      ensures Snapshot() == db
    {
      salt, fingerprint, credentials, summaries := db.salt, db.fingerprint, db.credentials, db.summaries;
    }

    ghost function Snapshot(): Db
      reads this
    {
      Db(salt, fingerprint, credentials, summaries)
    }
  }

  // ---- What the two read passes of a listing build ----

  /** The pass over the summary bucket: the owner's summaries, and every id whose summary reads. */
  method ReadSummaries(ghost db: Db, summaries: map<Id, RawSummary>, owner: string)
    returns (table: map<Id, Summary>, known: set<Id>)
    requires summaries == db.summaries
    ensures table == Owned(db, owner)
    ensures forall id :: id in known <==> Known(db, id).Some?
  {
    table, known := map[], {};
    var todo := summaries.Keys;
    while todo != {}
      invariant todo <= summaries.Keys
      invariant forall id :: id in known <==> id in summaries && id !in todo && Known(db, id).Some?
      invariant forall id :: id in table <==> id in known && Known(db, id).value.owner == owner
      invariant forall id :: id in table ==> table[id] == Known(db, id).value
      decreases todo
    {
      var id :| id in todo;
      todo := todo - {id};
      var summary := DecodeSummary(summaries[id]);
      if summary.Some? {
        known := known + {id};
        if summary.value.owner == owner { table := table[id := summary.value]; }
      }
    }
  }

  lemma MeetAdd(all: set<Id>, done: set<Id>, id: Id)
    requires id !in done
    ensures all * (done + {id}) == if id in all then all * done + {id} else all * done
    ensures |all * (done + {id})| == |all * done| + (if id in all then 1 else 0)
  {
  }

  lemma Enumerate(order: seq<Id>, ids: set<Id>, id: Id)
    requires Enumerates(order, ids) && id !in ids
    ensures Enumerates(order + [id], ids + {id})
  {
  }

  lemma BackfillSnoc(db: Db, key: Key, owner: string, order: seq<Id>, id: Id)
    requires forall i :: 0 <= i < |order| ==> Get(db, key, order[i]).Some?
    requires Get(db, key, id).Some?
    ensures Backfill(db, key, owner, order + [id])
         == Backfill(db, key, owner, order) + [SummaryOf(Get(db, key, id).value, owner)]
  {
  }

  lemma TableSnoc(stored: map<Id, Summary>, list: seq<Summary>, s: Summary)
    ensures Table(stored, list + [s]) == Table(stored, list)[s.id := s]
  {
  }

  lemma MeetAll(all: set<Id>, done: set<Id>)
    requires all <= done
    ensures all * done == all
  {
  }

  /** The listing's read pass after the records in `done`. */
  ghost predicate Listed(db: Db, key: Key, owner: string, stored: map<Id, Summary>, done: set<Id>,
                         table: map<Id, Summary>, backfill: seq<Summary>, legacyCount: nat, order: seq<Id>)
  {
    && Enumerates(order, Unlisted(db, key) * done)
    && backfill == Backfill(db, key, owner, order) && table == Table(stored, backfill)
    && legacyCount == |Legacy(db) * done|
  }

  lemma VisitedMore(keys: set<Id>, todo: set<Id>, id: Id)
    requires id in todo && todo <= keys
    ensures id !in keys - todo && keys - (todo - {id}) == keys - todo + {id}
  {
  }

  lemma NothingListed(db: Db, key: Key, owner: string, stored: map<Id, Summary>)
    ensures Listed(db, key, owner, stored, db.credentials.Keys - db.credentials.Keys, stored, [], 0, [])
  {
  }

  lemma AllListed(db: Db, key: Key, owner: string, stored: map<Id, Summary>,
                  table: map<Id, Summary>, backfill: seq<Summary>, legacyCount: nat, order: seq<Id>)
    requires Listed(db, key, owner, stored, db.credentials.Keys - {}, table, backfill, legacyCount, order)
    ensures Enumerates(order, Unlisted(db, key))
    ensures backfill == Backfill(db, key, owner, order) && table == Table(stored, backfill)
    ensures legacyCount == |Legacy(db)|
  {
    MeetAll(Unlisted(db, key), db.credentials.Keys - {});
    MeetAll(Legacy(db), db.credentials.Keys - {});
  }

  method VisitCredential(ghost db: Db, key: Key, owner: string, ghost stored: map<Id, Summary>, ghost done: set<Id>,
                         id: Id, blob: Blob, listed: bool,
                         table: map<Id, Summary>, backfill: seq<Summary>, legacyCount: nat, ghost order: seq<Id>)
    returns (table': map<Id, Summary>, backfill': seq<Summary>, legacyCount': nat, ghost order': seq<Id>)
    requires id in db.credentials && db.credentials[id] == blob && id !in done
    requires listed == Known(db, id).Some?
    requires Listed(db, key, owner, stored, done, table, backfill, legacyCount, order)
    ensures Listed(db, key, owner, stored, done + {id}, table', backfill', legacyCount', order')
  {
    table', backfill', legacyCount', order' := table, backfill, legacyCount, order;
    MeetAdd(Legacy(db), done, id);
    MeetAdd(Unlisted(db, key), done, id);
    if !IsV2(blob) { legacyCount' := legacyCount + 1; }
    if !listed {
      var credential := Reads(DecryptRecord(key, blob, id));
      if credential.Some? {
        var summary := SummaryOf(credential.value, owner);
        Enumerate(order, Unlisted(db, key) * done, id);
        BackfillSnoc(db, key, owner, order, id);
        TableSnoc(stored, backfill, summary);
        order' := order + [id];
        table', backfill' := table[summary.id := summary], backfill + [summary];
      }
    }
  }

  /** The pass over the credential bucket, once per record: new summaries for readable
      records without one, and the number of legacy records. */
  method ReadCredentials(ghost db: Db, credentials: map<Id, Blob>, key: Key, owner: string,
                         known: set<Id>, stored: map<Id, Summary>)
    returns (table: map<Id, Summary>, backfill: seq<Summary>, legacyCount: nat, ghost order: seq<Id>)
    requires credentials == db.credentials
    requires forall id :: id in known <==> Known(db, id).Some?
    ensures Enumerates(order, Unlisted(db, key))
    ensures backfill == Backfill(db, key, owner, order) && table == Table(stored, backfill)
    ensures legacyCount == |Legacy(db)|
  {
    table, backfill, legacyCount, order := stored, [], 0, [];
    var todo := credentials.Keys;
    NothingListed(db, key, owner, stored);
    while todo != {}
      invariant todo <= credentials.Keys
      invariant Listed(db, key, owner, stored, credentials.Keys - todo, table, backfill, legacyCount, order)
      decreases todo
    {
      var id :| id in todo;
      VisitedMore(credentials.Keys, todo, id);
      table, backfill, legacyCount, order :=
        VisitCredential(db, key, owner, stored, credentials.Keys - todo, id, credentials[id], id in known,
                        table, backfill, legacyCount, order);
      todo := todo - {id};
    }
    AllListed(db, key, owner, stored, table, backfill, legacyCount, order);
  }

  method WriteSummaries(summaries: map<Id, RawSummary>, backfill: seq<Summary>) returns (bucket: map<Id, RawSummary>)
    ensures bucket == PutSummaries(summaries, backfill)
  {
    bucket := summaries;
    for i := 0 to |backfill|
      invariant bucket == PutSummaries(summaries, backfill[..i])
    {
      bucket := bucket[backfill[i].id := EncodeSummary(backfill[i])];
      assert backfill[..i + 1][..i] == backfill[..i];
    }
    assert backfill[..|backfill|] == backfill;
  }

  function Laid<V>(table: map<Id, V>, ids: seq<Id>): seq<V>
    requires forall i :: 0 <= i < |ids| ==> ids[i] in table
  {
    seq(|ids|, i requires 0 <= i < |ids| => table[ids[i]])
  }

  lemma LaidSnoc<V>(table: map<Id, V>, ids: seq<Id>, id: Id)
    requires id in table && forall i :: 0 <= i < |ids| ==> ids[i] in table
    ensures Laid(table, ids + [id]) == Laid(table, ids) + [table[id]]
  {
  }

  /** The values of a table, each id once. */
  method Values<V>(table: map<Id, V>) returns (result: seq<V>, ghost ids: seq<Id>)
    ensures Enumerates(ids, table.Keys) && result == Laid(table, ids)
  {
    result, ids := [], [];
    var todo := table.Keys;
    ghost var done: set<Id> := {};
    while todo != {}
      invariant done + todo == table.Keys && done !! todo
      invariant Enumerates(ids, done) && result == Laid(table, ids)
      decreases todo
    {
      var id :| id in todo;
      todo := todo - {id};
      Enumerate(ids, done, id);
      LaidSnoc(table, ids, id);
      done, ids, result := done + {id}, ids + [id], result + [table[id]];
    }
    assert done == table.Keys;
  }

  /** A list of a table's values, each id once, sorted by name. */
  ghost predicate Presents(listed: seq<Summary>, ids: seq<Id>, table: map<Id, Summary>) {
    && Enumerates(ids, table.Keys)
    && multiset(listed) == multiset(Laid(table, ids))
    && Sorted(listed, (s: Summary) => s.name)
  }

  method Present(table: map<Id, Summary>) returns (listed: seq<Summary>, ghost ids: seq<Id>)
    ensures Presents(listed, ids, table)
  {
    listed, ids := Values(table);
    listed := SortByName(listed, (s: Summary) => s.name);
  }

  // ---- The store ----

  class Store {
    const bolt: Bolt
    var masterKey: Key
    var salt: Salt
    var open: bool

    /** An open store's copy of the salt is the database's. */
    ghost predicate Valid()
      reads this, bolt
    {
      open ==> salt == SaltOf(bolt.Snapshot())
    }

    constructor (bolt: Bolt, key: Key)
      ensures this.bolt == bolt && masterKey == key && open && Valid()
    {
      this.bolt, masterKey, open := bolt, key, true;
      salt := if bolt.salt.Some? then bolt.salt.value else "";
    }

    /** The master key and the salt are zeroed and the database closed; nothing is written
        afterwards. */
    method Close()
      modifies this
      ensures !open && masterKey == Master(seq(KEY_DIGITS, i => 0)) && salt == seq(|old(salt)|, i => '\0')
      ensures Valid()
    {
      masterKey := Master(seq(KEY_DIGITS, i => 0));
      salt := seq(|salt|, i => '\0');
      open := false;
    }

    method Get(id: Id) returns (credential: Option<Credential>)
      ensures credential == if open then VaultModel.Get(bolt.Snapshot(), masterKey, id) else None
    {
      if !open || id !in bolt.credentials { return None; }
      credential := Reads(DecryptRecord(masterKey, bolt.credentials[id], id));
    }

    method PutForUser(owner: string, credential: Credential, now: Time, freshId: Id, nonce: Nonce, commits: bool)
      returns (ok: bool, stored: Credential)
      modifies bolt
      ensures ok == (open && commits) && (old(Valid()) ==> Valid())
      ensures ok ==> stored == Completed(old(bolt.Snapshot()), masterKey, credential, now, freshId)
      ensures bolt.Snapshot() == if ok then PutDb(old(bolt.Snapshot()), masterKey, owner, stored, nonce)
                                 else old(bolt.Snapshot())
    {
      stored := credential;
      if stored.id == "" {
        stored := stored.(id := freshId, createdAt := now);
      } else if stored.createdAt == ZERO_TIME {
        var existing := Get(stored.id);
        if existing.Some? { stored := stored.(createdAt := existing.value.createdAt); }
      }
      stored := stored.(updatedAt := now);
      if stored.port == 0 { stored := stored.(port := 22); }
      if stored.term == "" { stored := stored.(term := "xterm-256color"); }
      assert open ==> stored == Completed(bolt.Snapshot(), masterKey, credential, now, freshId);
      var blob := EncryptV2(masterKey, EncodeCredential(stored), stored.id, nonce);
      ok := open && commits;
      if ok {
        bolt.credentials := bolt.credentials[stored.id := blob];
        if owner != "" {
          bolt.summaries := bolt.summaries[stored.id := EncodeSummary(SummaryOf(stored, owner))];
        }
      }
    }

    method Delete(id: Id, commits: bool) returns (ok: bool)
      modifies bolt
      ensures ok == (open && commits && id != "") && (old(Valid()) ==> Valid())
      ensures bolt.Snapshot() == if ok then DeleteDb(old(bolt.Snapshot()), id) else old(bolt.Snapshot())
    {
      ok := open && commits && id != "";
      if ok {
        bolt.credentials := bolt.credentials - {id};
        bolt.summaries := bolt.summaries - {id};
      }
    }

    /** Every readable credential once, sorted by name, and the number of all other records. */
    method ListAvailable() returns (result: seq<Credential>, skipped: nat, ok: bool, ghost ids: seq<Id>)
      ensures ok == open && (!ok ==> result == [] && skipped == 0)
      ensures var db := bolt.Snapshot();
              ok ==>
                && Enumerates(ids, Available(db, masterKey).Keys)
                && multiset(result) == multiset(Laid(Available(db, masterKey), ids))
                && |Available(db, masterKey)| + skipped == |db.credentials|
      ensures Sorted(result, (c: Credential) => c.name)
    {
      if !open { return [], 0, false, []; }
      ok := true;
      ghost var db := bolt.Snapshot();
      var found: map<Id, Credential> := map[];
      skipped := 0;
      var todo := bolt.credentials.Keys;
      while todo != {}
        invariant todo <= bolt.credentials.Keys
        invariant forall id :: id in found <==>
                    id in bolt.credentials && id !in todo && VaultModel.Get(db, masterKey, id).Some?
        invariant forall id :: id in found ==> found[id] == VaultModel.Get(db, masterKey, id).value
        invariant |found| + skipped + |todo| == |bolt.credentials|
        decreases todo
      {
        var id :| id in todo;
        todo := todo - {id};
        var credential := Reads(DecryptRecord(masterKey, bolt.credentials[id], id));
        if credential.None? { skipped := skipped + 1; }
        else { found := found[id := credential.value]; }
      }
      assert found == Available(db, masterKey);
      result, ids := Values(found);
      result := SortByName(result, (c: Credential) => c.name);
    }

    /** The owner's listing, sorted by name, with every missing summary written back in one
        transaction. Without a commit nothing is returned and nothing changes. */
    method ListSummaries(owner: string, commits: bool)
      returns (result: Option<seq<Summary>>, legacyCount: nat, ghost order: seq<Id>, ghost ids: seq<Id>)
      modifies bolt
      ensures open && owner != "" ==> Enumerates(order, Unlisted(old(bolt.Snapshot()), masterKey))
      ensures old(Valid()) ==> Valid()
      ensures result.Some? == (open && owner != "" && (commits || Unlisted(old(bolt.Snapshot()), masterKey) == {}))
      ensures bolt.Snapshot() == if result.Some? then ListDb(old(bolt.Snapshot()), masterKey, owner, order)
                                 else old(bolt.Snapshot())
      ensures result.Some? ==>
                && legacyCount == |Legacy(old(bolt.Snapshot()))|
                && Presents(result.value, ids, Listing(old(bolt.Snapshot()), masterKey, owner, order))
    {
      result, legacyCount, order, ids := None, 0, [], [];
      if !open || owner == "" { return; }
      var table, backfill;
      table, backfill, legacyCount, order := Gather(owner);
      if |backfill| > 0 {
        if !commits { return; }
        bolt.summaries := WriteSummaries(bolt.summaries, backfill);
      }
      var listed;
      listed, ids := Present(table);
      result := Some(listed);
    }

    /** The two read passes of a listing. */
    method Gather(owner: string)
      returns (table: map<Id, Summary>, backfill: seq<Summary>, legacyCount: nat, ghost order: seq<Id>)
      ensures Enumerates(order, Unlisted(bolt.Snapshot(), masterKey))
      ensures backfill == Backfill(bolt.Snapshot(), masterKey, owner, order) && |backfill| == |order|
      ensures table == Listing(bolt.Snapshot(), masterKey, owner, order)
      ensures legacyCount == |Legacy(bolt.Snapshot())|
    {
      ghost var db := bolt.Snapshot();
      var stored, known := ReadSummaries(db, bolt.summaries, owner);
      table, backfill, legacyCount, order := ReadCredentials(db, bolt.credentials, masterKey, owner, known, stored);
      BackfillAt(db, masterKey, owner, order);
    }

    method LegacyCount() returns (count: nat, ok: bool)
      ensures ok == open && count == if ok then |Legacy(bolt.Snapshot())| else 0
    {
      count, ok := 0, open;
      if !open { return; }
      ghost var db := bolt.Snapshot();
      var todo := bolt.credentials.Keys;
      ghost var done: set<Id> := {};
      while todo != {}
        invariant done + todo == bolt.credentials.Keys && done !! todo
        invariant count == |Legacy(db) * done|
        decreases todo
      {
        var id :| id in todo;
        todo := todo - {id};
        MeetAdd(Legacy(db), done, id);
        if !IsV2(bolt.credentials[id]) { count := count + 1; }
        done := done + {id};
      }
      MeetAll(Legacy(db), done);
    }

    /** Reads every legacy record once and re-seals those the password opens, in one
        transaction. `nonces` holds the random nonce of each record that gets one; a missing
        one is a failed read of the random source. Counts add up to the previous legacy
        count, on a failed commit too, and a failure changes nothing. */
    method MigrateLegacyFromPassword(password: string, nonces: map<Id, Nonce>, commits: bool)
      returns (migrated: nat, remaining: nat, ok: bool)
      requires Valid()
      modifies bolt
      ensures Valid()
      ensures ok == (open && password != "" && MigratableIds(old(bolt.Snapshot()), password) <= nonces.Keys
                     && (commits || MigratableIds(old(bolt.Snapshot()), password) == {}))
      ensures ok ==> bolt.Snapshot() == MigrateDb(old(bolt.Snapshot()), masterKey, password, nonces)
      ensures ok ==> migrated == |MigratableIds(old(bolt.Snapshot()), password)|
      ensures ok ==> remaining == |Legacy(bolt.Snapshot())|
      ensures ok ==> migrated + remaining == |Legacy(old(bolt.Snapshot()))|
      ensures !ok ==> migrated == 0 && bolt.Snapshot() == old(bolt.Snapshot())
      ensures !ok && open && password != "" && MigratableIds(old(bolt.Snapshot()), password) <= nonces.Keys ==>
                remaining == |Legacy(old(bolt.Snapshot()))|
    {
      migrated, remaining, ok := 0, 0, false;
      if !open || password == "" { return; }
      ghost var db := bolt.Snapshot();
      var legacyKey := Argon2(password, salt);
      var records: map<Id, Blob>;
      records, remaining, ok := CollectMigrated(db, bolt.credentials, masterKey, legacyKey, password, nonces);
      if !ok { return; }
      MigrationOutcome(db, masterKey, password, nonces, records, remaining);
      if |records| > 0 {
        if !commits {
          return 0, remaining + |records|, false;
        }
        bolt.credentials := WriteRecords(bolt.credentials, records);
      }
      migrated := |records|;
    }
  }

  method WriteRecords(credentials: map<Id, Blob>, records: map<Id, Blob>) returns (bucket: map<Id, Blob>)
    ensures bucket == credentials + records
  {
    bucket := credentials;
    var todo := records.Keys;
    while todo != {}
      invariant todo <= records.Keys
      invariant bucket == credentials + (map id | id in records && id !in todo :: records[id])
      decreases todo
    {
      var id :| id in todo;
      todo := todo - {id};
      bucket := bucket[id := records[id]];
    }
    assert (map id | id in records && id !in todo :: records[id]) == records;
  }

  /** What the migration would write for each record it has a nonce for. */
  ghost function ResealedAll(db: Db, key: Key, password: string, nonces: map<Id, Nonce>): map<Id, Blob> {
    map id | id in MigratableIds(db, password) && id in nonces :: Resealed(db, key, password, id, nonces[id])
  }

  /** The migration's read pass after the records in `done`. */
  ghost predicate Collected(moving: set<Id>, legacy: set<Id>, resealed: map<Id, Blob>, done: set<Id>,
                            records: map<Id, Blob>, remaining: nat)
  {
    && records.Keys == moving * done
    && (forall id :: id in records ==> id in resealed && records[id] == resealed[id])
    && |records| + remaining == |legacy * done|
  }

  lemma NothingCollected(moving: set<Id>, legacy: set<Id>, resealed: map<Id, Blob>, keys: set<Id>)
    ensures Collected(moving, legacy, resealed, keys - keys, map[], 0)
  {
  }

  lemma CollectOne(moving: set<Id>, legacy: set<Id>, resealed: map<Id, Blob>,
                   done: set<Id>, id: Id, records: map<Id, Blob>, remaining: nat)
    requires id !in done && id in moving && id in legacy && id in resealed
    requires Collected(moving, legacy, resealed, done, records, remaining)
    ensures Collected(moving, legacy, resealed, done + {id}, records[id := resealed[id]], remaining)
  {
    MeetAdd(legacy, done, id);
    MeetAdd(moving, done, id);
    assert records[id := resealed[id]].Keys == records.Keys + {id};
    assert |records[id := resealed[id]]| == |records| + 1;
  }

  lemma LeaveOne(moving: set<Id>, legacy: set<Id>, resealed: map<Id, Blob>,
                 done: set<Id>, id: Id, records: map<Id, Blob>, remaining: nat)
    requires id !in done && id !in moving
    requires Collected(moving, legacy, resealed, done, records, remaining)
    ensures Collected(moving, legacy, resealed, done + {id}, records, remaining + if id in legacy then 1 else 0)
  {
    MeetAdd(legacy, done, id);
    MeetAdd(moving, done, id);
  }

  /** The read pass of a migration. It stops early only when the random source fails. */
  method CollectMigrated(ghost db: Db, credentials: map<Id, Blob>, key: Key, legacyKey: Key,
                         ghost password: string, nonces: map<Id, Nonce>)
    returns (records: map<Id, Blob>, remaining: nat, ok: bool)
    requires credentials == db.credentials && legacyKey == LegacyKey(db, password)
    ensures ok == (MigratableIds(db, password) <= nonces.Keys)
    ensures ok ==> && records.Keys == MigratableIds(db, password)
                   && (forall id :: id in records ==> records[id] == Resealed(db, key, password, id, nonces[id]))
                   && |records| + remaining == |Legacy(db)|
  {
    records, remaining, ok := map[], 0, true;
    var todo := credentials.Keys;
    ghost var moving, legacy := MigratableIds(db, password), Legacy(db);
    ghost var resealed := ResealedAll(db, key, password, nonces);
    NothingCollected(moving, legacy, resealed, credentials.Keys);
    while todo != {}
      invariant todo <= credentials.Keys
      invariant Collected(moving, legacy, resealed, credentials.Keys - todo, records, remaining)
      decreases todo
    {
      var id :| id in todo;
      VisitedMore(credentials.Keys, todo, id);
      ghost var done := credentials.Keys - todo;
      todo := todo - {id};
      var plain := DecryptLegacy(legacyKey, credentials[id], id);
      if IsV2(credentials[id]) {
        LeaveOne(moving, legacy, resealed, done, id, records, remaining);
      } else if Reads(plain).None? {
        LeaveOne(moving, legacy, resealed, done, id, records, remaining);
        remaining := remaining + 1;
      } else {
        assert id in moving;
        if id !in nonces {
          return map[], remaining, false;
        }
        CollectOne(moving, legacy, resealed, done, id, records, remaining);
        records := records[id := EncryptV2(key, plain.value, id, nonces[id])];
      }
    }
    MeetAll(moving, credentials.Keys - todo);
    MeetAll(legacy, credentials.Keys - todo);
  }

  lemma MigrationOutcome(db: Db, key: Key, password: string, nonces: map<Id, Nonce>,
                         records: map<Id, Blob>, remaining: nat)
    requires records.Keys == MigratableIds(db, password) && records.Keys <= nonces.Keys
    requires forall id :: id in records ==> records[id] == Resealed(db, key, password, id, nonces[id])
    requires |records| + remaining == |Legacy(db)|
    ensures MigrateDb(db, key, password, nonces) == db.(credentials := db.credentials + records)
    ensures |records| == |MigratableIds(db, password)| && remaining == |Legacy(MigrateDb(db, key, password, nonces))|
    ensures |records| == 0 ==> MigratableIds(db, password) == {} && db.credentials + records == db.credentials
  {
    MigratedBucket(db, key, password, nonces, records);
    MigrationConserves(db, key, password, nonces);
    assert |records| == |records.Keys|;
  }

  lemma MigratedBucket(db: Db, key: Key, password: string, nonces: map<Id, Nonce>, records: map<Id, Blob>)
    requires MigratableIds(db, password) == records.Keys && records.Keys <= nonces.Keys
    requires forall id :: id in records ==> records[id] == Resealed(db, key, password, id, nonces[id])
    ensures MigrateDb(db, key, password, nonces).credentials == db.credentials + records
  {
  }

  /** The key file and what the process does to it. */
  class KeyDisk {
    var file: KeyFile

    constructor (file: KeyFile)
      ensures this.file == file
    {
      this.file := file;
    }
  }

  /** Open, run to its end. The key in the result is the one the transition system has. */
  method Open(bolt: Bolt, disk: KeyDisk, keyHex: string, generated: seq<Nibble>, salt: Salt, writes: bool)
    returns (key: Option<Key>)
    requires |generated| == KEY_DIGITS
    modifies bolt, disk
    ensures World(bolt.Snapshot(), disk.file, key)
         == OpenWorld(World(old(bolt.Snapshot()), old(disk.file), None), keyHex, generated, salt, writes, NoCrash)
  {
    if bolt.salt.None? { bolt.salt := Some(salt); }
    var loaded := LoadMasterKey(disk, keyHex, bolt.fingerprint.None?, generated, writes);
    if loaded.None? { return None; }
    if bolt.fingerprint.Some? && bolt.fingerprint.value != Sha256(loaded.value) { return None; }
    if bolt.fingerprint.None? { bolt.fingerprint := Some(Sha256(loaded.value)); }
    key := loaded;
  }

  method LoadMasterKey(disk: KeyDisk, keyHex: string, allowCreate: bool, generated: seq<Nibble>, writes: bool)
    returns (key: Option<Key>)
    modifies disk
    ensures var loaded := LoadKey(keyHex, old(disk.file), allowCreate, generated);
            && (loaded.None? ==> key == None && disk.file == old(disk.file))
            && (loaded.Some? && !loaded.value.1 ==> key == Some(loaded.value.0) && disk.file == old(disk.file))
            && (loaded.Some? && loaded.value.1 ==>
                  if writes then key == Some(loaded.value.0) && disk.file == Content(EncodeKey(generated))
                  else key == None && disk.file == old(disk.file))
  {
    if Text.TrimSpace(keyHex) != "" { return DecodeKey(keyHex); }
    match disk.file {
      case Content(text) => return DecodeKey(text);
      case Symlink => return None;
      case Unreadable => return None;
      case Missing =>
        if !allowCreate { return None; }
        disk.file := Content(EncodeKey(generated));
        if !writes {
          disk.file := Missing;
          return None;
        }
        return Some(Master(generated));
    }
  }

}
