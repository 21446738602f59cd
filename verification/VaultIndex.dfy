/** The summary index against the sealed records, and what listing and migration keep. */
module VaultIndex {
  import opened Wrappers
  import Text
  import opened VaultModel
  import opened VaultKey
  import opened VaultRuns

  /** The credential inside a record stored under this id, whatever key it takes to see it. */
  function Inside(b: Blob, id: Id): Option<Credential> {
    if !b.Junk? && b.box.aad == id then DecodeCredential(b.box.plain) else None
  }

  /** Each record's credential carries the id it is stored under. */
  ghost predicate IdsMatch(db: Db) {
    forall id :: id in db.credentials && Inside(db.credentials[id], id).Some? ==>
      Inside(db.credentials[id], id).value.id == id
  }

  /** A stored summary that reads, under its own id, and says what its record says. */
  ghost predicate SummaryAgrees(db: Db, id: Id)
    requires id in db.summaries
  {
    && id in db.credentials
    && DecodeSummary(db.summaries[id]).Some?
    && var s := DecodeSummary(db.summaries[id]).value;
       && s.id == id
       && (Inside(db.credentials[id], id).Some? ==> s == SummaryOf(Inside(db.credentials[id], id).value, s.owner))
  }

  ghost predicate Agrees(db: Db) {
    && IdsMatch(db)
    && forall id :: id in db.summaries ==> SummaryAgrees(db, id)
  }

  lemma GetSeesInside(db: Db, key: Key, id: Id)
    ensures Get(db, key, id).Some? ==> id in db.credentials && Get(db, key, id) == Inside(db.credentials[id], id)
  {
  }

  lemma SummaryRoundTrip(s: Summary)
    ensures DecodeSummary(EncodeSummary(s)) == Some(s)
  {
  }

  /** Both spellings of the recovery flag are written, either is read: a credential survives
      being written and read, and an old document with only the old flag keeps it. */
  lemma CredentialRoundTrip(c: Credential)
    ensures DecodeCredential(EncodeCredential(c)) == Some(c)
    ensures DecodeCredential(Doc(c.(useHerdr := false), true)) == Some(c.(useHerdr := true))
  {
  }

  // ---- Put and Delete ----

  lemma PutAgrees(db: Db, key: Key, owner: string, c: Credential, nonce: Nonce)
    requires Agrees(db) && owner != ""
    ensures Agrees(PutDb(db, key, owner, c, nonce))
  {
    var db' := PutDb(db, key, owner, c, nonce);
    CredentialRoundTrip(c);
    SummaryRoundTrip(SummaryOf(c, owner));
    forall id | id in db'.summaries ensures SummaryAgrees(db', id) {
      if id != c.id { assert SummaryAgrees(db, id); }
    }
  }

  lemma DeleteAgrees(db: Db, id: Id)
    requires Agrees(db)
    ensures Agrees(DeleteDb(db, id))
  {
    var db' := DeleteDb(db, id);
    forall x | x in db'.summaries ensures SummaryAgrees(db', x) { assert SummaryAgrees(db, x); }
  }

  /** What is put can be read back as it was returned, with its creation time kept from the
      record it replaces; no other record changes, and a deleted one is gone. */
  lemma PutThenGet(db: Db, key: Key, owner: string, c: Credential, now: Time, freshId: Id, nonce: Nonce, other: Id)
    ensures var stored := Completed(db, key, c, now, freshId);
            var db' := PutDb(db, key, owner, stored, nonce);
            && Get(db', key, stored.id) == Some(stored)
            && stored == c.(id := stored.id, createdAt := stored.createdAt, updatedAt := now,
                            port := if c.port == 0 then 22 else c.port,
                            term := if c.term == "" then "xterm-256color" else c.term)
            && (if c.id == "" then stored.id == freshId && stored.createdAt == now else stored.id == c.id)
            && (c.id != "" && c.createdAt != ZERO_TIME ==> stored.createdAt == c.createdAt)
            && (c.id != "" && c.createdAt == ZERO_TIME && Get(db, key, c.id).Some? ==>
                  stored.createdAt == Get(db, key, c.id).value.createdAt)
            && (other != stored.id ==> Get(db', key, other) == Get(db, key, other))
            && Get(DeleteDb(db', stored.id), key, stored.id) == None
  {
    CredentialRoundTrip(Completed(db, key, c, now, freshId));
  }

  // ---- Listing ----

  ghost predicate Distinct(order: seq<Id>) {
    forall i, j :: 0 <= i < j < |order| ==> order[i] != order[j]
  }

  ghost predicate IdsOf(list: seq<Summary>, order: seq<Id>) {
    |list| == |order| && forall i :: 0 <= i < |list| ==> list[i].id == order[i]
  }

  lemma {:induction false} BackfillAt(db: Db, key: Key, owner: string, order: seq<Id>)
    requires forall i :: 0 <= i < |order| ==> Get(db, key, order[i]).Some?
    ensures var list := Backfill(db, key, owner, order);
            && |list| == |order|
            && forall i :: 0 <= i < |order| ==> list[i] == SummaryOf(Get(db, key, order[i]).value, owner)
  {
    if order != [] { BackfillAt(db, key, owner, order[..|order| - 1]); }
  }

  lemma {:induction false} PutSummariesAt(m: map<Id, RawSummary>, list: seq<Summary>, order: seq<Id>)
    requires IdsOf(list, order) && Distinct(order)
    ensures var m' := PutSummaries(m, list);
            && (forall i :: 0 <= i < |order| ==> order[i] in m' && m'[order[i]] == EncodeSummary(list[i]))
            && (forall id :: id !in order ==> (id in m' <==> id in m) && (id in m ==> m'[id] == m[id]))
  {
    if order != [] {
      PutSummariesAt(m, list[..|list| - 1], order[..|order| - 1]);
      assert order == order[..|order| - 1] + [order[|order| - 1]];
    }
  }

  lemma {:induction false} TableAt(m: map<Id, Summary>, list: seq<Summary>, order: seq<Id>)
    requires IdsOf(list, order) && Distinct(order)
    ensures var m' := Table(m, list);
            && (forall i :: 0 <= i < |order| ==> order[i] in m' && m'[order[i]] == list[i])
            && (forall id :: id !in order ==> (id in m' <==> id in m) && (id in m ==> m'[id] == m[id]))
  {
    if order != [] {
      TableAt(m, list[..|list| - 1], order[..|order| - 1]);
      assert order == order[..|order| - 1] + [order[|order| - 1]];
    }
  }

  lemma BackfillIds(db: Db, key: Key, owner: string, order: seq<Id>)
    requires IdsMatch(db) && Enumerates(order, Unlisted(db, key))
    ensures IdsOf(Backfill(db, key, owner, order), order) && Distinct(order)
  {
    BackfillAt(db, key, owner, order);
    forall i | 0 <= i < |order| ensures Backfill(db, key, owner, order)[i].id == order[i] {
      GetSeesInside(db, key, order[i]);
    }
  }

  /** What a listing stores, record by record: the order of visiting does not matter. */
  lemma ListDbAt(db: Db, key: Key, owner: string, order: seq<Id>, id: Id)
    requires IdsMatch(db) && Enumerates(order, Unlisted(db, key))
    ensures var db' := ListDb(db, key, owner, order);
            && Get(db', key, id) == Get(db, key, id)
            && Known(db', id) == (if id in Unlisted(db, key) then Some(SummaryOf(Get(db, key, id).value, owner))
                                  else Known(db, id))
            && (id in db'.summaries <==> id in db.summaries || id in Unlisted(db, key))
  {
    BackfillAt(db, key, owner, order);
    BackfillIds(db, key, owner, order);
    PutSummariesAt(db.summaries, Backfill(db, key, owner, order), order);
    if id in Unlisted(db, key) {
      SummaryRoundTrip(SummaryOf(Get(db, key, id).value, owner));
      assert id in order;
    }
  }

  /** What a listing returns, id by id. */
  lemma ListingAt(db: Db, key: Key, owner: string, order: seq<Id>, id: Id)
    requires IdsMatch(db) && Enumerates(order, Unlisted(db, key))
    ensures var table := Listing(db, key, owner, order);
            if id in Unlisted(db, key) then id in table && table[id] == SummaryOf(Get(db, key, id).value, owner)
            else (id in table <==> id in Owned(db, owner)) && (id in table ==> table[id] == Owned(db, owner)[id])
  {
    BackfillAt(db, key, owner, order);
    BackfillIds(db, key, owner, order);
    TableAt(Owned(db, owner), Backfill(db, key, owner, order), order);
    if id in Unlisted(db, key) { assert id in order; }
  }

  lemma ListAgrees(db: Db, key: Key, owner: string, order: seq<Id>)
    requires Agrees(db) && Enumerates(order, Unlisted(db, key))
    ensures Agrees(ListDb(db, key, owner, order))
  {
    var db' := ListDb(db, key, owner, order);
    forall id | id in db'.summaries ensures SummaryAgrees(db', id) {
      ListDbAt(db, key, owner, order, id);
      if id in Unlisted(db, key) {
        GetSeesInside(db, key, id);
      } else {
        assert SummaryAgrees(db, id);
      }
    }
  }

  lemma NothingLeftUnlisted(db: Db, key: Key, owner: string, order: seq<Id>)
    requires IdsMatch(db) && Enumerates(order, Unlisted(db, key))
    ensures Unlisted(ListDb(db, key, owner, order), key) == {}
  {
    var db' := ListDb(db, key, owner, order);
    forall id | id in db'.credentials ensures id !in Unlisted(db', key) {
      ListDbAt(db, key, owner, order, id);
    }
  }

  /** Listing again as the same owner writes nothing and returns the same; neither call
      touches a record, so the legacy count stays. */
  lemma ListingIsFixpoint(db: Db, key: Key, owner: string, order: seq<Id>, again: seq<Id>)
    requires IdsMatch(db) && Enumerates(order, Unlisted(db, key))
    requires Enumerates(again, Unlisted(ListDb(db, key, owner, order), key))
    ensures var db' := ListDb(db, key, owner, order);
            && again == [] && ListDb(db', key, owner, again) == db'
            && Listing(db', key, owner, again) == Listing(db, key, owner, order)
            && Legacy(db') == Legacy(db)
  {
    var db' := ListDb(db, key, owner, order);
    NothingLeftUnlisted(db, key, owner, order);
    var table := Listing(db, key, owner, order);
    assert Listing(db', key, owner, []) == Owned(db', owner);
    forall id
      ensures id in Owned(db', owner) <==> id in table
      ensures id in table ==> Owned(db', owner)[id] == table[id]
    {
      ListDbAt(db, key, owner, order, id);
      ListingAt(db, key, owner, order, id);
    }
    assert Owned(db', owner) == table;
  }

  lemma OtherOwnersKeepTheirs(db: Db, key: Key, owner: string, other: string, order: seq<Id>)
    requires IdsMatch(db) && owner != other && Enumerates(order, Unlisted(db, key))
    ensures Owned(ListDb(db, key, owner, order), other) == Owned(db, other)
  {
    var mine, theirs := Owned(ListDb(db, key, owner, order), other), Owned(db, other);
    forall id
      ensures id in mine <==> id in theirs
      ensures id in mine ==> mine[id] == theirs[id]
    {
      ListDbAt(db, key, owner, order, id);
    }
  }

  /** What other owners have stored never changes. What another owner would list changes
      exactly when this call backfills: records without a summary go to whoever lists
      first. */
  lemma ListingAndOtherOwners(db: Db, key: Key, owner: string, other: string,
                              order: seq<Id>, before: seq<Id>, after: seq<Id>)
    requires IdsMatch(db) && owner != other
    requires Enumerates(order, Unlisted(db, key)) && Enumerates(before, Unlisted(db, key))
    requires Enumerates(after, Unlisted(ListDb(db, key, owner, order), key))
    ensures Owned(ListDb(db, key, owner, order), other) == Owned(db, other)
    ensures Listing(ListDb(db, key, owner, order), key, other, after) == Listing(db, key, other, before)
            <==> Unlisted(db, key) == {}
  {
    var db' := ListDb(db, key, owner, order);
    OtherOwnersKeepTheirs(db, key, owner, other, order);
    NothingLeftUnlisted(db, key, owner, order);
    assert Listing(db', key, other, after) == Owned(db, other);
    if Unlisted(db, key) != {} {
      var id :| id in Unlisted(db, key);
      ListingAt(db, key, other, before, id);
      assert id !in Owned(db, other);
    }
  }

  /** A put without an owner leaves a record to backfill, unless its id had a summary. */
  lemma UnownedPutIsUnlisted(db: Db, key: Key, c: Credential, nonce: Nonce)
    ensures c.id in Unlisted(PutDb(db, key, "", c, nonce), key) <==> Known(db, c.id).None?
  {
    CredentialRoundTrip(c);
  }

  /** Neither database nor key file yet. */
  const FRESH: World := World(Db(None, None, map[], map[]), Missing, None)

  /** A run that reaches such a database, and what it means there: whoever lists first is
      shown the record, and nobody else is afterwards. */
  lemma FirstListerTakesAll(generated: seq<Nibble>, salt: Salt, c: Credential, freshId: Id, now: Time, nonce: Nonce,
                            owner: string, other: string)
    requires |generated| == KEY_DIGITS && owner != other
    ensures var es := [Open("", generated, salt, true, NoCrash), Put("", c, now, freshId, nonce, true)];
            var t := Run(FRESH, es);
            var id := if c.id == "" then freshId else c.id;
            && t.store == Some(Master(generated)) && Unlisted(t.db, Master(generated)) == {id}
            && id in Listing(t.db, Master(generated), other, [id])
            && id !in Listing(ListDb(t.db, Master(generated), owner, [id]), Master(generated), other, [])
  {
    var w := FRESH;
    var key := Master(generated);
    var es := [Open("", generated, salt, true, NoCrash), Put("", c, now, freshId, nonce, true)];
    FreshOpen(generated, salt);
    assert es[..1][..0] == [];
    var first := Step(w, es[0]);
    assert Run(w, es[..1]) == first;
    var stored := Completed(first.db, key, c, now, freshId);
    UnownedPutIsUnlisted(first.db, key, stored, nonce);
    var db := PutDb(first.db, key, "", stored, nonce);
    OnlyOneUnlisted(db, key, stored.id, owner, other);
  }

  lemma FreshOpen(generated: seq<Nibble>, salt: Salt)
    requires |generated| == KEY_DIGITS
    ensures OpenWorld(FRESH, "", generated, salt, true, NoCrash)
         == World(Db(Some(salt), Some(Sha256(Master(generated))), map[], map[]), Content(EncodeKey(generated)),
                  Some(Master(generated)))
  {
    assert Text.TrimSpace("") == "";
  }

  lemma OnlyOneUnlisted(db: Db, key: Key, id: Id, owner: string, other: string)
    requires db.credentials.Keys == {id} && db.summaries == map[] && Get(db, key, id).Some?
    requires Get(db, key, id).value.id == id && owner != other
    ensures Unlisted(db, key) == {id}
    ensures id in Listing(db, key, other, [id])
    ensures id !in Listing(ListDb(db, key, owner, [id]), key, other, [])
  {
    assert Unlisted(db, key) == {id};
    GetSeesInside(db, key, id);
    assert IdsMatch(db);
    assert Enumerates([id], Unlisted(db, key));
    ListingAt(db, key, other, [id], id);
    OtherOwnersKeepTheirs(db, key, owner, other, [id]);
  }

  // ---- Migration ----

  /** Migration conserves the store: the same ids and summaries; what was legacy is migrated
      or still legacy, so the counts add up; and a second run with the same password finds
      nothing. */
  lemma MigrationConserves(db: Db, key: Key, password: string, nonces: map<Id, Nonce>)
    requires MigratableIds(db, password) <= nonces.Keys
    ensures var db' := MigrateDb(db, key, password, nonces);
            && db'.credentials.Keys == db.credentials.Keys && db'.summaries == db.summaries
            && db'.fingerprint == db.fingerprint && db'.salt == db.salt
            && Legacy(db') == Legacy(db) - MigratableIds(db, password)
            && |MigratableIds(db, password)| + |Legacy(db')| == |Legacy(db)|
            && MigratableIds(db', password) == {}
  {
    var db' := MigrateDb(db, key, password, nonces);
    LegacyAfterMigration(db, key, password, nonces);
    assert MigratableIds(db, password) <= Legacy(db);
    SplitSize(Legacy(db), MigratableIds(db, password));
  }

  lemma SplitSize(all: set<Id>, part: set<Id>)
    requires part <= all
    ensures |part| + |all - part| == |all|
  {
    assert all == part + (all - part);
  }

  lemma LegacyAfterMigration(db: Db, key: Key, password: string, nonces: map<Id, Nonce>)
    requires MigratableIds(db, password) <= nonces.Keys
    ensures Legacy(MigrateDb(db, key, password, nonces)) == Legacy(db) - MigratableIds(db, password)
    ensures MigratableIds(MigrateDb(db, key, password, nonces), password) == {}
  {
    var db' := MigrateDb(db, key, password, nonces);
    forall id | id in db.credentials
      ensures id in Legacy(db') <==> id in Legacy(db) && id !in MigratableIds(db, password)
      ensures !Migratable(db', password, id)
    {
      MigratedAt(db, key, password, nonces, id);
    }
  }

  /** Every new-format and every undecryptable record stays as it was; a migrated one is the
      same plaintext under the master key. */
  lemma MigratedAt(db: Db, key: Key, password: string, nonces: map<Id, Nonce>, id: Id)
    requires MigratableIds(db, password) <= nonces.Keys && id in db.credentials
    ensures var b, b' := db.credentials[id], MigrateDb(db, key, password, nonces).credentials[id];
            if Migratable(db, password, id) then
              && !IsV2(b) && b'.Tagged? && b'.box.plain == b.box.plain
              && Get(MigrateDb(db, key, password, nonces), key, id) == Inside(b, id)
              && Inside(b, id).Some? && Inside(b', id) == Inside(b, id)
            else b' == b
  {
  }

  lemma MigrateAgrees(db: Db, key: Key, password: string, nonces: map<Id, Nonce>)
    requires Agrees(db) && MigratableIds(db, password) <= nonces.Keys
    ensures Agrees(MigrateDb(db, key, password, nonces))
  {
    var db' := MigrateDb(db, key, password, nonces);
    forall id | id in db.credentials ensures Inside(db'.credentials[id], id) == Inside(db.credentials[id], id) {
      MigratedAt(db, key, password, nonces, id);
    }
    forall id | id in db'.summaries ensures SummaryAgrees(db', id) { assert SummaryAgrees(db, id); }
  }

  // ---- Over whole runs ----

  ghost predicate PutsHaveOwners(es: seq<Event>) {
    forall i :: 0 <= i < |es| && es[i].Put? ==> es[i].owner != ""
  }

  lemma StepAgrees(w: World, e: Event)
    requires Agrees(w.db) && (e.Put? ==> e.owner != "")
    ensures Agrees(Step(w, e).db)
  {
    match e
    case Open(keyHex, generated, salt, writes, crash) => OpenAgrees(w, e);
    case Put(owner, credential, now, freshId, nonce, commits) =>
      if w.store.Some? {
        PutAgrees(w.db, w.store.value, owner, Completed(w.db, w.store.value, credential, now, freshId), nonce);
      }
    case Delete(id, commits) => DeleteAgrees(w.db, id);
    case List(owner, order, commits) =>
      if w.store.Some? && Enumerates(order, Unlisted(w.db, w.store.value)) {
        ListAgrees(w.db, w.store.value, owner, order);
      }
    case Migrate(password, nonces, commits) =>
      if w.store.Some? && MigratableIds(w.db, password) <= nonces.Keys {
        MigrateAgrees(w.db, w.store.value, password, nonces);
      }
    case _ =>
  }

  lemma OpenAgrees(w: World, e: Event)
    requires Agrees(w.db) && e.Open?
    ensures Agrees(Step(w, e).db)
  {
    var db, db' := w.db, Step(w, e).db;
    assert db'.credentials == db.credentials && db'.summaries == db.summaries;
    forall id | id in db'.summaries ensures SummaryAgrees(db', id) { assert SummaryAgrees(db, id); }
  }

  lemma {:induction false} RunAgrees(w: World, es: seq<Event>)
    requires Agrees(w.db) && PutsHaveOwners(es)
    ensures Agrees(Run(w, es).db)
  {
    if es != [] {
      RunAgrees(w, es[..|es| - 1]);
      StepAgrees(Run(w, es[..|es| - 1]), es[|es| - 1]);
    }
  }

  /** After any run whose puts name an owner, every summary has its record and, if the open
      store can read that record, is that credential's summary. */
  lemma IndexAgreesWithRecords(w: World, es: seq<Event>, id: Id)
    requires Agrees(w.db) && PutsHaveOwners(es)
    ensures var t := Run(w, es);
            id in t.db.summaries ==>
              && id in t.db.credentials
              && DecodeSummary(t.db.summaries[id]).Some?
              && var s := DecodeSummary(t.db.summaries[id]).value;
                 && s.id == id
                 && (t.store.Some? && Get(t.db, t.store.value, id).Some? ==>
                       s == SummaryOf(Get(t.db, t.store.value, id).value, s.owner))
  {
    RunAgrees(w, es);
    var t := Run(w, es);
    if id in t.db.summaries {
      assert SummaryAgrees(t.db, id);
      if t.store.Some? { GetSeesInside(t.db, t.store.value, id); }
    }
  }

  // ---- A single owner ----

  ghost predicate AllOwnedBy(db: Db, owner: string) {
    forall id :: Known(db, id).Some? ==> Known(db, id).value.owner == owner
  }

  ghost predicate OneOwner(es: seq<Event>, owner: string) {
    forall i :: 0 <= i < |es| && (es[i].Put? || es[i].List?) ==> es[i].owner == owner
  }

  lemma PutOwned(db: Db, key: Key, owner: string, c: Credential, nonce: Nonce, id: Id)
    requires AllOwnedBy(db, owner)
    ensures var db' := PutDb(db, key, owner, c, nonce);
            Known(db', id).Some? ==> Known(db', id).value.owner == owner
  {
    SummaryRoundTrip(SummaryOf(c, owner));
    assert id != c.id || owner == "" ==> Known(PutDb(db, key, owner, c, nonce), id) == Known(db, id);
  }

  lemma SummariesUnmoved(w: World, e: Event)
    requires !e.Put? && !e.List? && !e.Delete?
    ensures Step(w, e).db.summaries == w.db.summaries
  {
  }

  lemma StepOwned(w: World, e: Event, owner: string, id: Id)
    requires AllOwnedBy(w.db, owner) && Agrees(w.db)
    requires e.Put? || e.List? ==> e.owner == owner
    ensures Known(Step(w, e).db, id).Some? ==> Known(Step(w, e).db, id).value.owner == owner
  {
    if e.Put? {
      if w.store.Some? {
        var c := Completed(w.db, w.store.value, e.credential, e.now, e.freshId);
        PutOwned(w.db, w.store.value, owner, c, e.nonce, id);
      }
    } else if e.List? {
      if w.store.Some? && Enumerates(e.order, Unlisted(w.db, w.store.value)) {
        ListDbAt(w.db, w.store.value, owner, e.order, id);
      }
    } else if e.Delete? {
      assert Known(DeleteDb(w.db, e.id), id) == (if id == e.id then None else Known(w.db, id));
    } else {
      SummariesUnmoved(w, e);
      assert Known(Step(w, e).db, id) == Known(w.db, id);
    }
  }

  lemma {:induction false} RunOwned(w: World, es: seq<Event>, owner: string)
    requires AllOwnedBy(w.db, owner) && Agrees(w.db) && OneOwner(es, owner) && PutsHaveOwners(es)
    ensures AllOwnedBy(Run(w, es).db, owner)
  {
    if es != [] {
      RunOwned(w, es[..|es| - 1], owner);
      RunAgrees(w, es[..|es| - 1]);
      forall id ensures Known(Run(w, es).db, id).Some? ==> Known(Run(w, es).db, id).value.owner == owner {
        StepOwned(Run(w, es[..|es| - 1]), es[|es| - 1], owner, id);
      }
    }
  }

  /** The stored summaries of records that are not in the new format. */
  function LegacySummaries(db: Db): map<Id, Summary> {
    map id | id in db.summaries && Known(db, id).Some? && id in db.credentials && !db.credentials[id].Tagged?
          :: Known(db, id).value
  }

  /** The summaries of the credentials ListAvailable returns. */
  function AvailableSummaries(db: Db, key: Key, owner: string): map<Id, Summary> {
    map id | id in db.credentials && Get(db, key, id).Some? :: SummaryOf(Get(db, key, id).value, owner)
  }

  /** With one owner, listing returns the summaries of exactly the credentials ListAvailable
      returns, and the stored summaries of the records that are not in the new format. */
  lemma SingleOwnerListing(w: World, es: seq<Event>, owner: string, order: seq<Id>)
    requires owner != "" && Unpinned(w.db) && w.store.None?
    requires AllOwnedBy(w.db, owner) && Agrees(w.db) && OneOwner(es, owner)
    requires var t := Run(w, es); t.store.Some? && Enumerates(order, Unlisted(t.db, t.store.value))
    ensures var t := Run(w, es);
            Listing(t.db, t.store.value, owner, order)
            == AvailableSummaries(t.db, t.store.value, owner) + LegacySummaries(t.db)
  {
    RunAgrees(w, es);
    RunOwned(w, es, owner);
    OpenStoreReadsAll(w, es);
    ListingOfOneOwner(Run(w, es).db, Run(w, es).store.value, owner, order);
  }

  lemma ListingOfOneOwner(db: Db, key: Key, owner: string, order: seq<Id>)
    requires Agrees(db) && AllOwnedBy(db, owner) && Enumerates(order, Unlisted(db, key))
    requires forall id :: id in db.credentials && db.credentials[id].Tagged? ==> Get(db, key, id).Some?
    ensures Listing(db, key, owner, order) == AvailableSummaries(db, key, owner) + LegacySummaries(db)
  {
    var table, expected := Listing(db, key, owner, order), AvailableSummaries(db, key, owner) + LegacySummaries(db);
    forall id
      ensures id in table <==> id in expected
      ensures id in table ==> table[id] == expected[id]
    {
      OneOwnerListsAt(db, key, owner, order, id);
    }
  }

  lemma OneOwnerListsAt(db: Db, key: Key, owner: string, order: seq<Id>, id: Id)
    requires Agrees(db) && AllOwnedBy(db, owner) && Enumerates(order, Unlisted(db, key))
    requires forall x :: x in db.credentials && db.credentials[x].Tagged? ==> Get(db, key, x).Some?
    ensures var table := Listing(db, key, owner, order);
            var expected := AvailableSummaries(db, key, owner) + LegacySummaries(db);
            (id in table <==> id in expected) && (id in table ==> table[id] == expected[id])
  {
    ListingAt(db, key, owner, order, id);
    OneOwnerAt(db, key, owner, id);
  }

  /** What is known about one id when a single owner made all entries. */
  lemma OneOwnerAt(db: Db, key: Key, owner: string, id: Id)
    requires Agrees(db) && AllOwnedBy(db, owner)
    ensures id in Owned(db, owner) <==> Known(db, id).Some?
    ensures id in Owned(db, owner) ==> Owned(db, owner)[id] == Known(db, id).value
    ensures Known(db, id).Some? ==> id in db.credentials
    ensures Known(db, id).Some? && Get(db, key, id).Some? ==>
              Known(db, id).value == SummaryOf(Get(db, key, id).value, owner)
    ensures id in db.credentials && !db.credentials[id].Tagged? ==> Get(db, key, id).None?
  {
    GetSeesInside(db, key, id);
    if id in db.summaries { assert SummaryAgrees(db, id); }
  }
}
