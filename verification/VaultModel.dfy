/** The credential vault on values: what is stored, what opens it, and what each operation
    does to a database. Cryptography is ideal: a box opens only under the key and the id it
    was sealed with, a hash is its argument, and a derived key is its password and salt. */
module VaultModel {
  import opened Wrappers

  type Id = string
  type Time = int
  const ZERO_TIME: Time := 0

  datatype Credential = Credential(
    id: Id, name: string, host: string, port: int, username: string,
    privateKey: string, passphrase: string, term: string, useHerdr: bool,
    createdAt: Time, updatedAt: Time)

  datatype Summary = Summary(
    id: Id, owner: string, name: string, host: string, port: int, username: string, term: string,
    useHerdr: bool, hasPrivateKey: bool, hasPassphrase: bool, updatedAt: Time)

  function SummaryOf(c: Credential, owner: string): Summary {
    Summary(c.id, owner, c.name, c.host, c.port, c.username, c.term, c.useHerdr,
            c.privateKey != "", c.passphrase != "", c.updatedAt)
  }

  // ---- JSON documents: the fields, and the older name of one of them ----

  datatype Plain = Doc(fields: Credential, useTmux: bool) | NotJson

  function EncodeCredential(c: Credential): Plain { Doc(c, c.useHerdr) }

  function DecodeCredential(p: Plain): Option<Credential> {
    if p.Doc? then Some(p.fields.(useHerdr := p.fields.useHerdr || p.useTmux)) else None
  }

  datatype RawSummary = SummaryDoc(fields: Summary, useTmux: bool) | Corrupt

  function EncodeSummary(s: Summary): RawSummary { SummaryDoc(s, s.useHerdr) }

  function DecodeSummary(r: RawSummary): Option<Summary> {
    if r.SummaryDoc? then Some(r.fields.(useHerdr := r.fields.useHerdr || r.useTmux)) else None
  }

  // ---- Keys and sealed records ----

  type Nibble = n: int | 0 <= n < 16
  type Salt = string
  type Nonce = string

  const KEY_DIGITS: nat := 64
  const V2_PREFIX: string := "GWS2"

  datatype Key = Master(digits: seq<Nibble>) | Argon2(password: string, salt: Salt)

  datatype Fingerprint = Sha256(key: Key)

  datatype Box = Box(nonce: Nonce, key: Key, aad: Id, plain: Plain)

  /** A stored value: a bare box as earlier versions wrote it, a box behind the version
      prefix, or bytes that are neither. */
  datatype Blob = Sealed(box: Box) | Tagged(box: Box) | Junk(bytes: string)

  predicate StartsV2(s: string) {
    |s| >= |V2_PREFIX| && s[..|V2_PREFIX|] == V2_PREFIX
  }

  /** The version test looks at the first four bytes only; in a bare box those are the
      start of its nonce. */
  predicate IsV2(b: Blob) {
    match b
    case Sealed(box) => StartsV2(box.nonce)
    case Tagged(_) => true
    case Junk(bytes) => |bytes| > |V2_PREFIX| && StartsV2(bytes)
  }

  function OpenBox(key: Key, box: Box, aad: Id): Option<Plain> {
    if box.key == key && box.aad == aad then Some(box.plain) else None
  }

  /** Dropping four bytes of anything but a tagged box leaves nothing that opens. */
  function DecryptRecord(key: Key, b: Blob, id: Id): Option<Plain> {
    if b.Tagged? then OpenBox(key, b.box, id) else None
  }

  /** Legacy decryption is only ever asked about records the version test turns down. */
  function DecryptLegacy(key: Key, b: Blob, id: Id): Option<Plain> {
    if b.Sealed? then OpenBox(key, b.box, id) else None
  }

  function EncryptV2(key: Key, plain: Plain, id: Id, nonce: Nonce): Blob {
    Tagged(Box(nonce, key, id, plain))
  }

  function Reads(p: Option<Plain>): Option<Credential> {
    if p.Some? then DecodeCredential(p.value) else None
  }

  // ---- The database and its operations ----

  datatype Db = Db(salt: Option<Salt>, fingerprint: Option<Fingerprint>,
                   credentials: map<Id, Blob>, summaries: map<Id, RawSummary>)

  function Get(db: Db, key: Key, id: Id): Option<Credential> {
    if id in db.credentials then Reads(DecryptRecord(key, db.credentials[id], id)) else None
  }

  /** The credential PutForUser stores and returns. */
  function Completed(db: Db, key: Key, c: Credential, now: Time, freshId: Id): Credential {
    var c1 := if c.id == "" then c.(id := freshId, createdAt := now)
              else if c.createdAt == ZERO_TIME && Get(db, key, c.id).Some? then
                c.(createdAt := Get(db, key, c.id).value.createdAt)
              else c;
    c1.(updatedAt := now,
        port := if c1.port == 0 then 22 else c1.port,
        term := if c1.term == "" then "xterm-256color" else c1.term)
  }

  function PutDb(db: Db, key: Key, owner: string, c: Credential, nonce: Nonce): Db {
    var db1 := db.(credentials := db.credentials[c.id := EncryptV2(key, EncodeCredential(c), c.id, nonce)]);
    if owner == "" then db1
    else db1.(summaries := db.summaries[c.id := EncodeSummary(SummaryOf(c, owner))])
  }

  function DeleteDb(db: Db, id: Id): Db {
    db.(credentials := db.credentials - {id}, summaries := db.summaries - {id})
  }

  /** What ListAvailable finds: every record that opens and decodes. */
  function Available(db: Db, key: Key): map<Id, Credential> {
    map id | id in db.credentials && Get(db, key, id).Some? :: Get(db, key, id).value
  }

  function Legacy(db: Db): set<Id> {
    set id | id in db.credentials && !IsV2(db.credentials[id])
  }

  /** The summary stored under an id, if there is one and it reads. */
  function Known(db: Db, id: Id): Option<Summary> {
    if id in db.summaries then DecodeSummary(db.summaries[id]) else None
  }

  function Owned(db: Db, owner: string): map<Id, Summary> {
    map id | id in db.summaries && Known(db, id).Some? && Known(db, id).value.owner == owner :: Known(db, id).value
  }

  /** The records ListSummaries has to backfill: they open and have no readable summary. */
  function Unlisted(db: Db, key: Key): set<Id> {
    set id | id in db.credentials && Get(db, key, id).Some? && Known(db, id).None?
  }

  /** Backfilled summaries go under the id inside the credential, in some order. */
  function Backfill(db: Db, key: Key, owner: string, order: seq<Id>): seq<Summary>
    requires forall i :: 0 <= i < |order| ==> Get(db, key, order[i]).Some?
  {
    if order == [] then []
    else Backfill(db, key, owner, order[..|order| - 1])
         + [SummaryOf(Get(db, key, order[|order| - 1]).value, owner)]
  }

  function PutSummaries(summaries: map<Id, RawSummary>, list: seq<Summary>): map<Id, RawSummary> {
    if list == [] then summaries
    else
      var last := list[|list| - 1];
      PutSummaries(summaries, list[..|list| - 1])[last.id := EncodeSummary(last)]
  }

  /** The in-memory table of ListSummaries: the owner's stored summaries, then the new ones. */
  function Table(stored: map<Id, Summary>, list: seq<Summary>): map<Id, Summary> {
    if list == [] then stored
    else
      var last := list[|list| - 1];
      Table(stored, list[..|list| - 1])[last.id := last]
  }

  /** The order visits each record to backfill once. */
  ghost predicate Enumerates(order: seq<Id>, ids: set<Id>) {
    && (forall i :: 0 <= i < |order| ==> order[i] in ids)
    && (forall id :: id in ids ==> id in order)
    && (forall i, j :: 0 <= i < j < |order| ==> order[i] != order[j])
    && |order| == |ids|
  }

  function ListDb(db: Db, key: Key, owner: string, order: seq<Id>): Db
    requires forall i :: 0 <= i < |order| ==> Get(db, key, order[i]).Some?
  {
    db.(summaries := PutSummaries(db.summaries, Backfill(db, key, owner, order)))
  }

  function Listing(db: Db, key: Key, owner: string, order: seq<Id>): map<Id, Summary>
    requires forall i :: 0 <= i < |order| ==> Get(db, key, order[i]).Some?
  {
    Table(Owned(db, owner), Backfill(db, key, owner, order))
  }

  // ---- Migration ----

  function LegacyKey(db: Db, password: string): Key {
    Argon2(password, SaltOf(db))
  }

  function SaltOf(db: Db): Salt { if db.salt.Some? then db.salt.value else "" }

  predicate Migratable(db: Db, password: string, id: Id) {
    && id in Legacy(db)
    && Reads(DecryptLegacy(LegacyKey(db, password), db.credentials[id], id)).Some?
  }

  function MigratableIds(db: Db, password: string): set<Id> {
    set id | id in db.credentials && Migratable(db, password, id)
  }

  /** The plaintext is sealed again as it is, byte for byte. */
  function Resealed(db: Db, key: Key, password: string, id: Id, nonce: Nonce): Blob
    requires Migratable(db, password, id)
  {
    EncryptV2(key, DecryptLegacy(LegacyKey(db, password), db.credentials[id], id).value, id, nonce)
  }

  function MigrateDb(db: Db, key: Key, password: string, nonces: map<Id, Nonce>): Db
    requires MigratableIds(db, password) <= nonces.Keys
  {
    db.(credentials := map id | id in db.credentials ::
          if Migratable(db, password, id) then Resealed(db, key, password, id, nonces[id]) else db.credentials[id])
  }
}
