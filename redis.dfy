/** The part of the key-value store the handlers rely on: a database of
    hashes (field -> string maps) addressed by string keys, and the hash
    commands EXISTS, HGETALL, HKEYS, HMSET and HDEL. The store never holds an
    empty hash: a hash whose last field is deleted ceases to exist. */
module RedisHash {

  type Hash = map<string, string>
  type Db = map<string, Hash>

  /** The store invariant: no key maps to an empty hash. */
  ghost predicate NoEmptyHash(db: Db) {
    forall k :: k in db ==> db[k] != map[]
  }

  /** `db` and `db'` hold the same entries under every key other than `key`. */
  ghost predicate AgreeExcept(db: Db, db': Db, key: string) {
    forall k :: k != key ==> (k in db <==> k in db') && (k in db ==> db[k] == db'[k])
  }

  /** EXISTS key: whether the key holds a hash, which in a store without
      empty hashes means a hash with at least one field. */
  function Exists(db: Db, key: string): (b: bool)
    ensures b <==> key in db
    ensures b && NoEmptyHash(db) ==> db[key] != map[]
  {
    key in db
  }

  /** HGETALL key: the hash stored under `key`, empty when there is none. */
  function HGetAll(db: Db, key: string): (h: Hash)
    ensures Exists(db, key) ==> h == db[key]
    ensures !Exists(db, key) ==> h == map[]
    ensures NoEmptyHash(db) ==> (h == map[] <==> !Exists(db, key))
  {
    if key in db then db[key] else map[]
  }

  /** HKEYS key: the field names of the hash under `key` (their order is not modelled). */
  function HKeys(db: Db, key: string): (fields: set<string>)
    ensures forall f :: f in fields <==> f in HGetAll(db, key)
    ensures !Exists(db, key) ==> fields == {}
  {
    HGetAll(db, key).Keys
  }

  /** HMSET key field value ...: sets the given fields, keeping the hash's
      other fields; the command needs at least one field. */
  function HMSet(db: Db, key: string, fields: Hash): (db': Db)
    requires fields != map[]
    ensures key in db'
    ensures forall f :: f in fields ==> f in db'[key] && db'[key][f] == fields[f]
    ensures forall f :: f in HGetAll(db, key) && f !in fields ==>
              f in db'[key] && db'[key][f] == HGetAll(db, key)[f]
    ensures db'[key].Keys == HGetAll(db, key).Keys + fields.Keys
    ensures AgreeExcept(db, db', key)
    ensures NoEmptyHash(db) ==> NoEmptyHash(db')
  {
    db[key := HGetAll(db, key) + fields]
  }

  /** HDEL key field ...: removes the given fields; when none is left the key
      itself disappears; the command needs at least one field. */
  function HDel(db: Db, key: string, fields: set<string>): (db': Db)
    requires fields != {}
    ensures HGetAll(db', key) == HGetAll(db, key) - fields
    ensures key in db' <==> HKeys(db, key) - fields != {}
    ensures AgreeExcept(db, db', key)
    ensures NoEmptyHash(db) ==> NoEmptyHash(db')
  {
    var rest := HGetAll(db, key) - fields;
    if rest == map[] then db - {key} else db[key := rest]
  }

  /** Under the store invariant, a key exists exactly when its hash has fields. */
  lemma ExistsIffHasFields(db: Db, key: string)
    requires NoEmptyHash(db)
    ensures Exists(db, key) <==> HKeys(db, key) != {}
  {
  }

  /** Deleting every field of a hash deletes the key and nothing else. */
  lemma DeleteAllFieldsRemovesKey(db: Db, key: string)
    requires HKeys(db, key) != {}
    ensures HDel(db, key, HKeys(db, key)) == db - {key}
  {
  }
}
