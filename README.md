# Home-address book over a hash store

A model of a small HTTP service that keeps one postal address per phone
number in a key-value store. The phone is the key; the address is stored as
a hash of six string fields (`street`, `apartment_number`, `city`,
`state_province`, `postal_code`, `country`). Four handlers act on it:

- create: answers 409 if the phone already exists, otherwise writes the six fields and answers 201;
- read: answers 404 if the phone does not exist, otherwise 200 with the stored address;
- update: answers 404 if the phone does not exist, otherwise writes the six fields and answers 200;
- delete: lists the hash's fields, answers 404 if there are none, otherwise deletes them all and answers 204.

Each 409 or 404 answer carries the phone, and its Russian detail message embeds it.

Files and modules:

- `data_types.dfy`, module `DataTypes`: the phone key (an opaque, already
  validated string), the `HomeAddress` record, `ModelDump` (record to hash)
  and `FromFields` (hash to record, as the response model validates it).
- `redis.dfy`, module `RedisHash`: the store as `map<string, map<string, string>>`
  and the commands the handlers use (`Exists`, `HGetAll`, `HKeys`, `HMSet`,
  `HDel`). The store never holds an empty hash, because a hash loses its key
  when its last field is deleted. This is the invariant `NoEmptyHash`.
- `main.dfy`, module `HomeAddressService`:
  - the answers (`Outcome`, with its status code) and the detail messages;
  - `Create`, `Read`, `Update` and `Delete`, the handlers stated on records;
  - class `AddressBook`, whose methods issue the store commands in the handlers' order and are proved equal to those functions;
  - the lemmas that relate several handlers;
  - `Request`, `Handle` and `Run`, which handle a sequence of requests one after another.

Two points where the store and the framework decide what the handlers do:

- HMSET sets the given fields and keeps any other field of the hash. So an
  update writes the six fields over the stored hash instead of replacing it.
  `UpdateOverwrites` proves that the two agree when every hash holds exactly
  the six address fields. This is always so in a store written only by these
  handlers: one step keeps it (`HandlersKeepOnlyAddresses`), and so does any
  sequence of requests (`RunKeepsOnlyAddresses`).
- Read returns the hash through the `HomeAddress` response model. Extra
  fields are dropped. A hash that lacks one of the six fields fails that
  validation, which gives a server error; the model calls this outcome
  `InvalidResponse`.

## Model

| member | source | states |
|---|---|---|
| `DataTypes.ModelDump` | data_types.py:22-28 | the dump of an address has exactly the six field names, each holding the matching field's value |
| `DataTypes.FromFields` | main.py:69 | a hash validates as an address exactly when all six fields are present, and the address read agrees with the hash on those six fields |
| `DataTypes.DumpRoundTrip` | data_types.py:22-28 | reading back the dump of an address gives that address |
| `DataTypes.OverlayRoundTrip` | main.py:108 | writing an address's fields over any hash and reading back gives exactly that address, with no former value showing through |
| `DataTypes.ModelDumpInjective` | data_types.py:22-28 | two addresses have the same dump exactly when they are equal |
| `RedisHash.Exists` | main.py:60 | EXISTS is true exactly when the key holds a hash, and in a store without empty hashes that hash has fields |
| `RedisHash.HGetAll` | main.py:87 | HGETALL returns the hash under an existing key and an empty hash for a missing one; in a store without empty hashes it is empty exactly when the key does not exist |
| `RedisHash.HKeys` | main.py:119 | HKEYS lists exactly the field names of the hash under the key, and nothing for a missing key |
| `RedisHash.HMSet` | main.py:66 | HMSET leaves the key present, with the given fields set, the hash's other fields kept, every other key untouched, and no empty hash created |
| `RedisHash.HDel` | main.py:126 | HDEL, given at least one field, removes exactly the given fields; the key survives exactly when some field is left; other keys are untouched and no empty hash is created |
| `RedisHash.ExistsIffHasFields` | main.py:119-120 | in a store without empty hashes, EXISTS is true exactly when HKEYS is non-empty, so the delete handler's check agrees with the others' |
| `RedisHash.DeleteAllFieldsRemovesKey` | main.py:119-126 | HDEL of every field HKEYS lists removes the key and changes nothing else |
| `HomeAddressService.Outcome.Status` | main.py:45-123 | each answer's status code: 200 exactly for read and update successes, 4xx or 5xx exactly for the conflict, not-found and server-error answers |
| `HomeAddressService.Detail` | main.py:63 | the detail message is the fixed prefix, the phone, then the suffix of its kind (already in the database, or not found) |
| `HomeAddressService.DetailNamesPhone` | main.py:61-64 | the phone appears in the detail message right after the fixed prefix |
| `HomeAddressService.ConflictAndNotFoundDetailsDiffer` | main.py:63 | a 409 detail message never equals a 404 detail message, whatever the phones |
| `HomeAddressService.DetailInjective` | main.py:82-85 | two error answers have the same detail message exactly when they are the same answer (same kind, same phone) |
| `HomeAddressService.Create` | main.py:45-66 | 409 Conflict carrying the phone exactly when the phone is present, and then the store is unchanged; otherwise 201 and the phone maps to the address's six fields; other keys untouched; no empty hash created |
| `HomeAddressService.Read` | main.py:69-87 | 404 carrying the phone exactly when the phone is absent; otherwise an address that agrees with the stored hash on the six fields, or the server error exactly when a field is missing |
| `HomeAddressService.Update` | main.py:90-108 | 404 carrying the phone exactly when the phone is absent, and then the store is unchanged; otherwise 200 and the stored hash holds the new six values, and every other field of it keeps its value; other keys untouched; no empty hash created |
| `HomeAddressService.Delete` | main.py:111-126 | 404 carrying the phone exactly when the phone is absent, which in a store without empty hashes is exactly when HKEYS lists no field; otherwise 204; either way the phone is absent afterwards and every other key is untouched |
| `HomeAddressService.AddressBook.constructor` | main.py:19-20 | the service starts on a store without empty hashes and holds exactly its contents |
| `HomeAddressService.AddressBook.CreateAddress` | main.py:46-66 | EXISTS, then HMSET: the answer and the new store are those of `Create`, and the store invariant is kept |
| `HomeAddressService.AddressBook.ReadAddress` | main.py:70-87 | EXISTS, then HGETALL through the response model: the answer is that of `Read`, and the store is not modified |
| `HomeAddressService.AddressBook.UpdateAddress` | main.py:91-108 | EXISTS, then HMSET: the answer and the new store are those of `Update`, and the store invariant is kept |
| `HomeAddressService.AddressBook.DeleteAddress` | main.py:112-126 | HKEYS, then HDEL of the listed fields: the answer and the new store are those of `Delete`, which holds only because the store has no empty hash |
| `HomeAddressService.CreateThenRead` | main.py:66-87 | create on an absent phone answers 201, and a following read returns exactly the address written |
| `HomeAddressService.CreateTwiceConflicts` | main.py:60-64 | a second create of the same phone answers 409 and leaves the store as the first left it |
| `HomeAddressService.UpdateThenRead` | main.py:108 | update on a present phone, then read, returns exactly the new address |
| `HomeAddressService.UpdateOverwrites` | main.py:108 | when every hash holds exactly the six fields, update replaces the record with the new address's fields |
| `HomeAddressService.DeleteThenRead` | main.py:119-126 | after delete, read answers 404 |
| `HomeAddressService.CreateThenDeleteRestores` | main.py:111-126 | deleting a freshly created record answers 204 and gives back the store as it was before the create |
| `HomeAddressService.HandlersKeepOnlyAddresses` | main.py:45-126 | create, update and delete keep a store whose hashes hold exactly the six fields, and in such a store read never yields the server error |
| `HomeAddressService.ExampleLifecycle` | data_types.py:33-39 | with the example address: create answers 201, read answers 200 with the same address, delete answers 204, read then answers 404, and the store ends as it began |
| `HomeAddressService.Handle` | main.py:45-126 | one request to any of the four routes changes only the record of the phone it names, a read changes nothing, and the store keeps no empty hash |
| `HomeAddressService.OtherPhonesUnaffected` | main.py:45-126 | every sequence of requests none of which names a phone leaves that phone's record, or its absence, as it was |
| `HomeAddressService.RunKeepsNoEmptyHash` | main.py:45-126 | every sequence of requests, each handled as one atomic step, keeps the store without empty hashes |
| `HomeAddressService.RunKeepsOnlyAddresses` | main.py:45-126 | every sequence of requests keeps a store whose hashes hold exactly the six address fields |

## Left out

- Store client construction, lifespan hook and dependency injection (main.py:12-34), and the host and port taken from the environment (main.py:9-10): I/O plumbing. The store is the `db` field of `AddressBook`.
- The `/` redirect to the documentation (main.py:37-42) and the `print(phone)` diagnostics (main.py:58, main.py:78): user interface and logging.
- Concurrency: the handlers are asynchronous, and the check and the write are two separate store calls, so two concurrent creates can both pass the check. Each handler is modelled as one atomic step. Like the source, the model uses no conditional write (set-if-not-exists).
- Store failures (lost connection, timeouts), which surface as unhandled server errors, and keys holding a value that is not a hash.
- The order of the field list that HKEYS returns: the model uses a set, and HDEL of those fields does not depend on the order.
- Phone parsing and normalisation (data_types.py:12-17): done by a third-party phone-number library with Russian region data. `Phone` is an opaque, already validated key.
- Validation of the request body and the 422 answers for a bad phone or body: library behaviour. Handlers receive a well-formed `HomeAddress`. The JSON-schema example (data_types.py:30-42) is documentation metadata. It omits `state_province`, so that example body would itself fail validation. `ExampleLifecycle` uses the example address with an empty `state_province`.
- `RedisHash.HMSet`: requires at least one field, which is what the store command demands; the handlers always pass six.
- `RedisHash.HDel`: requires at least one field, which is what the store command demands; the delete handler sends HDEL only after HKEYS listed some field.
