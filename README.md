# Lisk Name Service registry, modelled in Dafny

This project models the registry logic of the Lisk Name Service (LNS), an
ENS-like name registry that runs as a Lisk SDK module. An account registers a
second-level name (`example.lsk`). It may then replace the typed records
attached to the name, and it may point its reverse lookup at a name it owns.

The model covers three transaction handlers, each with a `validate` and an
`apply`, and the storage and time helpers they share:

- `RegisterAsset` (register_asset.ts). `Validate` checks the TTL, the term and
  the number of dots, then runs the TLD check. `Transition`/`Apply` refuse a
  name whose node already has a record. Otherwise they create the record and
  append the node to the sender's `lns.ownNodes`.
- `UpdateRecordsAsset` (update_records_asset.ts). `Validate` is a method with
  the source's loop. It checks the record count, the Set-size uniqueness test on
  `type:label` strings, and then each record's type, label length and value
  length. `Transition`/`Apply` check existence, then ownership, then the TTL
  gate, and then replace `records`.
- `ReverseLookupAsset` (reverse_lookup_asset.ts). `Validate` does nothing.
  `Transition`/`Apply` set the sender's `reverseLookup` when the name's node is
  in its `ownNodes`.
- `Storage` (storage.ts). It holds the chain key `LNS_PREFIX + ":" + hex(node)`
  (hex encoding in module `Hex`), `getNodeForName`, and reading and creating a
  record.
- `Decimal` (`type.toString()` in the record key of update_records_asset.ts:28).
  It holds the decimal string of a record type and its inverse.
- `Utils` (utils.ts). It holds `isTTLPassed`, `isExpired` and `addYears`, with
  `Math.ceil(ms / 1000)` written as `(ms + 999) / 1000`.
- `Registry`. It states invariants that the three handlers keep together. It
  also states what one handler's success means for the next one (register
  twice, register then update, register then reverse lookup).

The host's state store is the class `Ledger.StateStore`, with two fields:
`chain: map<string, LNSNode>` and `accounts: map<Address, Account>`. The Lisk
codec is the identity, so the chain holds decoded records. Each `Apply` method
changes the store step by step, as the source does. Its postcondition ties the
result and the new store to a pure `Transition` function of the old snapshot
(`LnsTypes.Commits`). Given that the sender's account exists (see "## Left
out"), every failing path throws before its first write, so on failure the
store is left unchanged. In register_asset.ts the sender's account is read at
:56, after the chain write at :53, so the claim needs that assumption there.
The lemmas are stated about the `Transition` functions.

Some inputs come from outside the core and are parameters of the model:

- `namehash: string -> Node` stands for eth-ens-namehash followed by
  `Buffer.from(hash.slice(2), 'hex')`. It is an arbitrary function that returns
  32 bytes. It is not assumed injective.
- `Calendar` stands for `Date.getFullYear`/`setFullYear`.
- Clock readings are millisecond parameters. Register reads the clock three
  times: once for the expiry (`new Date()` at register_asset.ts:49) and twice
  inside `createLNSObject`.
- The sender address is a parameter.

`getNodeForName` is a Dafny function of the name, so it is deterministic by
construction.

Constants come from constants.ts, which is not part of this model. Two values
are stated in the source: `MIN_TTL_VALUE = 3600`, from the error message
(register_asset.ts:17), and `MAX_RECORDS = 50`, from the comment
(update_records_asset.ts:23). The others are placeholders in
`Constants`: `LNS_PREFIX = "LNS"`, `VALID_TLDS = ["lsk"]`,
`VALID_RECORD_TYPES = [1, 2]`, label length 3..15 and value length 3..255. No
proof depends on these placeholder values.

Where the source's names and comments disagree with its code, the model follows the code:

- The TTL gate is open only BEFORE `updatedAt + ttl`. `isTTLPassed` returns
  `updatedAt + ttl > now`, and `apply` throws when it is false. The name
  `isTTLPassed` and the comment at update_records_asset.ts:85 ("the TTL ... to
  update the records has passed") describe the opposite: a cooldown that must
  elapse before an update.
  `Utils.IsTTLPassedBeforeDeadline` and `Registry.UpdateAfterRegister` state the
  polarity as written.
- `isExpired` adds the absolute `expiry` to `updatedAt` instead of comparing
  against `expiry`. `Utils.IsExpiredIgnoresDeadline` states this.
- The TLD check rejects every name (see Findings).

## Model

| member | source | states |
|---|---|---|
| `Utils.CeilSeconds` | src/app/modules/lns/utils.ts:11 | the result `s` satisfies `1000*(s-1) < ms <= 1000*s`, so it is the clock in whole seconds rounded up |
| `Utils.CeilSecondsIsCeiling` | src/app/modules/lns/utils.ts:11 | `(ms+999)/1000` is `Math.ceil` of the real quotient `ms/1000`: it is not below it, it is less than one above it, and it is the least integer not below it |
| `Utils.CeilSecondsMonotone` | src/app/modules/lns/utils.ts:11 | a later clock never gives an earlier second |
| `Utils.IsTTLPassedBeforeDeadline` | src/app/modules/lns/utils.ts:9-12 | `isTTLPassed` holds exactly when `nowMs <= 1000*(updatedAt+ttl-1)`, so it is true before the TTL elapses and false afterwards |
| `Utils.IsTTLPassedAntiMonotone` | src/app/modules/lns/utils.ts:11 | once `isTTLPassed` is false, it stays false at every later time |
| `Utils.IsExpiredIgnoresDeadline` | src/app/modules/lns/utils.ts:14-17 | `isExpired` holds exactly when `nowMs <= 1000*(updatedAt+expiry-1)`; a record with `updatedAt > 0` whose expiry second is still ahead counts as expired |
| `Utils.AddYears` | src/app/modules/lns/utils.ts:3-7 | returns a fresh Date shifted by the calendar's year change and leaves `now` unchanged |
| `Hex.ToHex` | src/app/modules/lns/storage.ts:7 | the hex string has two characters per byte |
| `Hex.FromHexToHex` | src/app/modules/lns/storage.ts:7 | decoding the hex encoding gives the bytes back |
| `Hex.ToHexInjective` | src/app/modules/lns/storage.ts:7 | two byte strings have the same hex encoding exactly when they are equal |
| `Storage.GetKeyForNode` | src/app/modules/lns/storage.ts:7 | the key's length is `\|LNS_PREFIX\| + 1 + 2*\|node\|` |
| `Storage.NodeForKeyInverts` | src/app/modules/lns/storage.ts:6-7 | the node can be parsed back out of its key |
| `Storage.GetKeyForNodeInjective` | src/app/modules/lns/storage.ts:6-7 | distinct nodes get distinct keys ("unique key for each LNS object") |
| `Storage.LookupNode` | src/app/modules/lns/storage.ts:13-25 | the lookup is none exactly when the node's key has no entry; otherwise it is that entry |
| `Storage.GetLNSObject` | src/app/modules/lns/storage.ts:13-25 | the method returns what `LookupNode` gives for the store's chain |
| `Storage.ChainAfterCreate` | src/app/modules/lns/storage.ts:27-42 | after creation, looking up the name's node gives the record built from the parameters and the two clock readings; the key set grows by that one key; every other entry is unchanged |
| `Storage.CreatedNotAfterUpdated` | src/app/modules/lns/storage.ts:37-38 | with a clock that does not go backwards, `createdAt <= updatedAt` |
| `Storage.CreateLNSObject` | src/app/modules/lns/storage.ts:27-42 | the store's chain becomes `ChainAfterCreate` of the old chain, and the accounts are unchanged |
| `Decimal.NatToString` | src/app/modules/lns/assets/update_records_asset.ts:28 | `type.toString()` is non-empty and made only of decimal digits |
| `Decimal.StringToNatOfNatToString` | src/app/modules/lns/assets/update_records_asset.ts:28 | reading the decimal string back gives the number |
| `Decimal.NatToStringInjective` | src/app/modules/lns/assets/update_records_asset.ts:28 | distinct types have distinct strings |
| `RegisterAsset.Validate` | src/app/modules/lns/assets/register_asset.ts:15-32 | in the source's order: `ttl < MIN_TTL_VALUE` fails; then `registerFor` outside 1..5 fails; then a dot count other than 1 fails; then the TLD check fails for every one-dot name |
| `RegisterAsset.ValidateNeverPasses` | src/app/modules/lns/assets/register_asset.ts:24-31 | as written, `validate` rejects every register asset |
| `RegisterAsset.ValidateIntended` | src/app/modules/lns/assets/register_asset.ts:24-31 | the evidently intended check passes exactly when the TTL, the term, exactly one dot and the suffix after the dot (in `VALID_TLDS`) are all in order |
| `RegisterAsset.TLDCheckRejectsValidName` | src/app/modules/lns/assets/register_asset.ts:24-31 | for every asset named `sld.tld` with no other dots, a valid `tld`, a TTL of at least `MIN_TTL_VALUE` and a term of 1..5 years, the check as written fails with `InvalidTLD` while the intended check passes |
| `RegisterAsset.Transition` | src/app/modules/lns/assets/register_asset.ts:35-63 | fails with `AlreadyRegistered` exactly when the name's node has a record. On success: the node reads back a record with the asset's name and ttl, the computed expiry, `ownerAddress = sender`, empty records and both timestamps. No existing chain entry changes. The sender's `ownNodes` is the old list with the node appended, and its `reverseLookup` is unchanged. No other account changes |
| `RegisterAsset.Apply` | src/app/modules/lns/assets/register_asset.ts:35-63 | the result and the new store are those of `Transition`; on failure the store is unchanged |
| `UpdateRecordsAsset.RecordKeyInjective` | src/app/modules/lns/assets/update_records_asset.ts:28 | two records have the same `type:label` string exactly when they have the same type and label |
| `UpdateRecordsAsset.RecordKeysMembership` | src/app/modules/lns/assets/update_records_asset.ts:28 | the Set holds exactly the keys of the listed records |
| `UpdateRecordsAsset.RecordKeysSize` | src/app/modules/lns/assets/update_records_asset.ts:28-33 | the Set is never larger than the list, and it has the list's size exactly when all keys are distinct |
| `UpdateRecordsAsset.UniqueKeysIffUniqueTypeLabel` | src/app/modules/lns/assets/update_records_asset.ts:28-33 | the Set-size test passes exactly when no two records share a `(type, label)` pair |
| `UpdateRecordsAsset.RecordError` | src/app/modules/lns/assets/update_records_asset.ts:36-65 | a record raises no error exactly when its type is allowed and its label and value lengths are within bounds |
| `UpdateRecordsAsset.FirstInvalid` | src/app/modules/lns/assets/update_records_asset.ts:35-65 | the loop passes exactly when every record is valid; otherwise it fails with the error of a record all of whose predecessors are valid |
| `UpdateRecordsAsset.Verdict` | src/app/modules/lns/assets/update_records_asset.ts:22-66 | passes exactly when there are at most `MAX_RECORDS` records, the `(type, label)` pairs are unique and every record is valid. More than `MAX_RECORDS` fails with `TooManyRecords`; otherwise a repeated pair fails with `DuplicateRecords`; otherwise the loop decides |
| `UpdateRecordsAsset.Validate` | src/app/modules/lns/assets/update_records_asset.ts:22-66 | the method with the source's loop returns `Verdict` of the asset's records |
| `UpdateRecordsAsset.Transition` | src/app/modules/lns/assets/update_records_asset.ts:69-92 | in this order: no record gives `NotRegistered`; a sender other than `ownerAddress` gives `NotOwner`; `isTTLPassed` false gives `MustWaitForTTL`. It succeeds exactly when all three checks pass. On success `records` becomes exactly `asset.records` and no other field of the record changes; no other key and no account changes |
| `UpdateRecordsAsset.Apply` | src/app/modules/lns/assets/update_records_asset.ts:69-92 | the result and the new store are those of `Transition`; on failure the store is unchanged |
| `ReverseLookupAsset.Validate` | src/app/modules/lns/assets/reverse_lookup_asset.ts:13-15 | accepts every asset |
| `ReverseLookupAsset.Find` | src/app/modules/lns/assets/reverse_lookup_asset.ts:21 | `find` returns a value exactly when the node is in `ownNodes`, and that value is the node |
| `ReverseLookupAsset.Transition` | src/app/modules/lns/assets/reverse_lookup_asset.ts:17-28 | fails with `NodeNotOwned` exactly when the name's node is not in the sender's `ownNodes`. On success `reverseLookup` becomes that node, replacing any earlier value. `ownNodes`, all other accounts and the whole chain are unchanged |
| `ReverseLookupAsset.TransitionIdempotent` | src/app/modules/lns/assets/reverse_lookup_asset.ts:26 | applying the same reverse lookup a second time gives the state after the first |
| `ReverseLookupAsset.Apply` | src/app/modules/lns/assets/reverse_lookup_asset.ts:17-28 | the result and the new store are those of `Transition`; on failure the store is unchanged |
| `Registry.EmptyRegistryConsistent` | src/app/modules/lns/assets/register_asset.ts:37-62 | an empty chain whose accounts own nothing satisfies the registry invariants |
| `Registry.RegisterKeepsConsistent` | src/app/modules/lns/assets/register_asset.ts:37-62 | register keeps the invariants: each record's key is its name's key; each record's owner lists its node; each owned node has a record; each reverse lookup is owned |
| `Registry.UpdateRecordsKeepsConsistent` | src/app/modules/lns/assets/update_records_asset.ts:73-91 | update-records keeps the same invariants |
| `Registry.ReverseLookupKeepsConsistent` | src/app/modules/lns/assets/reverse_lookup_asset.ts:18-27 | reverse lookup keeps the same invariants |
| `Registry.RegisterTwiceFails` | src/app/modules/lns/assets/register_asset.ts:39-43 | after a successful registration, registering the same name again fails with `AlreadyRegistered`, whoever sends it |
| `Registry.UpdateAfterRegister` | src/app/modules/lns/assets/update_records_asset.ts:78-91 | after a registration, a sender other than the registrant gets `NotOwner`. The registrant succeeds exactly when the clock's second is before `updatedAt + ttl`, and then the name reads back with the new records |
| `Registry.ReverseLookupAfterRegister` | src/app/modules/lns/assets/reverse_lookup_asset.ts:21-26 | after registering a name, the registrant's reverse lookup of it succeeds and points at its node |

## Left out

- `lns_module.ts` is not part of this model. It is the host wiring, and its
  resolution actions (`lookupAddress`, `resolveName`, `resolveNode`) call
  functions that none of the modelled files define.
- The body of `updateLNSObject` is not part of this model; storage.ts does not
  define it. Only its call-site effect, `records := asset.records`, is
  modelled. `updatedAt`, `createdAt` and every other field keep their values.
  If `updateLNSObject` also stamps `updatedAt`, the model does not capture that.
- The namehash (EIP-137, built on Keccak-256) is foreign code. It is an
  arbitrary `string -> Node` parameter, and nothing assumes it is injective.
- `Date.setFullYear`/`getFullYear` depend on the calendar and time zone.
  They are the `Calendar` parameter, and the expiry is only required to be its
  result.
- The Lisk codec is the identity, so decode failure is out of scope. The state
  store's async API, transaction signatures, fees and nonces are not modelled.
- `RegisterAsset.Apply`, `RegisterAsset.Transition`, `ReverseLookupAsset.Apply`,
  `ReverseLookupAsset.Transition`: require that the sender's account exists.
  `stateStore.account.get` throws otherwise, but the host loads the sender's
  account for fee and nonce handling before any asset is applied.
  Update-records reads the sender's account only for its address, so its model
  compares the sender address directly.
- `UpdateRecordsAsset.Validate`: label and value lengths count Dafny characters,
  not JavaScript's UTF-16 code units, so the two counts differ for characters
  outside the Basic Multilingual Plane.
- The host runs `validate` before `apply`. That sequencing is not modelled:
  each handler is stated on its own.
- Numeric record fields are unbounded integers. The record schema
  (`data/ls_nodes`) is not part of this model, so no encoding width is imposed
  on them.

## Findings

| source | as written | input that shows it | evidently intended | confidence | as-written member | corrected member |
|---|---|---|---|---|---|---|
| src/app/modules/lns/assets/register_asset.ts:29 | `VALID_TLDS.includes(numberOfDots[1])` reads element 1 of the list of `"."` matches. That list has exactly one element at this point, so the element is `undefined` and the check always throws. | `{ name: "alice.lsk", ttl: 3600, registerFor: 1 }` is rejected with the TLD error | the suffix after the dot (`name.split('.')[1]`) is in `VALID_TLDS` | high (not executed) | `RegisterAsset.TLDCheckRejectsValidName` | `RegisterAsset.ValidateIntended` |
