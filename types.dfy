/** Values shared by the Lisk Name Service registry: the stored name record,
    the account extension, the error kinds of the three transaction handlers
    and the snapshot of the chain state they work on. */
module LnsTypes {

  newtype byte = x: int | 0 <= x < 256

  type Bytes = seq<byte>

  /** The 32-byte output of the namehash. */
  type Node = s: Bytes | |s| == 32 witness seq(32, _ => 0)

  type Address = Bytes

  type uint32 = x: int | 0 <= x < 0x1_0000_0000

  datatype Option<+T> = None | Some(value: T)

  /** A handler either passes or throws one error. */
  datatype Outcome<+E> = Pass | Fail(error: E)

  datatype Result<+T, +E> = Ok(value: T) | Err(error: E)

  /** One typed entry attached to a name (the source's `type`, `label`, `value`; `type` and
      `label` are Dafny keywords). `recordType` is the numeric record type enum. */
  datatype RecordEntry = RecordEntry(recordType: nat, recordLabel: string, value: string)

  /** The stored name record (LNSNode). Times are in epoch seconds, `ttl` in seconds. */
  datatype LNSNode = LNSNode(
    name: string,
    ttl: int,
    expiry: int,
    ownerAddress: Address,
    records: seq<RecordEntry>,
    createdAt: int,
    updatedAt: int)

  /** The `lns` part of an account: the nodes it registered and its reverse-lookup node. */
  datatype LNSAccountProps = LNSAccountProps(ownNodes: seq<Bytes>, reverseLookup: Option<Bytes>)

  /** An account as this core sees it; the host's other account fields are not modelled. */
  datatype Account = Account(lns: LNSAccountProps)

  /** One error per `throw` of the three handlers, in the order they are checked. */
  datatype Error =
    // register validate
    | TTLBelowMinimum
    | RegisterForOutOfRange
    | NotSecondLevelDomain
    | InvalidTLD
    // register apply
    | AlreadyRegistered
    // update-records validate
    | TooManyRecords
    | DuplicateRecords
    | InvalidRecordType
    | InvalidLabelLength
    | InvalidValueLength
    // update-records apply
    | NotRegistered
    | NotOwner
    | MustWaitForTTL
    // reverse-lookup apply
    | NodeNotOwned

  /** The part of the state snapshot the registry reads and writes: chain entries
      (already decoded) by key, and accounts by address. */
  datatype Snapshot = Snapshot(chain: map<string, LNSNode>, accounts: map<Address, Account>)

  /** `r` and `after` are what a handler leaves when its transition is `t`:
      on success the new snapshot, on failure the error and the old snapshot. */
  predicate Commits(t: Result<Snapshot, Error>, before: Snapshot, r: Outcome<Error>, after: Snapshot)
  {
    match t
    case Ok(s) => r == Pass && after == s
    case Err(e) => r == Fail(e) && after == before
  }
}

/** Stand-ins for constants.ts, which is not shown: only `MIN_TTL_VALUE` and
    `MAX_RECORDS` are stated by the handlers' own text; the others are placeholders. */
module Constants {

  /** Namespace of every chain key written by the registry. */
  const LNS_PREFIX: string := "LNS"

  /** 60 * 60 seconds, as the register handler's error message states. */
  const MIN_TTL_VALUE: nat := 60 * 60

  const VALID_TLDS: seq<string> := ["lsk"]

  /** As the update-records handler's comment states. */
  const MAX_RECORDS: nat := 50

  const VALID_RECORD_TYPES: seq<nat> := [1, 2]

  const MIN_RECORD_LABEL_LENGTH: nat := 3
  const MAX_RECORD_LABEL_LENGTH: nat := 15
  const MIN_RECORD_VALUE_LENGTH: nat := 3
  const MAX_RECORD_VALUE_LENGTH: nat := 255
}

/** The host's state store, reduced to the two key-value views the registry uses. */
module Ledger {
  import opened LnsTypes

  class StateStore {
    /** `stateStore.chain`: key to (decoded) name record. */
    var chain: map<string, LNSNode>
    /** `stateStore.account`: address to account. */
    var accounts: map<Address, Account>

    constructor (chain0: map<string, LNSNode>, accounts0: map<Address, Account>)
      ensures chain == chain0 && accounts == accounts0
    {
      chain := chain0;
      accounts := accounts0;
    }

    function View(): Snapshot
      reads this
    {
      Snapshot(chain, accounts)
    }
  }
}
