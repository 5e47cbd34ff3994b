/** storage.ts: chain keys for name records, the namehash of a name, and
    reading and creating a name record over the state store. The namehash
    (eth-ens-namehash followed by `Buffer.from(... .slice(2), 'hex')`) is a
    parameter; the codec is the identity. */
module Storage {
  import opened LnsTypes
  import opened Constants
  import opened Hex
  import opened Utils
  import opened Ledger

  /** `getKeyForNode`: `LNS_PREFIX + ":" + node.toString('hex')`. */
  function GetKeyForNode(node: Bytes): (key: string)
    ensures |key| == |LNS_PREFIX| + 1 + 2 * |node|
  {
    LNS_PREFIX + ":" + ToHex(node)
  }

  /** Recovers the node from a chain key of the registry. */
  function NodeForKey(key: string): Option<Bytes>
  {
    var n := |LNS_PREFIX| + 1;
    if |key| >= n && key[..n] == LNS_PREFIX + ":" then FromHex(key[n..]) else None
  }

  lemma NodeForKeyInverts(node: Bytes)
    ensures NodeForKey(GetKeyForNode(node)) == Some(node)
  {
    var key := GetKeyForNode(node);
    var n := |LNS_PREFIX| + 1;
    assert key[..n] == LNS_PREFIX + ":";
    assert key[n..] == ToHex(node);
    FromHexToHex(node);
  }

  /** One key per node: distinct nodes never share a chain entry. */
  lemma GetKeyForNodeInjective(a: Bytes, b: Bytes)
    ensures GetKeyForNode(a) == GetKeyForNode(b) <==> a == b
  {
    if GetKeyForNode(a) == GetKeyForNode(b) {
      NodeForKeyInverts(a);
      NodeForKeyInverts(b);
    }
  }

  /** `getNodeForName`; a function of the name alone. */
  function GetNodeForName(namehash: string -> Node, name: string): Node
  {
    namehash(name)
  }

  /** What `getLNSObject` returns for a chain state. */
  function LookupNode(chain: map<string, LNSNode>, node: Bytes): (r: Option<LNSNode>)
    ensures r.None? <==> GetKeyForNode(node) !in chain
    ensures r.Some? ==> GetKeyForNode(node) in chain && r.value == chain[GetKeyForNode(node)]
  {
    var key := GetKeyForNode(node);
    if key in chain then Some(chain[key]) else None
  }

  /** `getLNSObject`: reads the entry at the node's key, if any. */
  method GetLNSObject(store: StateStore, node: Bytes) returns (r: Option<LNSNode>)
    ensures r == LookupNode(store.chain, node)
  {
    var key := GetKeyForNode(node);
    if key !in store.chain {
      return None;
    }
    var result := store.chain[key];
    r := Some(result);
  }

  /** The parameters of `createLNSObject`: a name record without its timestamps. */
  datatype NewLNSObject = NewLNSObject(
    name: string,
    ttl: int,
    expiry: int,
    ownerAddress: Address,
    records: seq<RecordEntry>)

  /** The record `createLNSObject` writes, given its two clock readings. */
  function StoredRecord(params: NewLNSObject, createdMs: int, updatedMs: int): LNSNode
  {
    LNSNode(params.name, params.ttl, params.expiry, params.ownerAddress, params.records,
            CeilSeconds(createdMs), CeilSeconds(updatedMs))
  }

  /** The chain state after `createLNSObject`: reading the name's node gives the
      new record, and no other key is touched. */
  function ChainAfterCreate(chain: map<string, LNSNode>, namehash: string -> Node,
                            params: NewLNSObject, createdMs: int, updatedMs: int)
    : (chain': map<string, LNSNode>)
    ensures LookupNode(chain', GetNodeForName(namehash, params.name)) ==
            Some(StoredRecord(params, createdMs, updatedMs))
    ensures chain'.Keys == chain.Keys + {GetKeyForNode(GetNodeForName(namehash, params.name))}
    ensures forall k :: k in chain && k != GetKeyForNode(GetNodeForName(namehash, params.name)) ==>
                        chain'[k] == chain[k]
  {
    chain[GetKeyForNode(GetNodeForName(namehash, params.name)) := StoredRecord(params, createdMs, updatedMs)]
  }

  /** With a clock that does not go backwards, `createdAt <= updatedAt`. */
  lemma CreatedNotAfterUpdated(params: NewLNSObject, createdMs: int, updatedMs: int)
    requires createdMs <= updatedMs
    ensures StoredRecord(params, createdMs, updatedMs).createdAt <=
            StoredRecord(params, createdMs, updatedMs).updatedAt
  {
    CeilSecondsMonotone(createdMs, updatedMs);
  }

  /** `createLNSObject`: stamps both times from the clock (two readings) and writes
      the record at the key of its name's node. */
  method CreateLNSObject(store: StateStore, namehash: string -> Node, params: NewLNSObject,
                         createdMs: nat, updatedMs: nat)
    modifies store
    ensures store.chain == ChainAfterCreate(old(store.chain), namehash, params, createdMs, updatedMs)
    ensures store.accounts == old(store.accounts)
  {
    var node := GetNodeForName(namehash, params.name);
    var input := LNSNode(params.name, params.ttl, params.expiry, params.ownerAddress, params.records,
                         CeilSeconds(createdMs), CeilSeconds(updatedMs));
    store.chain := store.chain[GetKeyForNode(node) := input];
  }
}
