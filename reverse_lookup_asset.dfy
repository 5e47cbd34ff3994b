/** reverse_lookup_asset.ts: the `reverseLookup` transaction (asset id 2). */
module ReverseLookupAsset {
  import opened LnsTypes
  import opened Storage
  import opened Ledger

  datatype ReverseLookupAssetProps = ReverseLookupAssetProps(name: string)

  /** `validate` has an empty body: every asset passes. */
  function Validate(asset: ReverseLookupAssetProps): (v: Outcome<Error>)
    ensures v == Pass
  {
    Pass
  }

  /** `ownNodes.find(n => n.equals(node))`: the first element equal to `node`, if any. */
  function Find(ownNodes: seq<Bytes>, node: Bytes): (r: Option<Bytes>)
    ensures r.Some? <==> node in ownNodes
    ensures r.Some? ==> r.value == node
  {
    if |ownNodes| == 0 then None
    else if ownNodes[0] == node then Some(ownNodes[0])
    else Find(ownNodes[1..], node)
  }

  /** The sender's account with its reverse-lookup node set. */
  function WithReverseLookup(account: Account, node: Bytes): Account
  {
    account.(lns := account.lns.(reverseLookup := Some(node)))
  }

  /** The state transition of `apply`. */
  function Transition(s: Snapshot, asset: ReverseLookupAssetProps, sender: Address,
                      namehash: string -> Node)
    : (t: Result<Snapshot, Error>)
    requires sender in s.accounts
    ensures t.Err? <==> GetNodeForName(namehash, asset.name) !in s.accounts[sender].lns.ownNodes
    ensures t.Err? ==> t.error == NodeNotOwned
    ensures t.Ok? ==>
      && t.value.chain == s.chain
      && t.value.accounts.Keys == s.accounts.Keys
      && t.value.accounts[sender].lns.reverseLookup == Some(GetNodeForName(namehash, asset.name))
      && t.value.accounts[sender].lns.ownNodes == s.accounts[sender].lns.ownNodes
      && forall a :: a in s.accounts && a != sender ==> t.value.accounts[a] == s.accounts[a]
  {
    var node := GetNodeForName(namehash, asset.name);
    var account := s.accounts[sender];
    if Find(account.lns.ownNodes, node).None? then Err(NodeNotOwned)
    else Ok(s.(accounts := s.accounts[sender := WithReverseLookup(account, node)]))
  }

  /** Applying the same reverse lookup twice leaves the state of applying it once. */
  lemma TransitionIdempotent(s: Snapshot, asset: ReverseLookupAssetProps, sender: Address,
                             namehash: string -> Node)
    requires sender in s.accounts
    ensures var t := Transition(s, asset, sender, namehash);
            t.Ok? ==> sender in t.value.accounts && Transition(t.value, asset, sender, namehash) == t
  {
    var t := Transition(s, asset, sender, namehash);
    if t.Ok? {
      var account := s.accounts[sender];
      var node := GetNodeForName(namehash, asset.name);
      var once := WithReverseLookup(account, node);
      assert WithReverseLookup(once, node) == once;
      assert t.value.accounts[sender := once] == t.value.accounts;
    }
  }

  /** `apply`: the node of the name must be among the sender's `ownNodes`; it then
      becomes the sender's `reverseLookup`, replacing any earlier one. */
  method Apply(store: StateStore, asset: ReverseLookupAssetProps, sender: Address,
               namehash: string -> Node)
    returns (r: Outcome<Error>)
    requires sender in store.accounts
    modifies store
    ensures Commits(Transition(old(store.View()), asset, sender, namehash), old(store.View()), r, store.View())
  {
    var node := GetNodeForName(namehash, asset.name);
    var account := store.accounts[sender];
    var found := Find(account.lns.ownNodes, node);
    if found.None? {
      return Fail(NodeNotOwned);
    }
    account := account.(lns := account.lns.(reverseLookup := Some(node)));
    store.accounts := store.accounts[sender := account];
    r := Pass;
  }
}
