/** Properties of the three handlers together: the invariants they keep on the
    chain and account state, and what one handler's success means for the next. */
module Registry {
  import opened LnsTypes
  import opened Utils
  import opened Storage
  import RegisterAsset
  import UpdateRecordsAsset
  import ReverseLookupAsset

  /** The registry's invariants over a snapshot:
      every record sits at the key of its own name's node; its owner is an account
      that lists that node; every listed node has a record; and every reverse-lookup
      node is one of its account's own nodes. */
  predicate Consistent(s: Snapshot, namehash: string -> Node)
  {
    && (forall k | k in s.chain :: k == GetKeyForNode(namehash(s.chain[k].name)))
    && (forall k | k in s.chain ::
          s.chain[k].ownerAddress in s.accounts &&
          namehash(s.chain[k].name) in s.accounts[s.chain[k].ownerAddress].lns.ownNodes)
    && (forall a, n | a in s.accounts && n in s.accounts[a].lns.ownNodes :: GetKeyForNode(n) in s.chain)
    && (forall a | a in s.accounts && s.accounts[a].lns.reverseLookup.Some? ::
          s.accounts[a].lns.reverseLookup.value in s.accounts[a].lns.ownNodes)
  }

  /** A chain without records and accounts that own nothing are consistent. */
  lemma EmptyRegistryConsistent(accounts: map<Address, Account>, namehash: string -> Node)
    requires forall a | a in accounts :: accounts[a].lns == LNSAccountProps([], None)
    ensures Consistent(Snapshot(map[], accounts), namehash)
  {
  }

  lemma RegisterKeepsConsistent(s: Snapshot, asset: RegisterAsset.RegisterAssetProps, sender: Address,
                                namehash: string -> Node, cal: Calendar,
                                nowMs: int, createdMs: int, updatedMs: int)
    requires sender in s.accounts
    requires Consistent(s, namehash)
    ensures var t := RegisterAsset.Transition(s, asset, sender, namehash, cal, nowMs, createdMs, updatedMs);
            t.Ok? ==> Consistent(t.value, namehash)
  {
    var t := RegisterAsset.Transition(s, asset, sender, namehash, cal, nowMs, createdMs, updatedMs);
    if t.Ok? {
      var s' := t.value;
      var node := GetNodeForName(namehash, asset.name);
      var key := GetKeyForNode(node);
      assert s'.chain[key].name == asset.name;
      forall k | k in s'.chain
        ensures s'.chain[k].ownerAddress in s'.accounts
        ensures namehash(s'.chain[k].name) in s'.accounts[s'.chain[k].ownerAddress].lns.ownNodes
      {
        if k != key {
          var o := s.chain[k].ownerAddress;
          assert namehash(s.chain[k].name) in s.accounts[o].lns.ownNodes;
          if o == sender {
            assert s.accounts[o].lns.ownNodes <= s'.accounts[o].lns.ownNodes by {
              assert s'.accounts[o].lns.ownNodes == s.accounts[o].lns.ownNodes + [node];
            }
          }
        } else {
          assert s'.accounts[sender].lns.ownNodes[|s'.accounts[sender].lns.ownNodes| - 1] == node;
        }
      }
      forall a, n | a in s'.accounts && n in s'.accounts[a].lns.ownNodes
        ensures GetKeyForNode(n) in s'.chain
      {
        if a == sender && n !in s.accounts[a].lns.ownNodes {
          assert s'.accounts[a].lns.ownNodes == s.accounts[a].lns.ownNodes + [node];
          assert n == node;
        }
      }
      forall a | a in s'.accounts && s'.accounts[a].lns.reverseLookup.Some?
        ensures s'.accounts[a].lns.reverseLookup.value in s'.accounts[a].lns.ownNodes
      {
        if a == sender {
          assert s'.accounts[a].lns.ownNodes == s.accounts[a].lns.ownNodes + [node];
        }
      }
    }
  }

  lemma UpdateRecordsKeepsConsistent(s: Snapshot, asset: UpdateRecordsAsset.UpdateRecordsAssetProps,
                                     sender: Address, namehash: string -> Node, nowMs: int)
    requires Consistent(s, namehash)
    ensures var t := UpdateRecordsAsset.Transition(s, asset, sender, namehash, nowMs);
            t.Ok? ==> Consistent(t.value, namehash)
  {
    var t := UpdateRecordsAsset.Transition(s, asset, sender, namehash, nowMs);
    if t.Ok? {
      assert forall k | k in t.value.chain ::
        t.value.chain[k].name == s.chain[k].name && t.value.chain[k].ownerAddress == s.chain[k].ownerAddress;
    }
  }

  lemma ReverseLookupKeepsConsistent(s: Snapshot, asset: ReverseLookupAsset.ReverseLookupAssetProps,
                                     sender: Address, namehash: string -> Node)
    requires sender in s.accounts
    requires Consistent(s, namehash)
    ensures var t := ReverseLookupAsset.Transition(s, asset, sender, namehash);
            t.Ok? ==> Consistent(t.value, namehash)
  {
  }

  /** A second registration of a name (by anyone, with any term) fails, so the
      first registration's record stays as it was. */
  lemma RegisterTwiceFails(s: Snapshot, asset: RegisterAsset.RegisterAssetProps, sender: Address,
                           again: RegisterAsset.RegisterAssetProps, sender2: Address,
                           namehash: string -> Node, cal: Calendar,
                           nowMs: int, createdMs: int, updatedMs: int,
                           nowMs2: int, createdMs2: int, updatedMs2: int)
    requires sender in s.accounts && sender2 in s.accounts
    requires again.name == asset.name
    ensures var t := RegisterAsset.Transition(s, asset, sender, namehash, cal, nowMs, createdMs, updatedMs);
            t.Ok? ==>
              sender2 in t.value.accounts &&
              RegisterAsset.Transition(t.value, again, sender2, namehash, cal, nowMs2, createdMs2, updatedMs2) ==
                Err(AlreadyRegistered)
  {
  }

  /** Right after a registration the owner may update the records, as long as the
      clock's second is before `updatedAt + ttl`; from that second on the TTL gate
      refuses every update. Anyone else is refused as not the owner. */
  lemma UpdateAfterRegister(s: Snapshot, asset: RegisterAsset.RegisterAssetProps, sender: Address,
                            namehash: string -> Node, cal: Calendar,
                            nowMs: int, createdMs: int, updatedMs: int,
                            records: seq<RecordEntry>, updater: Address, updateMs: int)
    requires sender in s.accounts
    ensures var t := RegisterAsset.Transition(s, asset, sender, namehash, cal, nowMs, createdMs, updatedMs);
            var u := UpdateRecordsAsset.UpdateRecordsAssetProps(asset.name, records);
            t.Ok? ==>
              var t2 := UpdateRecordsAsset.Transition(t.value, u, updater, namehash, updateMs);
              && (updater != sender ==> t2 == Err(NotOwner))
              && (updater == sender ==>
                    (t2.Ok? <==> CeilSeconds(updateMs) < CeilSeconds(updatedMs) + asset.ttl))
              && (t2.Ok? ==>
                    LookupNode(t2.value.chain, GetNodeForName(namehash, asset.name)) ==
                      Some(LNSNode(asset.name, asset.ttl, RegisterAsset.Expiry(cal, nowMs, asset.registerFor),
                                   sender, records, CeilSeconds(createdMs), CeilSeconds(updatedMs))))
  {
  }

  /** Right after a registration the registrant can point its reverse lookup at the name. */
  lemma ReverseLookupAfterRegister(s: Snapshot, asset: RegisterAsset.RegisterAssetProps, sender: Address,
                                   namehash: string -> Node, cal: Calendar,
                                   nowMs: int, createdMs: int, updatedMs: int)
    requires sender in s.accounts
    ensures var t := RegisterAsset.Transition(s, asset, sender, namehash, cal, nowMs, createdMs, updatedMs);
            t.Ok? ==>
              sender in t.value.accounts &&
              var t2 := ReverseLookupAsset.Transition(t.value, ReverseLookupAsset.ReverseLookupAssetProps(asset.name),
                                                      sender, namehash);
              t2.Ok? && t2.value.accounts[sender].lns.reverseLookup == Some(GetNodeForName(namehash, asset.name))
  {
  }
}
