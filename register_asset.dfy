/** register_asset.ts: the `register` transaction (asset id 0). */
module RegisterAsset {
  import opened LnsTypes
  import opened Constants
  import opened Utils
  import opened Storage
  import opened Ledger

  /** The register asset: `registerFor` and `ttl` are uint32 fields of its schema. */
  datatype RegisterAssetProps = RegisterAssetProps(name: string, ttl: uint32, registerFor: uint32)

  function CountDots(s: string): nat
  {
    if |s| == 0 then 0 else (if s[0] == '.' then 1 else 0) + CountDots(s[1..])
  }

  lemma {:induction false} CountDotsConcat(a: string, b: string)
    ensures CountDots(a + b) == CountDots(a) + CountDots(b)
  {
    if |a| > 0 {
      assert (a + b)[1..] == a[1..] + b;
      CountDotsConcat(a[1..], b);
    } else {
      assert a + b == b;
    }
  }

  /** `name.match(/\./g)`: null when there is no dot, otherwise one "." per dot. */
  function DotMatches(name: string): (m: Option<seq<string>>)
  {
    if CountDots(name) == 0 then None else Some(seq(CountDots(name), _ => "."))
  }

  /** JavaScript indexing `xs[i]`, with `undefined` past the end. */
  function ElementAt(xs: seq<string>, i: nat): Option<string>
  {
    if i < |xs| then Some(xs[i]) else None
  }

  /** `VALID_TLDS.includes(v)`: `undefined` equals no string. */
  predicate Includes(xs: seq<string>, v: Option<string>)
  {
    v.Some? && v.value in xs
  }

  /** `validate`, as written: the TLD check reads element 1 of the dot matches. */
  function Validate(asset: RegisterAssetProps): (v: Outcome<Error>)
    ensures asset.ttl < MIN_TTL_VALUE ==> v == Fail(TTLBelowMinimum)
    ensures asset.ttl >= MIN_TTL_VALUE && (asset.registerFor < 1 || asset.registerFor > 5) ==>
            v == Fail(RegisterForOutOfRange)
    ensures asset.ttl >= MIN_TTL_VALUE && 1 <= asset.registerFor <= 5 && CountDots(asset.name) != 1 ==>
            v == Fail(NotSecondLevelDomain)
    ensures asset.ttl >= MIN_TTL_VALUE && 1 <= asset.registerFor <= 5 && CountDots(asset.name) == 1 ==>
            v == Fail(InvalidTLD)
  {
    if asset.ttl < MIN_TTL_VALUE then Fail(TTLBelowMinimum)
    else if asset.registerFor < 1 || asset.registerFor > 5 then Fail(RegisterForOutOfRange)
    else
      var numberOfDots := DotMatches(asset.name);
      if numberOfDots.None? || |numberOfDots.value| > 1 then Fail(NotSecondLevelDomain)
      else if !Includes(VALID_TLDS, ElementAt(numberOfDots.value, 1)) then Fail(InvalidTLD)
      else Pass
  }

  /** As written, `validate` accepts no register asset at all. */
  lemma ValidateNeverPasses(asset: RegisterAssetProps)
    ensures Validate(asset).Fail?
  {
  }

  /** The part of a name after its first dot: `name.split('.')[1]` for a one-dot name. */
  function AfterFirstDot(s: string): string
  {
    if |s| == 0 then "" else if s[0] == '.' then s[1..] else AfterFirstDot(s[1..])
  }

  lemma {:induction false} AfterFirstDotOfSld(sld: string, tld: string)
    requires CountDots(sld) == 0
    ensures AfterFirstDot(sld + "." + tld) == tld
  {
    if |sld| > 0 {
      assert (sld + "." + tld)[1..] == sld[1..] + "." + tld;
      AfterFirstDotOfSld(sld[1..], tld);
    } else {
      assert sld + "." + tld == "." + tld;
    }
  }

  /** `validate` with the TLD check it evidently means: the suffix after the dot
      is a valid TLD. */
  function ValidateIntended(asset: RegisterAssetProps): (v: Outcome<Error>)
    ensures v.Pass? <==> asset.ttl >= MIN_TTL_VALUE && 1 <= asset.registerFor <= 5 &&
                         CountDots(asset.name) == 1 && AfterFirstDot(asset.name) in VALID_TLDS
  {
    if asset.ttl < MIN_TTL_VALUE then Fail(TTLBelowMinimum)
    else if asset.registerFor < 1 || asset.registerFor > 5 then Fail(RegisterForOutOfRange)
    else
      var numberOfDots := DotMatches(asset.name);
      if numberOfDots.None? || |numberOfDots.value| > 1 then Fail(NotSecondLevelDomain)
      else if !Includes(VALID_TLDS, Some(AfterFirstDot(asset.name))) then Fail(InvalidTLD)
      else Pass
  }

  /** The TLD check as written turns down every well-formed second-level name
      (`sld.tld` with a valid `tld`, any allowed TTL and term), which the
      intended check accepts. */
  lemma TLDCheckRejectsValidName(asset: RegisterAssetProps, sld: string, tld: string)
    requires asset.name == sld + "." + tld
    requires CountDots(sld) == 0 && CountDots(tld) == 0
    requires tld in VALID_TLDS
    requires asset.ttl >= MIN_TTL_VALUE && 1 <= asset.registerFor <= 5
    ensures Validate(asset) == Fail(InvalidTLD)
    ensures ValidateIntended(asset) == Pass
  {
    CountDotsConcat(sld, ".");
    CountDotsConcat(sld + ".", tld);
    assert CountDots(".") == 1 by { assert "."[1..] == ""; }
    AfterFirstDotOfSld(sld, tld);
  }

  /** The expiry `apply` computes: `Math.ceil(addYears(new Date(), registerFor).getTime() / 1000)`. */
  function Expiry(cal: Calendar, nowMs: int, registerFor: int): int
  {
    CeilSeconds(AddYearsMs(cal, nowMs, registerFor))
  }

  /** The sender's account after registering `node`: the node appended to `ownNodes`. */
  function WithOwnNode(account: Account, node: Bytes): Account
  {
    account.(lns := account.lns.(ownNodes := account.lns.ownNodes + [node]))
  }

  /** The state transition of `apply`. `nowMs` is the clock reading for the expiry,
      `createdMs` and `updatedMs` the two readings inside `createLNSObject`. */
  function Transition(s: Snapshot, asset: RegisterAssetProps, sender: Address,
                      namehash: string -> Node, cal: Calendar,
                      nowMs: int, createdMs: int, updatedMs: int)
    : (t: Result<Snapshot, Error>)
    requires sender in s.accounts
    ensures t.Err? <==> LookupNode(s.chain, GetNodeForName(namehash, asset.name)).Some?
    ensures t.Err? ==> t.error == AlreadyRegistered
    ensures t.Ok? ==>
      LookupNode(t.value.chain, GetNodeForName(namehash, asset.name)) ==
        Some(LNSNode(asset.name, asset.ttl, Expiry(cal, nowMs, asset.registerFor), sender, [],
                     CeilSeconds(createdMs), CeilSeconds(updatedMs)))
    ensures t.Ok? ==>
      t.value.chain.Keys == s.chain.Keys + {GetKeyForNode(GetNodeForName(namehash, asset.name))} &&
      forall k :: k in s.chain ==> t.value.chain[k] == s.chain[k]
    ensures t.Ok? ==>
      t.value.accounts.Keys == s.accounts.Keys &&
      t.value.accounts[sender].lns.ownNodes ==
        s.accounts[sender].lns.ownNodes + [GetNodeForName(namehash, asset.name)] &&
      t.value.accounts[sender].lns.reverseLookup == s.accounts[sender].lns.reverseLookup &&
      forall a :: a in s.accounts && a != sender ==> t.value.accounts[a] == s.accounts[a]
  {
    var node := GetNodeForName(namehash, asset.name);
    if LookupNode(s.chain, node).Some? then Err(AlreadyRegistered)
    else
      var lnsObject := NewLNSObject(asset.name, asset.ttl, Expiry(cal, nowMs, asset.registerFor), sender, []);
      Ok(Snapshot(ChainAfterCreate(s.chain, namehash, lnsObject, createdMs, updatedMs),
                  s.accounts[sender := WithOwnNode(s.accounts[sender], node)]))
  }

  /** `apply`: refuses a name whose node already has a record, otherwise creates
      the record and appends the node to the sender's `ownNodes`. */
  method Apply(store: StateStore, asset: RegisterAssetProps, sender: Address,
               namehash: string -> Node, cal: Calendar,
               nowMs: nat, createdMs: nat, updatedMs: nat)
    returns (r: Outcome<Error>)
    requires sender in store.accounts
    modifies store
    ensures Commits(Transition(old(store.View()), asset, sender, namehash, cal, nowMs, createdMs, updatedMs),
                    old(store.View()), r, store.View())
  {
    var node := GetNodeForName(namehash, asset.name);
    var existingDomain := GetLNSObject(store, node);
    if existingDomain.Some? {
      return Fail(AlreadyRegistered);
    }
    var now := new Date(nowMs);
    var expiryDate := AddYears(cal, now, asset.registerFor);
    var lnsObject := NewLNSObject(asset.name, asset.ttl, CeilSeconds(expiryDate.time), sender, []);
    CreateLNSObject(store, namehash, lnsObject, createdMs, updatedMs);
    var account := store.accounts[sender];
    account := account.(lns := account.lns.(ownNodes := account.lns.ownNodes + [node]));
    store.accounts := store.accounts[sender := account];
    r := Pass;
  }
}
