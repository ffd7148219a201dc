/** The check that an upgrade force-deploys exactly the contracts it changes. */
module ForceDeployments {
  import opened Wrappers
  import opened UpgradeHistory

  /** Decoding of the calldata by the contract's interface; nothing if it does not decode. */
  type Decoder = string -> Option<seq<ForcedDeployment>>

  function LowerChar(c: char): char {
    if 'A' <= c <= 'Z' then (c as int + 32) as char else c
  }

  function Lower(s: string): string {
    seq(|s|, i requires 0 <= i < |s| => LowerChar(s[i]))
  }

  // ---------------------------------------------------------------------------------------------
  // What the check is meant to establish
  // ---------------------------------------------------------------------------------------------

  predicate IsPlain(deployment: ForcedDeployment) {
    deployment.value == 0 && deployment.input == "0x" && !deployment.callConstructor
  }

  predicate DistinctHashes(deployments: seq<ForcedDeployment>) {
    forall i, j :: 0 <= i < j < |deployments| ==> deployments[i].bytecodeHash != deployments[j].bytecodeHash
  }

  /** The contracts that the upgrade lists. */
  predicate IsChanged(contracts: Contracts, name: string) {
    name in contracts && contracts[name].wasChanged
  }

  /** A deployment puts the new bytecode of a contract at the contract's address. */
  predicate Deploys(deployment: ForcedDeployment, contracts: Contracts, name: string)
    requires name in contracts
  {
    && deployment.bytecodeHash == contracts[name].bytecode
    && name in SYSTEM_CONTRACT_MAP && deployment.newAddress == SYSTEM_CONTRACT_MAP[name]
  }

  ghost predicate IsDeployed(deployments: seq<ForcedDeployment>, contracts: Contracts, name: string)
    requires name in contracts
  {
    exists i :: 0 <= i < |deployments| && Deploys(deployments[i], contracts, name)
  }

  ghost predicate IsWanted(deployment: ForcedDeployment, contracts: Contracts) {
    exists name :: IsChanged(contracts, name) && deployment.bytecodeHash == contracts[name].bytecode
  }

  ghost predicate DistinctBytecodes(contracts: Contracts) {
    forall n1, n2 :: IsChanged(contracts, n1) && IsChanged(contracts, n2) && n1 != n2 ==>
      contracts[n1].bytecode != contracts[n2].bytecode
  }

  /** Matching by bytecode hash is a bijection between the deployments and the changed contracts,
      and matched deployments have the right address. */
  ghost predicate IsBijection(deployments: seq<ForcedDeployment>, contracts: Contracts) {
    && DistinctHashes(deployments)
    && DistinctBytecodes(contracts)
    && (forall name :: IsChanged(contracts, name) ==> IsDeployed(deployments, contracts, name))
    && (forall i :: 0 <= i < |deployments| ==> IsWanted(deployments[i], contracts))
  }

  predicate SameDeployment(decoded: ForcedDeployment, listed: ForcedDeployment) {
    && decoded.bytecodeHash == listed.bytecodeHash
    && Lower(decoded.newAddress) == Lower(listed.newAddress)
    && decoded.value == listed.value && decoded.input == listed.input
    && decoded.callConstructor == listed.callConstructor
  }

  predicate SameDeployments(decoded: seq<ForcedDeployment>, listed: seq<ForcedDeployment>) {
    |decoded| == |listed| && forall i :: 0 <= i < |listed| ==> SameDeployment(decoded[i], listed[i])
  }

  predicate CalldataMatches(upgrade: L2Upgrade, decode: Decoder) {
    && upgrade.forcedDeploymentCalldata == upgrade.calldata == upgrade.txData
    && decode(upgrade.calldata).Some?
    && SameDeployments(decode(upgrade.calldata).value, upgrade.forcedDeployments)
  }

  ghost predicate IsAccepted(chain: ChainState, decode: Decoder) {
    && (forall i :: 0 <= i < |chain.upgrade.forcedDeployments| ==> IsPlain(chain.upgrade.forcedDeployments[i]))
    && IsBijection(chain.upgrade.forcedDeployments, chain.systemContracts)
    && CalldataMatches(chain.upgrade, decode)
  }

  // ---------------------------------------------------------------------------------------------
  // The check
  // ---------------------------------------------------------------------------------------------

  type DeploymentMap = map<string, ForcedDeployment>

  /** The map holds exactly the deployments, under their hashes. */
  ghost predicate Indexes(byHash: DeploymentMap, deployments: seq<ForcedDeployment>) {
    && (forall i :: 0 <= i < |deployments| ==>
          deployments[i].bytecodeHash in byHash && byHash[deployments[i].bytecodeHash] == deployments[i])
    && (forall hash :: hash in byHash ==> exists i :: 0 <= i < |deployments| && deployments[i].bytecodeHash == hash)
  }

  /** Indexes the deployments by hash; refuses a repeated hash and anything but a plain
      deployment. */
  method IndexDeployments(deployments: seq<ForcedDeployment>) returns (result: Result<DeploymentMap, string>)
    ensures result.Ok? <==>
      DistinctHashes(deployments) && forall i :: 0 <= i < |deployments| ==> IsPlain(deployments[i])
    ensures result.Ok? ==> Indexes(result.value, deployments)
  {
    var byHash: DeploymentMap := map[];
    for k := 0 to |deployments|
      invariant DistinctHashes(deployments[..k])
      invariant forall i :: 0 <= i < k ==> IsPlain(deployments[i])
      invariant Indexes(byHash, deployments[..k])
    {
      var deployment := deployments[k];
      if deployment.bytecodeHash in byHash {
        var i :| 0 <= i < k && deployments[..k][i].bytecodeHash == deployment.bytecodeHash;
        assert deployments[i].bytecodeHash == deployments[k].bytecodeHash;
        return Err("Bytecode force deployed twice");
      }
      if deployment.value != 0 {
        assert !IsPlain(deployments[k]);
        return Err("Force deployment wrong value");
      }
      if deployment.input != "0x" {
        assert !IsPlain(deployments[k]);
        return Err("Force deployment wrong input");
      }
      if deployment.callConstructor {
        assert !IsPlain(deployments[k]);
        return Err("Force deployment wrong call Constructor");
      }
      IndexOneMore(byHash, deployments, k);
      byHash := byHash[deployment.bytecodeHash := deployment];
    }
    assert deployments[..|deployments|] == deployments;
    return Ok(byHash);
  }

  lemma IndexOneMore(byHash: DeploymentMap, deployments: seq<ForcedDeployment>, k: nat)
    requires k < |deployments| && Indexes(byHash, deployments[..k]) && DistinctHashes(deployments[..k])
    requires deployments[k].bytecodeHash !in byHash
    ensures Indexes(byHash[deployments[k].bytecodeHash := deployments[k]], deployments[..k + 1])
    ensures DistinctHashes(deployments[..k + 1])
  {
    var before, after := deployments[..k], deployments[..k + 1];
    assert after == before + [deployments[k]];
    forall i | 0 <= i < k ensures after[i].bytecodeHash in byHash && byHash[after[i].bytecodeHash] == after[i] {
      assert after[i] == before[i];
    }
    var next := byHash[deployments[k].bytecodeHash := deployments[k]];
    forall hash | hash in next ensures exists i :: 0 <= i < |after| && after[i].bytecodeHash == hash {
      if hash in byHash {
        var i :| 0 <= i < |before| && before[i].bytecodeHash == hash;
        assert after[i].bytecodeHash == hash;
      } else {
        assert after[k].bytecodeHash == hash;
      }
    }
  }

  /** The changed contracts among those already visited. */
  predicate IsConsumed(contracts: Contracts, left: set<string>, name: string) {
    IsChanged(contracts, name) && name !in left
  }

  /** The state of the matching: the visited changed contracts have distinct bytecodes, each was
      matched with the right address, and exactly their deployments are gone. */
  ghost predicate Matched(byHash: DeploymentMap, rest: DeploymentMap, contracts: Contracts, left: set<string>) {
    && (forall n1, n2 :: IsConsumed(contracts, left, n1) && IsConsumed(contracts, left, n2) && n1 != n2 ==>
          contracts[n1].bytecode != contracts[n2].bytecode)
    && (forall name :: IsConsumed(contracts, left, name) ==>
          && contracts[name].bytecode in byHash && contracts[name].bytecode !in rest
          && Deploys(byHash[contracts[name].bytecode], contracts, name))
    && (forall hash :: hash in rest ==> hash in byHash && rest[hash] == byHash[hash])
    && (forall hash :: hash in byHash && hash !in rest ==>
          exists name :: IsConsumed(contracts, left, name) && contracts[name].bytecode == hash)
  }

  /** Matches every changed contract with its deployment and takes the deployment out. */
  method ConsumeDeployments(byHash: DeploymentMap, contracts: Contracts, ghost deployments: seq<ForcedDeployment>)
    returns (result: Result<(), string>)
    requires Indexes(byHash, deployments) && DistinctHashes(deployments)
    ensures result.Ok? <==> IsBijection(deployments, contracts)
  {
    var rest := byHash;
    var left := contracts.Keys;
    NothingMatchedYet(byHash, contracts);
    while left != {}
      invariant left <= contracts.Keys
      invariant Matched(byHash, rest, contracts, left)
      decreases |left|
    {
      var name :| name in left;
      var state := contracts[name];
      if state.wasChanged {
        if state.bytecode !in rest {
          MissingDeployment(byHash, rest, contracts, left, deployments, name);
          return Err("Missing force deployment for bytecode");
        }
        if name !in SYSTEM_CONTRACT_MAP || rest[state.bytecode].newAddress != SYSTEM_CONTRACT_MAP[name] {
          WrongAddress(byHash, contracts, deployments, name);
          return Err("Wrong deployment address");
        }
        ConsumeOne(byHash, rest, contracts, left, name, deployments);
        rest := rest - {state.bytecode};
      } else {
        SkipOne(byHash, rest, contracts, left, name);
      }
      left := left - {name};
    }
    if |rest| > 0 {
      LeftoverDeployment(byHash, rest, contracts, deployments);
      return Err("Force deployment has additional entries");
    }
    AllMatched(byHash, rest, contracts, deployments);
    return Ok(());
  }

  lemma NothingMatchedYet(byHash: DeploymentMap, contracts: Contracts)
    ensures Matched(byHash, byHash, contracts, contracts.Keys)
  {
  }

  lemma MissingDeployment(byHash: DeploymentMap, rest: DeploymentMap, contracts: Contracts, left: set<string>,
                          deployments: seq<ForcedDeployment>, name: string)
    requires Indexes(byHash, deployments) && Matched(byHash, rest, contracts, left)
    requires name in left && IsChanged(contracts, name) && contracts[name].bytecode !in rest
    ensures !IsBijection(deployments, contracts)
  {
  }

  lemma WrongAddress(byHash: DeploymentMap, contracts: Contracts, deployments: seq<ForcedDeployment>, name: string)
    requires Indexes(byHash, deployments) && IsChanged(contracts, name) && contracts[name].bytecode in byHash
    requires name !in SYSTEM_CONTRACT_MAP || byHash[contracts[name].bytecode].newAddress != SYSTEM_CONTRACT_MAP[name]
    ensures !IsBijection(deployments, contracts)
  {
  }

  lemma ConsumeOne(byHash: DeploymentMap, rest: DeploymentMap, contracts: Contracts, left: set<string>, name: string,
                   deployments: seq<ForcedDeployment>)
    requires Indexes(byHash, deployments) && Matched(byHash, rest, contracts, left)
    requires name in left && IsChanged(contracts, name) && contracts[name].bytecode in rest
    requires name in SYSTEM_CONTRACT_MAP && rest[contracts[name].bytecode].newAddress == SYSTEM_CONTRACT_MAP[name]
    ensures Matched(byHash, rest - {contracts[name].bytecode}, contracts, left - {name})
  {
    assert byHash[contracts[name].bytecode].bytecodeHash == contracts[name].bytecode;
    var rest', left' := rest - {contracts[name].bytecode}, left - {name};
    forall n ensures IsConsumed(contracts, left', n) <==> n == name || IsConsumed(contracts, left, n) {
    }
    forall hash | hash in byHash && hash !in rest'
      ensures exists n :: IsConsumed(contracts, left', n) && contracts[n].bytecode == hash
    {
      if hash == contracts[name].bytecode {
        assert IsConsumed(contracts, left', name);
      } else {
        var n :| IsConsumed(contracts, left, n) && contracts[n].bytecode == hash;
        assert IsConsumed(contracts, left', n);
      }
    }
  }

  lemma SkipOne(byHash: DeploymentMap, rest: DeploymentMap, contracts: Contracts, left: set<string>, name: string)
    requires Matched(byHash, rest, contracts, left) && !IsChanged(contracts, name)
    ensures Matched(byHash, rest, contracts, left - {name})
  {
    forall n ensures IsConsumed(contracts, left - {name}, n) <==> IsConsumed(contracts, left, n) {
    }
  }

  lemma LeftoverDeployment(byHash: DeploymentMap, rest: DeploymentMap, contracts: Contracts,
                           deployments: seq<ForcedDeployment>)
    requires Indexes(byHash, deployments) && Matched(byHash, rest, contracts, {}) && |rest| > 0
    ensures !IsBijection(deployments, contracts)
  {
    assert rest.Keys != {};
    var hash :| hash in rest;
    var i :| 0 <= i < |deployments| && deployments[i].bytecodeHash == hash;
    forall name | IsChanged(contracts, name) ensures contracts[name].bytecode != hash {
      assert IsConsumed(contracts, {}, name);
    }
    assert !IsWanted(deployments[i], contracts);
  }

  lemma ConsumedIsDeployed(byHash: DeploymentMap, contracts: Contracts, deployments: seq<ForcedDeployment>, name: string)
    requires Indexes(byHash, deployments) && name in contracts && contracts[name].bytecode in byHash
    requires Deploys(byHash[contracts[name].bytecode], contracts, name)
    ensures IsDeployed(deployments, contracts, name)
  {
  }

  lemma GoneIsWanted(byHash: DeploymentMap, rest: DeploymentMap, contracts: Contracts, deployment: ForcedDeployment)
    requires Matched(byHash, rest, contracts, {})
    requires deployment.bytecodeHash in byHash && deployment.bytecodeHash !in rest
    ensures IsWanted(deployment, contracts)
  {
  }

  lemma AllMatched(byHash: DeploymentMap, rest: DeploymentMap, contracts: Contracts, deployments: seq<ForcedDeployment>)
    requires Indexes(byHash, deployments) && DistinctHashes(deployments)
    requires Matched(byHash, rest, contracts, {}) && |rest| == 0
    ensures IsBijection(deployments, contracts)
  {
    forall name ensures IsConsumed(contracts, {}, name) <==> IsChanged(contracts, name) {
    }
    forall name | IsChanged(contracts, name) ensures IsDeployed(deployments, contracts, name) {
      assert IsConsumed(contracts, {}, name);
      ConsumedIsDeployed(byHash, contracts, deployments, name);
    }
    forall i | 0 <= i < |deployments| ensures IsWanted(deployments[i], contracts) {
      GoneIsWanted(byHash, rest, contracts, deployments[i]);
    }
  }

  method CompareDeployments(decoded: seq<ForcedDeployment>, listed: seq<ForcedDeployment>)
    returns (result: Result<(), string>)
    ensures result.Ok? <==> SameDeployments(decoded, listed)
  {
    if |decoded| != |listed| {
      return Err("Calldata deployments size doesnt match forced Deployments");
    }
    for i := 0 to |listed|
      invariant forall j :: 0 <= j < i ==> SameDeployment(decoded[j], listed[j])
    {
      if decoded[i].bytecodeHash != listed[i].bytecodeHash {
        return Err("Bytecode hash differs");
      }
      if Lower(decoded[i].newAddress) != Lower(listed[i].newAddress) {
        return Err("Address differs");
      }
      if decoded[i].value != listed[i].value {
        return Err("Value differs");
      }
      if decoded[i].input != listed[i].input {
        return Err("Input differs");
      }
      if decoded[i].callConstructor != listed[i].callConstructor {
        return Err("Call constructor differs");
      }
    }
    return Ok(());
  }

  /** The whole check accepts exactly the states that IsAccepted describes. */
  method CheckForceDeployment(chain: ChainState, decode: Decoder) returns (result: Result<(), string>)
    ensures result.Ok? <==> IsAccepted(chain, decode)
  {
    var deployments := chain.upgrade.forcedDeployments;
    var indexed := IndexDeployments(deployments);
    if indexed.Err? {
      return Err(indexed.error);
    }
    var consumed := ConsumeDeployments(indexed.value, chain.systemContracts, deployments);
    if consumed.Err? {
      return consumed;
    }
    var upgrade := chain.upgrade;
    if upgrade.forcedDeploymentCalldata != upgrade.calldata || upgrade.calldata != upgrade.txData {
      return Err("forcedDeployment calldata and calldata or tx data doesn't match");
    }
    var decoded := decode(upgrade.calldata);
    if decoded.None? {
      return Err("calldata does not decode");
    }
    result := CompareDeployments(decoded.value, deployments);
  }
}
