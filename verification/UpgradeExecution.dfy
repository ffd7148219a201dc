/** The meaning of accepted upgrades: executing their calldata turns the code that the old chain
    state describes into the code that the new one describes, and touches nothing else. */
module UpgradeExecution {
  import opened Wrappers
  import opened UpgradeHistory
  import opened ForceDeployments

  /** The code on chain by address; hexadecimal case does not distinguish addresses. */
  type Code = map<string, string>

  /** Executes forced deployments in order. */
  function Execute(code: Code, deployments: seq<ForcedDeployment>): Code {
    if deployments == [] then code
    else
      var last := deployments[|deployments| - 1];
      Execute(code, deployments[..|deployments| - 1])[Lower(last.newAddress) := last.bytecodeHash]
  }

  function AddressOf(name: string): string
    requires name in SYSTEM_CONTRACT_MAP
  {
    Lower(SYSTEM_CONTRACT_MAP[name])
  }

  /** A code map has what a chain state says at the address of every system contract. */
  ghost predicate Agrees(code: Code, contracts: Contracts) {
    forall name :: name in contracts ==>
      && name in SYSTEM_CONTRACT_MAP
      && AddressOf(name) in code && code[AddressOf(name)] == contracts[name].bytecode
  }

  /** The address of every system contract is 42 characters long and has a last character of its
      own. */
  lemma AddressesAreDistinct(n1: string, n2: string)
    requires n1 in SYSTEM_CONTRACT_MAP && n2 in SYSTEM_CONTRACT_MAP && AddressOf(n1) == AddressOf(n2)
    ensures n1 == n2
  {
    AddressLength(n1);
    AddressLength(n2);
    assert AddressOf(n1)[41] == AddressOf(n2)[41];
    LastCharacterTells(n1, n2);
  }

  lemma AddressLength(name: string)
    requires name in SYSTEM_CONTRACT_MAP
    ensures |SYSTEM_CONTRACT_MAP[name]| == 42
  {
  }

  lemma LastCharacterTells(n1: string, n2: string)
    requires n1 in SYSTEM_CONTRACT_MAP && |SYSTEM_CONTRACT_MAP[n1]| == 42
    requires n2 in SYSTEM_CONTRACT_MAP && |SYSTEM_CONTRACT_MAP[n2]| == 42
    requires LowerChar(SYSTEM_CONTRACT_MAP[n1][41]) == LowerChar(SYSTEM_CONTRACT_MAP[n2][41])
    ensures n1 == n2
  {
  }

  lemma {:induction false} ExecuteTouchesOnlyTargets(code: Code, deployments: seq<ForcedDeployment>, address: string)
    requires forall i :: 0 <= i < |deployments| ==> Lower(deployments[i].newAddress) != address
    ensures address in Execute(code, deployments) <==> address in code
    ensures address in code ==> Execute(code, deployments)[address] == code[address]
  {
    if deployments != [] {
      ExecuteTouchesOnlyTargets(code, deployments[..|deployments| - 1], address);
    }
  }

  /** If deployments to one address put the same code there, any of them tells the outcome. */
  lemma {:induction false} ExecuteSets(code: Code, deployments: seq<ForcedDeployment>, k: nat)
    requires k < |deployments|
    requires forall i, j :: 0 <= i < j < |deployments| && Lower(deployments[i].newAddress) == Lower(deployments[j].newAddress) ==>
      deployments[i].bytecodeHash == deployments[j].bytecodeHash
    ensures
      var address := Lower(deployments[k].newAddress);
      address in Execute(code, deployments) && Execute(code, deployments)[address] == deployments[k].bytecodeHash
  {
    var n := |deployments| - 1;
    if k < n {
      ExecuteSets(code, deployments[..n], k);
    }
  }

  // ---------------------------------------------------------------------------------------------
  // One upgrade
  // ---------------------------------------------------------------------------------------------

  /** A deployment puts the new bytecode of a changed contract at the contract's address. */
  predicate SetsCode(deployment: ForcedDeployment, contracts: Contracts, name: string) {
    && IsChanged(contracts, name) && name in SYSTEM_CONTRACT_MAP
    && Lower(deployment.newAddress) == AddressOf(name)
    && deployment.bytecodeHash == contracts[name].bytecode
  }

  ghost predicate SetsSome(deployment: ForcedDeployment, contracts: Contracts) {
    exists name :: SetsCode(deployment, contracts, name)
  }

  ghost predicate IsSet(deployments: seq<ForcedDeployment>, contracts: Contracts, name: string) {
    exists i :: 0 <= i < |deployments| && SetsCode(deployments[i], contracts, name)
  }

  /** The deployments set the code of exactly the changed contracts; neither hashes nor targets
      have to be different. */
  ghost predicate SetsChanged(deployments: seq<ForcedDeployment>, contracts: Contracts) {
    && (forall i {:trigger SetsSome(deployments[i], contracts)} ::
          0 <= i < |deployments| ==> SetsSome(deployments[i], contracts))
    && (forall name {:trigger IsSet(deployments, contracts, name)} ::
          IsChanged(contracts, name) ==> IsSet(deployments, contracts, name))
  }

  lemma SameTargetSameCode(deployments: seq<ForcedDeployment>, contracts: Contracts, i: nat, j: nat)
    requires SetsChanged(deployments, contracts) && i < |deployments| && j < |deployments|
    requires Lower(deployments[i].newAddress) == Lower(deployments[j].newAddress)
    ensures deployments[i].bytecodeHash == deployments[j].bytecodeHash
  {
    assert SetsSome(deployments[i], contracts) && SetsSome(deployments[j], contracts);
    var n1 :| SetsCode(deployments[i], contracts, n1);
    var n2 :| SetsCode(deployments[j], contracts, n2);
    SameContractSameCode(deployments[i], deployments[j], contracts, n1, n2);
  }

  lemma SameContractSameCode(d1: ForcedDeployment, d2: ForcedDeployment, contracts: Contracts, n1: string, n2: string)
    requires SetsCode(d1, contracts, n1) && SetsCode(d2, contracts, n2) && Lower(d1.newAddress) == Lower(d2.newAddress)
    ensures d1.bytecodeHash == d2.bytecodeHash
  {
    AddressesAreDistinct(n1, n2);
  }

  /** Changed contracts get their new bytecode. */
  lemma ExecuteDeploysChanged(deployments: seq<ForcedDeployment>, contracts: Contracts, code: Code, name: string)
    requires SetsChanged(deployments, contracts) && IsChanged(contracts, name)
    ensures name in SYSTEM_CONTRACT_MAP
    ensures
      var after := Execute(code, deployments);
      AddressOf(name) in after && after[AddressOf(name)] == contracts[name].bytecode
  {
    assert IsSet(deployments, contracts, name);
    var k :| 0 <= k < |deployments| && SetsCode(deployments[k], contracts, name);
    forall i, j | 0 <= i < j < |deployments| && Lower(deployments[i].newAddress) == Lower(deployments[j].newAddress)
      ensures deployments[i].bytecodeHash == deployments[j].bytecodeHash
    {
      SameTargetSameCode(deployments, contracts, i, j);
    }
    ExecuteSets(code, deployments, k);
  }

  ghost predicate IsChangedAddress(contracts: Contracts, address: string) {
    exists name :: IsChanged(contracts, name) && name in SYSTEM_CONTRACT_MAP && AddressOf(name) == address
  }

  /** Every address that is not the one of a changed contract keeps its code. */
  lemma ExecuteKeepsOthers(deployments: seq<ForcedDeployment>, contracts: Contracts, code: Code, address: string)
    requires SetsChanged(deployments, contracts) && !IsChangedAddress(contracts, address)
    ensures
      var after := Execute(code, deployments);
      (address in after <==> address in code) && (address in code ==> after[address] == code[address])
  {
    forall i | 0 <= i < |deployments| ensures Lower(deployments[i].newAddress) != address {
      assert SetsSome(deployments[i], contracts);
      var name :| SetsCode(deployments[i], contracts, name);
    }
    ExecuteTouchesOnlyTargets(code, deployments, address);
  }

  /** Entries not listed by the upgrade are those of the previous state, and listed ones have a
      place in the contract map. */
  lemma {:induction false} PublishedEntries(entries: Contracts, elements: seq<SystemContract>, name: string)
    requires Publish(entries, elements).Ok? && name in Publish(entries, elements).value
    requires !Publish(entries, elements).value[name].wasChanged
    ensures name in entries && entries[name] == Publish(entries, elements).value[name]
  {
    if elements != [] {
      PublishedEntries(entries, elements[..|elements| - 1], name);
    }
  }

  lemma UnchangedAddress(contracts: Contracts, name: string)
    requires name in SYSTEM_CONTRACT_MAP && !IsChanged(contracts, name)
    ensures !IsChangedAddress(contracts, AddressOf(name))
  {
    forall other | IsChanged(contracts, other) && other in SYSTEM_CONTRACT_MAP
      ensures AddressOf(other) != AddressOf(name)
    {
      if AddressOf(other) == AddressOf(name) {
        AddressesAreDistinct(other, name);
      }
    }
  }

  /** Deployments that set the code of exactly the changed contracts, executed on code that agrees
      with the previous state, give code that agrees with the new state. */
  lemma UpgradeExecutes(upgrade: L2Upgrade, previous: Option<ChainState>, deployments: seq<ForcedDeployment>, code: Code)
    requires StateAfter(upgrade, previous).Ok?
    requires SetsChanged(deployments, StateAfter(upgrade, previous).value.systemContracts)
    requires previous.Some? ==> Agrees(code, previous.value.systemContracts)
    ensures Agrees(Execute(code, deployments), StateAfter(upgrade, previous).value.systemContracts)
  {
    var contracts := StateAfter(upgrade, previous).value.systemContracts;
    var after := Execute(code, deployments);
    forall name | name in contracts
      ensures name in SYSTEM_CONTRACT_MAP
      ensures AddressOf(name) in after && after[AddressOf(name)] == contracts[name].bytecode
    {
      if contracts[name].wasChanged {
        ExecuteDeploysChanged(deployments, contracts, code, name);
      } else {
        PublishedEntries(Carried(previous), upgrade.systemContracts, name);
        assert name in previous.value.systemContracts;
        UnchangedAddress(contracts, name);
        ExecuteKeepsOthers(deployments, contracts, code, AddressOf(name));
      }
    }
  }

  // ---------------------------------------------------------------------------------------------
  // What the check has to do with it
  // ---------------------------------------------------------------------------------------------

  ghost predicate IsListed(deployment: ForcedDeployment, contracts: Contracts) {
    exists name :: IsChanged(contracts, name) && Deploys(deployment, contracts, name)
  }

  /** The listed deployments are for exactly the changed contracts, whatever their hashes. */
  ghost predicate ListsChanged(deployments: seq<ForcedDeployment>, contracts: Contracts) {
    && (forall i {:trigger IsListed(deployments[i], contracts)} ::
          0 <= i < |deployments| ==> IsListed(deployments[i], contracts))
    && (forall name :: IsChanged(contracts, name) ==> IsDeployed(deployments, contracts, name))
  }

  lemma BijectionListsChanged(deployments: seq<ForcedDeployment>, contracts: Contracts)
    requires IsBijection(deployments, contracts)
    ensures ListsChanged(deployments, contracts)
  {
    forall i | 0 <= i < |deployments| ensures IsListed(deployments[i], contracts) {
      assert IsWanted(deployments[i], contracts);
      var name :| IsChanged(contracts, name) && deployments[i].bytecodeHash == contracts[name].bytecode;
      assert IsDeployed(deployments, contracts, name);
      var j :| 0 <= j < |deployments| && Deploys(deployments[j], contracts, name);
      assert i == j;
    }
  }

  lemma DecodedSetsChanged(decoded: seq<ForcedDeployment>, listed: seq<ForcedDeployment>, contracts: Contracts)
    requires SameDeployments(decoded, listed) && ListsChanged(listed, contracts)
    ensures SetsChanged(decoded, contracts)
  {
    forall i | 0 <= i < |decoded| ensures SetsSome(decoded[i], contracts) {
      assert SameDeployment(decoded[i], listed[i]) && IsListed(listed[i], contracts);
      var name :| IsChanged(contracts, name) && Deploys(listed[i], contracts, name);
      assert SetsCode(decoded[i], contracts, name);
    }
    forall name | IsChanged(contracts, name) ensures IsSet(decoded, contracts, name) {
      assert IsDeployed(listed, contracts, name);
      var i :| 0 <= i < |listed| && Deploys(listed[i], contracts, name);
      assert SameDeployment(decoded[i], listed[i]);
      assert SetsCode(decoded[i], contracts, name);
    }
  }

  lemma AcceptedSetsChanged(chain: ChainState, decode: Decoder)
    requires IsAccepted(chain, decode)
    ensures SetsChanged(decode(chain.upgrade.txData).value, chain.systemContracts)
  {
    BijectionListsChanged(chain.upgrade.forcedDeployments, chain.systemContracts);
    DecodedSetsChanged(decode(chain.upgrade.txData).value, chain.upgrade.forcedDeployments, chain.systemContracts);
  }

  /** Executing what the transaction of an accepted state decodes to, on code that agrees with the
      previous state, gives code that agrees with the new state. */
  lemma AcceptedUpgradeExecutes(upgrade: L2Upgrade, previous: Option<ChainState>, decode: Decoder, code: Code)
    requires StateAfter(upgrade, previous).Ok? && IsAccepted(StateAfter(upgrade, previous).value, decode)
    requires previous.Some? ==> Agrees(code, previous.value.systemContracts)
    ensures Agrees(Execute(code, decode(upgrade.txData).value), StateAfter(upgrade, previous).value.systemContracts)
  {
    AcceptedSetsChanged(StateAfter(upgrade, previous).value, decode);
    UpgradeExecutes(upgrade, previous, decode(upgrade.txData).value, code);
  }

  /** The three places that hold the deployments of an accepted upgrade decode alike, and what the
      transaction decodes to calls no constructor, sends no value and has no input. */
  lemma AcceptedTransactionIsPlain(chain: ChainState, decode: Decoder, i: nat)
    requires IsAccepted(chain, decode)
    ensures decode(chain.upgrade.txData).Some?
    ensures decode(chain.upgrade.txData) == decode(chain.upgrade.calldata) == decode(chain.upgrade.forcedDeploymentCalldata)
    ensures |decode(chain.upgrade.txData).value| == |chain.upgrade.forcedDeployments|
    ensures i < |chain.upgrade.forcedDeployments| ==>
      var deployment := decode(chain.upgrade.txData).value[i];
      deployment.value == 0 && deployment.input == "0x" && !deployment.callConstructor
  {
    if i < |chain.upgrade.forcedDeployments| {
      assert IsPlain(chain.upgrade.forcedDeployments[i]);
      assert SameDeployment(decode(chain.upgrade.txData).value[i], chain.upgrade.forcedDeployments[i]);
    }
  }

  // ---------------------------------------------------------------------------------------------
  // The whole history of an environment
  // ---------------------------------------------------------------------------------------------

  /** The environment's transactions executed upgrade after upgrade. */
  function ExecuteAll(code: Code, upgrades: Upgrades, decode: Decoder): Code {
    if upgrades == [] then code
    else
      var before := ExecuteAll(code, upgrades[..|upgrades| - 1], decode);
      var last := upgrades[|upgrades| - 1];
      if last.None? || decode(last.value.txData).None? then before
      else Execute(before, decode(last.value.txData).value)
  }

  /** Every state along the history loads and passes the check. */
  ghost predicate AllAccepted(upgrades: Upgrades, decode: Decoder) {
    && ChainAfter(upgrades).Ok?
    && (upgrades != [] ==>
          var last := |upgrades| - 1;
          && AllAccepted(upgrades[..last], decode)
          && (upgrades[last].Some? ==>
                ChainAfter(upgrades).value.Some? && IsAccepted(ChainAfter(upgrades).value.value, decode)))
  }

  /** After a whole accepted history the chain runs exactly what its state says, whatever was
      deployed before the first upgrade. */
  lemma {:induction false} AcceptedHistoryExecutes(upgrades: Upgrades, decode: Decoder, code: Code)
    requires AllAccepted(upgrades, decode) && ChainAfter(upgrades).value.Some?
    ensures Agrees(ExecuteAll(code, upgrades, decode), ChainAfter(upgrades).value.value.systemContracts)
  {
    var n := |upgrades| - 1;
    var init := upgrades[..n];
    var before := ChainAfter(init).value;
    if before.Some? {
      AcceptedHistoryExecutes(init, decode, code);
    }
    if upgrades[n].Some? {
      var upgrade := upgrades[n].value;
      AcceptedUpgradeExecutes(upgrade, before, decode, ExecuteAll(code, init, decode));
    }
  }

  ghost predicate IsSystemAddress(address: string) {
    exists name :: name in SYSTEM_CONTRACT_MAP && AddressOf(name) == address
  }

  lemma AcceptedKeepsUserCode(chain: ChainState, decode: Decoder, code: Code, address: string)
    requires IsAccepted(chain, decode) && !IsSystemAddress(address)
    ensures
      var after := Execute(code, decode(chain.upgrade.txData).value);
      (address in after <==> address in code) && (address in code ==> after[address] == code[address])
  {
    assert !IsChangedAddress(chain.systemContracts, address);
    AcceptedSetsChanged(chain, decode);
    ExecuteKeepsOthers(decode(chain.upgrade.txData).value, chain.systemContracts, code, address);
  }

  lemma {:induction false} LastAccepted(upgrades: Upgrades, decode: Decoder) returns (chain: ChainState)
    requires upgrades != [] && upgrades[|upgrades| - 1].Some? && AllAccepted(upgrades, decode)
    ensures IsAccepted(chain, decode) && chain.upgrade == upgrades[|upgrades| - 1].value
  {
    chain := ChainAfter(upgrades).value.value;
  }

  /** No accepted history touches the code of an address that is not a system contract's. */
  lemma {:induction false} AcceptedHistoryKeepsUserCode(upgrades: Upgrades, decode: Decoder, code: Code, address: string)
    requires AllAccepted(upgrades, decode) && !IsSystemAddress(address)
    ensures address in ExecuteAll(code, upgrades, decode) <==> address in code
    ensures address in code ==> ExecuteAll(code, upgrades, decode)[address] == code[address]
  {
    if upgrades != [] {
      var n := |upgrades| - 1;
      AcceptedHistoryKeepsUserCode(upgrades[..n], decode, code, address);
      if upgrades[n].Some? {
        var chain := LastAccepted(upgrades, decode);
        AcceptedKeepsUserCode(chain, decode, ExecuteAll(code, upgrades[..n], decode), address);
      }
    }
  }

  /** End to end: the code at the address of a system contract is the one published last. */
  lemma AcceptedHistoryRunsLastPublished(upgrades: Upgrades, decode: Decoder, code: Code, name: string)
    requires AllAccepted(upgrades, decode) && LastPublished(upgrades, name).Some?
    ensures name in SYSTEM_CONTRACT_MAP
    ensures
      var after := ExecuteAll(code, upgrades, decode);
      AddressOf(name) in after && Some(after[AddressOf(name)]) == LastPublished(upgrades, name)
  {
    if ChainAfter(upgrades).value.None? {
      NothingPublishedYet(upgrades, name);
    } else {
      StateIsLastPublished(upgrades, name);
      AcceptedHistoryExecutes(upgrades, decode, code);
      assert name in ChainAfter(upgrades).value.value.systemContracts;
    }
  }
}
