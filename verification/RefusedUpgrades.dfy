/** Which upgrades the force-deployment check refuses although their calldata does what it should. */
module RefusedUpgrades {
  import opened Wrappers
  import opened UpgradeHistory
  import opened ForceDeployments
  import opened UpgradeExecution

  lemma ListedIsBijection(deployments: seq<ForcedDeployment>, contracts: Contracts)
    requires ListsChanged(deployments, contracts) && DistinctHashes(deployments)
    ensures IsBijection(deployments, contracts)
  {
    forall n1, n2 | IsChanged(contracts, n1) && IsChanged(contracts, n2) && n1 != n2
      ensures contracts[n1].bytecode != contracts[n2].bytecode
    {
      assert IsDeployed(deployments, contracts, n1) && IsDeployed(deployments, contracts, n2);
      SharedBytecodeRepeats(deployments, contracts, n1, n2);
    }
    forall i | 0 <= i < |deployments| ensures IsWanted(deployments[i], contracts) {
      assert IsListed(deployments[i], contracts);
      var name :| IsChanged(contracts, name) && Deploys(deployments[i], contracts, name);
    }
  }

  lemma SharedBytecodeRepeats(deployments: seq<ForcedDeployment>, contracts: Contracts, n1: string, n2: string)
    requires IsChanged(contracts, n1) && IsChanged(contracts, n2) && n1 != n2 && DistinctHashes(deployments)
    requires IsDeployed(deployments, contracts, n1) && IsDeployed(deployments, contracts, n2)
    ensures contracts[n1].bytecode != contracts[n2].bytecode
  {
    var i :| 0 <= i < |deployments| && Deploys(deployments[i], contracts, n1);
    var j :| 0 <= j < |deployments| && Deploys(deployments[j], contracts, n2);
    if i == j {
      AddressesAreDistinct(n1, n2);
    }
  }

  /** The address is written as in the table of system contracts, with the same letter case. */
  ghost predicate IsSpelled(deployment: ForcedDeployment) {
    exists name :: name in SYSTEM_CONTRACT_MAP && deployment.newAddress == SYSTEM_CONTRACT_MAP[name]
  }

  ghost predicate IsWellWritten(deployments: seq<ForcedDeployment>) {
    && (forall i :: 0 <= i < |deployments| ==> IsPlain(deployments[i]))
    && (forall i {:trigger IsSpelled(deployments[i])} :: 0 <= i < |deployments| ==> IsSpelled(deployments[i]))
    && DistinctHashes(deployments)
  }

  lemma SpelledDeploys(decoded: ForcedDeployment, listed: ForcedDeployment, contracts: Contracts, name: string)
    requires SetsCode(decoded, contracts, name) && SameDeployment(decoded, listed) && IsSpelled(listed)
    ensures Deploys(listed, contracts, name)
  {
    var other :| other in SYSTEM_CONTRACT_MAP && listed.newAddress == SYSTEM_CONTRACT_MAP[other];
    AddressesAreDistinct(other, name);
  }

  lemma SetListsChanged(decoded: seq<ForcedDeployment>, listed: seq<ForcedDeployment>, contracts: Contracts)
    requires SetsChanged(decoded, contracts) && SameDeployments(decoded, listed) && IsWellWritten(listed)
    ensures ListsChanged(listed, contracts)
  {
    forall i | 0 <= i < |listed| ensures IsListed(listed[i], contracts) {
      assert SameDeployment(decoded[i], listed[i]) && SetsSome(decoded[i], contracts) && IsSpelled(listed[i]);
      var name :| SetsCode(decoded[i], contracts, name);
      SpelledDeploys(decoded[i], listed[i], contracts, name);
    }
    forall name | IsChanged(contracts, name) ensures IsDeployed(listed, contracts, name) {
      assert IsSet(decoded, contracts, name);
      var i :| 0 <= i < |decoded| && SetsCode(decoded[i], contracts, name);
      assert SameDeployment(decoded[i], listed[i]) && IsSpelled(listed[i]);
      SpelledDeploys(decoded[i], listed[i], contracts, name);
    }
  }

  lemma AcceptedIsWellWritten(chain: ChainState, decode: Decoder)
    requires IsAccepted(chain, decode)
    ensures IsWellWritten(chain.upgrade.forcedDeployments)
  {
    var deployments := chain.upgrade.forcedDeployments;
    BijectionListsChanged(deployments, chain.systemContracts);
    forall i | 0 <= i < |deployments| ensures IsSpelled(deployments[i]) {
      assert IsListed(deployments[i], chain.systemContracts);
    }
  }

  /** Of the upgrades whose calldata sets the code of exactly the changed contracts, the check
      accepts exactly those that list the same deployments, without value, input or constructor,
      under the addresses as spelled in the table, and no hash twice. */
  lemma ExecutableIsAcceptedExactlyWhen(chain: ChainState, decode: Decoder)
    requires decode(chain.upgrade.calldata).Some?
    requires SetsChanged(decode(chain.upgrade.calldata).value, chain.systemContracts)
    ensures IsAccepted(chain, decode) <==>
      IsWellWritten(chain.upgrade.forcedDeployments) && CalldataMatches(chain.upgrade, decode)
  {
    var deployments, contracts := chain.upgrade.forcedDeployments, chain.systemContracts;
    if IsAccepted(chain, decode) {
      AcceptedIsWellWritten(chain, decode);
    } else if IsWellWritten(deployments) && CalldataMatches(chain.upgrade, decode) {
      SetListsChanged(decode(chain.upgrade.calldata).value, deployments, contracts);
      ListedIsBijection(deployments, contracts);
    }
  }

  // ---------------------------------------------------------------------------------------------
  // First upgrades that are refused and execute well
  // ---------------------------------------------------------------------------------------------

  function Listed(name: string, hash: string): SystemContract
    requires name in SYSTEM_CONTRACT_MAP
  {
    SystemContract(name, [hash], Some(SYSTEM_CONTRACT_MAP[name]))
  }

  function PlainAt(hash: string, address: string): ForcedDeployment {
    ForcedDeployment(hash, address, 0, "0x", false)
  }

  function FirstUpgrade(contracts: seq<SystemContract>, deployments: seq<ForcedDeployment>): L2Upgrade {
    L2Upgrade(Some(Contract("DefaultAccount", "aa")), Some(Contract("Bootloader", "boot")), contracts, deployments, "", "", "")
  }

  /** The upgrade loads, is refused, and executing its deployments gives what its state says. */
  ghost predicate IsRefusedInVain(upgrade: L2Upgrade, decode: Decoder, code: Code) {
    && StateAfter(upgrade, None).Ok?
    && !IsAccepted(StateAfter(upgrade, None).value, decode)
    && Agrees(Execute(code, upgrade.forcedDeployments), StateAfter(upgrade, None).value.systemContracts)
  }

  lemma OnePublished(name: string, hash: string)
    requires name in SYSTEM_CONTRACT_MAP
    ensures Publish(map[], [Listed(name, hash)]) == Ok(map[name := SystemContractState(hash, None, true)])
  {
    assert [Listed(name, hash)][..0] == [];
  }

  lemma TwoPublished(n1: string, n2: string, hash: string)
    requires n1 in SYSTEM_CONTRACT_MAP && n2 in SYSTEM_CONTRACT_MAP && n1 != n2
    ensures
      var state := SystemContractState(hash, None, true);
      Publish(map[], [Listed(n1, hash), Listed(n2, hash)]) == Ok(map[n1 := state, n2 := state])
  {
    OnePublished(n1, hash);
    assert [Listed(n1, hash), Listed(n2, hash)][..1] == [Listed(n1, hash)];
  }

  lemma FirstUpgradeLoads(upgrade: L2Upgrade, contracts: Contracts)
    requires upgrade == FirstUpgrade(upgrade.systemContracts, upgrade.forcedDeployments)
    requires Publish(map[], upgrade.systemContracts) == Ok(contracts)
    ensures StateAfter(upgrade, None).Ok? && StateAfter(upgrade, None).value.systemContracts == contracts
    ensures StateAfter(upgrade, None).value.upgrade == upgrade
  {
  }

  /** Two contracts with one bytecode. */
  lemma SharedBytecodeIsRefused(n1: string, n2: string, hash: string, decode: Decoder, code: Code)
    requires n1 in SYSTEM_CONTRACT_MAP && n2 in SYSTEM_CONTRACT_MAP && n1 != n2
    ensures IsRefusedInVain(FirstUpgrade([Listed(n1, hash), Listed(n2, hash)],
      [PlainAt(hash, SYSTEM_CONTRACT_MAP[n1]), PlainAt(hash, SYSTEM_CONTRACT_MAP[n2])]), decode, code)
  {
    var d1, d2 := PlainAt(hash, SYSTEM_CONTRACT_MAP[n1]), PlainAt(hash, SYSTEM_CONTRACT_MAP[n2]);
    var deployments := [d1, d2];
    var upgrade := FirstUpgrade([Listed(n1, hash), Listed(n2, hash)], deployments);
    var state := SystemContractState(hash, None, true);
    var contracts := map[n1 := state, n2 := state];
    TwoPublished(n1, n2, hash);
    FirstUpgradeLoads(upgrade, contracts);
    assert deployments[0].bytecodeHash == deployments[1].bytecodeHash;
    assert SetsCode(deployments[0], contracts, n1) && SetsCode(deployments[1], contracts, n2);
    assert SetsSome(d1, contracts) && SetsSome(d2, contracts);
    UpgradeExecutes(upgrade, None, deployments, code);
  }

  /** The address of the base token with a capital letter. */
  const CAPITAL_ADDRESS: string := "0x000000000000000000000000000000000000800A"

  lemma CapitalIsSameAddress()
    ensures Lower(CAPITAL_ADDRESS) == AddressOf("L2BaseToken") && CAPITAL_ADDRESS != SYSTEM_CONTRACT_MAP["L2BaseToken"]
  {
    var address := SYSTEM_CONTRACT_MAP["L2BaseToken"];
    assert |CAPITAL_ADDRESS| == 42 && |address| == 42;
    assert CAPITAL_ADDRESS[41] == 'A' && address[41] == 'a';
    assert CAPITAL_ADDRESS == address[41 := 'A'];
    assert LowerChar('A') == 'a' == LowerChar('a');
  }

  /** One deployment, to the right address in another spelling; it is the same for the calldata. */
  lemma CapitalAddressIsRefused(hash: string, decode: Decoder, code: Code)
    ensures IsRefusedInVain(FirstUpgrade([Listed("L2BaseToken", hash)], [PlainAt(hash, CAPITAL_ADDRESS)]), decode, code)
  {
    var deployments := [PlainAt(hash, CAPITAL_ADDRESS)];
    var upgrade := FirstUpgrade([Listed("L2BaseToken", hash)], deployments);
    var contracts := map["L2BaseToken" := SystemContractState(hash, None, true)];
    OnePublished("L2BaseToken", hash);
    FirstUpgradeLoads(upgrade, contracts);
    CapitalIsSameAddress();
    assert SetsCode(deployments[0], contracts, "L2BaseToken");
    UpgradeExecutes(upgrade, None, deployments, code);
    assert IsChanged(contracts, "L2BaseToken") && !IsDeployed(deployments, contracts, "L2BaseToken");
  }
}
