/** Protocol upgrades as published per environment, and the chain states folded out of them.

    An upgrade directory holds one optional sub-directory per environment; its JSON lists the
    system contracts that the upgrade deploys, and optionally a bootloader and a default account.
    A contract that is not listed keeps its bytecode. */
module UpgradeHistory {
  import opened Wrappers

  const LAST_PROTOCOL_VERSION_BEFORE_UPGRADE_SYSTEM: int := 11

  const SYSTEM_CONTRACT_MAP: map<string, string> := map[
    "AccountCodeStorage" := "0x0000000000000000000000000000000000008002",
    "NonceHolder" := "0x0000000000000000000000000000000000008003",
    "KnownCodesStorage" := "0x0000000000000000000000000000000000008004",
    "ImmutableSimulator" := "0x0000000000000000000000000000000000008005",
    "ContractDeployer" := "0x0000000000000000000000000000000000008006",
    "L1Messenger" := "0x0000000000000000000000000000000000008008",
    "MsgValueSimulator" := "0x0000000000000000000000000000000000008009",
    "L2BaseToken" := "0x000000000000000000000000000000000000800a",
    "SystemContext" := "0x000000000000000000000000000000000000800b",
    "BootloaderUtilities" := "0x000000000000000000000000000000000000800c",
    "BytecodeCompressor" := "0x000000000000000000000000000000000000800e",
    "ComplexUpgrader" := "0x000000000000000000000000000000000000800f"]

  datatype SystemContractState = SystemContractState(
    bytecode: string,
    previousBytecode: Option<string>,
    wasChanged: bool)

  datatype SystemContract = SystemContract(name: string, bytecodeHashes: seq<string>, address: Option<string>)

  datatype ForcedDeployment = ForcedDeployment(
    bytecodeHash: string,
    newAddress: string,
    value: int,
    input: string,
    callConstructor: bool)

  /** The contents of `l2Upgrade.json`. */
  datatype L2Upgrade = L2Upgrade(
    defaultAA: Option<SystemContract>,
    bootloader: Option<SystemContract>,
    systemContracts: seq<SystemContract>,
    forcedDeployments: seq<ForcedDeployment>,
    forcedDeploymentCalldata: string,
    calldata: string,
    txData: string)

  type Contracts = map<string, SystemContractState>

  /** The state of one environment; `upgrade` is the directory it was loaded from. */
  datatype ChainState = ChainState(
    upgrade: L2Upgrade,
    systemContracts: Contracts,
    bootloader: SystemContractState,
    defaultAA: SystemContractState)

  // ---------------------------------------------------------------------------------------------
  // One upgrade
  // ---------------------------------------------------------------------------------------------

  function CreateSystemContractState(current: Option<SystemContract>, prev: Option<SystemContractState>)
    : Result<SystemContractState, string>
  {
    if current.None? && prev.None? then Err("Both current and prev are null")
    else if current.None? then Ok(SystemContractState(prev.value.bytecode, None, false))
    else if |current.value.bytecodeHashes| != 1 then Err("Invalid bytecode hash count")
    else
      var bytecode := current.value.bytecodeHashes[0];
      var previous := if prev.Some? then Some(prev.value.bytecode) else None;
      Ok(SystemContractState(bytecode, previous, Some(bytecode) != previous))
  }

  function CarryOver(entry: SystemContractState): SystemContractState {
    SystemContractState(entry.bytecode, None, false)
  }

  /** The entries of the previous state, all marked as unchanged. */
  function Carried(previous: Option<ChainState>): Contracts {
    if previous.None? then map[]
    else map key | key in previous.value.systemContracts :: CarryOver(previous.value.systemContracts[key])
  }

  function PublishOne(entries: Contracts, element: SystemContract): Result<Contracts, string> {
    if element.name !in SYSTEM_CONTRACT_MAP then Err("Invalid system contract name")
    else if Some(SYSTEM_CONTRACT_MAP[element.name]) != element.address then Err("Invalid address for contract")
    else if |element.bytecodeHashes| != 1 then Err("Invalid bytecode hashes count")
    else
      var previous := if element.name in entries then Some(entries[element.name].bytecode) else None;
      Ok(entries[element.name := SystemContractState(element.bytecodeHashes[0], previous, true)])
  }

  /** Publishes the listed contracts in order; the first invalid one is the error. */
  function Publish(entries: Contracts, elements: seq<SystemContract>): Result<Contracts, string> {
    if elements == [] then Ok(entries)
    else
      var before := Publish(entries, elements[..|elements| - 1]);
      if before.Err? then before else PublishOne(before.value, elements[|elements| - 1])
  }

  function PreviousAA(previous: Option<ChainState>): Option<SystemContractState> {
    if previous.Some? then Some(previous.value.defaultAA) else None
  }

  /** The state after an upgrade. The previous state handed on for the bootloader is the one of
      the default account, as in the program. */
  function StateAfter(upgrade: L2Upgrade, previous: Option<ChainState>): Result<ChainState, string> {
    var defaultAA := CreateSystemContractState(upgrade.defaultAA, PreviousAA(previous));
    if defaultAA.Err? then Err(defaultAA.error) else
    var bootloader := CreateSystemContractState(upgrade.bootloader, PreviousAA(previous));
    if bootloader.Err? then Err(bootloader.error) else
    var entries := Publish(Carried(previous), upgrade.systemContracts);
    if entries.Err? then Err(entries.error)
    else Ok(ChainState(upgrade, entries.value, bootloader.value, defaultAA.value))
  }

  /** The state an environment is in after a directory: none if it is not in the directory. */
  function LoadedState(upgrade: Option<L2Upgrade>, previous: Option<ChainState>): Result<Option<ChainState>, string> {
    if upgrade.None? then Ok(None)
    else
      var state := StateAfter(upgrade.value, previous);
      if state.Err? then Err(state.error) else Ok(Some(state.value))
  }

  /** Loads a state the way the program does: copies the previous entries one by one, then goes
      through the listed contracts. */
  method LoadChainState(upgrade: Option<L2Upgrade>, previous: Option<ChainState>)
    returns (result: Result<Option<ChainState>, string>)
    ensures result == LoadedState(upgrade, previous)
  {
    if upgrade.None? {
      return Ok(None);
    }
    var defaultAA := CreateSystemContractState(upgrade.value.defaultAA, PreviousAA(previous));
    if defaultAA.Err? {
      return Err(defaultAA.error);
    }
    var bootloader := CreateSystemContractState(upgrade.value.bootloader, PreviousAA(previous));
    if bootloader.Err? {
      return Err(bootloader.error);
    }
    var newEntries: Contracts := CopyEntries(previous);
    var elements := upgrade.value.systemContracts;
    for i := 0 to |elements|
      invariant Publish(Carried(previous), elements[..i]) == Ok(newEntries)
    {
      var element := elements[i];
      assert elements[..i + 1][..i] == elements[..i];
      var published := PublishOne(newEntries, element);
      if published.Err? {
        PublishStaysErr(Carried(previous), elements, i + 1);
        return Err(published.error);
      }
      newEntries := published.value;
    }
    assert elements[..|elements|] == elements;
    return Ok(Some(ChainState(upgrade.value, newEntries, bootloader.value, defaultAA.value)));
  }

  method CopyEntries(previous: Option<ChainState>) returns (entries: Contracts)
    ensures entries == Carried(previous)
  {
    entries := map[];
    if previous.Some? {
      var source := previous.value.systemContracts;
      var left := source.Keys;
      while left != {}
        invariant left <= source.Keys
        invariant entries.Keys == source.Keys - left
        invariant forall key :: key in entries ==> entries[key] == CarryOver(source[key])
        decreases |left|
      {
        var key :| key in left;
        entries := entries[key := CarryOver(source[key])];
        left := left - {key};
      }
    }
  }

  lemma {:induction false} PublishStaysErr(entries: Contracts, elements: seq<SystemContract>, i: nat)
    requires i <= |elements| && Publish(entries, elements[..i]).Err?
    ensures Publish(entries, elements) == Publish(entries, elements[..i])
  {
    if i == |elements| {
      assert elements[..i] == elements;
    } else {
      assert elements[..|elements| - 1][..i] == elements[..i];
      PublishStaysErr(entries, elements[..|elements| - 1], i);
    }
  }

  // ---------------------------------------------------------------------------------------------
  // What was published, independently of the fold
  // ---------------------------------------------------------------------------------------------

  /** The last bytecode that a list publishes for a name. */
  function LastIn(elements: seq<SystemContract>, name: string): Option<string> {
    if elements == [] then None
    else
      var last := elements[|elements| - 1];
      if last.name == name && |last.bytecodeHashes| == 1 then Some(last.bytecodeHashes[0])
      else LastIn(elements[..|elements| - 1], name)
  }

  function HashOf(contract: Option<SystemContract>): Option<string> {
    if contract.Some? && |contract.value.bytecodeHashes| == 1 then Some(contract.value.bytecodeHashes[0]) else None
  }

  /** An environment's part of the upgrade directories, oldest first. */
  type Upgrades = seq<Option<L2Upgrade>>

  /** The bytecode that an environment published last for a system contract. */
  function LastPublished(upgrades: Upgrades, name: string): Option<string> {
    if upgrades == [] then None
    else
      var last := upgrades[|upgrades| - 1];
      var before := LastPublished(upgrades[..|upgrades| - 1], name);
      if last.None? then before else OrElse(LastIn(last.value.systemContracts, name), before)
  }

  /** The default account that an environment published last. */
  function LastDefaultAA(upgrades: Upgrades): Option<string> {
    if upgrades == [] then None
    else
      var last := upgrades[|upgrades| - 1];
      var before := LastDefaultAA(upgrades[..|upgrades| - 1]);
      if last.None? then before else OrElse(HashOf(last.value.defaultAA), before)
  }

  /** The bootloader that an environment published last. */
  function LastBootloader(upgrades: Upgrades): Option<string> {
    if upgrades == [] then None
    else
      var last := upgrades[|upgrades| - 1];
      var before := LastBootloader(upgrades[..|upgrades| - 1]);
      if last.None? then before else OrElse(HashOf(last.value.bootloader), before)
  }

  /** The state an environment is in after all its upgrades; a directory without the environment
      leaves the state as it is. */
  function ChainAfter(upgrades: Upgrades): Result<Option<ChainState>, string> {
    if upgrades == [] then Ok(None)
    else
      var before := ChainAfter(upgrades[..|upgrades| - 1]);
      var last := upgrades[|upgrades| - 1];
      if before.Err? || last.None? then before
      else LoadedState(last, before.value)
  }

  function BytecodeOf(contracts: Contracts, name: string): Option<string> {
    if name in contracts then Some(contracts[name].bytecode) else None
  }

  lemma {:induction false} PublishSetsLast(entries: Contracts, elements: seq<SystemContract>, name: string)
    requires Publish(entries, elements).Ok?
    ensures BytecodeOf(Publish(entries, elements).value, name) == OrElse(LastIn(elements, name), BytecodeOf(entries, name))
  {
    if elements != [] {
      PublishSetsLast(entries, elements[..|elements| - 1], name);
    }
  }

  /** Carry-forward: through any number of upgrades and of directories that skip the environment,
      a system contract has the bytecode it was last published with and is absent if it never
      was, and the default account is the one published last. */
  lemma {:induction false} StateIsLastPublished(upgrades: Upgrades, name: string)
    requires ChainAfter(upgrades).Ok? && ChainAfter(upgrades).value.Some?
    ensures
      var state := ChainAfter(upgrades).value.value;
      && BytecodeOf(state.systemContracts, name) == LastPublished(upgrades, name)
      && Some(state.defaultAA.bytecode) == LastDefaultAA(upgrades)
  {
    var init := upgrades[..|upgrades| - 1];
    var last := upgrades[|upgrades| - 1];
    var before := ChainAfter(init).value;
    if before.Some? {
      StateIsLastPublished(init, name);
    } else {
      NothingPublishedYet(init, name);
    }
    if last.Some? {
      PublishSetsLast(Carried(before), last.value.systemContracts, name);
    }
  }

  lemma {:induction false} NothingPublishedYet(upgrades: Upgrades, name: string)
    requires ChainAfter(upgrades) == Ok(None)
    ensures LastPublished(upgrades, name) == None && LastDefaultAA(upgrades) == None && LastBootloader(upgrades) == None
  {
    if upgrades != [] {
      NothingPublishedYet(upgrades[..|upgrades| - 1], name);
    }
  }

  // ---------------------------------------------------------------------------------------------
  // The bootloader
  // ---------------------------------------------------------------------------------------------

  /** What the program makes of the bootloader: the listed one, or else the default account
      published before. */
  lemma BootloaderAsLoaded(upgrades: Upgrades, upgrade: L2Upgrade)
    requires ChainAfter(upgrades + [Some(upgrade)]).Ok?
    ensures
      var state := ChainAfter(upgrades + [Some(upgrade)]).value;
      && state.Some?
      && Some(state.value.bootloader.bytecode) == OrElse(HashOf(upgrade.bootloader), LastDefaultAA(upgrades))
  {
    assert (upgrades + [Some(upgrade)])[..|upgrades|] == upgrades;
    var before := ChainAfter(upgrades).value;
    if before.Some? {
      StateIsLastPublished(upgrades, "");
    } else {
      NothingPublishedYet(upgrades, "");
    }
  }

  /** The bootloader is carried forward exactly when the upgrade lists one, or the default account
      published before happens to be the bootloader published before. */
  lemma BootloaderIsCarriedExactlyWhen(upgrades: Upgrades, upgrade: L2Upgrade)
    requires ChainAfter(upgrades + [Some(upgrade)]).Ok?
    ensures
      var state := ChainAfter(upgrades + [Some(upgrade)]).value;
      && state.Some?
      && (Some(state.value.bootloader.bytecode) == LastBootloader(upgrades + [Some(upgrade)]) <==>
          upgrade.bootloader.Some? || LastDefaultAA(upgrades) == LastBootloader(upgrades))
  {
    assert (upgrades + [Some(upgrade)])[..|upgrades|] == upgrades;
    BootloaderAsLoaded(upgrades, upgrade);
  }

  function Contract(name: string, hash: string): SystemContract {
    SystemContract(name, [hash], None)
  }

  /** Two upgrades of which only the first lists the bootloader: afterwards the state claims the
      default account's bytecode for it. */
  lemma BootloaderIsLost()
    ensures
      var first := L2Upgrade(Some(Contract("DefaultAccount", "aa")), Some(Contract("Bootloader", "boot")), [], [], "", "", "");
      var second := L2Upgrade(None, None, [], [], "", "", "");
      var upgrades := [Some(first), Some(second)];
      && LastBootloader(upgrades) == Some("boot")
      && ChainAfter(upgrades).Ok? && ChainAfter(upgrades).value.Some?
      && ChainAfter(upgrades).value.value.bootloader.bytecode == "aa"
  {
    var first := L2Upgrade(Some(Contract("DefaultAccount", "aa")), Some(Contract("Bootloader", "boot")), [], [], "", "", "");
    var second := L2Upgrade(None, None, [], [], "", "", "");
    var upgrades := [Some(first), Some(second)];
    assert upgrades[..1] == [Some(first)];
    assert [Some(first)][..0] == [];
    assert ChainAfter([Some(first)]).Ok?;
  }
}
