/** What the loaded history of all environments has to do with the code on their chains, if the check
    passes for its states. */
module HistoryExecution {
  import opened Wrappers
  import opened UpgradeHistory
  import opened UpgradeFold
  import opened ForceDeployments
  import opened UpgradeExecution

  // ---------------------------------------------------------------------------------------------
  // Mainnet and testnet
  // ---------------------------------------------------------------------------------------------

  /** The check passes for the mainnet and testnet states of every version. */
  ghost predicate EntriesAreAccepted(dirs: seq<UpgradeDir>, decode: Decoder)
    requires HistoryOf(dirs).Ok?
  {
    ChainsAreAccepted(HistoryOf(dirs).value, decode)
  }

  ghost predicate ChainsAreAccepted(history: History, decode: Decoder) {
    forall version :: version in history.chains ==>
      var entry := history.chains[version];
      && (entry.mainnet2.Some? ==> IsAccepted(entry.mainnet2.value, decode))
      && (entry.testnet2.Some? ==> IsAccepted(entry.testnet2.value, decode))
  }

  lemma FewerEntriesAreAccepted(history: History, next: History, decode: Decoder)
    requires KeepsEntries(history, next) && ChainsAreAccepted(next, decode)
    ensures ChainsAreAccepted(history, decode)
  {
  }

  lemma {:induction false} EarlierEntriesAreAccepted(dirs: seq<UpgradeDir>, decode: Decoder)
    requires dirs != [] && HistoryOf(dirs).Ok? && EntriesAreAccepted(dirs, decode)
    ensures EntriesAreAccepted(dirs[..|dirs| - 1], decode)
  {
    HistoryKeepsEntries(dirs);
    FewerEntriesAreAccepted(HistoryOf(dirs[..|dirs| - 1]).value, HistoryOf(dirs).value, decode);
  }

  lemma {:induction false} OneMoreAccepted(upgrades: Upgrades, init: Upgrades, decode: Decoder, entry: Option<ChainState>)
    requires upgrades != [] && init == upgrades[..|upgrades| - 1] && AllAccepted(init, decode) && ChainAfter(upgrades).Ok?
    requires upgrades[|upgrades| - 1].Some? ==> ChainAfter(upgrades) == Ok(entry)
    requires entry.Some? ==> IsAccepted(entry.value, decode)
    ensures AllAccepted(upgrades, decode)
  {
    if upgrades[|upgrades| - 1].Some? {
      EntryIsPresent(upgrades);
    }
  }

  lemma {:induction false} OneMoreDirAccepted(dirs: seq<UpgradeDir>, init: seq<UpgradeDir>, decode: Decoder,
                                              entry: ChainsAtProtocolVersion)
    requires dirs != [] && init == dirs[..|dirs| - 1] && IsEntry(dirs, |dirs| - 1, entry)
    requires ChainAfter(Mainnet(dirs)).Ok? && ChainAfter(Testnet(dirs)).Ok?
    requires AllAccepted(Mainnet(init), decode) && AllAccepted(Testnet(init), decode)
    requires entry.mainnet2.Some? ==> IsAccepted(entry.mainnet2.value, decode)
    requires entry.testnet2.Some? ==> IsAccepted(entry.testnet2.value, decode)
    ensures AllAccepted(Mainnet(dirs), decode) && AllAccepted(Testnet(dirs), decode)
  {
    var n := |dirs| - 1;
    assert dirs[..n + 1] == dirs;
    assert Mainnet(dirs)[..n] == Mainnet(init) && Testnet(dirs)[..n] == Testnet(init);
    OneMoreAccepted(Mainnet(dirs), Mainnet(init), decode, entry.mainnet2);
    OneMoreAccepted(Testnet(dirs), Testnet(init), decode, entry.testnet2);
  }

  /** A loaded history whose states all pass the check is an accepted history of both networks, so
      that everything about accepted histories holds for them. */
  lemma {:induction false} LoadedHistoryIsAccepted(dirs: seq<UpgradeDir>, decode: Decoder)
    requires HistoryOf(dirs).Ok? && EntriesAreAccepted(dirs, decode)
    ensures AllAccepted(Mainnet(dirs), decode) && AllAccepted(Testnet(dirs), decode)
  {
    PreviousStatesAreChains(dirs);
    if dirs != [] {
      var n := |dirs| - 1;
      var init := dirs[..n];
      EarlierEntriesAreAccepted(dirs, decode);
      LoadedHistoryIsAccepted(init, decode);
      LastEntry(dirs);
      OneMoreDirAccepted(dirs, init, decode, HistoryOf(dirs).value.chains[12 + n]);
    }
  }

  // ---------------------------------------------------------------------------------------------
  // Staging
  // ---------------------------------------------------------------------------------------------

  /** The check passes for every staging state there is. */
  ghost predicate StagesAreAccepted(history: History, decode: Decoder) {
    forall version :: version in history.chains && history.chains[version].stage2.Some? ==>
      IsAccepted(history.chains[version].stage2.value, decode)
  }

  lemma FewerStagesAreAccepted(history: History, next: History, decode: Decoder)
    requires KeepsEntries(history, next) && StagesAreAccepted(next, decode)
    ensures StagesAreAccepted(history, decode)
  {
    forall version | version in history.chains && history.chains[version].stage2.Some?
      ensures IsAccepted(history.chains[version].stage2.value, decode)
    {
      assert next.chains[version] == history.chains[version];
    }
  }

  lemma LastStage(history: History, dir: UpgradeDir)
    ensures Extend(history, dir).Ok? && dir.stage2.Some? ==>
      && StateAfter(dir.stage2.value, history.prevStage2).Ok?
      && Extend(history, dir).value.prevStage2 == Some(StateAfter(dir.stage2.value, history.prevStage2).value)
  {
  }

  /** The staging state of the last directory is the accepted one. */
  lemma {:induction false} LastStageIsAccepted(dirs: seq<UpgradeDir>, decode: Decoder)
    requires dirs != [] && HistoryOf(dirs).Ok? && StagesAreAccepted(HistoryOf(dirs).value, decode)
    requires dirs[|dirs| - 1].stage2.Some?
    ensures
      var previous := HistoryOf(dirs[..|dirs| - 1]).value.prevStage2;
      var upgrade := dirs[|dirs| - 1].stage2.value;
      StateAfter(upgrade, previous).Ok? && IsAccepted(StateAfter(upgrade, previous).value, decode)
  {
    HistorySetsEntry(dirs);
    LastStage(HistoryOf(dirs[..|dirs| - 1]).value, dirs[|dirs| - 1]);
  }

  /** The changed contracts of a state are the listed ones. */
  lemma {:induction false} ListedAreChanged(entries: Contracts, elements: seq<SystemContract>, name: string)
    requires Publish(entries, elements).Ok? && !IsChanged(entries, name)
    ensures
      var contracts, last := Publish(entries, elements).value, LastIn(elements, name);
      if last.Some? then IsChanged(contracts, name) && contracts[name].bytecode == last.value && name in SYSTEM_CONTRACT_MAP
      else !IsChanged(contracts, name)
  {
    if elements != [] {
      ListedAreChanged(entries, elements[..|elements| - 1], name);
    }
  }

  /** An address has the same code, or none, in both. */
  predicate SameCodeAt(code: Code, after: Code, address: string) {
    (address in after <==> address in code) && (address in code ==> after[address] == code[address])
  }

  /** An accepted transaction puts the listed bytecode of a contract at its address, and leaves the
      contract alone if it is not listed, whatever the state says about it. */
  lemma AcceptedSetsListed(upgrade: L2Upgrade, previous: Option<ChainState>, decode: Decoder, code: Code, name: string)
    requires StateAfter(upgrade, previous).Ok? && IsAccepted(StateAfter(upgrade, previous).value, decode)
    ensures decode(upgrade.txData).Some?
    ensures
      var after, last := Execute(code, decode(upgrade.txData).value), LastIn(upgrade.systemContracts, name);
      && (last.Some? ==> name in SYSTEM_CONTRACT_MAP && AddressOf(name) in after && after[AddressOf(name)] == last.value)
      && (last.None? && name in SYSTEM_CONTRACT_MAP ==> SameCodeAt(code, after, AddressOf(name)))
  {
    var chain := StateAfter(upgrade, previous).value;
    var deployments := decode(upgrade.txData).value;
    AcceptedSetsChanged(chain, decode);
    ListedAreChanged(Carried(previous), upgrade.systemContracts, name);
    if LastIn(upgrade.systemContracts, name).Some? {
      ExecuteDeploysChanged(deployments, chain.systemContracts, code, name);
    } else if name in SYSTEM_CONTRACT_MAP {
      UnchangedAddress(chain.systemContracts, name);
      ExecuteKeepsOthers(deployments, chain.systemContracts, code, AddressOf(name));
    }
  }

  /** The code at the address of a system contract is the one published last. */
  predicate RunsPublished(code: Code, upgrades: Upgrades, name: string) {
    LastPublished(upgrades, name).Some? ==>
      && name in SYSTEM_CONTRACT_MAP && AddressOf(name) in code
      && Some(code[AddressOf(name)]) == LastPublished(upgrades, name)
  }

  lemma {:induction false} EarlierStagesAreAccepted(dirs: seq<UpgradeDir>, decode: Decoder)
    requires dirs != [] && HistoryOf(dirs).Ok? && StagesAreAccepted(HistoryOf(dirs).value, decode)
    ensures HistoryOf(dirs[..|dirs| - 1]).Ok? && StagesAreAccepted(HistoryOf(dirs[..|dirs| - 1]).value, decode)
  {
    HistoryKeepsEntries(dirs);
    FewerStagesAreAccepted(HistoryOf(dirs[..|dirs| - 1]).value, HistoryOf(dirs).value, decode);
  }

  /** On staging the code is the one published last as well, even where the staging state has lost
      the contract after a directory without staging. */
  lemma {:induction false} StageRunsLastPublished(dirs: seq<UpgradeDir>, decode: Decoder, code: Code, name: string)
    requires HistoryOf(dirs).Ok? && StagesAreAccepted(HistoryOf(dirs).value, decode)
    ensures RunsPublished(ExecuteAll(code, Stage(dirs), decode), Stage(dirs), name)
  {
    if dirs != [] {
      var n := |dirs| - 1;
      var init := dirs[..n];
      EarlierStagesAreAccepted(dirs, decode);
      StageRunsLastPublished(init, decode, code, name);
      assert Stage(dirs)[..n] == Stage(init);
      if dirs[n].stage2.Some? {
        LastStageIsAccepted(dirs, decode);
        AcceptedSetsListed(dirs[n].stage2.value, HistoryOf(init).value.prevStage2, decode,
                           ExecuteAll(code, Stage(init), decode), name);
      }
    }
  }

  lemma AcceptedKeepsOthers(upgrade: L2Upgrade, previous: Option<ChainState>, decode: Decoder, code: Code, address: string)
    requires StateAfter(upgrade, previous).Ok? && IsAccepted(StateAfter(upgrade, previous).value, decode)
    requires !IsSystemAddress(address)
    ensures decode(upgrade.txData).Some? && SameCodeAt(code, Execute(code, decode(upgrade.txData).value), address)
  {
    AcceptedKeepsUserCode(StateAfter(upgrade, previous).value, decode, code, address);
  }

  lemma {:induction false} OneMoreKeepsCode(code: Code, upgrades: Upgrades, decode: Decoder, address: string)
    requires upgrades != [] && SameCodeAt(code, ExecuteAll(code, upgrades[..|upgrades| - 1], decode), address)
    requires
      var before, last := ExecuteAll(code, upgrades[..|upgrades| - 1], decode), upgrades[|upgrades| - 1];
      last.Some? ==>
        decode(last.value.txData).Some? && SameCodeAt(before, Execute(before, decode(last.value.txData).value), address)
    ensures SameCodeAt(code, ExecuteAll(code, upgrades, decode), address)
  {
  }

  lemma {:induction false} StageKeepsUserCode(dirs: seq<UpgradeDir>, decode: Decoder, code: Code, address: string)
    requires HistoryOf(dirs).Ok? && StagesAreAccepted(HistoryOf(dirs).value, decode) && !IsSystemAddress(address)
    ensures SameCodeAt(code, ExecuteAll(code, Stage(dirs), decode), address)
  {
    if dirs != [] {
      var n := |dirs| - 1;
      var init := dirs[..n];
      EarlierStagesAreAccepted(dirs, decode);
      StageKeepsUserCode(init, decode, code, address);
      assert Stage(dirs)[..n] == Stage(init);
      if dirs[n].stage2.Some? {
        LastStageIsAccepted(dirs, decode);
        AcceptedKeepsOthers(dirs[n].stage2.value, HistoryOf(init).value.prevStage2, decode,
                            ExecuteAll(code, Stage(init), decode), address);
      }
      OneMoreKeepsCode(code, Stage(dirs), decode, address);
    }
  }

  /** All three environments: if the check passes for every state of a loaded history, executing the
      transactions of an environment leaves at every system contract what was published last, and
      leaves all other addresses alone. */
  lemma {:induction false} LoadedHistoryRunsLastPublished(dirs: seq<UpgradeDir>, decode: Decoder, code: Code,
                                                          name: string, address: string)
    requires HistoryOf(dirs).Ok? && EntriesAreAccepted(dirs, decode) && StagesAreAccepted(HistoryOf(dirs).value, decode)
    requires !IsSystemAddress(address)
    ensures RunsPublished(ExecuteAll(code, Mainnet(dirs), decode), Mainnet(dirs), name)
    ensures RunsPublished(ExecuteAll(code, Testnet(dirs), decode), Testnet(dirs), name)
    ensures RunsPublished(ExecuteAll(code, Stage(dirs), decode), Stage(dirs), name)
    ensures SameCodeAt(code, ExecuteAll(code, Mainnet(dirs), decode), address)
    ensures SameCodeAt(code, ExecuteAll(code, Testnet(dirs), decode), address)
    ensures SameCodeAt(code, ExecuteAll(code, Stage(dirs), decode), address)
  {
    LoadedHistoryIsAccepted(dirs, decode);
    NetworkRunsPublished(Mainnet(dirs), decode, code, name, address);
    NetworkRunsPublished(Testnet(dirs), decode, code, name, address);
    StageRunsLastPublished(dirs, decode, code, name);
    StageKeepsUserCode(dirs, decode, code, address);
  }

  lemma {:induction false} NetworkRunsPublished(upgrades: Upgrades, decode: Decoder, code: Code,
                                                name: string, address: string)
    requires AllAccepted(upgrades, decode) && !IsSystemAddress(address)
    ensures RunsPublished(ExecuteAll(code, upgrades, decode), upgrades, name)
    ensures SameCodeAt(code, ExecuteAll(code, upgrades, decode), address)
  {
    if LastPublished(upgrades, name).Some? {
      AcceptedHistoryRunsLastPublished(upgrades, decode, code, name);
    }
    AcceptedHistoryKeepsUserCode(upgrades, decode, code, address);
  }
}
