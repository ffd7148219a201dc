/** When upgrades load and when environments agree, told from the directories alone, and what a
    loaded state records about changes. */
module UpgradeLoading {
  import opened Wrappers
  import opened UpgradeHistory
  import opened UpgradeFold

  // ---------------------------------------------------------------------------------------------
  // Upgrades that load
  // ---------------------------------------------------------------------------------------------

  /** The account or the bootloader of an upgrade: listed with one hash, or left to the state
      before. */
  predicate IsSettled(contract: Option<SystemContract>, hasPrevious: bool) {
    if contract.Some? then |contract.value.bytecodeHashes| == 1 else hasPrevious
  }

  /** A listed system contract: a name of the table, the address of the table, one hash. */
  predicate IsPublishable(element: SystemContract) {
    && element.name in SYSTEM_CONTRACT_MAP
    && element.address == Some(SYSTEM_CONTRACT_MAP[element.name])
    && |element.bytecodeHashes| == 1
  }

  predicate AllPublishable(elements: seq<SystemContract>) {
    forall i :: 0 <= i < |elements| ==> IsPublishable(elements[i])
  }

  predicate IsLoadable(upgrade: L2Upgrade, hasPrevious: bool) {
    && IsSettled(upgrade.defaultAA, hasPrevious)
    && IsSettled(upgrade.bootloader, hasPrevious)
    && AllPublishable(upgrade.systemContracts)
  }

  lemma {:induction false} PublishesExactlyWhen(entries: Contracts, elements: seq<SystemContract>)
    ensures Publish(entries, elements).Ok? <==> AllPublishable(elements)
  {
    if elements != [] {
      var n := |elements| - 1;
      PublishesExactlyWhen(entries, elements[..n]);
      if AllPublishable(elements[..n]) && IsPublishable(elements[n]) {
        forall i | 0 <= i < |elements| ensures IsPublishable(elements[i]) {
          assert i < n ==> elements[i] == elements[..n][i];
        }
      }
    }
  }

  /** The first listed contract that cannot be published is the error. */
  lemma {:induction false} FirstRefusedIsReported(entries: Contracts, elements: seq<SystemContract>, i: nat)
    requires i < |elements| && AllPublishable(elements[..i]) && !IsPublishable(elements[i])
    ensures Publish(entries, elements) == Err(
      if elements[i].name !in SYSTEM_CONTRACT_MAP then "Invalid system contract name"
      else if elements[i].address != Some(SYSTEM_CONTRACT_MAP[elements[i].name]) then "Invalid address for contract"
      else "Invalid bytecode hashes count")
  {
    PublishesExactlyWhen(entries, elements[..i]);
    assert elements[..i + 1][..i] == elements[..i];
    PublishStaysErr(entries, elements, i + 1);
  }

  /** An upgrade loads exactly when the account and the bootloader are each listed with one hash, or
      not listed while there is a state before, and every listed contract has a name of the table,
      the address of the table and one hash. */
  lemma LoadsExactlyWhen(upgrade: L2Upgrade, previous: Option<ChainState>)
    ensures LoadedState(Some(upgrade), previous).Ok? <==> IsLoadable(upgrade, previous.Some?)
    ensures LoadedState(None, previous) == Ok(None)
  {
    PublishesExactlyWhen(Carried(previous), upgrade.systemContracts);
  }

  predicate AnyPresent(upgrades: Upgrades) {
    exists i :: 0 <= i < |upgrades| && upgrades[i].Some?
  }

  predicate AllLoadable(upgrades: Upgrades) {
    forall i :: 0 <= i < |upgrades| && upgrades[i].Some? ==> IsLoadable(upgrades[i].value, AnyPresent(upgrades[..i]))
  }

  lemma {:induction false} AllLoadableOfMore(upgrades: Upgrades)
    requires upgrades != []
    ensures
      var n := |upgrades| - 1;
      AllLoadable(upgrades) <==>
        AllLoadable(upgrades[..n]) && (upgrades[n].Some? ==> IsLoadable(upgrades[n].value, AnyPresent(upgrades[..n])))
  {
    var n := |upgrades| - 1;
    forall i | 0 <= i < n ensures upgrades[..n][i] == upgrades[i] && upgrades[..n][..i] == upgrades[..i] {
    }
  }

  /** All upgrades of an environment load exactly when each of them does, with a state before for all
      but the first. */
  lemma {:induction false} ChainLoadsExactlyWhen(upgrades: Upgrades)
    ensures ChainAfter(upgrades).Ok? <==> AllLoadable(upgrades)
    ensures ChainAfter(upgrades).Ok? ==> (ChainAfter(upgrades).value.Some? <==> AnyPresent(upgrades))
  {
    if upgrades != [] {
      var n := |upgrades| - 1;
      ChainLoadsExactlyWhen(upgrades[..n]);
      AllLoadableOfMore(upgrades);
      if upgrades[n].Some? && ChainAfter(upgrades[..n]).Ok? {
        LoadsExactlyWhen(upgrades[n].value, ChainAfter(upgrades[..n]).value);
      }
      if AnyPresent(upgrades[..n]) {
        var i :| 0 <= i < n && upgrades[..n][i].Some?;
        assert upgrades[i].Some?;
      }
      if AnyPresent(upgrades) && upgrades[n].None? {
        var i :| 0 <= i < |upgrades| && upgrades[i].Some?;
        assert upgrades[..n][i].Some?;
      }
    }
  }

  // ---------------------------------------------------------------------------------------------
  // Histories that load
  // ---------------------------------------------------------------------------------------------

  /** A directory is what the history expects next, with loadable upgrades for the environments that
      are part of it. */
  predicate IsNextDir(dirs: seq<UpgradeDir>, i: nat)
    requires i < |dirs|
  {
    var before, dir := dirs[..i], dirs[i];
    && dir.protocolVersion == Some(12 + i)
    && (dir.mainnet2.Some? ==> IsLoadable(dir.mainnet2.value, AnyPresent(Mainnet(before))))
    && (dir.testnet2.Some? ==> IsLoadable(dir.testnet2.value, AnyPresent(Testnet(before))))
    && (dir.stage2.Some? ==> IsLoadable(dir.stage2.value, i > 0 && dirs[i - 1].stage2.Some?))
  }

  lemma {:induction false} PreviousIsPresentWhen(dirs: seq<UpgradeDir>)
    requires HistoryOf(dirs).Ok?
    ensures
      var history := HistoryOf(dirs).value;
      && (history.prevMainnet2.Some? <==> AnyPresent(Mainnet(dirs)))
      && (history.prevTestnet2.Some? <==> AnyPresent(Testnet(dirs)))
      && (history.prevStage2.Some? <==> dirs != [] && dirs[|dirs| - 1].stage2.Some?)
  {
    PreviousStatesAreChains(dirs);
    ChainLoadsExactlyWhen(Mainnet(dirs));
    ChainLoadsExactlyWhen(Testnet(dirs));
  }

  lemma {:induction false} ExtendsExactlyWhen(history: History, dir: UpgradeDir)
    ensures Extend(history, dir).Ok? <==>
      && dir.protocolVersion == Some(history.lastVersion + 1)
      && (dir.mainnet2.Some? ==> IsLoadable(dir.mainnet2.value, history.prevMainnet2.Some?))
      && (dir.testnet2.Some? ==> IsLoadable(dir.testnet2.value, history.prevTestnet2.Some?))
      && (dir.stage2.Some? ==> IsLoadable(dir.stage2.value, history.prevStage2.Some?))
  {
    if dir.mainnet2.Some? {
      LoadsExactlyWhen(dir.mainnet2.value, history.prevMainnet2);
    }
    if dir.testnet2.Some? {
      LoadsExactlyWhen(dir.testnet2.value, history.prevTestnet2);
    }
    if dir.stage2.Some? {
      LoadsExactlyWhen(dir.stage2.value, history.prevStage2);
    }
  }

  /** The history loads exactly when the versions go up by one from 12 and every upgrade in every
      directory loads: after an earlier one of mainnet or testnet, and for staging after one in the
      directory just before. */
  lemma {:induction false} HistoryLoadsExactlyWhen(dirs: seq<UpgradeDir>)
    ensures HistoryOf(dirs).Ok? <==> forall i :: 0 <= i < |dirs| ==> IsNextDir(dirs, i)
  {
    if dirs != [] {
      var n := |dirs| - 1;
      var init := dirs[..n];
      HistoryLoadsExactlyWhen(init);
      forall i | 0 <= i < n ensures IsNextDir(init, i) <==> IsNextDir(dirs, i) {
        assert init[..i] == dirs[..i];
      }
      if HistoryOf(init).Ok? {
        VersionsAreConsecutive(init);
        PreviousIsPresentWhen(init);
        ExtendsExactlyWhen(HistoryOf(init).value, dirs[n]);
        assert HistoryOf(dirs).Ok? <==> IsNextDir(dirs, n);
      }
    }
  }

  // ---------------------------------------------------------------------------------------------
  // What a state records about changes
  // ---------------------------------------------------------------------------------------------

  /** An account or bootloader entry: the listed hash or the code before, changed exactly when a hash
      is listed that is not the code before. */
  predicate IsRecorded(entry: SystemContractState, listed: Option<SystemContract>, before: Option<string>) {
    && Some(entry.bytecode) == OrElse(HashOf(listed), before)
    && entry.previousBytecode == (if listed.Some? then before else None)
    && (entry.wasChanged <==> listed.Some? && HashOf(listed) != before)
  }

  /** Both entries compare with the default account of the state before. */
  lemma AccountAndBootloaderAreRecorded(upgrade: L2Upgrade, previous: Option<ChainState>)
    requires StateAfter(upgrade, previous).Ok?
    ensures
      var state := StateAfter(upgrade, previous).value;
      var before := if previous.Some? then Some(previous.value.defaultAA.bytecode) else None;
      && state.upgrade == upgrade
      && IsRecorded(state.defaultAA, upgrade.defaultAA, before)
      && IsRecorded(state.bootloader, upgrade.bootloader, before)
  {
  }

  predicate IsNamed(elements: seq<SystemContract>, name: string) {
    exists i :: 0 <= i < |elements| && elements[i].name == name
  }

  lemma {:induction false} PublishKeepsUnnamed(entries: Contracts, elements: seq<SystemContract>, name: string)
    requires Publish(entries, elements).Ok? && !IsNamed(elements, name)
    ensures
      var published := Publish(entries, elements).value;
      (name in published <==> name in entries) && (name in entries ==> published[name] == entries[name])
  {
    if elements != [] {
      var n := |elements| - 1;
      forall i | 0 <= i < n ensures elements[..n][i].name != name {
        assert elements[i].name != name;
      }
      assert elements[n].name != name;
      PublishKeepsUnnamed(entries, elements[..n], name);
    }
  }

  /** The entry of a listed contract: changed, with the code that its last mention replaces. */
  lemma {:induction false} PublishedEntry(entries: Contracts, elements: seq<SystemContract>, i: nat)
    requires Publish(entries, elements).Ok? && i < |elements|
    requires forall j :: i < j < |elements| ==> elements[j].name != elements[i].name
    ensures
      var name, published := elements[i].name, Publish(entries, elements).value;
      && |elements[i].bytecodeHashes| == 1 && name in published
      && published[name] == SystemContractState(elements[i].bytecodeHashes[0],
           OrElse(LastIn(elements[..i], name), BytecodeOf(entries, name)), true)
  {
    var n := |elements| - 1;
    if i == n {
      PublishSetsLast(entries, elements[..n], elements[i].name);
    } else {
      assert elements[..n][..i] == elements[..i];
      PublishedEntry(entries, elements[..n], i);
      assert elements[n].name != elements[i].name;
    }
  }

  /** A contract that the upgrade does not list has the entry of the state before, unchanged and
      without a code before it; a listed one is changed, and its entry tells the code that its last
      mention replaces: that of an earlier mention or of the state before. */
  lemma ContractsAreRecorded(upgrade: L2Upgrade, previous: Option<ChainState>, name: string, i: nat)
    requires StateAfter(upgrade, previous).Ok?
    ensures
      var elements, contracts := upgrade.systemContracts, StateAfter(upgrade, previous).value.systemContracts;
      var before := if previous.Some? then BytecodeOf(previous.value.systemContracts, name) else None;
      && (!IsNamed(elements, name) ==>
            && (name in contracts <==> before.Some?)
            && (name in contracts ==> contracts[name] == SystemContractState(before.value, None, false)))
      && (i < |elements| && elements[i].name == name && !IsNamed(elements[i + 1..], name) ==>
            && |elements[i].bytecodeHashes| == 1 && name in contracts
            && contracts[name] == SystemContractState(elements[i].bytecodeHashes[0],
                 OrElse(LastIn(elements[..i], name), before), true))
  {
    var elements := upgrade.systemContracts;
    if !IsNamed(elements, name) {
      PublishKeepsUnnamed(Carried(previous), elements, name);
    }
    if i < |elements| && elements[i].name == name && !IsNamed(elements[i + 1..], name) {
      forall j | i < j < |elements| ensures elements[j].name != name {
        assert elements[i + 1..][j - i - 1] == elements[j];
      }
      PublishedEntry(Carried(previous), elements, i);
      assert BytecodeOf(Carried(previous), name) ==
        if previous.Some? then BytecodeOf(previous.value.systemContracts, name) else None;
    }
  }

  // ---------------------------------------------------------------------------------------------
  // Environments that agree
  // ---------------------------------------------------------------------------------------------

  /** The bootloader that a state reports: the one just listed, or else the account before. */
  function ReportedBootloader(upgrades: Upgrades): Option<string> {
    if upgrades == [] || upgrades[|upgrades| - 1].None? then None
    else OrElse(HashOf(upgrades[|upgrades| - 1].value.bootloader), LastDefaultAA(upgrades[..|upgrades| - 1]))
  }

  /** Two environments have published the same, as far as their states tell. */
  ghost predicate PublishedTheSame(upgrades1: Upgrades, upgrades2: Upgrades) {
    && (forall name :: LastPublished(upgrades1, name) == LastPublished(upgrades2, name))
    && LastDefaultAA(upgrades1) == LastDefaultAA(upgrades2)
    && ReportedBootloader(upgrades1) == ReportedBootloader(upgrades2)
  }

  lemma SameContractsExactlyWhen(contracts1: Contracts, contracts2: Contracts)
    ensures CodeOf(contracts1) == CodeOf(contracts2) <==>
      forall name :: BytecodeOf(contracts1, name) == BytecodeOf(contracts2, name)
  {
    forall name: string
      ensures BytecodeOf(contracts1, name) == if name in CodeOf(contracts1) then Some(CodeOf(contracts1)[name]) else None
      ensures BytecodeOf(contracts2, name) == if name in CodeOf(contracts2) then Some(CodeOf(contracts2)[name]) else None
    {
      BytecodeIsCode(contracts1, name);
      BytecodeIsCode(contracts2, name);
    }
    if forall name :: BytecodeOf(contracts1, name) == BytecodeOf(contracts2, name) {
      forall name ensures name in CodeOf(contracts1) <==> name in CodeOf(contracts2) {
        assert BytecodeOf(contracts1, name) == BytecodeOf(contracts2, name);
      }
    }
  }

  /** The state of an environment that is part of the last directory. */
  ghost predicate IsStateOf(state: ChainState, upgrades: Upgrades) {
    && (forall name :: BytecodeOf(state.systemContracts, name) == LastPublished(upgrades, name))
    && Some(state.defaultAA.bytecode) == LastDefaultAA(upgrades)
    && Some(state.bootloader.bytecode) == ReportedBootloader(upgrades)
  }

  lemma {:induction false} PresentState(upgrades: Upgrades)
    requires upgrades != [] && upgrades[|upgrades| - 1].Some? && ChainAfter(upgrades).Ok?
    ensures ChainAfter(upgrades).value.Some? && IsStateOf(ChainAfter(upgrades).value.value, upgrades)
  {
    var n := |upgrades| - 1;
    assert upgrades == upgrades[..n] + [upgrades[n]];
    BootloaderAsLoaded(upgrades[..n], upgrades[n].value);
    forall name ensures BytecodeOf(ChainAfter(upgrades).value.value.systemContracts, name) == LastPublished(upgrades, name) {
      StateIsLastPublished(upgrades, name);
    }
    StateIsLastPublished(upgrades, "");
  }

  lemma {:induction false} SameCodeExactlyWhen(state1: ChainState, upgrades1: Upgrades, state2: ChainState, upgrades2: Upgrades)
    requires IsStateOf(state1, upgrades1) && IsStateOf(state2, upgrades2)
    ensures SameCode(state1, state2) <==> PublishedTheSame(upgrades1, upgrades2)
  {
    SameContractsExactlyWhen(state1.systemContracts, state2.systemContracts);
    if PublishedTheSame(upgrades1, upgrades2) {
      forall name ensures BytecodeOf(state1.systemContracts, name) == BytecodeOf(state2.systemContracts, name) {
        assert LastPublished(upgrades1, name) == LastPublished(upgrades2, name);
      }
    }
  }

  /** The part of an environment in the directory agrees with staging, which is part of it too. */
  ghost predicate AgreesWithStage(upgrades: Upgrades, stages: Upgrades) {
    upgrades != [] && upgrades[|upgrades| - 1].Some? ==>
      stages != [] && stages[|stages| - 1].Some? && PublishedTheSame(upgrades, SinceGap(stages))
  }

  /** The comparison of one environment with staging, by their states in the entry. */
  lemma {:induction false} AgreesExactlyWhen(state: Option<ChainState>, upgrades: Upgrades,
                                             stage: Option<ChainState>, stages: Upgrades)
    requires upgrades != [] && stages != []
    requires if upgrades[|upgrades| - 1].Some? then ChainAfter(upgrades) == Ok(state) else state == None
    requires ChainAfter(SinceGap(stages)) == Ok(stage)
    ensures (state.Some? ==> stage.Some? && SameCode(state.value, stage.value)) <==> AgreesWithStage(upgrades, stages)
  {
    if upgrades[|upgrades| - 1].Some? {
      PresentState(upgrades);
      if stages[|stages| - 1].Some? {
        PresentState(SinceGap(stages));
        SameCodeExactlyWhen(state.value, upgrades, stage.value, SinceGap(stages));
      }
    }
  }

  /** A version passes exactly when testnet and mainnet, where they are part of its directory, have
      last published what staging has since its last gap: every system contract, the account, and
      the bootloader as it is reported. */
  lemma {:induction false} VersionIsConsistentExactlyWhen(dirs: seq<UpgradeDir>, i: nat)
    requires HistoryOf(dirs).Ok? && i < |dirs|
    ensures 12 + i in HistoryOf(dirs).value.chains
    ensures
      var seen := dirs[..i + 1];
      VersionIsConsistent(HistoryOf(dirs).value.chains[12 + i]) <==>
        AgreesWithStage(Testnet(seen), Stage(seen)) && AgreesWithStage(Mainnet(seen), Stage(seen))
  {
    EntriesAreChains(dirs, i);
    var seen, entry := dirs[..i + 1], HistoryOf(dirs).value.chains[12 + i];
    AgreesExactlyWhen(entry.testnet2, Testnet(seen), entry.stage2, Stage(seen));
    AgreesExactlyWhen(entry.mainnet2, Mainnet(seen), entry.stage2, Stage(seen));
  }
}
