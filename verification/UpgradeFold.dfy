/** The history of all environments, loaded directory by directory, and the comparison of
    environments with each other. */
module UpgradeFold {
  import opened Wrappers
  import opened UpgradeHistory

  /** An upgrade directory; no version stands for one that is not a number. */
  datatype UpgradeDir = UpgradeDir(
    protocolVersion: Option<int>,
    mainnet2: Option<L2Upgrade>,
    testnet2: Option<L2Upgrade>,
    stage2: Option<L2Upgrade>)

  datatype ChainsAtProtocolVersion = ChainsAtProtocolVersion(
    mainnet2: Option<ChainState>,
    testnet2: Option<ChainState>,
    stage2: Option<ChainState>)

  datatype History = History(
    chains: map<int, ChainsAtProtocolVersion>,
    lastVersion: int,
    prevMainnet2: Option<ChainState>,
    prevTestnet2: Option<ChainState>,
    prevStage2: Option<ChainState>)

  /** What one directory adds. Staging is always expected, so its previous state is replaced even
      by an absent one. */
  function Extend(history: History, dir: UpgradeDir): Result<History, string> {
    if dir.protocolVersion != Some(history.lastVersion + 1) then Err("Protocol version didn't increase")
    else
      var mainnet2 := LoadedState(dir.mainnet2, history.prevMainnet2);
      if mainnet2.Err? then Err(mainnet2.error) else
      var testnet2 := LoadedState(dir.testnet2, history.prevTestnet2);
      if testnet2.Err? then Err(testnet2.error) else
      var stage2 := LoadedState(dir.stage2, history.prevStage2);
      if stage2.Err? then Err(stage2.error) else
      Ok(History(
        history.chains[history.lastVersion + 1 :=
          ChainsAtProtocolVersion(mainnet2.value, testnet2.value, stage2.value)],
        history.lastVersion + 1,
        OrElse(mainnet2.value, history.prevMainnet2),
        OrElse(testnet2.value, history.prevTestnet2),
        stage2.value))
  }

  function HistoryOf(dirs: seq<UpgradeDir>): Result<History, string> {
    if dirs == [] then Ok(History(map[], LAST_PROTOCOL_VERSION_BEFORE_UPGRADE_SYSTEM, None, None, None))
    else
      var before := HistoryOf(dirs[..|dirs| - 1]);
      if before.Err? then before else Extend(before.value, dirs[|dirs| - 1])
  }

  method LoadChainStateHistory(dirs: seq<UpgradeDir>) returns (result: Result<map<int, ChainsAtProtocolVersion>, string>)
    ensures HistoryOf(dirs).Err? ==> result == Err(HistoryOf(dirs).error)
    ensures HistoryOf(dirs).Ok? ==> result == Ok(HistoryOf(dirs).value.chains)
  {
    var chains: map<int, ChainsAtProtocolVersion> := map[];
    var lastVersion := LAST_PROTOCOL_VERSION_BEFORE_UPGRADE_SYSTEM;
    var prevMainnet2: Option<ChainState> := None;
    var prevTestnet2: Option<ChainState> := None;
    var prevStage2: Option<ChainState> := None;
    for i := 0 to |dirs|
      invariant HistoryOf(dirs[..i]) == Ok(History(chains, lastVersion, prevMainnet2, prevTestnet2, prevStage2))
    {
      var dir := dirs[i];
      assert dirs[..i + 1][..i] == dirs[..i];
      HistoryStaysErr(dirs, i + 1);
      if dir.protocolVersion != Some(lastVersion + 1) {
        return Err("Protocol version didn't increase");
      }
      lastVersion := lastVersion + 1;
      var mainnet2 := LoadChainState(dir.mainnet2, prevMainnet2);
      if mainnet2.Err? {
        return Err(mainnet2.error);
      }
      if mainnet2.value.Some? {
        prevMainnet2 := mainnet2.value;
      }
      var testnet2 := LoadChainState(dir.testnet2, prevTestnet2);
      if testnet2.Err? {
        return Err(testnet2.error);
      }
      if testnet2.value.Some? {
        prevTestnet2 := testnet2.value;
      }
      var stage2 := LoadChainState(dir.stage2, prevStage2);
      if stage2.Err? {
        return Err(stage2.error);
      }
      prevStage2 := stage2.value;
      chains := chains[lastVersion := ChainsAtProtocolVersion(mainnet2.value, testnet2.value, stage2.value)];
    }
    assert dirs[..|dirs|] == dirs;
    return Ok(chains);
  }

  lemma {:induction false} HistoryStaysErr(dirs: seq<UpgradeDir>, i: nat)
    requires i <= |dirs|
    ensures HistoryOf(dirs[..i]).Err? ==> HistoryOf(dirs) == HistoryOf(dirs[..i])
  {
    if i == |dirs| {
      assert dirs[..i] == dirs;
    } else {
      assert dirs[..|dirs| - 1][..i] == dirs[..i];
      HistoryStaysErr(dirs[..|dirs| - 1], i);
    }
  }

  // ---------------------------------------------------------------------------------------------
  // Versions
  // ---------------------------------------------------------------------------------------------

  /** An accepted history has consecutive versions from 12 on, one entry for each directory. */
  lemma {:induction false} VersionsAreConsecutive(dirs: seq<UpgradeDir>)
    requires HistoryOf(dirs).Ok?
    ensures HistoryOf(dirs).value.lastVersion == 11 + |dirs|
    ensures forall i :: 0 <= i < |dirs| ==> dirs[i].protocolVersion == Some(12 + i)
    ensures forall version :: version in HistoryOf(dirs).value.chains <==> 12 <= version < 12 + |dirs|
  {
    if dirs != [] {
      VersionsAreConsecutive(dirs[..|dirs| - 1]);
    }
  }

  // ---------------------------------------------------------------------------------------------
  // States of the environments
  // ---------------------------------------------------------------------------------------------

  function Mainnet(dirs: seq<UpgradeDir>): Upgrades {
    seq(|dirs|, i requires 0 <= i < |dirs| => dirs[i].mainnet2)
  }

  function Testnet(dirs: seq<UpgradeDir>): Upgrades {
    seq(|dirs|, i requires 0 <= i < |dirs| => dirs[i].testnet2)
  }

  function Stage(dirs: seq<UpgradeDir>): Upgrades {
    seq(|dirs|, i requires 0 <= i < |dirs| => dirs[i].stage2)
  }

  /** Mainnet and testnet carry their state over directories that skip them. */
  lemma {:induction false} PreviousStatesAreChains(dirs: seq<UpgradeDir>)
    requires HistoryOf(dirs).Ok?
    ensures ChainAfter(Mainnet(dirs)) == Ok(HistoryOf(dirs).value.prevMainnet2)
    ensures ChainAfter(Testnet(dirs)) == Ok(HistoryOf(dirs).value.prevTestnet2)
  {
    if dirs != [] {
      var init := dirs[..|dirs| - 1];
      PreviousStatesAreChains(init);
      assert Mainnet(dirs)[..|dirs| - 1] == Mainnet(init);
      assert Testnet(dirs)[..|dirs| - 1] == Testnet(init);
    }
  }

  /** The upgrades since the last directory without the environment. */
  function SinceGap(upgrades: Upgrades): Upgrades {
    if upgrades == [] || upgrades[|upgrades| - 1].None? then []
    else SinceGap(upgrades[..|upgrades| - 1]) + [upgrades[|upgrades| - 1]]
  }

  /** They are the longest part at the end in which no directory lacks the environment. */
  lemma {:induction false} SinceGapIsLongest(upgrades: Upgrades)
    ensures
      var start := |upgrades| - |SinceGap(upgrades)|;
      && 0 <= start && upgrades[start..] == SinceGap(upgrades)
      && (forall i :: start <= i < |upgrades| ==> upgrades[i].Some?)
      && (start > 0 ==> upgrades[start - 1].None?)
  {
    if upgrades != [] && upgrades[|upgrades| - 1].Some? {
      var init := upgrades[..|upgrades| - 1];
      SinceGapIsLongest(init);
      var start := |init| - |SinceGap(init)|;
      assert upgrades[start..] == init[start..] + [upgrades[|upgrades| - 1]];
    }
  }

  /** Staging starts over after a directory without it: its state is the fold of the upgrades since
      the last gap only. */
  lemma {:induction false} StageStartsOverAfterGap(dirs: seq<UpgradeDir>)
    requires HistoryOf(dirs).Ok?
    ensures ChainAfter(SinceGap(Stage(dirs))) == Ok(HistoryOf(dirs).value.prevStage2)
  {
    if dirs != [] {
      var init := dirs[..|dirs| - 1];
      StageStartsOverAfterGap(init);
      assert Stage(dirs)[..|dirs| - 1] == Stage(init);
      OneMoreStage(init, dirs[|dirs| - 1]);
      assert dirs == init + [dirs[|dirs| - 1]];
    }
  }

  lemma OneMoreStage(init: seq<UpgradeDir>, dir: UpgradeDir)
    requires HistoryOf(init).Ok? && Extend(HistoryOf(init).value, dir).Ok?
    requires ChainAfter(SinceGap(Stage(init))) == Ok(HistoryOf(init).value.prevStage2)
    ensures ChainAfter(SinceGap(Stage(init + [dir]))) == Ok(Extend(HistoryOf(init).value, dir).value.prevStage2)
  {
    var stages := Stage(init + [dir]);
    assert stages[..|init|] == Stage(init);
    if dir.stage2.Some? {
      var since := SinceGap(stages);
      assert since[..|since| - 1] == SinceGap(Stage(init));
    }
  }

  lemma {:induction false} LastPublishedOfBoth(before: Upgrades, since: Upgrades, name: string)
    ensures LastPublished(before + since, name) == OrElse(LastPublished(since, name), LastPublished(before, name))
  {
    if since == [] {
      assert before + since == before;
    } else {
      assert (before + since)[..|before + since| - 1] == before + since[..|since| - 1];
      LastPublishedOfBoth(before, since[..|since| - 1], name);
    }
  }

  /** The part before and at the last gap. */
  function UpToGap(upgrades: Upgrades): Upgrades {
    if |SinceGap(upgrades)| <= |upgrades| then upgrades[..|upgrades| - |SinceGap(upgrades)|] else []
  }

  /** Staging reports what was last published for a system contract exactly when the contract was
      published since the last gap, or never before it. */
  lemma {:induction false} StageReportsLastPublishedExactlyWhen(dirs: seq<UpgradeDir>, name: string)
    requires HistoryOf(dirs).Ok? && HistoryOf(dirs).value.prevStage2.Some?
    ensures
      var stages := Stage(dirs);
      BytecodeOf(HistoryOf(dirs).value.prevStage2.value.systemContracts, name) == LastPublished(stages, name) <==>
      LastPublished(SinceGap(stages), name).Some? || LastPublished(UpToGap(stages), name).None?
  {
    var stages := Stage(dirs);
    StageStartsOverAfterGap(dirs);
    StateIsLastPublished(SinceGap(stages), name);
    SinceGapIsLongest(stages);
    assert stages == UpToGap(stages) + SinceGap(stages);
    LastPublishedOfBoth(UpToGap(stages), SinceGap(stages), name);
  }

  /** The first state of an environment that lists its account, its bootloader and some contracts. */
  lemma FirstState(upgrade: L2Upgrade)
    requires HashOf(upgrade.defaultAA).Some? && HashOf(upgrade.bootloader).Some? && Publish(map[], upgrade.systemContracts).Ok?
    ensures StateAfter(upgrade, None).Ok?
    ensures StateAfter(upgrade, None).value.systemContracts == Publish(map[], upgrade.systemContracts).value
  {
  }

  lemma ThreeDirs(d1: UpgradeDir, d2: UpgradeDir, d3: UpgradeDir, first: L2Upgrade, third: L2Upgrade)
    requires d1 == UpgradeDir(Some(12), None, None, Some(first)) && d2 == UpgradeDir(Some(13), None, None, None)
    requires d3 == UpgradeDir(Some(14), None, None, Some(third))
    requires StateAfter(first, None).Ok? && StateAfter(third, None).Ok?
    ensures HistoryOf([d1, d2, d3]).Ok?
    ensures HistoryOf([d1, d2, d3]).value.prevStage2 == Some(StateAfter(third, None).value)
  {
    assert [d1, d2, d3][..2] == [d1, d2] && [d1, d2][..1] == [d1] && [d1][..0] == [];
    assert HistoryOf([d1]).Ok? && HistoryOf([d1]).value.lastVersion == 12;
    assert HistoryOf([d1, d2]).Ok? && HistoryOf([d1, d2]).value.lastVersion == 13;
  }

  function Holder(hash: string): SystemContract {
    SystemContract("NonceHolder", [hash], Some(SYSTEM_CONTRACT_MAP["NonceHolder"]))
  }

  lemma HolderIsPublished(hash: string)
    ensures Publish(map[], [Holder(hash)]).Ok? && LastIn([Holder(hash)], "NonceHolder") == Some(hash)
  {
    assert [Holder(hash)][..0] == [];
  }

  /** Three directories, the second without staging: the nonce holder published by the first is no
      longer part of the staging state after the third. */
  lemma StageLosesBytecode()
    ensures
      var aa, boot := Some(Contract("DefaultAccount", "aa")), Some(Contract("Bootloader", "boot"));
      var first := L2Upgrade(aa, boot, [Holder("code")], [], "", "", "");
      var third := L2Upgrade(aa, boot, [], [], "", "", "");
      var dirs := [UpgradeDir(Some(12), None, None, Some(first)), UpgradeDir(Some(13), None, None, None),
                   UpgradeDir(Some(14), None, None, Some(third))];
      && LastPublished(Stage(dirs), "NonceHolder") == Some("code")
      && HistoryOf(dirs).Ok? && HistoryOf(dirs).value.prevStage2.Some?
      && "NonceHolder" !in HistoryOf(dirs).value.prevStage2.value.systemContracts
  {
    var aa, boot := Some(Contract("DefaultAccount", "aa")), Some(Contract("Bootloader", "boot"));
    var first := L2Upgrade(aa, boot, [Holder("code")], [], "", "", "");
    var third := L2Upgrade(aa, boot, [], [], "", "", "");
    var dirs := [UpgradeDir(Some(12), None, None, Some(first)), UpgradeDir(Some(13), None, None, None),
                 UpgradeDir(Some(14), None, None, Some(third))];
    HolderIsPublished("code");
    FirstState(first);
    FirstState(third);
    ThreeDirs(dirs[0], dirs[1], dirs[2], first, third);
    assert Stage(dirs) == [Some(first)] + [None, Some(third)];
    assert [None, Some(third)][..1] == [None] && [Some(first)][..0] == [];
    LastPublishedOfBoth([Some(first)], [None, Some(third)], "NonceHolder");
  }

  // ---------------------------------------------------------------------------------------------
  // Entries of the versions
  // ---------------------------------------------------------------------------------------------

  /** What the entry of the directory number i says: the state of each environment that is part of
      the directory, and the staging state since its last gap. */
  predicate IsEntry(dirs: seq<UpgradeDir>, i: nat, entry: ChainsAtProtocolVersion)
    requires i < |dirs|
  {
    var seen := dirs[..i + 1];
    && (if dirs[i].mainnet2.Some? then ChainAfter(Mainnet(seen)) == Ok(entry.mainnet2) else entry.mainnet2 == None)
    && (if dirs[i].testnet2.Some? then ChainAfter(Testnet(seen)) == Ok(entry.testnet2) else entry.testnet2 == None)
    && ChainAfter(SinceGap(Stage(seen))) == Ok(entry.stage2)
  }

  /** The entry of a version is what is carried on from it, for each environment that is there. */
  predicate IsLastEntry(dir: UpgradeDir, next: History, version: int) {
    && version in next.chains
    && next.chains[version].mainnet2 == (if dir.mainnet2.Some? then next.prevMainnet2 else None)
    && next.chains[version].testnet2 == (if dir.testnet2.Some? then next.prevTestnet2 else None)
    && next.chains[version].stage2 == next.prevStage2
  }

  predicate KeepsEntries(history: History, next: History) {
    forall v :: v in history.chains ==> v in next.chains && next.chains[v] == history.chains[v]
  }

  lemma ExtendSetsEntry(history: History, dir: UpgradeDir)
    ensures Extend(history, dir).Ok? ==> IsLastEntry(dir, Extend(history, dir).value, history.lastVersion + 1)
  {
  }

  lemma ExtendKeepsEntries(history: History, dir: UpgradeDir)
    ensures Extend(history, dir).Ok? && history.lastVersion + 1 !in history.chains ==>
      KeepsEntries(history, Extend(history, dir).value)
  {
  }

  lemma {:induction false} HistorySetsEntry(dirs: seq<UpgradeDir>)
    requires dirs != [] && HistoryOf(dirs).Ok?
    ensures IsLastEntry(dirs[|dirs| - 1], HistoryOf(dirs).value, 11 + |dirs|)
  {
    var init := dirs[..|dirs| - 1];
    VersionsAreConsecutive(init);
    ExtendSetsEntry(HistoryOf(init).value, dirs[|dirs| - 1]);
  }

  lemma {:induction false} HistoryKeepsEntries(dirs: seq<UpgradeDir>)
    requires dirs != [] && HistoryOf(dirs).Ok?
    ensures KeepsEntries(HistoryOf(dirs[..|dirs| - 1]).value, HistoryOf(dirs).value)
  {
    var init := dirs[..|dirs| - 1];
    VersionsAreConsecutive(init);
    ExtendKeepsEntries(HistoryOf(init).value, dirs[|dirs| - 1]);
  }

  lemma {:induction false} EntryOfAll(dirs: seq<UpgradeDir>, next: History, version: int)
    requires dirs != [] && IsLastEntry(dirs[|dirs| - 1], next, version)
    requires ChainAfter(Mainnet(dirs)) == Ok(next.prevMainnet2) && ChainAfter(Testnet(dirs)) == Ok(next.prevTestnet2)
    requires ChainAfter(SinceGap(Stage(dirs))) == Ok(next.prevStage2)
    ensures IsEntry(dirs, |dirs| - 1, next.chains[version])
  {
    assert dirs[..|dirs|] == dirs;
  }

  lemma {:induction false} LastEntry(dirs: seq<UpgradeDir>)
    requires dirs != [] && HistoryOf(dirs).Ok?
    ensures 11 + |dirs| in HistoryOf(dirs).value.chains
    ensures IsEntry(dirs, |dirs| - 1, HistoryOf(dirs).value.chains[11 + |dirs|])
  {
    HistorySetsEntry(dirs);
    PreviousStatesAreChains(dirs);
    StageStartsOverAfterGap(dirs);
    EntryOfAll(dirs, HistoryOf(dirs).value, 11 + |dirs|);
  }

  lemma {:induction false} EarlierEntry(dirs: seq<UpgradeDir>, i: nat, entry: ChainsAtProtocolVersion)
    requires i < |dirs| - 1 && IsEntry(dirs[..|dirs| - 1], i, entry)
    ensures IsEntry(dirs, i, entry)
  {
    assert dirs[..|dirs| - 1][..i + 1] == dirs[..i + 1];
  }

  /** The entry of every version. */
  lemma {:induction false} EntriesAreChains(dirs: seq<UpgradeDir>, i: nat)
    requires HistoryOf(dirs).Ok? && i < |dirs|
    ensures 12 + i in HistoryOf(dirs).value.chains && IsEntry(dirs, i, HistoryOf(dirs).value.chains[12 + i])
  {
    if i == |dirs| - 1 {
      LastEntry(dirs);
    } else {
      var init := dirs[..|dirs| - 1];
      EntriesAreChains(init, i);
      HistoryKeepsEntries(dirs);
      EarlierEntry(dirs, i, HistoryOf(init).value.chains[12 + i]);
    }
  }

  // ---------------------------------------------------------------------------------------------
  // Consistency between environments
  // ---------------------------------------------------------------------------------------------

  /** The code of a chain, without the bookkeeping of changes. */
  function CodeOf(contracts: Contracts): map<string, string> {
    map key | key in contracts :: contracts[key].bytecode
  }

  predicate SameCode(chain1: ChainState, chain2: ChainState) {
    && chain1.bootloader.bytecode == chain2.bootloader.bytecode
    && chain1.defaultAA.bytecode == chain2.defaultAA.bytecode
    && CodeOf(chain1.systemContracts) == CodeOf(chain2.systemContracts)
  }

  /** Accepts exactly chains with the same code. */
  method CheckBytecodeConsistency(chain1: ChainState, chain2: ChainState) returns (result: Result<(), string>)
    ensures result.Ok? <==> SameCode(chain1, chain2)
  {
    if chain1.bootloader.bytecode != chain2.bootloader.bytecode {
      return Err("Inconsistent bootloader bytecode");
    }
    if chain1.defaultAA.bytecode != chain2.defaultAA.bytecode {
      return Err("Inconsistent AA bytecode");
    }
    ghost var code1, code2 := CodeOf(chain1.systemContracts), CodeOf(chain2.systemContracts);
    var left := chain1.systemContracts.Keys;
    while left != {}
      invariant left <= chain1.systemContracts.Keys
      invariant forall key :: key in code1 && key !in left ==> key in code2 && code1[key] == code2[key]
      decreases |left|
    {
      var key :| key in left;
      if key !in chain2.systemContracts {
        assert key in code1 && key !in code2;
        return Err("Missing system contract");
      }
      if chain1.systemContracts[key].bytecode != chain2.systemContracts[key].bytecode {
        assert code1[key] != code2[key];
        return Err("Different bytecode");
      }
      left := left - {key};
    }
    left := chain2.systemContracts.Keys;
    while left != {}
      invariant left <= chain2.systemContracts.Keys
      invariant forall key :: key in code2 && key !in left ==> key in code1
      decreases |left|
    {
      var key :| key in left;
      if key !in chain1.systemContracts {
        assert key in code2 && key !in code1;
        return Err("Missing system contract");
      }
      left := left - {key};
    }
    assert code1 == code2;
    return Ok(());
  }

  /** `checkBytecodeConsistencyBetweenEnvironments` for one version; an absent staging state is an
      error of its own. */
  predicate VersionIsConsistent(chains: ChainsAtProtocolVersion) {
    && (chains.testnet2.Some? ==> chains.stage2.Some? && SameCode(chains.testnet2.value, chains.stage2.value))
    && (chains.mainnet2.Some? ==> chains.stage2.Some? && SameCode(chains.mainnet2.value, chains.stage2.value))
  }

  /** If all versions pass, mainnet and testnet have last published the same bytecode for every
      system contract whenever both are part of a directory. */
  lemma ConsistentNetworksPublishTheSame(dirs: seq<UpgradeDir>, i: nat, name: string)
    requires HistoryOf(dirs).Ok? && i < |dirs| && dirs[i].mainnet2.Some? && dirs[i].testnet2.Some?
    requires 12 + i in HistoryOf(dirs).value.chains && VersionIsConsistent(HistoryOf(dirs).value.chains[12 + i])
    ensures LastPublished(Mainnet(dirs[..i + 1]), name) == LastPublished(Testnet(dirs[..i + 1]), name)
    ensures LastDefaultAA(Mainnet(dirs[..i + 1])) == LastDefaultAA(Testnet(dirs[..i + 1]))
  {
    EntriesAreChains(dirs, i);
    EntryIsPresent(Mainnet(dirs[..i + 1]));
    EntryIsPresent(Testnet(dirs[..i + 1]));
    StateIsLastPublished(Mainnet(dirs[..i + 1]), name);
    StateIsLastPublished(Testnet(dirs[..i + 1]), name);
    var entry := HistoryOf(dirs).value.chains[12 + i];
    BytecodeIsCode(entry.mainnet2.value.systemContracts, name);
    BytecodeIsCode(entry.testnet2.value.systemContracts, name);
  }

  lemma BytecodeIsCode(contracts: Contracts, name: string)
    ensures BytecodeOf(contracts, name) == if name in CodeOf(contracts) then Some(CodeOf(contracts)[name]) else None
  {
  }

  lemma {:induction false} EntryIsPresent(upgrades: Upgrades)
    requires upgrades != [] && upgrades[|upgrades| - 1].Some? && ChainAfter(upgrades).Ok?
    ensures ChainAfter(upgrades).value.Some?
  {
  }
}
