/** test/test-multi-chain.js: a file of `CHAIN=address` lines, validated
    chain by chain, the report it saves, and its command line. */
module MultiChain {
  import opened Wrappers
  import opened Text
  import Dict
  import Validator
  import Report
  import CommandLine

  // ---------------------------------------------------------------------
  // readMultiChainAddressesFromFile

  /** The `(chain, address)` pair one line gives: a kept line (neither
      blank nor a comment) with exactly one `=`, the chain trimmed and
      upper-cased, the address trimmed. */
  function PairOf(line: string): (r: Option<(string, string)>)
    ensures r.Some? <==> Validator.Kept(Trim(line)) && Count(Trim(line), '=') == 1
    ensures r.Some? ==> IsUpper(r.value.0) && '=' !in r.value.0 && '=' !in r.value.1 && NoEdgeSpace(r.value.1)
  {
    var trimmedLine := Trim(line);
    if !Validator.Kept(trimmedLine) then None
    else
      var parts := Split(trimmedLine, '=');
      if |parts| == 2 then
        var chain := Trim(parts[0]);
        UpperIsUpper(chain);
        TrimKeepsOut(parts[0], '=');
        TrimKeepsOut(parts[1], '=');
        UpperKeepsChars(chain, '=');
        Some((ToUpper(chain), Trim(parts[1])))
      else None
  }

  /** Trimming adds no character. */
  lemma TrimKeepsOut(s: string, c: char)
    requires c !in s
    ensures c !in Trim(s)
  {
    var t := TrimStart(s);
    assert t == s[|s| - |t|..];
    assert c !in t;
    assert TrimEnd(t) == t[..|TrimEnd(t)|];
  }

  /** Upper-casing neither adds nor removes an `=`. */
  lemma UpperKeepsChars(s: string, c: char)
    requires c == '='
    ensures c in ToUpper(s) <==> c in s
  {
    if c in s {
      var k :| 0 <= k < |s| && s[k] == c;
      assert ToUpper(s)[k] == c;
    }
    if c in ToUpper(s) {
      var k :| 0 <= k < |s| && ToUpper(s)[k] == c;
      assert s[k] == c;
    }
  }

  /** The pairs of the lines, in order. */
  function Pairs(lines: seq<string>): seq<(string, string)>
    decreases |lines|
  {
    if lines == [] then []
    else
      var n := |lines| - 1;
      Pairs(lines[..n]) + (match PairOf(lines[n]) case Some(p) => [p] case None => [])
  }

  method ReadMultiChainAddressesFromFile(lines: seq<string>) returns (addressesByChain: Dict.Entries<seq<string>>)
    ensures addressesByChain == Dict.Collect(Pairs(lines))
  {
    addressesByChain := [];
    ghost var found: seq<(string, string)> := [];
    var i := 0;
    while i < |lines|
      invariant i <= |lines|
      invariant found == Pairs(lines[..i])
      invariant addressesByChain == Dict.Collect(found)
    {
      PairsStep(lines, i);
      var trimmedLine := Trim(lines[i]);
      if trimmedLine != "" && !StartsWith(trimmedLine, "#") {
        var parts := Split(trimmedLine, '=');
        if |parts| == 2 {
          var chain := ToUpper(Trim(parts[0]));
          var address := Trim(parts[1]);
          Dict.CollectSnoc(found, chain, address);
          addressesByChain := Dict.Push(addressesByChain, chain, address);
          found := found + [(chain, address)];
        }
      }
      i := i + 1;
    }
    assert lines[..i] == lines;
  }

  lemma PairsStep(lines: seq<string>, i: nat)
    requires i < |lines|
    ensures Pairs(lines[..i + 1]) == Pairs(lines[..i]) + (match PairOf(lines[i]) case Some(p) => [p] case None => [])
  {
    assert lines[..i + 1][..i] == lines[..i];
  }

  /** Every chain read is upper case. */
  lemma {:induction false} PairsUpper(lines: seq<string>)
    ensures forall k :: 0 <= k < |Pairs(lines)| ==> IsUpper(Pairs(lines)[k].0)
    decreases |lines|
  {
    if lines != [] {
      PairsUpper(lines[..|lines| - 1]);
    }
  }

  /** The chains of the object read are upper case, and each holds the
      addresses of its lines in file order. */
  lemma ReadChains(lines: seq<string>, chain: string)
    requires chain in Dict.Keys(Dict.Collect(Pairs(lines)))
    ensures IsUpper(chain)
    ensures Dict.Get(Dict.Collect(Pairs(lines)), chain) == Some(Dict.Select(Pairs(lines), chain))
  {
    var pairs := Pairs(lines);
    Dict.GetDefined(Dict.Collect(pairs), chain);
    Dict.CollectGet(pairs, chain);
    Dict.SelectMember(pairs, chain, 0);
    PairsUpper(lines);
  }

  /** What a line `chain=address` needs to be read back as it is: an
      upper-case chain and an address, neither empty, neither with white
      space at its ends nor an `=`, and the chain not starting a
      comment. */
  predicate Writable(chain: string, address: string) {
    && chain != "" && address != ""
    && IsUpper(chain) && chain[0] != '#'
    && NoEdgeSpace(chain) && NoEdgeSpace(address)
    && '=' !in chain && '=' !in address
  }

  /** The line `chain=address` is read as exactly that pair. */
  lemma PairOfLine(chain: string, address: string)
    requires Writable(chain, address)
    ensures PairOf(chain + "=" + address) == Some((chain, address))
  {
    var line := chain + "=" + address;
    assert line[0] == chain[0] && line[|line| - 1] == address[|address| - 1];
    assert Trim(line) == line;
    assert !StartsWith(line, "#");
    SplitAt(chain, address, '=');
    SplitWithout(address, '=');
    Validator.UpperFixed(chain);
  }

  /** One `chain=address` line per entry. */
  function EntryLines(entries: seq<(string, string)>): (lines: seq<string>)
    ensures |lines| == |entries|
  {
    seq(|entries|, k requires 0 <= k < |entries| => entries[k].0 + "=" + entries[k].1)
  }

  /** Reading back a file of `chain=address` lines gives its pairs in
      order, so the object read groups them by chain. */
  lemma {:induction false} PairsOfEntryLines(entries: seq<(string, string)>)
    requires forall k :: 0 <= k < |entries| ==> Writable(entries[k].0, entries[k].1)
    ensures Pairs(EntryLines(entries)) == entries
    decreases |entries|
  {
    if entries != [] {
      var n := |entries| - 1;
      assert entries[..n] + [entries[n]] == entries;
      var lines := EntryLines(entries);
      assert lines[..n] == EntryLines(entries[..n]);
      PairsOfEntryLines(entries[..n]);
      assert lines[n] == entries[n].0 + "=" + entries[n].1;
      PairOfLine(entries[n].0, entries[n].1);
      assert Pairs(lines) == Pairs(lines[..n]) + [entries[n]];
    }
  }

  // ---------------------------------------------------------------------
  // batchValidateMultiChainAddresses and saveMultiChainResultsToFile

  const MultiTitle: string := "===== 多链钱包地址批量验证结果 ====="

  /** `networkTypes[chain]` is passed as it is: a chain without one is
      validated against the validator's own default. */
  const NoType: string := ""

  /** The label of a chain without a configured network type. */
  const DefaultLabel: string := "默认"

  method BatchValidateMultiChainAddresses(o: Validator.Oracles, addressesByChain: Dict.Entries<seq<string>>,
                                          networkTypes: Dict.Entries<string>)
    returns (resultsByChain: Dict.Entries<seq<Validator.Checked>>)
    ensures resultsByChain == Report.CheckGroups(o, addressesByChain, networkTypes, NoType)
  {
    var totalAddresses, totalValid;
    resultsByChain, totalAddresses, totalValid := Report.ValidateByChain(o, addressesByChain, networkTypes, NoType);
  }

  /** `saveMultiChainResultsToFile`: the report text. */
  method SaveMultiChainResultsToFile(resultsByChain: Dict.Entries<seq<Validator.Checked>>,
                                     networkTypes: Dict.Entries<string>, timestamp: string)
    returns (output: string)
    ensures output == Report.ChainsReport(MultiTitle, timestamp, resultsByChain, networkTypes, DefaultLabel)
  {
    output := Report.WriteChainsReport(MultiTitle, timestamp, resultsByChain, networkTypes, DefaultLabel);
  }

  lemma {:induction false} CheckAllDefault(o: Validator.Oracles, addresses: seq<string>, chain: string)
    requires Validator.FamilyOf(chain).Some?
    ensures Validator.CheckAll(o, addresses, chain, NoType)
      == Validator.CheckAll(o, addresses, chain, Validator.DefaultNetwork(Validator.FamilyOf(chain).value))
  {
    Validator.CheckAllMissingType(o, addresses, chain);
  }

  /** A chain of the five without a configured network type is validated
      against the validator's default for its family (`goerli` for ETH,
      `testnet` for BTC and BNB, `devnet` for SOL and SUI), while its
      block of the report names the network `默认`. */
  lemma UnconfiguredUsesDefault(o: Validator.Oracles, addressesByChain: Dict.Entries<seq<string>>,
                                networkTypes: Dict.Entries<string>, i: nat)
    requires i < |addressesByChain|
    requires Dict.Get(networkTypes, addressesByChain[i].0).None?
    requires Validator.FamilyOf(addressesByChain[i].0).Some?
    ensures var (chain, addresses) := addressesByChain[i];
            Report.CheckGroups(o, addressesByChain, networkTypes, NoType)[i]
              == (chain, Validator.CheckAll(o, addresses, chain, Validator.DefaultNetwork(Validator.FamilyOf(chain).value)))
    ensures Report.TypeOr(networkTypes, addressesByChain[i].0, DefaultLabel) == DefaultLabel
  {
    Report.CheckGroupsAt(o, addressesByChain, networkTypes, NoType, i);
    CheckAllDefault(o, addressesByChain[i].1, addressesByChain[i].0);
  }

  // ---------------------------------------------------------------------
  // parseCommandLine

  /** The `params` object: every property absent at first. */
  datatype Params = Params(file: Option<string>, output: Option<string>, networks: Option<Dict.Entries<string>>, help: bool)

  const NoParams: Params := Params(None, None, None, false)

  /** One turn of the loop at position `i`: the new `params` and the
      position of the next turn. Each `--network` starts `networks`
      afresh, so only the last one counts. */
  function Step(args: seq<string>, i: nat, p: Params): (r: (Params, nat))
    requires i < |args|
    ensures i < r.1 <= |args|
    ensures r.1 == i + 2 <==> args[i] in ["--file", "--output", "--network"] && i + 1 < |args|
  {
    var arg := args[i];
    var hasValue := i + 1 < |args|;
    if arg == "--file" && hasValue then (p.(file := Some(args[i + 1])), i + 2)
    else if arg == "--output" && hasValue then (p.(output := Some(args[i + 1])), i + 2)
    else if arg == "--network" && hasValue then
      (p.(networks := Some(CommandLine.PutAll([], CommandLine.Assignments(Split(args[i + 1], ','))))), i + 2)
    else if arg == "--help" then (p.(help := true), i + 1)
    else (p, i + 1)
  }

  function Scan(args: seq<string>, i: nat, p: Params): Params
    requires i <= |args|
    decreases |args| - i
  {
    if i == |args| then p
    else
      var (q, next) := Step(args, i, p);
      Scan(args, next, q)
  }

  method ParseCommandLine(args: seq<string>) returns (params: Params)
    ensures params == Scan(args, 0, NoParams)
  {
    params := NoParams;
    var i := 0;
    while i < |args|
      invariant i <= |args|
      invariant Scan(args, i, params) == Scan(args, 0, NoParams)
    {
      if args[i] == "--file" && i + 1 < |args| {
        params := params.(file := Some(args[i + 1]));
        i := i + 1;
      } else if args[i] == "--output" && i + 1 < |args| {
        params := params.(output := Some(args[i + 1]));
        i := i + 1;
      } else if args[i] == "--network" && i + 1 < |args| {
        var networks := CommandLine.ApplyNetworkSpec([], args[i + 1]);
        params := params.(networks := Some(networks));
        i := i + 1;
      } else if args[i] == "--help" {
        params := params.(help := true);
      }
      i := i + 1;
    }
  }

  /** The value of the last `--network` flag the loop reads from
      position `i` on, if any. */
  function LastNetworkSpec(args: seq<string>, i: nat): Option<string>
    requires i <= |args|
    decreases |args| - i
  {
    if i == |args| then None
    else
      var later := LastNetworkSpec(args, Step(args, i, NoParams).1);
      if later.Some? then later
      else if args[i] == "--network" && i + 1 < |args| then Some(args[i + 1])
      else None
  }

  /** Each `--network` starts the map afresh: after the loop the map is
      the one the last `--network` flag builds from `{}`, and nothing of
      the map before or of earlier flags remains; with no such flag the
      map is the one from before. */
  lemma {:induction false} LastNetworkFlagWins(args: seq<string>, i: nat, p: Params)
    requires i <= |args|
    ensures Scan(args, i, p).networks ==
              match LastNetworkSpec(args, i)
              case Some(spec) => Some(CommandLine.PutAll([], CommandLine.Assignments(Split(spec, ','))))
              case None => p.networks
    decreases |args| - i
  {
    if i < |args| {
      var (q, next) := Step(args, i, p);
      LastNetworkFlagWins(args, next, q);
    }
  }

  /** The flag `LastNetworkSpec` names is one the arguments hold: a
      `--network` at or after `i` followed by that value. */
  lemma {:induction false} LastNetworkSpecGiven(args: seq<string>, i: nat)
    requires i <= |args|
    ensures LastNetworkSpec(args, i).Some? ==>
              exists j :: i <= j && j + 1 < |args| && args[j] == "--network" && args[j + 1] == LastNetworkSpec(args, i).value
    decreases |args| - i
  {
    if i < |args| {
      LastNetworkSpecGiven(args, Step(args, i, NoParams).1);
    }
  }

  // ---------------------------------------------------------------------
  // main

  /** `main()` once the address file's lines are read: nothing when
      `--help` is given, when no non-empty `--file` is, or when the file holds no
      pair; otherwise the results by chain and the report text, both
      using `params.networks || {}`. */
  method ValidateAddressFile(o: Validator.Oracles, args: seq<string>, lines: seq<string>, timestamp: string)
    returns (r: Option<(Dict.Entries<seq<Validator.Checked>>, string)>)
    ensures var params := Scan(args, 0, NoParams);
            r.None? <==> params.help || params.file.None? || params.file.value == "" || Dict.Collect(Pairs(lines)) == []
    ensures var params := Scan(args, 0, NoParams);
            var networks := params.networks.GetOr([]);
            var results := Report.CheckGroups(o, Dict.Collect(Pairs(lines)), networks, NoType);
            r.Some? ==> r.value == (results, Report.ChainsReport(MultiTitle, timestamp, results, networks, DefaultLabel))
  {
    var params := ParseCommandLine(args);
    if params.help || params.file.None? || params.file.value == "" {
      return None;
    }
    var addressesByChain := ReadMultiChainAddressesFromFile(lines);
    if |addressesByChain| == 0 {
      return None;
    }
    var networks := params.networks.GetOr([]);
    var resultsByChain := BatchValidateMultiChainAddresses(o, addressesByChain, networks);
    var report := SaveMultiChainResultsToFile(resultsByChain, networks, timestamp);
    r := Some((resultsByChain, report));
  }
}
