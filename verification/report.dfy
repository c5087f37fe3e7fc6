/** What test/validate-wallets.js and test/test-multi-chain.js share:
    validating an object of address lists keyed by chain, chain by chain
    in key order, and the text of the per-chain report they write. The
    two differ only in the title, in the network type used when none is
    configured (`"mainnet"` against the validator's own default) and in
    the label printed then (`"mainnet"` against `"默认"`). */
module Report {
  import opened Wrappers
  import opened Text
  import Dict
  import opened Validator

  /** `networkTypes[chain] || fallback` */
  function TypeOr(networkTypes: Dict.Entries<string>, chain: string, fallback: string): (t: string)
    ensures Dict.Get(networkTypes, chain).Some? && Dict.Get(networkTypes, chain).value != "" ==> t == Dict.Get(networkTypes, chain).value
    ensures Dict.Get(networkTypes, chain).None? || Dict.Get(networkTypes, chain).value == "" ==> t == fallback
  {
    var given := Dict.Get(networkTypes, chain).GetOr("");
    if given != "" then given else fallback
  }

  /** The results by chain: for each chain, in key order, its addresses
      checked in order against its network type. */
  function CheckGroups(o: Oracles, byChain: Dict.Entries<seq<string>>, networkTypes: Dict.Entries<string>, fallback: string)
    : (r: Dict.Entries<seq<Checked>>)
    ensures |r| == |byChain|
    decreases |byChain|
  {
    if byChain == [] then []
    else
      var n := |byChain| - 1;
      var (chain, addresses) := byChain[n];
      CheckGroups(o, byChain[..n], networkTypes, fallback)
        + [(chain, CheckAll(o, addresses, chain, TypeOr(networkTypes, chain, fallback)))]
  }

  /** The `i`-th chain's results are its own addresses checked in order. */
  lemma {:induction false} CheckGroupsAt(o: Oracles, byChain: Dict.Entries<seq<string>>, networkTypes: Dict.Entries<string>,
                                         fallback: string, i: nat)
    requires i < |byChain|
    ensures var (chain, addresses) := byChain[i];
            CheckGroups(o, byChain, networkTypes, fallback)[i] == (chain, CheckAll(o, addresses, chain, TypeOr(networkTypes, chain, fallback)))
    decreases |byChain|
  {
    var n := |byChain| - 1;
    if i < n {
      CheckGroupsAt(o, byChain[..n], networkTypes, fallback, i);
    }
  }

  /** The results carry exactly the chains of the input, in order. */
  lemma {:induction false} CheckGroupsKeys(o: Oracles, byChain: Dict.Entries<seq<string>>, networkTypes: Dict.Entries<string>, fallback: string)
    ensures Dict.Keys(CheckGroups(o, byChain, networkTypes, fallback)) == Dict.Keys(byChain)
  {
    var r := CheckGroups(o, byChain, networkTypes, fallback);
    forall i | 0 <= i < |byChain|
      ensures r[i].0 == byChain[i].0
    {
      CheckGroupsAt(o, byChain, networkTypes, fallback, i);
    }
  }

  /** The number of addresses in the lists. */
  function AddressCount(byChain: Dict.Entries<seq<string>>): nat
    decreases |byChain|
  {
    if byChain == [] then 0
    else
      var n := |byChain| - 1;
      AddressCount(byChain[..n]) + |byChain[n].1|
  }

  /** The number of results. */
  function Total(results: Dict.Entries<seq<Checked>>): nat
    decreases |results|
  {
    if results == [] then 0
    else
      var n := |results| - 1;
      Total(results[..n]) + |results[n].1|
  }

  /** The number of valid results; never more than the results. */
  function TotalValid(results: Dict.Entries<seq<Checked>>): (valid: nat)
    ensures valid <= Total(results)
    decreases |results|
  {
    if results == [] then 0
    else
      var n := |results| - 1;
      TotalValid(results[..n]) + ValidCount(results[n].1)
  }

  /** There is one result per address. */
  lemma {:induction false} TotalIsAddressCount(o: Oracles, byChain: Dict.Entries<seq<string>>, networkTypes: Dict.Entries<string>, fallback: string)
    ensures Total(CheckGroups(o, byChain, networkTypes, fallback)) == AddressCount(byChain)
    decreases |byChain|
  {
    if byChain != [] {
      var n := |byChain| - 1;
      TotalIsAddressCount(o, byChain[..n], networkTypes, fallback);
      var r := CheckGroups(o, byChain, networkTypes, fallback);
      assert r[..n] == CheckGroups(o, byChain[..n], networkTypes, fallback);
    }
  }

  /** One chain's inner loop: the results of its addresses and how many
      of them are valid. */
  method ValidateChain(o: Oracles, addresses: seq<string>, chain: string, networkType: string)
    returns (results: seq<Checked>, valid: nat)
    ensures results == CheckAll(o, addresses, chain, networkType)
    ensures valid == ValidCount(results)
  {
    results := [];
    valid := 0;
    var i := 0;
    while i < |addresses|
      invariant i <= |addresses|
      invariant results == CheckAll(o, addresses[..i], chain, networkType)
      invariant valid == ValidCount(results)
    {
      var result := ValidateAddress(o, addresses[i], chain, networkType);
      assert addresses[..i + 1][..i] == addresses[..i];
      results := results + [Checked(addresses[i], result)];
      assert results[..|results| - 1] == CheckAll(o, addresses[..i], chain, networkType);
      if result.Valid? {
        valid := valid + 1;
      }
      i := i + 1;
    }
    assert addresses[..i] == addresses;
  }

  /** The loop over `for (const chain in addressesByChain)`: the results
      by chain, the number of addresses checked and how many were valid. */
  method ValidateByChain(o: Oracles, byChain: Dict.Entries<seq<string>>, networkTypes: Dict.Entries<string>, fallback: string)
    returns (resultsByChain: Dict.Entries<seq<Checked>>, totalAddresses: nat, totalValid: nat)
    ensures resultsByChain == CheckGroups(o, byChain, networkTypes, fallback)
    ensures totalAddresses == Total(resultsByChain) && totalValid == TotalValid(resultsByChain)
  {
    resultsByChain := [];
    totalAddresses := 0;
    totalValid := 0;
    var k := 0;
    while k < |byChain|
      invariant k <= |byChain|
      invariant resultsByChain == CheckGroups(o, byChain[..k], networkTypes, fallback)
      invariant totalAddresses == Total(resultsByChain) && totalValid == TotalValid(resultsByChain)
    {
      var (chain, addresses) := byChain[k];
      var networkType := TypeOr(networkTypes, chain, fallback);
      var results, valid := ValidateChain(o, addresses, chain, networkType);
      assert byChain[..k + 1][..k] == byChain[..k];
      resultsByChain := resultsByChain + [(chain, results)];
      assert resultsByChain[..|resultsByChain| - 1] == CheckGroups(o, byChain[..k], networkTypes, fallback);
      totalAddresses := totalAddresses + |results|;
      totalValid := totalValid + valid;
      k := k + 1;
    }
    assert byChain[..k] == byChain;
  }

  // ---------------------------------------------------------------------
  // the report

  /** The entry of the `index`-th (from 0) valid result. */
  function ListedEntry(index: nat, c: Checked): string
    requires c.result.Valid?
  {
    ListedLine(index, c) + (if c.result.networkError then NetworkNote else "") + "\n"
  }

  /** `${index + 1}. ${result.address} 余额: ${result.balance}\n` */
  function ListedLine(index: nat, c: Checked): string
    requires c.result.Valid?
  {
    Decimal(index + 1) + ". " + c.address + " 余额: " + c.result.balance + "\n"
  }

  lemma ListedEntryAfter(output: string, done: string, k: nat, c: Checked)
    requires c.result.Valid?
    ensures output + done + ListedLine(k, c) + (if c.result.networkError then NetworkNote else "") + "\n"
            == output + (done + ListedEntry(k, c))
  {
  }

  lemma ListedEntriesStep(valid: seq<Checked>, k: nat)
    requires k < |valid|
    requires forall j :: 0 <= j < |valid| ==> valid[j].result.Valid?
    ensures ListedEntries(valid[..k + 1]) == ListedEntries(valid[..k]) + ListedEntry(k, valid[k])
  {
    assert valid[..k + 1][..k] == valid[..k];
  }

  function ListedEntries(valid: seq<Checked>): string
    requires forall k :: 0 <= k < |valid| ==> valid[k].result.Valid?
    decreases |valid|
  {
    if valid == [] then ""
    else
      var n := |valid| - 1;
      ListedEntries(valid[..n]) + ListedEntry(n, valid[n])
  }

  /** The section of valid results, present only when there is one. */
  function ValidSection(results: seq<Checked>): string {
    if ValidCount(results) > 0 then "--- 有效地址 ---\n\n" + ListedEntries(ValidOnes(results)) else ""
  }

  /** One chain's block of the report. */
  function ChainSection(chain: string, network: string, results: seq<Checked>): string {
    var valid := ValidCount(results);
    "=== " + chain + " 验证结果 ===\n" + "网络: " + network + "\n"
      + "总地址数: " + Decimal(|results|) + "\n" + "有效地址: " + Decimal(valid) + "\n"
      + "无效地址: " + Decimal(|results| - valid) + "\n\n"
      + ValidSection(results) + InvalidSection(results) + "\n"
  }

  /** The blocks of all chains, in key order. */
  function Sections(results: Dict.Entries<seq<Checked>>, networkTypes: Dict.Entries<string>, fallbackLabel: string): string
    decreases |results|
  {
    if results == [] then ""
    else
      var n := |results| - 1;
      Sections(results[..n], networkTypes, fallbackLabel)
        + ChainSection(results[n].0, TypeOr(networkTypes, results[n].0, fallbackLabel), results[n].1)
  }

  /** The closing totals. */
  function Totals(results: Dict.Entries<seq<Checked>>): string {
    "===== 总体统计 =====\n\n"
      + "总验证地址: " + Decimal(Total(results)) + "\n"
      + "总有效地址: " + Decimal(TotalValid(results)) + "\n"
      + "总无效地址: " + Decimal(Total(results) - TotalValid(results)) + "\n"
  }

  /** The whole report. */
  function ChainsReport(title: string, timestamp: string, results: Dict.Entries<seq<Checked>>,
                        networkTypes: Dict.Entries<string>, fallbackLabel: string): string {
    title + "\n\n" + "验证时间: " + timestamp + "\n\n" + Sections(results, networkTypes, fallbackLabel) + Totals(results)
  }

  /** The `forEach` over the valid results of one chain. */
  method AppendListedEntries(output: string, valid: seq<Checked>) returns (r: string)
    requires forall k :: 0 <= k < |valid| ==> valid[k].result.Valid?
    ensures r == output + ListedEntries(valid)
  {
    r := output;
    var k := 0;
    while k < |valid|
      invariant k <= |valid|
      invariant r == output + ListedEntries(valid[..k])
    {
      r := r + ListedLine(k, valid[k]);
      if valid[k].result.networkError {
        r := r + NetworkNote;
      } else {
        assert r == r + "";
      }
      r := r + "\n";
      ListedEntriesStep(valid, k);
      ListedEntryAfter(output, ListedEntries(valid[..k]), k, valid[k]);
      k := k + 1;
    }
    assert valid[..k] == valid;
  }

  /** The statistics lines of one chain's block. */
  method WriteChainHead(chain: string, network: string, results: seq<Checked>) returns (head: string)
    ensures ChainSection(chain, network, results) == head + ValidSection(results) + InvalidSection(results) + "\n"
  {
    var validAddresses := ValidCount(results);
    var invalidAddresses := |results| - validAddresses;
    head := "=== " + chain + " 验证结果 ===\n";
    head := head + "网络: " + network + "\n";
    head := head + "总地址数: " + Decimal(|results|) + "\n";
    head := head + "有效地址: " + Decimal(validAddresses) + "\n";
    head := head + "无效地址: " + Decimal(invalidAddresses) + "\n\n";
  }

  /** The valid results' block, when there is one. */
  method AppendValidSection(output: string, results: seq<Checked>) returns (r: string)
    ensures r == output + ValidSection(results)
  {
    r := output;
    if ValidCount(results) > 0 {
      r := r + "--- 有效地址 ---\n\n";
      r := AppendListedEntries(r, ValidOnes(results));
    } else {
      assert r + ValidSection(results) == r;
    }
  }

  /** The invalid results' block, when there is one. */
  method AppendInvalidSection(output: string, results: seq<Checked>) returns (r: string)
    ensures r == output + InvalidSection(results)
  {
    r := output;
    if |results| - ValidCount(results) > 0 {
      r := r + "--- 无效地址 ---\n\n";
      r := AppendInvalidEntries(r, InvalidOnes(results));
    } else {
      assert r + InvalidSection(results) == r;
    }
  }

  /** One chain's block appended to `output`. */
  method AppendChainSection(output: string, chain: string, network: string, results: seq<Checked>) returns (r: string)
    ensures r == output + ChainSection(chain, network, results)
  {
    var head := WriteChainHead(chain, network, results);
    var body := AppendValidSection(head, results);
    body := AppendInvalidSection(body, results);
    body := body + "\n";
    r := output + body;
  }

  /** What one more chain adds to the blocks. */
  lemma SectionsStep(results: Dict.Entries<seq<Checked>>, k: nat, networkTypes: Dict.Entries<string>, fallbackLabel: string)
    requires k < |results|
    ensures Sections(results[..k + 1], networkTypes, fallbackLabel)
              == Sections(results[..k], networkTypes, fallbackLabel)
                 + ChainSection(results[k].0, TypeOr(networkTypes, results[k].0, fallbackLabel), results[k].1)
  {
    assert results[..k + 1][..k] == results[..k];
  }

  /** What one more chain adds to the totals. */
  lemma TotalsStep(results: Dict.Entries<seq<Checked>>, k: nat)
    requires k < |results|
    ensures Total(results[..k + 1]) == Total(results[..k]) + |results[k].1|
    ensures TotalValid(results[..k + 1]) == TotalValid(results[..k]) + ValidCount(results[k].1)
  {
    assert results[..k + 1][..k] == results[..k];
  }

  /** The `k`-th chain's block after those before it. */
  method AppendNextSection(output: string, r: string, results: Dict.Entries<seq<Checked>>, k: nat,
                           networkTypes: Dict.Entries<string>, fallbackLabel: string) returns (r': string)
    requires k < |results|
    requires r == output + Sections(results[..k], networkTypes, fallbackLabel)
    ensures r' == output + Sections(results[..k + 1], networkTypes, fallbackLabel)
  {
    var (chain, chainResults) := results[k];
    var network := TypeOr(networkTypes, chain, fallbackLabel);
    r' := AppendChainSection(r, chain, network, chainResults);
    SectionsStep(results, k, networkTypes, fallbackLabel);
    var done := Sections(results[..k], networkTypes, fallbackLabel);
    AppendTwice(output, done, ChainSection(chain, network, chainResults));
  }

  /** The loop over `for (const chain in results)`: each chain's block,
      with the running totals. */
  method AppendSections(output: string, results: Dict.Entries<seq<Checked>>,
                        networkTypes: Dict.Entries<string>, fallbackLabel: string)
    returns (r: string, totalAddresses: nat, totalValid: nat, totalInvalid: nat)
    ensures r == output + Sections(results, networkTypes, fallbackLabel)
    ensures totalAddresses == Total(results) && totalValid == TotalValid(results)
    ensures totalInvalid == totalAddresses - totalValid
  {
    r := output;
    totalAddresses, totalValid, totalInvalid := 0, 0, 0;
    var k := 0;
    while k < |results|
      invariant k <= |results|
      invariant r == output + Sections(results[..k], networkTypes, fallbackLabel)
      invariant totalAddresses == Total(results[..k]) && totalValid == TotalValid(results[..k])
      invariant totalInvalid == totalAddresses - totalValid
    {
      var (chain, chainResults) := results[k];
      var validAddresses := ValidCount(chainResults);
      var invalidAddresses := |chainResults| - validAddresses;
      TotalsStep(results, k);
      totalAddresses := totalAddresses + |chainResults|;
      totalValid := totalValid + validAddresses;
      totalInvalid := totalInvalid + invalidAddresses;
      r := AppendNextSection(output, r, results, k, networkTypes, fallbackLabel);
      k := k + 1;
    }
    assert results[..k] == results;
  }

  /** The closing totals appended to `output`. */
  method AppendTotals(output: string, results: Dict.Entries<seq<Checked>>, totalAddresses: nat, totalValid: nat, totalInvalid: nat)
    returns (r: string)
    requires totalAddresses == Total(results) && totalValid == TotalValid(results)
    requires totalInvalid == totalAddresses - totalValid
    ensures r == output + Totals(results)
  {
    var totals := "===== 总体统计 =====\n\n";
    totals := totals + "总验证地址: " + Decimal(totalAddresses) + "\n";
    totals := totals + "总有效地址: " + Decimal(totalValid) + "\n";
    totals := totals + "总无效地址: " + Decimal(totalInvalid) + "\n";
    r := output + totals;
  }

  /** The report text: the title and time, each chain's block in key
      order, and the totals, the invalid total being the sum of the
      chains' invalid counts. */
  method WriteChainsReport(title: string, timestamp: string, results: Dict.Entries<seq<Checked>>,
                           networkTypes: Dict.Entries<string>, fallbackLabel: string)
    returns (output: string)
    ensures output == ChainsReport(title, timestamp, results, networkTypes, fallbackLabel)
  {
    output := title + "\n\n";
    output := output + "验证时间: " + timestamp + "\n\n";
    var totalAddresses, totalValid, totalInvalid;
    output, totalAddresses, totalValid, totalInvalid := AppendSections(output, results, networkTypes, fallbackLabel);
    output := AppendTotals(output, results, totalAddresses, totalValid, totalInvalid);
  }
}
