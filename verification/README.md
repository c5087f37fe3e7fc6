# wallets-generate, modelled in Dafny

This project models the multi-chain wallet generator and its validation tools:

- `MultiChainWalletGenerator` in `index.js` (module `Generator`, file `generator.dfy`):
  - batch generation of wallet groups over a list of chain tags (BTC, ETH, SOL, SUI, TON);
  - the format-only `validateAddress`;
  - the text of `wallets.txt`, `private_keys.txt` and `mnemonic.txt`.
- `test/validate-wallets.js` (module `WalletsFile`, `wallets_file.dfy`):
  - the header-driven parser of `wallets.txt`, which is proved to read back what the generator writes;
  - the per-chain validation loop, the report text, and the `--wallet-file/--output/--network` command line.
- `test/test-multi-chain.js` (module `MultiChain`, `multi_chain.dfy`):
  - the `CHAIN=address` line reader, the grouped validation loop, the report, and its command line.
- `test/test-addresses.js` (module `Validator`, `validator.dfy`):
  - the `networkConfigs` table and the `userNetworkConfig` defaults;
  - the four `AddressValidator` validators, the Bitcoin address-type classifier, the dispatch by tag, and `validateAllAddresses`;
  - the address-list readers, `batchValidateAddresses`, `saveResultsToFile`, the batch branch of `main`, and `parseCommandLine`.

Shared pieces:

- `Report` (`report.dfy`): the per-chain report that `validate-wallets.js` and `test-multi-chain.js` both write. They differ only in the title and in the label shown when no network type is configured.
- `CommandLine` (`cli.dfy`): the `ETH=mainnet,BTC=testnet` network-map argument.
- `Dict` (`dict.dfy`): JavaScript objects with string keys, as insertion-ordered entry lists. This covers `obj[k]`, `obj[k] = v` and the `(obj[k] ||= []).push(x)` grouping.
- `Text` (`text.dfy`): the string operations JavaScript provides:
  - `trim` over ECMAScript white space;
  - ASCII case mapping and `split` on one character;
  - the lines Node's `readline` emits;
  - `length` in UTF-16 code units;
  - decimal rendering.
- `Wrappers` (`wrappers.dfy`): `Option` and `Result`.

Key cryptography and network lookups happen in libraries, which the model receives as function-typed parameters:

- `Generator.Libraries`: the key generators, each of which may fail.
- `Generator.FormatLibs`: the format checks.
- `Validator.Oracles`: the library format checks and the remote balance lookups. A lookup answers `None` for a failed or timed-out request.

Each random draw in a batch is named by where it happens, either the group's mnemonic or a given tag position in a given group. Two draws at different places are therefore independent inputs.

Files are modelled as text. Reading one is the sequence of lines `readline` emits, and writing one is the returned content. The time stamp is a parameter.

The ETH branch of `index.js`'s `validateAddress` calls `ethers.utils.isAddress`, which the ethers v6 API used in the same file does not have. The call throws, and the surrounding `catch` answers `false`, so the model answers `false` for every ETH address (index.js:205-206, 223-225).

Where the code imperatively builds a string, a list or an object, the model has a `method` with a loop and its invariants. That method is proved equal to a recursive specification function, and the lemmas are stated about that function.

## Model

| member | source | states |
|---|---|---|
| Generator.GenerateBitcoinWallet | index.js:65-90 | A fresh mnemonic is drawn only when none is supplied. The key is derived from the mnemonic at `m/44'/0'/0'/0/0`. The record carries that mnemonic and the derived address. A library error comes back as `生成BTC钱包失败: ` plus its message. |
| Generator.GenerateEthereumWallet | index.js:39-57 | The wallet is derived from the phrase when one is supplied and random otherwise. The record holds the wallet's keys and phrase. Errors carry the ETH label. |
| Generator.Independent | index.js:96-126 | The SOL, SUI and TON generators yield the drawn key pair with no mnemonic, and errors under the chain's label. |
| Generator.Generate | index.js:170-187 | The `switch (chain.toUpperCase())` knows a tag exactly when its upper case is BTC, ETH, SOL, SUI or TON. The record goes under the upper-case key. A failure's message carries a chain label. |
| Generator.GenerateMultipleWallets | index.js:160-194 | The nested loops return exactly the batch specification `Batch`: one group per iteration, in order, or the first failure. |
| Generator.FillWalletGroup | index.js:169-189 | The inner `for (const chain of chains)` loop builds the group specified by `FillGroup`, or fails with the first generator error. |
| Generator.BatchGroups | index.js:166-193 | A successful batch has exactly `count` groups. Group `i` is the group built from the `i`-th drawn mnemonic. |
| Generator.BatchSucceeds | index.js:166-193 | The batch succeeds if and only if every group succeeds. No partial batch is ever returned. |
| Generator.GroupSucceeds | index.js:169-189 | A group succeeds if and only if no known tag's generator fails. Unknown tags never make it fail. |
| Generator.BatchErrorLabelled | index.js:54-56 | Every error escaping the batch carries the label of the chain whose generator failed. |
| Generator.GroupKeys | index.js:170-187 | A group's keys are distinct. They are exactly the upper-cased known tags among `chains`; other tags add nothing. |
| Generator.SharedMnemonic | index.js:168-176 | BTC and ETH share the group mnemonic. The BTC record's `mnemonic` equals it, and the ETH record is the wallet derived from that phrase. |
| Generator.ValidateAddress | index.js:202-226 | ETH is always false. SOL is true iff the UTF-16 length is 43 or 44. SUI is true iff the address starts with `0x` and has length 42. BTC and TON are true iff their library accepts. Any other tag is false. The function is total, so it never throws. |
| Generator.LengthRuleOnly | index.js:214-217 | The SOL and SUI answers depend only on the address's length and its first two characters. |
| Generator.CoversAllEach | index.js:240-244 | `saveWalletsToFiles` needs a record under every tag, as given, in every group. |
| Generator.AddressesAt | index.js:243-246 | The address column lists each group's `chain` address, in group order. |
| Generator.PrivateKeysAt | index.js:250-253 | The private-key column lists each group's `chain` private key, in group order. |
| Generator.MnemonicsTruthy | index.js:256-263 | The mnemonic column is empty iff no group has a truthy mnemonic for the chain. It never lists an empty mnemonic. |
| Generator.AppendAddresses | index.js:243-246 | The `forEach` appends each group's address on its own line. It fails exactly when a group has no record for the chain. |
| Generator.AppendPrivateKeys | index.js:250-253 | The `forEach` appends each group's private key on its own line. |
| Generator.AppendMnemonics | index.js:258-263 | The `forEach` appends exactly the truthy mnemonics, each on its own line. |
| Generator.AppendChain | index.js:240-265 | One chain's pass appends its address and key sections. It appends a mnemonic section only when some group has a mnemonic. It fails iff a group lacks the chain. |
| Generator.SaveWalletsToFiles | index.js:233-283 | The three contents are the line specifications joined by `\n`. `mnemonic.txt` is written only when its content is non-empty. Nothing is written when a group lacks a record. |
| Generator.AddressSection | index.js:240-246 | For the `t`-th chain, `wallets.txt` is the sections before it (`t` blocks of `3 + n` lines), then its heading and one address per group in group order, then the later sections. |
| Generator.AddressLinesLength | index.js:240-246 | `wallets.txt` has exactly `3 + n` lines per chain, where `n` is the number of groups. |
| Generator.MnemonicFileWritten | index.js:256-272 | `mnemonic.txt` is written iff some chain has some group with a truthy mnemonic. |
| Generator.UnlinesHeading | index.js:242 | The heading's three lines are the text `\n=============== X Addresses ===============\n\n`. |
| WalletsFile.Recognize | test/validate-wallets.js:38-67 | A recognised line matches the header pattern of the chain it names. A line is unrecognised iff none of the five patterns matches. |
| WalletsFile.BannerMatches | test/validate-wallets.js:38-42 | The banner the generator writes for a three-character chain matches a tag's pattern iff the two agree up to case. |
| WalletsFile.BannerRecognized | test/validate-wallets.js:52-67 | Each of the five banners BTC, ETH, SOL, SUI and BNB is recognised as its own chain. |
| WalletsFile.TonBannerNotRecognized | test/validate-wallets.js:38-42 | None of the five patterns matches the TON banner. |
| WalletsFile.ParseWalletsFile | test/validate-wallets.js:18-83 | The line loop computes `Parsed`: lines are trimmed, blank lines skipped, and headers switch the chain. Other lines are pushed under the current chain, if there is one. |
| WalletsFile.ParsedWellFormed | test/validate-wallets.js:45-77 | Every chain returned is one of the five header tags and has at least one address. Every address is a non-empty trimmed line that is not a header. |
| WalletsFile.LeadingLinesDropped | test/validate-wallets.js:69-76 | Lines before the first header are dropped. |
| WalletsFile.NoHeaderNoChange | test/validate-wallets.js:69-76 | Lines without a header leave the initial state (no current chain, nothing found) unchanged. |
| WalletsFile.RunHeading | test/validate-wallets.js:46-67 | The generator's three heading lines make their chain current and store nothing. |
| WalletsFile.RunAddresses | test/validate-wallets.js:70-76 | Lines the parser stores are filed, in order, under the current chain. |
| WalletsFile.CollectTagged | test/validate-wallets.js:71-75 | Pushing addresses under a chain not yet present appends that chain with exactly those addresses, so a chain becomes a key only once an address follows it. |
| WalletsFile.ReadBack | test/validate-wallets.js:18-83 | Round trip with index.js:240-246: parsing `wallets.txt` gives the chains in the order written, each with its addresses in group order. This holds for at least one group, distinct chains among BTC/ETH/SOL/SUI/BNB, and non-blank single-line addresses. |
| WalletsFile.ForeignFiledUnderPrevious | test/validate-wallets.js:52-76 | A section whose banner matches no pattern is not read back as its own chain. Its banner and addresses are filed under the chain written before it. |
| WalletsFile.TonFiledUnderPrevious | test/validate-wallets.js:38-42 | A TON section written by index.js:242 is filed under the preceding chain, banner included. |
| WalletsFile.ValidateWallets | test/validate-wallets.js:92-187 | Each chain's addresses are checked in order against `networkTypes[chain]`, else `"mainnet"`, one result per address. `totalAddresses` counts every address, and `totalValid` counts the valid results and never exceeds it. The report saved is the chain report of those results. |
| WalletsFile.UnconfiguredIsMainnet | test/validate-wallets.js:107 | A chain without a configured type is validated as `"mainnet"`, and its report block shows `mainnet`. |
| WalletsFile.SaveValidationResults | test/validate-wallets.js:196-259 | The text is the chain report with this file's title and the `mainnet` fallback label. |
| WalletsFile.Step | test/validate-wallets.js:271-293 | One turn consumes two arguments iff the flag is `--wallet-file`, `--output` or `--network` and a value follows. Otherwise it consumes one. |
| WalletsFile.ParseCommandLine | test/validate-wallets.js:265-296 | The `for` loop with its in-loop `i++` computes the specification `Scan`. |
| WalletsFile.NetworksAccumulate | test/validate-wallets.js:267-289 | A chain given a network by one `--network` keeps one through all later arguments. |
| WalletsFile.ScanNetworks | test/validate-wallets.js:278-289 | For every argument list, the map after the loop is the starting map with the assignments of all `--network` flags applied in argument order. |
| WalletsFile.NetworkIsLastAssigned | test/validate-wallets.js:278-289 | For every argument list, a chain's network is the one in the last assignment naming it, whichever `--network` flag made that assignment. The chain is absent when no assignment names it. |
| WalletsFile.ValidateWalletFile | test/validate-wallets.js:327-377 | `main` does nothing under `--help` or when no address was parsed. Otherwise it validates the parsed chains with `params.networks` and writes their report. |
| MultiChain.PairOf | test/test-multi-chain.js:33-47 | A line yields a pair iff its trimmed form is non-empty, is not a comment, and contains exactly one `=`. The chain is then upper case and neither half contains `=`. Empty halves are kept. |
| MultiChain.ReadMultiChainAddressesFromFile | test/test-multi-chain.js:12-55 | The line loop groups the pairs by chain, as `Dict.Collect` does. |
| MultiChain.ReadChains | test/test-multi-chain.js:39-46 | Every chain read is upper case and holds exactly its lines' addresses, in file order. |
| MultiChain.PairsUpper | test/test-multi-chain.js:39 | Every chain read is upper case. |
| MultiChain.PairOfLine | test/test-multi-chain.js:36-40 | A line `chain=address`, with an upper-case chain and a trimmed address and neither containing `=`, reads back as exactly that pair. |
| MultiChain.PairsOfEntryLines | test/test-multi-chain.js:31-49 | A file of such `chain=address` lines reads back as its entries, in order. |
| MultiChain.BatchValidateMultiChainAddresses | test/test-multi-chain.js:139-212 | Each chain's results are its addresses checked in order against `networkTypes[chain]`. The keys are the input's keys. |
| MultiChain.UnconfiguredUsesDefault | test/test-multi-chain.js:150 | A known chain with no configured type is validated against its family's default network, while its report block says `默认`. |
| MultiChain.CheckAllDefault | test/test-multi-chain.js:167-171 | Passing no network type is the same as passing the family default. |
| MultiChain.SaveMultiChainResultsToFile | test/test-multi-chain.js:63-131 | The text is the chain report with this file's title and the `默认` fallback label. |
| MultiChain.Step | test/test-multi-chain.js:222-245 | One turn consumes two arguments iff the flag is `--file`, `--output` or `--network` and a value follows. |
| MultiChain.ParseCommandLine | test/test-multi-chain.js:218-248 | The loop computes the specification `Scan`. |
| MultiChain.LastNetworkFlagWins | test/test-multi-chain.js:229-239 | For every argument list, each `--network` resets the map. The map after the loop is built from `{}` by the last `--network` flag read alone, or is the earlier map when there is no such flag. |
| MultiChain.LastNetworkSpecGiven | test/test-multi-chain.js:229-231 | The value that last flag contributes is the argument right after a `--network` in the list. |
| MultiChain.ValidateAddressFile | test/test-multi-chain.js:281-361 | `main` does nothing under `--help`, when `--file` is absent or empty (the `!params.file` test), or when the file holds no pair. Otherwise the results and the report both use `params.networks`, or `{}` when absent. |
| Report.TypeOr | test/test-multi-chain.js:85 | `networkTypes[chain]`, else the fallback: the configured type when it is non-empty, and the fallback when it is absent or empty. |
| Report.CheckGroups | test/validate-wallets.js:105-160 | There is one entry per input chain. |
| Report.CheckGroupsAt | test/validate-wallets.js:105-152 | The `i`-th chain's results are its own addresses checked in order, each paired with its address. |
| Report.CheckGroupsKeys | test/test-multi-chain.js:148-156 | The result keys are exactly the input keys, in order. |
| Report.TotalValid | test/validate-wallets.js:207-211 | The valid count never exceeds the number of results. |
| Report.TotalIsAddressCount | test/validate-wallets.js:154 | There is one result per address. |
| Report.ValidateChain | test/validate-wallets.js:115-160 | The inner loop yields its addresses' results and the count of valid ones. |
| Report.ValidateByChain | test/validate-wallets.js:105-171 | The outer loop yields the results by chain, with running totals equal to the number of results and the number of valid ones. |
| Report.AppendListedEntries | test/validate-wallets.js:222-230 | The valid entries, numbered from 1, with the note on a network error. |
| Report.WriteChainHead | test/validate-wallets.js:213-217 | A chain block is its statistics head, then its valid section, its invalid section and a blank line. |
| Report.AppendValidSection | test/validate-wallets.js:220-231 | The valid section is present only when some result is valid. |
| Report.AppendInvalidSection | test/validate-wallets.js:234-243 | The invalid section is present only when some result is invalid. |
| Report.AppendChainSection | test/validate-wallets.js:205-246 | One chain's block is appended. |
| Report.AppendSections | test/test-multi-chain.js:75-116 | The blocks of all chains, in key order. The totals are the sums over the chains, and `totalInvalid = totalAddresses - totalValid`. |
| Report.AppendTotals | test/test-multi-chain.js:119-122 | The closing totals. |
| Report.WriteChainsReport | test/test-multi-chain.js:63-131 | The report is the title, the time, each chain's block, then the totals. |
| Validator.NetworkName | test/test-addresses.js:17-80 | `networkConfigs[family][type].name` exists iff the table lists the type. |
| Validator.DefaultNetwork | test/test-addresses.js:83-89 | Each family's `userNetworkConfig` default is a type its table lists. |
| Validator.Resolve | test/test-addresses.js:405-407 | A given network type is kept. A missing one becomes the family default. |
| Validator.ClassifyBitcoinAddress | test/test-addresses.js:509-518 | `bc1p` gives Taproot, and this is checked first. Any other `bc1` gives Native SegWit, `3` gives P2SH-SegWit, `1` gives Legacy, and anything else gives 未知. |
| Validator.ValidateEthereumAddress | test/test-addresses.js:390-475 | A bad format gives `地址格式无效`, and a network other than ethereum or bnb gives `不支持的网络`. |
| Validator.ValidateBitcoinAddress | test/test-addresses.js:483-561 | A bad format gives `比特币地址格式无效`. A valid result never sets `networkError`. |
| Validator.ValidateSolanaAddress | test/test-addresses.js:569-631 | A key the library rejects gives the library's own message. |
| Validator.ValidateSuiAddress | test/test-addresses.js:639-725 | A bad format gives `SUI地址格式无效`. A reply without `result` reads as balance `"0"`. |
| Validator.FamilyOf | test/test-addresses.js:794-804 | Dispatch is case-insensitive over ETH, BNB, BTC, SOL and SUI. |
| Validator.ValidateAddress | test/test-addresses.js:793-811 | Any other chain gives `不支持的链类型: ` plus the chain. |
| Validator.Dispatch | test/test-addresses.js:793-804 | A known chain's answer is its family validator's answer. |
| Validator.FormatGates | test/test-addresses.js:486 | The Bitcoin and Sui format gates are `FormatOk`. |
| Validator.ValidIff | test/test-addresses.js:397-432 | A known chain's address is valid iff its format passes and the resolved network type is listed for its family. |
| Validator.FamilyValidIff | test/test-addresses.js:390-725 | The same, family by family. |
| Validator.FormatFirst | test/test-addresses.js:486-491 | A bad format is rejected before the network type is looked at: the answer is invalid and the same for every type. |
| Validator.MissingTypeIsDefault | test/test-addresses.js:494-496 | A missing network type behaves exactly as the family's `userNetworkConfig` default. |
| Validator.UnsupportedTypeRejected | test/test-addresses.js:498-504 | An unlisted network type gives the family's unsupported-type message naming it. |
| Validator.RemoteOnlyAffectsBalance | test/test-addresses.js:434-468 | Once the gates pass, the answer is valid whatever the remote lookup does. Changing the remote outcomes changes neither validity, nor the error, nor the network label. |
| Validator.FamilyRemoteOnly | test/test-addresses.js:521-554 | The same, family by family. |
| Validator.NetworkErrorIff | test/test-addresses.js:545-553 | `networkError` is set iff the lookup failed, and never for Bitcoin. |
| Validator.ValidateEachSpec | test/test-addresses.js:733-784 | For a list of distinct tags, a result exists iff the tag is listed and has a truthy address. That result is the family validator applied to the address and `networkTypes.X`. |
| Validator.AllAddressesSpec | test/test-addresses.js:733-784 | `validateAllAddresses` has key X iff X is one of ETH, BNB, BTC, SOL, SUI and `wallets.X.address` is truthy. Its value is `validateAddress` of that address. |
| Validator.AllChainsAt | test/test-addresses.js:737-781 | The five tags `validateAllAddresses` visits are exactly the upper-case tags the dispatch knows, each with its own family. |
| Validator.KeepAddressesSpec | test/test-addresses.js:229-235 | Every kept address is a trimmed input line that is neither empty nor a comment. |
| Validator.KeepAddressesComplete | test/test-addresses.js:229-235 | Every trimmed line that is neither empty nor a comment is kept. |
| Validator.KeepAddressesAppend | test/test-addresses.js:229-235 | Keeping goes line by line, in file order. |
| Validator.ReadAddressesFromFile | test/test-addresses.js:210-241 | The reader's loop keeps exactly `KeepAddresses(lines)`. |
| Validator.ManualInputMatchesFile | test/test-addresses.js:1201-1204 | For text without `\r`, typed input keeps the same addresses as reading the text from a file. |
| Validator.CheckAllAt | test/test-addresses.js:336-368 | The `k`-th result is the `k`-th address validated, paired with its address. |
| Validator.BatchValidateAddresses | test/test-addresses.js:331-377 | There is one result per address, in order, each carrying its address and its validator answer. |
| Validator.ValidOnes | test/test-addresses.js:254 | The valid results, counted by `ValidCount`, all valid. |
| Validator.InvalidOnes | test/test-addresses.js:255 | The invalid results: `total - valid` of them, all invalid. |
| Validator.SectionsPartition | test/test-addresses.js:292-312 | A result is listed among the valid ones iff it is valid, and among the invalid ones iff it is not. |
| Validator.ReportNetworkName | test/test-addresses.js:262-279 | Corrected lookup of the network name, known only for the listed types: it fails iff the chain is one of the five and its type is not listed. For any other chain it is `""`. The lookup as written, which also finds inherited names, is `Validator.ReportNetworkNameAsWritten`. |
| Validator.ReportNetworkNameAsWritten | test/test-addresses.js:262-279 | As written: reading `.name` throws iff the chain is one of the five and its type is neither listed nor an inherited `Object.prototype` name. It agrees with the corrected lookup on every other type. |
| Validator.PrototypeNameReported | test/test-addresses.js:265 | As written, `constructor` gives the network name `Object` and `__proto__` gives `undefined`, so a report is written. The corrected lookup writes none for either. |
| Validator.SaveResultsToFile | test/test-addresses.js:250-322 | When the name lookup throws, nothing is written. Otherwise the text is the header, the always-present valid section, and the invalid section when there are invalid results. |
| Validator.WriteHeader | test/test-addresses.js:253-288 | The statistics head: total, valid and `total - valid`. |
| Validator.AppendValidEntries | test/test-addresses.js:292-301 | The valid entries, numbered from 1, with balance and network-error note. |
| Validator.AppendInvalidEntries | test/test-addresses.js:306-312 | The invalid entries, numbered from 1, with their error. |
| Validator.BatchNetworkType | test/test-addresses.js:866-867 | Corrected: the given network, otherwise the chain's family default. |
| Validator.BatchDefaultReported | test/test-addresses.js:866-893 | With the corrected default, every address is validated exactly as before and the report can always be written. |
| Validator.BatchMode | test/test-addresses.js:850-896 | The batch branch of `main`, with the corrected default network type of the second finding. The results are the kept addresses validated against that type. A report exists iff `--output` is given, an address was read, and the network name can be read. |
| Validator.Step | test/test-addresses.js:99-124 | One turn consumes two arguments iff a value flag has a following argument. |
| Validator.ParseCommandLine | test/test-addresses.js:95-127 | The loop computes the specification `Scan`. |
| Validator.ScanNormalizes | test/test-addresses.js:100-112 | `--chain` always comes out upper case and `--network` lower case. |
| Validator.StepFields | test/test-addresses.js:100-112 | A turn leaves `chain` and `network` alone, or sets them from the next argument. |
| Validator.ScanProvenance | test/test-addresses.js:103-122 | A set `--address`, `--file` or `--output` value is the argument right after an occurrence of that flag. |
| Validator.StepSkips | test/test-addresses.js:99-124 | A value flag in last position, or an unknown argument, changes nothing and is skipped. |
| Validator.PrototypeNamePasses | test/test-addresses.js:412 | As written, `--network constructor` passes the unsupported-type gate for every family, although the table lists no such type. |
| Validator.BatchDefaultLost | test/test-addresses.js:866-867 | As written, without `--network` the lower-cased tags `eth`, `btc` and `sol` are not `userNetworkConfig` keys. The report's network-name lookup then throws. |
| Validator.BatchResultsAsWritten | test/test-addresses.js:866-875 | As written, without `--network`, ETH, BTC and SOL get the same results as under the corrected default, and no report. |
| Validator.CheckAllMissingType | test/test-addresses.js:336-368 | Checking a list with no network type gives the results of checking it against the family default. |
| CommandLine.Assignment | test/validate-wallets.js:282-287 | A part assigns iff both halves of `part.split("=")` are non-empty. The chain is then upper case and the network lower case. |
| CommandLine.ApplyNetworkSpec | test/test-multi-chain.js:231-239 | The `forEach` applies each part's assignment in order. |
| CommandLine.PutAllGet | test/validate-wallets.js:282-287 | After the assignments, a chain holds its last assigned network, or its earlier value when none names it. The chains present are the earlier ones plus the assigned ones. |
| CommandLine.PutAllAppend | test/validate-wallets.js:278-289 | Applying two lists of assignments in turn is applying their concatenation. |
| CommandLine.AssignmentOf | test/test-multi-chain.js:235-237 | `chain=network` assigns the upper-cased chain the lower-cased network. |
| CommandLine.NoAssignment | test/test-multi-chain.js:236 | A part without `=` assigns nothing. |
| Dict.PutSpec | test/validate-wallets.js:285 | After `obj[k] = v`, `obj[k]` is `v` and other keys are unchanged. A present key keeps its position and a new key goes last. |
| Dict.CollectGet | test/test-multi-chain.js:42-46 | Grouping by push: each key holds exactly its values in order, and a key exists only when it has a value. |
| Dict.CollectDistinct | test/test-multi-chain.js:42-46 | The grouped object has no repeated key. |
| Dict.GetDefined | test/test-addresses.js:737 | `obj[k]` is defined iff `k` is a key. |
| Text.Trim | test/test-addresses.js:231 | `trim()`: no white space remains at either end, a trimmed string is unchanged, and the result is empty iff the string is all white space. |
| Text.TrimSlice | test/test-addresses.js:231 | `trim()` returns the input with its edges cut off: a contiguous slice with only white space before and after it. |
| Text.Split | test/test-multi-chain.js:36 | `split("=")` gives one more piece than there are separators, and no piece contains the separator. |
| Text.JoinSplit | test/test-multi-chain.js:36 | Joining the pieces with the separator gives the string back. |
| Text.SplitAt | test/test-multi-chain.js:36-40 | Splitting `a=b`, where `a` has no `=`, gives `a` followed by the pieces of `b`. |
| Text.LinesOfUnlines | test/validate-wallets.js:32-45 | `readline` recovers exactly the lines written one per `\n`. |
| Text.SplitNewlines | test/test-addresses.js:1201-1202 | For text without `\r`, `split("\n")` gives `readline`'s lines, plus one empty piece when the text ends with a newline. |
| Text.UpperIsUpper | test/test-multi-chain.js:39 | Upper-casing yields upper case and is idempotent. |
| Text.LowerIsLower | test/test-multi-chain.js:237 | Lower-casing yields lower case and is idempotent. |
| Text.Utf16Length | index.js:215 | JavaScript's `length` is between the number of code points and twice that. |
| Text.Decimal | test/validate-wallets.js:215 | `${n}` is a non-empty string of digits that starts with `0` only for `n = 0`. |
| Text.DecimalValue | test/validate-wallets.js:215 | The digits of `${n}` denote `n`. |

## Left out

- Key and address cryptography (BIP-39, BIP-32, P2PKH, the Ethereum HD wallet, the Solana, Sui and TON keypairs, `toOutputScript`, `PublicKey`, `ethers.isAddress`, `TonWeb.Address.isValid`). These are library calls whose source is not part of this model, so they are function-typed parameters.
- `generateTonWallet` internals (index.js:132-152). They use an HTTP provider and are only a result that may fail (`Libraries.tonGenerate`).
- Network access (RPC providers, axios, Solana `Connection`), `Promise.race` timeouts and the 200 ms throttling. Only the outcome of a lookup, success with a balance text or failure, is modelled.
- Floating-point balance conversions (`/100000000`, `LAMPORTS_PER_SOL`, `/1000000000`, `formatEther`). The balance is the text the lookup oracle returns.
- `fs` existence checks, reads and writes, `readline` streams, `new Date().toLocaleString()`, chalk and console output, and inquirer prompts. These are I/O: files are line sequences or returned text, and the time stamp is a parameter.
- The interactive modes of test/test-addresses.js: generation, configuration display, and the `userNetworkConfig` mutation at test/test-addresses.js:1296-1358. They are user-interface driven. Only the manual address parsing (1201-1204) is modelled, and `userNetworkConfig` is its constant initial value.
- `main` and `showHelp` in test/test-addresses.js, except the batch branch. `Validator.BatchMode` starts after the `--chain` and `--file` presence checks (835-848), because those only print and return.
- The `catch` branches around the validators in every batch loop (test/validate-wallets.js:145-152, test/test-multi-chain.js:185-192, test/test-addresses.js:361-368) and the validators' outer `catch`. The validators are total functions here and never throw, so these branches are unreachable.
- JavaScript's ordering of integer-like object keys before other keys. Objects are modelled in insertion order, which matches for the chain tags these files use.
- Unicode case mapping. `toUpperCase` and `toLowerCase` are modelled on ASCII letters only, and other characters are unchanged.
- Keys that name `Object.prototype` members (`constructor`, `__proto__`). The model treats every key as an own property. This changes what happens in three places:
  - the validators' network-type gate (the first finding below);
  - the report's network-name lookup in test/test-addresses.js:265-277 (the third finding below);
  - `saveWalletsToFiles` in index.js:244-262. A chain named `constructor` or `__proto__` finds an inherited value there whose `address` is `undefined`, so the line `undefined` is written, where `Generator.SaveWalletsToFiles` writes nothing. `main` in index.js passes only the five upper-case tags offered by its prompt, so this does not arise there.
  The `addressesByChain` and `networks` keys of the validation tools are upper-cased, so no inherited name reaches them.
- Generator.GenerateBitcoinWallet: the contract names the record's address and mnemonic, but not its two key fields. Those are copied from the same derived key pair.
- Validator.ValidateEthereumAddress, Validator.ValidateSolanaAddress and Validator.ValidateSuiAddress: their own contracts state only the rejection paths. Validity, the network label and the error flag are stated by `Validator.FamilyValidIff`, `Validator.FamilyRemoteOnly` and `Validator.NetworkErrorIff`.
- Validator.BatchMode: runs the corrected default network type of the second finding. Without `--network`, for ETH, BTC and SOL, it therefore promises a report the program as written never writes. `Validator.BatchResultsAsWritten` states what the program does in that case: the same results and no report.
- WalletsFile.ReadBack: proved for at least one group and for distinct chains among the five header tags. With no group the parser creates no key at all. The addresses must be single-line, non-blank, and without white space at their ends, and none may itself be a header line. A TON section is instead described by `WalletsFile.TonFiledUnderPrevious`.

## Findings

| source | as written | input that shows it | evidently intended | confidence | as-written member | corrected member |
|---|---|---|---|---|---|---|
| test/test-addresses.js:412 | `if (!networkConfigs.ethereum[networkType])` (and the same gate in each validator) is a property lookup, which also finds the names every object inherits | `--network constructor`: it survives lower-casing, finds `Object.prototype.constructor` (truthy), and passes the gate although no such network is listed | only the network types the table lists pass | medium (not executed) | Validator.PrototypeNamePasses | Validator.ValidIff |
| test/test-addresses.js:866-867 | `cmdParams.network`, else `userNetworkConfig[cmdParams.chain.toLowerCase()]`, looks up `eth`, `btc` or `sol`, but the defaults are keyed `ethereum`, `bitcoin` and `solana` | `--batch --chain ETH --file f --output o` without `--network`: the type is undefined, the addresses are checked against the default anyway, and reading `networkConfigs.ethereum[undefined].name` throws, so no report is written | fall back to the chain's family default, so the report names that network | high (not executed) | Validator.BatchDefaultLost | Validator.BatchDefaultReported |
| test/test-addresses.js:265 | `networkConfigs.ethereum[networkType].name` (and the same lookup for the other four chains) is a property lookup, which also finds inherited names | `--batch --chain ETH --network constructor --file f --output o`: the name read is `Object` (for `__proto__`, `undefined`), and a report naming that network is written | a type the table does not list has no network name, so no report is written | medium (not executed) | Validator.PrototypeNameReported | Validator.ReportNetworkName |
