/** `AddressValidator` of test/test-addresses.js and the helpers around
    it: the `networkConfigs` table and its defaults, the per-chain
    validators (format gate, network-type resolution, unsupported-type
    gate, remote lookup), the Bitcoin address-type classifier, dispatch
    by chain tag, `validateAllAddresses`, the address-list readers, the
    batch loop, the report file and the command-line parser.

    Library format checks and remote lookups are function-typed fields
    of `Oracles`; a remote lookup answers `None` when the request fails
    or times out. */
module Validator {
  import opened Wrappers
  import opened Text
  import Dict
  import Generator

  /** The five entries of `networkConfigs`. */
  datatype Family = Ethereum | Bnb | Bitcoin | Solana | Sui

  /** The network types `networkConfigs[family]` lists, in table order. */
  function NetworkTypes(f: Family): seq<string> {
    match f
    case Ethereum => ["mainnet", "goerli", "sepolia"]
    case Bnb => ["mainnet", "testnet"]
    case Bitcoin => ["mainnet", "testnet"]
    case Solana => ["mainnet", "testnet", "devnet"]
    case Sui => ["mainnet", "testnet", "devnet"]
  }

  /** `networkConfigs[family][networkType].name`, for the network types
      the table itself lists; `None` for every other string. */
  function NetworkName(f: Family, networkType: string): (r: Option<string>)
    ensures r.Some? <==> networkType in NetworkTypes(f)
  {
    match f
    case Ethereum =>
      if networkType == "mainnet" then Some("以太坊主网")
      else if networkType == "goerli" then Some("Goerli测试网")
      else if networkType == "sepolia" then Some("Sepolia测试网")
      else None
    case Bnb =>
      if networkType == "mainnet" then Some("BNB Chain主网")
      else if networkType == "testnet" then Some("BNB Chain测试网")
      else None
    case Bitcoin =>
      if networkType == "mainnet" then Some("比特币主网")
      else if networkType == "testnet" then Some("比特币测试网")
      else None
    case Solana =>
      if networkType == "mainnet" then Some("Solana主网")
      else if networkType == "testnet" then Some("Solana测试网")
      else if networkType == "devnet" then Some("Solana Devnet")
      else None
    case Sui =>
      if networkType == "mainnet" then Some("SUI主网")
      else if networkType == "testnet" then Some("SUI测试网")
      else if networkType == "devnet" then Some("SUI Devnet")
      else None
  }

  /** The property names every JavaScript object inherits from
      `Object.prototype`. */
  const PrototypeNames: seq<string> := [
    "constructor", "__proto__", "hasOwnProperty", "isPrototypeOf", "propertyIsEnumerable",
    "toString", "toLocaleString", "valueOf",
    "__defineGetter__", "__defineSetter__", "__lookupGetter__", "__lookupSetter__"]

  /** The gate `if (!networkConfigs.X[networkType])` as written: a
      property lookup, which also finds the inherited names (all truthy). */
  predicate SupportedAsWritten(f: Family, networkType: string) {
    networkType in NetworkTypes(f) || networkType in PrototypeNames
  }

  /** The gate as written lets `--network constructor` through for every
      chain: the name survives the command line's lower-casing, yet the
      table lists no such network. */
  lemma PrototypeNamePasses(f: Family)
    ensures var t := ToLower("constructor");
            SupportedAsWritten(f, t) && NetworkName(f, t).None?
  {
    assert ToLower("constructor") == "constructor";
  }

  /** `userNetworkConfig`, the network type used when none is given. */
  function DefaultNetwork(f: Family): (t: string)
    ensures NetworkName(f, t).Some?
  {
    match f
    case Ethereum => "goerli"
    case Bnb => "testnet"
    case Bitcoin => "testnet"
    case Solana => "devnet"
    case Sui => "devnet"
  }

  /** `if (!networkType) networkType = userNetworkConfig[…]`: `""`
      stands for a missing (`null`/`undefined`) network type. */
  function Resolve(f: Family, networkType: string): (t: string)
    ensures t != ""
    ensures networkType != "" ==> t == networkType
  {
    if networkType != "" then networkType else DefaultNetwork(f)
  }

  /** The validators' answer. The `address` property the callers attach
      is kept beside it (`Checked`). */
  datatype ValidationResult =
    | Invalid(error: string)
    | Valid(network: string, balance: string, networkError: bool)

  /** The library checks and the remote lookups. */
  datatype Oracles = Oracles(
    /** what `MultiChainWalletGenerator.validateAddress` relies on */
    format: Generator.FormatLibs,
    /** `ethers.isAddress` */
    ethIsAddress: string -> bool,
    /** `new PublicKey(address)`: `None` when it accepts, the thrown
        message when it rejects */
    solPublicKey: string -> Option<string>,
    /** the balance lookup of Ethereum, BNB, Bitcoin and Solana at a
        network type, rendered as text; `None` when it fails */
    balanceOf: (Family, string, string) -> Option<string>,
    /** `suix_getBalance` on a Sui network type: `None` when it fails,
        `Some(None)` for a reply without `result` */
    suiBalance: (string, string) -> Option<Option<string>>)

  const NoNetworkBalance: string := "未知(无法连接网络)"
  const UnusedBitcoinBalance: string := "0 (未在链上使用或无法连接网络)"

  /** The Bitcoin address-type label. */
  function ClassifyBitcoinAddress(address: string): (kind: string)
    ensures StartsWith(address, "bc1p") ==> kind == "Taproot"
    ensures !StartsWith(address, "bc1p") && StartsWith(address, "bc1") ==> kind == "Native SegWit"
    ensures !StartsWith(address, "bc1") && StartsWith(address, "3") ==> kind == "P2SH-SegWit"
    ensures !StartsWith(address, "bc1") && !StartsWith(address, "3") && StartsWith(address, "1") ==> kind == "Legacy"
    ensures !StartsWith(address, "bc1") && !StartsWith(address, "3") && !StartsWith(address, "1") ==> kind == "未知"
  {
    if StartsWith(address, "bc1p") then "Taproot"
    else if StartsWith(address, "bc1q") || StartsWith(address, "bc1") then "Native SegWit"
    else if StartsWith(address, "3") then "P2SH-SegWit"
    else if StartsWith(address, "1") then "Legacy"
    else "未知"
  }

  /** The message of the unsupported-network-type gate. */
  function UnsupportedType(f: Family): string {
    match f
    case Ethereum => "不支持的以太坊网络类型: "
    case Bnb => "不支持的BNB网络类型: "
    case Bitcoin => "不支持的比特币网络类型: "
    case Solana => "不支持的Solana网络类型: "
    case Sui => "不支持的SUI网络类型: "
  }

  /** `validateEthereumAddress(address, network, networkType)`, `network`
      being `"ethereum"` or `"bnb"` for the two known tables. */
  function ValidateEthereumAddress(o: Oracles, address: string, network: string, networkType: string): (r: ValidationResult)
    ensures !o.ethIsAddress(address) ==> r == Invalid("地址格式无效")
    ensures o.ethIsAddress(address) && network != "ethereum" && network != "bnb" ==> r == Invalid("不支持的网络: " + network)
  {
    if !o.ethIsAddress(address) then Invalid("地址格式无效")
    else if network == "ethereum" || network == "bnb" then
      var f := if network == "ethereum" then Ethereum else Bnb;
      var t := Resolve(f, networkType);
      match NetworkName(f, t)
      case None => Invalid(UnsupportedType(f) + t)
      case Some(name) =>
        match o.balanceOf(f, t, address)
        case Some(balance) => Valid(name, balance, false)
        case None => Valid(name, NoNetworkBalance, true)
    else Invalid("不支持的网络: " + network)
  }

  /** `validateBitcoinAddress(address, networkType)`: the network label
      names the address type; a failed lookup still answers valid, with
      a zero balance and no network-error flag. */
  function ValidateBitcoinAddress(o: Oracles, address: string, networkType: string): (r: ValidationResult)
    ensures !Generator.ValidateAddress(o.format, address, "BTC") ==> r == Invalid("比特币地址格式无效")
    ensures r.Valid? ==> !r.networkError
  {
    if !Generator.ValidateAddress(o.format, address, "BTC") then Invalid("比特币地址格式无效")
    else
      var t := Resolve(Bitcoin, networkType);
      match NetworkName(Bitcoin, t)
      case None => Invalid(UnsupportedType(Bitcoin) + t)
      case Some(name) =>
        var shown := name + " (" + ClassifyBitcoinAddress(address) + ")";
        match o.balanceOf(Bitcoin, t, address)
        case Some(balance) => Valid(shown, balance, false)
        case None => Valid(shown, UnusedBitcoinBalance, false)
  }

  /** `validateSolanaAddress(address, networkType)`: a key the library
      rejects gives the library's own message. */
  function ValidateSolanaAddress(o: Oracles, address: string, networkType: string): (r: ValidationResult)
    ensures o.solPublicKey(address).Some? ==> r == Invalid(o.solPublicKey(address).value)
  {
    match o.solPublicKey(address)
    case Some(message) => Invalid(message)
    case None =>
      var t := Resolve(Solana, networkType);
      match NetworkName(Solana, t)
      case None => Invalid(UnsupportedType(Solana) + t)
      case Some(name) =>
        match o.balanceOf(Solana, t, address)
        case Some(balance) => Valid(name, balance, false)
        case None => Valid(name, NoNetworkBalance, true)
  }

  /** `validateSuiAddress(address, networkType)`: a reply without a
      result reads as balance `"0"`. */
  function ValidateSuiAddress(o: Oracles, address: string, networkType: string): (r: ValidationResult)
    ensures !Generator.ValidateAddress(o.format, address, "SUI") ==> r == Invalid("SUI地址格式无效")
    ensures r.Valid? && o.suiBalance(Resolve(Sui, networkType), address) == Some(None) ==> r.balance == "0"
  {
    if !Generator.ValidateAddress(o.format, address, "SUI") then Invalid("SUI地址格式无效")
    else
      var t := Resolve(Sui, networkType);
      match NetworkName(Sui, t)
      case None => Invalid(UnsupportedType(Sui) + t)
      case Some(name) =>
        match o.suiBalance(t, address)
        case Some(Some(balance)) => Valid(name, balance, false)
        case Some(None) => Valid(name, "0", false)
        case None => Valid(name, NoNetworkBalance, true)
  }

  /** The validator a family's tag is dispatched to. */
  function ValidateFamily(o: Oracles, f: Family, address: string, networkType: string): ValidationResult {
    match f
    case Ethereum => ValidateEthereumAddress(o, address, "ethereum", networkType)
    case Bnb => ValidateEthereumAddress(o, address, "bnb", networkType)
    case Bitcoin => ValidateBitcoinAddress(o, address, networkType)
    case Solana => ValidateSolanaAddress(o, address, networkType)
    case Sui => ValidateSuiAddress(o, address, networkType)
  }

  /** The family `chain.toUpperCase()` selects in `validateAddress`. */
  function FamilyOf(chain: string): (r: Option<Family>)
    ensures r.Some? <==> ToUpper(chain) in ["ETH", "BNB", "BTC", "SOL", "SUI"]
  {
    var tag := ToUpper(chain);
    if tag == "ETH" then Some(Ethereum)
    else if tag == "BNB" then Some(Bnb)
    else if tag == "BTC" then Some(Bitcoin)
    else if tag == "SOL" then Some(Solana)
    else if tag == "SUI" then Some(Sui)
    else None
  }

  /** `AddressValidator.validateAddress(address, chain, networkType)`. */
  function ValidateAddress(o: Oracles, address: string, chain: string, networkType: string): (r: ValidationResult)
    ensures FamilyOf(chain).None? ==> r == Invalid("不支持的链类型: " + chain)
  {
    match FamilyOf(chain)
    case None => Invalid("不支持的链类型: " + chain)
    case Some(f) => ValidateFamily(o, f, address, networkType)
  }

  // ---------------------------------------------------------------------
  // the decision rules

  /** The format gate of each family, stated independently of the
      validators. */
  predicate FormatOk(o: Oracles, f: Family, address: string) {
    match f
    case Ethereum => o.ethIsAddress(address)
    case Bnb => o.ethIsAddress(address)
    case Bitcoin => o.format.btcOutputScript(address)
    case Solana => o.solPublicKey(address).None?
    case Sui => StartsWith(address, "0x") && Utf16Length(address) == 42
  }

  /** The Bitcoin and Sui validators' format gates are `FormatOk`. */
  lemma FormatGates(o: Oracles, address: string)
    ensures Generator.ValidateAddress(o.format, address, "BTC") == FormatOk(o, Bitcoin, address)
    ensures Generator.ValidateAddress(o.format, address, "SUI") == FormatOk(o, Sui, address)
  {
    UpperFixed("BTC");
    UpperFixed("SUI");
  }

  /** A known chain is dispatched to its family's validator. */
  lemma Dispatch(o: Oracles, address: string, chain: string, networkType: string)
    requires FamilyOf(chain).Some?
    ensures ValidateAddress(o, address, chain, networkType) == ValidateFamily(o, FamilyOf(chain).value, address, networkType)
  {
  }

  lemma FamilyValidIff(o: Oracles, f: Family, address: string, networkType: string)
    ensures ValidateFamily(o, f, address, networkType).Valid? <==>
              FormatOk(o, f, address) && Resolve(f, networkType) in NetworkTypes(f)
  {
    var t := Resolve(f, networkType);
    assert NetworkName(f, t).Some? <==> t in NetworkTypes(f);
    match f {
      case Ethereum => EthereumValidIff(o, "ethereum", Ethereum, address, networkType);
      case Bnb => EthereumValidIff(o, "bnb", Bnb, address, networkType);
      case Bitcoin => BitcoinValidIff(o, address, networkType);
      case Solana => SolanaValidIff(o, address, networkType);
      case Sui => SuiValidIff(o, address, networkType);
    }
  }

  lemma BitcoinValidIff(o: Oracles, address: string, networkType: string)
    ensures ValidateBitcoinAddress(o, address, networkType).Valid? <==>
              FormatOk(o, Bitcoin, address) && NetworkName(Bitcoin, Resolve(Bitcoin, networkType)).Some?
  {
    FormatGates(o, address);
  }

  lemma SolanaValidIff(o: Oracles, address: string, networkType: string)
    ensures ValidateSolanaAddress(o, address, networkType).Valid? <==>
              FormatOk(o, Solana, address) && NetworkName(Solana, Resolve(Solana, networkType)).Some?
  {
  }

  lemma SuiValidIff(o: Oracles, address: string, networkType: string)
    ensures ValidateSuiAddress(o, address, networkType).Valid? <==>
              FormatOk(o, Sui, address) && NetworkName(Sui, Resolve(Sui, networkType)).Some?
  {
    FormatGates(o, address);
  }

  lemma EthereumValidIff(o: Oracles, network: string, f: Family, address: string, networkType: string)
    requires (network == "ethereum" && f == Ethereum) || (network == "bnb" && f == Bnb)
    ensures ValidateEthereumAddress(o, address, network, networkType).Valid? <==>
              o.ethIsAddress(address) && NetworkName(f, Resolve(f, networkType)).Some?
  {
    assert (if network == "ethereum" then Ethereum else Bnb) == f;
  }

  /** A known chain's address is valid exactly when its format passes and
      the resolved network type is one the table lists. */
  lemma ValidIff(o: Oracles, address: string, chain: string, networkType: string)
    requires FamilyOf(chain).Some?
    ensures var f := FamilyOf(chain).value;
            ValidateAddress(o, address, chain, networkType).Valid? <==>
              FormatOk(o, f, address) && Resolve(f, networkType) in NetworkTypes(f)
  {
    Dispatch(o, address, chain, networkType);
    FamilyValidIff(o, FamilyOf(chain).value, address, networkType);
  }

  lemma FamilyFormatFirst(o: Oracles, f: Family, address: string, networkType: string)
    requires !FormatOk(o, f, address)
    ensures ValidateFamily(o, f, address, networkType) == ValidateFamily(o, f, address, "")
    ensures ValidateFamily(o, f, address, networkType).Invalid?
  {
    FormatGates(o, address);
  }

  /** A bad format is reported before the network type is looked at:
      the answer is the same for every network type. */
  lemma FormatFirst(o: Oracles, address: string, chain: string, t1: string, t2: string)
    requires FamilyOf(chain).Some? && !FormatOk(o, FamilyOf(chain).value, address)
    ensures ValidateAddress(o, address, chain, t1) == ValidateAddress(o, address, chain, t2)
    ensures ValidateAddress(o, address, chain, t1).Invalid?
  {
    Dispatch(o, address, chain, t1);
    Dispatch(o, address, chain, t2);
    FamilyFormatFirst(o, FamilyOf(chain).value, address, t1);
    FamilyFormatFirst(o, FamilyOf(chain).value, address, t2);
  }

  /** A missing network type behaves as the family's default. */
  lemma MissingTypeIsDefault(o: Oracles, address: string, chain: string)
    requires FamilyOf(chain).Some?
    ensures ValidateAddress(o, address, chain, "") == ValidateAddress(o, address, chain, DefaultNetwork(FamilyOf(chain).value))
  {
    var f := FamilyOf(chain).value;
    Dispatch(o, address, chain, "");
    Dispatch(o, address, chain, DefaultNetwork(f));
    assert Resolve(f, "") == Resolve(f, DefaultNetwork(f));
  }

  lemma FamilyUnsupported(o: Oracles, f: Family, address: string, networkType: string)
    requires FormatOk(o, f, address)
    requires networkType != "" && networkType !in NetworkTypes(f)
    ensures ValidateFamily(o, f, address, networkType) == Invalid(UnsupportedType(f) + networkType)
  {
    FormatGates(o, address);
  }

  /** An unsupported network type gives the family's message naming it. */
  lemma UnsupportedTypeRejected(o: Oracles, address: string, chain: string, networkType: string)
    requires FamilyOf(chain).Some?
    requires FormatOk(o, FamilyOf(chain).value, address)
    requires networkType != "" && networkType !in NetworkTypes(FamilyOf(chain).value)
    ensures ValidateAddress(o, address, chain, networkType) == Invalid(UnsupportedType(FamilyOf(chain).value) + networkType)
  {
    Dispatch(o, address, chain, networkType);
    FamilyUnsupported(o, FamilyOf(chain).value, address, networkType);
  }

  /** Two oracles that agree on the format checks and differ at most in
      the remote lookups. */
  ghost predicate SameChecks(o: Oracles, o2: Oracles) {
    o2.format == o.format && o2.ethIsAddress == o.ethIsAddress && o2.solPublicKey == o.solPublicKey
  }

  lemma FamilyRemoteOnly(o: Oracles, o2: Oracles, f: Family, address: string, networkType: string)
    requires SameChecks(o, o2)
    ensures var r1 := ValidateFamily(o, f, address, networkType);
            var r2 := ValidateFamily(o2, f, address, networkType);
            && r1.Valid? == r2.Valid?
            && (r1.Invalid? ==> r1 == r2)
            && (r1.Valid? ==> r1.network == r2.network)
  {
    match f {
      case Ethereum => EthereumRemoteOnly(o, o2, "ethereum", address, networkType);
      case Bnb => EthereumRemoteOnly(o, o2, "bnb", address, networkType);
      case Bitcoin => BitcoinRemoteOnly(o, o2, address, networkType);
      case Solana => SolanaRemoteOnly(o, o2, address, networkType);
      case Sui => SuiRemoteOnly(o, o2, address, networkType);
    }
  }

  lemma EthereumRemoteOnly(o: Oracles, o2: Oracles, network: string, address: string, networkType: string)
    requires SameChecks(o, o2)
    ensures var r1 := ValidateEthereumAddress(o, address, network, networkType);
            var r2 := ValidateEthereumAddress(o2, address, network, networkType);
            && r1.Valid? == r2.Valid?
            && (r1.Invalid? ==> r1 == r2)
            && (r1.Valid? ==> r1.network == r2.network)
  {
  }

  lemma BitcoinRemoteOnly(o: Oracles, o2: Oracles, address: string, networkType: string)
    requires SameChecks(o, o2)
    ensures var r1 := ValidateBitcoinAddress(o, address, networkType);
            var r2 := ValidateBitcoinAddress(o2, address, networkType);
            && r1.Valid? == r2.Valid?
            && (r1.Invalid? ==> r1 == r2)
            && (r1.Valid? ==> r1.network == r2.network)
  {
  }

  lemma SolanaRemoteOnly(o: Oracles, o2: Oracles, address: string, networkType: string)
    requires SameChecks(o, o2)
    ensures var r1 := ValidateSolanaAddress(o, address, networkType);
            var r2 := ValidateSolanaAddress(o2, address, networkType);
            && r1.Valid? == r2.Valid?
            && (r1.Invalid? ==> r1 == r2)
            && (r1.Valid? ==> r1.network == r2.network)
  {
  }

  lemma SuiRemoteOnly(o: Oracles, o2: Oracles, address: string, networkType: string)
    requires SameChecks(o, o2)
    ensures var r1 := ValidateSuiAddress(o, address, networkType);
            var r2 := ValidateSuiAddress(o2, address, networkType);
            && r1.Valid? == r2.Valid?
            && (r1.Invalid? ==> r1 == r2)
            && (r1.Valid? ==> r1.network == r2.network)
  {
  }

  /** Valid regardless of the remote outcome: changing what the remote
      lookups answer changes neither validity, nor the error, nor the
      network label. A failure sets `networkError` for every family but
      Bitcoin. */
  lemma RemoteOnlyAffectsBalance(o: Oracles, balanceOf: (Family, string, string) -> Option<string>,
                                 suiBalance: (string, string) -> Option<Option<string>>,
                                 address: string, chain: string, networkType: string)
    requires FamilyOf(chain).Some?
    ensures var r1 := ValidateAddress(o, address, chain, networkType);
            var r2 := ValidateAddress(o.(balanceOf := balanceOf, suiBalance := suiBalance), address, chain, networkType);
            && r1.Valid? == r2.Valid?
            && (r1.Invalid? ==> r1 == r2)
            && (r1.Valid? ==> r1.network == r2.network)
  {
    var o2 := o.(balanceOf := balanceOf, suiBalance := suiBalance);
    Dispatch(o, address, chain, networkType);
    Dispatch(o2, address, chain, networkType);
    FamilyRemoteOnly(o, o2, FamilyOf(chain).value, address, networkType);
  }

  lemma FamilyNetworkError(o: Oracles, f: Family, address: string, networkType: string)
    requires ValidateFamily(o, f, address, networkType).Valid?
    ensures var t := Resolve(f, networkType);
            var failed := if f == Sui then o.suiBalance(t, address).None? else o.balanceOf(f, t, address).None?;
            ValidateFamily(o, f, address, networkType).networkError <==> failed && f != Bitcoin
  {
  }

  /** `networkError` is set exactly when the lookup failed, and never for
      Bitcoin. */
  lemma NetworkErrorIff(o: Oracles, address: string, chain: string, networkType: string)
    requires FamilyOf(chain).Some?
    requires ValidateAddress(o, address, chain, networkType).Valid?
    ensures var f := FamilyOf(chain).value;
            var t := Resolve(f, networkType);
            var failed := if f == Sui then o.suiBalance(t, address).None? else o.balanceOf(f, t, address).None?;
            ValidateAddress(o, address, chain, networkType).networkError <==> failed && f != Bitcoin
  {
    Dispatch(o, address, chain, networkType);
    FamilyNetworkError(o, FamilyOf(chain).value, address, networkType);
  }

  // ---------------------------------------------------------------------
  // validateAllAddresses

  /** The tags `validateAllAddresses` looks at, in the order it adds
      them. */
  const AllChains: seq<(string, Family)> := [("ETH", Ethereum), ("BNB", Bnb), ("BTC", Bitcoin), ("SOL", Solana), ("SUI", Sui)]

  /** `wallets.X && wallets.X.address`. */
  predicate HasAddress(wallets: Dict.Entries<Generator.WalletInfo>, tag: string) {
    Dict.Get(wallets, tag).Some? && Dict.Get(wallets, tag).value.address != ""
  }

  /** `networkTypes.X`, `""` when absent. */
  function TypeFor(networkTypes: Dict.Entries<string>, tag: string): string {
    Dict.Get(networkTypes, tag).GetOr("")
  }

  /** The results for the tags of `chains` that have an address. */
  function ValidateEach(o: Oracles, wallets: Dict.Entries<Generator.WalletInfo>, networkTypes: Dict.Entries<string>,
                        chains: seq<(string, Family)>): Dict.Entries<ValidationResult>
    decreases |chains|
  {
    if chains == [] then []
    else
      var n := |chains| - 1;
      var (tag, f) := chains[n];
      var prev := ValidateEach(o, wallets, networkTypes, chains[..n]);
      if HasAddress(wallets, tag)
      then prev + [(tag, ValidateFamily(o, f, Dict.Get(wallets, tag).value.address, TypeFor(networkTypes, tag)))]
      else prev
  }

  /** `validateAllAddresses(wallets, networkTypes)`. */
  function ValidateAllAddresses(o: Oracles, wallets: Dict.Entries<Generator.WalletInfo>, networkTypes: Dict.Entries<string>)
    : Dict.Entries<ValidationResult>
  {
    ValidateEach(o, wallets, networkTypes, AllChains)
  }

  lemma ValidateEachSpec(o: Oracles, wallets: Dict.Entries<Generator.WalletInfo>, networkTypes: Dict.Entries<string>,
                         chains: seq<(string, Family)>, tag: string)
    requires forall i, j :: 0 <= i < j < |chains| ==> chains[i].0 != chains[j].0
    ensures var r := ValidateEach(o, wallets, networkTypes, chains);
            && (tag in Dict.Keys(r) <==> HasAddress(wallets, tag) && exists i :: 0 <= i < |chains| && chains[i].0 == tag)
            && forall i :: 0 <= i < |chains| && chains[i].0 == tag && HasAddress(wallets, tag) ==>
                 Dict.Get(r, tag) == Some(ValidateFamily(o, chains[i].1, Dict.Get(wallets, tag).value.address, TypeFor(networkTypes, tag)))
  {
    ValidateEachKeys(o, wallets, networkTypes, chains, tag);
    forall i | 0 <= i < |chains| && chains[i].0 == tag && HasAddress(wallets, tag) {
      ValidateEachGet(o, wallets, networkTypes, chains, i);
    }
  }

  /** The tags with a result are those of `chains` that have an address. */
  lemma {:induction false} ValidateEachKeys(o: Oracles, wallets: Dict.Entries<Generator.WalletInfo>, networkTypes: Dict.Entries<string>,
                                            chains: seq<(string, Family)>, tag: string)
    ensures tag in Dict.Keys(ValidateEach(o, wallets, networkTypes, chains)) <==>
              HasAddress(wallets, tag) && exists i :: 0 <= i < |chains| && chains[i].0 == tag
    decreases |chains|
  {
    if chains != [] {
      var n := |chains| - 1;
      var prev := ValidateEach(o, wallets, networkTypes, chains[..n]);
      ValidateEachKeys(o, wallets, networkTypes, chains[..n], tag);
      assert forall i :: 0 <= i < n ==> chains[..n][i] == chains[i];
      var (t, f) := chains[n];
      if HasAddress(wallets, t) {
        Dict.KeysAppend(prev, t, ValidateFamily(o, f, Dict.Get(wallets, t).value.address, TypeFor(networkTypes, t)));
      }
    }
  }

  /** The result under the `i`-th tag is its family's validator's. */
  lemma {:induction false} ValidateEachGet(o: Oracles, wallets: Dict.Entries<Generator.WalletInfo>, networkTypes: Dict.Entries<string>,
                                           chains: seq<(string, Family)>, i: nat)
    requires forall i, j :: 0 <= i < j < |chains| ==> chains[i].0 != chains[j].0
    requires i < |chains| && HasAddress(wallets, chains[i].0)
    ensures var tag := chains[i].0;
            Dict.Get(ValidateEach(o, wallets, networkTypes, chains), tag)
              == Some(ValidateFamily(o, chains[i].1, Dict.Get(wallets, tag).value.address, TypeFor(networkTypes, tag)))
    decreases |chains|
  {
    var n := |chains| - 1;
    var prev := ValidateEach(o, wallets, networkTypes, chains[..n]);
    var (t, f) := chains[n];
    if i < n {
      assert chains[..n][i] == chains[i];
      ValidateEachGet(o, wallets, networkTypes, chains[..n], i);
      if HasAddress(wallets, t) {
        var v := ValidateFamily(o, f, Dict.Get(wallets, t).value.address, TypeFor(networkTypes, t));
        Dict.GetAppend(prev, t, v, chains[i].0);
      }
    } else {
      var v := ValidateFamily(o, f, Dict.Get(wallets, t).value.address, TypeFor(networkTypes, t));
      ValidateEachKeys(o, wallets, networkTypes, chains[..n], t);
      assert forall j :: 0 <= j < n ==> chains[..n][j] == chains[j];
      Dict.GetLast(prev, t, v);
    }
  }

  /** A result is present for tag X exactly when X is one of ETH, BNB,
      BTC, SOL, SUI and `wallets.X.address` is truthy; it is that
      family's validator applied to the address and `networkTypes.X`. */
  lemma AllAddressesSpec(o: Oracles, wallets: Dict.Entries<Generator.WalletInfo>, networkTypes: Dict.Entries<string>, tag: string)
    ensures var r := ValidateAllAddresses(o, wallets, networkTypes);
            && (tag in Dict.Keys(r) <==> HasAddress(wallets, tag) && FamilyOf(tag).Some? && IsUpper(tag))
            && (tag in Dict.Keys(r) ==>
                  Dict.Get(r, tag) == Some(ValidateAddress(o, Dict.Get(wallets, tag).value.address, tag, TypeFor(networkTypes, tag))))
  {
    AllChainsDistinct();
    ValidateEachSpec(o, wallets, networkTypes, AllChains, tag);
    AllChainsAt(tag);
    if FamilyOf(tag).Some? && HasAddress(wallets, tag) {
      Dispatch(o, Dict.Get(wallets, tag).value.address, tag, TypeFor(networkTypes, tag));
    }
  }

  lemma AllChainsDistinct()
    ensures forall i, j :: 0 <= i < j < |AllChains| ==> AllChains[i].0 != AllChains[j].0
  {
  }

  /** The tags `validateAllAddresses` looks at are the upper-case tags
      `validateAddress` knows, each under its own family. */
  lemma AllChainsAt(tag: string)
    ensures (exists i :: 0 <= i < |AllChains| && AllChains[i].0 == tag) <==> FamilyOf(tag).Some? && IsUpper(tag)
    ensures forall i :: 0 <= i < |AllChains| && AllChains[i].0 == tag ==> FamilyOf(tag) == Some(AllChains[i].1)
  {
    if tag in ["ETH", "BNB", "BTC", "SOL", "SUI"] {
      assert ToUpper(tag) == tag;
    }
    if FamilyOf(tag).Some? && IsUpper(tag) {
      UpperFixed(tag);
      if tag == "ETH" {
        assert AllChains[0].0 == tag;
      } else if tag == "BNB" {
        assert AllChains[1].0 == tag;
      } else if tag == "BTC" {
        assert AllChains[2].0 == tag;
      } else if tag == "SOL" {
        assert AllChains[3].0 == tag;
      } else {
        assert AllChains[4].0 == tag;
      }
    }
  }

  lemma UpperFixed(s: string)
    requires IsUpper(s)
    ensures ToUpper(s) == s
  {
  }

  // ---------------------------------------------------------------------
  // address lists

  /** A line the readers keep, already trimmed: not empty and not a
      `#` comment. */
  predicate Kept(trimmed: string) {
    trimmed != "" && !StartsWith(trimmed, "#")
  }

  /** The trimmed lines worth keeping, in order. */
  function KeepAddresses(lines: seq<string>): seq<string>
    decreases |lines|
  {
    if lines == [] then []
    else
      var n := |lines| - 1;
      KeepAddresses(lines[..n]) + KeepLine(lines[n])
  }

  /** The one line a kept line contributes, trimmed; none otherwise. */
  function KeepLine(line: string): seq<string> {
    var t := Trim(line);
    if Kept(t) then [t] else []
  }

  /** Every address kept is a trimmed line of the input that is neither
      empty nor a comment. */
  lemma {:induction false} KeepAddressesSpec(lines: seq<string>)
    ensures var r := KeepAddresses(lines);
            && |r| <= |lines|
            && forall k :: 0 <= k < |r| ==> Kept(r[k]) && NoEdgeSpace(r[k]) && r[k] in TrimmedLines(lines)
    decreases |lines|
  {
    if lines != [] {
      var n := |lines| - 1;
      KeepAddressesSpec(lines[..n]);
      var prev, last := KeepAddresses(lines[..n]), KeepLine(lines[n]);
      var r := KeepAddresses(lines);
      assert r == prev + last;
      assert TrimmedLines(lines) == TrimmedLines(lines[..n]) + [Trim(lines[n])];
      forall k | 0 <= k < |r|
        ensures Kept(r[k]) && NoEdgeSpace(r[k]) && r[k] in TrimmedLines(lines)
      {
        if k < |prev| {
          assert r[k] == prev[k];
        } else {
          assert r[k] == Trim(lines[n]);
        }
      }
    }
  }

  /** Every trimmed line that is neither empty nor a comment is kept. */
  lemma KeepAddressesComplete(lines: seq<string>, j: nat)
    requires j < |lines| && Kept(Trim(lines[j]))
    ensures Trim(lines[j]) in KeepAddresses(lines)
  {
    KeepAround(lines, j);
    var kept := KeepAddresses(lines[..j]);
    assert KeepLine(lines[j]) == [Trim(lines[j])];
    assert KeepAddresses(lines)[|kept|] == Trim(lines[j]);
  }

  /** The addresses of the lines around the `j`-th one. */
  lemma KeepAround(lines: seq<string>, j: nat)
    requires j < |lines|
    ensures KeepAddresses(lines) == KeepAddresses(lines[..j]) + KeepLine(lines[j]) + KeepAddresses(lines[j + 1..])
  {
    var before, line, after := lines[..j], lines[j], lines[j + 1..];
    Around(lines, j);
    KeepAddressesAppend(before + [line], after);
    KeepAddressesAppend(before, [line]);
    OneLine(line);
  }

  lemma OneLine(line: string)
    ensures KeepAddresses([line]) == KeepLine(line)
  {
    assert [line][..0] == [];
  }

  /** Keeping goes line by line: the addresses of two runs of lines are
      those of the first run followed by those of the second, so the
      kept lines keep their file order. */
  lemma {:induction false} KeepAddressesAppend(a: seq<string>, b: seq<string>)
    ensures KeepAddresses(a + b) == KeepAddresses(a) + KeepAddresses(b)
    decreases |b|
  {
    if b != [] {
      var n := |b| - 1;
      assert (a + b)[..|a + b| - 1] == a + b[..n];
      assert (a + b)[|a + b| - 1] == b[n];
      KeepAddressesAppend(a, b[..n]);
    } else {
      assert a + b == a;
    }
  }

  /** Every line, trimmed. */
  function TrimmedLines(lines: seq<string>): (r: seq<string>)
    ensures |r| == |lines|
    decreases |lines|
  {
    if lines == [] then []
    else
      var n := |lines| - 1;
      TrimmedLines(lines[..n]) + [Trim(lines[n])]
  }

  /** `readAddressesFromFile`, the file given as readline's lines. */
  method ReadAddressesFromFile(lines: seq<string>) returns (addresses: seq<string>)
    ensures addresses == KeepAddresses(lines)
  {
    addresses := [];
    var i := 0;
    while i < |lines|
      invariant i <= |lines|
      invariant addresses == KeepAddresses(lines[..i])
    {
      var trimmedLine := Trim(lines[i]);
      assert lines[..i + 1][..i] == lines[..i];
      if trimmedLine != "" && !StartsWith(trimmedLine, "#") {
        addresses := addresses + [trimmedLine];
      }
      i := i + 1;
    }
    assert lines[..i] == lines;
  }

  /** The interactive path: `input.split("\n").map(trim).filter(…)`. */
  function ParseManualInput(input: string): seq<string> {
    KeepAddresses(Split(input, '\n'))
  }

  /** Typing the addresses by hand keeps the same addresses as reading
      the same text from a file (for text without carriage returns). */
  lemma ManualInputMatchesFile(input: string)
    requires '\r' !in input
    ensures ParseManualInput(input) == KeepAddresses(Lines(input))
  {
    var pieces := Split(input, '\n');
    SplitNewlines(input, []);
    assert [] + pieces[0] == pieces[0];
    assert [pieces[0]] + pieces[1..] == pieces;
    var lines := Lines(input);
    if EndsLine(input, []) {
      assert pieces == lines + [""];
      assert pieces[..|pieces| - 1] == lines;
      assert pieces[|pieces| - 1] == "";
      assert KeepLine("") == [];
      assert KeepAddresses(pieces) == KeepAddresses(lines) + KeepLine("");
      assert KeepAddresses(pieces) == KeepAddresses(lines);
    } else {
      assert pieces == lines + [];
      assert pieces == lines;
    }
    assert KeepAddresses(pieces) == KeepAddresses(lines);
    assert ParseManualInput(input) == KeepAddresses(pieces);
  }

  // ---------------------------------------------------------------------
  // batch validation and its report

  /** A result with the `address` property the callers attach. */
  datatype Checked = Checked(address: string, result: ValidationResult)

  function CheckAll(o: Oracles, addresses: seq<string>, chain: string, networkType: string): (r: seq<Checked>)
    ensures |r| == |addresses|
    decreases |addresses|
  {
    if addresses == [] then []
    else
      var n := |addresses| - 1;
      CheckAll(o, addresses[..n], chain, networkType)
        + [Checked(addresses[n], ValidateAddress(o, addresses[n], chain, networkType))]
  }

  lemma {:induction false} CheckAllAt(o: Oracles, addresses: seq<string>, chain: string, networkType: string, k: nat)
    requires k < |addresses|
    ensures CheckAll(o, addresses, chain, networkType)[k] == Checked(addresses[k], ValidateAddress(o, addresses[k], chain, networkType))
    decreases |addresses|
  {
    var n := |addresses| - 1;
    if k < n {
      CheckAllAt(o, addresses[..n], chain, networkType, k);
    }
  }

  /** `batchValidateAddresses(addresses, chain, networkType)`: one result
      per address, in order, each carrying its address. */
  method BatchValidateAddresses(o: Oracles, addresses: seq<string>, chain: string, networkType: string)
    returns (results: seq<Checked>)
    ensures |results| == |addresses|
    ensures forall k :: 0 <= k < |addresses| ==>
      results[k] == Checked(addresses[k], ValidateAddress(o, addresses[k], chain, networkType))
  {
    results := [];
    var i := 0;
    while i < |addresses|
      invariant i <= |addresses|
      invariant results == CheckAll(o, addresses[..i], chain, networkType)
    {
      var result := ValidateAddress(o, addresses[i], chain, networkType);
      assert addresses[..i + 1][..i] == addresses[..i];
      results := results + [Checked(addresses[i], result)];
      i := i + 1;
    }
    assert addresses[..i] == addresses;
    forall k | 0 <= k < |addresses|
      ensures results[k] == Checked(addresses[k], ValidateAddress(o, addresses[k], chain, networkType))
    {
      CheckAllAt(o, addresses, chain, networkType, k);
    }
  }

  /** `results.filter((r) => r.valid).length` */
  function ValidCount(results: seq<Checked>): (n: nat)
    ensures n <= |results|
    decreases |results|
  {
    if results == [] then 0
    else
      var last := |results| - 1;
      ValidCount(results[..last]) + (if results[last].result.Valid? then 1 else 0)
  }

  /** The valid results, in order. */
  function ValidOnes(results: seq<Checked>): (r: seq<Checked>)
    ensures |r| == ValidCount(results)
    ensures forall k :: 0 <= k < |r| ==> r[k].result.Valid?
    decreases |results|
  {
    if results == [] then []
    else
      var last := |results| - 1;
      ValidOnes(results[..last]) + (if results[last].result.Valid? then [results[last]] else [])
  }

  /** The invalid results, in order. */
  function InvalidOnes(results: seq<Checked>): (r: seq<Checked>)
    ensures |r| == |results| - ValidCount(results)
    ensures forall k :: 0 <= k < |r| ==> r[k].result.Invalid?
    decreases |results|
  {
    if results == [] then []
    else
      var last := |results| - 1;
      InvalidOnes(results[..last]) + (if results[last].result.Invalid? then [results[last]] else [])
  }

  const NetworkNote: string := "   注意: 无法连接到网络，但地址格式有效\n"

  /** The entry of the `index`-th (from 0) valid result in this file. */
  function ValidEntry(index: nat, c: Checked): string
    requires c.result.Valid?
  {
    NumberedLine(index, c.address) + BalanceLine(c.result.balance)
      + (if c.result.networkError then NetworkNote else "")
      + "\n"
  }

  /** `${index + 1}. ${result.address}\n` */
  function NumberedLine(index: nat, address: string): string {
    Decimal(index + 1) + ". " + address + "\n"
  }

  function BalanceLine(balance: string): string {
    "   余额: " + balance + "\n"
  }

  /** The entry of the `index`-th (from 0) invalid result. */
  function InvalidEntry(index: nat, c: Checked): string
    requires c.result.Invalid?
  {
    NumberedLine(index, c.address) + ErrorLine(c.result.error) + "\n"
  }

  function ErrorLine(error: string): string {
    "   错误: " + error + "\n"
  }

  function ValidEntries(valid: seq<Checked>): string
    requires forall k :: 0 <= k < |valid| ==> valid[k].result.Valid?
    decreases |valid|
  {
    if valid == [] then ""
    else
      var n := |valid| - 1;
      ValidEntries(valid[..n]) + ValidEntry(n, valid[n])
  }

  function InvalidEntries(invalid: seq<Checked>): string
    requires forall k :: 0 <= k < |invalid| ==> invalid[k].result.Invalid?
    decreases |invalid|
  {
    if invalid == [] then ""
    else
      var n := |invalid| - 1;
      InvalidEntries(invalid[..n]) + InvalidEntry(n, invalid[n])
  }

  /** The family `saveResultsToFile` looks the network name up in. */
  function ReportFamily(chain: string): Option<Family> {
    if chain == "ETH" then Some(Ethereum)
    else if chain == "BNB" then Some(Bnb)
    else if chain == "BTC" then Some(Bitcoin)
    else if chain == "SOL" then Some(Solana)
    else if chain == "SUI" then Some(Sui)
    else None
  }

  /** The network name the report shows: `""` for a chain outside the
      table, `None` where reading `.name` throws. */
  function ReportNetworkName(chain: string, networkType: string): (r: Option<string>)
    ensures r.None? <==> ReportFamily(chain).Some? && networkType !in NetworkTypes(ReportFamily(chain).value)
  {
    match ReportFamily(chain)
    case None => Some("")
    case Some(f) => NetworkName(f, networkType)
  }

  /** `networkConfigs.X[networkType].name` as written. The lookup also
      finds the names every object inherits: `constructor` is the
      function `Object`, whose `name` is `"Object"`; `__proto__` is
      `Object.prototype`, which has no `name`, so the report shows
      `undefined`; each inherited method is a function named after
      itself. Only a type that is neither listed nor inherited makes
      reading `.name` throw. */
  function ReportNetworkNameAsWritten(chain: string, networkType: string): (r: Option<string>)
    ensures r.None? <==> ReportFamily(chain).Some? && !SupportedAsWritten(ReportFamily(chain).value, networkType)
    ensures networkType !in PrototypeNames ==> r == ReportNetworkName(chain, networkType)
  {
    match ReportFamily(chain)
    case None => Some("")
    case Some(f) =>
      if networkType in NetworkTypes(f) then NetworkName(f, networkType)
      else if networkType == "constructor" then Some("Object")
      else if networkType == "__proto__" then Some("undefined")
      else if networkType in PrototypeNames then Some(networkType)
      else None
  }

  /** As written, a report for `--network constructor` or `--network
      __proto__` is written, naming the network `Object` or `undefined`,
      where the corrected lookup, which knows only the listed types,
      writes none. */
  lemma PrototypeNameReported(chain: string)
    requires ReportFamily(chain).Some?
    ensures ReportNetworkNameAsWritten(chain, "constructor") == Some("Object")
    ensures ReportNetworkNameAsWritten(chain, "__proto__") == Some("undefined")
    ensures ReportNetworkName(chain, "constructor").None? && ReportNetworkName(chain, "__proto__").None?
  {
    var f := ReportFamily(chain).value;
    assert "constructor" !in NetworkTypes(f) && "__proto__" !in NetworkTypes(f);
  }

  /** The report's lines up to the detailed results. */
  function ReportHeader(chain: string, name: string, timestamp: string, total: nat, valid: nat): string
    requires valid <= total
  {
    "===== 多链钱包地址验证结果 =====\n\n" + "链类型: " + chain + "\n"
      + "网络: " + name + "\n" + "验证时间: " + timestamp + "\n\n"
      + "总地址数: " + Decimal(total) + "\n" + "有效地址: " + Decimal(valid) + "\n"
      + "无效地址: " + Decimal(total - valid) + "\n\n"
      + "===== 详细结果 =====\n\n"
  }

  /** The section of invalid results, present only when there is one. */
  function InvalidSection(results: seq<Checked>): string {
    if |results| - ValidCount(results) > 0 then "--- 无效地址 ---\n\n" + InvalidEntries(InvalidOnes(results)) else ""
  }

  /** The whole report: the header, the always-present section of valid
      results and the section of invalid ones. */
  function ResultsReport(results: seq<Checked>, chain: string, name: string, timestamp: string): string {
    ReportHeader(chain, name, timestamp, |results|, ValidCount(results))
      + "--- 有效地址 ---\n\n" + ValidEntries(ValidOnes(results)) + InvalidSection(results)
  }

  /** The text `saveResultsToFile(results, path, chain, networkType)`
      writes, the time stamp given; `None` when reading the network name
      throws, in which case nothing is written. */
  method SaveResultsToFile(results: seq<Checked>, chain: string, networkType: string, timestamp: string)
    returns (r: Option<string>)
    ensures r.None? <==> ReportNetworkName(chain, networkType).None?
    ensures r.Some? ==> r.value == ResultsReport(results, chain, ReportNetworkName(chain, networkType).value, timestamp)
  {
    var networkName := "";
    var family := ReportFamily(chain);
    if family.Some? {
      var named := NetworkName(family.value, networkType);
      if named.None? {
        return None;
      }
      networkName := named.value;
    }
    var output := WriteReport(results, chain, networkName, timestamp);
    return Some(output);
  }

  /** The report once the network name is known. */
  method WriteReport(results: seq<Checked>, chain: string, networkName: string, timestamp: string)
    returns (output: string)
    ensures output == ResultsReport(results, chain, networkName, timestamp)
  {
    var totalAddresses := |results|;
    var validAddresses := ValidCount(results);
    var invalidAddresses := totalAddresses - validAddresses;
    output := WriteHeader(chain, networkName, timestamp, totalAddresses, validAddresses);
    output := output + "--- 有效地址 ---\n\n";
    output := AppendValidEntries(output, ValidOnes(results));
    if invalidAddresses > 0 {
      output := output + "--- 无效地址 ---\n\n";
      output := AppendInvalidEntries(output, InvalidOnes(results));
    } else {
      assert output + InvalidSection(results) == output;
    }
  }

  /** The statistics at the head of the report. */
  method WriteHeader(chain: string, networkName: string, timestamp: string, totalAddresses: nat, validAddresses: nat)
    returns (output: string)
    requires validAddresses <= totalAddresses
    ensures output == ReportHeader(chain, networkName, timestamp, totalAddresses, validAddresses)
  {
    var invalidAddresses := totalAddresses - validAddresses;
    output := "===== 多链钱包地址验证结果 =====\n\n";
    output := output + "链类型: " + chain + "\n";
    output := output + "网络: " + networkName + "\n";
    output := output + "验证时间: " + timestamp + "\n\n";
    output := output + "总地址数: " + Decimal(totalAddresses) + "\n";
    output := output + "有效地址: " + Decimal(validAddresses) + "\n";
    output := output + "无效地址: " + Decimal(invalidAddresses) + "\n\n";
    output := output + "===== 详细结果 =====\n\n";
  }

  /** The two sections split the results: a result is listed among the
      valid ones exactly when it is valid, and among the invalid ones
      exactly when it is not. */
  lemma {:induction false} SectionsPartition(results: seq<Checked>, c: Checked)
    ensures c in ValidOnes(results) <==> c in results && c.result.Valid?
    ensures c in InvalidOnes(results) <==> c in results && c.result.Invalid?
    decreases |results|
  {
    if results != [] {
      var last := |results| - 1;
      SectionsPartition(results[..last], c);
      assert results == results[..last] + [results[last]];
    }
  }

  /** The `forEach` over the valid results: their entries, numbered
      from 1, after `output`. */
  method AppendValidEntries(output: string, valid: seq<Checked>) returns (r: string)
    requires forall k :: 0 <= k < |valid| ==> valid[k].result.Valid?
    ensures r == output + ValidEntries(valid)
  {
    r := output;
    var k := 0;
    while k < |valid|
      invariant k <= |valid|
      invariant r == output + ValidEntries(valid[..k])
    {
      ghost var before := r;
      r := r + NumberedLine(k, valid[k].address);
      r := r + BalanceLine(valid[k].result.balance);
      if valid[k].result.networkError {
        r := r + NetworkNote;
      } else {
        assert r == r + "";
      }
      r := r + "\n";
      ValidEntriesStep(valid, k);
      ValidEntryAfter(output, ValidEntries(valid[..k]), k, valid[k]);
      k := k + 1;
    }
    assert valid[..k] == valid;
  }

  lemma ValidEntryAfter(output: string, done: string, k: nat, c: Checked)
    requires c.result.Valid?
    ensures output + done + NumberedLine(k, c.address) + BalanceLine(c.result.balance)
              + (if c.result.networkError then NetworkNote else "") + "\n"
            == output + (done + ValidEntry(k, c))
  {
  }

  lemma InvalidEntryAfter(output: string, done: string, k: nat, c: Checked)
    requires c.result.Invalid?
    ensures output + done + NumberedLine(k, c.address) + ErrorLine(c.result.error) + "\n"
            == output + (done + InvalidEntry(k, c))
  {
  }

  lemma ValidEntriesStep(valid: seq<Checked>, k: nat)
    requires k < |valid|
    requires forall j :: 0 <= j < |valid| ==> valid[j].result.Valid?
    ensures ValidEntries(valid[..k + 1]) == ValidEntries(valid[..k]) + ValidEntry(k, valid[k])
  {
    assert valid[..k + 1][..k] == valid[..k];
  }

  lemma InvalidEntriesStep(invalid: seq<Checked>, k: nat)
    requires k < |invalid|
    requires forall j :: 0 <= j < |invalid| ==> invalid[j].result.Invalid?
    ensures InvalidEntries(invalid[..k + 1]) == InvalidEntries(invalid[..k]) + InvalidEntry(k, invalid[k])
  {
    assert invalid[..k + 1][..k] == invalid[..k];
  }

  /** The `forEach` over the invalid results. */
  method AppendInvalidEntries(output: string, invalid: seq<Checked>) returns (r: string)
    requires forall k :: 0 <= k < |invalid| ==> invalid[k].result.Invalid?
    ensures r == output + InvalidEntries(invalid)
  {
    r := output;
    var k := 0;
    while k < |invalid|
      invariant k <= |invalid|
      invariant r == output + InvalidEntries(invalid[..k])
    {
      r := r + NumberedLine(k, invalid[k].address);
      r := r + ErrorLine(invalid[k].result.error);
      r := r + "\n";
      InvalidEntriesStep(invalid, k);
      InvalidEntryAfter(output, InvalidEntries(invalid[..k]), k, invalid[k]);
      k := k + 1;
    }
    assert invalid[..k] == invalid;
  }

  // ---------------------------------------------------------------------
  // batch mode

  /** `userNetworkConfig[key]`, `""` for a key it does not have. */
  function UserConfigAsWritten(key: string): string {
    if key == "ethereum" then "goerli"
    else if key == "bnb" then "testnet"
    else if key == "bitcoin" then "testnet"
    else if key == "solana" then "devnet"
    else if key == "sui" then "devnet"
    else ""
  }

  /** The batch mode's network type as written:
      `cmdParams.network || userNetworkConfig[cmdParams.chain.toLowerCase()]`. */
  function BatchNetworkTypeAsWritten(chain: string, network: Option<string>): string {
    if network.Some? && network.value != "" then network.value else UserConfigAsWritten(ToLower(chain))
  }

  /** Without `--network`, the lower-cased tags `eth`, `btc` and `sol` are
      not keys of `userNetworkConfig`, so the network type stays
      undefined: the addresses are still checked against the default
      network, but reading the report's network name throws and no
      report is written. */
  lemma BatchDefaultLost()
    ensures BatchNetworkTypeAsWritten("ETH", None) == ""
    ensures BatchNetworkTypeAsWritten("BTC", None) == ""
    ensures BatchNetworkTypeAsWritten("SOL", None) == ""
    ensures ReportNetworkName("ETH", BatchNetworkTypeAsWritten("ETH", None)).None?
    ensures ReportNetworkName("BTC", BatchNetworkTypeAsWritten("BTC", None)).None?
    ensures ReportNetworkName("SOL", BatchNetworkTypeAsWritten("SOL", None)).None?
  {
    assert ToLower("ETH") == "eth";
    assert ToLower("BTC") == "btc";
    assert ToLower("SOL") == "sol";
  }

  /** As written, a run without `--network` for ETH, BTC or SOL checks
      the same results the corrected default gives, since a missing type
      falls back to that default inside the validators; it differs only
      in the report, which is never written. */
  lemma BatchResultsAsWritten(o: Oracles, addresses: seq<string>, chain: string)
    requires chain == "ETH" || chain == "BTC" || chain == "SOL"
    ensures CheckAll(o, addresses, chain, BatchNetworkTypeAsWritten(chain, None))
              == CheckAll(o, addresses, chain, BatchNetworkType(chain, None))
    ensures ReportNetworkName(chain, BatchNetworkTypeAsWritten(chain, None)).None?
  {
    BatchDefaultLost();
    ReportFamilyIsFamily(chain);
    CheckAllMissingType(o, addresses, chain);
  }

  /** Checking a list with no network type is checking it against the
      family default. */
  lemma CheckAllMissingType(o: Oracles, addresses: seq<string>, chain: string)
    requires FamilyOf(chain).Some?
    ensures CheckAll(o, addresses, chain, "") == CheckAll(o, addresses, chain, DefaultNetwork(FamilyOf(chain).value))
  {
    var t := DefaultNetwork(FamilyOf(chain).value);
    var a, b := CheckAll(o, addresses, chain, ""), CheckAll(o, addresses, chain, t);
    forall k | 0 <= k < |addresses|
      ensures a[k] == b[k]
    {
      CheckAllAt(o, addresses, chain, "", k);
      CheckAllAt(o, addresses, chain, t, k);
      MissingTypeIsDefault(o, addresses[k], chain);
    }
  }

  /** The batch mode's network type: the one given, else the chain's
      default. */
  function BatchNetworkType(chain: string, network: Option<string>): (t: string)
    ensures network.Some? && network.value != "" ==> t == network.value
    ensures (network.None? || network.value == "") && FamilyOf(chain).Some? ==> t == DefaultNetwork(FamilyOf(chain).value)
  {
    if network.Some? && network.value != "" then network.value
    else match FamilyOf(chain)
      case Some(f) => DefaultNetwork(f)
      case None => ""
  }

  /** With the default taken from the chain itself, a run without
      `--network` checks the same results as before and its report can
      always be written. */
  lemma BatchDefaultReported(o: Oracles, address: string, chain: string)
    requires ReportFamily(chain).Some?
    ensures ReportNetworkName(chain, BatchNetworkType(chain, None)).Some?
    ensures ValidateAddress(o, address, chain, BatchNetworkType(chain, None)) == ValidateAddress(o, address, chain, "")
  {
    ReportFamilyIsFamily(chain);
    MissingTypeIsDefault(o, address, chain);
  }

  /** The report's table lookup and `validateAddress` agree on the family
      of the five tags. */
  lemma ReportFamilyIsFamily(chain: string)
    requires ReportFamily(chain).Some?
    ensures FamilyOf(chain) == ReportFamily(chain)
  {
    assert ToUpper(chain) == chain;
  }

  /** The batch branch of `main`, the address file given as its lines:
      read the addresses, stop when there are none, check each one and
      build the report when `--output` names a file. */
  method BatchMode(o: Oracles, chain: string, network: Option<string>, lines: seq<string>,
                   writeReport: bool, timestamp: string)
    returns (results: seq<Checked>, report: Option<string>)
    ensures var addresses := KeepAddresses(lines);
            && results == CheckAll(o, addresses, chain, BatchNetworkType(chain, network))
            && (report.Some? <==> writeReport && addresses != [] && ReportNetworkName(chain, BatchNetworkType(chain, network)).Some?)
            && (report.Some? ==> report.value == ResultsReport(results, chain, ReportNetworkName(chain, BatchNetworkType(chain, network)).value, timestamp))
  {
    var addresses := ReadAddressesFromFile(lines);
    if |addresses| == 0 {
      return [], None;
    }
    var networkType := BatchNetworkType(chain, network);
    results := BatchValidateAddresses(o, addresses, chain, networkType);
    CheckAllIs(o, addresses, chain, networkType, results);
    report := None;
    if writeReport {
      report := SaveResultsToFile(results, chain, networkType, timestamp);
    }
  }

  /** The results `BatchValidateAddresses` promises are `CheckAll`'s. */
  lemma CheckAllIs(o: Oracles, addresses: seq<string>, chain: string, networkType: string, results: seq<Checked>)
    requires |results| == |addresses|
    requires forall k :: 0 <= k < |addresses| ==>
      results[k] == Checked(addresses[k], ValidateAddress(o, addresses[k], chain, networkType))
    ensures results == CheckAll(o, addresses, chain, networkType)
  {
    var c := CheckAll(o, addresses, chain, networkType);
    forall k | 0 <= k < |addresses|
      ensures results[k] == c[k]
    {
      CheckAllAt(o, addresses, chain, networkType, k);
    }
  }

  // ---------------------------------------------------------------------
  // parseCommandLine

  /** The `params` object: absent properties are `None` / `false`. */
  datatype Params = Params(
    chain: Option<string>, address: Option<string>, network: Option<string>,
    file: Option<string>, output: Option<string>,
    help: bool, generate: bool, showConfig: bool, batch: bool)

  const NoParams: Params := Params(None, None, None, None, None, false, false, false, false)

  /** The flags that take the next argument as their value. */
  predicate TakesValue(arg: string) {
    arg == "--chain" || arg == "--address" || arg == "--network" || arg == "--file" || arg == "--output"
  }

  /** One turn of the loop at position `i`: the new `params` and the
      position of the next turn. */
  function Step(args: seq<string>, i: nat, p: Params): (r: (Params, nat))
    requires i < |args|
    ensures i < r.1 <= |args|
    ensures r.1 == i + 2 <==> TakesValue(args[i]) && i + 1 < |args|
  {
    var arg := args[i];
    var hasValue := i + 1 < |args|;
    if arg == "--chain" && hasValue then (p.(chain := Some(ToUpper(args[i + 1]))), i + 2)
    else if arg == "--address" && hasValue then (p.(address := Some(args[i + 1])), i + 2)
    else if arg == "--help" then (p.(help := true), i + 1)
    else if arg == "--generate" then (p.(generate := true), i + 1)
    else if arg == "--network" && hasValue then (p.(network := Some(ToLower(args[i + 1]))), i + 2)
    else if arg == "--config" then (p.(showConfig := true), i + 1)
    else if arg == "--file" && hasValue then (p.(file := Some(args[i + 1])), i + 2)
    else if arg == "--batch" then (p.(batch := true), i + 1)
    else if arg == "--output" && hasValue then (p.(output := Some(args[i + 1])), i + 2)
    else (p, i + 1)
  }

  /** The loop from position `i` on. */
  function Scan(args: seq<string>, i: nat, p: Params): Params
    requires i <= |args|
    decreases |args| - i
  {
    if i == |args| then p
    else
      var (q, next) := Step(args, i, p);
      Scan(args, next, q)
  }

  /** `parseCommandLine()` over `process.argv.slice(2)`. */
  method ParseCommandLine(args: seq<string>) returns (params: Params)
    ensures params == Scan(args, 0, NoParams)
  {
    params := NoParams;
    var i := 0;
    while i < |args|
      invariant i <= |args|
      invariant Scan(args, i, params) == Scan(args, 0, NoParams)
    {
      if args[i] == "--chain" && i + 1 < |args| {
        params := params.(chain := Some(ToUpper(args[i + 1])));
        i := i + 1;
      } else if args[i] == "--address" && i + 1 < |args| {
        params := params.(address := Some(args[i + 1]));
        i := i + 1;
      } else if args[i] == "--help" {
        params := params.(help := true);
      } else if args[i] == "--generate" {
        params := params.(generate := true);
      } else if args[i] == "--network" && i + 1 < |args| {
        params := params.(network := Some(ToLower(args[i + 1])));
        i := i + 1;
      } else if args[i] == "--config" {
        params := params.(showConfig := true);
      } else if args[i] == "--file" && i + 1 < |args| {
        params := params.(file := Some(args[i + 1]));
        i := i + 1;
      } else if args[i] == "--batch" {
        params := params.(batch := true);
      } else if args[i] == "--output" && i + 1 < |args| {
        params := params.(output := Some(args[i + 1]));
        i := i + 1;
      }
      i := i + 1;
    }
  }

  /** `params.chain` is upper case and `params.network` lower case. */
  predicate Normalized(p: Params) {
    && (p.chain.Some? ==> IsUpper(p.chain.value))
    && (p.network.Some? ==> IsLower(p.network.value))
  }

  /** Whatever the arguments, `--chain` comes out upper case and
      `--network` lower case. */
  lemma {:induction false} ScanNormalizes(args: seq<string>, i: nat, p: Params)
    requires i <= |args| && Normalized(p)
    ensures Normalized(Scan(args, i, p))
    decreases |args| - i
  {
    if i < |args| {
      StepNormalizes(args, i, p);
      ScanNormalizes(args, Step(args, i, p).1, Step(args, i, p).0);
    }
  }

  lemma StepNormalizes(args: seq<string>, i: nat, p: Params)
    requires i < |args| && Normalized(p)
    ensures Normalized(Step(args, i, p).0)
  {
    StepFields(args, i, p);
    if i + 1 < |args| {
      UpperIsUpper(args[i + 1]);
      LowerIsLower(args[i + 1]);
    }
  }

  /** A turn leaves `chain` and `network` alone or sets them from the
      next argument. */
  lemma StepFields(args: seq<string>, i: nat, p: Params)
    requires i < |args|
    ensures var q := Step(args, i, p).0;
            && (q.chain == p.chain || (i + 1 < |args| && q.chain == Some(ToUpper(args[i + 1]))))
            && (q.network == p.network || (i + 1 < |args| && q.network == Some(ToLower(args[i + 1]))))
  {
    var arg := args[i];
    if arg == "--chain" || arg == "--network" {
    } else {
    }
  }

  /** The property a value flag sets. */
  function FlagValue(p: Params, flag: string): Option<string> {
    if flag == "--address" then p.address
    else if flag == "--file" then p.file
    else p.output
  }

  /** `flag` at position `j`, followed by `v`. */
  predicate GivenAt(args: seq<string>, j: nat, flag: string, v: string) {
    j + 1 < |args| && args[j] == flag && args[j + 1] == v
  }

  /** The value of `--address`, `--file` and `--output` is the argument
      right after one occurrence of the flag. */
  lemma {:induction false} ScanProvenance(args: seq<string>, i: nat, p: Params, flag: string)
    requires i <= |args|
    requires flag == "--address" || flag == "--file" || flag == "--output"
    ensures var v := FlagValue(Scan(args, i, p), flag);
            v.Some? && v != FlagValue(p, flag) ==> exists j :: i <= j && GivenAt(args, j, flag, v.value)
    decreases |args| - i
  {
    if i < |args| {
      var (q, next) := Step(args, i, p);
      ScanProvenance(args, next, q, flag);
      StepProvenance(args, i, p, flag);
    }
  }

  lemma StepProvenance(args: seq<string>, i: nat, p: Params, flag: string)
    requires i < |args|
    requires flag == "--address" || flag == "--file" || flag == "--output"
    ensures var v := FlagValue(Step(args, i, p).0, flag);
            v == FlagValue(p, flag) || (v.Some? && GivenAt(args, i, flag, v.value))
  {
  }

  /** A value flag in last position takes no value and changes nothing;
      an argument the parser does not know is skipped. */
  lemma StepSkips(args: seq<string>, i: nat, p: Params)
    requires i < |args|
    requires (TakesValue(args[i]) && i + 1 == |args|) ||
             (!TakesValue(args[i]) && args[i] !in ["--help", "--generate", "--config", "--batch"])
    ensures Step(args, i, p) == (p, i + 1)
  {
  }
}
