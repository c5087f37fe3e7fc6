/** `MultiChainWalletGenerator` of index.js: batch generation of wallet
    groups over a list of chain tags, the format-only address check, and
    the text of the three files the generated wallets are saved to.

    The key cryptography (BIP-39 mnemonics, BIP-32 derivation, P2PKH,
    the Ethereum HD wallet, the Solana, Sui and TON keypairs) lives in
    libraries; the model receives each library call as a function-typed
    field of `Libraries`, and every random draw is named by the place in
    the batch where it happens (`Draw`). */
module Generator {
  import opened Wrappers
  import opened Text
  import Dict

  /** What a key library hands back. */
  datatype KeyPair = KeyPair(address: string, privateKey: string, publicKey: string)

  /** `WalletInfo`: `mnemonic` is `None` where the record has no such
      property (Solana, Sui, TON). */
  datatype WalletInfo = WalletInfo(address: string, privateKey: string, publicKey: string, mnemonic: Option<string>)

  /** One `walletGroup` object: insertion-ordered, keyed by upper-case tag. */
  type Group = Dict.Entries<WalletInfo>

  /** The place of a random draw in a batch: the group's own mnemonic, or
      the draw made for the tag at position `slot` of group `group`. */
  datatype Draw = GroupMnemonic(group: nat) | Slot(group: nat, slot: nat)

  /** The library calls, as functions of their inputs and of the draw. */
  datatype Libraries = Libraries(
    /** `bip39.generateMnemonic(256)` */
    newMnemonic: Draw -> string,
    /** seed, `hdkey` derivation at the given path, `ECPair`, P2PKH */
    btcDerive: (string, string) -> Result<KeyPair>,
    /** `ethers.HDNodeWallet.fromPhrase`, with the wallet's mnemonic phrase */
    ethFromPhrase: string -> Result<(KeyPair, string)>,
    /** `ethers.Wallet.createRandom`, with the wallet's mnemonic phrase */
    ethRandom: Draw -> Result<(KeyPair, string)>,
    /** `Keypair.generate` of @solana/web3.js */
    solGenerate: Draw -> Result<KeyPair>,
    /** `new Ed25519Keypair()` of @mysten/sui.js */
    suiGenerate: Draw -> Result<KeyPair>,
    /** the TON keypair and wallet address */
    tonGenerate: Draw -> Result<KeyPair>)

  const Bip44Path: string := "m/44'/0'/0'/0/0"

  const BtcFailure: string := "生成BTC钱包失败: "
  const EthFailure: string := "生成ETH钱包失败: "
  const SolFailure: string := "生成SOL钱包失败: "
  const SuiFailure: string := "生成SUI钱包失败: "
  const TonFailure: string := "生成TON钱包失败: "

  /** The tags the batch `switch` knows, in upper case. */
  predicate Known(key: string) {
    key == "BTC" || key == "ETH" || key == "SOL" || key == "SUI" || key == "TON"
  }

  /** An error message carrying one of the generators' chain labels. */
  predicate Labelled(e: string) {
    || StartsWith(e, BtcFailure) || StartsWith(e, EthFailure) || StartsWith(e, SolFailure)
    || StartsWith(e, SuiFailure) || StartsWith(e, TonFailure)
  }

  /** A mnemonic JavaScript treats as present: defined and non-empty. */
  predicate Truthy(m: Option<string>) {
    m.Some? && m.value != ""
  }

  function Keyed(k: KeyPair, mnemonic: Option<string>): WalletInfo {
    WalletInfo(k.address, k.privateKey, k.publicKey, mnemonic)
  }

  // ---------------------------------------------------------------------
  // the per-chain generators

  /** `generateBitcoinWallet(mnemonic)`, `""` standing for a missing
      mnemonic: a fresh mnemonic is drawn only when none is supplied, the
      key is always derived at `m/44'/0'/0'/0/0`, the record carries the
      mnemonic it was derived from, and a library error comes back with
      the BTC label in front of its message. */
  function GenerateBitcoinWallet(lib: Libraries, mnemonic: string, d: Draw): (r: Result<WalletInfo>)
    ensures var m := if mnemonic != "" then mnemonic else lib.newMnemonic(d);
            && (r.Success? <==> lib.btcDerive(m, Bip44Path).Success?)
            && (r.Success? ==> r.value.mnemonic == Some(m) && r.value.address == lib.btcDerive(m, Bip44Path).value.address)
            && (r.Failure? ==> r.error == BtcFailure + lib.btcDerive(m, Bip44Path).error)
  {
    var m := if mnemonic != "" then mnemonic else lib.newMnemonic(d);
    match lib.btcDerive(m, Bip44Path)
    case Success(k) => Success(Keyed(k, Some(m)))
    case Failure(e) => Failure(BtcFailure + e)
  }

  /** `generateEthereumWallet(mnemonic)`: derived from the phrase when one
      is supplied, random otherwise; errors get the ETH label. */
  function GenerateEthereumWallet(lib: Libraries, mnemonic: string, d: Draw): (r: Result<WalletInfo>)
    ensures var made := if mnemonic != "" then lib.ethFromPhrase(mnemonic) else lib.ethRandom(d);
            && (r.Success? <==> made.Success?)
            && (r.Success? ==> r.value == Keyed(made.value.0, Some(made.value.1)))
            && (r.Failure? ==> r.error == EthFailure + made.error)
  {
    var made := if mnemonic != "" then lib.ethFromPhrase(mnemonic) else lib.ethRandom(d);
    match made
    case Success((k, phrase)) => Success(Keyed(k, Some(phrase)))
    case Failure(e) => Failure(EthFailure + e)
  }

  /** The mnemonic-less generators (Solana, Sui, TON): the key pair as
      drawn, no mnemonic, errors under the chain's label. */
  function Independent(made: Result<KeyPair>, prefix: string): (r: Result<WalletInfo>)
    ensures r.Success? <==> made.Success?
    ensures r.Success? ==> r.value == Keyed(made.value, None) && !Truthy(r.value.mnemonic)
    ensures r.Failure? ==> r.error == prefix + made.error
  {
    match made
    case Success(k) => Success(Keyed(k, None))
    case Failure(e) => Failure(prefix + e)
  }

  /** One pass of the `switch (chain.toUpperCase())`: the key the record
      is stored under and the generator's result, or `None` for a tag the
      switch does not know. */
  function Generate(lib: Libraries, tag: string, mnemonic: string, d: Draw): (r: Option<(string, Result<WalletInfo>)>)
    ensures r.Some? <==> Known(ToUpper(tag))
    ensures r.Some? ==> r.value.0 == ToUpper(tag)
    ensures r.Some? && r.value.1.Failure? ==> Labelled(r.value.1.error)
  {
    var key := ToUpper(tag);
    if key == "BTC" then Some((key, GenerateBitcoinWallet(lib, mnemonic, d)))
    else if key == "ETH" then Some((key, GenerateEthereumWallet(lib, mnemonic, d)))
    else if key == "SOL" then Some((key, Independent(lib.solGenerate(d), SolFailure)))
    else if key == "SUI" then Some((key, Independent(lib.suiGenerate(d), SuiFailure)))
    else if key == "TON" then Some((key, Independent(lib.tonGenerate(d), TonFailure)))
    else None
  }

  // ---------------------------------------------------------------------
  // the batch

  /** The group that group number `i` gets from the tags `chains` and the
      group mnemonic: each known tag's record is stored under its
      upper-case key (a repeated key is overwritten in place); the first
      failing generator ends the group with its error. */
  function FillGroup(lib: Libraries, i: nat, mnemonic: string, chains: seq<string>): Result<Group>
    decreases |chains|
  {
    if chains == [] then Success([])
    else
      var j := |chains| - 1;
      var prev :- FillGroup(lib, i, mnemonic, chains[..j]);
      match Generate(lib, chains[j], mnemonic, Slot(i, j))
      case None => Success(prev)
      case Some((key, made)) =>
        match made
        case Failure(e) => Failure(e)
        case Success(w) => Success(Dict.Put(prev, key, w))
  }

  /** The first `count` groups, each with its own mnemonic; the first
      failure ends the batch and no group is returned. */
  function Batch(lib: Libraries, count: nat, chains: seq<string>): Result<seq<Group>>
    decreases count
  {
    if count == 0 then Success([])
    else
      var prev :- Batch(lib, count - 1, chains);
      var g :- FillGroup(lib, count - 1, lib.newMnemonic(GroupMnemonic(count - 1)), chains);
      Success(prev + [g])
  }

  /** `generateMultipleWallets(count, chains)`. */
  method GenerateMultipleWallets(lib: Libraries, count: nat, chains: seq<string>) returns (r: Result<seq<Group>>)
    ensures r == Batch(lib, count, chains)
  {
    var wallets: seq<Group> := [];
    var i := 0;
    while i < count
      invariant i <= count
      invariant Batch(lib, i, chains) == Success(wallets)
    {
      var mnemonic := lib.newMnemonic(GroupMnemonic(i));
      var group := FillWalletGroup(lib, i, mnemonic, chains);
      if group.Failure? {
        assert Batch(lib, i + 1, chains) == Failure(group.error);
        BatchFails(lib, i + 1, count, chains);
        return Failure(group.error);
      }
      BatchNext(lib, i, chains, wallets, group.value);
      wallets := wallets + [group.value];
      i := i + 1;
    }
    return Success(wallets);
  }

  /** The `for (const chain of chains)` loop that fills group `i`. */
  method FillWalletGroup(lib: Libraries, i: nat, mnemonic: string, chains: seq<string>) returns (r: Result<Group>)
    ensures r == FillGroup(lib, i, mnemonic, chains)
  {
    var group: Group := [];
    var j := 0;
    while j < |chains|
      invariant j <= |chains|
      invariant FillGroup(lib, i, mnemonic, chains[..j]) == Success(group)
    {
      FillGroupNext(lib, i, mnemonic, chains, j, group);
      match Generate(lib, chains[j], mnemonic, Slot(i, j)) {
        case None =>
        case Some((key, made)) =>
          match made {
            case Failure(e) =>
              FillGroupFails(lib, i, mnemonic, chains, j + 1);
              return Failure(e);
            case Success(w) =>
              group := Dict.Put(group, key, w);
          }
      }
      j := j + 1;
    }
    assert chains[..|chains|] == chains;
    return Success(group);
  }

  /** One more tag: its record put in, its failure, or nothing. */
  lemma FillGroupNext(lib: Libraries, i: nat, mnemonic: string, chains: seq<string>, j: nat, group: Group)
    requires j < |chains| && FillGroup(lib, i, mnemonic, chains[..j]) == Success(group)
    ensures var made := Generate(lib, chains[j], mnemonic, Slot(i, j));
            FillGroup(lib, i, mnemonic, chains[..j + 1]) ==
              if made.None? then Success(group)
              else if made.value.1.Failure? then Failure(made.value.1.error)
              else Success(Dict.Put(group, made.value.0, made.value.1.value))
  {
    assert chains[..j + 1][..j] == chains[..j];
  }

  /** One more group appended to a successful batch. */
  lemma BatchNext(lib: Libraries, i: nat, chains: seq<string>, wallets: seq<Group>, group: Group)
    requires Batch(lib, i, chains) == Success(wallets)
    requires FillGroup(lib, i, lib.newMnemonic(GroupMnemonic(i)), chains) == Success(group)
    ensures Batch(lib, i + 1, chains) == Success(wallets + [group])
  {
  }

  /** A failure in the first `j` tags is the failure of the whole group. */
  lemma {:induction false} FillGroupFails(lib: Libraries, i: nat, mnemonic: string, chains: seq<string>, j: nat)
    requires j <= |chains| && FillGroup(lib, i, mnemonic, chains[..j]).Failure?
    ensures FillGroup(lib, i, mnemonic, chains) == FillGroup(lib, i, mnemonic, chains[..j])
    decreases |chains| - j
  {
    if j < |chains| {
      var n := |chains| - 1;
      assert chains[..n][..j] == chains[..j];
      FillGroupFails(lib, i, mnemonic, chains[..n], j);
    } else {
      assert chains[..j] == chains;
    }
  }

  /** A failure among the first `n` groups is the failure of the batch. */
  lemma {:induction false} BatchFails(lib: Libraries, n: nat, count: nat, chains: seq<string>)
    requires n <= count && Batch(lib, n, chains).Failure?
    ensures Batch(lib, count, chains) == Batch(lib, n, chains)
    decreases count - n
  {
    if n < count {
      BatchFails(lib, n, count - 1, chains);
    }
  }

  /** A successful batch has exactly `count` groups, group `i` being the
      one built from the `i`-th group mnemonic. */
  lemma {:induction false} BatchGroups(lib: Libraries, count: nat, chains: seq<string>)
    requires Batch(lib, count, chains).Success?
    ensures |Batch(lib, count, chains).value| == count
    ensures forall i :: 0 <= i < count ==>
      FillGroup(lib, i, lib.newMnemonic(GroupMnemonic(i)), chains) == Success(Batch(lib, count, chains).value[i])
    decreases count
  {
    if count > 0 {
      BatchGroups(lib, count - 1, chains);
    }
  }

  /** The batch succeeds exactly when every group does. */
  lemma {:induction false} BatchSucceeds(lib: Libraries, count: nat, chains: seq<string>)
    ensures Batch(lib, count, chains).Success? <==>
      forall i :: 0 <= i < count ==> FillGroup(lib, i, lib.newMnemonic(GroupMnemonic(i)), chains).Success?
    decreases count
  {
    if count > 0 {
      BatchSucceeds(lib, count - 1, chains);
    }
  }

  /** A group succeeds exactly when no known tag's generator fails. */
  lemma {:induction false} GroupSucceeds(lib: Libraries, i: nat, mnemonic: string, chains: seq<string>)
    ensures FillGroup(lib, i, mnemonic, chains).Success? <==>
      forall j :: 0 <= j < |chains| ==>
        var made := Generate(lib, chains[j], mnemonic, Slot(i, j));
        made.None? || made.value.1.Success?
    decreases |chains|
  {
    if chains != [] {
      var n := |chains| - 1;
      GroupSucceeds(lib, i, mnemonic, chains[..n]);
      assert forall j :: 0 <= j < n ==> chains[..n][j] == chains[j];
    }
  }

  /** Every error that escapes the batch names the chain whose generator
      failed. */
  lemma {:induction false} BatchErrorLabelled(lib: Libraries, count: nat, chains: seq<string>)
    requires Batch(lib, count, chains).Failure?
    ensures Labelled(Batch(lib, count, chains).error)
    decreases count
  {
    if Batch(lib, count - 1, chains).Failure? {
      BatchErrorLabelled(lib, count - 1, chains);
    } else {
      GroupErrorLabelled(lib, count - 1, lib.newMnemonic(GroupMnemonic(count - 1)), chains);
    }
  }

  lemma {:induction false} GroupErrorLabelled(lib: Libraries, i: nat, mnemonic: string, chains: seq<string>)
    requires FillGroup(lib, i, mnemonic, chains).Failure?
    ensures Labelled(FillGroup(lib, i, mnemonic, chains).error)
    decreases |chains|
  {
    var n := |chains| - 1;
    if FillGroup(lib, i, mnemonic, chains[..n]).Failure? {
      GroupErrorLabelled(lib, i, mnemonic, chains[..n]);
    }
  }

  /** A successful group is the group of all but its last tag, with the
      last tag's record put in when the tag is known. */
  lemma FillGroupStep(lib: Libraries, i: nat, mnemonic: string, chains: seq<string>)
    requires chains != [] && FillGroup(lib, i, mnemonic, chains).Success?
    ensures var n := |chains| - 1;
            var made := Generate(lib, chains[n], mnemonic, Slot(i, n));
            && FillGroup(lib, i, mnemonic, chains[..n]).Success?
            && (made.Some? ==> made.value.1.Success?)
            && FillGroup(lib, i, mnemonic, chains).value ==
                 if made.None? then FillGroup(lib, i, mnemonic, chains[..n]).value
                 else Dict.Put(FillGroup(lib, i, mnemonic, chains[..n]).value, made.value.0, made.value.1.value)
  {
  }

  /** A group's keys are the upper-cased known tags, each once, in the
      order of their first occurrence. */
  lemma GroupKeys(lib: Libraries, i: nat, mnemonic: string, chains: seq<string>)
    requires FillGroup(lib, i, mnemonic, chains).Success?
    ensures var g := FillGroup(lib, i, mnemonic, chains).value;
            && Dict.DistinctKeys(g)
            && forall k :: k in Dict.Keys(g) <==> Known(k) && exists j :: 0 <= j < |chains| && ToUpper(chains[j]) == k
  {
    GroupDistinct(lib, i, mnemonic, chains);
    forall k {
      GroupHasKey(lib, i, mnemonic, chains, k);
    }
  }

  lemma {:induction false} GroupDistinct(lib: Libraries, i: nat, mnemonic: string, chains: seq<string>)
    requires FillGroup(lib, i, mnemonic, chains).Success?
    ensures Dict.DistinctKeys(FillGroup(lib, i, mnemonic, chains).value)
    decreases |chains|
  {
    if chains != [] {
      var n := |chains| - 1;
      FillGroupStep(lib, i, mnemonic, chains);
      GroupDistinct(lib, i, mnemonic, chains[..n]);
      var prev := FillGroup(lib, i, mnemonic, chains[..n]).value;
      var made := Generate(lib, chains[n], mnemonic, Slot(i, n));
      if made.Some? {
        Dict.PutDistinct(prev, made.value.0, made.value.1.value);
      }
    }
  }

  lemma {:induction false} GroupHasKey(lib: Libraries, i: nat, mnemonic: string, chains: seq<string>, k: string)
    requires FillGroup(lib, i, mnemonic, chains).Success?
    ensures k in Dict.Keys(FillGroup(lib, i, mnemonic, chains).value) <==>
              Known(k) && exists j :: 0 <= j < |chains| && ToUpper(chains[j]) == k
    decreases |chains|
  {
    if chains != [] {
      var n := |chains| - 1;
      FillGroupStep(lib, i, mnemonic, chains);
      GroupHasKey(lib, i, mnemonic, chains[..n], k);
      var prev := FillGroup(lib, i, mnemonic, chains[..n]).value;
      var made := Generate(lib, chains[n], mnemonic, Slot(i, n));
      if made.Some? {
        Dict.PutKeys(prev, made.value.0, made.value.1.value);
      }
      if exists j :: 0 <= j < |chains| && ToUpper(chains[j]) == k {
        var j :| 0 <= j < |chains| && ToUpper(chains[j]) == k;
        if j < n {
          assert chains[..n][j] == chains[j];
        }
      }
      if exists j :: 0 <= j < n && ToUpper(chains[..n][j]) == k {
        var j :| 0 <= j < n && ToUpper(chains[..n][j]) == k;
        assert chains[..n][j] == chains[j];
      }
    }
  }

  /** BTC and ETH share the group mnemonic: the BTC record carries it and
      the ETH record is the wallet derived from it. */
  lemma {:induction false} SharedMnemonic(lib: Libraries, i: nat, mnemonic: string, chains: seq<string>)
    requires mnemonic != ""
    requires FillGroup(lib, i, mnemonic, chains).Success?
    ensures var g := FillGroup(lib, i, mnemonic, chains).value;
            && (Dict.Get(g, "BTC").Some? ==> Dict.Get(g, "BTC").value.mnemonic == Some(mnemonic))
            && (Dict.Get(g, "ETH").Some? ==>
                  lib.ethFromPhrase(mnemonic).Success? &&
                  Dict.Get(g, "ETH").value == Keyed(lib.ethFromPhrase(mnemonic).value.0, Some(lib.ethFromPhrase(mnemonic).value.1)))
    decreases |chains|
  {
    if chains != [] {
      var n := |chains| - 1;
      FillGroupStep(lib, i, mnemonic, chains);
      SharedMnemonic(lib, i, mnemonic, chains[..n]);
      var prev := FillGroup(lib, i, mnemonic, chains[..n]).value;
      var made := Generate(lib, chains[n], mnemonic, Slot(i, n));
      if made.Some? {
        Dict.PutGet(prev, made.value.0, made.value.1.value);
      }
    }
  }

  // ---------------------------------------------------------------------
  // validateAddress

  /** The format predicates `validateAddress` takes from libraries. */
  datatype FormatLibs = FormatLibs(
    /** `bitcoin.address.toOutputScript` succeeds */
    btcOutputScript: string -> bool,
    /** `TonWeb.Address.isValid` */
    tonIsValid: string -> bool)

  /** `validateAddress(address, chain)`. The ETH branch calls
      `ethers.utils.isAddress`, which the ethers v6 API does not have: the
      call throws and the surrounding `catch` answers false. Lengths are
      JavaScript lengths (UTF-16 code units). */
  function ValidateAddress(libs: FormatLibs, address: string, chain: string): (ok: bool)
    ensures ToUpper(chain) == "ETH" ==> !ok
    ensures ToUpper(chain) == "SOL" ==> (ok <==> Utf16Length(address) == 43 || Utf16Length(address) == 44)
    ensures ToUpper(chain) == "SUI" ==> (ok <==> StartsWith(address, "0x") && Utf16Length(address) == 42)
    ensures ToUpper(chain) == "BTC" ==> (ok <==> libs.btcOutputScript(address))
    ensures ToUpper(chain) == "TON" ==> (ok <==> libs.tonIsValid(address))
    ensures !Known(ToUpper(chain)) ==> !ok
  {
    match ToUpper(chain)
    case "ETH" => false
    case "BTC" => libs.btcOutputScript(address)
    case "SOL" => Utf16Length(address) == 44 || Utf16Length(address) == 43
    case "SUI" => StartsWith(address, "0x") && Utf16Length(address) == 42
    case "TON" => libs.tonIsValid(address)
    case _ => false
  }

  /** A SOL or SUI answer depends on the address only through its length
      and its first two characters. */
  lemma LengthRuleOnly(libs: FormatLibs, a: string, b: string, chain: string)
    requires ToUpper(chain) == "SOL" || ToUpper(chain) == "SUI"
    requires Utf16Length(a) == Utf16Length(b) && (|a| >= 2 && |b| >= 2 ==> a[..2] == b[..2])
    requires (|a| < 2) == (|b| < 2)
    ensures ValidateAddress(libs, a, chain) == ValidateAddress(libs, b, chain)
  {
    if |a| >= 2 {
      assert StartsWith(a, "0x") <==> a[..2] == "0x";
      assert StartsWith(b, "0x") <==> b[..2] == "0x";
    }
  }

  // ---------------------------------------------------------------------
  // saveWalletsToFiles

  /** Fifteen `=` characters. */
  const Rule: string := "==============="

  /** `=============== BTC Addresses ===============` */
  function Banner(chain: string, kind: string): string {
    Rule + " " + chain + " " + kind + " " + Rule
  }

  /** The blank line, banner line and blank line that open a section. */
  function Heading(chain: string, kind: string): seq<string> {
    ["", Banner(chain, kind), ""]
  }

  /** Every group has a record for `chain` (so `walletGroup[chain]` is an
      object and reading its fields does not throw). */
  predicate Covers(wallets: seq<Group>, chain: string)
    decreases |wallets|
  {
    wallets == [] ||
      var n := |wallets| - 1;
      Covers(wallets[..n], chain) && Dict.Get(wallets[n], chain).Some?
  }

  predicate CoversAll(wallets: seq<Group>, chains: seq<string>) {
    forall t :: 0 <= t < |chains| ==> Covers(wallets, chains[t])
  }

  lemma {:induction false} CoversEach(wallets: seq<Group>, chain: string)
    ensures Covers(wallets, chain) <==> forall k :: 0 <= k < |wallets| ==> Dict.Get(wallets[k], chain).Some?
    decreases |wallets|
  {
    if wallets != [] {
      var n := |wallets| - 1;
      CoversEach(wallets[..n], chain);
      assert forall k :: 0 <= k < n ==> wallets[..n][k] == wallets[k];
    }
  }

  /** `saveWalletsToFiles` reads a record under every tag as given in
      every group. */
  lemma CoversAllEach(wallets: seq<Group>, chains: seq<string>)
    ensures CoversAll(wallets, chains) <==>
      forall t, k :: 0 <= t < |chains| && 0 <= k < |wallets| ==> Dict.Get(wallets[k], chains[t]).Some?
  {
    forall t | 0 <= t < |chains| {
      CoversEach(wallets, chains[t]);
    }
  }

  /** The `chain` records' addresses, one per group, in group order. */
  function Addresses(wallets: seq<Group>, chain: string): (col: seq<string>)
    requires Covers(wallets, chain)
    ensures |col| == |wallets|
    decreases |wallets|
  {
    if wallets == [] then []
    else
      var n := |wallets| - 1;
      Addresses(wallets[..n], chain) + [Dict.Get(wallets[n], chain).value.address]
  }

  lemma {:induction false} AddressesAt(wallets: seq<Group>, chain: string, k: nat)
    requires Covers(wallets, chain) && k < |wallets|
    ensures Dict.Get(wallets[k], chain).Some?
    ensures Addresses(wallets, chain)[k] == Dict.Get(wallets[k], chain).value.address
    decreases |wallets|
  {
    var n := |wallets| - 1;
    if k < n {
      AddressesAt(wallets[..n], chain, k);
    }
  }

  /** The `chain` records' private keys, one per group, in group order. */
  function PrivateKeys(wallets: seq<Group>, chain: string): (col: seq<string>)
    requires Covers(wallets, chain)
    ensures |col| == |wallets|
    decreases |wallets|
  {
    if wallets == [] then []
    else
      var n := |wallets| - 1;
      PrivateKeys(wallets[..n], chain) + [Dict.Get(wallets[n], chain).value.privateKey]
  }

  lemma {:induction false} PrivateKeysAt(wallets: seq<Group>, chain: string, k: nat)
    requires Covers(wallets, chain) && k < |wallets|
    ensures Dict.Get(wallets[k], chain).Some?
    ensures PrivateKeys(wallets, chain)[k] == Dict.Get(wallets[k], chain).value.privateKey
    decreases |wallets|
  {
    var n := |wallets| - 1;
    if k < n {
      PrivateKeysAt(wallets[..n], chain, k);
    }
  }

  /** The truthy mnemonics of the `chain` records, in group order. */
  function Mnemonics(wallets: seq<Group>, chain: string): seq<string>
    requires Covers(wallets, chain)
    decreases |wallets|
  {
    if wallets == [] then []
    else
      var n := |wallets| - 1;
      var w := Dict.Get(wallets[n], chain).value;
      Mnemonics(wallets[..n], chain) + (if Truthy(w.mnemonic) then [w.mnemonic.value] else [])
  }

  /** `wallets.some((w) => w[chain].mnemonic)` */
  predicate AnyMnemonic(wallets: seq<Group>, chain: string)
    requires Covers(wallets, chain)
    decreases |wallets|
  {
    wallets != [] &&
      var n := |wallets| - 1;
      AnyMnemonic(wallets[..n], chain) || Truthy(Dict.Get(wallets[n], chain).value.mnemonic)
  }

  /** The mnemonic column lists exactly the truthy mnemonics: it is empty
      iff no group has one, and holds no empty string. */
  lemma {:induction false} MnemonicsTruthy(wallets: seq<Group>, chain: string)
    requires Covers(wallets, chain)
    ensures Mnemonics(wallets, chain) == [] <==> !AnyMnemonic(wallets, chain)
    ensures AnyMnemonic(wallets, chain) <==>
      exists k :: 0 <= k < |wallets| && Dict.Get(wallets[k], chain).Some? && Truthy(Dict.Get(wallets[k], chain).value.mnemonic)
    ensures forall x :: x in Mnemonics(wallets, chain) ==> x != ""
    decreases |wallets|
  {
    CoversEach(wallets, chain);
    if wallets != [] {
      var n := |wallets| - 1;
      MnemonicsTruthy(wallets[..n], chain);
      assert forall k :: 0 <= k < n ==> wallets[..n][k] == wallets[k];
    }
  }

  /** The lines of `wallets.txt`: per chain, in the given order, its
      heading and one address line per group. */
  function AddressLines(wallets: seq<Group>, chains: seq<string>): seq<string>
    requires CoversAll(wallets, chains)
    decreases |chains|
  {
    if chains == [] then []
    else
      var n := |chains| - 1;
      AddressLines(wallets, chains[..n]) + Heading(chains[n], "Addresses") + Addresses(wallets, chains[n])
  }

  /** The lines of `private_keys.txt`. */
  function KeyLines(wallets: seq<Group>, chains: seq<string>): seq<string>
    requires CoversAll(wallets, chains)
    decreases |chains|
  {
    if chains == [] then []
    else
      var n := |chains| - 1;
      KeyLines(wallets, chains[..n]) + Heading(chains[n], "Private Keys") + PrivateKeys(wallets, chains[n])
  }

  /** The lines of `mnemonic.txt`: a section only for the chains with a
      truthy mnemonic, listing only those mnemonics. */
  function MnemonicLines(wallets: seq<Group>, chains: seq<string>): seq<string>
    requires CoversAll(wallets, chains)
    decreases |chains|
  {
    if chains == [] then []
    else
      var n := |chains| - 1;
      var c := chains[n];
      MnemonicLines(wallets, chains[..n])
        + (if AnyMnemonic(wallets, c) then Heading(c, "Mnemonics") + Mnemonics(wallets, c) else [])
  }

  /** What `saveWalletsToFiles` writes: `wallets.txt`, `private_keys.txt`,
      and `mnemonic.txt` only when its content is not empty. */
  datatype WalletFiles = WalletFiles(addresses: string, privateKeys: string, mnemonics: Option<string>)

  /** `Unlines(lines) + line + "\n"`: appending one `${line}\n`. */
  lemma UnlinesSnoc(lines: seq<string>, line: string)
    ensures Unlines(lines + [line]) == Unlines(lines) + line + "\n"
  {
    UnlinesAppend(lines, [line]);
    assert [line][1..] == [];
  }

  /** The heading's three lines, as text. */
  lemma UnlinesHeading(chain: string, kind: string)
    ensures Unlines(Heading(chain, kind)) == HeadingText(chain, kind)
  {
    var banner := Banner(chain, kind);
    UnlinesCons("", [banner, ""]);
    UnlinesCons(banner, [""]);
    UnlinesCons("", []);
    assert [""] + [banner, ""] == Heading(chain, kind);
    HeadingLines(banner);
  }

  lemma UnlinesCons(line: string, rest: seq<string>)
    ensures Unlines([line] + rest) == line + "\n" + Unlines(rest)
  {
    assert ([line] + rest)[1..] == rest;
  }

  lemma HeadingLines(banner: string)
    ensures "" + "\n" + (banner + "\n" + ("" + "\n" + "")) == "\n" + banner + "\n\n"
  {
  }

  /** The text of one section: the heading's three lines, then the
      column, appended to what came before. */
  lemma SectionText(prev: seq<string>, chain: string, kind: string, col: seq<string>)
    ensures Unlines(prev + Heading(chain, kind) + col) == Unlines(prev) + SectionOf(chain, kind, col)
  {
    UnlinesAppend(prev, Heading(chain, kind));
    UnlinesAppend(prev + Heading(chain, kind), col);
    UnlinesHeading(chain, kind);
    AppendTwice(Unlines(prev), HeadingText(chain, kind), Unlines(col));
  }

  lemma UnlinesEmpty(lines: seq<string>)
    ensures Unlines(lines) == [] <==> lines == []
  {
    if lines != [] {
      assert |Unlines(lines)| >= 1;
    }
  }

  /** `wallets.forEach` appending `${walletGroup[chain].address}\n`: `None`
      when some group has no `chain` record. */
  method AppendAddresses(content: string, wallets: seq<Group>, chain: string) returns (r: Option<string>)
    ensures r.Some? <==> Covers(wallets, chain)
    ensures r.Some? ==> r.value == content + Unlines(Addresses(wallets, chain))
  {
    var text := content;
    var k := 0;
    while k < |wallets|
      invariant k <= |wallets|
      invariant Covers(wallets[..k], chain)
      invariant text == content + Unlines(Addresses(wallets[..k], chain))
    {
      var wallet := Dict.Get(wallets[k], chain);
      if wallet.None? {
        CoversEach(wallets, chain);
        return None;
      }
      assert wallets[..k + 1][..k] == wallets[..k];
      UnlinesSnoc(Addresses(wallets[..k], chain), wallet.value.address);
      text := text + wallet.value.address + "\n";
      k := k + 1;
    }
    assert wallets[..k] == wallets;
    return Some(text);
  }

  /** `wallets.forEach` appending `${walletGroup[chain].privateKey}\n`. */
  method AppendPrivateKeys(content: string, wallets: seq<Group>, chain: string) returns (r: string)
    requires Covers(wallets, chain)
    ensures r == content + Unlines(PrivateKeys(wallets, chain))
  {
    r := content;
    var k := 0;
    CoversEach(wallets, chain);
    while k < |wallets|
      invariant k <= |wallets|
      invariant Covers(wallets[..k], chain)
      invariant r == content + Unlines(PrivateKeys(wallets[..k], chain))
    {
      var wallet := Dict.Get(wallets[k], chain).value;
      assert wallets[..k + 1][..k] == wallets[..k];
      UnlinesSnoc(PrivateKeys(wallets[..k], chain), wallet.privateKey);
      r := r + wallet.privateKey + "\n";
      k := k + 1;
    }
    assert wallets[..k] == wallets;
  }

  /** `wallets.forEach` appending `${wallet.mnemonic}\n` for the records
      whose mnemonic is truthy. */
  method AppendMnemonics(content: string, wallets: seq<Group>, chain: string) returns (r: string)
    requires Covers(wallets, chain)
    ensures r == content + Unlines(Mnemonics(wallets, chain))
  {
    r := content;
    var k := 0;
    CoversEach(wallets, chain);
    while k < |wallets|
      invariant k <= |wallets|
      invariant Covers(wallets[..k], chain)
      invariant r == content + Unlines(Mnemonics(wallets[..k], chain))
    {
      var wallet := Dict.Get(wallets[k], chain).value;
      assert wallets[..k + 1][..k] == wallets[..k];
      assert Covers(wallets[..k + 1], chain);
      if Truthy(wallet.mnemonic) {
        assert Mnemonics(wallets[..k + 1], chain) == Mnemonics(wallets[..k], chain) + [wallet.mnemonic.value];
        UnlinesSnoc(Mnemonics(wallets[..k], chain), wallet.mnemonic.value);
        r := r + wallet.mnemonic.value + "\n";
      } else {
        assert Mnemonics(wallets[..k + 1], chain) == Mnemonics(wallets[..k], chain);
      }
      k := k + 1;
    }
    assert wallets[..k] == wallets;
  }

  /** The text one chain's section adds to a file. */
  function SectionOf(chain: string, kind: string, col: seq<string>): string {
    HeadingText(chain, kind) + Unlines(col)
  }

  function HeadingText(chain: string, kind: string): string {
    "\n" + Banner(chain, kind) + "\n\n"
  }

  /** The body of `chains.forEach((chain) => …)`: the chain's sections
      appended to the three contents, `None` when a group has no record
      for `chain`. */
  method AppendChain(addresses: string, keys: string, mnemonics: string, wallets: seq<Group>, chain: string)
    returns (r: Option<(string, string, string)>)
    ensures r.Some? <==> Covers(wallets, chain)
    ensures r.Some? ==> r.value == (
      addresses + SectionOf(chain, "Addresses", Addresses(wallets, chain)),
      keys + SectionOf(chain, "Private Keys", PrivateKeys(wallets, chain)),
      mnemonics + (if AnyMnemonic(wallets, chain) then SectionOf(chain, "Mnemonics", Mnemonics(wallets, chain)) else ""))
  {
    var added := AppendAddresses(addresses + HeadingText(chain, "Addresses"), wallets, chain);
    if added.None? {
      return None;
    }
    assert added.value == addresses + SectionOf(chain, "Addresses", Addresses(wallets, chain));
    var keysAfter := AppendPrivateKeys(keys + HeadingText(chain, "Private Keys"), wallets, chain);
    assert keysAfter == keys + SectionOf(chain, "Private Keys", PrivateKeys(wallets, chain));
    var mnemonicsAfter := mnemonics;
    if AnyMnemonic(wallets, chain) {
      mnemonicsAfter := AppendMnemonics(mnemonics + HeadingText(chain, "Mnemonics"), wallets, chain);
      assert mnemonicsAfter == mnemonics + SectionOf(chain, "Mnemonics", Mnemonics(wallets, chain));
    } else {
      assert mnemonics + "" == mnemonics;
    }
    return Some((added.value, keysAfter, mnemonicsAfter));
  }

  /** The texts grow by the last chain's sections. */
  lemma ChainStep(wallets: seq<Group>, chains: seq<string>)
    requires chains != [] && CoversAll(wallets, chains)
    ensures var n := |chains| - 1;
            var chain := chains[n];
            && CoversAll(wallets, chains[..n])
            && Unlines(AddressLines(wallets, chains)) == Unlines(AddressLines(wallets, chains[..n])) + SectionOf(chain, "Addresses", Addresses(wallets, chain))
            && Unlines(KeyLines(wallets, chains)) == Unlines(KeyLines(wallets, chains[..n])) + SectionOf(chain, "Private Keys", PrivateKeys(wallets, chain))
            && Unlines(MnemonicLines(wallets, chains)) == Unlines(MnemonicLines(wallets, chains[..n]))
                 + (if AnyMnemonic(wallets, chain) then SectionOf(chain, "Mnemonics", Mnemonics(wallets, chain)) else "")
  {
    var n := |chains| - 1;
    var chain := chains[n];
    var before := chains[..n];
    assert CoversAll(wallets, before);
    assert AddressLines(wallets, chains) == AddressLines(wallets, before) + Heading(chain, "Addresses") + Addresses(wallets, chain);
    SectionText(AddressLines(wallets, before), chain, "Addresses", Addresses(wallets, chain));
    assert KeyLines(wallets, chains) == KeyLines(wallets, before) + Heading(chain, "Private Keys") + PrivateKeys(wallets, chain);
    SectionText(KeyLines(wallets, before), chain, "Private Keys", PrivateKeys(wallets, chain));
    MnemonicStep(wallets, chains);
  }

  lemma MnemonicStep(wallets: seq<Group>, chains: seq<string>)
    requires chains != [] && CoversAll(wallets, chains)
    ensures var n := |chains| - 1;
            var chain := chains[n];
            && CoversAll(wallets, chains[..n])
            && Unlines(MnemonicLines(wallets, chains)) == Unlines(MnemonicLines(wallets, chains[..n]))
                 + (if AnyMnemonic(wallets, chain) then SectionOf(chain, "Mnemonics", Mnemonics(wallets, chain)) else "")
  {
    var n := |chains| - 1;
    var chain := chains[n];
    var before := chains[..n];
    assert CoversAll(wallets, before);
    if AnyMnemonic(wallets, chain) {
      assert MnemonicLines(wallets, chains) == MnemonicLines(wallets, before) + Heading(chain, "Mnemonics") + Mnemonics(wallets, chain);
      SectionText(MnemonicLines(wallets, before), chain, "Mnemonics", Mnemonics(wallets, chain));
    } else {
      assert MnemonicLines(wallets, chains) == MnemonicLines(wallets, before);
      assert Unlines(MnemonicLines(wallets, before)) + "" == Unlines(MnemonicLines(wallets, before));
    }
  }

  /** One pass of the `chains.forEach` in `saveWalletsToFiles`. */
  lemma SaveStep(wallets: seq<Group>, chains: seq<string>, t: nat, a: string, k: string, m: string,
                 next: (string, string, string))
    requires t < |chains| && CoversAll(wallets, chains[..t]) && Covers(wallets, chains[t])
    requires a == Unlines(AddressLines(wallets, chains[..t]))
    requires k == Unlines(KeyLines(wallets, chains[..t]))
    requires m == Unlines(MnemonicLines(wallets, chains[..t]))
    requires next == (
      a + SectionOf(chains[t], "Addresses", Addresses(wallets, chains[t])),
      k + SectionOf(chains[t], "Private Keys", PrivateKeys(wallets, chains[t])),
      m + (if AnyMnemonic(wallets, chains[t]) then SectionOf(chains[t], "Mnemonics", Mnemonics(wallets, chains[t])) else ""))
    ensures CoversAll(wallets, chains[..t + 1])
    ensures next.0 == Unlines(AddressLines(wallets, chains[..t + 1]))
    ensures next.1 == Unlines(KeyLines(wallets, chains[..t + 1]))
    ensures next.2 == Unlines(MnemonicLines(wallets, chains[..t + 1]))
  {
    var upto := chains[..t + 1];
    assert upto[..t] == chains[..t] && upto[t] == chains[t];
    assert CoversAll(wallets, upto);
    ChainStep(wallets, upto);
  }

  /** The content of `saveWalletsToFiles(wallets, chains)`: `None` when a
      group has no record under one of the tags as given (the property
      read throws, the `catch` logs it and no file is written). */
  method SaveWalletsToFiles(wallets: seq<Group>, chains: seq<string>) returns (r: Option<WalletFiles>)
    ensures r.Some? <==> CoversAll(wallets, chains)
    ensures r.Some? ==> r.value == WalletFiles(
      Unlines(AddressLines(wallets, chains)),
      Unlines(KeyLines(wallets, chains)),
      if MnemonicLines(wallets, chains) == [] then None else Some(Unlines(MnemonicLines(wallets, chains))))
  {
    var addressContent := "";
    var privateKeyContent := "";
    var mnemonicContent := "";
    var t := 0;
    while t < |chains|
      invariant t <= |chains|
      invariant CoversAll(wallets, chains[..t])
      invariant addressContent == Unlines(AddressLines(wallets, chains[..t]))
      invariant privateKeyContent == Unlines(KeyLines(wallets, chains[..t]))
      invariant mnemonicContent == Unlines(MnemonicLines(wallets, chains[..t]))
    {
      var next := AppendChain(addressContent, privateKeyContent, mnemonicContent, wallets, chains[t]);
      if next.None? {
        return None;
      }
      SaveStep(wallets, chains, t, addressContent, privateKeyContent, mnemonicContent, next.value);
      addressContent, privateKeyContent, mnemonicContent := next.value.0, next.value.1, next.value.2;
      t := t + 1;
    }
    assert chains[..t] == chains;
    UnlinesEmpty(MnemonicLines(wallets, chains));
    r := Some(WalletFiles(addressContent, privateKeyContent, if mnemonicContent == "" then None else Some(mnemonicContent)));
  }

  lemma {:induction false} AddressLinesLength(wallets: seq<Group>, chains: seq<string>)
    requires CoversAll(wallets, chains)
    ensures |AddressLines(wallets, chains)| == |chains| * (3 + |wallets|)
    decreases |chains|
  {
    if chains != [] {
      var n := |chains| - 1;
      assert CoversAll(wallets, chains[..n]);
      AddressLinesLength(wallets, chains[..n]);
      var size := 3 + |wallets|;
      assert |AddressLines(wallets, chains)| == n * size + size;
      assert n * size + size == |chains| * size;
    }
  }

  lemma CoversAllSplit(wallets: seq<Group>, a: seq<string>, b: seq<string>)
    requires CoversAll(wallets, a + b)
    ensures CoversAll(wallets, a) && CoversAll(wallets, b)
  {
    assert forall t :: 0 <= t < |a| ==> (a + b)[t] == a[t];
    assert forall t :: 0 <= t < |b| ==> (a + b)[|a| + t] == b[t];
  }

  /** The last chain's section closes `wallets.txt`. */
  lemma AddressLinesLast(wallets: seq<Group>, chains: seq<string>)
    requires chains != [] && CoversAll(wallets, chains)
    ensures CoversAll(wallets, chains[..|chains| - 1])
    ensures var n := |chains| - 1;
            AddressLines(wallets, chains) ==
              AddressLines(wallets, chains[..n]) + Heading(chains[n], "Addresses") + Addresses(wallets, chains[n])
  {
    var n := |chains| - 1;
    assert CoversAll(wallets, chains[..n]);
  }

  lemma {:induction false} AddressLinesAppend(wallets: seq<Group>, a: seq<string>, b: seq<string>)
    requires CoversAll(wallets, a + b)
    ensures CoversAll(wallets, a) && CoversAll(wallets, b)
    ensures AddressLines(wallets, a + b) == AddressLines(wallets, a) + AddressLines(wallets, b)
    decreases |b|
  {
    CoversAllSplit(wallets, a, b);
    if b == [] {
      assert a + b == a;
    } else {
      var n := |b| - 1;
      var ab := a + b;
      assert ab[..|a| + n] == a + b[..n] && ab[|a| + n] == b[n];
      AddressLinesLast(wallets, ab);
      AddressLinesLast(wallets, b);
      AddressLinesAppend(wallets, a, b[..n]);
      var x, y := AddressLines(wallets, a), AddressLines(wallets, b[..n]);
      var h, col := Heading(b[n], "Addresses"), Addresses(wallets, b[n]);
      AppendTwice(x, y, h);
      AppendTwice(x, y + h, col);
    }
  }

  /** `wallets.txt` is, for the `t`-th chain, the sections of the chains
      before it (`t` sections of `3 + n` lines, `n` the number of groups),
      then its heading and the address of its record in each group, in
      group order, then the sections of the chains after it. */
  lemma AddressSection(wallets: seq<Group>, chains: seq<string>, t: nat)
    requires CoversAll(wallets, chains) && t < |chains|
    ensures CoversAll(wallets, chains[..t])
    ensures |AddressLines(wallets, chains[..t])| == t * (3 + |wallets|)
    ensures AddressLines(wallets, chains) ==
      AddressLines(wallets, chains[..t]) + Heading(chains[t], "Addresses") + Addresses(wallets, chains[t])
        + AddressLines(wallets, chains[t + 1..])
  {
    var before, after := chains[..t], chains[t + 1..];
    assert chains == before + ([chains[t]] + after);
    AddressLinesAppend(wallets, before, [chains[t]] + after);
    AddressLinesAppend(wallets, [chains[t]], after);
    AddressLinesLast(wallets, [chains[t]]);
    assert [chains[t]][..0] == [];
    var x, h, col := AddressLines(wallets, before), Heading(chains[t], "Addresses"), Addresses(wallets, chains[t]);
    assert [] + h + col == h + col;
    AppendTwice(x, h, col);
    AppendTwice(x, h + col, AddressLines(wallets, after));
    AddressLinesLength(wallets, before);
  }

  /** `mnemonic.txt` is written exactly when some chain has some group
      whose record carries a truthy mnemonic. */
  lemma {:induction false} MnemonicFileWritten(wallets: seq<Group>, chains: seq<string>)
    requires CoversAll(wallets, chains)
    ensures MnemonicLines(wallets, chains) != [] <==> exists t :: 0 <= t < |chains| && AnyMnemonic(wallets, chains[t])
    decreases |chains|
  {
    if chains != [] {
      var n := |chains| - 1;
      assert CoversAll(wallets, chains[..n]);
      MnemonicFileWritten(wallets, chains[..n]);
      assert forall t :: 0 <= t < n ==> chains[..n][t] == chains[t];
    }
  }
}
