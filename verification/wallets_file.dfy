/** test/validate-wallets.js: reading back the `wallets.txt` that
    `saveWalletsToFiles` writes, validating its addresses chain by chain,
    the report it saves, and its command line. */
module WalletsFile {
  import opened Wrappers
  import opened Text
  import Dict
  import Generator
  import Validator
  import Report
  import CommandLine

  // ---------------------------------------------------------------------
  // the header lines

  /** The tags of the five header patterns, in the order they are tried. */
  const HeaderTags: seq<string> := ["BTC", "ETH", "SOL", "SUI", "BNB"]

  /** `s` begins with `p`, ASCII letters compared without case (what the
      `i` flag does for these all-ASCII patterns). */
  predicate StartsWithIgnoringCase(s: string, p: string) {
    |p| <= |s| && ToUpper(s[..|p|]) == ToUpper(p)
  }

  /** The pattern `={15}\s*TAG\s*Addresses\s*={15}` matched at the start
      of `s`. Each `\s*` is followed by a character that is not white
      space, so it must take the whole run of white space there. */
  predicate HeaderHere(s: string, tag: string) {
    && StartsWith(s, Generator.Rule)
    && var a := TrimStart(s[|Generator.Rule|..]);
    && StartsWithIgnoringCase(a, tag)
    && var b := TrimStart(a[|tag|..]);
    && StartsWithIgnoringCase(b, "Addresses")
    && StartsWith(TrimStart(b[|"Addresses"|..]), Generator.Rule)
  }

  /** `regex.test(s)`: the pattern matches somewhere in `s`. */
  predicate HeaderIn(s: string, tag: string)
    decreases |s|
  {
    HeaderHere(s, tag) || (s != [] && HeaderIn(s[1..], tag))
  }

  /** The chain of the first header pattern the line matches. */
  function Recognize(line: string): (r: Option<string>)
    ensures r.Some? ==> r.value in HeaderTags && HeaderIn(line, r.value)
    ensures r.None? <==> !HeaderIn(line, "BTC") && !HeaderIn(line, "ETH") && !HeaderIn(line, "SOL")
                         && !HeaderIn(line, "SUI") && !HeaderIn(line, "BNB")
  {
    if HeaderIn(line, "BTC") then Some("BTC")
    else if HeaderIn(line, "ETH") then Some("ETH")
    else if HeaderIn(line, "SOL") then Some("SOL")
    else if HeaderIn(line, "SUI") then Some("SUI")
    else if HeaderIn(line, "BNB") then Some("BNB")
    else None
  }

  /** A header match needs room for both rules, the tag and `Addresses`. */
  lemma HeaderLength(s: string, tag: string)
    requires HeaderHere(s, tag)
    ensures |s| >= 2 * |Generator.Rule| + |tag| + |"Addresses"|
  {
  }

  /** A string too short for a header matches nowhere in it. */
  lemma {:induction false} ShortNoHeader(s: string, tag: string)
    requires |s| < 2 * |Generator.Rule| + |tag| + |"Addresses"|
    ensures !HeaderIn(s, tag)
    decreases |s|
  {
    if HeaderHere(s, tag) {
      HeaderLength(s, tag);
    }
    if s != [] {
      ShortNoHeader(s[1..], tag);
    }
  }

  lemma RuleChars()
    ensures |Generator.Rule| == 15
    ensures forall j :: 0 <= j < 15 ==> Generator.Rule[j] == '='
  {
  }

  /** A string whose 16th character is not `=` has no rule starting at
      positions 1 to 15. */
  lemma NoRuleAt(s: string, i: nat)
    requires 1 <= i <= 15 && i <= |s| && (|s| > 15 ==> s[15] != '=')
    ensures !StartsWith(s[i..], Generator.Rule)
  {
    RuleChars();
    if |s| - i >= 15 {
      assert s[i..][15 - i] == s[15];
    }
  }

  /** When no match starts at positions 1 to 3 and the rest is too short,
      only a match at the start counts. */
  lemma OnlyAtStart(s: string, tag: string)
    requires |s| >= 4
    requires !HeaderHere(s[1..], tag) && !HeaderHere(s[2..], tag) && !HeaderHere(s[3..], tag)
    requires !HeaderIn(s[4..], tag)
    ensures HeaderIn(s, tag) <==> HeaderHere(s, tag)
  {
    assert s[1..][1..] == s[2..] && s[2..][1..] == s[3..] && s[3..][1..] == s[4..];
    assert HeaderIn(s[3..], tag) == (HeaderHere(s[3..], tag) || HeaderIn(s[4..], tag));
    assert HeaderIn(s[2..], tag) == (HeaderHere(s[2..], tag) || HeaderIn(s[3..], tag));
    assert HeaderIn(s[1..], tag) == (HeaderHere(s[1..], tag) || HeaderIn(s[2..], tag));
  }

  /** One leading space is trimmed, up to a character that is not white
      space. */
  lemma TrimOneSpace(y: string)
    requires y == [] || !IsSpace(y[0])
    ensures TrimStart(" " + y) == y
  {
    assert (" " + y)[1..] == y;
  }

  /** The banner of `chain`, as the pieces the pattern reads. */
  lemma BannerPieces(chain: string)
    ensures Generator.Banner(chain, "Addresses")
      == Generator.Rule + (" " + (chain + (" " + ("Addresses" + (" " + Generator.Rule)))))
  {
  }

  /** At its start, the banner of `chain` matches the pattern of `tag`
      exactly when the two agree up to case. */
  lemma BannerHere(chain: string, tag: string)
    requires |chain| == |tag| && chain != [] && !IsSpace(chain[0])
    ensures HeaderHere(Generator.Banner(chain, "Addresses"), tag) <==> ToUpper(chain) == ToUpper(tag)
  {
    var rule := Generator.Rule;
    RuleChars();
    var d := " " + rule;
    var c := "Addresses" + d;
    var b := " " + c;
    var a := chain + b;
    var s := rule + (" " + a);
    BannerPieces(chain);
    assert s[|rule|..] == " " + a;
    TrimOneSpace(a);
    assert a[..|tag|] == chain && a[|tag|..] == b;
    TrimOneSpace(c);
    assert c[..9] == "Addresses" && c[9..] == d;
    TrimOneSpace(rule);
    assert StartsWith(s, rule);
    assert StartsWithIgnoringCase(c, "Addresses");
  }

  /** The banner `saveWalletsToFiles` writes for a chain of three
      characters, the first not white space, matches the pattern of `tag`
      exactly when the two agree up to case. */
  lemma BannerMatches(chain: string, tag: string)
    requires |chain| == 3 && |tag| == 3 && !IsSpace(chain[0])
    ensures HeaderIn(Generator.Banner(chain, "Addresses"), tag) <==> ToUpper(chain) == ToUpper(tag)
  {
    var s := Generator.Banner(chain, "Addresses");
    BannerPieces(chain);
    RuleChars();
    assert |s| == 45 && s[15] == ' ';
    NoRuleAt(s, 1);
    NoRuleAt(s, 2);
    NoRuleAt(s, 3);
    ShortNoHeader(s[4..], tag);
    OnlyAtStart(s, tag);
    BannerHere(chain, tag);
  }

  /** Each of the five banners is recognized as its own chain. */
  lemma BannerRecognized(chain: string)
    requires chain in HeaderTags
    ensures Recognize(Generator.Banner(chain, "Addresses")) == Some(chain)
  {
    BannerAgainstTags(chain);
    Validator.UpperFixed(chain);
  }

  /** A TON banner is not a header line: none of the five patterns
      matches it. */
  lemma TonBannerNotRecognized(chain: string)
    requires chain == "TON"
    ensures Recognize(Generator.Banner(chain, "Addresses")).None?
  {
    BannerAgainstTags(chain);
    Validator.UpperFixed(chain);
  }

  /** The banner of a three-character chain against the five patterns. */
  lemma BannerAgainstTags(chain: string)
    requires |chain| == 3 && !IsSpace(chain[0])
    ensures HeaderIn(Generator.Banner(chain, "Addresses"), "BTC") <==> ToUpper(chain) == "BTC"
    ensures HeaderIn(Generator.Banner(chain, "Addresses"), "ETH") <==> ToUpper(chain) == "ETH"
    ensures HeaderIn(Generator.Banner(chain, "Addresses"), "SOL") <==> ToUpper(chain) == "SOL"
    ensures HeaderIn(Generator.Banner(chain, "Addresses"), "SUI") <==> ToUpper(chain) == "SUI"
    ensures HeaderIn(Generator.Banner(chain, "Addresses"), "BNB") <==> ToUpper(chain) == "BNB"
  {
    var tags := HeaderTags;
    forall t | 0 <= t < |tags|
      ensures HeaderIn(Generator.Banner(chain, "Addresses"), tags[t]) <==> ToUpper(chain) == tags[t]
    {
      BannerMatches(chain, tags[t]);
      Validator.UpperFixed(tags[t]);
    }
    assert tags[0] == "BTC" && tags[1] == "ETH" && tags[2] == "SOL" && tags[3] == "SUI" && tags[4] == "BNB";
  }

  // ---------------------------------------------------------------------
  // parseWalletsFile

  /** The state of the `for await` loop: the chain of the last header
      line seen, and the `(chain, address)` pairs stored so far, in
      order. */
  datatype ParseState = ParseState(currentChain: Option<string>, found: seq<(string, string)>)

  const Start: ParseState := ParseState(None, [])

  /** One line: skipped when blank, a header switches the current chain,
      any other line is stored under the current chain if there is one. */
  function ParseLine(st: ParseState, line: string): ParseState {
    var trimmed := Trim(line);
    if trimmed == "" then st
    else match Recognize(trimmed)
      case Some(chain) => st.(currentChain := Some(chain))
      case None =>
        if st.currentChain.Some? then st.(found := st.found + [(st.currentChain.value, trimmed)]) else st
  }

  function Run(st: ParseState, lines: seq<string>): ParseState
    decreases |lines|
  {
    if lines == [] then st else ParseLine(Run(st, lines[..|lines| - 1]), lines[|lines| - 1])
  }

  /** The object `parseWalletsFile` resolves to for the lines readline
      emits: the stored pairs grouped by chain, chains in the order first
      stored. */
  function Parsed(lines: seq<string>): Dict.Entries<seq<string>> {
    Dict.Collect(Run(Start, lines).found)
  }

  method ParseWalletsFile(lines: seq<string>) returns (addressesByChain: Dict.Entries<seq<string>>)
    ensures addressesByChain == Parsed(lines)
  {
    addressesByChain := [];
    var currentChain: Option<string> := None;
    ghost var found: seq<(string, string)> := [];
    var i := 0;
    while i < |lines|
      invariant i <= |lines|
      invariant Run(Start, lines[..i]) == ParseState(currentChain, found)
      invariant addressesByChain == Dict.Collect(found)
    {
      RunStep(lines, i);
      var trimmedLine := Trim(lines[i]);
      if trimmedLine != "" {
        var header := Recognize(trimmedLine);
        if header.Some? {
          currentChain := header;
        } else if currentChain.Some? {
          Dict.CollectSnoc(found, currentChain.value, trimmedLine);
          addressesByChain := Dict.Push(addressesByChain, currentChain.value, trimmedLine);
          found := found + [(currentChain.value, trimmedLine)];
        }
      }
      i := i + 1;
    }
    assert lines[..i] == lines;
  }

  lemma RunStep(lines: seq<string>, i: nat)
    requires i < |lines|
    ensures Run(Start, lines[..i + 1]) == ParseLine(Run(Start, lines[..i]), lines[i])
  {
    assert lines[..i + 1][..i] == lines[..i];
  }

  lemma {:induction false} RunAppend(st: ParseState, a: seq<string>, b: seq<string>)
    ensures Run(st, a + b) == Run(Run(st, a), b)
    decreases |b|
  {
    if b == [] {
      assert a + b == a;
    } else {
      var n := |b| - 1;
      assert (a + b)[..|a + b| - 1] == a + b[..n];
      assert (a + b)[|a + b| - 1] == b[n];
      RunAppend(st, a, b[..n]);
    }
  }

  /** What the parser stores as an address: a non-empty line without
      white space at its ends that none of the header patterns matches. */
  predicate Stored(a: string) {
    a != "" && NoEdgeSpace(a) && Recognize(a).None?
  }

  predicate WellFormed(st: ParseState) {
    && (st.currentChain.Some? ==> st.currentChain.value in HeaderTags)
    && forall k :: 0 <= k < |st.found| ==> st.found[k].0 in HeaderTags && Stored(st.found[k].1)
  }

  lemma ParseLineWellFormed(st: ParseState, line: string)
    requires WellFormed(st)
    ensures WellFormed(ParseLine(st, line))
  {
    var trimmed := Trim(line);
    var next := ParseLine(st, line);
    if trimmed == "" {
      assert next == st;
    } else if Recognize(trimmed).Some? {
      assert next == st.(currentChain := Recognize(trimmed));
    } else if st.currentChain.Some? {
      var found := st.found + [(st.currentChain.value, trimmed)];
      assert next == st.(found := found);
      assert Stored(trimmed);
      forall k | 0 <= k < |found|
        ensures found[k].0 in HeaderTags && Stored(found[k].1)
      {
        if k < |st.found| {
          assert found[k] == st.found[k];
        }
      }
    } else {
      assert next == st;
    }
  }

  lemma {:induction false} RunWellFormed(st: ParseState, lines: seq<string>)
    requires WellFormed(st)
    ensures WellFormed(Run(st, lines))
    decreases |lines|
  {
    if lines != [] {
      var n := |lines| - 1;
      RunWellFormed(st, lines[..n]);
      ParseLineWellFormed(Run(st, lines[..n]), lines[n]);
    }
  }

  /** Every chain `parseWalletsFile` returns is one of the five header
      tags, and every address filed under it is a non-empty trimmed line
      that is not itself a header line. */
  lemma ParsedWellFormed(lines: seq<string>, chain: string)
    requires Dict.Get(Parsed(lines), chain).Some?
    ensures chain in HeaderTags
    ensures Dict.Get(Parsed(lines), chain).value != []
    ensures forall a :: a in Dict.Get(Parsed(lines), chain).value ==> Stored(a)
  {
    var found := Run(Start, lines).found;
    RunWellFormed(Start, lines);
    Dict.CollectGet(found, chain);
    var mine := Dict.Select(found, chain);
    Dict.SelectMember(found, chain, 0);
    forall j | 0 <= j < |mine|
      ensures Stored(mine[j])
    {
      Dict.SelectMember(found, chain, j);
    }
  }

  /** Lines none of whose trimmed forms is a header leave the initial
      state alone. */
  lemma {:induction false} NoHeaderNoChange(pre: seq<string>)
    requires forall k :: 0 <= k < |pre| ==> Recognize(Trim(pre[k])).None?
    ensures Run(Start, pre) == Start
    decreases |pre|
  {
    if pre != [] {
      NoHeaderNoChange(pre[..|pre| - 1]);
    }
  }

  /** Whatever comes before the first header line is ignored. */
  lemma LeadingLinesDropped(pre: seq<string>, rest: seq<string>)
    requires forall k :: 0 <= k < |pre| ==> Recognize(Trim(pre[k])).None?
    ensures Parsed(pre + rest) == Parsed(rest)
  {
    NoHeaderNoChange(pre);
    RunAppend(Start, pre, rest);
  }

  // ---------------------------------------------------------------------
  // reading back wallets.txt

  /** `addresses`, each paired with `chain`. */
  function Tagged(chain: string, addresses: seq<string>): (pairs: seq<(string, string)>)
    ensures |pairs| == |addresses|
    decreases |addresses|
  {
    if addresses == [] then []
    else
      var n := |addresses| - 1;
      Tagged(chain, addresses[..n]) + [(chain, addresses[n])]
  }

  lemma {:induction false} TaggedAppend(chain: string, a: seq<string>, b: seq<string>)
    ensures Tagged(chain, a + b) == Tagged(chain, a) + Tagged(chain, b)
    decreases |b|
  {
    if b == [] {
      assert a + b == a;
    } else {
      var n := |b| - 1;
      assert (a + b)[..|a + b| - 1] == a + b[..n];
      TaggedAppend(chain, a, b[..n]);
    }
  }

  /** The banner line is its own trimmed form. */
  lemma BannerTrimmed(chain: string)
    ensures Trim(Generator.Banner(chain, "Addresses")) == Generator.Banner(chain, "Addresses")
  {
    var b := Generator.Banner(chain, "Addresses");
    BannerPieces(chain);
    RuleChars();
    assert b[0] == '=' && b[|b| - 1] == '=';
  }

  lemma BannerNoBreak(chain: string)
    requires NoBreak(chain)
    ensures NoBreak(Generator.Banner(chain, "Addresses"))
  {
    BannerPieces(chain);
  }

  lemma RunThree(st: ParseState, lines: seq<string>)
    requires |lines| == 3
    ensures Run(st, lines) == ParseLine(ParseLine(ParseLine(st, lines[0]), lines[1]), lines[2])
  {
    var two := lines[..2];
    assert Run(st, lines) == ParseLine(Run(st, two), lines[2]);
    assert Run(st, two) == ParseLine(Run(st, two[..1]), lines[1]);
    assert Run(st, two[..1]) == ParseLine(Run(st, two[..1][..0]), lines[0]);
    assert two[..1][..0] == [];
  }

  /** A heading of one of the five chains makes it the current chain. */
  lemma RunHeading(st: ParseState, chain: string)
    requires chain in HeaderTags
    ensures Run(st, Generator.Heading(chain, "Addresses")) == st.(currentChain := Some(chain))
  {
    RunThree(st, Generator.Heading(chain, "Addresses"));
    BannerTrimmed(chain);
    BannerRecognized(chain);
  }

  /** Lines the parser stores as they are, all filed under the current
      chain. */
  lemma {:induction false} RunAddresses(st: ParseState, chain: string, addresses: seq<string>)
    requires st.currentChain == Some(chain)
    requires forall k :: 0 <= k < |addresses| ==> Stored(addresses[k])
    ensures Run(st, addresses) == st.(found := st.found + Tagged(chain, addresses))
  {
    AllStoredEach(addresses);
    RunAllStored(st, chain, addresses);
  }

  /** Every line is stored, as a recursive predicate. */
  predicate AllStored(lines: seq<string>)
    decreases |lines|
  {
    lines == [] || (AllStored(lines[..|lines| - 1]) && Stored(lines[|lines| - 1]))
  }

  lemma {:induction false} AllStoredEach(lines: seq<string>)
    requires forall k :: 0 <= k < |lines| ==> Stored(lines[k])
    ensures AllStored(lines)
    decreases |lines|
  {
    if lines != [] {
      var n := |lines| - 1;
      assert forall k :: 0 <= k < n ==> lines[..n][k] == lines[k];
      AllStoredEach(lines[..n]);
    }
  }

  lemma {:induction false} RunAllStored(st: ParseState, chain: string, addresses: seq<string>)
    requires st.currentChain == Some(chain)
    requires AllStored(addresses)
    ensures Run(st, addresses) == st.(found := st.found + Tagged(chain, addresses))
    decreases |addresses|
  {
    if addresses == [] {
      assert st.found + Tagged(chain, addresses) == st.found;
    } else {
      var n := |addresses| - 1;
      var prefix := addresses[..n];
      RunAllStored(st, chain, prefix);
      var mid := st.(found := st.found + Tagged(chain, prefix));
      RunLast(st, addresses);
      ParseStored(mid, addresses[n]);
      TaggedLast(st.found, chain, addresses);
    }
  }

  lemma TaggedLast(found: seq<(string, string)>, chain: string, addresses: seq<string>)
    requires addresses != []
    ensures var n := |addresses| - 1;
            found + Tagged(chain, addresses) == found + Tagged(chain, addresses[..n]) + [(chain, addresses[n])]
  {
    var n := |addresses| - 1;
    AppendTwice(found, Tagged(chain, addresses[..n]), [(chain, addresses[n])]);
  }

  lemma RunLast(st: ParseState, lines: seq<string>)
    requires lines != []
    ensures Run(st, lines) == ParseLine(Run(st, lines[..|lines| - 1]), lines[|lines| - 1])
  {
  }

  /** A stored line is filed under the current chain. */
  lemma ParseStored(st: ParseState, a: string)
    requires st.currentChain.Some? && Stored(a)
    ensures ParseLine(st, a) == st.(found := st.found + [(st.currentChain.value, a)])
  {
    assert Trim(a) == a;
  }

  /** What the round trip needs of the wallets: the chains are distinct
      header tags, there is at least one group, and every address is a
      non-empty single line without white space at its ends that is not
      itself a header line. */
  predicate Readable(wallets: seq<Generator.Group>, chains: seq<string>) {
    && Generator.CoversAll(wallets, chains)
    && |wallets| > 0
    && (forall t :: 0 <= t < |chains| ==> chains[t] in HeaderTags)
    && (forall s, t :: 0 <= s < t < |chains| ==> chains[s] != chains[t])
    && (forall t :: 0 <= t < |chains| ==> Writable(Generator.Addresses(wallets, chains[t])))
  }

  predicate Writable(addresses: seq<string>) {
    forall k :: 0 <= k < |addresses| ==> Stored(addresses[k]) && NoBreak(addresses[k])
  }

  lemma ReadablePrefix(wallets: seq<Generator.Group>, chains: seq<string>, n: nat)
    requires Readable(wallets, chains) && n <= |chains|
    ensures Readable(wallets, chains[..n])
  {
    assert forall t :: 0 <= t < n ==> chains[..n][t] == chains[t];
  }

  /** The pairs stored for `wallets.txt`: chain by chain, each chain's
      addresses under it. */
  function Filed(wallets: seq<Generator.Group>, chains: seq<string>): seq<(string, string)>
    requires Generator.CoversAll(wallets, chains)
    decreases |chains|
  {
    if chains == [] then []
    else
      var n := |chains| - 1;
      Filed(wallets, chains[..n]) + Tagged(chains[n], Generator.Addresses(wallets, chains[n]))
  }

  /** The chains in order, each with its records' addresses in group
      order. */
  function Columns(wallets: seq<Generator.Group>, chains: seq<string>): (d: Dict.Entries<seq<string>>)
    requires Generator.CoversAll(wallets, chains)
    ensures Dict.Keys(d) == chains
    decreases |chains|
  {
    if chains == [] then []
    else
      var n := |chains| - 1;
      var d := Columns(wallets, chains[..n]) + [(chains[n], Generator.Addresses(wallets, chains[n]))];
      Dict.KeysAppend(Columns(wallets, chains[..n]), chains[n], Generator.Addresses(wallets, chains[n]));
      assert chains[..n] + [chains[n]] == chains;
      d
  }

  lemma {:induction false} RunAddressLines(wallets: seq<Generator.Group>, chains: seq<string>)
    requires Readable(wallets, chains)
    ensures Run(Start, Generator.AddressLines(wallets, chains))
      == ParseState(if chains == [] then None else Some(chains[|chains| - 1]), Filed(wallets, chains))
    decreases |chains|
  {
    if chains != [] {
      var n := |chains| - 1;
      ReadablePrefix(wallets, chains, n);
      RunAddressLines(wallets, chains[..n]);
      var before := Generator.AddressLines(wallets, chains[..n]);
      var heading := Generator.Heading(chains[n], "Addresses");
      var column := Generator.Addresses(wallets, chains[n]);
      ReadableLast(wallets, chains);
      assert Generator.AddressLines(wallets, chains) == before + heading + column;
      AppendTwice(before, heading, column);
      RunAppend(Start, before, heading + column);
      RunSection(Run(Start, before), chains[n], column);
    }
  }

  /** One chain's section of `wallets.txt`: its heading makes it the
      current chain, and its addresses are stored under it. */
  lemma RunSection(st: ParseState, chain: string, column: seq<string>)
    requires chain in HeaderTags && AllStored(column)
    ensures Run(st, Generator.Heading(chain, "Addresses") + column)
      == st.(currentChain := Some(chain), found := st.found + Tagged(chain, column))
  {
    var heading := Generator.Heading(chain, "Addresses");
    RunAppend(st, heading, column);
    RunHeading(st, chain);
    RunAllStored(st.(currentChain := Some(chain)), chain, column);
  }

  lemma ReadableLast(wallets: seq<Generator.Group>, chains: seq<string>)
    requires Readable(wallets, chains) && chains != []
    ensures chains[|chains| - 1] in HeaderTags
    ensures AllStored(Generator.Addresses(wallets, chains[|chains| - 1]))
  {
    var column := Generator.Addresses(wallets, chains[|chains| - 1]);
    assert Writable(column);
    AllStoredEach(column);
  }

  /** Pushing a non-empty run of addresses under a chain not yet present
      appends that chain with exactly those addresses. */
  lemma {:induction false} CollectTagged(pairs: seq<(string, string)>, chain: string, addresses: seq<string>)
    requires chain !in Dict.Keys(Dict.Collect(pairs)) && addresses != []
    ensures Dict.Collect(pairs + Tagged(chain, addresses)) == Dict.Collect(pairs) + [(chain, addresses)]
    decreases |addresses|
  {
    var n := |addresses| - 1;
    var before := pairs + Tagged(chain, addresses[..n]);
    assert Tagged(chain, addresses) == Tagged(chain, addresses[..n]) + [(chain, addresses[n])];
    assert pairs + Tagged(chain, addresses) == before + [(chain, addresses[n])];
    assert (before + [(chain, addresses[n])])[..|before|] == before;
    if n == 0 {
      assert before == pairs;
      Dict.PushNew(Dict.Collect(pairs), chain, addresses[n]);
      assert [addresses[n]] == addresses;
    } else {
      CollectTagged(pairs, chain, addresses[..n]);
      Dict.PushLast(Dict.Collect(pairs), chain, addresses[..n], addresses[n]);
      assert addresses[..n] + [addresses[n]] == addresses;
    }
  }

  lemma {:induction false} CollectFiled(wallets: seq<Generator.Group>, chains: seq<string>)
    requires Readable(wallets, chains)
    ensures Dict.Collect(Filed(wallets, chains)) == Columns(wallets, chains)
    decreases |chains|
  {
    if chains != [] {
      var n := |chains| - 1;
      ReadablePrefix(wallets, chains, n);
      CollectFiled(wallets, chains[..n]);
      assert chains[n] !in chains[..n];
      assert |Generator.Addresses(wallets, chains[n])| == |wallets|;
      CollectTagged(Filed(wallets, chains[..n]), chains[n], Generator.Addresses(wallets, chains[n]));
    }
  }

  /** Every line of `wallets.txt` is a single line. */
  lemma {:induction false} AddressLinesNoBreak(wallets: seq<Generator.Group>, chains: seq<string>)
    requires Generator.CoversAll(wallets, chains)
    requires forall t :: 0 <= t < |chains| ==> NoBreak(chains[t]) && Writable(Generator.Addresses(wallets, chains[t]))
    ensures forall k :: 0 <= k < |Generator.AddressLines(wallets, chains)| ==> NoBreak(Generator.AddressLines(wallets, chains)[k])
    decreases |chains|
  {
    if chains != [] {
      var n := |chains| - 1;
      assert forall t :: 0 <= t < n ==> chains[..n][t] == chains[t];
      AddressLinesNoBreak(wallets, chains[..n]);
      BannerNoBreak(chains[n]);
      var lines := Generator.AddressLines(wallets, chains);
      var before := Generator.AddressLines(wallets, chains[..n]);
      var heading := Generator.Heading(chains[n], "Addresses");
      var column := Generator.Addresses(wallets, chains[n]);
      assert lines == before + heading + column;
      forall k | 0 <= k < |lines|
        ensures NoBreak(lines[k])
      {
        if k < |before| {
          assert lines[k] == before[k];
        } else if k < |before| + 3 {
          assert lines[k] == heading[k - |before|];
        } else {
          assert lines[k] == column[k - |before| - 3];
        }
      }
    }
  }

  lemma TagsNoBreak(chain: string)
    requires chain in HeaderTags
    ensures NoBreak(chain)
  {
  }

  /** Reading back `wallets.txt`: parsing the lines readline emits for
      the address file `saveWalletsToFiles` writes gives the chains in
      the order written, each with its records' addresses in group
      order. */
  lemma ReadBack(wallets: seq<Generator.Group>, chains: seq<string>)
    requires Readable(wallets, chains)
    ensures Parsed(Lines(Unlines(Generator.AddressLines(wallets, chains)))) == Columns(wallets, chains)
  {
    forall t | 0 <= t < |chains|
      ensures NoBreak(chains[t])
    {
      TagsNoBreak(chains[t]);
    }
    AddressLinesNoBreak(wallets, chains);
    LinesOfUnlines(Generator.AddressLines(wallets, chains));
    RunAddressLines(wallets, chains);
    CollectFiled(wallets, chains);
  }

  /** A heading whose banner is not a header line, after another chain's
      addresses: the banner is stored as an address of that chain. */
  lemma RunForeignHeading(st: ParseState, other: string)
    requires Recognize(Generator.Banner(other, "Addresses")).None? && st.currentChain.Some?
    ensures Run(st, Generator.Heading(other, "Addresses"))
      == st.(found := st.found + [(st.currentChain.value, Generator.Banner(other, "Addresses"))])
  {
    RunThree(st, Generator.Heading(other, "Addresses"));
    BannerTrimmed(other);
  }

  /** The run over `wallets.txt` with one chain then a chain whose banner
      is not a header line: all pairs are filed under the first chain. */
  lemma RunWithForeign(wallets: seq<Generator.Group>, chain: string, other: string)
    requires Recognize(Generator.Banner(other, "Addresses")).None?
    requires Readable(wallets, [chain])
    requires Generator.Covers(wallets, chain) && Generator.Covers(wallets, other)
    requires Writable(Generator.Addresses(wallets, other))
    ensures Generator.CoversAll(wallets, [chain, other])
    ensures Run(Start, Generator.AddressLines(wallets, [chain, other])).found
      == Tagged(chain, Generator.Addresses(wallets, chain) + [Generator.Banner(other, "Addresses")] + Generator.Addresses(wallets, other))
  {
    var before := Generator.AddressLines(wallets, [chain]);
    var heading := Generator.Heading(other, "Addresses");
    var mine := Generator.Addresses(wallets, chain);
    var column := Generator.Addresses(wallets, other);
    var banner := Generator.Banner(other, "Addresses");
    TwoSections(wallets, chain, other);
    var st := Run(Start, before);
    OneSection(wallets, chain);
    RunAppend(Start, before + heading, column);
    RunAppend(Start, before, heading);
    RunForeignHeading(st, other);
    var st2 := st.(found := st.found + [(chain, banner)]);
    RunAddresses(st2, chain, column);
    TaggedAppend(chain, mine, [banner]);
    TaggedAppend(chain, mine + [banner], column);
    assert Tagged(chain, [banner]) == [(chain, banner)];
  }

  /** The lines of a two-chain address file. */
  lemma TwoSections(wallets: seq<Generator.Group>, chain: string, other: string)
    requires Generator.Covers(wallets, chain) && Generator.Covers(wallets, other)
    ensures Generator.CoversAll(wallets, [chain]) && Generator.CoversAll(wallets, [chain, other])
    ensures Generator.AddressLines(wallets, [chain, other])
      == Generator.AddressLines(wallets, [chain]) + Generator.Heading(other, "Addresses") + Generator.Addresses(wallets, other)
  {
    var chains := [chain, other];
    assert chains[..1] == [chain];
    assert Generator.CoversAll(wallets, chains);
  }

  /** The run over a one-chain address file. */
  lemma OneSection(wallets: seq<Generator.Group>, chain: string)
    requires Readable(wallets, [chain])
    ensures Generator.Covers(wallets, chain)
    ensures Run(Start, Generator.AddressLines(wallets, [chain]))
      == ParseState(Some(chain), Tagged(chain, Generator.Addresses(wallets, chain)))
  {
    assert [chain][0] == chain;
    RunAddressLines(wallets, [chain]);
    assert [chain][..0] == [];
    assert Filed(wallets, [chain]) == [] + Tagged(chain, Generator.Addresses(wallets, chain));
  }

  /** A section whose banner is not a header line is not read back as its
      own chain: its banner line and its addresses are filed under the
      chain written before it. */
  lemma ForeignFiledUnderPrevious(wallets: seq<Generator.Group>, chain: string, other: string)
    requires Recognize(Generator.Banner(other, "Addresses")).None? && NoBreak(other)
    requires Readable(wallets, [chain])
    requires Generator.Covers(wallets, chain) && Generator.Covers(wallets, other)
    requires Writable(Generator.Addresses(wallets, other))
    ensures Generator.CoversAll(wallets, [chain, other])
    ensures Parsed(Lines(Unlines(Generator.AddressLines(wallets, [chain, other]))))
      == [(chain, Generator.Addresses(wallets, chain) + [Generator.Banner(other, "Addresses")] + Generator.Addresses(wallets, other))]
  {
    RunWithForeign(wallets, chain, other);
    var chains := [chain, other];
    assert Readable(wallets, [chain]);
    TagsNoBreak([chain][0]);
    forall t | 0 <= t < 2
      ensures NoBreak(chains[t]) && Writable(Generator.Addresses(wallets, chains[t]))
    {
      if t == 0 { assert chains[t] == [chain][0]; }
    }
    AddressLinesNoBreak(wallets, chains);
    LinesOfUnlines(Generator.AddressLines(wallets, chains));
    var all := Generator.Addresses(wallets, chain) + [Generator.Banner(other, "Addresses")] + Generator.Addresses(wallets, other);
    assert [] + Tagged(chain, all) == Tagged(chain, all);
    CollectTagged([], chain, all);
  }

  /** A TON section (`saveWalletsToFiles` writes one for `TON`) is not
      read back as TON: its banner and addresses are filed under the
      chain written before it. */
  lemma TonFiledUnderPrevious(wallets: seq<Generator.Group>, chain: string, ton: string)
    requires ton == "TON"
    requires Readable(wallets, [chain])
    requires Generator.Covers(wallets, chain) && Generator.Covers(wallets, ton)
    requires Writable(Generator.Addresses(wallets, ton))
    ensures Generator.CoversAll(wallets, [chain, ton])
    ensures Parsed(Lines(Unlines(Generator.AddressLines(wallets, [chain, ton]))))
      == [(chain, Generator.Addresses(wallets, chain) + [Generator.Banner(ton, "Addresses")] + Generator.Addresses(wallets, ton))]
  {
    TonBannerNotRecognized(ton);
    ForeignFiledUnderPrevious(wallets, chain, ton);
  }

  // ---------------------------------------------------------------------
  // validateWallets and saveValidationResults

  const WalletsTitle: string := "===== 钱包地址验证结果 ====="

  /** The network type a chain is checked against, and the one its block
      of the report names: the configured one, else `"mainnet"`. */
  const Fallback: string := "mainnet"

  /** `saveValidationResults`: the report text. */
  method SaveValidationResults(results: Dict.Entries<seq<Validator.Checked>>, networkTypes: Dict.Entries<string>, timestamp: string)
    returns (output: string)
    ensures output == Report.ChainsReport(WalletsTitle, timestamp, results, networkTypes, Fallback)
  {
    output := Report.WriteChainsReport(WalletsTitle, timestamp, results, networkTypes, Fallback);
  }

  /** `validateWallets`: every address checked in order, chain by chain,
      against the chain's configured network type or `"mainnet"`; one
      result per address; and the saved report. */
  method ValidateWallets(o: Validator.Oracles, addressesByChain: Dict.Entries<seq<string>>,
                         networkTypes: Dict.Entries<string>, timestamp: string)
    returns (validationResults: Dict.Entries<seq<Validator.Checked>>, totalAddresses: nat, totalValid: nat, report: string)
    ensures validationResults == Report.CheckGroups(o, addressesByChain, networkTypes, Fallback)
    ensures totalAddresses == Report.AddressCount(addressesByChain)
    ensures totalValid == Report.TotalValid(validationResults) && totalValid <= totalAddresses
    ensures report == Report.ChainsReport(WalletsTitle, timestamp, validationResults, networkTypes, Fallback)
  {
    validationResults, totalAddresses, totalValid := Report.ValidateByChain(o, addressesByChain, networkTypes, Fallback);
    Report.TotalIsAddressCount(o, addressesByChain, networkTypes, Fallback);
    report := SaveValidationResults(validationResults, networkTypes, timestamp);
  }

  /** A chain without a configured type is checked as `"mainnet"`, and
      its block of the report says so. */
  lemma UnconfiguredIsMainnet(o: Validator.Oracles, addressesByChain: Dict.Entries<seq<string>>,
                              networkTypes: Dict.Entries<string>, i: nat)
    requires i < |addressesByChain| && Dict.Get(networkTypes, addressesByChain[i].0).None?
    ensures Report.CheckGroups(o, addressesByChain, networkTypes, Fallback)[i]
      == (addressesByChain[i].0, Validator.CheckAll(o, addressesByChain[i].1, addressesByChain[i].0, "mainnet"))
    ensures Report.TypeOr(networkTypes, addressesByChain[i].0, Fallback) == "mainnet"
  {
    Report.CheckGroupsAt(o, addressesByChain, networkTypes, Fallback, i);
  }

  // ---------------------------------------------------------------------
  // parseCommandLine

  /** The `params` object: `networks` starts empty, the others absent. */
  datatype Params = Params(walletFile: Option<string>, output: Option<string>, networks: Dict.Entries<string>, help: bool)

  const NoParams: Params := Params(None, None, [], false)

  /** One turn of the loop at position `i`: the new `params` and the
      position of the next turn. Each `--network` adds its assignments to
      those already made. */
  function Step(args: seq<string>, i: nat, p: Params): (r: (Params, nat))
    requires i < |args|
    ensures i < r.1 <= |args|
    ensures r.1 == i + 2 <==> args[i] in ["--wallet-file", "--output", "--network"] && i + 1 < |args|
  {
    var arg := args[i];
    var hasValue := i + 1 < |args|;
    if arg == "--wallet-file" && hasValue then (p.(walletFile := Some(args[i + 1])), i + 2)
    else if arg == "--output" && hasValue then (p.(output := Some(args[i + 1])), i + 2)
    else if arg == "--network" && hasValue then
      (p.(networks := CommandLine.PutAll(p.networks, CommandLine.Assignments(Split(args[i + 1], ',')))), i + 2)
    else if arg == "--help" then (p.(help := true), i + 1)
    else (p, i + 1)
  }

  function Scan(args: seq<string>, i: nat, p: Params): Params
    requires i <= |args|
    decreases |args| - i
  {
    if i == |args| then p
    else
      var (q, next) := Step(args, i, p);
      Scan(args, next, q)
  }

  method ParseCommandLine(args: seq<string>) returns (params: Params)
    ensures params == Scan(args, 0, NoParams)
  {
    params := NoParams;
    var i := 0;
    while i < |args|
      invariant i <= |args|
      invariant Scan(args, i, params) == Scan(args, 0, NoParams)
    {
      if args[i] == "--wallet-file" && i + 1 < |args| {
        params := params.(walletFile := Some(args[i + 1]));
        i := i + 1;
      } else if args[i] == "--output" && i + 1 < |args| {
        params := params.(output := Some(args[i + 1]));
        i := i + 1;
      } else if args[i] == "--network" && i + 1 < |args| {
        var networks := CommandLine.ApplyNetworkSpec(params.networks, args[i + 1]);
        params := params.(networks := networks);
        i := i + 1;
      } else if args[i] == "--help" {
        params := params.(help := true);
      }
      i := i + 1;
    }
  }

  /** A chain given a network by one `--network` keeps one through any
      later flags: the assignments of all `--network` flags accumulate. */
  lemma {:induction false} NetworksAccumulate(args: seq<string>, i: nat, p: Params, chain: string)
    requires i <= |args| && chain in Dict.Keys(p.networks)
    ensures chain in Dict.Keys(Scan(args, i, p).networks)
    decreases |args| - i
  {
    if i < |args| {
      var (q, next) := Step(args, i, p);
      if args[i] == "--network" && i + 1 < |args| {
        CommandLine.PutAllGet(p.networks, CommandLine.Assignments(Split(args[i + 1], ',')), chain);
      }
      NetworksAccumulate(args, next, q, chain);
    }
  }

  /** The assignments of every `--network` flag the loop reads from
      position `i` on, in argument order. */
  function NetworkAssignments(args: seq<string>, i: nat): seq<(string, string)>
    requires i <= |args|
    decreases |args| - i
  {
    if i == |args| then []
    else
      var here := if args[i] == "--network" && i + 1 < |args| then CommandLine.Assignments(Split(args[i + 1], ',')) else [];
      here + NetworkAssignments(args, Step(args, i, NoParams).1)
  }

  /** The loop makes the assignments of all `--network` flags, in
      order, over the map it started with. */
  lemma {:induction false} ScanNetworks(args: seq<string>, i: nat, p: Params)
    requires i <= |args|
    ensures Scan(args, i, p).networks == CommandLine.PutAll(p.networks, NetworkAssignments(args, i))
    decreases |args| - i
  {
    if i == |args| {
    } else {
      var (q, next) := Step(args, i, p);
      var here := if args[i] == "--network" && i + 1 < |args| then CommandLine.Assignments(Split(args[i + 1], ',')) else [];
      assert q.networks == CommandLine.PutAll(p.networks, here);
      ScanNetworks(args, next, q);
      CommandLine.PutAllAppend(p.networks, here, NetworkAssignments(args, next));
    }
  }

  /** Over any number of `--network` flags, a chain holds the network of
      the last assignment naming it, whichever flag made it, and is
      absent when none does. */
  lemma NetworkIsLastAssigned(args: seq<string>, chain: string)
    ensures var mine := Dict.Select(NetworkAssignments(args, 0), chain);
            Dict.Get(Scan(args, 0, NoParams).networks, chain) == if mine == [] then None else Some(mine[|mine| - 1])
  {
    ScanNetworks(args, 0, NoParams);
    CommandLine.PutAllGet([], NetworkAssignments(args, 0), chain);
  }

  // ---------------------------------------------------------------------
  // main

  /** `main()` once the wallet file's lines are read: nothing when
      `--help` is given or the file holds no address under a header;
      otherwise the results by chain and the report text. */
  method ValidateWalletFile(o: Validator.Oracles, args: seq<string>, lines: seq<string>, timestamp: string)
    returns (r: Option<(Dict.Entries<seq<Validator.Checked>>, string)>)
    ensures var params := Scan(args, 0, NoParams);
            r.None? <==> params.help || Parsed(lines) == []
    ensures var params := Scan(args, 0, NoParams);
            var results := Report.CheckGroups(o, Parsed(lines), params.networks, Fallback);
            r.Some? ==> r.value == (results, Report.ChainsReport(WalletsTitle, timestamp, results, params.networks, Fallback))
  {
    var params := ParseCommandLine(args);
    if params.help {
      return None;
    }
    var addressesByChain := ParseWalletsFile(lines);
    if |addressesByChain| == 0 {
      return None;
    }
    var results, totalAddresses, totalValid, report := ValidateWallets(o, addressesByChain, params.networks, timestamp);
    r := Some((results, report));
  }
}
