/** The `--network` argument the validation tools share, of the form
    `ETH=mainnet,BTC=testnet,…`: split on `,`, each part destructured as
    `[chain, network] = part.split("=")`, kept only when both halves are
    truthy, the chain upper-cased and the network lower-cased, and
    assigned into the `networks` object in order. */
module CommandLine {
  import opened Wrappers
  import opened Text
  import Dict

  /** The assignment one part makes, if any. */
  function Assignment(part: string): (r: Option<(string, string)>)
    ensures r.Some? ==> r.value.0 != "" && r.value.1 != "" && IsUpper(r.value.0) && IsLower(r.value.1)
    ensures r.Some? <==> Split(part, '=')[0] != "" && |Split(part, '=')| > 1 && Split(part, '=')[1] != ""
  {
    var halves := Split(part, '=');
    var chain := halves[0];
    var network := if |halves| > 1 then halves[1] else "";
    if chain != "" && network != "" then
      UpperIsUpper(chain);
      LowerIsLower(network);
      Some((ToUpper(chain), ToLower(network)))
    else None
  }

  /** The assignments of the parts, in order. */
  function Assignments(parts: seq<string>): seq<(string, string)>
    decreases |parts|
  {
    if parts == [] then []
    else
      var n := |parts| - 1;
      Assignments(parts[..n]) + (match Assignment(parts[n]) case Some(a) => [a] case None => [])
  }

  /** `networks[chain] = network` for each assignment in order. */
  function PutAll(networks: Dict.Entries<string>, assignments: seq<(string, string)>): Dict.Entries<string>
    decreases |assignments|
  {
    if assignments == [] then networks
    else
      var n := |assignments| - 1;
      Dict.Put(PutAll(networks, assignments[..n]), assignments[n].0, assignments[n].1)
  }

  /** The `forEach` over `networkString.split(",")`. */
  method ApplyNetworkSpec(networks: Dict.Entries<string>, networkString: string) returns (r: Dict.Entries<string>)
    ensures r == PutAll(networks, Assignments(Split(networkString, ',')))
  {
    var parts := Split(networkString, ',');
    r := networks;
    var i := 0;
    ghost var done: seq<(string, string)> := [];
    while i < |parts|
      invariant i <= |parts|
      invariant done == Assignments(parts[..i])
      invariant r == PutAll(networks, done)
    {
      assert parts[..i + 1][..i] == parts[..i];
      var halves := Split(parts[i], '=');
      var chain := halves[0];
      var network := if |halves| > 1 then halves[1] else "";
      if chain != "" && network != "" {
        r := Dict.Put(r, ToUpper(chain), ToLower(network));
        done := done + [(ToUpper(chain), ToLower(network))];
        assert done[..|done| - 1] == Assignments(parts[..i]);
      } else {
        assert Assignments(parts[..i + 1]) == done + [];
      }
      i := i + 1;
    }
    assert parts[..i] == parts;
  }

  /** After the assignments, a chain holds the network of its last
      assignment, or what it held before when none names it; the chains
      present are those present before and those assigned. */
  lemma PutAllGet(networks: Dict.Entries<string>, assignments: seq<(string, string)>, chain: string)
    ensures var mine := Dict.Select(assignments, chain);
            Dict.Get(PutAll(networks, assignments), chain) == if mine == [] then Dict.Get(networks, chain) else Some(mine[|mine| - 1])
    ensures chain in Dict.Keys(PutAll(networks, assignments)) <==>
              chain in Dict.Keys(networks) || Dict.Select(assignments, chain) != []
  {
    PutAllLast(networks, assignments, chain);
    Dict.GetDefined(PutAll(networks, assignments), chain);
    Dict.GetDefined(networks, chain);
  }

  /** Making two lists of assignments one after the other is making
      their concatenation. */
  lemma {:induction false} PutAllAppend(networks: Dict.Entries<string>, a: seq<(string, string)>, b: seq<(string, string)>)
    ensures PutAll(networks, a + b) == PutAll(PutAll(networks, a), b)
    decreases |b|
  {
    if b == [] {
      assert a + b == a;
    } else {
      var n := |b| - 1;
      assert (a + b)[..|a| + n] == a + b[..n];
      assert (a + b)[|a| + n] == b[n];
      PutAllAppend(networks, a, b[..n]);
    }
  }

  lemma {:induction false} PutAllLast(networks: Dict.Entries<string>, assignments: seq<(string, string)>, chain: string)
    ensures var mine := Dict.Select(assignments, chain);
            Dict.Get(PutAll(networks, assignments), chain) == if mine == [] then Dict.Get(networks, chain) else Some(mine[|mine| - 1])
    decreases |assignments|
  {
    if assignments != [] {
      var n := |assignments| - 1;
      var before := PutAll(networks, assignments[..n]);
      var (k, v) := assignments[n];
      PutAllLast(networks, assignments[..n], chain);
      Dict.PutGet(before, k, v);
      var mine := Dict.Select(assignments, chain);
      if k == chain {
        assert mine == Dict.Select(assignments[..n], chain) + [v];
      } else {
        assert mine == Dict.Select(assignments[..n], chain);
      }
    }
  }

  /** A part `chain=network` with both halves non-empty and no further
      `=` assigns the upper-cased chain the lower-cased network. */
  lemma AssignmentOf(chain: string, network: string)
    requires chain != "" && network != ""
    requires '=' !in chain && '=' !in network
    ensures Assignment(chain + "=" + network) == Some((ToUpper(chain), ToLower(network)))
  {
    SplitAt(chain, network, '=');
    SplitWithout(network, '=');
  }

  /** A part without `=`, or with an empty half, assigns nothing. */
  lemma NoAssignment(part: string)
    requires '=' !in part
    ensures Assignment(part).None?
  {
    SplitWithout(part, '=');
  }
}
