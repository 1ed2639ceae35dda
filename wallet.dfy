/**
 * Shared data model of the wallet: the per-address record kept for each
 * branch, the provider's address-info reply, the search helpers the two
 * screens use, and the session store both screens publish to.
 */
module Wallet {

  datatype Option<+T> = None | Some(value: T)

  /** One entry of a branch's address map (`{is_used, index, address, derivePath}`). */
  datatype Record = Record(isUsed: bool, index: int, address: string, derivePath: string)

  /** The part of a provider reply the discovery reads: `data.address.address` and
      `data.address.transactions`. */
  datatype Response = Response(address: string, transactions: nat)

  /** `Array.prototype.findIndex` with `===`: the first position of `x` in `s`, or -1. */
  function FindIndex(s: seq<string>, x: string): (r: int)
    ensures -1 <= r < |s|
    ensures r == -1 <==> x !in s
    ensures r >= 0 ==> s[r] == x && forall j :: 0 <= j < r ==> s[j] != x
  {
    if |s| == 0 then -1
    else if s[0] == x then 0
    else
      var r := FindIndex(s[1..], x);
      if r == -1 then -1 else r + 1
  }

  /** The addresses `derive(0), ..., derive(n-1)` that a generation loop pushes, in order. */
  function Batch(derive: nat -> string, n: nat): (s: seq<string>)
    ensures |s| == n
    ensures forall i :: 0 <= i < n ==> s[i] == derive(i)
  {
    if n == 0 then [] else Batch(derive, n - 1) + [derive(n - 1)]
  }

  /** Derivation gives distinct addresses for distinct indices. */
  ghost predicate Injective(derive: nat -> string) {
    forall i: nat, j: nat :: derive(i) == derive(j) ==> i == j
  }

  /** With an injective derivation, the first occurrence of `derive(i)` in a list
      that starts with a batch of length `n > i` is position `i`, whatever follows
      the batch (the change list keeps earlier batches, so it may hold repeats). */
  lemma FindIndexInBatch(derive: nat -> string, n: nat, rest: seq<string>, i: nat)
    requires Injective(derive)
    requires i < n
    ensures FindIndex(Batch(derive, n) + rest, derive(i)) == i
  {
    var s := Batch(derive, n) + rest;
    assert s[i] == derive(i);
  }

  /** `keys` lists every key of `m` exactly once, in some order (what
      `Object.keys(m)` yields). */
  ghost predicate IsKeyList(keys: seq<string>, m: map<string, Record>) {
    && (forall i :: 0 <= i < |keys| ==> keys[i] in m)
    && (forall k :: k in m ==> k in keys)
    && (forall i, j :: 0 <= i < j < |keys| ==> keys[i] != keys[j])
  }

  /** `keys` is what `Object.keys(sortTransaction(m))` yields: a key list of `m`
      in non-decreasing order of the records' `index`. */
  ghost predicate IsSortedKeys(keys: seq<string>, m: map<string, Record>) {
    && IsKeyList(keys, m)
    && (forall i, j :: 0 <= i < j < |keys| ==> m[keys[i]].index <= m[keys[j]].index)
  }

  /** The contract assumed of the `sortTransaction` helper. */
  ghost predicate SortsByIndex(sort: map<string, Record> -> seq<string>) {
    forall m :: IsSortedKeys(sort(m), m)
  }

  /** Every record of the map is used; an empty map counts as all-used. */
  predicate AllUsed(m: map<string, Record>) {
    forall k :: k in m ==> m[k].isUsed
  }

  /** A list without repeats has as many distinct elements as it is long. */
  lemma {:induction false} DistinctCard(s: seq<string>)
    requires forall i, j :: 0 <= i < j < |s| ==> s[i] != s[j]
    ensures |set x | x in s| == |s|
  {
    if |s| > 0 {
      var init := s[..|s| - 1];
      DistinctCard(init);
      assert (set x | x in s) == (set x | x in init) + {s[|s| - 1]};
      assert s[|s| - 1] !in init;
    }
  }

  /** A key list is exactly as long as the map has keys. */
  lemma KeyListLength(keys: seq<string>, m: map<string, Record>)
    requires IsKeyList(keys, m)
    ensures |keys| == |m|
  {
    DistinctCard(keys);
    assert (set x | x in keys) == m.Keys;
  }

  /** The used-address count of both screens: one `push(true)` per used record,
      compared against the number of keys. Any key order gives the same count. */
  method CountUsed(keys: seq<string>, m: map<string, Record>) returns (count: nat)
    requires IsKeyList(keys, m)
    ensures count <= |m|
    ensures count == |m| <==> AllUsed(m)
  {
    count := 0;
    var i := 0;
    while i < |keys|
      invariant 0 <= i <= |keys|
      invariant count <= i
      invariant count == i <==> forall j :: 0 <= j < i ==> m[keys[j]].isUsed
    {
      if m[keys[i]].isUsed {
        count := count + 1;
      }
      i := i + 1;
    }
    KeyListLength(keys, m);
    if count == |m| {
      forall k | k in m ensures m[k].isUsed {
        var j :| 0 <= j < |keys| && keys[j] == k;
      }
    }
  }

  /** The BIP-32 root node built from the seed of `mnemonic`. The node itself is
      foreign; the model only remembers which phrase it came from. */
  datatype RootNode = RootNode(mnemonic: string)

  /**
   * The global session store (the React context) together with the persistent
   * store. The stored mnemonic (`mnemonic_root` in storage) is the phrase, while
   * the context's `mnemonicRoot` is the root node; the maps, the published
   * receiving address and the active change address are the same in both.
   */
  class Session {
    var storedMnemonic: Option<string>
    var mnemonicRoot: Option<RootNode>
    var receivingData: map<string, Record>
    var storedAddress: Option<string>
    var changeData: map<string, Record>
    var changeAddress: Option<string>

    constructor ()
      ensures storedMnemonic == None && mnemonicRoot == None
      ensures storedAddress == None && changeAddress == None
      ensures receivingData == map[] && changeData == map[]
    {
      storedMnemonic := None;
      mnemonicRoot := None;
      receivingData := map[];
      storedAddress := None;
      changeData := map[];
      changeAddress := None;
    }
  }
}
