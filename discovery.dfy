/**
 * Address discovery of the login screen: one round derives `currentNo`
 * receiving and `currentChangeNo` change addresses, classifies each reply of
 * the provider as used or unused, builds the branch's address map, and either
 * asks for a batch ten addresses larger (every record used) or publishes the
 * next address chosen by the positional rule.
 */
module Discovery {
  import opened Wallet
  import opened Paths

  /** What processing one branch decides: grow the batch and rerun, or publish `next`. */
  datatype Outcome = Grow | Resolved(next: string)

  /** A round stops at an invalid mnemonic, or yields both branches' outcomes. */
  datatype RoundResult = Invalid | Processed(receiving: Outcome, change: Outcome)

  /** The batch increment. */
  const Step: nat := 10

  // ---------------------------------------------------------------------------
  // Classification and the address map

  /** The test `el.address && (el.address = reply.address && !reply.transactions)`:
      the `=` assigns, so its value is that of the right-hand side. */
  function IsUnused(generated: string, reply: Response): (unused: bool)
    ensures unused ==> reply.transactions == 0
    ensures generated == "" || reply.address == "" ==> !unused
    ensures generated != "" && reply.address != "" ==> (unused <==> reply.transactions == 0)
  {
    generated != "" && reply.address != "" && reply.transactions == 0
  }

  /** The record a callback stores under `reply.address`; `known` is the list the
      index is looked up in (`ref.current.generatedAddress` or
      `ref.current.generatedChangeAddress`). */
  function MakeRecord(generated: string, reply: Response, known: seq<string>, prefix: string): (r: Record)
    ensures r.address == reply.address
    ensures r.isUsed <==> !IsUnused(generated, reply)
    ensures r.index == FindIndex(known, reply.address)
    ensures r.derivePath == PathOf(prefix, r.index)
  {
    var index := FindIndex(known, reply.address);
    Record(!IsUnused(generated, reply), index, reply.address, PathOf(prefix, index))
  }

  /** The map after the callbacks for positions `0 .. n-1`. Position `i` pairs the
      `i`-th generated address with the `i`-th reply in completion order; a
      position with no reply throws before it stores anything. */
  function Records(local: seq<string>, replies: seq<Response>, known: seq<string>, prefix: string, n: nat): (m: map<string, Record>)
    requires n <= |local|
  {
    if n == 0 then map[]
    else
      var m := Records(local, replies, known, prefix, n - 1);
      if n - 1 < |replies| then m[replies[n - 1].address := MakeRecord(local[n - 1], replies[n - 1], known, prefix)]
      else m
  }

  /** The classification loop (`addressAndPrivatekey.map(...)`). `published` tells
      whether some callback reached the point where it publishes the map. */
  method BuildRecords(local: seq<string>, replies: seq<Response>, known: seq<string>, prefix: string)
    returns (m: map<string, Record>, published: bool)
    ensures m == Records(local, replies, known, prefix, |local|)
    ensures published <==> 0 < |local| && 0 < |replies|
  {
    m := map[];
    published := false;
    var i := 0;
    while i < |local|
      invariant 0 <= i <= |local|
      invariant m == Records(local, replies, known, prefix, i)
      invariant published <==> 0 < i && 0 < |replies|
    {
      if i < |replies| {
        m := m[replies[i].address := MakeRecord(local[i], replies[i], known, prefix)];
        published := true;
      }
      assert m == Records(local, replies, known, prefix, i + 1);
      i := i + 1;
    }
  }

  /** The record stored under `k` is the one built from the last processed reply
      naming `k`; `j` is that reply's position. */
  lemma {:induction false} RecordSource(local: seq<string>, replies: seq<Response>, known: seq<string>,
                                        prefix: string, n: nat, k: string)
    returns (j: nat)
    requires n <= |local|
    requires k in Records(local, replies, known, prefix, n)
    ensures j < n && j < |replies| && replies[j].address == k
    ensures Records(local, replies, known, prefix, n)[k] == MakeRecord(local[j], replies[j], known, prefix)
  {
    if n - 1 < |replies| && replies[n - 1].address == k {
      j := n - 1;
    } else {
      j := RecordSource(local, replies, known, prefix, n - 1, k);
    }
  }

  /** The record stored under `k` is keyed by its own address, carries the first
      position of `k` in `known` (or -1), and a path naming that same index. */
  lemma RecordShapeAt(local: seq<string>, replies: seq<Response>, known: seq<string>,
                      prefix: string, n: nat, k: string)
    requires n <= |local|
    requires k in Records(local, replies, known, prefix, n)
    ensures var r := Records(local, replies, known, prefix, n)[k];
      r.address == k && r.index == FindIndex(known, k) && r.derivePath == PathOf(prefix, r.index)
  {
    var j := RecordSource(local, replies, known, prefix, n, k);
  }

  /** Every stored record is keyed by its own address, carries the first position
      of that address in `known` (or -1), and a path naming that same index. */
  lemma RecordsShape(local: seq<string>, replies: seq<Response>, known: seq<string>, prefix: string, n: nat)
    requires n <= |local|
    ensures var m := Records(local, replies, known, prefix, n);
      forall k :: k in m ==>
        && m[k].address == k
        && m[k].index == FindIndex(known, k)
        && (m[k].index >= 0 ==> m[k].index < |known| && known[m[k].index] == k)
        && m[k].derivePath == PathOf(prefix, m[k].index)
        && IndexOfPath(prefix, m[k].derivePath) == Some(m[k].index)
  {
    var m := Records(local, replies, known, prefix, n);
    forall k | k in m
      ensures m[k].address == k && m[k].index == FindIndex(known, k)
      ensures m[k].derivePath == PathOf(prefix, m[k].index)
      ensures IndexOfPath(prefix, m[k].derivePath) == Some(m[k].index)
    {
      RecordShapeAt(local, replies, known, prefix, n, k);
      PathRoundTrip(prefix, m[k].index);
    }
  }

  /** The reply at a processed position leaves its address as a key. */
  lemma {:induction false} ReplyIsKey(local: seq<string>, replies: seq<Response>, known: seq<string>,
                                      prefix: string, n: nat, i: nat)
    requires n <= |local|
    requires i < n && i < |replies|
    ensures replies[i].address in Records(local, replies, known, prefix, n)
  {
    var m, prev := Records(local, replies, known, prefix, n), Records(local, replies, known, prefix, n - 1);
    if n - 1 < |replies| {
      assert m == prev[replies[n - 1].address := MakeRecord(local[n - 1], replies[n - 1], known, prefix)];
    } else {
      assert m == prev;
    }
    if i < n - 1 {
      ReplyIsKey(local, replies, known, prefix, n - 1, i);
    }
  }

  /** The keys are exactly the addresses of the replies that were processed. */
  lemma RecordsKeys(local: seq<string>, replies: seq<Response>, known: seq<string>, prefix: string, n: nat)
    requires n <= |local|
    ensures Records(local, replies, known, prefix, n).Keys
         == set i | 0 <= i < n && i < |replies| :: replies[i].address
  {
    var m := Records(local, replies, known, prefix, n);
    var s := set i | 0 <= i < n && i < |replies| :: replies[i].address;
    forall k | k in m ensures k in s {
      var j := RecordSource(local, replies, known, prefix, n, k);
    }
    forall k | k in s ensures k in m {
      var i :| 0 <= i < n && i < |replies| && replies[i].address == k;
      ReplyIsKey(local, replies, known, prefix, n, i);
    }
  }

  /** The reply at position `i`, when no later processed reply names the same
      address, decides the record's usage: unused exactly when both addresses are
      non-empty and the transaction count is 0. */
  lemma {:induction false} RecordsUsage(local: seq<string>, replies: seq<Response>, known: seq<string>, prefix: string, n: nat, i: nat)
    requires n <= |local|
    requires i < n && i < |replies|
    requires forall j :: i < j < n && j < |replies| ==> replies[j].address != replies[i].address
    ensures var m := Records(local, replies, known, prefix, n);
      && replies[i].address in m
      && (m[replies[i].address].isUsed <==> !IsUnused(local[i], replies[i]))
      && (local[i] != "" && replies[i].address != "" ==>
            (m[replies[i].address].isUsed <==> replies[i].transactions != 0))
  {
    var m, prev := Records(local, replies, known, prefix, n), Records(local, replies, known, prefix, n - 1);
    if n - 1 < |replies| {
      assert m == prev[replies[n - 1].address := MakeRecord(local[n - 1], replies[n - 1], known, prefix)];
    } else {
      assert m == prev;
    }
    if n - 1 > i {
      RecordsUsage(local, replies, known, prefix, n - 1, i);
      assert m[replies[i].address] == prev[replies[i].address];
    }
  }

  /** With an injective derivation and a list that starts with the current batch,
      the record of `derive(i)` has index `i` and path `prefix + i`, even when
      `known` holds repeats of earlier batches after the first one. */
  lemma RecordOfDerived(local: seq<string>, replies: seq<Response>, derive: nat -> string,
                        size: nat, rest: seq<string>, prefix: string, n: nat, i: nat)
    requires n <= |local|
    requires Injective(derive)
    requires i < size
    requires derive(i) in Records(local, replies, Batch(derive, size) + rest, prefix, n)
    ensures var r := Records(local, replies, Batch(derive, size) + rest, prefix, n)[derive(i)];
      r.index == i && r.derivePath == PathOf(prefix, i) && IndexOfPath(prefix, r.derivePath) == Some(i)
  {
    var known := Batch(derive, size) + rest;
    RecordsShape(local, replies, known, prefix, n);
    FindIndexInBatch(derive, size, rest, i);
  }

  /** What one processed branch leaves behind, given the record map `m` it built:
      the map is published (`data`) iff some reply arrived (`replied`); the branch
      reports Grow iff every record is used, and then the batch size (`no`) grows
      by exactly `Step` and the published address (`stored`) is kept; otherwise the
      batch size is kept and the published address is the positional choice, a key
      of the published map. */
  ghost predicate Settled(m: map<string, Record>, replied: bool, sort: map<string, Record> -> seq<string>,
                          outcome: Outcome, data: map<string, Record>, oldData: map<string, Record>,
                          no: nat, oldNo: nat, stored: Option<string>, oldStored: Option<string>)
    requires SortsByIndex(sort)
  {
    && data == (if replied then m else oldData)
    && (outcome == Grow <==> AllUsed(m))
    && no == (if AllUsed(m) then oldNo + Step else oldNo)
    && (outcome == Grow ==> stored == oldStored)
    && (outcome.Resolved? ==> && outcome.next == sort(m)[FirstGap(sort(m), m)]
                              && outcome.next in m
                              && stored == Some(outcome.next)
                              && outcome.next in data)
  }

  /** The record of the `i`-th derived address, for each `i < n` it is stored
      under, carries index `i` and the path naming `i`. */
  ghost predicate IndexedByDerivation(m: map<string, Record>, derive: nat -> string, prefix: string, n: nat) {
    forall i :: 0 <= i < n && derive(i) in m ==>
      m[derive(i)].index == i && m[derive(i)].derivePath == PathOf(prefix, i)
  }

  /** With an injective derivation and a lookup list that starts with the
      generated batch, every record of a derived address carries that address's
      derivation index, in `index` and in `derivePath`. */
  lemma DerivedIndices(local: seq<string>, replies: seq<Response>, known: seq<string>,
                       derive: nat -> string, prefix: string)
    requires Injective(derive)
    requires local == Batch(derive, |local|)
    requires |local| <= |known| && known[..|local|] == local
    ensures IndexedByDerivation(Records(local, replies, known, prefix, |local|), derive, prefix, |local|)
  {
    var rest := known[|local|..];
    assert known == Batch(derive, |local|) + rest;
    forall i | 0 <= i < |local| && derive(i) in Records(local, replies, known, prefix, |local|)
      ensures Records(local, replies, known, prefix, |local|)[derive(i)].index == i
      ensures Records(local, replies, known, prefix, |local|)[derive(i)].derivePath == PathOf(prefix, i)
    {
      RecordOfDerived(local, replies, derive, |local|, rest, prefix, |local|, i);
    }
  }

  /** When each generated address answered exactly once and the lookup list starts
      with the generated list (the receiving list is the batch itself; the change
      list may repeat earlier batches after it), the stored indices are distinct
      and lie in `0 .. |m|-1`. */
  lemma FullRepliesGiveContiguousIndices(local: seq<string>, replies: seq<Response>, known: seq<string>, prefix: string)
    requires |replies| == |local| <= |known|
    requires known[..|local|] == local
    requires forall i, j :: 0 <= i < j < |replies| ==> replies[i].address != replies[j].address
    requires forall i :: 0 <= i < |replies| ==> replies[i].address in local
    ensures var m := Records(local, replies, known, prefix, |local|);
      && |m| == |local|
      && (forall k :: k in m ==> 0 <= m[k].index < |m|)
      && (forall k1, k2 :: k1 in m && k2 in m && k1 != k2 ==> m[k1].index != m[k2].index)
  {
    var n := |local|;
    var m := Records(local, replies, known, prefix, n);
    RecordsShape(local, replies, known, prefix, n);
    ReplyCount(local, replies, known, prefix);
    forall k | k in m ensures 0 <= m[k].index < |m| {
      ReplyOfKey(local, replies, known, prefix, k);
      var j :| 0 <= j < |local| && local[j] == k;
      assert known[..|local|][j] == k;
    }
  }

  /** Distinct replies, one per generated position, give one key each. */
  lemma ReplyCount(local: seq<string>, replies: seq<Response>, known: seq<string>, prefix: string)
    requires |replies| == |local|
    requires forall i, j :: 0 <= i < j < |replies| ==> replies[i].address != replies[j].address
    ensures |Records(local, replies, known, prefix, |local|)| == |local|
  {
    var n := |local|;
    var m := Records(local, replies, known, prefix, n);
    RecordsKeys(local, replies, known, prefix, n);
    var addrs := seq(n, i requires 0 <= i < n => replies[i].address);
    DistinctCard(addrs);
    var a := set x | x in addrs;
    assert a <= m.Keys by {
      forall x | x in a ensures x in m.Keys {
        var i :| 0 <= i < n && addrs[i] == x;
      }
    }
    assert m.Keys <= a by {
      forall x | x in m.Keys ensures x in a {
        var i :| 0 <= i < n && i < |replies| && replies[i].address == x;
        assert addrs[i] == x;
      }
    }
    assert m.Keys == a;
  }

  /** Every key is the address of some processed reply, hence a generated address. */
  lemma ReplyOfKey(local: seq<string>, replies: seq<Response>, known: seq<string>, prefix: string, k: string)
    requires |replies| == |local|
    requires forall i :: 0 <= i < |replies| ==> replies[i].address in local
    requires k in Records(local, replies, known, prefix, |local|)
    ensures k in local
  {
    RecordsKeys(local, replies, known, prefix, |local|);
    var i :| 0 <= i < |local| && i < |replies| && replies[i].address == k;
  }

  // ---------------------------------------------------------------------------
  // The next-address rule

  /** Sorted position `i` holds a record whose index is `i` and that is unused. */
  predicate IsGap(keys: seq<string>, m: map<string, Record>, i: nat)
    requires i < |keys| && keys[i] in m
  {
    m[keys[i]].index == i && !m[keys[i]].isUsed
  }

  /** The least gap at position `i` or later, or 0 when there is none. */
  function GapFrom(keys: seq<string>, m: map<string, Record>, i: nat): (pos: nat)
    requires i <= |keys|
    requires forall j :: 0 <= j < |keys| ==> keys[j] in m
    ensures pos == 0 || i <= pos < |keys|
    ensures (exists j :: i <= j < |keys| && IsGap(keys, m, j)) ==>
              i <= pos < |keys| && IsGap(keys, m, pos) && forall j :: i <= j < pos ==> !IsGap(keys, m, j)
    ensures (forall j :: i <= j < |keys| ==> !IsGap(keys, m, j)) ==> pos == 0
    decreases |keys| - i
  {
    if i == |keys| then 0
    else if IsGap(keys, m, i) then i
    else GapFrom(keys, m, i + 1)
  }

  /** The positional rule: the least sorted position that is a gap, defaulting to 0. */
  function FirstGap(keys: seq<string>, m: map<string, Record>): nat
    requires forall j :: 0 <= j < |keys| ==> keys[j] in m
  {
    GapFrom(keys, m, 0)
  }

  /** The `for` loop with `break` that sets `currentUnusedAddressIndex`. */
  method NextPosition(keys: seq<string>, m: map<string, Record>) returns (pos: nat)
    requires forall j :: 0 <= j < |keys| ==> keys[j] in m
    ensures pos == FirstGap(keys, m)
    ensures |keys| > 0 ==> pos < |keys|
  {
    pos := 0;
    var i := 0;
    while i < |keys|
      invariant 0 <= i <= |keys|
      invariant forall j :: 0 <= j < i ==> !IsGap(keys, m, j)
    {
      if m[keys[i]].index == i && !m[keys[i]].isUsed {
        assert IsGap(keys, m, i);
        pos := i;
        break;
      }
      i := i + 1;
    }
  }

  /** When some record is unused the map is not empty, so the chosen position is
      inside the sorted keys and the published address is a key of the map. */
  lemma ResolvedIsKey(keys: seq<string>, m: map<string, Record>)
    requires IsSortedKeys(keys, m)
    requires !AllUsed(m)
    ensures FirstGap(keys, m) < |keys|
    ensures keys[FirstGap(keys, m)] in m
  {
    var k :| k in m && !m[k].isUsed;
    assert k in keys;
  }

  /** A strictly increasing list of `n` integers drawn from `0 .. n-1` is `0, 1, ..., n-1`. */
  lemma IncreasingInRangeIsIdentity(s: seq<int>)
    requires forall i, j :: 0 <= i < j < |s| ==> s[i] < s[j]
    requires forall i :: 0 <= i < |s| ==> 0 <= s[i] < |s|
    ensures forall i :: 0 <= i < |s| ==> s[i] == i
  {
    forall i | 0 <= i < |s| ensures s[i] == i {
      AtLeastPosition(s, i);
      AtMostPosition(s, i);
    }
  }

  lemma {:induction false} AtLeastPosition(s: seq<int>, i: nat)
    requires forall p, q :: 0 <= p < q < |s| ==> s[p] < s[q]
    requires forall p :: 0 <= p < |s| ==> 0 <= s[p]
    requires i < |s|
    ensures s[i] >= i
    decreases i
  {
    if i > 0 {
      AtLeastPosition(s, i - 1);
    }
  }

  lemma {:induction false} AtMostPosition(s: seq<int>, i: nat)
    requires forall p, q :: 0 <= p < q < |s| ==> s[p] < s[q]
    requires forall p :: 0 <= p < |s| ==> s[p] < |s|
    requires i < |s|
    ensures s[i] <= i
    decreases |s| - i
  {
    if i < |s| - 1 {
      AtMostPosition(s, i + 1);
    }
  }

  /** When the stored indices are distinct and lie in `0 .. |m|-1`, the record at
      sorted position `i` has index `i`. */
  lemma PositionIsIndex(keys: seq<string>, m: map<string, Record>)
    requires IsSortedKeys(keys, m)
    requires forall k :: k in m ==> 0 <= m[k].index < |m|
    requires forall k1, k2 :: k1 in m && k2 in m && k1 != k2 ==> m[k1].index != m[k2].index
    ensures forall i :: 0 <= i < |keys| ==> m[keys[i]].index == i
  {
    KeyListLength(keys, m);
    var s := seq(|keys|, i requires 0 <= i < |keys| => m[keys[i]].index);
    forall i, j | 0 <= i < j < |s| ensures s[i] < s[j] {
      assert keys[i] != keys[j];
    }
    IncreasingInRangeIsIdentity(s);
    forall i | 0 <= i < |keys| ensures m[keys[i]].index == i {
      assert s[i] == m[keys[i]].index;
    }
  }

  /** When the stored indices are distinct and fill `0 .. |m|-1`, sorted position
      and index agree, and the positional rule picks the unused record with the
      lowest index, which is the intended "first unused address" rule. */
  lemma PositionalRuleIsLowestUnused(keys: seq<string>, m: map<string, Record>)
    requires IsSortedKeys(keys, m)
    requires forall k :: k in m ==> 0 <= m[k].index < |m|
    requires forall k1, k2 :: k1 in m && k2 in m && k1 != k2 ==> m[k1].index != m[k2].index
    requires !AllUsed(m)
    ensures FirstGap(keys, m) < |keys|
    ensures !m[keys[FirstGap(keys, m)]].isUsed
    ensures forall k :: k in m && !m[k].isUsed ==> m[keys[FirstGap(keys, m)]].index <= m[k].index
  {
    PositionIsIndex(keys, m);
    KeyListLength(keys, m);
    var pos := FirstGap(keys, m);
    // An unused key sits at the position its index names, so it is a gap there.
    forall k | k in m && !m[k].isUsed
      ensures pos < |keys| && !m[keys[pos]].isUsed && m[keys[pos]].index <= m[k].index
    {
      var j := m[k].index;
      assert m[keys[j]].index == j;
      assert keys[j] == k;
      assert IsGap(keys, m, j);
    }
    var k :| k in m && !m[k].isUsed;
  }

  /** When an index is missing (an address whose reply never arrived), the rule
      can fall back to position 0 and publish a used address although an unused
      one exists. */
  lemma PositionalRuleCanChooseUsed()
    ensures var m := map["b" := Record(true, 1, "b", PathOf(ReceivePrefix, 1)),
                         "c" := Record(false, 2, "c", PathOf(ReceivePrefix, 2))];
      && IsSortedKeys(["b", "c"], m)
      && !AllUsed(m)
      && FirstGap(["b", "c"], m) == 0
      && m["b"].isUsed
  {
    var m := map["b" := Record(true, 1, "b", PathOf(ReceivePrefix, 1)),
                 "c" := Record(false, 2, "c", PathOf(ReceivePrefix, 2))];
    assert !IsGap(["b", "c"], m, 0);
    assert !IsGap(["b", "c"], m, 1);
  }

  /** When every generated address answered exactly once, the address the round
      publishes is the unused one with the lowest index, also for a change list
      that repeats earlier batches after the current one. */
  lemma FullRepliesPickLowestUnused(local: seq<string>, replies: seq<Response>, known: seq<string>,
                                    prefix: string, keys: seq<string>)
    requires |replies| == |local| <= |known|
    requires known[..|local|] == local
    requires forall i, j :: 0 <= i < j < |replies| ==> replies[i].address != replies[j].address
    requires forall i :: 0 <= i < |replies| ==> replies[i].address in local
    requires IsSortedKeys(keys, Records(local, replies, known, prefix, |local|))
    requires !AllUsed(Records(local, replies, known, prefix, |local|))
    ensures var m := Records(local, replies, known, prefix, |local|);
      && FirstGap(keys, m) < |keys|
      && !m[keys[FirstGap(keys, m)]].isUsed
      && forall k :: k in m && !m[k].isUsed ==> m[keys[FirstGap(keys, m)]].index <= m[k].index
  {
    FullRepliesGiveContiguousIndices(local, replies, known, prefix);
    PositionalRuleIsLowestUnused(keys, Records(local, replies, known, prefix, |local|));
  }

  // ---------------------------------------------------------------------------
  // The screen's discovery state (`ref.current`)

  /** A generation loop: `derive(0), ..., derive(n-1)` pushed one at a time. The
      source pushes each address onto the local list and onto the screen's list
      in the same iteration; the model pushes onto the local list and appends
      it to the screen's list afterwards, which leaves both with the same values. */
  method DeriveBatch(derive: nat -> string, n: nat) returns (batch: seq<string>)
    ensures batch == Batch(derive, n)
  {
    batch := [];
    var i := 0;
    while i < n
      invariant 0 <= i <= n
      invariant batch == Batch(derive, i)
    {
      batch := batch + [derive(i)];
      i := i + 1;
    }
  }

  /** The accumulated change list is empty or starts with the current batch; later
      rounds append copies of it until the change branch grows and resets it. */
  ghost predicate StartsWithBatch(s: seq<string>, derive: nat -> string, n: nat) {
    s == [] || (n <= |s| && forall i :: 0 <= i < n ==> s[i] == derive(i))
  }

  /** Appending the current batch keeps the list starting with it. */
  lemma AppendBatch(s: seq<string>, derive: nat -> string, n: nat)
    requires StartsWithBatch(s, derive, n)
    ensures StartsWithBatch(s + Batch(derive, n), derive, n)
    ensures n <= |s + Batch(derive, n)| && (s + Batch(derive, n))[..n] == Batch(derive, n)
  {
    var b := Batch(derive, n);
    var t := s + b;
    if s == [] {
      assert t == b;
    } else {
      forall i | 0 <= i < n ensures t[i] == derive(i) {
        assert t[i] == s[i];
      }
      assert t[..n] == b;
    }
  }

  class Discovery {
    const session: Session
    const mnemonic: string
    /** `bip39.validateMnemonic(mnemonic)`. */
    const mnemonicValid: bool
    /** `generateAddress(branch.derive(i)).address` on `m/44'/1'/0'/0`. */
    const receiveAt: nat -> string
    /** The same on `m/44'/1'/0'/1`. */
    const changeAt: nat -> string

    var currentNo: nat
    var currentChangeNo: nat
    var generatedAddress: seq<string>
    var generatedChangeAddress: seq<string>

    /** Batch sizes start at 10 and only ever grow in steps of 10, and the change
        list starts with the current change batch unless it is empty. */
    ghost predicate Valid()
      reads this
    {
      && currentNo >= Step && currentNo % Step == 0
      && currentChangeNo >= Step && currentChangeNo % Step == 0
      && StartsWithBatch(generatedChangeAddress, changeAt, currentChangeNo)
    }

    constructor (session: Session, mnemonic: string, mnemonicValid: bool,
                 receiveAt: nat -> string, changeAt: nat -> string)
      ensures Valid()
      ensures this.session == session && this.mnemonic == mnemonic && this.mnemonicValid == mnemonicValid
      ensures this.receiveAt == receiveAt && this.changeAt == changeAt
      ensures currentNo == 10 && currentChangeNo == 10
      ensures generatedAddress == [] && generatedChangeAddress == []
    {
      this.session := session;
      this.mnemonic := mnemonic;
      this.mnemonicValid := mnemonicValid;
      this.receiveAt := receiveAt;
      this.changeAt := changeAt;
      currentNo := 10;
      currentChangeNo := 10;
      generatedAddress := [];
      generatedChangeAddress := [];
    }

    /** `generateTestnetAddressAndPrivateKey` up to the two processing calls. The
        receiving list is reset before the mnemonic is validated; the change list
        is never reset here, so it accumulates one batch per call. */
    method Generate() returns (ok: bool, receiving: seq<string>, change: seq<string>)
      requires Valid()
      modifies this, session
      ensures Valid()
      ensures ok == mnemonicValid
      ensures currentNo == old(currentNo) && currentChangeNo == old(currentChangeNo)
      ensures !ok ==> && receiving == [] && change == [] && generatedAddress == []
                      && unchanged(this`generatedChangeAddress)
                      && unchanged(session`storedMnemonic, session`mnemonicRoot)
      ensures ok ==> receiving == Batch(receiveAt, currentNo) && generatedAddress == receiving
      ensures ok ==> change == Batch(changeAt, currentChangeNo)
      ensures ok ==> generatedChangeAddress == old(generatedChangeAddress) + change
      ensures ok ==> generatedChangeAddress[..currentChangeNo] == change
      ensures ok ==> session.storedMnemonic == Some(mnemonic) && session.mnemonicRoot == Some(RootNode(mnemonic))
      ensures unchanged(session`receivingData, session`storedAddress, session`changeData, session`changeAddress)
    {
      generatedAddress := [];
      receiving, change := [], [];
      if !mnemonicValid {
        return false, receiving, change;
      }
      session.storedMnemonic := Some(mnemonic);
      session.mnemonicRoot := Some(RootNode(mnemonic));
      change := DeriveBatch(changeAt, currentChangeNo);
      AppendBatch(generatedChangeAddress, changeAt, currentChangeNo);
      generatedChangeAddress := generatedChangeAddress + change;
      receiving := DeriveBatch(receiveAt, currentNo);
      generatedAddress := receiving;
      ok := true;
    }

    /** `processBitcoinAddress` after every reply has arrived: classify, publish the
        map, then grow the batch or publish the next receiving address. */
    method ProcessReceiving(local: seq<string>, replies: seq<Response>, sort: map<string, Record> -> seq<string>)
      returns (outcome: Outcome)
      requires Valid()
      requires SortsByIndex(sort)
      modifies this, session
      ensures Valid()
      ensures Settled(Records(local, replies, old(generatedAddress), ReceivePrefix, |local|),
                      0 < |local| && 0 < |replies|, sort, outcome,
                      session.receivingData, old(session.receivingData), currentNo, old(currentNo),
                      session.storedAddress, old(session.storedAddress))
      ensures unchanged(this`currentChangeNo, this`generatedAddress, this`generatedChangeAddress)
      ensures unchanged(session`storedMnemonic, session`mnemonicRoot, session`changeData, session`changeAddress)
    {
      var m, published := BuildRecords(local, replies, generatedAddress, ReceivePrefix);
      RecordsKeys(local, replies, generatedAddress, ReceivePrefix, |local|);
      if published {
        session.receivingData := m;
      }
      var keys := sort(m);
      var used := CountUsed(keys, m);
      KeyListLength(keys, m);
      if used == |keys| {
        currentNo := currentNo + Step;
        outcome := Grow;
      } else {
        var pos := NextPosition(keys, m);
        ResolvedIsKey(keys, m);
        session.storedAddress := Some(keys[pos]);
        outcome := Resolved(keys[pos]);
      }
    }

    /** `processBitcoinChangeAddress`: as for receiving, except that growing the
        batch also empties the accumulated change list. */
    method ProcessChange(local: seq<string>, replies: seq<Response>, sort: map<string, Record> -> seq<string>)
      returns (outcome: Outcome)
      requires Valid()
      requires SortsByIndex(sort)
      modifies this, session
      ensures Valid()
      ensures Settled(Records(local, replies, old(generatedChangeAddress), ChangePrefix, |local|),
                      0 < |local| && 0 < |replies|, sort, outcome,
                      session.changeData, old(session.changeData), currentChangeNo, old(currentChangeNo),
                      session.changeAddress, old(session.changeAddress))
      ensures generatedChangeAddress == (if outcome == Grow then [] else old(generatedChangeAddress))
      ensures unchanged(this`currentNo, this`generatedAddress)
      ensures unchanged(session`storedMnemonic, session`mnemonicRoot, session`receivingData, session`storedAddress)
    {
      var m, published := BuildRecords(local, replies, generatedChangeAddress, ChangePrefix);
      RecordsKeys(local, replies, generatedChangeAddress, ChangePrefix, |local|);
      if published {
        session.changeData := m;
      }
      var keys := sort(m);
      var used := CountUsed(keys, m);
      KeyListLength(keys, m);
      if used == |keys| {
        generatedChangeAddress := [];
        currentChangeNo := currentChangeNo + Step;
        outcome := Grow;
      } else {
        var pos := NextPosition(keys, m);
        ResolvedIsKey(keys, m);
        session.changeAddress := Some(keys[pos]);
        outcome := Resolved(keys[pos]);
      }
    }

    /** One login round: generate both lists, then process the receiving branch and
        the change branch with the replies the provider gave for each. An invalid
        mnemonic stops the round before any derivation or publication. */
    method Round(receivingReplies: seq<Response>, changeReplies: seq<Response>,
                 sort: map<string, Record> -> seq<string>)
      returns (result: RoundResult)
      requires Valid()
      requires SortsByIndex(sort)
      modifies this, session
      ensures Valid()
      ensures result.Invalid? <==> !mnemonicValid
      ensures result.Invalid? ==> && generatedAddress == []
                                  && unchanged(this`currentNo, this`currentChangeNo, this`generatedChangeAddress)
                                  && unchanged(session`storedMnemonic, session`mnemonicRoot, session`receivingData)
                                  && unchanged(session`storedAddress, session`changeData, session`changeAddress)
      ensures result.Processed? ==> && session.storedMnemonic == Some(mnemonic)
                                    && session.mnemonicRoot == Some(RootNode(mnemonic))
                                    && generatedAddress == Batch(receiveAt, old(currentNo))
      // The receiving branch looks addresses up in the batch it generated.
      ensures result.Processed? ==>
        var local := Batch(receiveAt, old(currentNo));
        Settled(Records(local, receivingReplies, local, ReceivePrefix, |local|),
                0 < |receivingReplies|, sort, result.receiving,
                session.receivingData, old(session.receivingData), currentNo, old(currentNo),
                session.storedAddress, old(session.storedAddress))
      // The change branch looks addresses up in the accumulated list, which starts
      // with the batch it generated; growing empties that list.
      ensures result.Processed? ==>
        var local := Batch(changeAt, old(currentChangeNo));
        var known := old(generatedChangeAddress) + local;
        && known[..|local|] == local
        && Settled(Records(local, changeReplies, known, ChangePrefix, |local|),
                   0 < |changeReplies|, sort, result.change,
                   session.changeData, old(session.changeData), currentChangeNo, old(currentChangeNo),
                   session.changeAddress, old(session.changeAddress))
        && generatedChangeAddress == (if result.change == Grow then [] else known)
      // With injective derivation, the change record of `changeAt(i)` has index `i`
      // and path `m/44'/1'/0'/1/i`, however many batches the list repeats.
      ensures result.Processed? && Injective(changeAt) && 0 < |changeReplies| ==>
        IndexedByDerivation(session.changeData, changeAt, ChangePrefix, old(currentChangeNo))
    {
      var ok, localReceiving, localChange := Generate();
      if ok {
        ghost var known := generatedChangeAddress;
        var receiving := ProcessReceiving(localReceiving, receivingReplies, sort);
        var change := ProcessChange(localChange, changeReplies, sort);
        result := Processed(receiving, change);
        if Injective(changeAt) {
          DerivedIndices(localChange, changeReplies, known, changeAt, ChangePrefix);
        }
      } else {
        result := Invalid;
      }
    }
  }
}
