/**
 * The send screen: keep the confirmed UTXOs, classify the coin-selection
 * result, fill the change address into outputs that lack one, sign input `i`
 * with the key of `inputs[i].derivePath`, broadcast, and on success mark the
 * change address used and step the active change address to the next sorted
 * key.
 */
module Send {
  import opened Wallet

  /** A UTXO as the session holds it (`txid`, `vout`, `value`, `status.confirmed`, `derivePath`). */
  datatype SessionUtxo = SessionUtxo(txid: string, vout: nat, value: nat, confirmed: bool, derivePath: string)

  /** The reshaped entry handed to coin selection. */
  datatype Utxo = Utxo(txId: string, vout: nat, value: nat, confirmed: bool, derivePath: string)

  /** A requested payment. */
  datatype Target = Target(address: string, value: int)

  /** A selected output; coin selection leaves `address` out of the change output. */
  datatype Output = Output(address: Option<string>, value: int)

  /** What coin selection returns: `inputs` and `outputs` are absent when no
      covering selection exists; `fee` is always there. */
  datatype Selection = Selection(inputs: Option<seq<Utxo>>, outputs: Option<seq<Output>>, fee: int)

  /** The result of `getUnsignedTransaction`. */
  datatype Unsigned = Failed(message: string, fee: int) | Ready(inputs: seq<Utxo>, outputs: seq<Output>, fee: int)

  datatype Outpoint = Outpoint(txId: string, vout: nat)
  datatype Signature = Signature(input: nat, key: string)

  /** What the transaction builder has been given, in call order. */
  datatype TxPlan = TxPlan(inputs: seq<Outpoint>, outputs: seq<Output>, signatures: seq<Signature>)

  /** The provider's answer to a broadcast: `{success: true}`, `{success: false, error}`,
      or a request that threw. */
  datatype BroadcastReply = Accepted | Rejected(message: string) | Unreachable

  /** `advanced` is false when the active change address has no record, so marking
      it throws and is swallowed. */
  datatype BroadcastOutcome = Sent(advanced: bool) | Refused(message: string) | Lost

  datatype SendOutcome =
    | MissingAddress
    | MissingAmount
    | InvalidRecipient
    | NotBuilt(message: string)
    | BuildError
    | NoHex
    | Broadcast(result: BroadcastOutcome)

  const InsufficientBalance: string := "Insufficient Balance"
  const WaitingForConfirmation: string := "Waiting for transaction to confirm. Please try after sometime."
  const DefaultFeePerByte: int := 2

  // ---------------------------------------------------------------------------
  // Confirmed UTXOs

  function Reshape(u: SessionUtxo): Utxo {
    Utxo(u.txid, u.vout, u.value, u.confirmed, u.derivePath)
  }

  /** The confirmed entries, reshaped, in their original order. Nothing
      unconfirmed gets through, and nothing is dropped exactly when every entry
      is confirmed. */
  function Confirmed(utxos: seq<SessionUtxo>): (r: seq<Utxo>)
    ensures |r| <= |utxos|
    ensures forall k :: 0 <= k < |r| ==> r[k].confirmed
    ensures |r| == |utxos| <==> forall j :: 0 <= j < |utxos| ==> utxos[j].confirmed
  {
    if |utxos| == 0 then []
    else
      var last := utxos[|utxos| - 1];
      Confirmed(utxos[..|utxos| - 1]) + (if last.confirmed then [Reshape(last)] else [])
  }

  /** The positions of the confirmed entries, ascending. */
  function ConfirmedPositions(utxos: seq<SessionUtxo>): seq<nat> {
    if |utxos| == 0 then []
    else
      ConfirmedPositions(utxos[..|utxos| - 1]) + (if utxos[|utxos| - 1].confirmed then [|utxos| - 1] else [])
  }

  /** The formatted list is exactly the confirmed entries, in their order, each
      with `txId`, `vout`, `value`, `confirmed` and `derivePath` copied. */
  lemma {:induction false} ConfirmedExactly(utxos: seq<SessionUtxo>)
    ensures var c, p := Confirmed(utxos), ConfirmedPositions(utxos);
      && |c| == |p|
      && (forall k :: 0 <= k < |p| ==> p[k] < |utxos| && utxos[p[k]].confirmed && c[k] == Reshape(utxos[p[k]]))
      && (forall k, l :: 0 <= k < l < |p| ==> p[k] < p[l])
      && (forall j :: 0 <= j < |utxos| && utxos[j].confirmed ==> j in p)
  {
    if |utxos| > 0 {
      var init := utxos[..|utxos| - 1];
      ConfirmedExactly(init);
      forall j | 0 <= j < |init| ensures utxos[j] == init[j] { }
    }
  }

  /** The `utxos.forEach(... push ...)` loop of `getUnsignedTransaction`. */
  method FormatUtxos(utxos: seq<SessionUtxo>) returns (formatted: seq<Utxo>)
    ensures formatted == Confirmed(utxos)
  {
    formatted := [];
    var i := 0;
    while i < |utxos|
      invariant 0 <= i <= |utxos|
      invariant formatted == Confirmed(utxos[..i])
    {
      assert utxos[..i + 1][..i] == utxos[..i];
      var u := utxos[i];
      if u.confirmed {
        formatted := formatted + [Utxo(u.txid, u.vout, u.value, u.confirmed, u.derivePath)];
      }
      i := i + 1;
    }
    assert utxos[..|utxos|] == utxos;
  }

  // ---------------------------------------------------------------------------
  // Classifying the selection

  predicate AllConfirmed(inputs: seq<Utxo>) {
    forall i :: 0 <= i < |inputs| ==> inputs[i].confirmed
  }

  /** Absent inputs or outputs mean insufficient balance; an unconfirmed input
      means waiting; otherwise the selection is ready. The fee is always carried. */
  function Classify(sel: Selection): (r: Unsigned)
    ensures r.fee == sel.fee
    ensures r.Ready? <==> sel.inputs.Some? && sel.outputs.Some? && AllConfirmed(sel.inputs.value)
    ensures r.Ready? ==> r.inputs == sel.inputs.value && r.outputs == sel.outputs.value
    ensures sel.inputs.None? || sel.outputs.None? ==> r.Failed? && r.message == InsufficientBalance
    ensures sel.inputs.Some? && sel.outputs.Some? && !AllConfirmed(sel.inputs.value) ==>
              r.Failed? && r.message == WaitingForConfirmation
  {
    if sel.inputs.None? || sel.outputs.None? then Failed(InsufficientBalance, sel.fee)
    else if exists i :: 0 <= i < |sel.inputs.value| && !sel.inputs.value[i].confirmed then
      Failed(WaitingForConfirmation, sel.fee)
    else Ready(sel.inputs.value, sel.outputs.value, sel.fee)
  }

  /** `getUnsignedTransaction(targets, feePerByte)`; `select` is the coin-selection library. */
  method GetUnsignedTransaction(utxos: seq<SessionUtxo>, targets: seq<Target>,
                                select: (seq<Utxo>, seq<Target>, int) -> Selection, feePerByte: int)
    returns (r: Unsigned)
    ensures r == Classify(select(Confirmed(utxos), targets, feePerByte))
  {
    var formatted := FormatUtxos(utxos);
    r := Classify(select(formatted, targets, feePerByte));
  }

  /** A selection whose inputs are drawn from the confirmed list it was given never
      yields the waiting-for-confirmation failure. */
  lemma DrawnFromConfirmedNeverWaits(utxos: seq<SessionUtxo>, sel: Selection)
    requires sel.inputs.Some? ==> forall x :: x in sel.inputs.value ==> x in Confirmed(utxos)
    ensures Classify(sel).Failed? ==> Classify(sel).message == InsufficientBalance
  {
    if sel.inputs.Some? {
      var ins := sel.inputs.value;
      var c := Confirmed(utxos);
      forall i | 0 <= i < |ins| ensures ins[i].confirmed {
        assert ins[i] in c;
        var k :| 0 <= k < |c| && c[k] == ins[i];
      }
    }
  }

  // ---------------------------------------------------------------------------
  // Building and signing

  /** JavaScript truthiness of `output.address`. */
  predicate HasAddress(o: Output) {
    o.address.Some? && o.address.value != ""
  }

  /** `if (!output.address) output.address = changeAddress`: the value is kept,
      an output with an address is left alone, any other gets the change address. */
  function Filled(o: Output, change: Option<string>): (r: Output)
    ensures r.value == o.value
    ensures HasAddress(o) ==> r == o
    ensures !HasAddress(o) ==> r.address == change
  {
    if HasAddress(o) then o else o.(address := change)
  }

  /** The outputs after the change address has been filled in. */
  function WithChange(outputs: seq<Output>, change: Option<string>): (r: seq<Output>)
    ensures |r| == |outputs|
    ensures forall i :: 0 <= i < |r| ==> r[i].value == outputs[i].value
    ensures forall i :: 0 <= i < |r| && HasAddress(outputs[i]) ==> r[i].address == outputs[i].address
    ensures forall i :: 0 <= i < |r| && !HasAddress(outputs[i]) ==> r[i].address == change
  {
    if |outputs| == 0 then []
    else WithChange(outputs[..|outputs| - 1], change) + [Filled(outputs[|outputs| - 1], change)]
  }

  /** With a non-empty change address every output ends up with an address, and
      filling a second time changes nothing. */
  lemma WithChangeComplete(outputs: seq<Output>, change: string)
    requires change != ""
    ensures forall i :: 0 <= i < |outputs| ==> HasAddress(WithChange(outputs, Some(change))[i])
    ensures WithChange(WithChange(outputs, Some(change)), Some(change)) == WithChange(outputs, Some(change))
  {
    var once := WithChange(outputs, Some(change));
    var twice := WithChange(once, Some(change));
    assert |twice| == |once|;
    forall i | 0 <= i < |once| ensures twice[i] == once[i] {
      assert HasAddress(once[i]);
    }
  }

  /** The `outputs.forEach` loop: fills the change address into the array in place
      and hands each output to the builder. */
  method AddOutputs(outputs: array<Output>, change: Option<string>) returns (added: seq<Output>)
    modifies outputs
    ensures outputs[..] == WithChange(old(outputs[..]), change)
    ensures added == outputs[..]
  {
    ghost var before := outputs[..];
    added := [];
    var i := 0;
    while i < outputs.Length
      invariant 0 <= i <= outputs.Length
      invariant forall j :: 0 <= j < i ==> outputs[j] == Filled(before[j], change)
      invariant forall j :: i <= j < outputs.Length ==> outputs[j] == before[j]
      invariant |added| == i
      invariant forall j :: 0 <= j < i ==> added[j] == outputs[j]
    {
      if !HasAddress(outputs[i]) {
        outputs[i] := outputs[i].(address := change);
      }
      added := added + [outputs[i]];
      i := i + 1;
    }
    ghost var after := WithChange(before, change);
    assert outputs[..] == after by {
      forall j | 0 <= j < outputs.Length ensures outputs[j] == after[j] {
        assert Filled(before[j], change).address == after[j].address;
      }
    }
  }

  /** The `inputs.forEach(addInput)` loop. */
  method AddInputs(inputs: seq<Utxo>) returns (added: seq<Outpoint>)
    ensures |added| == |inputs|
    ensures forall i :: 0 <= i < |inputs| ==> added[i] == Outpoint(inputs[i].txId, inputs[i].vout)
  {
    added := [];
    var i := 0;
    while i < |inputs|
      invariant 0 <= i <= |inputs|
      invariant |added| == i
      invariant forall j :: 0 <= j < i ==> added[j] == Outpoint(inputs[j].txId, inputs[j].vout)
    {
      added := added + [Outpoint(inputs[i].txId, inputs[i].vout)];
      i := i + 1;
    }
  }

  /** The signing loop: one signature per input, in order, input `i` with the key
      `keyAt` derives from the signing root and `inputs[i].derivePath`. */
  method SignInputs(inputs: seq<Utxo>, root: string, keyAt: (string, string) -> string)
    returns (signatures: seq<Signature>)
    ensures |signatures| == |inputs|
    ensures forall i :: 0 <= i < |inputs| ==> signatures[i] == Signature(i, keyAt(root, inputs[i].derivePath))
  {
    signatures := [];
    var i := 0;
    while i < |inputs|
      invariant 0 <= i <= |inputs|
      invariant |signatures| == i
      invariant forall j :: 0 <= j < i ==> signatures[j] == Signature(j, keyAt(root, inputs[j].derivePath))
    {
      signatures := signatures + [Signature(i, keyAt(root, inputs[i].derivePath))];
      i := i + 1;
    }
  }

  /** What the builder receives for a ready selection and a signing root. */
  ghost predicate IsPlanFor(plan: TxPlan, inputs: seq<Utxo>, outputs: seq<Output>,
                            change: Option<string>, root: string, keyAt: (string, string) -> string)
  {
    && |plan.inputs| == |inputs|
    && (forall i :: 0 <= i < |inputs| ==> plan.inputs[i] == Outpoint(inputs[i].txId, inputs[i].vout))
    && plan.outputs == WithChange(outputs, change)
    && |plan.signatures| == |inputs|
    && (forall i :: 0 <= i < |inputs| ==> plan.signatures[i] == Signature(i, keyAt(root, inputs[i].derivePath)))
  }

  /** The builder calls for a ready selection: inputs, outputs with the change
      address filled in, then one signature per input. */
  method BuildPlan(inputs: seq<Utxo>, outputs: seq<Output>, change: Option<string>,
                   root: string, keyAt: (string, string) -> string)
    returns (plan: TxPlan)
    ensures IsPlanFor(plan, inputs, outputs, change, root, keyAt)
  {
    var ins := AddInputs(inputs);
    var arr := new Output[|outputs|](i requires 0 <= i < |outputs| => outputs[i]);
    assert arr[..] == outputs;
    var outs := AddOutputs(arr, change);
    var sigs := SignInputs(inputs, root, keyAt);
    plan := TxPlan(ins, outs, sigs);
  }

  // ---------------------------------------------------------------------------
  // Broadcast and the change-address step

  /** The change map after `newUsedAndUnusedData[changeAddress].is_used = true`. */
  function MarkUsed(m: map<string, Record>, key: string): (r: map<string, Record>)
    requires key in m
    ensures r.Keys == m.Keys
    ensures r[key].isUsed
    ensures r[key] == m[key].(isUsed := true)
    ensures forall k :: k in m && k != key ==> r[k] == m[k]
  {
    m[key := m[key].(isUsed := true)]
  }

  /** Marking never turns a used record unused, and the marked map is all-used
      exactly when every other record already was. */
  lemma MarkUsedMonotone(m: map<string, Record>, key: string)
    requires key in m
    ensures forall k :: k in m && m[k].isUsed ==> MarkUsed(m, key)[k].isUsed
    ensures AllUsed(MarkUsed(m, key)) <==> forall k :: k in m && k != key ==> m[k].isUsed
  {
  }

  /** `Object.keys(sortTransaction(m))[index + 1]`: present exactly when the
      position is in range, and then one of the keys; absent (undefined) otherwise. */
  function NextChangeAddress(keys: seq<string>, index: int): (next: Option<string>)
    ensures next.Some? <==> 0 <= index + 1 < |keys|
    ensures next.Some? ==> next.value in keys
  {
    if 0 <= index + 1 < |keys| then Some(keys[index + 1]) else None
  }

  /** When sorted positions and indices agree, the new change address is the
      record whose index is one more than the old one's, or absent when the old
      one was last. */
  lemma NextChangeFollowsIndex(keys: seq<string>, m: map<string, Record>, key: string)
    requires IsSortedKeys(keys, m)
    requires forall i :: 0 <= i < |keys| ==> m[keys[i]].index == i
    requires key in m
    ensures var next := NextChangeAddress(keys, m[key].index);
      && (m[key].index + 1 < |keys| ==> next.Some? && next.value in m && m[next.value].index == m[key].index + 1)
      && (m[key].index + 1 >= |keys| ==> next.None?)
  {
    var j :| 0 <= j < |keys| && keys[j] == key;
    assert m[key].index == j;
  }

  /** The step is to index + 1, not to the next unused record: the new change
      address may already be used. */
  lemma NextChangeMayBeUsed()
    ensures var marked := MarkUsed(map["a" := Record(false, 0, "a", "m/44'/1'/0'/1/0"),
                                       "b" := Record(true, 1, "b", "m/44'/1'/0'/1/1"),
                                       "c" := Record(false, 2, "c", "m/44'/1'/0'/1/2")], "a");
      && !AllUsed(marked)
      && NextChangeAddress(["a", "b", "c"], marked["a"].index) == Some("b")
      && marked["b"].isUsed
  {
    var marked := MarkUsed(map["a" := Record(false, 0, "a", "m/44'/1'/0'/1/0"),
                               "b" := Record(true, 1, "b", "m/44'/1'/0'/1/1"),
                               "c" := Record(false, 2, "c", "m/44'/1'/0'/1/2")], "a");
    assert "c" in marked && !marked["c"].isUsed;
  }

  /** The session fields the send screen never writes. */
  twostate predicate LoginStateUnchanged(s: Session)
    reads s
  {
    unchanged(s`storedMnemonic, s`mnemonicRoot, s`receivingData, s`storedAddress)
  }

  /** The effect of `broadcastRawTransaction` on the change state. */
  twostate predicate BroadcastEffect(s: Session, reply: BroadcastReply,
                                     sort: map<string, Record> -> seq<string>, outcome: BroadcastOutcome)
    reads s
  {
    && LoginStateUnchanged(s)
    && match reply
       case Unreachable =>
         outcome == Lost && unchanged(s`changeData, s`changeAddress)
       case Rejected(message) =>
         outcome == Refused(message) && unchanged(s`changeData, s`changeAddress)
       case Accepted =>
         if old(s.changeAddress).Some? && old(s.changeAddress).value in old(s.changeData) then
           var key := old(s.changeAddress).value;
           var marked := MarkUsed(old(s.changeData), key);
           && outcome == Sent(true)
           && s.changeData == marked
           && s.changeAddress == (if AllUsed(marked) then old(s.changeAddress)
                                  else NextChangeAddress(sort(marked), marked[key].index))
         else
           outcome == Sent(false) && unchanged(s`changeData, s`changeAddress)
  }

  /** Whatever the reply, a broadcast keeps the change map's keys, never turns a
      used record unused, and leaves the active change address as it was, absent,
      or a key of the change map. */
  twostate lemma BroadcastKeepsChangeState(s: Session, reply: BroadcastReply,
                                           sort: map<string, Record> -> seq<string>, outcome: BroadcastOutcome)
    requires SortsByIndex(sort)
    requires BroadcastEffect(s, reply, sort, outcome)
    ensures s.changeData.Keys == old(s.changeData).Keys
    ensures forall k :: k in old(s.changeData) && old(s.changeData)[k].isUsed ==> s.changeData[k].isUsed
    ensures s.changeAddress == old(s.changeAddress) || s.changeAddress.None? || s.changeAddress.value in s.changeData
  {
  }

  /** `broadcastRawTransaction(hex)` given the provider's reply. */
  method BroadcastRawTransaction(s: Session, reply: BroadcastReply, sort: map<string, Record> -> seq<string>)
    returns (outcome: BroadcastOutcome)
    requires SortsByIndex(sort)
    modifies s
    ensures BroadcastEffect(s, reply, sort, outcome)
  {
    match reply {
      case Unreachable =>
        outcome := Lost;
      case Rejected(message) =>
        outcome := Refused(message);
      case Accepted =>
        if s.changeAddress.None? || s.changeAddress.value !in s.changeData {
          outcome := Sent(false);
          return;
        }
        var key := s.changeAddress.value;
        var marked := MarkUsed(s.changeData, key);
        s.changeData := marked;
        var keys := sort(marked);
        var used := CountUsed(keys, marked);
        KeyListLength(keys, marked);
        if used != |keys| {
          s.changeAddress := NextChangeAddress(keys, marked[key].index);
        }
        outcome := Sent(true);
    }
  }

  // ---------------------------------------------------------------------------
  // The send button

  /** `String.prototype.trim`: white space and line terminators. */
  predicate IsSpace(c: char) {
    || c == '\t' || c == '\n' || c == '\U{000B}' || c == '\U{000C}' || c == '\r' || c == ' '
    || c == '\U{00A0}' || c == '\U{1680}' || ('\U{2000}' <= c <= '\U{200A}')
    || c == '\U{2028}' || c == '\U{2029}' || c == '\U{202F}' || c == '\U{205F}'
    || c == '\U{3000}' || c == '\U{FEFF}'
  }

  /** The number of white-space characters `s` starts with. */
  function SpaceStart(s: string, i: nat): (a: nat)
    requires i <= |s|
    requires forall j :: 0 <= j < i ==> IsSpace(s[j])
    ensures i <= a <= |s|
    ensures forall j :: 0 <= j < a ==> IsSpace(s[j])
    ensures a == |s| || !IsSpace(s[a])
    decreases |s| - i
  {
    if i < |s| && IsSpace(s[i]) then SpaceStart(s, i + 1) else i
  }

  /** The end of `s` once the white space it ends with (down to `a`) is dropped. */
  function SpaceEnd(s: string, a: nat, b: nat): (e: nat)
    requires a <= b <= |s|
    requires forall j :: b <= j < |s| ==> IsSpace(s[j])
    ensures a <= e <= b
    ensures forall j :: e <= j < |s| ==> IsSpace(s[j])
    ensures e == a || !IsSpace(s[e - 1])
    decreases b
  {
    if a < b && IsSpace(s[b - 1]) then SpaceEnd(s, a, b - 1) else b
  }

  /** `String.prototype.trim`: drops white space, and only white space, from both
      ends and leaves neither end white. */
  function Trim(s: string): (r: string)
    ensures exists a, b :: 0 <= a <= b <= |s| && r == s[a..b]
                        && (forall i :: 0 <= i < a ==> IsSpace(s[i]))
                        && (forall i :: b <= i < |s| ==> IsSpace(s[i]))
    ensures r == [] || (!IsSpace(r[0]) && !IsSpace(r[|r| - 1]))
  {
    var a := SpaceStart(s, 0);
    var b := SpaceEnd(s, a, |s|);
    s[a..b]
  }

  /** `handleSendBtn`. The recipient check (`getBitcoinDetails`) is `recipientValid`,
      `parseInt(amount)` is `amountValue` and coin selection is `select`.
      `signingRoot` stands for `bitcoin.bip32.fromSeed(bip39.mnemonicToSeedSync(mnemonicRoot))`
      applied to the published root node (absent when either call throws), `keyAt`
      for `root.derivePath(path).toWIF()`, `build().toHex()` is `serialize` (absent
      when it throws) and the provider's answer is `reply`. The signing root is
      computed before the builder calls rather than between the output and the
      signing loops; neither step has an effect the other can see. */
  method HandleSendBtn(s: Session, address: string, amount: string, recipientValid: bool, amountValue: int,
                       utxos: seq<SessionUtxo>, select: (seq<Utxo>, seq<Target>, int) -> Selection,
                       signingRoot: Option<RootNode> -> Option<string>, keyAt: (string, string) -> string,
                       serialize: TxPlan -> Option<string>,
                       reply: BroadcastReply, sort: map<string, Record> -> seq<string>)
    returns (outcome: SendOutcome, plan: Option<TxPlan>)
    requires SortsByIndex(sort)
    modifies s
    ensures address == "" ==> outcome == MissingAddress
    ensures address != "" && amount == "" ==> outcome == MissingAmount
    ensures address != "" && amount != "" && !recipientValid ==> outcome == InvalidRecipient
    ensures address == "" || amount == "" || !recipientValid ==> plan.None?
    ensures var r := Classify(select(Confirmed(utxos), [Target(Trim(address), amountValue)], DefaultFeePerByte));
      address != "" && amount != "" && recipientValid ==>
        && (r.Failed? ==> outcome == NotBuilt(r.message) && plan.None?)
        && (r.Ready? ==>
              var root := signingRoot(old(s.mnemonicRoot));
              && (root.None? ==> outcome == BuildError && plan.None?)
              && (root.Some? ==>
                    && plan.Some?
                    && IsPlanFor(plan.value, r.inputs, r.outputs, old(s.changeAddress), root.value, keyAt)
                    && (serialize(plan.value).None? ==> outcome == BuildError)
                    && (serialize(plan.value) == Some("") ==> outcome == NoHex)
                    && (serialize(plan.value).Some? && serialize(plan.value).value != "" ==> outcome.Broadcast?)))
    ensures !outcome.Broadcast? ==> LoginStateUnchanged(s) && unchanged(s`changeData, s`changeAddress)
    ensures outcome.Broadcast? ==> BroadcastEffect(s, reply, sort, outcome.result)
  {
    if address == "" {
      return MissingAddress, None;
    }
    if amount == "" {
      return MissingAmount, None;
    }
    if !recipientValid {
      return InvalidRecipient, None;
    }
    var targets := [Target(Trim(address), amountValue)];
    var r := GetUnsignedTransaction(utxos, targets, select, DefaultFeePerByte);
    if r.Failed? {
      return NotBuilt(r.message), None;
    }
    var root := signingRoot(s.mnemonicRoot);
    if root.None? {
      return BuildError, None;
    }
    var built := BuildPlan(r.inputs, r.outputs, s.changeAddress, root.value, keyAt);
    plan := Some(built);
    var hex := serialize(built);
    if hex.None? {
      return BuildError, plan;
    }
    if hex.value == "" {
      return NoHex, plan;
    }
    var result := BroadcastRawTransaction(s, reply, sort);
    outcome := Broadcast(result);
  }
}
