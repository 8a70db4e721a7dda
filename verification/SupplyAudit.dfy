/**
 * Supply accounting (scripts/gauntlet-devnet.py:114-140, 215-252): the amount one transaction burned,
 * recovered from the supply before and after its block.
 */
module SupplyAudit {
  import opened Wrappers

  datatype Outpoint = Outpoint(txHash: nat, index: nat)

  /** An input names the output it spends; the node may or may not state the amount inline. */
  datatype Input = Input(prev: Outpoint, amount: Option<nat>)
  datatype Tx = Tx(coinbase: bool, hash: nat, inputs: seq<Input>, outputs: seq<nat>)

  datatype Audit = Removed(amount: int) | SubjectMissing | Unresolved(inputs: seq<Outpoint>)

  // ----- the ledger -----

  type Utxos = map<Outpoint, nat>

  /** `totalSupply`: the sum of all unspent amounts. */
  ghost function Supply(u: Utxos): nat
    decreases |u|
  {
    if u == map[] then 0
    else
      var o :| o in u;
      u[o] + Supply(u - {o})
  }

  lemma {:induction false} SupplyTake(u: Utxos, o: Outpoint)
    requires o in u
    ensures Supply(u) == u[o] + Supply(u - {o})
    decreases |u|
  {
    var p :| p in u && Supply(u) == u[p] + Supply(u - {p});
    if p != o {
      SupplyTake(u - {p}, o);
      SupplyTake(u - {o}, p);
      assert u - {p} - {o} == u - {o} - {p};
    }
  }

  lemma SupplyPut(u: Utxos, o: Outpoint, v: nat)
    requires o !in u
    ensures Supply(u[o := v]) == Supply(u) + v
  {
    SupplyTake(u[o := v], o);
    assert u[o := v] - {o} == u;
  }

  function Sum(amounts: seq<nat>): nat {
    if amounts == [] then 0 else amounts[0] + Sum(amounts[1..])
  }

  /** Spends the first n inputs: each must be there, and an inline amount must be the true one. */
  function SpendFrom(u: Utxos, inputs: seq<Input>): Option<(Utxos, nat)> {
    if inputs == [] then Some((u, 0))
    else
      var o := inputs[0].prev;
      if o !in u || (inputs[0].amount.Some? && inputs[0].amount.value != u[o]) then None
      else
        match SpendFrom(u - {o}, inputs[1..])
        case None => None
        case Some((v, total)) => Some((v, u[o] + total))
  }

  function CreateFrom(u: Utxos, hash: nat, outputs: seq<nat>, first: nat): Option<Utxos>
    requires first <= |outputs|
    decreases |outputs| - first
  {
    if first == |outputs| then Some(u)
    else if Outpoint(hash, first) in u then None
    else CreateFrom(u[Outpoint(hash, first) := outputs[first]], hash, outputs, first + 1)
  }

  /** A coinbase mints; anything else spends its inputs and creates its outputs. */
  function Execute(u: Utxos, t: Tx): Option<(Utxos, nat)> {
    var spent: Option<(Utxos, nat)> := if t.coinbase then Some((u, 0)) else SpendFrom(u, t.inputs);
    match spent
    case None => None
    case Some((v, total)) =>
      match CreateFrom(v, t.hash, t.outputs, 0)
      case None => None
      case Some(w) => Some((w, total))
  }

  /**
   * The block, transaction by transaction, so later ones may spend what earlier ones created; with each input
   * total.
   */
  function ExecuteAll(u: Utxos, txs: seq<Tx>): Option<(Utxos, seq<nat>)>
    decreases |txs|
  {
    if txs == [] then Some((u, []))
    else
      match Execute(u, txs[0])
      case None => None
      case Some((v, total)) =>
        match ExecuteAll(v, txs[1..])
        case None => None
        case Some((w, totals)) => Some((w, [total] + totals))
  }

  lemma {:induction false} SpendSupply(u: Utxos, inputs: seq<Input>)
    ensures match SpendFrom(u, inputs) case None => true case Some((v, total)) => Supply(u) == Supply(v) + total
    decreases |inputs|
  {
    if inputs != [] && inputs[0].prev in u {
      SupplyTake(u, inputs[0].prev);
      SpendSupply(u - {inputs[0].prev}, inputs[1..]);
    }
  }

  lemma {:induction false} CreateSupply(u: Utxos, hash: nat, outputs: seq<nat>, first: nat)
    requires first <= |outputs|
    ensures match CreateFrom(u, hash, outputs, first)
            case None => true
            case Some(v) => Supply(v) == Supply(u) + Sum(outputs[first..])
    decreases |outputs| - first
  {
    if first < |outputs| && Outpoint(hash, first) !in u {
      SupplyPut(u, Outpoint(hash, first), outputs[first]);
      CreateSupply(u[Outpoint(hash, first) := outputs[first]], hash, outputs, first + 1);
      assert outputs[first..][1..] == outputs[first + 1..];
    }
  }

  lemma ExecuteSupply(u: Utxos, t: Tx)
    ensures match Execute(u, t)
            case None => true
            case Some((w, total)) => Supply(w) + total == Supply(u) + Sum(t.outputs)
  {
    SpendSupply(u, t.inputs);
    var spent: Option<(Utxos, nat)> := if t.coinbase then Some((u, 0)) else SpendFrom(u, t.inputs);
    if spent.Some? { CreateSupply(spent.value.0, t.hash, t.outputs, 0); }
    assert t.outputs[0..] == t.outputs;
  }

  /** Sum over the block of what each transaction destroyed. */
  function NetBurn(txs: seq<Tx>, totals: seq<nat>): int
    requires |txs| == |totals|
  {
    if txs == [] then 0 else totals[0] - Sum(txs[0].outputs) + NetBurn(txs[1..], totals[1..])
  }

  /** The supply falls by exactly what the block's transactions took in and did not pay out. */
  lemma {:induction false} BlockSupply(u: Utxos, txs: seq<Tx>)
    ensures match ExecuteAll(u, txs)
            case None => true
            case Some((w, totals)) => |totals| == |txs| && Supply(u) - Supply(w) == NetBurn(txs, totals)
    decreases |txs|
  {
    if txs != [] && Execute(u, txs[0]).Some? {
      ExecuteSupply(u, txs[0]);
      BlockSupply(Execute(u, txs[0]).value.0, txs[1..]);
      var r := ExecuteAll(u, txs);
      if r.Some? { assert r.value.1[1..] == ExecuteAll(Execute(u, txs[0]).value.0, txs[1..]).value.1; }
    }
  }

  // ----- the audit -----

  function InputAmount(i: Input, idx: Utxos): Option<nat> {
    if i.amount.Some? then i.amount else if i.prev in idx then Some(idx[i.prev]) else None
  }

  function KnownTotal(inputs: seq<Input>, idx: Utxos): nat {
    if inputs == [] then 0
    else (match InputAmount(inputs[0], idx) case Some(v) => v case None => 0) + KnownTotal(inputs[1..], idx)
  }

  function Missing(inputs: seq<Input>, idx: Utxos): seq<Outpoint> {
    if inputs == [] then []
    else (if InputAmount(inputs[0], idx).None? then [inputs[0].prev] else []) + Missing(inputs[1..], idx)
  }

  predicate Counted(t: Tx, subject: nat) { !t.coinbase && t.hash != subject }

  predicate IsSubject(t: Tx, subject: nat) { !t.coinbase && t.hash == subject }

  function TxIssued(t: Tx): nat { if t.coinbase then Sum(t.outputs) else 0 }

  function TxOther(t: Tx, subject: nat, idx: Utxos): int {
    if Counted(t, subject) then KnownTotal(t.inputs, idx) - Sum(t.outputs) else 0
  }

  function TxMissing(t: Tx, subject: nat, idx: Utxos): seq<Outpoint> {
    if Counted(t, subject) then Missing(t.inputs, idx) else []
  }

  function Issued(txs: seq<Tx>): nat {
    if txs == [] then 0 else TxIssued(txs[0]) + Issued(txs[1..])
  }

  function Other(txs: seq<Tx>, subject: nat, idx: Utxos): int {
    if txs == [] then 0 else TxOther(txs[0], subject, idx) + Other(txs[1..], subject, idx)
  }

  function AllMissing(txs: seq<Tx>, subject: nat, idx: Utxos): seq<Outpoint> {
    if txs == [] then [] else TxMissing(txs[0], subject, idx) + AllMissing(txs[1..], subject, idx)
  }

  predicate HasSubject(txs: seq<Tx>, subject: nat) {
    exists i :: 0 <= i < |txs| && IsSubject(txs[i], subject)
  }

  method OutSum(outputs: seq<nat>) returns (total: nat)
    ensures total == Sum(outputs)
  {
    total := 0;
    for k := 0 to |outputs|
      invariant total + Sum(outputs[k..]) == Sum(outputs)
    {
      assert outputs[k..][1..] == outputs[k + 1..];
      total := total + outputs[k];
    }
  }

  method InSum(inputs: seq<Input>, idx: Utxos) returns (total: nat, unresolved: seq<Outpoint>)
    ensures total == KnownTotal(inputs, idx) && unresolved == Missing(inputs, idx)
  {
    total, unresolved := 0, [];
    assert inputs[0..] == inputs;
    hide KnownTotal, Missing, InputAmount;
    for k := 0 to |inputs|
      invariant total + KnownTotal(inputs[k..], idx) == KnownTotal(inputs, idx)
      invariant unresolved + Missing(inputs[k..], idx) == Missing(inputs, idx)
    {
      FirstInput(inputs[k..], idx);
      assert inputs[k..][1..] == inputs[k + 1..];
      match InputAmount(inputs[k], idx)
      case Some(v) => total := total + v;
      case None =>
        assert unresolved + ([inputs[k].prev] + Missing(inputs[k + 1..], idx))
               == unresolved + [inputs[k].prev] + Missing(inputs[k + 1..], idx);
        unresolved := unresolved + [inputs[k].prev];
    }
    NoInputs(idx);
    assert inputs[|inputs|..] == [] && unresolved + [] == unresolved;
  }

  lemma NoInputs(idx: Utxos)
    ensures KnownTotal([], idx) == 0 && Missing([], idx) == []
  {
  }

  lemma FirstInput(inputs: seq<Input>, idx: Utxos)
    requires inputs != []
    ensures match InputAmount(inputs[0], idx)
            case Some(v) =>
              && KnownTotal(inputs, idx) == v + KnownTotal(inputs[1..], idx)
              && Missing(inputs, idx) == Missing(inputs[1..], idx)
            case None =>
              && KnownTotal(inputs, idx) == KnownTotal(inputs[1..], idx)
              && Missing(inputs, idx) == [inputs[0].prev] + Missing(inputs[1..], idx)
  {
    assert [] + Missing(inputs[1..], idx) == Missing(inputs[1..], idx);
  }

  lemma SubjectNotSeen(txs: seq<Tx>, subject: nat)
    ensures !HasSubject(txs[..0], subject)
  {
  }

  lemma SubjectStep(txs: seq<Tx>, k: nat, subject: nat)
    requires k < |txs|
    ensures HasSubject(txs[..k + 1], subject) <==> HasSubject(txs[..k], subject) || IsSubject(txs[k], subject)
  {
    assert forall i :: 0 <= i < k ==> txs[..k + 1][i] == txs[..k][i];
  }

  /** One transaction's part in the accounting. */
  method Account(t: Tx, subject: nat, idx: Utxos) returns (found: bool, issued: nat, other: int, missing: seq<Outpoint>)
    ensures found <==> IsSubject(t, subject)
    ensures issued == TxIssued(t) && other == TxOther(t, subject, idx) && missing == TxMissing(t, subject, idx)
  {
    found, issued, other, missing := false, 0, 0, [];
    var paid := OutSum(t.outputs);
    if t.coinbase {
      issued := paid;
    } else if t.hash == subject {
      found := true;
    } else {
      var total, unresolved := InSum(t.inputs, idx);
      missing := unresolved;
      other := other + total - paid;
    }
  }

  /** The audit's verdict, as a value. */
  function AuditOf(txs: seq<Tx>, supplyPrev: int, supplyH: int, subject: nat, idx: Utxos): Audit {
    if !HasSubject(txs, subject) then SubjectMissing
    else if AllMissing(txs, subject, idx) != [] then Unresolved(AllMissing(txs, subject, idx))
    else Removed(supplyPrev - supplyH + Issued(txs) - Other(txs, subject, idx))
  }

  /** `cmd_removed`, given the block, the two supply readings and the index of known outputs. */
  method CmdRemoved(txs: seq<Tx>, supplyPrev: int, supplyH: int, subject: nat, idx: Utxos) returns (r: Audit)
    ensures r == AuditOf(txs, supplyPrev, supplyH, subject, idx)
  {
    hide HasSubject, IsSubject, TxIssued, TxOther, TxMissing;
    var issued, found := 0, false;
    var other: int := 0;
    var unresolved := [];
    SubjectNotSeen(txs, subject);
    for k := 0 to |txs|
      invariant issued + Issued(txs[k..]) == Issued(txs)
      invariant other + Other(txs[k..], subject, idx) == Other(txs, subject, idx)
      invariant unresolved + AllMissing(txs[k..], subject, idx) == AllMissing(txs, subject, idx)
      invariant found <==> HasSubject(txs[..k], subject)
    {
      assert txs[k..][0] == txs[k] && txs[k..][1..] == txs[k + 1..];
      SubjectStep(txs, k, subject);
      var isSubject, paid, net, missing := Account(txs[k], subject, idx);
      found, issued, other, unresolved := found || isSubject, issued + paid, other + net, unresolved + missing;
    }
    assert txs[..|txs|] == txs;
    if !found { return SubjectMissing; }
    if unresolved != [] { return Unresolved(unresolved); }
    return Removed(supplyPrev - supplyH + issued - other);
  }

  /** The input's amount is neither stated nor in the index. */
  predicate Unpriced(t: Tx, subject: nat, idx: Utxos, o: Outpoint) {
    && !t.coinbase && t.hash != subject
    && exists i :: 0 <= i < |t.inputs| && t.inputs[i].prev == o && t.inputs[i].amount == None && o !in idx
  }

  lemma {:induction false} MissingExact(inputs: seq<Input>, idx: Utxos, o: Outpoint)
    ensures o in Missing(inputs, idx)
            <==> exists i :: 0 <= i < |inputs| && inputs[i].prev == o && inputs[i].amount == None && o !in idx
  {
    if inputs != [] {
      MissingExact(inputs[1..], idx, o);
      if i :| 0 <= i < |inputs| && inputs[i].prev == o && inputs[i].amount == None && o !in idx {
        if i > 0 { assert inputs[1..][i - 1] == inputs[i]; }
      }
      if i :| 0 <= i < |inputs| - 1 && inputs[1..][i].prev == o && inputs[1..][i].amount == None && o !in idx {
        assert inputs[i + 1] == inputs[1..][i];
      }
    }
  }

  predicate UnpricedIn(txs: seq<Tx>, subject: nat, idx: Utxos, o: Outpoint) {
    exists k :: 0 <= k < |txs| && Unpriced(txs[k], subject, idx, o)
  }

  lemma FirstUnpriced(txs: seq<Tx>, subject: nat, idx: Utxos, o: Outpoint)
    requires txs != []
    ensures UnpricedIn(txs, subject, idx, o)
            <==> Unpriced(txs[0], subject, idx, o) || UnpricedIn(txs[1..], subject, idx, o)
  {
    hide Unpriced;
    if k :| 0 <= k < |txs| && Unpriced(txs[k], subject, idx, o) {
      if k > 0 { assert txs[1..][k - 1] == txs[k]; }
    }
    if k :| 0 <= k < |txs| - 1 && Unpriced(txs[1..][k], subject, idx, o) { assert txs[k + 1] == txs[1..][k]; }
  }

  lemma {:induction false} AllMissingExact(txs: seq<Tx>, subject: nat, idx: Utxos, o: Outpoint)
    ensures o in AllMissing(txs, subject, idx) <==> UnpricedIn(txs, subject, idx, o)
  {
    if txs != [] {
      AllMissingExact(txs[1..], subject, idx, o);
      MissingExact(txs[0].inputs, idx, o);
      FirstUnpriced(txs, subject, idx, o);
      hide Missing, UnpricedIn;
    }
  }

  /** Listed are the inputs in block order: those of earlier transactions first. */
  lemma {:induction false} MissingInOrder(a: seq<Tx>, b: seq<Tx>, subject: nat, idx: Utxos)
    ensures AllMissing(a + b, subject, idx) == AllMissing(a, subject, idx) + AllMissing(b, subject, idx)
    decreases |a|
  {
    if a == [] {
      assert a + b == b;
      var z := AllMissing(b, subject, idx);
      hide AllMissing;
      NoneMissing(subject, idx);
      assert [] + z == z;
    } else {
      hide AllMissing, TxMissing;
      MissingInOrder(a[1..], b, subject, idx);
      MissingStep(a, b, subject, idx);
    }
  }

  lemma MissingStep(a: seq<Tx>, b: seq<Tx>, subject: nat, idx: Utxos)
    requires a != []
    ensures AllMissing(a + b, subject, idx) == TxMissing(a[0], subject, idx) + AllMissing(a[1..] + b, subject, idx)
    ensures AllMissing(a, subject, idx) + AllMissing(b, subject, idx)
            == TxMissing(a[0], subject, idx) + (AllMissing(a[1..], subject, idx) + AllMissing(b, subject, idx))
  {
    hide AllMissing, TxMissing;
    FirstMissing(a, subject, idx);
    FirstMissing(a + b, subject, idx);
    assert (a + b)[1..] == a[1..] + b;
  }

  lemma NoneMissing(subject: nat, idx: Utxos)
    ensures AllMissing([], subject, idx) == []
  {
  }

  lemma FirstMissing(txs: seq<Tx>, subject: nat, idx: Utxos)
    requires txs != []
    ensures AllMissing(txs, subject, idx) == TxMissing(txs[0], subject, idx) + AllMissing(txs[1..], subject, idx)
  {
  }

  /** A transaction of the block, not a coinbase, has the hash. */
  predicate Stands(txs: seq<Tx>, hash: nat) { exists k :: 0 <= k < |txs| && !txs[k].coinbase && txs[k].hash == hash }

  lemma SubjectStands(txs: seq<Tx>, subject: nat)
    ensures HasSubject(txs, subject) <==> Stands(txs, subject)
  {
    if i :| 0 <= i < |txs| && IsSubject(txs[i], subject) { assert !txs[i].coinbase; }
    if k :| 0 <= k < |txs| && !txs[k].coinbase && txs[k].hash == subject { assert IsSubject(txs[k], subject); }
  }

  /** When the audit refuses: the subject does not stand in the block; it does, and an input there is unpriced. */
  lemma RefusedExact(txs: seq<Tx>, supplyPrev: int, supplyH: int, subject: nat, idx: Utxos)
    ensures var r := AuditOf(txs, supplyPrev, supplyH, subject, idx);
            && (r.SubjectMissing? <==> !Stands(txs, subject))
            && (r.Unresolved? <==> Stands(txs, subject) && exists o :: UnpricedIn(txs, subject, idx, o))
            && (r.Unresolved? ==> forall o :: o in r.inputs <==> UnpricedIn(txs, subject, idx, o))
  {
    SubjectStands(txs, subject);
    forall o ensures o in AllMissing(txs, subject, idx) <==> UnpricedIn(txs, subject, idx, o) {
      AllMissingExact(txs, subject, idx, o);
    }
    var all := AllMissing(txs, subject, idx);
    hide AllMissing, UnpricedIn, Stands, HasSubject;
    if all != [] { assert all[0] in all; }
  }

  /** Where one transaction of the block is the subject, its burn is what it took in less what it pays. */
  lemma {:induction false} SubjectBurnExact(txs: seq<Tx>, totals: seq<nat>, subject: nat, k: nat)
    requires |txs| == |totals| && k < |txs|
    requires forall i :: 0 <= i < |txs| ==> (!txs[i].coinbase && txs[i].hash == subject <==> i == k)
    ensures SubjectBurn(txs, totals, subject) == totals[k] - Sum(txs[k].outputs)
  {
    assert forall i :: 0 <= i < |txs| - 1 ==> txs[1..][i] == txs[i + 1];
    if k > 0 {
      SubjectBurnExact(txs[1..], totals[1..], subject, k - 1);
    } else {
      NoSubject(txs[1..], totals[1..], subject);
    }
  }

  lemma {:induction false} NoSubject(txs: seq<Tx>, totals: seq<nat>, subject: nat)
    requires |txs| == |totals| && forall i :: 0 <= i < |txs| ==> txs[i].coinbase || txs[i].hash != subject
    ensures SubjectBurn(txs, totals, subject) == 0
  {
    if txs != [] {
      assert forall i :: 0 <= i < |txs| - 1 ==> txs[1..][i] == txs[i + 1];
      NoSubject(txs[1..], totals[1..], subject);
    }
  }

  /** The index states the amount of whatever the block spends without an inline amount. */
  ghost predicate IndexTrue(u: Utxos, txs: seq<Tx>, idx: Utxos)
    decreases |txs|
  {
    txs == [] ||
    (Execute(u, txs[0]).Some?
     && (!txs[0].coinbase ==> SpendTrue(u, txs[0].inputs, idx))
     && IndexTrue(Execute(u, txs[0]).value.0, txs[1..], idx))
  }

  ghost predicate SpendTrue(u: Utxos, inputs: seq<Input>, idx: Utxos)
    decreases |inputs|
  {
    inputs == [] ||
    ((inputs[0].prev in u && inputs[0].prev in idx ==> idx[inputs[0].prev] == u[inputs[0].prev])
     && SpendTrue(u - {inputs[0].prev}, inputs[1..], idx))
  }

  ghost predicate Agrees(u: Utxos, idx: Utxos) {
    forall o :: o in u && o in idx ==> u[o] == idx[o]
  }

  predicate Indexed(t: Tx, idx: Utxos) {
    forall i :: 0 <= i < |t.outputs| && Outpoint(t.hash, i) in idx ==> idx[Outpoint(t.hash, i)] == t.outputs[i]
  }

  lemma {:induction false} SpendAgrees(u: Utxos, inputs: seq<Input>, idx: Utxos)
    requires Agrees(u, idx)
    ensures SpendTrue(u, inputs, idx)
    ensures SpendFrom(u, inputs).Some? ==> Agrees(SpendFrom(u, inputs).value.0, idx)
    decreases |inputs|
  {
    if inputs != [] { SpendAgrees(u - {inputs[0].prev}, inputs[1..], idx); }
  }

  lemma {:induction false} CreateAgrees(u: Utxos, t: Tx, first: nat, idx: Utxos)
    requires Agrees(u, idx) && Indexed(t, idx) && first <= |t.outputs|
    ensures CreateFrom(u, t.hash, t.outputs, first).Some? ==> Agrees(CreateFrom(u, t.hash, t.outputs, first).value, idx)
    decreases |t.outputs| - first
  {
    if first < |t.outputs| && Outpoint(t.hash, first) !in u {
      CreateAgrees(u[Outpoint(t.hash, first) := t.outputs[first]], t, first + 1, idx);
    }
  }

  /** An index filled from block files that tell true amounts is a true index, also for outputs of the same block. */
  lemma {:induction false} IndexFromBlocks(u: Utxos, txs: seq<Tx>, idx: Utxos)
    requires Agrees(u, idx) && ExecuteAll(u, txs).Some? && forall k :: 0 <= k < |txs| ==> Indexed(txs[k], idx)
    ensures IndexTrue(u, txs, idx)
    decreases |txs|
  {
    if txs != [] {
      SpendAgrees(u, txs[0].inputs, idx);
      var spent: Option<(Utxos, nat)> := if txs[0].coinbase then Some((u, 0)) else SpendFrom(u, txs[0].inputs);
      CreateAgrees(spent.value.0, txs[0], 0, idx);
      IndexFromBlocks(Execute(u, txs[0]).value.0, txs[1..], idx);
    }
  }

  lemma {:induction false} KnownTotalTrue(u: Utxos, inputs: seq<Input>, idx: Utxos)
    requires SpendFrom(u, inputs).Some? && SpendTrue(u, inputs, idx) && Missing(inputs, idx) == []
    ensures KnownTotal(inputs, idx) == SpendFrom(u, inputs).value.1
    decreases |inputs|
  {
    if inputs != [] { KnownTotalTrue(u - {inputs[0].prev}, inputs[1..], idx); }
  }

  /** What the subject took in beyond what it paid out; the subject stands once in the block. */
  function SubjectBurn(txs: seq<Tx>, totals: seq<nat>, subject: nat): int
    requires |txs| == |totals|
  {
    if txs == [] then 0
    else (if IsSubject(txs[0], subject) then totals[0] - Sum(txs[0].outputs) else 0)
         + SubjectBurn(txs[1..], totals[1..], subject)
  }

  lemma {:induction false} NetBurnSplits(u: Utxos, txs: seq<Tx>, subject: nat, idx: Utxos)
    requires ExecuteAll(u, txs).Some? && |ExecuteAll(u, txs).value.1| == |txs|
    requires IndexTrue(u, txs, idx) && AllMissing(txs, subject, idx) == []
    ensures var totals := ExecuteAll(u, txs).value.1;
            NetBurn(txs, totals) == SubjectBurn(txs, totals, subject) + Other(txs, subject, idx) - Issued(txs)
    decreases |txs|
  {
    if txs != [] {
      var v := Execute(u, txs[0]).value.0;
      var totals := ExecuteAll(u, txs).value.1;
      assert totals[1..] == ExecuteAll(v, txs[1..]).value.1;
      NetBurnSplits(v, txs[1..], subject, idx);
      if Counted(txs[0], subject) { KnownTotalTrue(u, txs[0].inputs, idx); }
    }
  }

  /**
   * The audit is exact: with the two supplies read around a block that executes, a successful audit
   * returns what the subject's inputs held beyond its outputs, whatever else the block did.
   */
  lemma AuditExact(u: Utxos, txs: seq<Tx>, subject: nat, idx: Utxos)
    requires ExecuteAll(u, txs).Some? && IndexTrue(u, txs, idx) && AllMissing(txs, subject, idx) == []
    ensures var (w, totals) := ExecuteAll(u, txs).value;
            |totals| == |txs|
            && Supply(u) - Supply(w) + Issued(txs) - Other(txs, subject, idx) == SubjectBurn(txs, totals, subject)
  {
    BlockSupply(u, txs);
    NetBurnSplits(u, txs, subject, idx);
  }

  /** What `cmd_removed` reports between the two supplies is the subject's inputs minus its outputs. */
  lemma RemovedExact(u: Utxos, txs: seq<Tx>, subject: nat, idx: Utxos)
    requires ExecuteAll(u, txs).Some? && IndexTrue(u, txs, idx)
    ensures var (w, totals) := ExecuteAll(u, txs).value;
            var r := AuditOf(txs, Supply(u), Supply(w), subject, idx);
            |totals| == |txs| && (r.Removed? ==> r.amount == SubjectBurn(txs, totals, subject))
  {
    BlockSupply(u, txs);
    if AllMissing(txs, subject, idx) == [] { AuditExact(u, txs, subject, idx); }
  }
}
