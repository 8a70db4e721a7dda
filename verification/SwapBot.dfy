/**
 * The swap bot (testnet/doli-swap-bot/server.js:110-369): the payment poller, the expiry sweep and
 * order creation share one database and run one section at a time, yielding at every await.
 */
module SwapBot {
  import opened Wrappers

  type Tx = int
  type Address = int

  const CONFIRMATIONS := 5
  const RANGE_BLOCKS := 5000
  const MAX_PENDING := 3
  const RATE := 10
  const ATTEMPTS := 100

  /** Token amounts count 10^-18; order amounts count thousandths. */
  const CENT: nat := 10_000_000_000_000_000
  const MILL: nat := 1_000_000_000_000_000
  const MIN_BASE: nat := 100_000_000_000_000_000
  const MAX_BASE: nat := 10_000_000_000_000_000_000_000

  datatype Status = Pending | Completed | NoLiquidity | DoliFailed | Expired

  /** `cents` says whether `exact` came from the two-decimal draws or the three-decimal fallback. */
  datatype Order = Order(address: Address, base: nat, exact: nat, cents: bool, doli: nat, created: int,
                         status: Status, paidBy: Option<Tx>)

  datatype Log = Log(tx: Tx, amount: nat)

  datatype Request = Request(address: Address, base: nat)

  /** Blocks lo..hi, the chain head when they were chosen, and the logs found there. */
  datatype Batch = Batch(lo: int, hi: int, head: int, logs: seq<Log>)

  datatype Payout = Payout(log: Log, id: nat, doli: nat)

  /** Where the poller awaits: `next` is the log to handle next, the one before it is being settled. */
  datatype Poller =
    | Sleeping
    | AskingHead
    | AskingLogs(lo: int, hi: int, head: int)
    | Processing(batch: Batch, next: nat)
    | AskingBalance(batch: Batch, next: nat, id: nat)
    | Sending(batch: Batch, next: nat, id: nat)

  /** What became of a log: its hash seen before, no order for it, and otherwise how far its order got. */
  datatype Fate = Repeated | Unmatched | Asked(id: nat) | Short(id: nat) | Attempted(id: nat)

  datatype Handling = Handling(log: Log, fate: Fate)

  /**
   * The database, the process's variables, and the history: logs handled, payouts attempted and how they ended,
   * ranges done, first marker.
   */
  datatype State = State(
    orders: seq<Order>, processed: set<Tx>, saved: Option<int>,
    last: int, poller: Poller, requests: seq<Request>,
    handled: seq<Handling>, payouts: seq<Payout>, ended: seq<bool>, done: seq<Batch>, start: int)

  // ----- amounts -----

  function RoundHalfUp(x: nat, unit: nat): nat
    requires unit > 0
  {
    (x + unit / 2) / unit
  }

  function Draw(base: nat, suffix: nat): nat { 10 * RoundHalfUp(base + suffix * CENT, CENT) }

  predicate Taken(orders: seq<Order>, exact: nat) {
    exists i :: 0 <= i < |orders| && orders[i].status.Pending? && orders[i].exact == exact
  }

  /** The exact amount and whether it is a two-decimal one. */
  function ExactAmount(orders: seq<Order>, base: nat, suffixes: seq<nat>, last: nat): (nat, bool)
    decreases |suffixes|
  {
    if suffixes == [] then (RoundHalfUp(base + last * MILL, MILL), false)
    else if !Taken(orders, Draw(base, suffixes[0])) then (Draw(base, suffixes[0]), true)
    else ExactAmount(orders, base, suffixes[1..], last)
  }

  /** `generateExactAmount`, its random draws given. */
  method GenerateExactAmount(orders: seq<Order>, base: nat, suffixes: seq<nat>, last: nat)
    returns (exact: nat, cents: bool)
    ensures (exact, cents) == ExactAmount(orders, base, suffixes, last)
    ensures cents ==> !Taken(orders, exact) && exists s :: s in suffixes && exact == Draw(base, s)
    ensures !cents ==> forall s :: s in suffixes ==> Taken(orders, Draw(base, s))
  {
    for i := 0 to |suffixes|
      invariant ExactAmount(orders, base, suffixes, last) == ExactAmount(orders, base, suffixes[i..], last)
      invariant forall k :: 0 <= k < i ==> Taken(orders, Draw(base, suffixes[k]))
    {
      assert suffixes[i..][0] == suffixes[i] && suffixes[i..][1..] == suffixes[i + 1..];
      exact := Draw(base, suffixes[i]);
      if !Taken(orders, exact) { return exact, true; }
    }
    assert suffixes[|suffixes|..] == [];
    return RoundHalfUp(base + last * MILL, MILL), false;
  }

  /** The random draws: 0.01 to 0.99 each time, then 0.001 to 0.999. */
  predicate Draws(suffixes: seq<nat>, last: nat) {
    |suffixes| == ATTEMPTS && (forall s :: s in suffixes ==> 1 <= s <= 99) && 1 <= last <= 999
  }

  // ----- matching -----

  predicate Eligible(orders: seq<Order>, amount: nat, live: set<nat>, id: nat) {
    id < |orders| && orders[id].status.Pending? && orders[id].exact == 10 * RoundHalfUp(amount, CENT) && id in live
  }

  /** Among the first n orders, the oldest pending and unexpired one of this amount. */
  function OldestOf(orders: seq<Order>, amount: nat, live: set<nat>, n: nat): (r: Option<nat>)
    requires n <= |orders|
    ensures r.None? <==> forall k: nat :: k < n ==> !Eligible(orders, amount, live, k)
    ensures r.Some? ==> r.value < n && Eligible(orders, amount, live, r.value)
    ensures r.Some? ==> forall k: nat ::
              k < n && Eligible(orders, amount, live, k) ==> orders[r.value].created <= orders[k].created
  {
    if n == 0 then None
    else
      var r := OldestOf(orders, amount, live, n - 1);
      if Eligible(orders, amount, live, n - 1) && (r.None? || orders[n - 1].created < orders[r.value].created)
      then Some(n - 1) else r
  }

  // ----- the poller's sections -----

  function SetStatus(s: State, id: nat, status: Status): State
    requires id < |s.orders|
  {
    s.(orders := s.orders[id := s.orders[id].(status := status)])
  }

  function OnHead(s: State, head: int): State {
    if !s.poller.AskingHead? then s
    else if head - CONFIRMATIONS <= s.last then s.(poller := Sleeping)
    else
      var lo, safe := s.last + 1, head - CONFIRMATIONS;
      s.(poller := AskingLogs(lo, if safe < lo + RANGE_BLOCKS - 1 then safe else lo + RANGE_BLOCKS - 1, head))
  }

  function OnLogs(s: State, logs: seq<Log>): State {
    if !s.poller.AskingLogs? then s
    else s.(poller := Processing(Batch(s.poller.lo, s.poller.hi, s.poller.head, logs), 0))
  }

  /** One log up to its first await, or the end of the range. */
  function OnNext(s: State, live: set<nat>): State {
    if !s.poller.Processing? then s
    else
      var b, n := s.poller.batch, s.poller.next;
      if n >= |b.logs| then s.(last := b.hi, saved := Some(b.hi), done := s.done + [b], poller := Sleeping)
      else if b.logs[n].tx in s.processed then
        s.(poller := Processing(b, n + 1), handled := s.handled + [Handling(b.logs[n], Repeated)])
      else
        var found := OldestOf(s.orders, b.logs[n].amount, live, |s.orders|);
        s.(processed := s.processed + {b.logs[n].tx},
           handled := s.handled + [Handling(b.logs[n], if found.None? then Unmatched else Asked(found.value))],
           poller := if found.None? then Processing(b, n + 1) else AskingBalance(b, n + 1, found.value))
  }

  function OnBalance(s: State, balance: nat): State {
    if !s.poller.AskingBalance? then s
    else
      var b, n, id := s.poller.batch, s.poller.next, s.poller.id;
      if !(id < |s.orders| && 0 < n <= |b.logs|) then s
      else if balance < s.orders[id].doli then
        SetStatus(s, id, NoLiquidity).(poller := Processing(b, n), handled := Settle(s.handled, Short(id)))
      else
        s.(payouts := s.payouts + [Payout(b.logs[n - 1], id, s.orders[id].doli)],
           poller := Sending(b, n, id), handled := Settle(s.handled, Attempted(id)))
  }

  /** The last log handled meets its fate. */
  function Settle(hs: seq<Handling>, fate: Fate): seq<Handling> {
    if hs == [] then [] else hs[|hs| - 1 := Handling(hs[|hs| - 1].log, fate)]
  }

  function OnSent(s: State, ok: bool): State {
    if !s.poller.Sending? then s
    else
      var b, n, id := s.poller.batch, s.poller.next, s.poller.id;
      if !(id < |s.orders| && 0 < n <= |b.logs|) then s
      else if ok then
        s.(orders := s.orders[id := s.orders[id].(status := Completed, paidBy := Some(b.logs[n - 1].tx))],
           poller := Processing(b, n), ended := s.ended + [true])
      else SetStatus(s, id, DoliFailed).(poller := Processing(b, n), ended := s.ended + [false])
  }

  /** A failed call, or a log that does not decode, ends the pass with the marker unmoved. */
  function OnPollError(s: State): State {
    if s.poller.AskingHead? || s.poller.AskingLogs? || s.poller.Processing? then s.(poller := Sleeping) else s
  }

  function OnWake(s: State): State { if s.poller.Sleeping? then s.(poller := AskingHead) else s }

  // ----- the other handlers -----

  function Swept(orders: seq<Order>, overdue: set<nat>): (r: seq<Order>)
    ensures |r| == |orders|
    ensures forall i: nat :: i < |r| ==>
              r[i] == if orders[i].status.Pending? && i in overdue then orders[i].(status := Expired) else orders[i]
  {
    seq(|orders|, i requires 0 <= i < |orders| =>
      if orders[i].status.Pending? && i in overdue then orders[i].(status := Expired) else orders[i])
  }

  function OnSweep(s: State, overdue: set<nat>): State { s.(orders := Swept(s.orders, overdue)) }

  function PendingOf(orders: seq<Order>, a: Address): nat {
    if orders == [] then 0
    else
      var o := orders[|orders| - 1];
      PendingOf(orders[..|orders| - 1], a) + if o.address == a && o.status.Pending? then 1 else 0
  }

  /** An order request up to its await. */
  function OnAsk(s: State, r: Request): State {
    if r.base < MIN_BASE || r.base > MAX_BASE || PendingOf(s.orders, r.address) >= MAX_PENDING then s
    else s.(requests := s.requests + [r])
  }

  /** The k-th waiting request once the balance is known. */
  function OnCreate(s: State, k: nat, balance: nat, suffixes: seq<nat>, last: nat, now: int): State {
    if k >= |s.requests| || !Draws(suffixes, last) then s
    else
      var r, rest := s.requests[k], s.requests[..k] + s.requests[k + 1..];
      if balance < r.base * RATE then s.(requests := rest)
      else
        var (exact, cents) := ExactAmount(s.orders, r.base, suffixes, last);
        s.(requests := rest,
           orders := s.orders + [Order(r.address, r.base, exact, cents, r.base * RATE, now, Pending, None)])
  }

  /** The process stopped anywhere but during a payment, and started again. */
  function OnRestart(s: State, head: int): State {
    if s.poller.Sending? then s
    else
      var marker := if s.saved.Some? then s.saved.value else head - 10;
      s.(poller := AskingHead, requests := [], last := marker, start := if s.saved.Some? then s.start else marker)
  }

  /** A restart resumes behind the saved marker, or ten blocks below the head, with the database as it was. */
  lemma RestartResumes(s: State, head: int)
    requires !s.poller.Sending?
    ensures var t := OnRestart(s, head);
            && t.orders == s.orders && t.processed == s.processed && t.saved == s.saved
            && t.payouts == s.payouts && t.handled == s.handled
            && t.last == (match s.saved case Some(v) => v case None => head - 10)
            && t.poller == AskingHead && t.requests == []
  {
  }

  /** A failed pass leaves the marker; only the sleep changes. */
  lemma PassFails(s: State)
    ensures OnPollError(s) == s.(poller := OnPollError(s).poller) && OnWake(s) == s.(poller := OnWake(s).poller)
    ensures OnPollError(s).poller.Sleeping?
            <==> s.poller.Sleeping? || s.poller.AskingHead? || s.poller.AskingLogs? || s.poller.Processing?
    ensures OnWake(s).poller == if s.poller == Sleeping then AskingHead else s.poller
  {
  }

  // ----- runs -----

  datatype Event =
    | Wake
    | Head(head: int)
    | Logs(logs: seq<Log>)
    | Next(live: set<nat>)
    | Balance(balance: nat)
    | Sent(ok: bool)
    | PollError
    | Sweep(overdue: set<nat>)
    | Ask(r: Request)
    | Create(k: nat, available: nat, suffixes: seq<nat>, last: nat, now: int)
    | Restart(head: int)

  /** What happens next, with whatever the node, the chain, the clock and the customers answer. */
  function Step(s: State, e: Event): State {
    match e
    case Wake => OnWake(s)
    case Head(head) => OnHead(s, head)
    case Logs(logs) => OnLogs(s, logs)
    case Next(live) => OnNext(s, live)
    case Balance(balance) => OnBalance(s, balance)
    case Sent(ok) => OnSent(s, ok)
    case PollError => OnPollError(s)
    case Sweep(overdue) => OnSweep(s, overdue)
    case Ask(r) => OnAsk(s, r)
    case Create(k, available, suffixes, last, now) => OnCreate(s, k, available, suffixes, last, now)
    case Restart(head) => OnRestart(s, head)
  }

  function Run(s: State, es: seq<Event>): State {
    if es == [] then s else Step(Run(s, es[..|es| - 1]), es[|es| - 1])
  }

  /** An empty database; the marker is ten blocks below the head. */
  function Fresh(marker: int): State { State([], {}, None, marker, AskingHead, [], [], [], [], [], marker) }

  // ----- ranges -----

  predicate BatchOk(b: Batch) { b.lo <= b.hi < b.lo + RANGE_BLOCKS && b.hi + CONFIRMATIONS <= b.head }

  predicate Seen(b: Batch, n: nat, processed: set<Tx>) {
    forall k :: 0 <= k < |b.logs| && k < n ==> b.logs[k].tx in processed
  }

  function MarkerAfter(s: State, i: nat): int
    requires i <= |s.done|
  {
    if i == 0 then s.start else s.done[i - 1].hi
  }

  /** The ranges done follow on from the first marker to the last block processed, every log of theirs handled. */
  predicate RangesOk(s: State) {
    && s.last == MarkerAfter(s, |s.done|)
    && (s.saved.Some? ==> s.saved.value == s.last)
    && (s.saved.None? ==> s.done == [])
    && (forall i :: 0 <= i < |s.done| ==>
         BatchOk(s.done[i]) && s.done[i].lo == MarkerAfter(s, i) + 1 && Seen(s.done[i], |s.done[i].logs|, s.processed))
    && PollerOk(s)
  }

  predicate PollerOk(s: State) {
    match s.poller
    case Sleeping => true
    case AskingHead => true
    case AskingLogs(lo, hi, head) => lo == s.last + 1 && BatchOk(Batch(lo, hi, head, []))
    case Processing(b, n) => InHand(s, b, n)
    case AskingBalance(b, n, id) => InHand(s, b, n) && n > 0
    case Sending(b, n, id) => InHand(s, b, n) && n > 0
  }

  predicate InHand(s: State, b: Batch, n: nat) {
    b.lo == s.last + 1 && BatchOk(b) && n <= |b.logs| && Seen(b, n, s.processed)
  }

  lemma RangesCarry(s: State, t: State)
    requires RangesOk(s) && t.done == s.done && t.last == s.last && t.saved == s.saved && t.start == s.start
    requires s.processed <= t.processed && PollerOk(t)
    ensures RangesOk(t)
  {
    hide PollerOk, BatchOk;
    forall i | 0 <= i < |s.done| ensures MarkerAfter(t, i) == MarkerAfter(s, i) {}
  }

  lemma RangesPoll(s: State, e: Event)
    requires RangesOk(s) && (e.Wake? || e.Head? || e.Logs? || e.PollError?)
    ensures RangesOk(Step(s, e))
  {
    RangesCarry(s, Step(s, e));
  }

  lemma RangesSettle(s: State, e: Event)
    requires RangesOk(s) && (e.Balance? || e.Sent?)
    ensures RangesOk(Step(s, e))
  {
    hide BatchOk, Seen;
    var t := Step(s, e);
    RangesCarry(s, t);
  }

  /** A range with its last log handled joins the ranges done. */
  lemma RangesDone(s: State, live: set<nat>)
    requires RangesOk(s) && s.poller.Processing? && s.poller.next >= |s.poller.batch.logs|
    ensures RangesOk(OnNext(s, live))
  {
    hide OldestOf, BatchOk, Seen;
    var t, b := OnNext(s, live), s.poller.batch;
    assert t.done == s.done + [b] && t.processed == s.processed;
    assert Seen(b, |b.logs|, s.processed);
    forall i | 0 <= i < |s.done| ensures MarkerAfter(t, i) == MarkerAfter(s, i) && t.done[i] == s.done[i] {}
  }

  lemma RangesNext(s: State, live: set<nat>)
    requires RangesOk(s)
    ensures RangesOk(OnNext(s, live))
  {
    hide OldestOf, BatchOk;
    if s.poller.Processing? && s.poller.next >= |s.poller.batch.logs| {
      RangesDone(s, live);
    } else {
      hide MarkerAfter;
      RangesCarry(s, OnNext(s, live));
    }
  }

  lemma RangesElse(s: State, e: Event)
    requires RangesOk(s) && (e.Sweep? || e.Ask? || e.Create? || e.Restart?)
    ensures RangesOk(Step(s, e))
  {
    hide BatchOk, Seen, Swept, PendingOf, ExactAmount, Draws;
    var t := Step(s, e);
    if !e.Restart? || s.saved.Some? { RangesCarry(s, t); }
  }

  lemma RangesStep(s: State, e: Event)
    requires RangesOk(s)
    ensures RangesOk(Step(s, e))
  {
    hide RangesOk;
    match e {
      case Wake => RangesPoll(s, e);
      case Head(_) => RangesPoll(s, e);
      case Logs(_) => RangesPoll(s, e);
      case PollError => RangesPoll(s, e);
      case Next(live) => RangesNext(s, live);
      case Balance(_) => RangesSettle(s, e);
      case Sent(_) => RangesSettle(s, e);
      case _ => RangesElse(s, e);
    }
  }

  // ----- payouts -----

  /** The order whose payment is in flight, if any. */
  function InFlight(s: State): Option<nat> { if s.poller.Sending? then Some(s.poller.id) else None }

  predicate PaidTx(ps: seq<Payout>, tx: Tx) { exists j :: 0 <= j < |ps| && ps[j].log.tx == tx }

  predicate PaidId(ps: seq<Payout>, id: nat) { exists j :: 0 <= j < |ps| && ps[j].id == id }

  /** A payout follows a payment of the order's exact amount. */
  predicate PayoutOk(orders: seq<Order>, p: Payout) {
    p.id < |orders| && p.doli == orders[p.id].doli && orders[p.id].exact == 10 * RoundHalfUp(p.log.amount, CENT)
  }

  predicate PaidOnce(ps: seq<Payout>) {
    forall i, j :: 0 <= i < j < |ps| ==> ps[i].log.tx != ps[j].log.tx && ps[i].id != ps[j].id
  }

  /** No order is pending once paid; one paid and not in flight is settled, under the payment's hash when completed. */
  predicate SettledOk(s: State) {
    forall j :: 0 <= j < |s.payouts| ==>
      var p := s.payouts[j];
      && PayoutOk(s.orders, p) && p.log.tx in s.processed
      && (InFlight(s) != Some(p.id) ==>
          s.orders[p.id].status.DoliFailed?
          || (s.orders[p.id].status.Completed? && s.orders[p.id].paidBy == Some(p.log.tx)))
  }

  predicate CompletedPaid(s: State) {
    forall id: nat :: id < |s.orders| && s.orders[id].status.Completed? ==> PaidId(s.payouts, id)
  }

  /** What the poller is settling has not been paid before; what it is sending is the last payout. */
  predicate CurrentOk(s: State) {
    match s.poller
    case AskingBalance(b, n, id) =>
      && id < |s.orders| && 0 < n <= |b.logs| && Open(s.orders[id])
      && s.orders[id].exact == 10 * RoundHalfUp(b.logs[n - 1].amount, CENT)
      && b.logs[n - 1].tx in s.processed && !PaidTx(s.payouts, b.logs[n - 1].tx) && !PaidId(s.payouts, id)
    case Sending(b, n, id) =>
      && id < |s.orders| && 0 < n <= |b.logs| && Open(s.orders[id])
      && s.payouts != [] && s.payouts[|s.payouts| - 1].log == b.logs[n - 1] && s.payouts[|s.payouts| - 1].id == id
    case _ => true
  }

  predicate Open(o: Order) { o.status.Pending? || o.status.Expired? }

  predicate PayoutsOk(s: State) { PaidOnce(s.payouts) && SettledOk(s) && CompletedPaid(s) && CurrentOk(s) }

  /** An order's row may change only its status and payment hash, and leaves pending for good. */
  predicate Moves(o: Order, q: Order) {
    && q == o.(status := q.status, paidBy := q.paidBy)
    && (q.status == o.status ==> q == o)
    && (q.status != o.status ==> Open(o) && !q.status.Pending?)
  }

  predicate OrdersMove(a: seq<Order>, b: seq<Order>) {
    |a| <= |b| && forall i :: 0 <= i < |a| ==> Moves(a[i], b[i])
  }

  /** The sections that leave payouts alone and only move open orders that are not in flight. */
  lemma PayoutsCarry(s: State, t: State)
    requires PayoutsOk(s) && t.payouts == s.payouts && s.processed <= t.processed && OrdersMove(s.orders, t.orders)
    requires InFlight(t) == InFlight(s) && CurrentOk(t)
    requires forall i: nat :: i < |t.orders| && t.orders[i].status.Completed? ==>
               i < |s.orders| && s.orders[i].status.Completed?
    ensures PayoutsOk(t)
  {
    forall j | 0 <= j < |s.payouts| ensures PayoutOk(t.orders, s.payouts[j]) {
      assert PayoutOk(s.orders, s.payouts[j]);
      assert Moves(s.orders[s.payouts[j].id], t.orders[s.payouts[j].id]);
    }
  }

  /** A payment not seen before, matched to a pending order: neither has been paid. */
  lemma PayoutsNext(s: State, live: set<nat>)
    requires PayoutsOk(s)
    ensures PayoutsOk(OnNext(s, live)) && OrdersMove(s.orders, OnNext(s, live).orders)
  {
    hide OldestOf;
    var t := OnNext(s, live);
    if t.poller.AskingBalance? && s.poller.Processing? {
      var tx, id := s.poller.batch.logs[s.poller.next].tx, t.poller.id;
      assert Eligible(s.orders, s.poller.batch.logs[s.poller.next].amount, live, id);
      forall j | 0 <= j < |s.payouts| ensures s.payouts[j].log.tx != tx && s.payouts[j].id != id {
        assert PayoutOk(s.orders, s.payouts[j]);
      }
    }
    PayoutsCarry(s, t);
  }

  lemma PayoutsBalance(s: State, balance: nat)
    requires PayoutsOk(s)
    ensures PayoutsOk(OnBalance(s, balance)) && OrdersMove(s.orders, OnBalance(s, balance).orders)
  {
    var t := OnBalance(s, balance);
    if t.poller.Sending? && s.poller.AskingBalance? {
      var log := s.poller.batch.logs[s.poller.next - 1];
      assert t.payouts == s.payouts + [Payout(log, s.poller.id, s.orders[s.poller.id].doli)];
      forall id: nat | id < |s.orders| && s.orders[id].status.Completed? ensures PaidId(t.payouts, id) {
        var j :| 0 <= j < |s.payouts| && s.payouts[j].id == id;
        assert t.payouts[j].id == id;
      }
    } else {
      PayoutsCarry(s, t);
    }
  }

  lemma PayoutsSent(s: State, ok: bool)
    requires PayoutsOk(s)
    ensures PayoutsOk(OnSent(s, ok)) && OrdersMove(s.orders, OnSent(s, ok).orders)
  {
    var t := OnSent(s, ok);
    if s.poller.Sending? {
      var id, m := s.poller.id, |s.payouts| - 1;
      assert OrdersMove(s.orders, t.orders);
      forall j | 0 <= j < |t.payouts| && j != m ensures t.payouts[j].id != id && PayoutOk(s.orders, t.payouts[j]) {}
      assert PayoutOk(s.orders, t.payouts[m]) && t.payouts[m].id == id;
      assert PaidId(t.payouts, id);
    }
  }

  lemma SweptMoves(orders: seq<Order>, overdue: set<nat>)
    ensures var r := Swept(orders, overdue);
            && OrdersMove(orders, r) && |r| == |orders|
            && forall i: nat :: i < |r| ==>
                 (r[i].status.Completed? ==> orders[i].status.Completed?) && (Open(orders[i]) ==> Open(r[i]))
  {
  }

  lemma PayoutsSweep(s: State, overdue: set<nat>)
    requires PayoutsOk(s)
    ensures PayoutsOk(OnSweep(s, overdue)) && OrdersMove(s.orders, OnSweep(s, overdue).orders)
  {
    SweptMoves(s.orders, overdue);
    hide Swept, RoundHalfUp, SettledOk, CompletedPaid, PaidOnce;
    SweptCurrent(s, overdue);
    hide CurrentOk, OrdersMove;
    PayoutsCarry(s, OnSweep(s, overdue));
  }

  lemma SweptCurrent(s: State, overdue: set<nat>)
    requires CurrentOk(s)
    ensures CurrentOk(OnSweep(s, overdue))
  {
    SweptMoves(s.orders, overdue);
    hide Swept, RoundHalfUp, PaidTx, PaidId;
    var id := if s.poller.AskingBalance? || s.poller.Sending? then s.poller.id else 0;
    assert id < |s.orders| ==> Moves(s.orders[id], OnSweep(s, overdue).orders[id]);
  }

  lemma PayoutsElse(s: State, e: Event)
    requires PayoutsOk(s) && (e.Wake? || e.Head? || e.Logs? || e.PollError? || e.Ask? || e.Create? || e.Restart?)
    ensures PayoutsOk(Step(s, e)) && OrdersMove(s.orders, Step(s, e).orders)
  {
    hide ExactAmount, Draws, PendingOf, SettledOk, CompletedPaid, PaidOnce, RoundHalfUp, PaidTx, PaidId;
    PayoutsCarry(s, Step(s, e));
  }

  lemma PayoutsStep(s: State, e: Event)
    requires PayoutsOk(s)
    ensures PayoutsOk(Step(s, e)) && OrdersMove(s.orders, Step(s, e).orders)
  {
    hide PayoutsOk, OrdersMove;
    match e {
      case Next(live) => PayoutsNext(s, live);
      case Balance(balance) => PayoutsBalance(s, balance);
      case Sent(ok) => PayoutsSent(s, ok);
      case Sweep(overdue) => PayoutsSweep(s, overdue);
      case _ => PayoutsElse(s, e);
    }
  }

  // ----- orders -----

  /** What an order's amount exceeds its base by at least: half a unit of its own rounding. */
  function Margin(o: Order): nat { if o.cents then CENT / 2 else MILL / 2 }

  predicate OrderOk(o: Order) {
    o.doli == o.base * RATE && (o.cents ==> o.exact % 10 == 0) && o.exact * MILL > o.base + Margin(o)
  }

  /** No later two-decimal order shares a pending order's amount. */
  predicate OpenCents(o: Order) { o.status.Pending? && o.cents }

  predicate AmountsApart(orders: seq<Order>) {
    forall i, j :: 0 <= i < j < |orders| && orders[i].status.Pending? && OpenCents(orders[j]) ==>
      orders[i].exact != orders[j].exact
  }

  predicate OrdersOk(orders: seq<Order>) {
    (forall i :: 0 <= i < |orders| ==> OrderOk(orders[i])) && AmountsApart(orders)
  }

  lemma OrdersCarry(a: seq<Order>, b: seq<Order>)
    requires OrdersOk(a) && OrdersMove(a, b) && |a| == |b|
    ensures OrdersOk(b)
  {
    hide OrderOk;
    forall i | 0 <= i < |b| ensures OrderOk(b[i]) { assert Moves(a[i], b[i]); SameOrder(a[i], b[i]); }
  }

  lemma SameOrder(o: Order, q: Order)
    requires OrderOk(o) && Moves(o, q)
    ensures OrderOk(q)
  {
  }

  lemma RoundBounds(x: nat, unit: nat)
    requires unit > 0 && unit % 2 == 0
    ensures x < RoundHalfUp(x, unit) * unit + unit / 2
    ensures RoundHalfUp(x, unit) * unit <= x + unit / 2
  {
    var y := x + unit / 2;
    assert y == unit * (y / unit) + y % unit;
  }

  /** A draw is the two-decimal amount nearest to the base with its suffix of that many cents, halves going up. */
  lemma DrawExact(base: nat, suffix: nat)
    ensures Draw(base, suffix) % 10 == 0
    ensures base + suffix * CENT < Draw(base, suffix) * MILL + CENT / 2 <= base + suffix * CENT + CENT
  {
    RoundBounds(base + suffix * CENT, CENT);
    hide RoundHalfUp;
  }

  /**
   * A payment matches an order that is pending and not past its date when, rounded to cents, it is the order's
   * amount: half a cent below it, up to but not including half a cent above.
   */
  lemma EligibleExact(orders: seq<Order>, amount: nat, live: set<nat>, id: nat)
    ensures Eligible(orders, amount, live, id)
            <==> && id < |orders| && orders[id].status == Pending && id in live && orders[id].exact % 10 == 0
                 && orders[id].exact * MILL <= amount + CENT / 2 < orders[id].exact * MILL + CENT
  {
    RoundBounds(amount, CENT);
    hide RoundHalfUp;
  }

  /** The amount drawn is the first of the draws that no pending order has. */
  lemma {:induction false} FirstFree(orders: seq<Order>, base: nat, suffixes: seq<nat>, last: nat) returns (i: nat)
    ensures var (exact, cents) := ExactAmount(orders, base, suffixes, last);
            && i <= |suffixes| && (cents <==> i < |suffixes|)
            && (forall k :: 0 <= k < i ==>
                  exists j :: 0 <= j < |orders| && orders[j].status == Pending
                              && orders[j].exact == Draw(base, suffixes[k]))
            && (cents ==> exact == Draw(base, suffixes[i])
                          && forall j :: 0 <= j < |orders| && orders[j].status == Pending ==> orders[j].exact != exact)
    decreases |suffixes|
  {
    hide Draw;
    if suffixes == [] || !Taken(orders, Draw(base, suffixes[0])) {
      i := 0;
    } else {
      var rest := suffixes[1..];
      i := FirstFree(orders, base, rest, last);
      forall k | 0 <= k < i + 1
        ensures exists j :: 0 <= j < |orders| && orders[j].status == Pending
                            && orders[j].exact == Draw(base, suffixes[k])
      {
        if k == 0 {
          var j :| 0 <= j < |orders| && orders[j].status.Pending? && orders[j].exact == Draw(base, suffixes[0]);
          assert orders[j].status == Pending;
        } else {
          assert suffixes[k] == rest[k - 1];
        }
      }
      i := i + 1;
    }
  }

  /** The fallback is the three-decimal amount nearest to the base with that many thousandths. */
  lemma {:induction false} FallbackExact(orders: seq<Order>, base: nat, suffixes: seq<nat>, last: nat)
    ensures var (exact, cents) := ExactAmount(orders, base, suffixes, last);
            !cents ==> base + last * MILL < exact * MILL + MILL / 2 <= base + last * MILL + MILL
    decreases |suffixes|
  {
    hide Draw;
    if suffixes == [] {
      RoundBounds(base + last * MILL, MILL);
    } else {
      FallbackExact(orders, base, suffixes[1..], last);
    }
  }

  /** The pending orders of an address are counted. */
  function PendingIds(orders: seq<Order>, a: Address): set<nat> {
    set i: nat | i < |orders| && orders[i].address == a && orders[i].status == Pending
  }

  lemma {:induction false} PendingExact(orders: seq<Order>, a: Address)
    ensures PendingOf(orders, a) == |PendingIds(orders, a)|
    decreases |orders|
  {
    if orders == [] {
      assert PendingIds(orders, a) == {};
    } else {
      var n := |orders| - 1;
      PendingExact(orders[..n], a);
      assert PendingIds(orders, a) == PendingIds(orders[..n], a)
                                      + if orders[n].address == a && orders[n].status == Pending then {n} else {};
    }
  }

  lemma DrawCovers(base: nat, suffix: nat)
    requires suffix >= 1
    ensures Draw(base, suffix) % 10 == 0 && Draw(base, suffix) * MILL > base + CENT / 2
  {
    RoundBounds(base + suffix * CENT, CENT);
    hide RoundHalfUp;
  }

  lemma OrdersStep(s: State, e: Event)
    requires OrdersOk(s.orders) && OrdersMove(s.orders, Step(s, e).orders)
    ensures OrdersOk(Step(s, e).orders)
  {
    hide OrderOk, PendingOf, ExactAmount, OldestOf, OrdersMove, Swept;
    if e.Create? { OrdersCreate(s, e.k, e.available, e.suffixes, e.last, e.now); }
    else { SameCount(s, e); OrdersCarry(s.orders, Step(s, e).orders); }
  }

  lemma SameCount(s: State, e: Event)
    requires !e.Create?
    ensures |Step(s, e).orders| == |s.orders|
  {
    hide PendingOf, OldestOf;
  }

  lemma OrdersCreate(s: State, k: nat, available: nat, suffixes: seq<nat>, last: nat, now: int)
    requires OrdersOk(s.orders)
    ensures OrdersOk(OnCreate(s, k, available, suffixes, last, now).orders)
  {
    var t := OnCreate(s, k, available, suffixes, last, now);
    if |t.orders| > |s.orders| {
      var base, o := s.requests[k].base, t.orders[|s.orders|];
      hide RoundHalfUp, OnCreate;
      ExactApart(s.orders, base, suffixes, last);
    }
  }

  /** What `generateExactAmount` promises: its amount covers the base, and a two-decimal one is free. */
  lemma {:induction false} ExactApart(orders: seq<Order>, base: nat, suffixes: seq<nat>, last: nat)
    requires last >= 1 && forall s :: s in suffixes ==> s >= 1
    ensures var (exact, cents) := ExactAmount(orders, base, suffixes, last);
            && (cents ==> exact % 10 == 0 && !Taken(orders, exact))
            && exact * MILL > base + (if cents then CENT / 2 else MILL / 2)
    decreases |suffixes|
  {
    if suffixes == [] {
      RoundBounds(base + last * MILL, MILL);
    } else {
      hide Draw;
      assert suffixes[0] in suffixes && forall s :: s in suffixes[1..] ==> s in suffixes;
      DrawCovers(base, suffixes[0]);
      ExactApart(orders, base, suffixes[1..], last);
    }
  }

  // ----- whole runs -----

  predicate Inv(s: State) { RangesOk(s) && PayoutsOk(s) && OrdersOk(s.orders) }

  /** Every section keeps the invariant. */
  lemma InvStep(s: State, e: Event)
    requires Inv(s)
    ensures Inv(Step(s, e))
  {
    hide RangesOk, PayoutsOk, OrdersOk, Step;
    RangesStep(s, e);
    PayoutsStep(s, e);
    OrdersStep(s, e);
  }

  /** Every state a run reaches is sound. */
  lemma {:induction false} RunSafe(marker: int, es: seq<Event>)
    ensures Inv(Run(Fresh(marker), es))
    decreases |es|
  {
    if es != [] {
      var s, e := Run(Fresh(marker), es[..|es| - 1]), es[|es| - 1];
      RunSafe(marker, es[..|es| - 1]);
      hide Inv, Step;
      InvStep(s, e);
    }
  }

  /** A payment hash and an order each cause at most one payout. */
  lemma AtMostOnePayout(marker: int, es: seq<Event>, i: nat, j: nat)
    requires i < |Run(Fresh(marker), es).payouts| && j < |Run(Fresh(marker), es).payouts|
    requires var ps := Run(Fresh(marker), es).payouts; ps[i].log.tx == ps[j].log.tx || ps[i].id == ps[j].id
    ensures i == j
  {
    RunSafe(marker, es);
    hide Run;
  }

  /** An order that has left pending never returns, and a settled one never changes, however the run goes on. */
  lemma {:induction false} NeverPendingAgain(marker: int, es: seq<Event>, more: seq<Event>)
    ensures OrdersMove(Run(Fresh(marker), es).orders, Run(Fresh(marker), es + more).orders)
    decreases |more|
  {
    hide Run, Step, RangesOk, PayoutsOk, OrdersOk, OrdersMove;
    if more == [] {
      assert es + more == es;
      MovesNowhere(Run(Fresh(marker), es).orders);
    } else {
      var n := |more| - 1;
      NeverPendingAgain(marker, es, more[..n]);
      assert (es + more)[..|es + more| - 1] == es + more[..n] && (es + more)[|es + more| - 1] == more[n];
      LastStep(Fresh(marker), es + more);
      var s := Run(Fresh(marker), es + more[..n]);
      RunSafe(marker, es + more[..n]);
      PayoutsStep(s, more[n]);
      MovesTwice(Run(Fresh(marker), es).orders, s.orders, Step(s, more[n]).orders);
    }
  }

  lemma MovesNowhere(a: seq<Order>)
    ensures OrdersMove(a, a)
  {
  }

  lemma LastStep(s: State, es: seq<Event>)
    requires es != []
    ensures Run(s, es) == Step(Run(s, es[..|es| - 1]), es[|es| - 1])
  {
  }

  lemma MovesTwice(a: seq<Order>, b: seq<Order>, c: seq<Order>)
    requires OrdersMove(a, b) && OrdersMove(b, c)
    ensures OrdersMove(a, c)
  {
    forall i | 0 <= i < |a| ensures Moves(a[i], c[i]) { assert Moves(a[i], b[i]) && Moves(b[i], c[i]); }
  }

  predicate Inside(b: Batch, block: int) { b.lo <= block <= b.hi }

  /**
   * A block lies in a range done exactly when it is after the first marker and up to the last one, and then
   * in one only.
   */
  lemma BlocksOnce(s: State, block: int)
    requires RangesOk(s)
    ensures s.start < block <= s.last <==> exists i :: 0 <= i < |s.done| && Inside(s.done[i], block)
    ensures forall i, j :: 0 <= i < j < |s.done| ==> !(Inside(s.done[i], block) && Inside(s.done[j], block))
  {
    forall i, j | 0 <= i <= j <= |s.done| ensures MarkerAfter(s, i) <= MarkerAfter(s, j) { MarkersRise(s, i, j); }
    if s.start < block <= s.last { var i := RangeOf(s, block, |s.done|); }
    forall i, j | 0 <= i < j < |s.done| ensures s.done[i].hi < s.done[j].lo {
      assert MarkerAfter(s, i + 1) <= MarkerAfter(s, j);
    }
    forall i | 0 <= i < |s.done| && Inside(s.done[i], block) ensures s.start < block <= s.last {
      assert MarkerAfter(s, 0) <= MarkerAfter(s, i) && MarkerAfter(s, i + 1) <= MarkerAfter(s, |s.done|);
    }
  }

  lemma {:induction false} MarkersRise(s: State, i: nat, j: nat)
    requires RangesOk(s) && i <= j <= |s.done|
    ensures MarkerAfter(s, i) <= MarkerAfter(s, j)
    decreases j
  {
    hide PollerOk, Seen, RangesOk;
    if i < j {
      MarkersRise(s, i, j - 1);
      MarkerMoves(s, j - 1);
    }
  }

  lemma MarkerMoves(s: State, i: nat)
    requires RangesOk(s) && i < |s.done|
    ensures MarkerAfter(s, i) < MarkerAfter(s, i + 1) && s.done[i].lo == MarkerAfter(s, i) + 1
  {
    hide PollerOk, Seen;
    assert BatchOk(s.done[i]);
  }

  lemma {:induction false} RangeOf(s: State, block: int, n: nat) returns (i: nat)
    requires RangesOk(s) && n <= |s.done| && s.start < block <= MarkerAfter(s, n)
    ensures i < n && Inside(s.done[i], block)
    decreases n
  {
    MarkerMoves(s, n - 1);
    hide RangesOk;
    if block > MarkerAfter(s, n - 1) { i := n - 1; } else { i := RangeOf(s, block, n - 1); }
  }

  // ----- no payment is lost -----

  /** The handling that decides a payment hash. */
  predicate Decides(h: Handling, tx: Tx) { h.log.tx == tx && !h.fate.Repeated? }

  predicate Decided(hs: seq<Handling>, tx: Tx) { exists j :: 0 <= j < |hs| && Decides(hs[j], tx) }

  predicate Logged(hs: seq<Handling>, log: Log) { exists j :: 0 <= j < |hs| && hs[j].log == log }

  predicate AllLogged(hs: seq<Handling>, logs: seq<Log>, n: nat) {
    forall k :: 0 <= k < |logs| && k < n ==> Logged(hs, logs[k])
  }

  /** No hash is decided twice. */
  predicate DecidedOnce(hs: seq<Handling>) {
    forall i, j :: 0 <= i < j < |hs| && !hs[i].fate.Repeated? && !hs[j].fate.Repeated? ==> hs[i].log.tx != hs[j].log.tx
  }

  function Attempts(hs: seq<Handling>): seq<(Log, nat)> {
    if hs == [] then []
    else
      var h := hs[|hs| - 1];
      Attempts(hs[..|hs| - 1]) + if h.fate.Attempted? then [(h.log, h.fate.id)] else []
  }

  function Paid(ps: seq<Payout>): seq<(Log, nat)> {
    if ps == [] then [] else Paid(ps[..|ps| - 1]) + [(ps[|ps| - 1].log, ps[|ps| - 1].id)]
  }

  /** Attempts are the payouts, in order; each processed hash is decided once; every log reached is handled. */
  ghost predicate HandledOk(s: State) {
    && Attempts(s.handled) == Paid(s.payouts)
    && (forall tx :: tx in s.processed <==> Decided(s.handled, tx))
    && DecidedOnce(s.handled)
    && (forall i :: 0 <= i < |s.done| ==> AllLogged(s.handled, s.done[i].logs, |s.done[i].logs|))
    && ReachedOk(s)
  }

  predicate ReachedOk(s: State) {
    match s.poller
    case Processing(b, n) => AllLogged(s.handled, b.logs, n)
    case AskingBalance(b, n, id) =>
      && AllLogged(s.handled, b.logs, n) && 0 < n <= |b.logs|
      && s.handled != [] && s.handled[|s.handled| - 1] == Handling(b.logs[n - 1], Asked(id))
    case Sending(b, n, id) => AllLogged(s.handled, b.logs, n)
    case _ => true
  }

  lemma LoggedMore(hs: seq<Handling>, more: seq<Handling>, logs: seq<Log>, n: nat)
    requires AllLogged(hs, logs, n) && |hs| <= |more| && forall j :: 0 <= j < |hs| ==> more[j].log == hs[j].log
    ensures AllLogged(more, logs, n)
  {
    forall k | 0 <= k < |logs| && k < n ensures Logged(more, logs[k]) {
      assert Logged(hs, logs[k]);
      var j :| 0 <= j < |hs| && hs[j].log == logs[k];
      assert more[j].log == logs[k];
    }
  }

  /** A handling added: what is decided grows by its hash unless it repeats one. */
  lemma HandleOne(hs: seq<Handling>, h: Handling)
    requires DecidedOnce(hs) && (h.fate.Repeated? || !Decided(hs, h.log.tx)) && !h.fate.Attempted?
    ensures var more := hs + [h];
            && DecidedOnce(more) && Attempts(more) == Attempts(hs) && Logged(more, h.log)
            && forall tx :: Decided(more, tx) <==> Decided(hs, tx) || Decides(h, tx)
  {
    var more := hs + [h];
    assert more[..|more| - 1] == hs && more[|hs|] == h;
    forall tx ensures Decided(more, tx) <==> Decided(hs, tx) || Decides(h, tx) {
      if Decided(hs, tx) {
        var j :| 0 <= j < |hs| && Decides(hs[j], tx);
        assert Decides(more[j], tx);
      }
      if Decides(h, tx) { assert Decides(more[|hs|], tx); }
    }
    forall j | 0 <= j < |hs| && !hs[j].fate.Repeated? ensures h.fate.Repeated? || hs[j].log.tx != h.log.tx {
      assert Decides(hs[j], hs[j].log.tx);
    }
  }

  /** The last handling's fate decided further: the same hashes are decided. */
  lemma {:induction false} SettleOne(hs: seq<Handling>, fate: Fate)
    requires DecidedOnce(hs) && hs != [] && hs[|hs| - 1].fate.Asked? && (fate.Short? || fate.Attempted?)
    ensures var more := Settle(hs, fate);
            && DecidedOnce(more) && (forall tx :: Decided(more, tx) <==> Decided(hs, tx))
            && Attempts(more) == Attempts(hs) + if fate.Attempted? then [(hs[|hs| - 1].log, fate.id)] else []
  {
    var more, n := Settle(hs, fate), |hs| - 1;
    assert more[..n] == hs[..n];
    assert forall j, tx :: 0 <= j < |hs| ==> (Decides(more[j], tx) <==> Decides(hs[j], tx));
  }

  lemma HandledNext(s: State, live: set<nat>)
    requires HandledOk(s)
    ensures HandledOk(OnNext(s, live))
  {
    hide OldestOf, Attempts, Paid;
    var t := OnNext(s, live);
    if s.poller.Processing? && s.poller.next < |s.poller.batch.logs| {
      var b, n := s.poller.batch, s.poller.next;
      var h := t.handled[|s.handled|];
      assert Decided(s.handled, b.logs[n].tx) <==> b.logs[n].tx in s.processed;
      HandleOne(s.handled, h);
      LoggedMore(s.handled, t.handled, b.logs, n);
      forall i | 0 <= i < |s.done| ensures AllLogged(t.handled, s.done[i].logs, |s.done[i].logs|) {
        LoggedMore(s.handled, t.handled, s.done[i].logs, |s.done[i].logs|);
      }
    }
  }

  lemma HandledBalance(s: State, balance: nat)
    requires HandledOk(s)
    ensures HandledOk(OnBalance(s, balance))
  {
    hide Attempts;
    var t := OnBalance(s, balance);
    if t != s {
      var b, n, id := s.poller.batch, s.poller.next, s.poller.id;
      SettleOne(s.handled, Short(id));
      SettleOne(s.handled, Attempted(id));
      assert t.handled == Settle(s.handled, if t.payouts == s.payouts then Short(id) else Attempted(id));
      if t.payouts != s.payouts { assert t.payouts[..|t.payouts| - 1] == s.payouts; }
      LoggedMore(s.handled, t.handled, b.logs, n);
      forall i | 0 <= i < |s.done| ensures AllLogged(t.handled, s.done[i].logs, |s.done[i].logs|) {
        LoggedMore(s.handled, t.handled, s.done[i].logs, |s.done[i].logs|);
      }
    }
  }

  lemma HandledElse(s: State, e: Event)
    requires HandledOk(s) && !e.Next? && !e.Balance?
    ensures HandledOk(Step(s, e))
  {
    hide Attempts, Paid, Decided, DecidedOnce, Swept, PendingOf, ExactAmount, Draws, Logged;
  }

  lemma HandledStep(s: State, e: Event)
    requires HandledOk(s)
    ensures HandledOk(Step(s, e))
  {
    hide HandledOk;
    match e {
      case Next(live) => HandledNext(s, live);
      case Balance(balance) => HandledBalance(s, balance);
      case _ => HandledElse(s, e);
    }
  }

  lemma {:induction false} RunHandled(marker: int, es: seq<Event>)
    ensures HandledOk(Run(Fresh(marker), es))
    decreases |es|
  {
    if es != [] {
      RunHandled(marker, es[..|es| - 1]);
      hide HandledOk, Step;
      HandledStep(Run(Fresh(marker), es[..|es| - 1]), es[|es| - 1]);
    }
  }

  /** A log is repeated exactly when its hash was seen, unmatched exactly when no live pending order has its amount. */
  lemma FateExact(s: State, live: set<nat>)
    requires s.poller.Processing? && s.poller.next < |s.poller.batch.logs|
    ensures var t, log := OnNext(s, live), s.poller.batch.logs[s.poller.next];
            && t.handled == s.handled + [t.handled[|s.handled|]] && t.handled[|s.handled|].log == log
            && var fate := t.handled[|s.handled|].fate;
               && (fate.Repeated? <==> log.tx in s.processed)
               && (fate.Unmatched?
                   <==> log.tx !in s.processed && forall id: nat :: !Eligible(s.orders, log.amount, live, id))
               && (fate.Asked? ==> Eligible(s.orders, log.amount, live, fate.id))
               && (fate.Repeated? || fate.Unmatched? || fate.Asked?)
  {
  }

  /** No restart fell between a matched payment and its balance. */
  predicate Undisturbed(s: State, es: seq<Event>) {
    es == [] || (Undisturbed(s, es[..|es| - 1])
                 && !(es[|es| - 1].Restart? && Run(s, es[..|es| - 1]).poller.AskingBalance?))
  }

  /** Only the payment the balance is being asked for is open. */
  predicate NoneOpen(s: State) {
    forall j :: 0 <= j < |s.handled| && s.handled[j].fate.Asked? ==> s.poller.AskingBalance? && j == |s.handled| - 1
  }

  lemma NoneOpenStep(s: State, e: Event)
    requires NoneOpen(s) && HandledOk(s) && CurrentOk(s) && !(e.Restart? && s.poller.AskingBalance?)
    ensures NoneOpen(Step(s, e))
  {
    hide Attempts, Paid, AllLogged, Decided, DecidedOnce, Swept, PendingOf, ExactAmount, Draws, OldestOf;
  }

  /** A payment left open stays so: its hash is never looked at again. */
  lemma OpenStays(s: State, e: Event)
    requires !NoneOpen(s)
    ensures !NoneOpen(Step(s, e))
  {
    var j :| 0 <= j < |s.handled| && s.handled[j].fate.Asked? && !(s.poller.AskingBalance? && j == |s.handled| - 1);
    hide Swept, PendingOf, ExactAmount, Draws, OldestOf;
    var t := Step(s, e);
    assert |t.handled| >= |s.handled| && t.handled[j] == s.handled[j];
    assert !(t.poller.AskingBalance? && j == |t.handled| - 1);
  }

  lemma RestartOpens(s: State, head: int)
    requires HandledOk(s) && s.poller.AskingBalance?
    ensures !NoneOpen(Step(s, Restart(head)))
  {
    hide Attempts, Paid, AllLogged, Decided, DecidedOnce;
    assert Step(s, Restart(head)).handled[|s.handled| - 1].fate.Asked?;
  }

  /** A matched payment is left open, neither paid nor refused, exactly when a restart fell there. */
  lemma {:induction false} RunOpenExact(marker: int, es: seq<Event>)
    ensures NoneOpen(Run(Fresh(marker), es)) <==> Undisturbed(Fresh(marker), es)
    decreases |es|
  {
    if es != [] {
      var s, e := Run(Fresh(marker), es[..|es| - 1]), es[|es| - 1];
      RunOpenExact(marker, es[..|es| - 1]);
      RunHandled(marker, es[..|es| - 1]);
      RunSafe(marker, es[..|es| - 1]);
      hide HandledOk, Step, NoneOpen, CurrentOk;
      if !NoneOpen(s) {
        OpenStays(s, e);
      } else if e.Restart? && s.poller.AskingBalance? {
        RestartOpens(s, e.head);
      } else {
        NoneOpenStep(s, e);
      }
    }
  }

  lemma {:induction false} AttemptedPaid(hs: seq<Handling>, log: Log, id: nat)
    ensures (log, id) in Attempts(hs) <==> exists j :: 0 <= j < |hs| && hs[j] == Handling(log, Attempted(id))
  {
    if hs != [] {
      var n := |hs| - 1;
      AttemptedPaid(hs[..n], log, id);
      assert hs[n] == Handling(log, Attempted(id)) ==>
               exists j :: 0 <= j < |hs| && hs[j] == Handling(log, Attempted(id));
      if j :| 0 <= j < n && hs[..n][j] == Handling(log, Attempted(id)) { assert hs[j] == Handling(log, Attempted(id)); }
      if j :| 0 <= j < |hs| && hs[j] == Handling(log, Attempted(id)) && j < n { assert hs[..n][j] == hs[j]; }
    }
  }

  lemma {:induction false} PaidIn(ps: seq<Payout>, log: Log, id: nat)
    ensures (log, id) in Paid(ps) <==> exists j :: 0 <= j < |ps| && ps[j].log == log && ps[j].id == id
  {
    if ps != [] {
      var n := |ps| - 1;
      PaidIn(ps[..n], log, id);
      if j :| 0 <= j < n && ps[..n][j].log == log && ps[..n][j].id == id { assert ps[j].log == log; }
      if j :| 0 <= j < |ps| && ps[j].log == log && ps[j].id == id && j < n { assert ps[..n][j] == ps[j]; }
    }
  }

  /**
   * No payment is lost: every log of a finished range was handled, its hash decided exactly once, and paid
   * exactly when that decision was an attempt. Undisturbed by restarts, it was otherwise matched by no
   * order, or its order exceeded the balance, or its balance is being asked for now.
   */
  lemma NoPaymentLost(marker: int, es: seq<Event>, i: nat, k: nat, j: nat)
    requires var s := Run(Fresh(marker), es);
             i < |s.done| && k < |s.done[i].logs| && j < |s.handled| && Decides(s.handled[j], s.done[i].logs[k].tx)
    ensures var s := Run(Fresh(marker), es);
            var log, h := s.done[i].logs[k], s.handled[j];
            && Logged(s.handled, log) && (forall m :: 0 <= m < |s.handled| && Decides(s.handled[m], log.tx) ==> m == j)
            && (PaidTx(s.payouts, log.tx) <==> h.fate.Attempted?)
            && (Undisturbed(Fresh(marker), es) ==>
                  h.fate.Attempted? || h.fate.Unmatched? || h.fate.Short?
                  || (s.poller.AskingBalance? && j == |s.handled| - 1))
  {
    var s := Run(Fresh(marker), es);
    var tx := s.done[i].logs[k].tx;
    RunHandled(marker, es);
    RunOpenExact(marker, es);
    hide Run, Undisturbed, Attempts, Paid;
    assert AllLogged(s.handled, s.done[i].logs, |s.done[i].logs|);
    if PaidTx(s.payouts, tx) {
      var m :| 0 <= m < |s.payouts| && s.payouts[m].log.tx == tx;
      PaidIn(s.payouts, s.payouts[m].log, s.payouts[m].id);
      AttemptedPaid(s.handled, s.payouts[m].log, s.payouts[m].id);
    }
    if s.handled[j].fate.Attempted? {
      PaidIn(s.payouts, s.handled[j].log, s.handled[j].fate.id);
      AttemptedPaid(s.handled, s.handled[j].log, s.handled[j].fate.id);
    }
  }

  /** Every hash of a finished range is decided. */
  lemma EveryHashDecided(marker: int, es: seq<Event>, i: nat, k: nat)
    requires var s := Run(Fresh(marker), es); i < |s.done| && k < |s.done[i].logs|
    ensures var s := Run(Fresh(marker), es); Decided(s.handled, s.done[i].logs[k].tx)
  {
    RunHandled(marker, es);
    RunSafe(marker, es);
    hide Run, Decided;
    var s := Run(Fresh(marker), es);
    assert Seen(s.done[i], |s.done[i].logs|, s.processed);
  }

  // ----- how every order ended -----

  /** The order's payout attempt has ended, as stated. */
  predicate EndedAs(s: State, id: nat, ok: bool) {
    exists j :: 0 <= j < |s.ended| && j < |s.payouts| && s.payouts[j].id == id && s.ended[j] == ok
  }

  /** A payment matched to the order found too little balance. */
  predicate WasShort(hs: seq<Handling>, id: nat) { exists j :: 0 <= j < |hs| && hs[j].fate == Short(id) }

  /**
   * Completed, under the payment's hash, are exactly the orders whose payout was sent; failed those whose payout
   * ended otherwise; without liquidity those whose payment found the balance short.
   */
  ghost predicate StatusTrue(s: State) {
    && |s.payouts| == |s.ended| + (if s.poller.Sending? then 1 else 0)
    && (forall id: nat :: id < |s.orders| ==> OrderTrue(s, id))
  }

  ghost predicate OrderTrue(s: State, id: nat)
    requires id < |s.orders|
  {
    && (s.orders[id].status == Completed <==> EndedAs(s, id, true))
    && (s.orders[id].status == DoliFailed <==> EndedAs(s, id, false))
    && (s.orders[id].status == NoLiquidity <==> WasShort(s.handled, id))
    && (s.orders[id].paidBy.Some? <==> s.orders[id].status == Completed)
  }

  /** Where payouts and shortages stay as they were and orders only expire or join. */
  lemma StatusCarry(s: State, t: State)
    requires StatusTrue(s) && t.payouts == s.payouts && t.ended == s.ended && (t.poller.Sending? <==> s.poller.Sending?)
    requires |s.orders| <= |t.orders| && forall id: nat :: WasShort(t.handled, id) <==> WasShort(s.handled, id)
    requires forall id: nat :: id < |s.orders| ==>
               t.orders[id].paidBy == s.orders[id].paidBy
               && (t.orders[id].status == s.orders[id].status || (Open(t.orders[id]) && Open(s.orders[id])))
    requires forall id: nat :: |s.orders| <= id < |t.orders| ==>
               Open(t.orders[id]) && t.orders[id].paidBy == None && !EndedAs(s, id, true) && !EndedAs(s, id, false)
               && !WasShort(s.handled, id)
    ensures StatusTrue(t)
  {
    hide WasShort;
    forall id: nat | id < |t.orders| ensures OrderTrue(t, id) {
      assert EndedAs(t, id, true) <==> EndedAs(s, id, true);
      assert EndedAs(t, id, false) <==> EndedAs(s, id, false);
      if id < |s.orders| { assert OrderTrue(s, id); }
    }
  }

  /** Payouts and shortages are of orders there are. */
  predicate IdsKnown(s: State) {
    && (forall j :: 0 <= j < |s.payouts| ==> s.payouts[j].id < |s.orders|)
    && (forall j :: 0 <= j < |s.handled| && s.handled[j].fate.Short? ==> s.handled[j].fate.id < |s.orders|)
  }

  lemma ShortMore(hs: seq<Handling>, h: Handling, id: nat)
    ensures WasShort(hs + [h], id) <==> WasShort(hs, id) || h.fate == Short(id)
  {
    if j :| 0 <= j < |hs| && hs[j].fate == Short(id) { assert (hs + [h])[j].fate == Short(id); }
    if h.fate == Short(id) { assert (hs + [h])[|hs|].fate == Short(id); }
  }

  lemma ShortSettled(hs: seq<Handling>, fate: Fate, id: nat)
    requires hs != [] && hs[|hs| - 1].fate.Asked?
    ensures WasShort(Settle(hs, fate), id) <==> WasShort(hs, id) || fate == Short(id)
  {
    var n := |hs| - 1;
    ShortMore(hs[..n], hs[n], id);
    ShortMore(hs[..n], Handling(hs[n].log, fate), id);
    assert hs == hs[..n] + [hs[n]] && Settle(hs, fate) == hs[..n] + [Handling(hs[n].log, fate)];
  }

  lemma StatusNext(s: State, live: set<nat>)
    requires StatusTrue(s) && IdsKnown(s)
    ensures StatusTrue(OnNext(s, live)) && IdsKnown(OnNext(s, live))
  {
    hide OldestOf;
    var t := OnNext(s, live);
    if t.handled != s.handled {
      var h := t.handled[|s.handled|];
      assert t.handled == s.handled + [h] && !h.fate.Short?;
      forall id: nat { ShortMore(s.handled, h, id); }
    }
    StatusCarry(s, t);
  }

  lemma StatusBalance(s: State, balance: nat)
    requires StatusTrue(s) && IdsKnown(s) && HandledOk(s) && CurrentOk(s)
    ensures StatusTrue(OnBalance(s, balance)) && IdsKnown(OnBalance(s, balance))
  {
    hide Attempts, Paid, AllLogged, Decided, DecidedOnce, RoundHalfUp, PaidTx, PaidId;
    var t := OnBalance(s, balance);
    if s.poller.AskingBalance? {
      var now := s.poller.id;
      var fate := if balance < s.orders[now].doli then Short(now) else Attempted(now);
      assert t.handled == Settle(s.handled, fate);
      forall id: nat ensures WasShort(t.handled, id) <==> WasShort(s.handled, id) || fate == Short(id) {
        ShortSettled(s.handled, fate, id);
      }
      hide WasShort, ReachedOk, HandledOk;
      forall id: nat | id < |t.orders| ensures OrderTrue(t, id) {
        assert OrderTrue(s, id);
        assert EndedAs(t, id, true) <==> EndedAs(s, id, true);
        assert EndedAs(t, id, false) <==> EndedAs(s, id, false);
      }
    }
  }

  lemma StatusSent(s: State, ok: bool)
    requires StatusTrue(s) && IdsKnown(s) && PaidOnce(s.payouts) && CurrentOk(s)
    ensures StatusTrue(OnSent(s, ok)) && IdsKnown(OnSent(s, ok))
  {
    hide RoundHalfUp, PaidTx, PaidId, WasShort;
    var t := OnSent(s, ok);
    if s.poller.Sending? {
      var now, m := s.poller.id, |s.ended|;
      assert t.ended[..m] == s.ended && t.ended[m] == ok && s.payouts[m].id == now;
      forall id: nat, r: bool ensures EndedAs(t, id, r) <==> EndedAs(s, id, r) || (id == now && r == ok) {
        if j :| 0 <= j < |s.ended| && s.payouts[j].id == id && s.ended[j] == r { assert t.ended[j] == r; }
        if id == now && r == ok { assert t.ended[m] == r && t.payouts[m].id == id; }
      }
      hide EndedAs;
      forall id: nat | id < |t.orders| ensures OrderTrue(t, id) { assert OrderTrue(s, id); }
    }
  }

  lemma StatusSweep(s: State, overdue: set<nat>)
    requires StatusTrue(s) && IdsKnown(s)
    ensures StatusTrue(OnSweep(s, overdue)) && IdsKnown(OnSweep(s, overdue))
  {
    var t := OnSweep(s, overdue);
    forall id: nat | id < |s.orders|
      ensures t.orders[id].paidBy == s.orders[id].paidBy
      ensures t.orders[id].status == s.orders[id].status || (Open(t.orders[id]) && Open(s.orders[id]))
    {
    }
    hide Swept, StatusTrue;
    StatusCarry(s, t);
  }

  lemma StatusElse(s: State, e: Event)
    requires StatusTrue(s) && IdsKnown(s)
    requires e.Wake? || e.Head? || e.Logs? || e.PollError? || e.Ask? || e.Create? || e.Restart?
    ensures StatusTrue(Step(s, e)) && IdsKnown(Step(s, e))
  {
    hide StatusTrue, ExactAmount, Draws, PendingOf;
    StatusCarry(s, Step(s, e));
  }

  lemma StatusStep(s: State, e: Event)
    requires StatusTrue(s) && IdsKnown(s) && HandledOk(s) && PaidOnce(s.payouts) && CurrentOk(s)
    ensures StatusTrue(Step(s, e)) && IdsKnown(Step(s, e))
  {
    hide StatusTrue, IdsKnown, HandledOk, PaidOnce, CurrentOk;
    match e {
      case Next(live) => StatusNext(s, live);
      case Balance(balance) => StatusBalance(s, balance);
      case Sent(ok) => StatusSent(s, ok);
      case Sweep(overdue) => StatusSweep(s, overdue);
      case _ => StatusElse(s, e);
    }
  }

  /** Over every run, every order's status says how it ended. */
  lemma {:induction false} RunStatus(marker: int, es: seq<Event>)
    ensures StatusTrue(Run(Fresh(marker), es)) && IdsKnown(Run(Fresh(marker), es))
    decreases |es|
  {
    if es != [] {
      var init := es[..|es| - 1];
      RunStatus(marker, init);
      RunHandled(marker, init);
      RunSafe(marker, init);
      hide HandledOk, Step, StatusTrue, IdsKnown, CurrentOk, PaidOnce;
      StatusStep(Run(Fresh(marker), init), es[|es| - 1]);
    }
  }

  // ----- value -----

  /** A payment matched to a two-decimal order exceeds its base, to any other falls short by under 4.5 thousandths. */
  lemma PaymentCovers(o: Order, amount: nat)
    requires OrderOk(o) && o.exact == 10 * RoundHalfUp(amount, CENT)
    ensures o.cents ==> amount > o.base
    ensures amount + 4 * MILL + MILL / 2 > o.base
  {
    RoundBounds(amount, CENT);
    hide RoundHalfUp;
  }

  /** No payment matches the order's amount, or its amount is half a cent or more above its base. */
  predicate Covered(o: Order) { o.exact % 10 != 0 || o.exact * MILL >= o.base + CENT / 2 }

  /** Every payment that matches an order is at least its base exactly when the order is covered. */
  lemma PaymentExact(o: Order)
    requires OrderOk(o)
    ensures (forall amount: nat :: o.exact == 10 * RoundHalfUp(amount, CENT) ==> amount >= o.base) <==> Covered(o)
  {
    forall amount: nat | o.exact == 10 * RoundHalfUp(amount, CENT) && Covered(o) ensures amount >= o.base {
      RoundBounds(amount, CENT);
    }
    if !Covered(o) {
      var least := o.exact * MILL - CENT / 2;
      assert o.exact == 10 * RoundHalfUp(least, CENT) && least < o.base;
    }
  }

  /** A two-decimal order is always covered. */
  lemma CentsCovered(o: Order)
    requires OrderOk(o) && o.cents
    ensures Covered(o)
  {
  }

  function Received(ps: seq<Payout>): nat {
    if ps == [] then 0 else Received(ps[..|ps| - 1]) + ps[|ps| - 1].log.amount
  }

  function PaidOut(ps: seq<Payout>): nat {
    if ps == [] then 0 else PaidOut(ps[..|ps| - 1]) + ps[|ps| - 1].doli
  }

  lemma {:induction false} Solvent(orders: seq<Order>, ps: seq<Payout>)
    requires forall j :: 0 <= j < |ps| ==>
               PayoutOk(orders, ps[j]) && OrderOk(orders[ps[j].id]) && Covered(orders[ps[j].id])
    ensures PaidOut(ps) <= RATE * Received(ps)
  {
    if ps != [] {
      var p := ps[|ps| - 1];
      assert PayoutOk(orders, p) && OrderOk(orders[p.id]);
      PaymentExact(orders[p.id]);
      Solvent(orders, ps[..|ps| - 1]);
    }
  }

  /**
   * While the orders paid are covered, a run never pays out more than the rate times what distinct payments
   * brought in.
   */
  lemma RunSolvent(marker: int, es: seq<Event>)
    requires var s := Run(Fresh(marker), es); forall j :: 0 <= j < |s.payouts| && s.payouts[j].id < |s.orders| ==>
               Covered(s.orders[s.payouts[j].id])
    ensures var ps := Run(Fresh(marker), es).payouts; PaidOut(ps) <= RATE * Received(ps)
  {
    RunSafe(marker, es);
    var s := Run(Fresh(marker), es);
    hide Run, RangesOk, OrderOk, Covered;
    Solvent(s.orders, s.payouts);
  }

  // ----- a run that pays out too much -----

  lemma Longer(s: State, es: seq<Event>, e: Event)
    ensures Run(s, es + [e]) == Step(Run(s, es), e)
  {
    hide Step;
    assert (es + [e])[..|es + [e]| - 1] == es;
  }

  function Ones(n: nat): seq<nat> { seq(n, _ => 1) }

  /** With every draw taken the amount is the fallback's. */
  lemma {:induction false} AllTaken(orders: seq<Order>, base: nat, n: nat, last: nat)
    requires Taken(orders, Draw(base, 1))
    ensures ExactAmount(orders, base, Ones(n), last) == (RoundHalfUp(base + last * MILL, MILL), false)
  {
    if n > 0 {
      assert Ones(n)[1..] == Ones(n - 1);
      AllTaken(orders, base, n - 1, last);
    }
  }

  /** 10.01 is ordered at 10.02, then 10.009 at 10.010, its draws all being 10.02. */
  function First(a: Address): Order { Order(a, 10_010 * MILL, 10_020, true, 10_010 * MILL * RATE, 0, Pending, None) }

  function Second(a: Address): Order { Order(a, 10_009 * MILL, 10_010, false, 10_009 * MILL * RATE, 0, Pending, None) }

  lemma TwoOrders(marker: int, a: Address, b: Address) returns (es: seq<Event>)
    requires a != b
    ensures Run(Fresh(marker), es) == Fresh(marker).(orders := [First(a), Second(b)])
  {
    hide Run, Step, ExactAmount;
    hide RoundHalfUp, PendingOf, Draws;
    var funds := 20_000 * MILL * RATE;
    var s0 := Fresh(marker);
    var s1 := s0.(requests := [Request(a, 10_010 * MILL)]);
    var s2 := s0.(orders := [First(a)]);
    var s3 := s2.(requests := [Request(b, 10_009 * MILL)]);
    es := [Ask(s1.requests[0])];
    Longer(s0, [], es[0]);
    EmptyRun(s0);
    AskOne(s0, s1.requests[0]);
    assert [] + es == es;
    var e := Create(0, funds, Ones(ATTEMPTS), 1, 0);
    Longer(s0, es, e);
    FirstAmount();
    CreateOne(s1, funds, 10_020, true);
    assert [] + [First(a)] == [First(a)];
    es := es + [e];
    assert Run(s0, es) == s2;
    Longer(s0, es, Ask(s3.requests[0]));
    AskOne(s2, s3.requests[0]);
    es := es + [Ask(s3.requests[0])];
    assert Run(s0, es) == s3;
    Longer(s0, es, e);
    SecondAmount(a);
    CreateOne(s3, funds, 10_010, false);
    assert [First(a)] + [Second(b)] == [First(a), Second(b)];
    es := es + [e];
  }

  lemma EmptyRun(s: State)
    ensures Run(s, []) == s
  {
  }

  lemma AskOne(s: State, r: Request)
    requires s.requests == [] && MIN_BASE <= r.base <= MAX_BASE && |s.orders| < MAX_PENDING
    ensures Step(s, Ask(r)) == s.(requests := [r])
  {
    FewPending(s.orders, r.address);
  }

  lemma {:induction false} FewPending(orders: seq<Order>, a: Address)
    ensures PendingOf(orders, a) <= |orders|
  {
    if orders != [] { FewPending(orders[..|orders| - 1], a); }
  }

  lemma CreateOne(s: State, funds: nat, exact: nat, cents: bool)
    requires |s.requests| == 1 && funds >= s.requests[0].base * RATE
    requires ExactAmount(s.orders, s.requests[0].base, Ones(ATTEMPTS), 1) == (exact, cents)
    ensures var r := s.requests[0];
            Step(s, Create(0, funds, Ones(ATTEMPTS), 1, 0))
            == s.(requests := [],
                  orders := s.orders + [Order(r.address, r.base, exact, cents, r.base * RATE, 0, Pending, None)])
  {
    hide ExactAmount;
    assert s.requests[..0] + s.requests[1..] == [];
    assert Draws(Ones(ATTEMPTS), 1);
  }

  lemma FirstAmount()
    ensures ExactAmount([], 10_010 * MILL, Ones(ATTEMPTS), 1) == (10_020, true)
  {
    assert Ones(ATTEMPTS)[0] == 1;
  }

  lemma SecondAmount(a: Address)
    ensures ExactAmount([First(a)], 10_009 * MILL, Ones(ATTEMPTS), 1) == (10_010, false)
  {
    var orders := [First(a)];
    assert orders[0].exact == Draw(10_009 * MILL, 1);
    AllTaken(orders, 10_009 * MILL, ATTEMPTS, 1);
  }

  /** A payment of 10.005 is paid out as 10.009: more than the rate times all that came in. */
  lemma RunInsolvent(marker: int, a: Address, b: Address, tx: Tx) returns (es: seq<Event>)
    requires a != b
    ensures var s := Run(Fresh(marker), es);
            && |s.payouts| == 1 && s.payouts[0].id < |s.orders| && !Covered(s.orders[s.payouts[0].id])
            && PaidOut(s.payouts) > RATE * Received(s.payouts)
  {
    var log := Log(tx, 10_005 * MILL);
    es := TwoOrders(marker, a, b);
    var s0 := Run(Fresh(marker), es);
    var live: set<nat> := {0, 1};
    OldestIsSecond(s0.orders, a, b, log.amount);
    hide Run;
    Longer(Fresh(marker), es, Head(marker + CONFIRMATIONS + 1));
    es := es + [Head(marker + CONFIRMATIONS + 1)];
    Longer(Fresh(marker), es, Logs([log]));
    es := es + [Logs([log])];
    Longer(Fresh(marker), es, Next(live));
    es := es + [Next(live)];
    Longer(Fresh(marker), es, Balance(10_009 * MILL * RATE));
    es := es + [Balance(10_009 * MILL * RATE)];
    OnePayout(Payout(log, 1, 10_009 * MILL * RATE));
    assert Run(Fresh(marker), es).payouts == [Payout(log, 1, 10_009 * MILL * RATE)];
    hide PaidOut, Received;
  }

  lemma OnePayout(p: Payout)
    ensures PaidOut([p]) == p.doli && Received([p]) == p.log.amount
  {
    assert [p][..0] == [];
  }

  lemma OldestIsSecond(orders: seq<Order>, a: Address, b: Address, amount: nat)
    requires orders == [First(a), Second(b)] && amount == 10_005 * MILL
    ensures OldestOf(orders, amount, {0, 1}, |orders|) == Some(1)
  {
  }

  /** Of orders with two-decimal amounts, a payment matches at most one. */
  lemma MatchUnique(orders: seq<Order>, amount: nat, live: set<nat>, a: nat, b: nat)
    requires OrdersOk(orders) && Eligible(orders, amount, live, a) && Eligible(orders, amount, live, b)
    requires orders[a].cents && orders[b].cents
    ensures a == b && OldestOf(orders, amount, live, |orders|).Some?
  {
  }

  // ----- the pending limit -----

  function Waiting(rs: seq<Request>, a: Address): nat {
    if rs == [] then 0 else Waiting(rs[..|rs| - 1], a) + if rs[|rs| - 1].address == a then 1 else 0
  }

  /** At no point of the run do more than `most` requests of the address wait together. */
  predicate CrowdAtMost(s: State, es: seq<Event>, a: Address, most: nat) {
    Waiting(Run(s, es).requests, a) <= most && (es == [] || CrowdAtMost(s, es[..|es| - 1], a, most))
  }

  lemma {:induction false} FewerPending(a: seq<Order>, b: seq<Order>, who: Address)
    requires |a| == |b| && OrdersMove(a, b)
    ensures PendingOf(b, who) <= PendingOf(a, who)
  {
    if a != [] {
      var n := |a| - 1;
      assert Moves(a[n], b[n]);
      FewerPending(a[..n], b[..n], who);
    }
  }

  lemma LastWaits(rs: seq<Request>, a: Address)
    requires rs != []
    ensures Waiting(rs, a) == Waiting(rs[..|rs| - 1], a) + if rs[|rs| - 1].address == a then 1 else 0
  {
  }

  lemma {:induction false} WaitingWithout(rs: seq<Request>, k: nat, a: Address)
    requires k < |rs|
    ensures Waiting(rs, a) == Waiting(rs[..k] + rs[k + 1..], a) + if rs[k].address == a then 1 else 0
    decreases |rs|
  {
    hide Waiting;
    var n := |rs| - 1;
    LastWaits(rs, a);
    if k < n {
      WaitingWithout(rs[..n], k, a);
      var rest := rs[..k] + rs[k + 1..];
      assert rest[..|rest| - 1] == rs[..n][..k] + rs[..n][k + 1..] && rest[|rest| - 1] == rs[n];
      LastWaits(rest, a);
    } else {
      assert rs[..k] + rs[k + 1..] == rs[..n];
    }
  }

  /** Orders pending plus requests waiting grow only by a request that found fewer than three pending. */
  lemma LimitStep(s: State, e: Event, a: Address, most: nat)
    requires PayoutsOk(s) && most >= 1
    requires PendingOf(s.orders, a) + Waiting(s.requests, a) <= MAX_PENDING - 1 + most
    requires Waiting(Step(s, e).requests, a) <= most
    ensures PendingOf(Step(s, e).orders, a) + Waiting(Step(s, e).requests, a) <= MAX_PENDING - 1 + most
  {
    if e.Create? {
      LimitCreate(s, e, a, most);
    } else if e.Ask? {
      LimitAsk(s, e.r, a, most);
    } else {
      PayoutsStep(s, e);
      SameCount(s, e);
      SameRequests(s, e);
      hide Step, OrdersMove, PayoutsOk;
      FewerPending(s.orders, Step(s, e).orders, a);
    }
  }

  lemma LimitCreate(s: State, e: Event, a: Address, most: nat)
    requires e.Create? && PendingOf(s.orders, a) + Waiting(s.requests, a) <= MAX_PENDING - 1 + most
    ensures PendingOf(Step(s, e).orders, a) + Waiting(Step(s, e).requests, a) <= MAX_PENDING - 1 + most
  {
    hide ExactAmount, Draws, Waiting;
    if e.k < |s.requests| { WaitingWithout(s.requests, e.k, a); }
  }

  lemma LimitAsk(s: State, r: Request, a: Address, most: nat)
    requires most >= 1 && PendingOf(s.orders, a) + Waiting(s.requests, a) <= MAX_PENDING - 1 + most
    requires Waiting(OnAsk(s, r).requests, a) <= most
    ensures PendingOf(OnAsk(s, r).orders, a) + Waiting(OnAsk(s, r).requests, a) <= MAX_PENDING - 1 + most
  {
    LastWaits(s.requests + [r], a);
    assert (s.requests + [r])[..|s.requests|] == s.requests;
    hide PendingOf, Waiting;
  }

  lemma SameRequests(s: State, e: Event)
    requires !e.Create? && !e.Ask?
    ensures Step(s, e).requests == s.requests || Step(s, e).requests == []
  {
    hide OldestOf, Swept;
  }

  /**
   * The limit per address holds up to the requests of that address that wait together: three exactly when
   * none overlap.
   */
  lemma {:induction false} PendingLimit(marker: int, es: seq<Event>, a: Address, most: nat)
    requires most >= 1 && CrowdAtMost(Fresh(marker), es, a, most)
    ensures var s := Run(Fresh(marker), es); PendingOf(s.orders, a) + Waiting(s.requests, a) <= MAX_PENDING - 1 + most
    decreases |es|
  {
    if es != [] {
      PendingLimit(marker, es[..|es| - 1], a, most);
      RunSafe(marker, es[..|es| - 1]);
      var s := Run(Fresh(marker), es[..|es| - 1]);
      hide Step, Run, RangesOk, PayoutsOk, OrdersOk;
      LastStep(Fresh(marker), es);
      LimitStep(s, es[|es| - 1], a, most);
    }
  }

  /** The limit is met exactly: with `most` requests waiting together, two more than that can be pending. */
  lemma LimitTight(marker: int, a: Address, most: nat) returns (es: seq<Event>)
    requires most >= 1
    ensures CrowdAtMost(Fresh(marker), es, a, most)
    ensures PendingOf(Run(Fresh(marker), es).orders, a) == MAX_PENDING - 1 + most
  {
    hide Step;
    es := Burst(Fresh(marker), [], a, 1, most);
    es := Burst(Fresh(marker), es, a, 1, most);
    es := Burst(Fresh(marker), es, a, most, most);
  }

  /** m requests let in on the same count, then all created. */
  lemma Burst(s: State, es: seq<Event>, a: Address, m: nat, most: nat) returns (longer: seq<Event>)
    requires m <= most && Run(s, es).requests == [] && CrowdAtMost(s, es, a, most)
    requires PendingOf(Run(s, es).orders, a) < MAX_PENDING
    ensures Run(s, longer).requests == [] && CrowdAtMost(s, longer, a, most)
    ensures PendingOf(Run(s, longer).orders, a) == PendingOf(Run(s, es).orders, a) + m
  {
    hide Step, Run, CrowdAtMost;
    longer := AskMany(s, es, a, m, most);
    longer := CreateMany(s, longer, a, m, most);
  }

  predicate AllOf(rs: seq<Request>, a: Address) { forall i :: 0 <= i < |rs| ==> rs[i] == Request(a, MIN_BASE) }

  lemma {:induction false} WaitingAll(rs: seq<Request>, a: Address)
    requires AllOf(rs, a)
    ensures Waiting(rs, a) == |rs|
  {
    if rs != [] { WaitingAll(rs[..|rs| - 1], a); }
  }

  lemma OneMore(s: State, es: seq<Event>, e: Event, a: Address, most: nat)
    requires CrowdAtMost(s, es, a, most)
    ensures Run(s, es + [e]) == Step(Run(s, es), e)
    ensures Waiting(Run(s, es + [e]).requests, a) <= most ==> CrowdAtMost(s, es + [e], a, most)
  {
    hide Step;
    assert (es + [e])[..|es + [e]| - 1] == es;
  }

  lemma {:induction false} AskMany(s: State, es: seq<Event>, a: Address, m: nat, most: nat) returns (longer: seq<Event>)
    requires m <= most && Run(s, es).requests == [] && CrowdAtMost(s, es, a, most)
    requires PendingOf(Run(s, es).orders, a) < MAX_PENDING
    ensures AllOf(Run(s, longer).requests, a) && |Run(s, longer).requests| == m
    ensures CrowdAtMost(s, longer, a, most) && Run(s, longer).orders == Run(s, es).orders
    decreases m
  {
    hide Run, CrowdAtMost;
    if m == 0 { return es; }
    var shorter := AskMany(s, es, a, m - 1, most);
    var ask := Ask(Request(a, MIN_BASE));
    longer := shorter + [ask];
    OneMore(s, shorter, ask, a, most);
    WaitingAll(Run(s, longer).requests, a);
  }

  lemma {:induction false} CreateMany(s: State, es: seq<Event>, a: Address, m: nat, most: nat)
    returns (longer: seq<Event>)
    requires m <= most && AllOf(Run(s, es).requests, a) && |Run(s, es).requests| == m && CrowdAtMost(s, es, a, most)
    ensures Run(s, longer).requests == [] && CrowdAtMost(s, longer, a, most)
    ensures PendingOf(Run(s, longer).orders, a) == PendingOf(Run(s, es).orders, a) + m
    decreases m
  {
    hide Run, CrowdAtMost;
    if m == 0 { return es; }
    var create := Create(0, MIN_BASE * RATE, seq(ATTEMPTS, _ => 1), 1, 0);
    OneMore(s, es, create, a, most);
    CreateFirst(Run(s, es), a, create);
    WaitingAll(Run(s, es + [create]).requests, a);
    longer := CreateMany(s, es + [create], a, m - 1, most);
  }

  lemma CreateFirst(s: State, a: Address, e: Event)
    requires s.requests != [] && AllOf(s.requests, a) && e == Create(0, MIN_BASE * RATE, seq(ATTEMPTS, _ => 1), 1, 0)
    ensures var t := Step(s, e);
            && AllOf(t.requests, a) && |t.requests| == |s.requests| - 1
            && PendingOf(t.orders, a) == PendingOf(s.orders, a) + 1
  {
    hide ExactAmount;
    assert Draws(e.suffixes, 1);
    var t := Step(s, e);
    assert s.requests[..0] + s.requests[1..] == s.requests[1..];
    assert t.orders[..|t.orders| - 1] == s.orders;
  }

  // ----- the process -----

  /** The bot's fields; each method is one section between two awaits. */
  class Bot {
    var orders: seq<Order>
    var processed: set<Tx>
    var saved: Option<int>
    var last: int
    var poller: Poller
    var requests: seq<Request>
    ghost var handled: seq<Handling>
    ghost var payouts: seq<Payout>
    ghost var ended: seq<bool>
    ghost var done: seq<Batch>
    ghost var start: int

    ghost function Value(): State
      reads this
    {
      State(orders, processed, saved, last, poller, requests, handled, payouts, ended, done, start)
    }

    constructor (marker: int)
      ensures Value() == Fresh(marker)
    {
      orders, processed, saved, last, poller, requests := [], {}, None, marker, AskingHead, [];
      handled, payouts, ended, done, start := [], [], [], [], marker;
    }

    method GotHead(head: int)
      requires poller.AskingHead?
      modifies this`poller
      ensures Value() == OnHead(old(Value()), head) == Step(old(Value()), Head(head))
      ensures head - 5 <= last ==> poller == Sleeping
      ensures head - 5 > last ==>
                && poller.AskingLogs? && poller.lo == last + 1 && poller.head == head
                && poller.hi <= head - 5 && poller.hi <= poller.lo + 4999
                && (poller.hi == head - 5 || poller.hi == poller.lo + 4999)
    {
      var safe := head - CONFIRMATIONS;
      if safe > last {
        var lo := last + 1;
        var hi := if safe < lo + RANGE_BLOCKS - 1 then safe else lo + RANGE_BLOCKS - 1;
        poller := AskingLogs(lo, hi, head);
      } else {
        poller := Sleeping;
      }
    }

    method GotLogs(logs: seq<Log>)
      requires poller.AskingLogs?
      modifies this`poller
      ensures Value() == OnLogs(old(Value()), logs) == Step(old(Value()), Logs(logs))
      ensures poller == Processing(Batch(old(poller).lo, old(poller).hi, old(poller).head, logs), 0)
    {
      poller := Processing(Batch(poller.lo, poller.hi, poller.head, logs), 0);
    }

    /** The next log up to its await, or the end of the range: the marker moves only then. */
    method NextLog(live: set<nat>)
      requires poller.Processing?
      modifies this
      ensures Value() == OnNext(old(Value()), live) == Step(old(Value()), Next(live))
      ensures orders == old(orders) && requests == old(requests) && payouts == old(payouts)
      ensures var b, n := old(poller).batch, old(poller).next;
              if n >= |b.logs| then
                && last == b.hi && saved == Some(b.hi) && poller == Sleeping
                && processed == old(processed) && done == old(done) + [b]
              else
                && last == old(last) && saved == old(saved) && done == old(done)
                && processed == old(processed) + {b.logs[n].tx}
                && (poller.AskingBalance? ==>
                      && b.logs[n].tx !in old(processed) && poller == AskingBalance(b, n + 1, poller.id)
                      && Eligible(orders, b.logs[n].amount, live, poller.id)
                      && forall id: nat :: Eligible(orders, b.logs[n].amount, live, id) ==>
                           orders[poller.id].created <= orders[id].created)
                && (!poller.AskingBalance? ==>
                      && poller == Processing(b, n + 1)
                      && (b.logs[n].tx in old(processed)
                          || forall id: nat :: !Eligible(orders, b.logs[n].amount, live, id)))
    {
      var batch, next := poller.batch, poller.next;
      if next >= |batch.logs| {
        last := batch.hi;
        saved := Some(batch.hi);
        done := done + [batch];
        poller := Sleeping;
        return;
      }
      var entry := batch.logs[next];
      poller := Processing(batch, next + 1);
      if entry.tx in processed {
        handled := handled + [Handling(entry, Repeated)];
        return;
      }
      processed := processed + {entry.tx};
      var found := OldestOf(orders, entry.amount, live, |orders|);
      handled := handled + [Handling(entry, if found.None? then Unmatched else Asked(found.value))];
      if found.Some? { poller := AskingBalance(batch, next + 1, found.value); }
    }

    method GotBalance(balance: nat)
      requires poller.AskingBalance? && Inv(Value())
      modifies this
      ensures Value() == OnBalance(old(Value()), balance) == Step(old(Value()), Balance(balance))
      ensures Inv(Value())
      ensures var b, n, id := old(poller).batch, old(poller).next, old(poller).id;
              && id < |old(orders)| && 0 < n <= |b.logs|
              && (balance < old(orders)[id].doli ==>
                    && orders == old(orders)[id := old(orders)[id].(status := NoLiquidity)]
                    && payouts == old(payouts) && poller == Processing(b, n))
              && (balance >= old(orders)[id].doli ==>
                    && orders == old(orders) && poller == Sending(b, n, id)
                    && payouts == old(payouts) + [Payout(b.logs[n - 1], id, orders[id].doli)])
    {
      ghost var was := Value();
      hide RangesOk, OrdersOk, SettledOk, CompletedPaid, PaidOnce;
      var id, log := poller.id, poller.batch.logs[poller.next - 1];
      if balance < orders[id].doli {
        orders := orders[id := orders[id].(status := NoLiquidity)];
        poller := Processing(poller.batch, poller.next);
        handled := Settle(handled, Short(id));
      } else {
        handled := Settle(handled, Attempted(id));
        payouts := payouts + [Payout(log, id, orders[id].doli)];
        poller := Sending(poller.batch, poller.next, id);
      }
      InvStep(was, Balance(balance));
    }

    method PaymentEnded(ok: bool)
      requires poller.Sending? && Inv(Value())
      modifies this
      ensures Value() == OnSent(old(Value()), ok) == Step(old(Value()), Sent(ok))
      ensures Inv(Value())
      ensures var b, n, id := old(poller).batch, old(poller).next, old(poller).id;
              && id < |old(orders)| == |orders| && 0 < n <= |b.logs| && poller == Processing(b, n)
              && (ok ==> orders[id].status == Completed && orders[id].paidBy == Some(b.logs[n - 1].tx))
              && (!ok ==> orders[id].status == DoliFailed && orders[id].paidBy == old(orders)[id].paidBy)
              && (forall i: nat :: i < |orders| && i != id ==> orders[i] == old(orders)[i])
              && ended == old(ended) + [ok]
    {
      ghost var was := Value();
      hide RangesOk, OrdersOk, SettledOk, CompletedPaid, PaidOnce;
      var id, tx := poller.id, poller.batch.logs[poller.next - 1].tx;
      if ok {
        orders := orders[id := orders[id].(status := Completed, paidBy := Some(tx))];
      } else {
        orders := orders[id := orders[id].(status := DoliFailed)];
      }
      poller := Processing(poller.batch, poller.next);
      ended := ended + [ok];
      InvStep(was, Sent(ok));
    }

    method CleanupExpiredOrders(overdue: set<nat>)
      modifies this`orders
      ensures Value() == OnSweep(old(Value()), overdue) == Step(old(Value()), Sweep(overdue))
      ensures |orders| == |old(orders)|
      ensures forall i: nat :: i < |orders| ==>
                orders[i] == if old(orders)[i].status == Pending && i in overdue then old(orders)[i].(status := Expired)
                             else old(orders)[i]
    {
      orders := Swept(orders, overdue);
    }

    method AskOrder(r: Request) returns (accepted: bool)
      modifies this`requests
      ensures Value() == OnAsk(old(Value()), r) == Step(old(Value()), Ask(r))
      ensures accepted <==> MIN_BASE <= r.base <= MAX_BASE && PendingOf(orders, r.address) < MAX_PENDING
      ensures requests == old(requests) + if accepted then [r] else []
    {
      accepted := MIN_BASE <= r.base <= MAX_BASE && PendingOf(orders, r.address) < MAX_PENDING;
      if accepted { requests := requests + [r]; }
    }

    method CreateOrder(k: nat, available: nat, suffixes: seq<nat>, fallback: nat, now: int)
      requires k < |requests| && Draws(suffixes, fallback)
      modifies this`requests, this`orders
      ensures Value() == OnCreate(old(Value()), k, available, suffixes, fallback, now)
      ensures Value() == Step(old(Value()), Create(k, available, suffixes, fallback, now))
      ensures requests == old(requests)[..k] + old(requests)[k + 1..]
      ensures var r := old(requests)[k];
              if available < r.base * 10 then orders == old(orders)
              else
                && |orders| == |old(orders)| + 1 && orders[..|old(orders)|] == old(orders)
                && var o := orders[|old(orders)|];
                   && o.address == r.address && o.base == r.base && o.doli == r.base * 10 && o.created == now
                   && o.status == Pending && o.paidBy == None
                   && (o.exact, o.cents) == ExactAmount(old(orders), r.base, suffixes, fallback)
    {
      var r := requests[k];
      requests := requests[..k] + requests[k + 1..];
      if available < r.base * RATE { return; }
      var exact, cents := GenerateExactAmount(orders, r.base, suffixes, fallback);
      orders := orders + [Order(r.address, r.base, exact, cents, r.base * RATE, now, Pending, None)];
    }
  }
}
