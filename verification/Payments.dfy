/**
  Prepaid vouchers (packages/util/src/payments.ts): vouchers on a channel carry the amount paid so far, the
  difference to the last one is credited to the payer, and a query with a price spends one voucher.
*/
module Payments {
  const DEFAULT_FREE_QUERIES_LIMIT: nat := 10

  /** Vouchers are told apart by their hash, which channel and amount determine. */
  datatype Voucher = Voucher(channel: string, amount: int)

  datatype Served = Free(payer: string) | Paid(payer: string, voucher: Voucher, cost: int)

  datatype Credit = Credit(channel: string, amount: int)

  /** `paidSoFar`, `received` and `remainingFree` are the maps of the payments manager; `loaded` is what the
      channels had paid when it started. `credits` and `served` list what happened. */
  datatype State = State(
    paidSoFar: map<string, int>, received: map<string, map<Voucher, int>>, remainingFree: map<string, int>,
    loaded: map<string, int>, credits: seq<Credit>, served: seq<Served>)

  /** Who pays on a channel. */
  type Payers = string -> string

  function Get(m: map<string, int>, k: string): int {
    if k in m then m[k] else 0
  }

  function ReceivedBy(s: State, payer: string): map<Voucher, int> {
    if payer in s.received then s.received[payer] else map[]
  }

  // ---- Steps ----

  /** One round of subscribeToVouchers; a voucher without an amount is skipped. */
  function Receive(s: State, payers: Payers, v: Voucher): State {
    if v.amount == 0 then s
    else
      var amount := v.amount - Get(s.paidSoFar, v.channel);
      var payer := payers(v.channel);
      s.(paidSoFar := s.paidSoFar[v.channel := v.amount],
         received := s.received[payer := ReceivedBy(s, payer)[v := amount]],
         credits := s.credits + [Credit(v.channel, amount)])
  }

  datatype Answer = Allowed | NotReceived | Insufficient | QuotaExhausted

  function Remaining(s: State, limit: nat, signer: string): int {
    if signer in s.remainingFree then s.remainingFree[signer] else limit
  }

  /** allowRequest with the empty voucher hash. */
  function FreeRequest(s: State, limit: nat, signer: string): (State, Answer) {
    var left := Remaining(s, limit, signer);
    if left > 0 then (s.(remainingFree := s.remainingFree[signer := left - 1], served := s.served + [Free(signer)]),
        Allowed)
    else (s, QuotaExhausted)
  }

  /** allowRequest with a voucher, by way of acceptReceivedPayment. If the payment is not there the request
      waits and tries again, as a later step, or gives up. */
  function PaidRequest(s: State, v: Voucher, signer: string, cost: int): (State, Answer) {
    var payments := ReceivedBy(s, signer);
    if v !in payments then (s, NotReceived)
    else if payments[v] < cost then (s, Insufficient)
    else (s.(received := s.received[signer := payments - {v}], served := s.served + [Paid(signer, v, cost)]), Allowed)
  }

  datatype Step =
    | ReceiveVoucher(v: Voucher)
    | RequestFree(signer: string)
    | RequestPaid(voucher: Voucher, signer: string, cost: int)
    | EvictPayment(payer: string, evicted: Voucher)

  /** Vouchers on a channel never go down; prices are not negative; the cache may drop any payment, but no
      channel. */
  predicate Enabled(s: State, step: Step) {
    match step
    case ReceiveVoucher(v) => v.amount >= Get(s.paidSoFar, v.channel)
    case RequestFree(_) => true
    case RequestPaid(_, _, cost) => cost >= 0
    case EvictPayment(_, _) => true
  }

  function Next(s: State, payers: Payers, limit: nat, step: Step): State {
    match step
    case ReceiveVoucher(v) => Receive(s, payers, v)
    case RequestFree(signer) => FreeRequest(s, limit, signer).0
    case RequestPaid(v, signer, cost) => PaidRequest(s, v, signer, cost).0
    case EvictPayment(payer, v) => s.(received := s.received[payer := ReceivedBy(s, payer) - {v}])
  }

  ghost predicate Run(s: State, payers: Payers, limit: nat, steps: seq<Step>, t: State)
    decreases |steps|
  {
    if steps == [] then t == s
    else Enabled(s, steps[0]) && Run(Next(s, payers, limit, steps[0]), payers, limit, steps[1..], t)
  }

  ghost predicate Init(s: State) {
    && s.received == map[] && s.remainingFree == map[] && s.credits == [] && s.served == []
    && s.paidSoFar == s.loaded && forall c | c in s.loaded :: s.loaded[c] >= 0
  }

  // ---- Sums ----

  function ChannelCredits(credits: seq<Credit>, channel: string): int {
    if credits == [] then 0
    else
      var last := credits[|credits| - 1];
      ChannelCredits(credits[..|credits| - 1], channel) + if last.channel == channel then last.amount else 0
  }

  function PayerCredits(credits: seq<Credit>, payers: Payers, payer: string): int {
    if credits == [] then 0
    else
      var last := credits[|credits| - 1];
      PayerCredits(credits[..|credits| - 1], payers, payer) + if payers(last.channel) == payer then last.amount else 0
  }

  function CostServed(served: seq<Served>, payer: string): int {
    if served == [] then 0
    else
      var last := served[|served| - 1];
      CostServed(served[..|served| - 1], payer) + if last.Paid? && last.payer == payer then last.cost else 0
  }

  function FreeServed(served: seq<Served>, payer: string): nat {
    if served == [] then 0
    else FreeServed(served[..|served| - 1], payer) + if served[|served| - 1] == Free(payer) then 1 else 0
  }

  /** The payments that can still be spent. */
  ghost function Sum(m: map<Voucher, int>): int
    decreases |m|
  {
    if m == map[] then 0
    else
      var v :| v in m;
      m[v] + Sum(m - {v})
  }

  lemma {:induction false} SumWithout(m: map<Voucher, int>, v: Voucher)
    requires v in m
    ensures Sum(m) == m[v] + Sum(m - {v})
    decreases |m|
  {
    var u :| u in m && Sum(m) == m[u] + Sum(m - {u});
    if u != v {
      SumWithout(m - {u}, v);
      SumWithout(m - {v}, u);
      assert m - {u} - {v} == m - {v} - {u};
    }
  }

  lemma SumUpdate(m: map<Voucher, int>, v: Voucher, amount: int)
    ensures Sum(m[v := amount]) == amount + Sum(m - {v})
  {
    SumWithout(m[v := amount], v);
    assert m[v := amount] - {v} == m - {v};
  }

  lemma SumLess(m: map<Voucher, int>, v: Voucher)
    requires forall u | u in m :: m[u] >= 0
    ensures Sum(m - {v}) <= Sum(m)
  {
    if v in m {
      SumWithout(m, v);
    } else {
      assert m - {v} == m;
    }
  }

  // ---- The invariant ----

  predicate Holds(s: State, p: string, v: Voucher) {
    p in s.received && v in s.received[p]
  }

  /** Every payment that was received is behind the channel's last voucher, and not negative. */
  ghost predicate Behind(s: State, payers: Payers) {
    forall p, v | Holds(s, p, v) :: p == payers(v.channel) && s.received[p][v] >= 0
        && v.amount <= Get(s.paidSoFar, v.channel)
  }

  /** A voucher spent for a price is gone, or is there again without value. */
  ghost predicate Spent(s: State, payers: Payers) {
    forall i | 0 <= i < |s.served| && s.served[i].Paid? ::
      var Paid(p, v, cost) := s.served[i];
      && p == payers(v.channel) && v.amount <= Get(s.paidSoFar, v.channel) && cost >= 0
      && (cost > 0 && Holds(s, p, v) ==> s.received[p][v] == 0)
  }

  ghost predicate PayerLedger(s: State, payers: Payers, limit: nat, p: string) {
    && CostServed(s.served, p) + Sum(ReceivedBy(s, p)) <= PayerCredits(s.credits, payers, p)
    && 0 <= Remaining(s, limit, p) == limit - FreeServed(s.served, p)
  }

  ghost predicate ChannelLedger(s: State, c: string) {
    ChannelCredits(s.credits, c) == Get(s.paidSoFar, c) - Get(s.loaded, c)
  }

  ghost predicate Inv(s: State, payers: Payers, limit: nat) {
    && Behind(s, payers) && Spent(s, payers)
    && (forall p :: PayerLedger(s, payers, limit, p)) && forall c :: ChannelLedger(s, c)
  }

  // ---- Every step keeps the invariant ----

  lemma PaymentsNotNegative(s: State, payers: Payers, p: string)
    requires Behind(s, payers)
    ensures forall v | v in ReceivedBy(s, p) :: ReceivedBy(s, p)[v] >= 0
  {
    forall v | v in ReceivedBy(s, p)
      ensures ReceivedBy(s, p)[v] >= 0
    {
      assert Holds(s, p, v);
    }
  }

  lemma ReceiveBehind(s: State, payers: Payers, v: Voucher)
    requires Behind(s, payers) && Spent(s, payers) && Enabled(s, ReceiveVoucher(v))
    ensures var t := Receive(s, payers, v); Behind(t, payers) && Spent(t, payers)
  {
    var t := Receive(s, payers, v);
    if v.amount != 0 {
      forall c
        ensures Get(s.paidSoFar, c) <= Get(t.paidSoFar, c)
      {}
    }
  }

  lemma CreditAdded(credits: seq<Credit>, credit: Credit, payers: Payers, p: string)
    ensures PayerCredits(credits + [credit], payers, p)
         == PayerCredits(credits, payers, p) + if payers(credit.channel) == p then credit.amount else 0
  {
    assert (credits + [credit])[..|credits|] == credits;
  }

  lemma PaymentAdded(s: State, payers: Payers, p: string, v: Voucher, amount: int)
    requires Behind(s, payers)
    ensures Sum(ReceivedBy(s, p)[v := amount]) <= Sum(ReceivedBy(s, p)) + amount
  {
    PaymentsNotNegative(s, payers, p);
    SumUpdate(ReceivedBy(s, p), v, amount);
    SumLess(ReceivedBy(s, p), v);
  }

  lemma ReceivedAfter(s: State, payers: Payers, v: Voucher, p: string)
    requires v.amount != 0
    ensures ReceivedBy(Receive(s, payers, v), p)
         == if payers(v.channel) == p then ReceivedBy(s, p)[v := v.amount - Get(s.paidSoFar, v.channel)]
             else ReceivedBy(s, p)
  {}

  lemma ReceiveLedger(s: State, payers: Payers, v: Voucher, limit: nat, p: string)
    requires Behind(s, payers) && Enabled(s, ReceiveVoucher(v)) && PayerLedger(s, payers, limit, p)
    ensures PayerLedger(Receive(s, payers, v), payers, limit, p)
  {
    if v.amount != 0 {
      var amount := v.amount - Get(s.paidSoFar, v.channel);
      CreditAdded(s.credits, Credit(v.channel, amount), payers, p);
      ReceivedAfter(s, payers, v, p);
      if payers(v.channel) == p {
        PaymentAdded(s, payers, p, v, amount);
      }
    }
  }

  lemma ReceiveChannel(s: State, payers: Payers, v: Voucher, c: string)
    requires ChannelLedger(s, c)
    ensures ChannelLedger(Receive(s, payers, v), c)
  {
    var amount := v.amount - Get(s.paidSoFar, v.channel);
    assert (s.credits + [Credit(v.channel, amount)])[..|s.credits|] == s.credits;
  }

  lemma FreeCounted(served: seq<Served>, signer: string, p: string)
    ensures CostServed(served + [Free(signer)], p) == CostServed(served, p)
    ensures FreeServed(served + [Free(signer)], p) == FreeServed(served, p) + if signer == p then 1 else 0
  {
    assert (served + [Free(signer)])[..|served|] == served;
  }

  lemma FreeLedger(s: State, payers: Payers, limit: nat, signer: string, p: string)
    requires PayerLedger(s, payers, limit, p)
    ensures PayerLedger(FreeRequest(s, limit, signer).0, payers, limit, p)
  {
    if Remaining(s, limit, signer) > 0 {
      FreeCounted(s.served, signer, p);
      var t := FreeRequest(s, limit, signer).0;
      assert t.served == s.served + [Free(signer)] && ReceivedBy(t, p) == ReceivedBy(s, p);
      assert Remaining(t, limit, p) == Remaining(s, limit, p) - if signer == p then 1 else 0;
    }
  }

  lemma PaidBehind(s: State, payers: Payers, v: Voucher, signer: string, cost: int)
    requires Behind(s, payers) && Spent(s, payers) && cost >= 0
    ensures var t := PaidRequest(s, v, signer, cost).0; Behind(t, payers) && Spent(t, payers)
  {}

  lemma PaidLedger(s: State, payers: Payers, limit: nat, v: Voucher, signer: string, cost: int, p: string)
    requires Behind(s, payers) && PayerLedger(s, payers, limit, p) && cost >= 0
    ensures PayerLedger(PaidRequest(s, v, signer, cost).0, payers, limit, p)
  {
    assert (s.served + [Paid(signer, v, cost)])[..|s.served|] == s.served;
    if signer == p && v in ReceivedBy(s, p) {
      SumWithout(ReceivedBy(s, p), v);
    }
  }

  lemma EvictLedger(s: State, payers: Payers, limit: nat, payer: string, v: Voucher, p: string)
    requires Behind(s, payers) && PayerLedger(s, payers, limit, p)
    ensures PayerLedger(Next(s, payers, limit, EvictPayment(payer, v)), payers, limit, p)
  {
    if payer == p {
      PaymentsNotNegative(s, payers, p);
      SumLess(ReceivedBy(s, p), v);
    }
  }

  lemma PayerKept(s: State, payers: Payers, limit: nat, step: Step, p: string)
    requires Inv(s, payers, limit) && Enabled(s, step)
    ensures PayerLedger(Next(s, payers, limit, step), payers, limit, p)
  {
    assert PayerLedger(s, payers, limit, p);
    match step
    case ReceiveVoucher(v) => ReceiveLedger(s, payers, v, limit, p);
    case RequestFree(signer) => FreeLedger(s, payers, limit, signer, p);
    case RequestPaid(v, signer, cost) => PaidLedger(s, payers, limit, v, signer, cost, p);
    case EvictPayment(payer, v) => EvictLedger(s, payers, limit, payer, v, p);
  }

  lemma ChannelKept(s: State, payers: Payers, limit: nat, step: Step, c: string)
    requires ChannelLedger(s, c)
    ensures ChannelLedger(Next(s, payers, limit, step), c)
  {
    if step.ReceiveVoucher? {
      ReceiveChannel(s, payers, step.v, c);
    }
  }

  lemma EvictBehind(s: State, payers: Payers, limit: nat, payer: string, v: Voucher)
    requires Behind(s, payers) && Spent(s, payers)
    ensures var t := Next(s, payers, limit, EvictPayment(payer, v)); Behind(t, payers) && Spent(t, payers)
  {}

  lemma BehindKept(s: State, payers: Payers, limit: nat, step: Step)
    requires Behind(s, payers) && Spent(s, payers) && Enabled(s, step)
    ensures var t := Next(s, payers, limit, step); Behind(t, payers) && Spent(t, payers)
  {
    match step
    case ReceiveVoucher(v) => ReceiveBehind(s, payers, v);
    case RequestFree(_) =>
    case RequestPaid(v, signer, cost) => PaidBehind(s, payers, v, signer, cost);
    case EvictPayment(payer, v) => EvictBehind(s, payers, limit, payer, v);
  }

  lemma StepKeeps(s: State, payers: Payers, limit: nat, step: Step)
    requires Inv(s, payers, limit) && Enabled(s, step)
    ensures Inv(Next(s, payers, limit, step), payers, limit)
  {
    BehindKept(s, payers, limit, step);
    forall p
      ensures PayerLedger(Next(s, payers, limit, step), payers, limit, p)
    {
      PayerKept(s, payers, limit, step, p);
    }
    forall c
      ensures ChannelLedger(Next(s, payers, limit, step), c)
    {
      ChannelKept(s, payers, limit, step, c);
    }
  }

  lemma {:induction false} RunKeeps(s: State, payers: Payers, limit: nat, steps: seq<Step>, t: State)
    requires Inv(s, payers, limit) && Run(s, payers, limit, steps, t)
    ensures Inv(t, payers, limit) && t.loaded == s.loaded
    decreases |steps|
  {
    if steps != [] {
      StepKeeps(s, payers, limit, steps[0]);
      RunKeeps(Next(s, payers, limit, steps[0]), payers, limit, steps[1..], t);
    }
  }

  lemma InitInv(s: State, payers: Payers, limit: nat)
    requires Init(s)
    ensures Inv(s, payers, limit)
  {
    forall p
      ensures PayerLedger(s, payers, limit, p)
    {}
  }

  // ---- What holds in every run ----

  /** The credits of a channel add up to its last voucher's amount less what it had paid at the start. */
  lemma CreditsTelescope(s: State, payers: Payers, limit: nat, steps: seq<Step>, t: State, c: string)
    requires Init(s) && Run(s, payers, limit, steps, t)
    ensures ChannelCredits(t.credits, c) == Get(t.paidSoFar, c) - Get(s.loaded, c)
  {
    InitInv(s, payers, limit);
    RunKeeps(s, payers, limit, steps, t);
    assert ChannelLedger(t, c);
  }

  /** What was served to a payer never costs more than what was credited to that payer. */
  lemma ServedWithinCredits(s: State, payers: Payers, limit: nat, steps: seq<Step>, t: State, p: string)
    requires Init(s) && Run(s, payers, limit, steps, t)
    ensures CostServed(t.served, p) <= PayerCredits(t.credits, payers, p)
  {
    InitInv(s, payers, limit);
    RunKeeps(s, payers, limit, steps, t);
    assert PayerLedger(t, payers, limit, p);
    PaymentsNotNegative(t, payers, p);
    SumAtLeastZero(ReceivedBy(t, p));
  }

  lemma {:induction false} SumAtLeastZero(m: map<Voucher, int>)
    requires forall v | v in m :: m[v] >= 0
    ensures Sum(m) >= 0
    decreases |m|
  {
    if m != map[] {
      var v :| v in m && Sum(m) == m[v] + Sum(m - {v});
      SumAtLeastZero(m - {v});
    }
  }

  /** Nobody is served more free queries than the limit. */
  lemma FreeWithinLimit(s: State, payers: Payers, limit: nat, steps: seq<Step>, t: State, p: string)
    requires Init(s) && Run(s, payers, limit, steps, t)
    ensures FreeServed(t.served, p) <= limit
  {
    InitInv(s, payers, limit);
    RunKeeps(s, payers, limit, steps, t);
    assert PayerLedger(t, payers, limit, p);
  }

  /** In every run a free query is allowed exactly as long as fewer than the limit were served, and it counts
      as one. */
  lemma FreeExact(s: State, payers: Payers, limit: nat, steps: seq<Step>, t: State, p: string)
    requires Init(s) && Run(s, payers, limit, steps, t)
    ensures var (u, answer) := FreeRequest(t, limit, p);
      && (answer == Allowed <==> FreeServed(t.served, p) < limit)
      && FreeServed(u.served, p) == FreeServed(t.served, p) + if answer == Allowed then 1 else 0
  {
    InitInv(s, payers, limit);
    RunKeeps(s, payers, limit, steps, t);
    assert PayerLedger(t, payers, limit, p);
    FreeCounted(t.served, p, p);
  }

  /** A voucher is worth to the payer of its channel what it adds to the amount paid on the channel so far:
      a request with a price is allowed exactly if the price is not more. */
  lemma VoucherWorth(s: State, payers: Payers, v: Voucher, cost: int)
    requires v.amount != 0
    ensures var t := Receive(s, payers, v);
      && PaidRequest(t, v, payers(v.channel), cost).1
         == (if Get(s.paidSoFar, v.channel) + cost <= v.amount then Allowed else Insufficient)
      && forall c :: Get(t.paidSoFar, c) == if c == v.channel then v.amount else Get(s.paidSoFar, c)
  {}

  /** A paid request that is allowed is counted with its price for the payer who signed it, and takes the
      payment; one that is refused changes nothing. */
  lemma PaidCounted(s: State, v: Voucher, signer: string, cost: int, p: string)
    ensures var (t, answer) := PaidRequest(s, v, signer, cost);
      && CostServed(t.served, p) == CostServed(s.served, p) + (if answer == Allowed && p == signer then cost else 0)
      && FreeServed(t.served, p) == FreeServed(s.served, p)
      && (answer == Allowed ==> ReceivedBy(s, signer).Keys == ReceivedBy(t, signer).Keys + {v})
      && (answer == Allowed ==> v !in ReceivedBy(t, signer))
      && (answer != Allowed ==> t == s)
      && (answer == NotReceived <==> v !in ReceivedBy(s, signer))
  {
    assert (s.served + [Paid(signer, v, cost)])[..|s.served|] == s.served;
  }

  /** Once a voucher has paid for something it pays for nothing more. */
  lemma SpentStaysSpent(s: State, payers: Payers, limit: nat, i: nat, signer: string, cost: int)
    requires Inv(s, payers, limit) && i < |s.served| && s.served[i].Paid? && s.served[i].cost > 0 && cost > 0
    ensures PaidRequest(s, s.served[i].voucher, signer, cost).1 != Allowed
  {
    var v := s.served[i].voucher;
    assert s.served[i].payer == payers(v.channel);
  }

  ghost predicate SpentOnce(served: seq<Served>) {
    forall i, j | 0 <= i < j < |served| && served[i].Paid? && served[j].Paid? && served[i].cost > 0
        && served[j].cost > 0 ::
      served[i].voucher != served[j].voucher
  }

  lemma SpentOnceKept(s: State, payers: Payers, limit: nat, step: Step)
    requires Inv(s, payers, limit) && Enabled(s, step) && SpentOnce(s.served)
    ensures SpentOnce(Next(s, payers, limit, step).served)
  {
    var t := Next(s, payers, limit, step);
    if step.RequestPaid? && step.cost > 0 && t != s {
      forall i | 0 <= i < |s.served| && s.served[i].Paid? && s.served[i].cost > 0
        ensures s.served[i].voucher != step.voucher
      {
        if s.served[i].voucher == step.voucher {
          SpentStaysSpent(s, payers, limit, i, step.signer, step.cost);
        }
      }
    }
  }

  /** In every run each voucher pays for at most one query that costs something. */
  lemma {:induction false} EachVoucherOnce(s: State, payers: Payers, limit: nat, steps: seq<Step>, t: State)
    requires Inv(s, payers, limit) && SpentOnce(s.served) && Run(s, payers, limit, steps, t)
    ensures SpentOnce(t.served)
    decreases |steps|
  {
    if steps != [] {
      SpentOnceKept(s, payers, limit, steps[0]);
      StepKeeps(s, payers, limit, steps[0]);
      EachVoucherOnce(Next(s, payers, limit, steps[0]), payers, limit, steps[1..], t);
    }
  }

  /** A step that spends or evicts the payment of `v`. */
  predicate Takes(s: State, payers: Payers, step: Step, v: Voucher) {
    var p := payers(v.channel);
    || step == EvictPayment(p, v)
    || (step.RequestPaid? && step.voucher == v && step.signer == p && PaidRequest(s, v, p, step.cost).1 == Allowed)
  }

  ghost predicate NeverTaken(s: State, payers: Payers, limit: nat, steps: seq<Step>, v: Voucher)
    decreases |steps|
  {
    steps != [] ==>
      !Takes(s, payers, steps[0], v) && NeverTaken(Next(s, payers, limit, steps[0]), payers, limit, steps[1..], v)
  }

  /** What one step makes of a payment that it does not take. */
  lemma PaymentAfter(s: State, payers: Payers, limit: nat, step: Step, v: Voucher)
    requires Behind(s, payers) && Enabled(s, step) && v.amount != 0 && !Takes(s, payers, step, v)
    requires v in ReceivedBy(s, payers(v.channel))
    ensures var p, t := payers(v.channel), Next(s, payers, limit, step);
      v in ReceivedBy(t, p) && ReceivedBy(t, p)[v] == if step == ReceiveVoucher(v) then 0 else ReceivedBy(s, p)[v]
  {
    assert Holds(s, payers(v.channel), v);
  }

  /** Over a run that neither spends nor evicts it, a payment keeps its worth if and only if its voucher is
      not delivered again: delivered again it is worth nothing, and every query with a price is refused. */
  lemma {:induction false} DeliveredTwice(s: State, payers: Payers, limit: nat, steps: seq<Step>, t: State, v: Voucher)
    requires Inv(s, payers, limit) && Run(s, payers, limit, steps, t) && NeverTaken(s, payers, limit, steps, v)
    requires v.amount != 0 && v in ReceivedBy(s, payers(v.channel))
    ensures var p := payers(v.channel);
      && v in ReceivedBy(t, p)
      && ReceivedBy(t, p)[v] == (if ReceiveVoucher(v) in steps then 0 else ReceivedBy(s, p)[v])
      && (ReceiveVoucher(v) in steps ==> forall cost | cost > 0 :: PaidRequest(t, v, p, cost).1 == Insufficient)
    decreases |steps|
  {
    if steps != [] {
      PaymentAfter(s, payers, limit, steps[0], v);
      StepKeeps(s, payers, limit, steps[0]);
      DeliveredTwice(Next(s, payers, limit, steps[0]), payers, limit, steps[1..], t, v);
    }
  }

  // ---- One request with several selections ----

  /** The loop of validateGQLRequest: every selection with a price is paid from the same voucher. */
  function Selections(s: State, v: Voucher, signer: string, costs: seq<int>): (State, Answer)
    decreases |costs|
  {
    if costs == [] then (s, Allowed)
    else
      var (t, answer) := PaidRequest(s, v, signer, costs[0]);
      if answer != Allowed then (t, answer) else Selections(t, v, signer, costs[1..])
  }

  /** A request succeeds exactly if it has no priced selection, or one whose price the payment covers: with
      a second one it fails, although its voucher is spent. */
  lemma {:induction false} SelectionsExact(s: State, v: Voucher, signer: string, costs: seq<int>)
    ensures Selections(s, v, signer, costs).1 == Allowed <==>
      costs == [] || (|costs| == 1 && v in ReceivedBy(s, signer) && ReceivedBy(s, signer)[v] >= costs[0])
    ensures |costs| > 1 && v in ReceivedBy(s, signer) && ReceivedBy(s, signer)[v] >= costs[0] ==>
      var (t, answer) := Selections(s, v, signer, costs); answer == NotReceived && v !in ReceivedBy(t, signer)
  {
    if |costs| > 1 {
      var (t, answer) := PaidRequest(s, v, signer, costs[0]);
      if answer == Allowed {
        assert v !in ReceivedBy(t, signer);
      }
    }
  }
}
