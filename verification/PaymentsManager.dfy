/**
  The payments manager with its maps changed in place (packages/util/src/payments.ts), proved against
  Payments. Waiting for a voucher to arrive is left to the caller, who asks again.
*/
module PaymentsManagers {
  import opened Payments
  import opened Wrappers

  const INTROSPECTION_QUERY := "IntrospectionQuery"
  const INTROSPECTION_SELECTION := "__schema"

  /** The prices of the selections that are not free. */
  function PaidCosts(rates: map<string, int>, freeList: seq<string>, selections: seq<string>): seq<int> {
    if selections == [] then []
    else
      var rest, last := PaidCosts(rates, freeList, selections[..|selections| - 1]), selections[|selections| - 1];
      if last in freeList || last !in rates then rest else rest + [rates[last]]
  }

  /** What one selection costs: nothing if it is on the free list or has no price. */
  lemma OneCost(rates: map<string, int>, freeList: seq<string>, selection: string)
    ensures PaidCosts(rates, freeList, [selection])
         == if selection !in freeList && selection in rates then [rates[selection]] else []
  {
    assert [selection][..0] == [] && PaidCosts(rates, freeList, []) == [];
  }

  /** Several selections cost what each of them does, in order. */
  lemma {:induction false} CostsAppend(rates: map<string, int>, freeList: seq<string>, a: seq<string>, b: seq<string>)
    ensures PaidCosts(rates, freeList, a + b) == PaidCosts(rates, freeList, a) + PaidCosts(rates, freeList, b)
  {
    if b == [] {
      assert a + b == a;
    } else {
      CostsAppend(rates, freeList, a, b[..|b| - 1]);
      assert (a + b)[..|a + b| - 1] == a + b[..|b| - 1];
    }
  }

  /** A request costs nothing exactly if each of its selections is free or has no price. */
  lemma {:induction false} CostsNothing(rates: map<string, int>, freeList: seq<string>, selections: seq<string>)
    ensures PaidCosts(rates, freeList, selections) == []
      <==> forall i | 0 <= i < |selections| :: selections[i] in freeList || selections[i] !in rates
  {
    if selections != [] {
      CostsNothing(rates, freeList, selections[..|selections| - 1]);
    }
  }

  /** The free quota is asked once for each selection that is not free. */
  function FreeSelections(s: State, limit: nat, signer: string, n: nat): (State, Answer)
    decreases n
  {
    if n == 0 then (s, Allowed)
    else
      var (t, answer) := FreeRequest(s, limit, signer);
      if answer != Allowed then (t, answer) else FreeSelections(t, limit, signer, n - 1)
  }

  /** All of a request's selections are served by the free quota exactly if there is enough of it left. */
  lemma {:induction false} FreeSelectionsExact(s: State, limit: nat, signer: string, n: nat)
    ensures var (t, answer) := FreeSelections(s, limit, signer, n);
      && (answer == Allowed <==> n == 0 || n <= Remaining(s, limit, signer))
      && (answer == Allowed ==> FreeServed(t.served, signer) == FreeServed(s.served, signer) + n)
    decreases n
  {
    if n > 0 && Remaining(s, limit, signer) > 0 {
      FreeSelectionsExact(FreeRequest(s, limit, signer).0, limit, signer, n - 1);
      FreeCounted(s.served, signer, signer);
    }
  }

  datatype Header = Header(voucher: Option<Voucher>, signer: string)

  class PaymentsManager {
    const payers: Payers
    const freeQueriesLimit: Option<nat>
    const rates: map<string, int>
    const freeQueriesList: seq<string>
    var paidSoFarOnChannel: map<string, int>
    var receivedPayments: map<string, map<Voucher, int>>
    var remainingFreeQueriesMap: map<string, int>
    ghost var loaded: map<string, int>
    ghost var credits: seq<Credit>
    ghost var served: seq<Served>

    ghost function Model(): State
      reads this
    {
      State(paidSoFarOnChannel, receivedPayments, remainingFreeQueriesMap, loaded, credits, served)
    }

    function Limit(): (limit: nat)
      ensures freeQueriesLimit == Some(limit) || (freeQueriesLimit == None && limit == 10)
    {
      if freeQueriesLimit.Some? then freeQueriesLimit.value else DEFAULT_FREE_QUERIES_LIMIT
    }

    /** Starts from the open channels, as loadPaymentChannels does. */
    constructor (payers: Payers, freeQueriesLimit: Option<nat>, rates: map<string, int>, freeQueriesList: seq<string>,
        channels: map<string, nat>)
      ensures Init(Model()) && loaded.Keys == channels.Keys && (forall c | c in channels :: loaded[c] == channels[c])
      ensures this.payers == payers && this.freeQueriesLimit == freeQueriesLimit && this.rates == rates
          && this.freeQueriesList == freeQueriesList
    {
      this.payers, this.freeQueriesLimit, this.rates, this.freeQueriesList := payers, freeQueriesLimit, rates,
          freeQueriesList;
      paidSoFarOnChannel := map c | c in channels :: channels[c];
      receivedPayments, remainingFreeQueriesMap := map[], map[];
      loaded := map c | c in channels :: channels[c];
      credits, served := [], [];
    }

    /** What subscribeToVouchers does with one voucher. */
    method HandleVoucher(v: Voucher)
      modifies this
      ensures Model() == Receive(old(Model()), payers, v)
    {
      if v.amount == 0 {
        return;
      }
      var payer := payers(v.channel);
      var paid := if v.channel in paidSoFarOnChannel then paidSoFarOnChannel[v.channel] else 0;
      var paymentAmount := v.amount - paid;
      paidSoFarOnChannel := paidSoFarOnChannel[v.channel := v.amount];
      var paymentsMap := if payer in receivedPayments then receivedPayments[payer] else map[];
      receivedPayments := receivedPayments[payer := paymentsMap[v := paymentAmount]];
      credits := credits + [Credit(v.channel, paymentAmount)];
    }

    /** acceptReceivedPayment: whether the voucher was found, and whether it was worth enough. */
    method AcceptReceivedPayment(v: Voucher, signer: string, minRequiredValue: int)
      returns (found: bool, sufficient: bool)
      modifies this
      ensures var (t, answer) := PaidRequest(old(Model()), v, signer, minRequiredValue);
        && Model() == t && found == (answer != NotReceived) && sufficient == (answer == Allowed)
    {
      if signer !in receivedPayments {
        return false, false;
      }
      var paymentsMap := receivedPayments[signer];
      if v !in paymentsMap {
        return false, false;
      }
      if paymentsMap[v] < minRequiredValue {
        return true, false;
      }
      receivedPayments := receivedPayments[signer := paymentsMap - {v}];
      served := served + [Paid(signer, v, minRequiredValue)];
      return true, true;
    }

    /** allowRequest; no voucher stands for the empty voucher hash. */
    method AllowRequest(voucher: Option<Voucher>, signer: string, cost: int) returns (answer: Answer)
      modifies this
      ensures (Model(), answer) ==
        match voucher case None => FreeRequest(old(Model()), Limit(), signer)
            case Some(v) => PaidRequest(old(Model()), v, signer, cost)
    {
      match voucher
      case None =>
        var remaining := if signer in remainingFreeQueriesMap then remainingFreeQueriesMap[signer] else Limit();
        if remaining > 0 {
          remainingFreeQueriesMap := remainingFreeQueriesMap[signer := remaining - 1];
          served := served + [Free(signer)];
          return Allowed;
        }
        return QuotaExhausted;
      case Some(v) =>
        var found, sufficient := AcceptReceivedPayment(v, signer, cost);
        return if !found then NotReceived else if sufficient then Allowed else Insufficient;
    }

    method PaidSelections(selections: seq<string>) returns (costs: seq<int>)
      ensures costs == PaidCosts(rates, freeQueriesList, selections)
    {
      costs := [];
      for i := 0 to |selections|
        invariant costs == PaidCosts(rates, freeQueriesList, selections[..i])
      {
        assert selections[..i + 1][..i] == selections[..i];
        if selections[i] !in freeQueriesList && selections[i] in rates {
          costs := costs + [rates[selections[i]]];
        }
      }
      assert selections[..|selections|] == selections;
    }

    ghost function Outcome(s: State, header: Header, costs: seq<int>): (State, Answer) {
      match header.voucher
      case None => FreeSelections(s, Limit(), header.signer, |costs|)
      case Some(v) => Selections(s, v, header.signer, costs)
    }

    /** Every selection with a price is allowed: without a voucher by the free quota, with one by its worth. */
    ghost predicate Covered(s: State, header: Header, costs: seq<int>) {
      match header.voucher
      case None => |costs| <= Remaining(s, Limit(), header.signer)
      case Some(v) =>
        |costs| == 1 && v in ReceivedBy(s, header.signer) && ReceivedBy(s, header.signer)[v] >= costs[0]
    }

    /** validateGQLRequest: nothing is asked for introspection or free queries; otherwise every selection
        with a price has to be allowed. */
    method ValidateGQLRequest(operationName: string, selections: seq<string>, header: Option<Header>)
      returns (r: Result<()>)
      modifies this
      ensures var costs := PaidCosts(rates, freeQueriesList, selections);
        if (operationName == INTROSPECTION_QUERY && selections == [INTROSPECTION_SELECTION]) || costs == [] then
            r.Success? && Model() == old(Model())
        else if header.None? then r.Failure? && Model() == old(Model())
        else
          var (t, answer) := Outcome(old(Model()), header.value, costs);
          Model() == t && r.Success? == (answer == Allowed)
      ensures r.Success?
        <==> || (operationName == INTROSPECTION_QUERY && selections == [INTROSPECTION_SELECTION])
             || (forall i | 0 <= i < |selections| :: selections[i] in freeQueriesList || selections[i] !in rates)
             || (header.Some?
                 && Covered(old(Model()), header.value, PaidCosts(rates, freeQueriesList, selections)))
    {
      CostsNothing(rates, freeQueriesList, selections);
      if operationName == INTROSPECTION_QUERY && |selections| == 1 && selections[0] == INTROSPECTION_SELECTION {
        return Success(());
      }
      var costs := PaidSelections(selections);
      if |costs| == 0 {
        return Success(());
      }
      if header.None? {
        return Failure("Payment header x-payment not set");
      }
      r := AllowAll(header.value, costs);
    }

    method AllowAll(header: Header, costs: seq<int>) returns (r: Result<()>)
      modifies this
      ensures var (t, answer) := Outcome(old(Model()), header, costs); Model() == t && r.Success? == (answer == Allowed)
      ensures costs != [] ==> (r.Success? <==> Covered(old(Model()), header, costs))
      ensures r.Success? && costs != [] ==>
                match header.voucher
                case None => FreeServed(served, header.signer) == FreeServed(old(served), header.signer) + |costs|
                case Some(_) => CostServed(served, header.signer) == CostServed(old(served), header.signer) + costs[0]
    {
      FreeSelectionsExact(Model(), Limit(), header.signer, |costs|);
      if header.voucher.Some? && costs != [] {
        SelectionsExact(Model(), header.voucher.value, header.signer, costs);
        PaidCounted(Model(), header.voucher.value, header.signer, costs[0], header.signer);
      }
      for i := 0 to |costs|
        invariant Outcome(old(Model()), header, costs) == Outcome(Model(), header, costs[i..])
      {
        assert costs[i..][1..] == costs[i + 1..];
        var answer := AllowRequest(header.voucher, header.signer, costs[i]);
        if answer != Allowed {
          return Failure("Payment required");
        }
      }
      return Success(());
    }
  }
}
