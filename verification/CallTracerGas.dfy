/**
  The gas that the call tracer (packages/tracing-client/tracers/call_tracer.js) reports of calls: told by the
  first step inside a call, charged when the call returns or fails.
*/
module CallTracerGas {
  import opened Wrappers
  import opened CallTracers

  // ---- The frame of a call while its code runs ----

  /** A step that ends the wait for the first step inside a call. */
  predicate Clears(e: Event) {
    !Fails(e) && e.log.op in {Other, REVERT}
  }

  /** An event inside the call at place `n` of the stack: at its depth or deeper, not its own failure, and
      not taken for the first step inside it. */
  predicate Inner(s: State, e: Event, n: nat) {
    && e.log.depth >= n + 1
    && (|s.callstack| == n + 1 && Fails(e) ==> Top(s).error.Some?)
    && (|s.callstack| == n + 1 && Clears(e) ==> !s.descended)
  }

  ghost predicate InnerTrace(s: State, events: seq<Event>, n: nat)
    decreases |events|
  {
    events == [] || (s.callstack != [] && Inner(s, events[0], n) && InnerTrace(Next(s, events[0]), events[1..], n))
  }

  /** Callers are as before, and the call itself has at most more calls inside and an error. */
  predicate Kept(s: State, t: State, n: nat) {
    && |s.callstack| > n && |t.callstack| > n && t.callstack[..n] == s.callstack[..n]
    && t.callstack[n] == s.callstack[n].(calls := t.callstack[n].calls, error := t.callstack[n].error)
  }

  lemma InnerKeeps(s: State, e: Event, n: nat)
    requires |s.callstack| > n && Inner(s, e, n)
    ensures Kept(s, Next(s, e), n)
  {}

  lemma {:induction false} InnerTraceKeeps(s: State, events: seq<Event>, t: State, n: nat)
    requires |s.callstack| > n && Trace(s, events, t) && InnerTrace(s, events, n)
    ensures Kept(s, t, n)
    decreases |events|
  {
    if events != [] {
      InnerKeeps(s, events[0], n);
      InnerTraceKeeps(Next(s, events[0]), events[1..], t, n);
    }
  }

  /** After the first step inside. */
  function Entered(s: State, open: Log, enter: Log): State
    requires s.callstack != [] && Opens(open) && open.depth >= 1 && enter.depth >= 1
  {
    Step(Step(s, open), enter)
  }

  lemma EnteredFrame(s: State, open: Log, enter: Log)
    requires s.callstack != [] && Opens(open) && open.depth >= 1
    requires Plain(StepEvent(enter)) && enter.depth == |s.callstack| + 1
    ensures Entered(s, open, enter).callstack == s.callstack + [Opened(s, open).(gas := Some(enter.gas))]
  {}

  /** The call was attached to its caller, after the calls that the caller had. */
  predicate AttachedLast(s: State, t: State, c: Call)
    requires s.callstack != []
  {
    && |t.callstack| == |s.callstack| && t.callstack[..|s.callstack| - 1] == s.callstack[..|s.callstack| - 1]
    && Top(t) == Top(s).(calls := Top(s).calls + [c])
  }

  /** The call that a frame got last. */
  function LastCall(s: State): Call
    requires s.callstack != [] && Top(s).calls != []
  {
    Top(s).calls[|Top(s).calls| - 1]
  }

  /** The call opened, entered and run so far is on top of its callers. */
  ghost predicate Inside(s: State, open: Log, enter: Log, inner: seq<Event>, m: State) {
    && s.callstack != [] && Opens(open) && open.depth >= 1
    && Plain(StepEvent(enter)) && enter.depth == |s.callstack| + 1
    && Trace(Entered(s, open, enter), inner, m) && InnerTrace(Entered(s, open, enter), inner, |s.callstack|)
    && |m.callstack| == |s.callstack| + 1
  }

  lemma InsideFrame(s: State, open: Log, enter: Log, inner: seq<Event>, m: State)
    requires Inside(s, open, enter, inner, m)
    ensures Pop(m).callstack == s.callstack
    ensures Top(m) == Opened(s, open).(gas := Some(enter.gas), calls := Top(m).calls, error := Top(m).error)
  {
    EnteredFrame(s, open, enter);
    InnerTraceKeeps(Entered(s, open, enter), inner, m, |s.callstack|);
    LastOff(s, m);
  }

  /** A call that is opened and entered and returns, whatever happens inside, nested calls included, is
      attached to its caller with the gas told by its first step inside. It is charged what the caller had, less the
      price of the call, plus that gas, less what is left on return; a creation is charged without it. */
  lemma CallGas(s: State, open: Log, enter: Log, inner: seq<Event>, m: State, back: Log)
    requires Inside(s, open, enter, inner, m)
    requires Plain(StepEvent(back)) && back.depth == |s.callstack|
    ensures var t := Step(m, back);
      && t.callstack != [] && Top(t).calls != [] && AttachedLast(s, t, LastCall(t))
      && var c := LastCall(t);
      && c.id == s.count && c.op == Some(open.op) && c.info == open.info && c.calls == Top(m).calls
      && c.gas == Some(enter.gas) && c.gasIn == c.gasCost == None
      && c.gasUsed == Some(open.gas - open.cost + (if Creates(open.op) then 0 else enter.gas) - back.gas)
  {
    InsideFrame(s, open, enter, inner, m);
  }

  /** Such a call has the output that its return left behind if its result is not zero, a creation with the
      address made as well, and otherwise none. It has the error set inside, or if its result is zero and none
      was set, an internal failure. */
  lemma CallOutcome(s: State, open: Log, enter: Log, inner: seq<Event>, m: State, back: Log)
    requires Inside(s, open, enter, inner, m)
    requires Plain(StepEvent(back)) && back.depth == |s.callstack|
    ensures var t := Step(m, back);
      && t.callstack != [] && Top(t).calls != []
      && var c := LastCall(t);
      && c.output == (if back.result != 0 then Some(back.output) else None)
      && c.created == (if back.result != 0 && Creates(open.op) then Some(back.result) else None)
      && c.error == (if back.result != 0 || Top(m).error.Some? then Top(m).error else Some("internal failure"))
  {
    InsideFrame(s, open, enter, inner, m);
  }

  /** A call whose code ends with a revert, and which therefore returns zero, is reported as reverted and
      without output; a fault reported for the revert as well changes nothing. */
  lemma RevertedCall(s: State, open: Log, enter: Log, inner: seq<Event>, m: State, revert: Log,
      fault: Option<string>, back: Log)
    requires Inside(s, open, enter, inner, m)
    requires revert.op == REVERT && revert.error.None? && revert.depth == |s.callstack| + 1
    requires Plain(StepEvent(back)) && back.depth == |s.callstack| && back.result == 0
    ensures var r := Step(m, revert); r.callstack != [] && Fault(r, fault) == r
    ensures var t := Step(Step(m, revert), back);
      && t.callstack != [] && Top(t).calls != [] && AttachedLast(s, t, LastCall(t))
      && var c := LastCall(t);
      && c.id == s.count && c.calls == Top(m).calls && c.error == Some("execution reverted") && c.output == None
  {
    InsideFrame(s, open, enter, inner, m);
  }

  /** A call that is opened and entered and then fails, whatever happened inside, is attached to its caller
      with its error and no output, and charged all the gas it was given inside. */
  lemma FailedCallGas(s: State, open: Log, enter: Log, inner: seq<Event>, m: State, e: Event)
    requires Inside(s, open, enter, inner, m)
    requires Fails(e) && e.log.depth >= 1 && Top(m).error.None?
    ensures var t := Next(m, e);
      && t.callstack != [] && Top(t).calls != [] && AttachedLast(s, t, LastCall(t))
      && var c := LastCall(t);
      && c.id == s.count && c.op == Some(open.op) && c.info == open.info && c.calls == Top(m).calls
      && c.error == e.log.error && c.gas == c.gasUsed == Some(enter.gas) && c.output == None
      && c.gasIn == c.gasCost == None
  {
    InsideFrame(s, open, enter, inner, m);
  }

  lemma LastOff(s: State, m: State)
    requires s.callstack != [] && |m.callstack| == |s.callstack| + 1
    requires m.callstack[..|s.callstack|] == s.callstack
    ensures Pop(m).callstack == s.callstack
  {}

  // ---- Who is told the gas ----

  /** A step that changes the gas of a frame other than the one that the event before has opened. */
  predicate TellsLate(s: State, e: Event, justOpened: bool)
    requires s.callstack != [] && e.log.depth >= 1
  {
    var t := Next(s, e);
    exists n | 0 <= n < |s.callstack| && n < |t.callstack| ::
      t.callstack[n].gas != s.callstack[n].gas && (n < |s.callstack| - 1 || !justOpened)
  }

  /** Some step of the trace does so. */
  ghost predicate ToldLate(s: State, events: seq<Event>, justOpened: bool)
    decreases |events|
  {
    && events != [] && s.callstack != [] && events[0].log.depth >= 1
    && (TellsLate(s, events[0], justOpened) || ToldLate(Next(s, events[0]), events[1..], IsOpening(events[0])))
  }

  predicate IsOpening(e: Event) {
    !Fails(e) && Opens(e.log)
  }

  /** Whether the tracer waits for the first step inside a call that is gone: its first operation has
      failed, and neither has another call been opened since nor a step ended the wait. */
  predicate WaitsInVain(s: State, e: Event, before: bool)
    requires s.callstack != []
  {
    if Fails(e) then before || (s.descended && Top(s).error.None?)
    else before && !IsOpening(e) && !Clears(e)
  }

  /** The topmost frame's own step is taken for that first step. */
  predicate Misleads(s: State, e: Event, inVain: bool)
    requires s.callstack != []
  {
    inVain && Clears(e) && e.log.depth >= |s.callstack| && Top(s).gas != Some(e.log.gas)
  }

  ghost predicate Misled(s: State, events: seq<Event>, inVain: bool)
    decreases |events|
  {
    && events != [] && s.callstack != [] && events[0].log.depth >= 1
    && (Misleads(s, events[0], inVain)
        || Misled(Next(s, events[0]), events[1..], WaitsInVain(s, events[0], inVain)))
  }

  /** The first operation inside a call finds an empty stack of operands: it takes none, or it fails. */
  ghost predicate BeginsPlainly(events: seq<Event>) {
    forall i | 0 <= i < |events| - 1 && IsOpening(events[i]) && events[i + 1].log.depth == events[i].log.depth + 1 ::
      FirstInside(events[i + 1])
  }

  predicate FirstInside(e: Event) {
    Plain(e) || Fails(e)
  }

  /** What holds before an event: `justOpened` when the event before has opened a call. */
  predicate Waiting(s: State, e: Event, justOpened: bool, inVain: bool) {
    && s.callstack != [] && 1 <= e.log.depth <= |s.callstack|
    && (justOpened ==> !inVain && s.descended && Top(s).error.None?)
    && (justOpened && e.log.depth == |s.callstack| ==> FirstInside(e))
    && (inVain ==> s.descended)
    && (s.descended ==> justOpened || inVain || e.log.depth < |s.callstack|)
  }

  lemma QuietStep(s: State, e: Event, n: nat)
    requires s.callstack != [] && e.log.depth >= 1 && !Clears(e)
    requires n < |s.callstack| && n < |Next(s, e).callstack|
    ensures Next(s, e).callstack[n].gas == s.callstack[n].gas
  {}

  lemma ClearingStep(s: State, e: Event, n: nat)
    requires s.callstack != [] && e.log.depth >= 1 && Clears(e)
    requires n < |s.callstack| && n < |Next(s, e).callstack|
    ensures Next(s, e).callstack[n].gas
            == if s.descended && e.log.depth >= |s.callstack| && n == |s.callstack| - 1 then Some(e.log.gas)
               else s.callstack[n].gas
  {}

  lemma TellsLateExact(s: State, e: Event, justOpened: bool, inVain: bool)
    requires Waiting(s, e, justOpened, inVain)
    ensures TellsLate(s, e, justOpened) <==> Misleads(s, e, inVain)
  {
    forall n | 0 <= n < |s.callstack| && n < |Next(s, e).callstack|
      ensures Next(s, e).callstack[n].gas != s.callstack[n].gas ==> Clears(e)
    {
      if !Clears(e) {
        QuietStep(s, e, n);
      }
    }
    if Clears(e) {
      ClearingTells(s, e, justOpened, inVain);
    }
  }

  lemma ClearingTells(s: State, e: Event, justOpened: bool, inVain: bool)
    requires Waiting(s, e, justOpened, inVain) && Clears(e)
    ensures TellsLate(s, e, justOpened) <==> Misleads(s, e, inVain)
  {
    var t := Next(s, e);
    forall n | 0 <= n < |s.callstack| && n < |t.callstack|
      ensures t.callstack[n].gas
              == if s.descended && e.log.depth >= |s.callstack| && n == |s.callstack| - 1 then Some(e.log.gas)
                 else s.callstack[n].gas
    {
      ClearingStep(s, e, n);
    }
    assert e.log.depth >= |s.callstack| ==> |t.callstack| == |s.callstack|;
  }

  lemma StaysWaiting(s: State, e: Event, justOpened: bool, inVain: bool, next: Event)
    requires Waiting(s, e, justOpened, inVain) && Follows(e, next.log.depth) && next.log.depth >= 1
    requires IsOpening(e) && next.log.depth == e.log.depth + 1 ==> FirstInside(next)
    ensures Waiting(Next(s, e), next, IsOpening(e), WaitsInVain(s, e, inVain))
  {}

  lemma {:induction false} ToldLateExact(s: State, events: seq<Event>, justOpened: bool, inVain: bool)
    requires events != [] ==> Waiting(s, events[0], justOpened, inVain)
    requires FollowsEvm(events) && BeginsPlainly(events) && forall i | 0 <= i < |events| :: events[i].log.depth >= 1
    ensures ToldLate(s, events, justOpened) <==> Misled(s, events, inVain)
    decreases |events|
  {
    if events != [] {
      TellsLateExact(s, events[0], justOpened, inVain);
      if |events| > 1 {
        StaysWaiting(s, events[0], justOpened, inVain, events[1]);
        BeginsTail(events);
      }
      ToldLateExact(Next(s, events[0]), events[1..], IsOpening(events[0]), WaitsInVain(s, events[0], inVain));
    }
  }

  lemma BeginsTail(events: seq<Event>)
    requires events != [] && BeginsPlainly(events)
    ensures BeginsPlainly(events[1..])
  {
    var rest := events[1..];
    forall i | 0 <= i < |rest| - 1 && IsOpening(rest[i]) && rest[i + 1].log.depth == rest[i].log.depth + 1
      ensures FirstInside(rest[i + 1])
    {
      assert rest[i] == events[i + 1] && rest[i + 1] == events[i + 2];
    }
  }

  /** Along every trace that follows the EVM, no frame's gas is changed but by the step directly after the one
      that opened it, if and only if no step of a frame is taken for the first step inside a call whose first
      operation has failed. */
  lemma {:induction false} GasToldExact(events: seq<Event>)
    requires events != [] && events[0].log.depth == 1 && forall i | 0 <= i < |events| :: events[i].log.depth >= 1
    requires FollowsEvm(events) && BeginsPlainly(events)
    ensures ToldLate(Start(), events, false) <==> Misled(Start(), events, false)
  {
    ToldLateExact(Start(), events, false, false);
  }

  /** Such a trace: the first operation of a call made at depth 2 fails, and the gas told of the call at
      depth 2 changes from `told` to `later`. */
  function OverwritingTrace(told: int, later: int): seq<Event> {
    [
      StepEvent(Plainly(CALL, 1, 0)), StepEvent(Plainly(Other, 2, told)), StepEvent(Plainly(CALL, 2, 0)),
      FaultEvent(Plainly(Other, 3, 0)), StepEvent(Plainly(Other, 2, later)), StepEvent(Plainly(Other, 1, 0))]
  }

  lemma OverwritingFollows(told: int, later: int)
    ensures var events := OverwritingTrace(told, later); FollowsEvm(events) && BeginsPlainly(events)
  {
    var events := OverwritingTrace(told, later);
    assert events[5..][1..] == [];
    assert FollowsEvm(events[5..]);
    assert events[4..][1..] == events[5..] && events[3..][1..] == events[4..] && events[2..][1..] == events[3..];
    assert FollowsEvm(events[4..]) && FollowsEvm(events[3..]) && FollowsEvm(events[2..]);
    assert FollowsEvm(events[1..]);
  }

  lemma GasOverwritten(told: int, later: int)
    requires told != later
    ensures var events := OverwritingTrace(told, later);
      FollowsEvm(events) && BeginsPlainly(events) && Misled(Start(), events, false)
  {
    OverwritingFollows(told, later);
    var events := OverwritingTrace(told, later);
    var s1 := Next(Start(), events[0]);
    var s2 := Next(s1, events[1]);
    var s3 := Next(s2, events[2]);
    var s4 := Next(s3, events[3]);
    assert s4.callstack == s2.callstack[1 := s4.callstack[1]] && Top(s4).gas == Some(told);
    assert Misleads(s4, events[4], true);
    assert Misled(s4, events[4..], true);
    assert Misled(s3, events[3..], false);
    assert Misled(s2, events[2..], false);
    assert Misled(s1, events[1..], false);
  }
}
