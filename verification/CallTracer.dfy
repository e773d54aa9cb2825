/**
  The call tracer (packages/tracing-client/tracers/call_tracer.js): a machine that follows the steps of the
  EVM and builds the tree of the calls they make.
*/
module CallTracers {
  import opened Wrappers

  datatype Op = CREATE | CREATE2 | CALL | CALLCODE | DELEGATECALL | STATICCALL | SELFDESTRUCT | REVERT | Other

  /** What the tracer is told of a step: `result` is the top of the stack, `info` what a new call records of
      the stack, the memory and the contract, `output` what a returning call left behind. */
  datatype Log = Log(
    op: Op, error: Option<string>, depth: nat, gas: int, cost: int,
    precompiled: bool, result: nat, info: string, output: string)

  /** A call record. Calls are numbered in the order in which they are opened; the outermost is 0. `created` is
      the address of the contract that a creation made. */
  datatype Call = Call(
    id: nat, op: Option<Op>, info: string, created: Option<nat>, gasIn: Option<int>, gasCost: Option<int>,
    gas: Option<int>, gasUsed: Option<int>, output: Option<string>, error: Option<string>, calls: seq<Call>)

  datatype State = State(callstack: seq<Call>, descended: bool, count: nat)

  const OUTERMOST := Call(0, None, "", None, None, None, None, None, None, None, [])

  function Start(): State {
    State([OUTERMOST], false, 1)
  }

  // ---- Steps ----

  predicate Creates(op: Op) {
    op == CREATE || op == CREATE2
  }

  /** A step that puts a call on the stack. */
  predicate Opens(log: Log) {
    log.error == None && (Creates(log.op) || (log.op in {CALL, CALLCODE, DELEGATECALL, STATICCALL} && !log.precompiled))
  }

  function Opened(s: State, log: Log): Call {
    Call(s.count, Some(log.op), log.info, None, Some(log.gas), Some(log.cost), None, None, None, None, [])
  }

  function Top(s: State): Call
    requires s.callstack != []
  {
    s.callstack[|s.callstack| - 1]
  }

  function WithTop(s: State, call: Call): State
    requires s.callstack != []
  {
    s.(callstack := s.callstack[|s.callstack| - 1 := call])
  }

  /** Adds a call to those of the topmost frame. */
  function Attach(s: State, call: Call): State
    requires s.callstack != []
  {
    WithTop(s, Top(s).(calls := Top(s).calls + [call]))
  }

  function Pop(s: State): State
    requires s.callstack != []
  {
    s.(callstack := s.callstack[..|s.callstack| - 1])
  }

  function Minus(a: Option<int>, b: Option<int>): int {
    (if a.Some? then a.value else 0) - (if b.Some? then b.value else 0)
  }

  /** The record of a call that has returned. */
  function Returned(call: Call, log: Log): Call {
    var used :=
      if call.op.Some? && Creates(call.op.value) then Some(Minus(call.gasIn, call.gasCost) - log.gas)
      else if call.gas.Some? then Some(Minus(call.gasIn, call.gasCost) + call.gas.value - log.gas)
      else call.gasUsed;
    var done := call.(gasUsed := used, gasIn := None, gasCost := None);
    if log.result != 0 then
      done.(output := Some(log.output),
            created := if call.op.Some? && Creates(call.op.value) then Some(log.result) else call.created)
    else if call.error == None then done.(error := Some("internal failure"))
    else done
  }

  function Failed(call: Call, error: Option<string>): Call {
    call.(error := error, gasUsed := if call.gas.Some? then call.gas else call.gasUsed, gasIn := None, gasCost := None)
  }

  function Fault(s: State, error: Option<string>): State
    requires s.callstack != []
  {
    if Top(s).error.Some? then s
    else
      var call, rest := Failed(Top(s), error), Pop(s);
      if rest.callstack != [] then Attach(rest, call) else rest.(callstack := [call])
  }

  /** The first step inside a call tells its gas. */
  function Descend(s: State, log: Log): State
    requires s.callstack != []
  {
    if !s.descended then s
    else if log.depth >= |s.callstack| then WithTop(s, Top(s).(gas := Some(log.gas))).(descended := false)
    else s.(descended := false)
  }

  function AfterDescent(s: State, log: Log): State
    requires s.callstack != [] && log.depth >= 1
  {
    if log.op == REVERT then WithTop(s, Top(s).(error := Some("execution reverted")))
    else if log.depth == |s.callstack| - 1 then Attach(Pop(s), Returned(Top(s), log))
    else s
  }

  function Step(s: State, log: Log): State
    requires s.callstack != [] && log.depth >= 1
  {
    if log.error.Some? then Fault(s, log.error)
    else if Opens(log) then State(s.callstack + [Opened(s, log)], true, s.count + 1)
    else if log.op == SELFDESTRUCT then Attach(s, Opened(s, log)).(count := s.count + 1)
    else if log.op in {CALL, CALLCODE, DELEGATECALL, STATICCALL} then s
    else AfterDescent(Descend(s, log), log)
  }

  /** What the EVM reports: steps, and operations that fail while they are executed. */
  datatype Event = StepEvent(log: Log) | FaultEvent(log: Log)

  function Next(s: State, e: Event): State
    requires s.callstack != [] && e.log.depth >= 1
  {
    match e
    case StepEvent(log) => Step(s, log)
    case FaultEvent(log) => Fault(s, log.error)
  }

  // ---- No call is lost ----

  /** The numbers of a call and the calls inside it, in order. */
  function Ids(c: Call): seq<nat>
    decreases c
  {
    [c.id] + IdsOf(c.calls)
  }

  function IdsOf(cs: seq<Call>): seq<nat>
    decreases cs
  {
    if cs == [] then [] else IdsOf(cs[..|cs| - 1]) + Ids(cs[|cs| - 1])
  }

  function Numbers(n: nat): seq<nat> {
    if n == 0 then [] else Numbers(n - 1) + [n - 1]
  }

  /** The calls on the stack, each with those attached to it, are all the calls opened, each once. */
  ghost predicate Inv(s: State) {
    s.callstack != [] && IdsOf(s.callstack) == Numbers(s.count)
  }

  lemma IdsAppend(cs: seq<Call>, c: Call)
    ensures IdsOf(cs + [c]) == IdsOf(cs) + Ids(c)
  {
    assert (cs + [c])[..|cs|] == cs;
  }

  /** Changing the topmost frame without touching its calls. */
  lemma TopKept(s: State, call: Call)
    requires s.callstack != [] && call.id == Top(s).id && call.calls == Top(s).calls
    ensures IdsOf(WithTop(s, call).callstack) == IdsOf(s.callstack)
  {
    assert WithTop(s, call).callstack[..|s.callstack| - 1] == s.callstack[..|s.callstack| - 1];
  }

  lemma AttachIds(s: State, call: Call)
    requires s.callstack != []
    ensures IdsOf(Attach(s, call).callstack) == IdsOf(s.callstack) + Ids(call)
  {
    assert Attach(s, call).callstack[..|s.callstack| - 1] == s.callstack[..|s.callstack| - 1];
    IdsAppend(Top(s).calls, call);
  }

  /** Taking the topmost frame off and attaching it to the one below keeps the order of all calls. */
  lemma FoldIds(s: State, call: Call)
    requires |s.callstack| > 1 && call.id == Top(s).id && call.calls == Top(s).calls
    ensures IdsOf(Attach(Pop(s), call).callstack) == IdsOf(s.callstack)
  {
    AttachIds(Pop(s), call);
  }

  lemma FaultKeeps(s: State, error: Option<string>)
    requires Inv(s)
    ensures Inv(Fault(s, error))
  {
    if Top(s).error.None? {
      if |s.callstack| > 1 {
        FoldIds(s, Failed(Top(s), error));
      } else {
        TopKept(s, Failed(Top(s), error));
        assert s.callstack[0 := Failed(Top(s), error)] == [Failed(Top(s), error)];
      }
    }
  }

  lemma DescendKeeps(s: State, log: Log)
    requires Inv(s)
    ensures Inv(Descend(s, log))
  {
    if s.descended && log.depth >= |s.callstack| {
      TopKept(s, Top(s).(gas := Some(log.gas)));
    }
  }

  lemma AfterDescentKeeps(s: State, log: Log)
    requires Inv(s) && log.depth >= 1
    ensures Inv(AfterDescent(s, log))
  {
    if log.op == REVERT {
      TopKept(s, Top(s).(error := Some("execution reverted")));
    } else if log.depth == |s.callstack| - 1 {
      FoldIds(s, Returned(Top(s), log));
    }
  }

  lemma OpenKeeps(s: State, log: Log)
    requires Inv(s)
    ensures IdsOf(s.callstack + [Opened(s, log)]) == Numbers(s.count + 1)
    ensures IdsOf(Attach(s, Opened(s, log)).callstack) == Numbers(s.count + 1)
  {
    assert Ids(Opened(s, log)) == [s.count];
    IdsAppend(s.callstack, Opened(s, log));
    AttachIds(s, Opened(s, log));
  }

  lemma StepKeeps(s: State, log: Log)
    requires Inv(s) && log.depth >= 1
    ensures Inv(Step(s, log))
  {
    if log.error.Some? {
      FaultKeeps(s, log.error);
    } else if Opens(log) || log.op == SELFDESTRUCT {
      OpenKeeps(s, log);
    } else if log.op !in {CALL, CALLCODE, DELEGATECALL, STATICCALL} {
      DescendKeeps(s, log);
      AfterDescentKeeps(Descend(s, log), log);
    }
  }

  lemma NextKeeps(s: State, e: Event)
    requires Inv(s) && e.log.depth >= 1
    ensures Inv(Next(s, e))
  {
    match e
    case StepEvent(log) => StepKeeps(s, log);
    case FaultEvent(log) => FaultKeeps(s, log.error);
  }

  ghost predicate Trace(s: State, events: seq<Event>, t: State)
    decreases |events|
  {
    if events == [] then t == s
    else s.callstack != [] && events[0].log.depth >= 1 && Trace(Next(s, events[0]), events[1..], t)
  }

  lemma {:induction false} TraceKeeps(s: State, events: seq<Event>, t: State)
    requires Inv(s) && Trace(s, events, t)
    ensures Inv(t)
    decreases |events|
  {
    if events != [] {
      NextKeeps(s, events[0]);
      TraceKeeps(Next(s, events[0]), events[1..], t);
    }
  }

  lemma StartInv()
    ensures Inv(Start())
  {
    assert Start().callstack[..0] == [];
    assert IdsOf([]) == [] && Ids(OUTERMOST) == [0];
  }

  /** After every sequence of steps and faults the stack is not empty, and the calls on it with those
      attached to them are all the calls opened, in order and each once. */
  lemma NoCallLost(events: seq<Event>, t: State)
    requires Trace(Start(), events, t)
    ensures t.callstack != [] && IdsOf(t.callstack) == Numbers(t.count)
  {
    StartInv();
    TraceKeeps(Start(), events, t);
  }

  // ---- Which operations make a call ----

  /** A creation, a self-destruction, or a call to a contract that is not precompiled. */
  predicate MakesCall(e: Event) {
    && e.StepEvent? && e.log.error.None?
    && match e.log.op
       case CREATE => true
       case CREATE2 => true
       case SELFDESTRUCT => true
       case REVERT => false
       case Other => false
       case _ => !e.log.precompiled
  }

  function CallsMade(events: seq<Event>): nat {
    if events == [] then 0 else (if MakesCall(events[0]) then 1 else 0) + CallsMade(events[1..])
  }

  lemma {:induction false} CountGrows(s: State, events: seq<Event>, t: State)
    requires Trace(s, events, t)
    ensures t.count == s.count + CallsMade(events)
    decreases |events|
  {
    if events != [] {
      CountGrows(Next(s, events[0]), events[1..], t);
    }
  }

  /** After every sequence of steps and faults there is one call for each operation that makes one, and the
      outermost. */
  lemma CallsCounted(events: seq<Event>, t: State)
    requires Trace(Start(), events, t)
    ensures |IdsOf(t.callstack)| == 1 + CallsMade(events)
  {
    CountGrows(Start(), events, t);
    NoCallLost(events, t);
    NumbersLength(t.count);
  }

  /** What the other operations do: a self-destruction becomes the last call of its frame, with no calls inside, and
      a call to a precompiled contract changes nothing. */
  lemma NoFrameMade(s: State, log: Log)
    requires s.callstack != [] && log.depth >= 1 && log.error.None?
    ensures log.op == SELFDESTRUCT ==>
              var t := Step(s, log);
              && |t.callstack| == |s.callstack| && t.descended == s.descended
              && t.callstack[..|s.callstack| - 1] == s.callstack[..|s.callstack| - 1]
              && |Top(t).calls| == |Top(s).calls| + 1
              && Top(t) == Top(s).(calls := Top(s).calls + [Top(t).calls[|Top(s).calls|]])
              && var c := Top(t).calls[|Top(s).calls|];
              && c.id == s.count && c.op == Some(SELFDESTRUCT) && c.info == log.info && c.calls == []
              && c.gas == c.gasUsed == None && c.output == c.error == None
    ensures log.op in {CALL, CALLCODE, DELEGATECALL, STATICCALL} && log.precompiled ==> Step(s, log) == s
  {}

  /** A failure of the outermost frame stays with it: nothing is taken off the stack. */
  lemma OutermostFails(s: State, error: Option<string>)
    requires |s.callstack| == 1 && Top(s).error.None?
    ensures var t := Fault(s, error);
      |t.callstack| == 1 && Top(t).error == error && Top(t).calls == Top(s).calls && Top(t).id == Top(s).id
  {}

  // ---- What is reported ----

  lemma {:induction false} NumbersLength(n: nat)
    ensures |Numbers(n)| == n
  {
    if n > 0 {
      NumbersLength(n - 1);
    }
  }

  lemma {:induction false} IdsBeyondFirst(cs: seq<Call>)
    requires cs != []
    ensures |IdsOf(cs)| >= |Ids(cs[0])| + |cs| - 1
  {
    if |cs| > 1 {
      IdsBeyondFirst(cs[..|cs| - 1]);
    }
  }

  /** The result is made of the outermost frame: it has every call exactly if no other frame is left. */
  lemma ResultComplete(events: seq<Event>, t: State)
    requires Trace(Start(), events, t)
    ensures t.callstack != [] && (Ids(t.callstack[0]) == Numbers(t.count) <==> |t.callstack| == 1)
  {
    NoCallLost(events, t);
    NumbersLength(t.count);
    IdsBeyondFirst(t.callstack);
    if |t.callstack| == 1 {
      assert t.callstack[..0] == [] && IdsOf([]) == [];
    }
  }

  // ---- When no frame is left ----

  predicate Fails(e: Event) {
    e.FaultEvent? || e.log.error.Some?
  }

  /** An operation that neither calls nor ends its frame with a revert or a self-destruction. */
  predicate Plain(e: Event) {
    !Fails(e) && e.log.op == Other
  }

  /** Depths as the EVM reports them, zero after the end. A failing operation ends its frame, and so do a
      self-destruction and a revert, for which a fault may be reported still; a call goes one deeper or, if
      there is nothing to run, stays, as a call to a precompiled contract does; any other operation stays or
      returns. */
  predicate Follows(e: Event, depth: nat) {
    var d := e.log.depth;
    if Fails(e) then depth == d - 1
    else if Opens(e.log) then d <= depth <= d + 1
    else if e.log.op in {SELFDESTRUCT, REVERT, Other} then d - 1 <= depth <= d
    else depth == d
  }

  function DepthAfter(events: seq<Event>): nat
    requires events != []
  {
    if |events| == 1 then 0 else events[1].log.depth
  }

  ghost predicate FollowsEvm(events: seq<Event>)
    decreases |events|
  {
    events != [] ==> Follows(events[0], DepthAfter(events)) && FollowsEvm(events[1..])
  }

  /** The frames on the stack are those of the EVM, or the topmost call has just returned. */
  predicate Aligned(s: State, depth: nat) {
    |s.callstack| == depth || |s.callstack| == depth + 1
  }

  /** A step directly on return of a call after which that call stays on the stack for good: a call that is
      not entered, a revert or a self-destruction that ends the caller's frame, or a failure there when the
      returned call has an error already. */
  predicate Spoils(s: State, e: Event, depth: nat)
    requires s.callstack != []
  {
    && |s.callstack| == e.log.depth + 1
    && if Fails(e) then Top(s).error.Some?
       else if Opens(e.log) then depth == e.log.depth
       else (e.log.op == REVERT || e.log.op == SELFDESTRUCT) && depth + 1 == e.log.depth
  }

  /** Some step of the trace does so. */
  ghost predicate Spoiled(s: State, events: seq<Event>)
    decreases |events|
  {
    && events != [] && s.callstack != [] && events[0].log.depth >= 1
    && (Spoils(s, events[0], DepthAfter(events)) || Spoiled(Next(s, events[0]), events[1..]))
  }

  lemma StaysAligned(s: State, e: Event, depth: nat)
    requires s.callstack != [] && e.log.depth >= 1 && Aligned(s, e.log.depth) && Follows(e, depth)
    ensures Aligned(Next(s, e), depth) <==> !Spoils(s, e, depth)
    ensures Spoils(s, e, depth) ==> |Next(s, e).callstack| >= depth + 2
  {}

  lemma StaysAbove(s: State, e: Event, depth: nat)
    requires |s.callstack| >= e.log.depth + 2 && e.log.depth >= 1 && Follows(e, depth)
    ensures |Next(s, e).callstack| >= depth + 2
  {}

  lemma {:induction false} AboveToTheEnd(s: State, events: seq<Event>, t: State)
    requires events != [] ==> |s.callstack| >= events[0].log.depth + 2
    requires events == [] ==> |s.callstack| >= 2
    requires FollowsEvm(events) && Trace(s, events, t)
    ensures |t.callstack| >= 2
    decreases |events|
  {
    if events != [] {
      StaysAbove(s, events[0], DepthAfter(events));
      AboveToTheEnd(Next(s, events[0]), events[1..], t);
    }
  }

  lemma {:induction false} OneFrameExact(s: State, events: seq<Event>, t: State)
    requires Inv(s) && forall i | 0 <= i < |events| :: events[i].log.depth >= 1
    requires Aligned(s, if events == [] then 0 else events[0].log.depth)
    requires FollowsEvm(events) && Trace(s, events, t)
    ensures |t.callstack| == 1 <==> !Spoiled(s, events)
    decreases |events|
  {
    if events != [] {
      var next := Next(s, events[0]);
      NextKeeps(s, events[0]);
      StaysAligned(s, events[0], DepthAfter(events));
      if Spoils(s, events[0], DepthAfter(events)) {
        AboveToTheEnd(next, events[1..], t);
      } else {
        OneFrameExact(next, events[1..], t);
      }
    }
  }

  /** For every trace that follows the EVM's depths to its end, failing operations included, the result has
      every call exactly if no step directly on return of a call spoils it. */
  lemma {:induction false} TraceExact(events: seq<Event>, t: State)
    requires events != [] && events[0].log.depth == 1 && forall i | 0 <= i < |events| :: events[i].log.depth >= 1
    requires FollowsEvm(events) && Trace(Start(), events, t)
    ensures Inv(Start()) && t.callstack != []
    ensures Ids(t.callstack[0]) == Numbers(t.count) <==> !Spoiled(Start(), events)
  {
    StartInv();
    OneFrameExact(Start(), events, t);
    ResultComplete(events, t);
  }

  /** A step of the given operation, with made-up amounts and texts. */
  function Plainly(op: Op, depth: nat, gas: int): Log {
    Log(op, None, depth, gas, 0, false, 1, "", "")
  }

  /** Such a trace: a call that returns directly into one that is not entered. */
  lemma SpoiledTrace()
    ensures var events := [
              StepEvent(Plainly(CALL, 1, 0)), StepEvent(Plainly(Other, 2, 0)), StepEvent(Plainly(CALL, 1, 0)),
              StepEvent(Plainly(Other, 1, 0))];
      FollowsEvm(events) && Spoiled(Start(), events)
  {
    var a, b := StepEvent(Plainly(CALL, 1, 0)), StepEvent(Plainly(Other, 2, 0));
    var last := StepEvent(Plainly(Other, 1, 0));
    assert FollowsEvm([]);
    assert [last][1..] == [] && [a, last][1..] == [last] && [b, a, last][1..] == [a, last];
    assert [a, b, a, last][1..] == [b, a, last];
    assert FollowsEvm([last]) && FollowsEvm([a, last]) && FollowsEvm([b, a, last]);
    var s1 := Next(Start(), a);
    var s2 := Next(s1, b);
    assert |s1.callstack| == 2 && |s2.callstack| == 2;
    assert Spoils(s2, a, DepthAfter([a, last]));
    assert Spoiled(s2, [a, last]) && Spoiled(s1, [b, a, last]);
  }

  /** A call that is not entered, made by the very step at which another call returns: both stay on the
      stack, a plain step of the caller takes neither off, and the result lacks them. */
  lemma CallOnReturn(s: State, call: Log, next: Log)
    requires Inv(s) && call.depth == next.depth == |s.callstack| - 1 && call.depth >= 1 && Opens(call)
    requires Plain(StepEvent(next))
    ensures var t := Step(Step(s, call), next);
      |t.callstack| == |s.callstack| + 1 && Ids(t.callstack[0]) != Numbers(t.count)
  {
    var t := Step(Step(s, call), next);
    StepKeeps(s, call);
    StepKeeps(Step(s, call), next);
    NumbersLength(t.count);
    IdsBeyondFirst(t.callstack);
  }

  // ---- The final form ----

  datatype Report = Report(
    id: nat, op: Option<Op>, info: string, created: Option<nat>, gas: Option<int>, gasUsed: Option<int>,
    output: Option<string>, error: Option<string>, calls: seq<Report>)

  /** finalize: the fields that are reported, for a call and all calls inside it. */
  function Finalized(c: Call): Report
    decreases c
  {
    Report(c.id, c.op, c.info, c.created, c.gas, c.gasUsed, c.output, c.error, FinalizedAll(c.calls))
  }

  function FinalizedAll(cs: seq<Call>): (r: seq<Report>)
    ensures |r| == |cs|
    decreases cs
  {
    if cs == [] then [] else FinalizedAll(cs[..|cs| - 1]) + [Finalized(cs[|cs| - 1])]
  }

  /** A report tells of a call and of the calls inside it what is known of them, and nothing else. */
  ghost predicate Tells(r: Report, c: Call)
    decreases c
  {
    && r.id == c.id && r.op == c.op && r.info == c.info && r.created == c.created && r.gas == c.gas
    && r.gasUsed == c.gasUsed && r.output == c.output && r.error == c.error
    && |r.calls| == |c.calls| && forall i | 0 <= i < |c.calls| :: Tells(r.calls[i], c.calls[i])
  }

  lemma {:induction false} FinalizedTells(c: Call)
    ensures Tells(Finalized(c), c)
    decreases c
  {
    forall i | 0 <= i < |c.calls|
      ensures Tells(FinalizedAll(c.calls)[i], c.calls[i])
    {
      FinalizedAllTells(c.calls, i);
    }
  }

  lemma {:induction false} FinalizedAllTells(cs: seq<Call>, i: nat)
    requires i < |cs|
    ensures Tells(FinalizedAll(cs)[i], cs[i])
    decreases cs
  {
    if i < |cs| - 1 {
      FinalizedAllTells(cs[..|cs| - 1], i);
    } else {
      FinalizedTells(cs[i]);
    }
  }

  function ReportIds(r: Report): seq<nat>
    decreases r
  {
    [r.id] + ReportIdsOf(r.calls)
  }

  function ReportIdsOf(rs: seq<Report>): seq<nat>
    decreases rs
  {
    if rs == [] then [] else ReportIdsOf(rs[..|rs| - 1]) + ReportIds(rs[|rs| - 1])
  }

  /** The reported tree has the same calls in the same places. */
  lemma {:induction false} FinalizedIds(c: Call)
    ensures ReportIds(Finalized(c)) == Ids(c)
    decreases c
  {
    FinalizedIdsOf(c.calls);
  }

  lemma {:induction false} FinalizedIdsOf(cs: seq<Call>)
    ensures ReportIdsOf(FinalizedAll(cs)) == IdsOf(cs)
    decreases cs
  {
    if cs != [] {
      FinalizedIdsOf(cs[..|cs| - 1]);
      FinalizedIds(cs[|cs| - 1]);
      assert FinalizedAll(cs)[..|cs| - 1] == FinalizedAll(cs[..|cs| - 1]);
    }
  }

  // ---- In place ----

  class Tracer {
    var callstack: seq<Call>
    var descended: bool
    var count: nat

    function Model(): State
      reads this
    {
      State(callstack, descended, count)
    }

    constructor ()
      ensures Model() == Start()
    {
      callstack, descended, count := [OUTERMOST], false, 1;
    }

    method Push(call: Call)
      modifies this
      ensures callstack == old(callstack) + [call] && descended == old(descended) && count == old(count) + 1
    {
      callstack := callstack + [call];
      count := count + 1;
    }

    method PopCall() returns (call: Call)
      requires callstack != []
      modifies this`callstack
      ensures call == Top(old(Model())) && callstack == Pop(old(Model())).callstack
    {
      call := callstack[|callstack| - 1];
      callstack := callstack[..|callstack| - 1];
    }

    method AttachCall(call: Call)
      requires callstack != []
      modifies this`callstack
      ensures callstack == Attach(old(Model()), call).callstack
    {
      var left := |callstack|;
      callstack := callstack[left - 1 := callstack[left - 1].(calls := callstack[left - 1].calls + [call])];
    }

    /** fault. */
    method HandleFault(error: Option<string>)
      requires callstack != []
      modifies this
      ensures Model() == Fault(old(Model()), error)
    {
      if callstack[|callstack| - 1].error.Some? {
        return;
      }
      var call := PopCall();
      call := call.(error := error);
      if call.gas.Some? {
        call := call.(gasUsed := call.gas);
      }
      call := call.(gasIn := None, gasCost := None);
      if |callstack| > 0 {
        AttachCall(call);
        return;
      }
      callstack := callstack + [call];
    }

    method Return(log: Log)
      requires |callstack| > 1
      modifies this`callstack
      ensures callstack == Attach(Pop(old(Model())), Returned(Top(old(Model())), log)).callstack
    {
      var call := PopCall();
      if call.op.Some? && Creates(call.op.value) {
        call := call.(gasUsed := Some(Minus(call.gasIn, call.gasCost) - log.gas));
      } else if call.gas.Some? {
        call := call.(gasUsed := Some(Minus(call.gasIn, call.gasCost) + call.gas.value - log.gas));
      }
      if log.result != 0 {
        if call.op.Some? && Creates(call.op.value) {
          call := call.(created := Some(log.result));
        }
        call := call.(output := Some(log.output));
      } else if call.error == None {
        call := call.(error := Some("internal failure"));
      }
      AttachCall(call.(gasIn := None, gasCost := None));
    }

    /** step. */
    method HandleStep(log: Log)
      requires callstack != [] && log.depth >= 1
      modifies this
      ensures Model() == Step(old(Model()), log)
    {
      if log.error.Some? {
        HandleFault(log.error);
        return;
      }
      if Creates(log.op) {
        Push(Opened(Model(), log));
        descended := true;
        return;
      }
      if log.op == SELFDESTRUCT {
        AttachCall(Opened(Model(), log));
        count := count + 1;
        return;
      }
      if log.op in {CALL, CALLCODE, DELEGATECALL, STATICCALL} {
        if log.precompiled {
          return;
        }
        Push(Opened(Model(), log));
        descended := true;
        return;
      }
      if descended {
        if log.depth >= |callstack| {
          callstack := callstack[|callstack| - 1 := callstack[|callstack| - 1].(gas := Some(log.gas))];
        }
        descended := false;
      }
      if log.op == REVERT {
        callstack := callstack[|callstack| - 1 := callstack[|callstack| - 1].(error := Some("execution reverted"))];
        return;
      }
      if log.depth == |callstack| - 1 {
        Return(log);
      }
    }

    /** result, for the calls it reports. */
    method Result() returns (calls: seq<Report>)
      requires callstack != []
      ensures calls == FinalizedAll(callstack[0].calls)
    {
      calls := FinalizeAll(callstack[0].calls);
    }
  }

  /** finalize, for the calls inside a call. */
  method FinalizeAll(cs: seq<Call>) returns (rs: seq<Report>)
    ensures rs == FinalizedAll(cs)
    ensures |rs| == |cs| && forall i | 0 <= i < |cs| :: Tells(rs[i], cs[i])
    decreases cs
  {
    rs := [];
    for i := 0 to |cs|
      invariant rs == FinalizedAll(cs[..i])
    {
      assert cs[..i + 1][..i] == cs[..i];
      var inner := FinalizeAll(cs[i].calls);
      var c := cs[i];
      rs := rs + [Report(c.id, c.op, c.info, c.created, c.gas, c.gasUsed, c.output, c.error, inner)];
    }
    assert cs[..|cs|] == cs;
    forall i | 0 <= i < |cs| {
      FinalizedAllTells(cs, i);
    }
  }
}
