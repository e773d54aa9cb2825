/**
  Processing the events of a block (packages/util/src/common.ts): page by page, in index order or in the
  order of a subgraph node, where the events of contracts that a handler starts to watch come last.
*/
module EventOrder {
  import opened Wrappers

  /** A saved event; an event that could not be parsed when it was saved has no name. */
  datatype Event = Event(index: int, contract: string, name: Option<string>)

  /** What handlers do to the set of watched contracts: the contracts that the handler of the last event of
      a sequence of handled events starts to watch. */
  type Handlers = seq<Event> -> set<string>

  /** The name of an unknown event by the ABIs of the watched contracts, if it can be parsed. */
  type Parser = (Event, set<string>) -> Option<string>

  ghost predicate Ascending(events: seq<Event>) {
    forall i, j | 0 <= i < j < |events| :: events[i].index < events[j].index
  }

  // ---- The order ----

  /** The contracts watched once the events are handled. */
  ghost function WatchedAfter(watched: set<string>, handlers: Handlers, before: seq<Event>,
      handled: seq<Event>): set<string> {
    if handled == [] then watched
    else WatchedAfter(watched, handlers, before, handled[..|handled| - 1]) + handlers(before + handled)
  }

  /** The events of the given contracts, in index order. */
  function OfContracts(events: seq<Event>, contracts: set<string>): seq<Event> {
    if events == [] then []
    else
      var rest, last := OfContracts(events[..|events| - 1], contracts), events[|events| - 1];
      if last.contract in contracts then rest + [last] else rest
  }

  function OfOthers(events: seq<Event>, contracts: set<string>): seq<Event> {
    if events == [] then []
    else
      var rest, last := OfOthers(events[..|events| - 1], contracts), events[|events| - 1];
      if last.contract in contracts then rest else rest + [last]
  }

  /** An unknown event of a watched contract that can be parsed now. */
  function Parsed(e: Event, watched: set<string>, parse: Parser): Option<Event> {
    if e.contract in watched && e.name == None && parse(e, watched).Some?
    then Some(e.(name := parse(e, watched))) else None
  }

  function ParsedEvents(events: seq<Event>, watched: set<string>, parse: Parser): seq<Event> {
    if events == [] then []
    else
      var rest, last := ParsedEvents(events[..|events| - 1], watched, parse),
          Parsed(events[|events| - 1], watched, parse);
      if last.Some? then rest + [last.value] else rest
  }

  /** First the events of the contracts watched at the start; then the unknown events of contracts watched
      by the handlers of the first, as far as they can be parsed. */
  ghost function SubgraphOrder(events: seq<Event>, watched: set<string>, handlers: Handlers, parse: Parser,
      before: seq<Event>): seq<Event> {
    var first := OfContracts(events, watched);
    first + ParsedEvents(OfOthers(events, watched), WatchedAfter(watched, handlers, before, first), parse)
  }

  // ---- What the order contains ----

  lemma {:induction false} OfContractsAppend(a: seq<Event>, b: seq<Event>, contracts: set<string>)
    ensures OfContracts(a + b, contracts) == OfContracts(a, contracts) + OfContracts(b, contracts)
    ensures OfOthers(a + b, contracts) == OfOthers(a, contracts) + OfOthers(b, contracts)
  {
    if b == [] {
      assert a + b == a;
    } else {
      OfContractsAppend(a, b[..|b| - 1], contracts);
      assert (a + b)[..|a + b| - 1] == a + b[..|b| - 1];
    }
  }

  lemma {:induction false} OfContractsExact(events: seq<Event>, contracts: set<string>, e: Event)
    ensures e in OfContracts(events, contracts) <==> e in events && e.contract in contracts
    ensures e in OfOthers(events, contracts) <==> e in events && e.contract !in contracts
  {
    if events != [] {
      OfContractsExact(events[..|events| - 1], contracts, e);
      assert e in events <==> e in events[..|events| - 1] || e == events[|events| - 1];
    }
  }

  /** Every sequence taken from ascending events is ascending and stays below their bound. */
  lemma {:induction false} OfContractsAscends(events: seq<Event>, contracts: set<string>, bound: int)
    requires Ascending(events) && forall i | 0 <= i < |events| :: events[i].index < bound
    ensures var r := OfContracts(events, contracts); Ascending(r) && forall i | 0 <= i < |r| :: r[i].index < bound
    ensures var r := OfOthers(events, contracts); Ascending(r) && forall i | 0 <= i < |r| :: r[i].index < bound
  {
    if events != [] {
      OfContractsAscends(events[..|events| - 1], contracts, events[|events| - 1].index);
    }
  }

  /** The events so obtained are the unknown ones of watched contracts that can be parsed, each with its name. */
  lemma {:induction false} ParsedExact(events: seq<Event>, watched: set<string>, parse: Parser, e: Event)
    ensures e in ParsedEvents(events, watched, parse)
      <==> exists u | u in events && u.contract in watched && u.name == None && parse(u, watched).Some? ::
             e == u.(name := parse(u, watched))
  {
    if events != [] {
      var init, last := events[..|events| - 1], events[|events| - 1];
      ParsedExact(init, watched, parse, e);
      assert forall u | u in events :: u in init || u == last;
      assert last in events;
    }
  }

  lemma {:induction false} ParsedAscends(events: seq<Event>, watched: set<string>, parse: Parser, bound: int)
    requires Ascending(events) && forall i | 0 <= i < |events| :: events[i].index < bound
    ensures var r := ParsedEvents(events, watched, parse); Ascending(r) && forall i | 0 <= i < |r| :: r[i].index < bound
  {
    if events != [] {
      ParsedAscends(events[..|events| - 1], watched, parse, events[|events| - 1].index);
    }
  }

  /** A contract is watched in the end exactly if it was at the start or a handler has started to watch it. */
  lemma {:induction false} WatchedExact(watched: set<string>, handlers: Handlers, before: seq<Event>,
      handled: seq<Event>, contract: string)
    ensures contract in WatchedAfter(watched, handlers, before, handled)
      <==> contract in watched || exists k | 0 < k <= |handled| :: contract in handlers(before + handled[..k])
  {
    if handled != [] {
      var init := handled[..|handled| - 1];
      WatchedExact(watched, handlers, before, init, contract);
      assert forall k | 0 < k <= |init| :: handled[..k] == init[..k];
      assert handled[..|handled|] == handled;
    }
  }

  /** An event is handled exactly if its contract was watched at the start, or if it is an unknown event
      of a contract watched since that can be parsed, with the name that it then gets. */
  lemma HandledExactly(events: seq<Event>, watched: set<string>, handlers: Handlers, parse: Parser, before: seq<Event>,
      e: Event)
    ensures var order := SubgraphOrder(events, watched, handlers, parse, before);
      var now := WatchedAfter(watched, handlers, before, OfContracts(events, watched));
      e in order <==>
        (e in events && e.contract in watched)
        || exists u | u in events && u.contract !in watched && u.contract in now && u.name == None
             && parse(u, now).Some? :: e == u.(name := parse(u, now))
  {
    var others := OfOthers(events, watched);
    var now := WatchedAfter(watched, handlers, before, OfContracts(events, watched));
    OfContractsExact(events, watched, e);
    ParsedExact(others, now, parse, e);
    forall u
      ensures u in others <==> u in events && u.contract !in watched
    {
      OfContractsExact(events, watched, u);
    }
  }

  /** The events of the contracts watched at the start come before the others, and within both parts the
      indices go up, so that no event is handled twice. */
  lemma HandledOnce(events: seq<Event>, watched: set<string>, handlers: Handlers, parse: Parser, before: seq<Event>,
      i: nat, j: nat)
    requires Ascending(events)
    requires i < j < |SubgraphOrder(events, watched, handlers, parse, before)|
    ensures var order := SubgraphOrder(events, watched, handlers, parse, before);
      && (order[j].contract in watched ==> order[i].contract in watched)
      && ((order[i].contract in watched <==> order[j].contract in watched) ==> order[i].index < order[j].index)
  {
    var first, others := OfContracts(events, watched), OfOthers(events, watched);
    var now := WatchedAfter(watched, handlers, before, first);
    var second := ParsedEvents(others, now, parse);
    var bound := if events == [] then 0 else events[|events| - 1].index + 1;
    OfContractsAscends(events, watched, bound);
    ParsedAscends(others, now, parse, bound);
    PartOf(events, watched, now, parse, i);
    PartOf(events, watched, now, parse, j);
  }

  lemma PartOf(events: seq<Event>, watched: set<string>, now: set<string>, parse: Parser, i: nat)
    ensures var first, second := OfContracts(events, watched), ParsedEvents(OfOthers(events, watched), now, parse);
      && (i < |first| ==> first[i].contract in watched)
      && (|first| <= i < |first| + |second| ==> second[i - |first|].contract !in watched)
  {
    var first, others := OfContracts(events, watched), OfOthers(events, watched);
    var second := ParsedEvents(others, now, parse);
    if i < |first| {
      OfContractsExact(events, watched, first[i]);
    } else if i < |first| + |second| {
      var e := second[i - |first|];
      ParsedExact(others, now, parse, e);
      var u :| u in others && e == u.(name := parse(u, now));
      OfContractsExact(events, watched, u);
    }
  }

  // ---- Index order ----

  /** In index order an event is handled if its contract is watched by then, with its name if it can be
      parsed by then. */
  ghost function IndexOrder(events: seq<Event>, watched: set<string>, handlers: Handlers, parse: Parser,
      before: seq<Event>): seq<Event> {
    if events == [] then []
    else
      var rest, last := IndexOrder(events[..|events| - 1], watched, handlers, parse, before), events[|events| - 1];
      var now := WatchedAfter(watched, handlers, before, rest);
      if last.contract !in now then rest
      else rest + [if Parsed(last, now, parse).Some? then Parsed(last, now, parse).value else last]
  }

  /** The contracts watched when it is the turn of event `k`. */
  ghost function WatchedAt(events: seq<Event>, k: nat, watched: set<string>, handlers: Handlers, parse: Parser,
      before: seq<Event>): set<string>
    requires k <= |events|
  {
    WatchedAfter(watched, handlers, before, IndexOrder(events[..k], watched, handlers, parse, before))
  }

  /** Event `k` is handled in index order as `e`. */
  ghost predicate HandledAs(events: seq<Event>, k: nat, watched: set<string>, handlers: Handlers, parse: Parser,
      before: seq<Event>, e: Event)
    requires k < |events|
  {
    var now := WatchedAt(events, k, watched, handlers, parse, before);
    && events[k].contract in now
    && e == if events[k].name == None && parse(events[k], now).Some?
            then events[k].(name := parse(events[k], now)) else events[k]
  }

  /** What the last event adds. */
  lemma LastInOrder(events: seq<Event>, watched: set<string>, handlers: Handlers, parse: Parser, before: seq<Event>)
    requires events != []
    ensures var rest := IndexOrder(events[..|events| - 1], watched, handlers, parse, before);
      var last := events[|events| - 1];
      var now := WatchedAfter(watched, handlers, before, rest);
      IndexOrder(events, watched, handlers, parse, before)
      == if last.contract !in now then rest
         else rest + [if last.name == None && parse(last, now).Some? then last.(name := parse(last, now)) else last]
  {}

  lemma LastHandled(events: seq<Event>, watched: set<string>, handlers: Handlers, parse: Parser, before: seq<Event>,
      e: Event)
    requires events != []
    ensures e in IndexOrder(events, watched, handlers, parse, before)
      <==> e in IndexOrder(events[..|events| - 1], watched, handlers, parse, before)
           || HandledAs(events, |events| - 1, watched, handlers, parse, before, e)
  {
    LastInOrder(events, watched, handlers, parse, before);
  }

  /** In index order the events handled are those whose contracts are watched when it is their turn; an
      unknown one gets its name if it can be parsed then. */
  lemma {:induction false} IndexOrderExact(events: seq<Event>, watched: set<string>, handlers: Handlers,
      parse: Parser, before: seq<Event>, e: Event)
    ensures e in IndexOrder(events, watched, handlers, parse, before)
      <==> exists k | 0 <= k < |events| :: HandledAs(events, k, watched, handlers, parse, before, e)
  {
    if events != [] {
      var init := events[..|events| - 1];
      IndexOrderExact(init, watched, handlers, parse, before, e);
      LastHandled(events, watched, handlers, parse, before, e);
      forall k | 0 <= k < |init|
        ensures HandledAs(init, k, watched, handlers, parse, before, e)
          <==> HandledAs(events, k, watched, handlers, parse, before, e)
      {
        assert init[..k] == events[..k];
      }
    }
  }

  /** And their indices go up. */
  lemma {:induction false} IndexOrderAscends(events: seq<Event>, watched: set<string>, handlers: Handlers,
      parse: Parser, before: seq<Event>, bound: int)
    requires Ascending(events) && forall i | 0 <= i < |events| :: events[i].index < bound
    ensures var r := IndexOrder(events, watched, handlers, parse, before);
      Ascending(r) && forall i | 0 <= i < |r| :: r[i].index < bound
  {
    if events != [] {
      IndexOrderAscends(events[..|events| - 1], watched, handlers, parse, before, events[|events| - 1].index);
    }
  }

  lemma {:induction false} NothingWatched(watched: set<string>, handlers: Handlers, before: seq<Event>,
      handled: seq<Event>)
    requires forall h :: handlers(h) <= watched
    ensures WatchedAfter(watched, handlers, before, handled) == watched
  {
    if handled != [] {
      NothingWatched(watched, handlers, before, handled[..|handled| - 1]);
    }
  }

  lemma {:induction false} NothingParsed(events: seq<Event>, watched: set<string>, parse: Parser)
    requires forall i | 0 <= i < |events| :: events[i].contract !in watched
    ensures ParsedEvents(events, watched, parse) == []
  {
    if events != [] {
      NothingParsed(events[..|events| - 1], watched, parse);
    }
  }

  lemma {:induction false} IndexOrderKnown(events: seq<Event>, watched: set<string>, handlers: Handlers, parse: Parser,
      before: seq<Event>)
    requires forall h :: handlers(h) <= watched
    requires forall i | 0 <= i < |events| :: events[i].contract in watched ==> events[i].name.Some?
    ensures IndexOrder(events, watched, handlers, parse, before) == OfContracts(events, watched)
  {
    if events != [] {
      var init := events[..|events| - 1];
      IndexOrderKnown(init, watched, handlers, parse, before);
      NothingWatched(watched, handlers, before, OfContracts(init, watched));
    }
  }

  /** As long as no handler watches a new contract, the two orders are the same. */
  lemma OrdersAgree(events: seq<Event>, watched: set<string>, handlers: Handlers, parse: Parser, before: seq<Event>)
    requires forall h :: handlers(h) <= watched
    requires forall i | 0 <= i < |events| :: events[i].contract in watched ==> events[i].name.Some?
    ensures IndexOrder(events, watched, handlers, parse, before)
        == SubgraphOrder(events, watched, handlers, parse, before)
  {
    IndexOrderKnown(events, watched, handlers, parse, before);
    NothingWatched(watched, handlers, before, OfContracts(events, watched));
    forall i | 0 <= i < |OfOthers(events, watched)|
      ensures OfOthers(events, watched)[i].contract !in watched
    {
      OfContractsExact(events, watched, OfOthers(events, watched)[i]);
    }
    NothingParsed(OfOthers(events, watched), watched, parse);
  }

  lemma {:induction false} WatchedAppend(watched: set<string>, handlers: Handlers, before: seq<Event>, a: seq<Event>,
      b: seq<Event>)
    ensures WatchedAfter(watched, handlers, before, a + b)
         == WatchedAfter(WatchedAfter(watched, handlers, before, a), handlers, before + a, b)
  {
    if b == [] {
      assert a + b == a;
    } else {
      WatchedAppend(watched, handlers, before, a, b[..|b| - 1]);
      assert (a + b)[..|a + b| - 1] == a + b[..|b| - 1];
      assert before + (a + b) == before + a + b;
    }
  }
}
